/** `constants/orgs-repos-list.js`: the hand-maintained catalog of
    organisations and the repositories analysed for each. */
module OrgsReposCatalog {

  /** One catalog entry: an organisation and its repositories, in fetch order. */
  datatype OrgRecord = OrgRecord(orgName: string, repoNames: seq<string>)

  /** `ORGS_REPOS_LIST`. */
  const OrgsReposList: seq<OrgRecord> := [
    OrgRecord("emberjs", [
      "data",
      "ember.js",
      "ember-test-helpers",
      "ember-qunit",
      "ember-render-modifiers",
      "ember-test-waiters",
      "ember-inspector"
    ]),
    OrgRecord("ember-cli", [
      "ember-cli",
      "eslint-plugin-ember",
      "ember-try",
      "ember-page-title"
    ]),
    OrgRecord("glimmerjs", ["glimmer.js", "glimmer-vm"])
  ]

  /** The organisation names of a catalog, in catalog order. */
  function OrgNames(catalog: seq<OrgRecord>): (names: seq<string>)
    ensures |names| == |catalog|
    ensures forall i :: 0 <= i < |catalog| ==> names[i] == catalog[i].orgName
  {
    if catalog == [] then [] else [catalog[0].orgName] + OrgNames(catalog[1..])
  }

  /** No string occurs twice in `s`. */
  predicate Distinct(s: seq<string>)
  {
    forall i, j :: 0 <= i < j < |s| ==> s[i] != s[j]
  }

  /** Every (organisation, repository) pair of a catalog, flattened in
      catalog order. */
  function AllPairs(catalog: seq<OrgRecord>): (pairs: seq<(string, string)>)
    ensures |pairs| == Count(catalog)
    ensures forall o, r :: (o, r) in pairs <==> exists i :: 0 <= i < |catalog| && catalog[i].orgName == o && r in catalog[i].repoNames
  {
    if catalog == [] then []
    else
      var head := PairsOf(catalog[0]);
      var rest := AllPairs(catalog[1..]);
      assert forall o, r :: (o, r) in rest <==> exists i :: 1 <= i < |catalog| && catalog[i].orgName == o && r in catalog[i].repoNames by {
        forall o, r
          ensures (o, r) in rest <==> exists i :: 1 <= i < |catalog| && catalog[i].orgName == o && r in catalog[i].repoNames
        {
          if (o, r) in rest {
            var k :| 0 <= k < |catalog[1..]| && catalog[1..][k].orgName == o && r in catalog[1..][k].repoNames;
            assert catalog[k + 1] == catalog[1..][k];
          }
          if exists i :: 1 <= i < |catalog| && catalog[i].orgName == o && r in catalog[i].repoNames {
            var i :| 1 <= i < |catalog| && catalog[i].orgName == o && r in catalog[i].repoNames;
            assert catalog[1..][i - 1] == catalog[i];
          }
        }
      }
      head + rest
  }

  /** Flattening respects catalog order: the pairs of a concatenated
      catalog are those of the first part followed by those of the second. */
  lemma {:induction false} AllPairsConcat(a: seq<OrgRecord>, b: seq<OrgRecord>)
    ensures AllPairs(a + b) == AllPairs(a) + AllPairs(b)
    decreases |a|
  {
    if a == [] {
      assert a + b == b;
    } else {
      assert (a + b)[0] == a[0];
      assert (a + b)[1..] == a[1..] + b;
      AllPairsConcat(a[1..], b);
    }
  }

  /** The pairs of one catalog entry, in repository order. */
  function PairsOf(entry: OrgRecord): (pairs: seq<(string, string)>)
    ensures |pairs| == |entry.repoNames|
    ensures forall o, r :: (o, r) in pairs <==> o == entry.orgName && r in entry.repoNames
  {
    var ps := seq(|entry.repoNames|, i requires 0 <= i < |entry.repoNames| => (entry.orgName, entry.repoNames[i]));
    assert forall r :: r in entry.repoNames ==> (entry.orgName, r) in ps by {
      forall r | r in entry.repoNames ensures (entry.orgName, r) in ps {
        var i :| 0 <= i < |entry.repoNames| && entry.repoNames[i] == r;
        assert ps[i] == (entry.orgName, r);
      }
    }
    ps
  }

  /** The number of repositories in a catalog. */
  function Count(catalog: seq<OrgRecord>): nat
  {
    if catalog == [] then 0 else |catalog[0].repoNames| + Count(catalog[1..])
  }

  /** The catalog lists three organisations, in the order emberjs,
      ember-cli, glimmerjs, and no name occurs twice. */
  lemma CatalogOrganisations()
    ensures OrgNames(OrgsReposList) == ["emberjs", "ember-cli", "glimmerjs"]
    ensures Distinct(OrgNames(OrgsReposList))
  {
  }

  /** emberjs has 7 repositories, ember-cli 4 and glimmerjs 2; within each
      organisation no repository name occurs twice. */
  lemma CatalogRepositories()
    ensures |OrgsReposList[0].repoNames| == 7
    ensures |OrgsReposList[1].repoNames| == 4
    ensures |OrgsReposList[2].repoNames| == 2
    ensures forall i :: 0 <= i < |OrgsReposList| ==> Distinct(OrgsReposList[i].repoNames)
  {
  }

  /** Flattening the catalog in order yields 13 (organisation, repository) pairs. */
  lemma CatalogPairCount()
    ensures |AllPairs(OrgsReposList)| == 13
  {
  }
}
