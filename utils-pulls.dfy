/** `scripts/utils-pulls.js`: the statistics pipeline over fetched
    pull-request records, and the catalog lookup used by the batch jobs. */
module UtilsPulls {
  import opened Wrappers
  import opened Sequences
  import opened UtilsGeneral
  import opened OrgsReposCatalog

  /** The fields of a GitHub pull-request record the pipeline reads:
      `user.login`, `state`, `created_at`, `closed_at` and `merged_at`. */
  datatype PullRecord = PullRecord(
    login: string,
    state: string,
    createdAt: Timestamp,
    closedAt: Timestamp,
    mergedAt: Timestamp)

  /** The author is a bot: its login contains `[bot]` anywhere. */
  predicate IsBotAuthored(pull: PullRecord)
  {
    Includes(pull.login, "[bot]")
  }

  predicate IsHumanAuthored(pull: PullRecord)
  {
    !IsBotAuthored(pull)
  }

  /** `getFilteredPulls`: drops every record whose author login contains `[bot]`. */
  function GetFilteredPulls(pulls: seq<PullRecord>): (r: seq<PullRecord>)
    ensures IsSubsequence(r, pulls)
    ensures forall p :: p in r <==> p in pulls && !IsBotAuthored(p)
    ensures forall p :: multiset(r)[p] == if IsBotAuthored(p) then 0 else multiset(pulls)[p]
  {
    Filter(pulls, IsHumanAuthored)
  }

  /** The bot filter keeps exactly the records in whose login `[bot]`
      occurs at no index. */
  lemma FilteredPullsHaveNoBotMarker(pulls: seq<PullRecord>)
    ensures forall p :: p in GetFilteredPulls(pulls) <==> p in pulls && forall i :: !OccursAt(p.login, "[bot]", i)
  {
    forall p | p in pulls {
      IncludesIffOccurs(p.login, "[bot]");
    }
  }

  /** Filtering a filtered list changes nothing. */
  lemma FilteredPullsIdempotent(pulls: seq<PullRecord>)
    ensures GetFilteredPulls(GetFilteredPulls(pulls)) == GetFilteredPulls(pulls)
  {
    FilterIdempotent(pulls, IsHumanAuthored);
  }

  predicate IsOpen(pull: PullRecord)   { pull.state == "open" }
  predicate IsClosed(pull: PullRecord) { pull.state == "closed" }
  predicate IsKnownState(pull: PullRecord) { IsOpen(pull) || IsClosed(pull) }
  /** Closed by merging: `closed_at === merged_at`, compared raw (two nulls are equal). */
  predicate IsMerged(pull: PullRecord)   { pull.closedAt == pull.mergedAt }
  predicate IsUnmerged(pull: PullRecord) { pull.closedAt != pull.mergedAt }

  /** The four buckets `getSortedPulls` returns, in its order. */
  datatype SortedPulls = SortedPulls(
    open: seq<PullRecord>,
    closed: seq<PullRecord>,
    closedMerged: seq<PullRecord>,
    closedUnmerged: seq<PullRecord>)

  /** `getSortedPulls`: open and closed records, and the closed ones split by
      how they were closed. Records in any other state are in no bucket. */
  function GetSortedPulls(pulls: seq<PullRecord>): (r: SortedPulls)
    ensures IsSubsequence(r.open, pulls) && IsSubsequence(r.closed, pulls)
    ensures forall p :: p in r.open <==> p in pulls && p.state == "open"
    ensures forall p :: p in r.closed <==> p in pulls && p.state == "closed"
    ensures forall p :: !(p in r.open && p in r.closed)
    ensures multiset(r.open) + multiset(r.closed) <= multiset(pulls)
    ensures |r.open| + |r.closed| <= |pulls|
    ensures IsSubsequence(r.closedMerged, r.closed) && IsSubsequence(r.closedUnmerged, r.closed)
    ensures forall p :: p in r.closedMerged <==> p in r.closed && p.closedAt == p.mergedAt
    ensures forall p :: p in r.closedUnmerged <==> p in r.closed && p.closedAt != p.mergedAt
    ensures multiset(r.closedMerged) + multiset(r.closedUnmerged) == multiset(r.closed)
    ensures |r.closedMerged| + |r.closedUnmerged| == |r.closed|
  {
    var pullsOpen := Filter(pulls, IsOpen);
    var pullsClosed := Filter(pulls, IsClosed);
    FilterDisjoint(pulls, IsOpen, IsClosed);
    FilterSplit(pullsClosed, IsMerged, IsUnmerged);
    SortedPulls(pullsOpen, pullsClosed, Filter(pullsClosed, IsMerged), Filter(pullsClosed, IsUnmerged))
  }

  /** Every record with a known state lands in exactly one of open,
      closed-merged and closed-unmerged; when every state is known the
      three buckets account for the whole input. */
  lemma SortedPullsPartitionKnownStates(pulls: seq<PullRecord>)
    ensures var r := GetSortedPulls(pulls);
      |r.open| + |r.closedMerged| + |r.closedUnmerged| == |Filter(pulls, IsKnownState)|
    ensures (forall p :: p in pulls ==> p.state == "open" || p.state == "closed") ==>
      |GetSortedPulls(pulls).open| + |GetSortedPulls(pulls).closed| == |pulls|
  {
    KnownStatesSplit(pulls);
    if forall p :: p in pulls ==> p.state == "open" || p.state == "closed" {
      AllKnown(pulls);
    }
  }

  lemma {:induction false} KnownStatesSplit(pulls: seq<PullRecord>)
    ensures |Filter(pulls, IsOpen)| + |Filter(pulls, IsClosed)| == |Filter(pulls, IsKnownState)|
  {
    if pulls != [] {
      KnownStatesSplit(pulls[1..]);
    }
  }

  lemma {:induction false} AllKnown(pulls: seq<PullRecord>)
    requires forall p :: p in pulls ==> IsKnownState(p)
    ensures Filter(pulls, IsKnownState) == pulls
  {
    if pulls != [] {
      assert pulls[0] in pulls;
      assert forall p :: p in pulls[1..] ==> p in pulls;
      AllKnown(pulls[1..]);
      assert pulls == [pulls[0]] + pulls[1..];
    }
  }

  /** A closed record whose `merged_at` is null while `closed_at` is set is unmerged. */
  lemma ClosedWithoutMergeIsUnmerged(pulls: seq<PullRecord>, p: PullRecord)
    requires p in pulls && p.state == "closed" && p.closedAt.Some? && p.mergedAt.None?
    ensures p in GetSortedPulls(pulls).closedUnmerged && p !in GetSortedPulls(pulls).closedMerged
  {
  }

  /** `getPullOpenTime`: the days from `created_at` to `closed_at`. */
  function GetPullOpenTime(ms: DateParser, pullClosed: PullRecord): (days: real)
    ensures days * MsPerDay == (ms(pullClosed.closedAt) - ms(pullClosed.createdAt)) as real
    ensures ms(pullClosed.createdAt) <= ms(pullClosed.closedAt) ==> days >= 0.0
  {
    GetElapsedTimeDays(ms, pullClosed.createdAt, pullClosed.closedAt)
  }

  /** `getPullOpenTimes`: one open time per record, in order. */
  function GetPullOpenTimes(ms: DateParser, pullsClosed: seq<PullRecord>): (times: seq<real>)
    ensures |times| == |pullsClosed|
    ensures forall i :: 0 <= i < |pullsClosed| ==>
      times[i] * MsPerDay == (ms(pullsClosed[i].closedAt) - ms(pullsClosed[i].createdAt)) as real
  {
    Map(pullsClosed, (p: PullRecord) => GetPullOpenTime(ms, p))
  }

  /** `getPullOpenTimeMean`: the mean open time; `reduce` throws on an
      empty list, so the list must be non-empty. */
  function GetPullOpenTimeMean(ms: DateParser, pullsClosed: seq<PullRecord>): (mean: real)
    requires |pullsClosed| > 0
    ensures mean * (|pullsClosed| as real) == GetArraySum(GetPullOpenTimes(ms, pullsClosed))
  {
    GetArrayMean(GetPullOpenTimes(ms, pullsClosed))
  }

  /** If no record was closed before it was created, the mean open time is
      not negative; and it never exceeds the longest open time. */
  lemma PullOpenTimeMeanBounds(ms: DateParser, pullsClosed: seq<PullRecord>, longest: real)
    requires |pullsClosed| > 0
    requires forall p :: p in pullsClosed ==> ms(p.createdAt) <= ms(p.closedAt)
    requires forall p :: p in pullsClosed ==> GetPullOpenTime(ms, p) <= longest
    ensures 0.0 <= GetPullOpenTimeMean(ms, pullsClosed) <= longest
  {
    var times := GetPullOpenTimes(ms, pullsClosed);
    forall i | 0 <= i < |times| ensures 0.0 <= times[i] <= longest {
      assert pullsClosed[i] in pullsClosed;
      assert times[i] == GetPullOpenTime(ms, pullsClosed[i]);
    }
    ArrayMeanBounds(times, 0.0, longest);
  }

  /** The summary record `getPullStatistics` builds. */
  datatype PullStatistics = PullStatistics(
    orgName: string,
    repoName: string,
    openPullsCount: nat,
    closedPullsCount: nat,
    closedMergedCount: nat,
    closedUnmergedCount: nat,
    averageTimeToResolution: real)

  /** `getPullStatistics`. The mean over the closed records is computed
      with a seedless `reduce`, so with no closed record the call throws
      instead of returning a record. */
  function GetPullStatistics(ms: DateParser, orgName: string, repoName: string, pulls: seq<PullRecord>): (r: Result<PullStatistics, TypeError>)
    ensures r.Failure? <==> forall p :: p in pulls ==> p.state != "closed"
    ensures r.Failure? ==> r.error == ReduceOfEmptyArray
    ensures r.Success? ==>
      var s, sorted := r.value, GetSortedPulls(pulls);
      && s.orgName == orgName && s.repoName == repoName
      && s.openPullsCount == |sorted.open| && s.closedPullsCount == |sorted.closed|
      && s.closedMergedCount == |sorted.closedMerged| && s.closedUnmergedCount == |sorted.closedUnmerged|
      && s.closedMergedCount + s.closedUnmergedCount == s.closedPullsCount
      && s.openPullsCount + s.closedPullsCount <= |pulls|
      && s.averageTimeToResolution == GetPullOpenTimeMean(ms, sorted.closed)
  {
    var sorted := GetSortedPulls(pulls);
    NoClosedPulls(pulls);
    if |sorted.closed| == 0 then
      Failure(ReduceOfEmptyArray)
    else
      Success(PullStatistics(
        orgName, repoName,
        |sorted.open|, |sorted.closed|, |sorted.closedMerged|, |sorted.closedUnmerged|,
        GetPullOpenTimeMean(ms, sorted.closed)))
  }

  /** The closed bucket is empty exactly when no record is in state `closed`. */
  lemma NoClosedPulls(pulls: seq<PullRecord>)
    ensures |GetSortedPulls(pulls).closed| == 0 <==> forall p :: p in pulls ==> p.state != "closed"
  {
    var closed := GetSortedPulls(pulls).closed;
    if |closed| > 0 {
      assert closed[0] in closed;
    }
  }

  // The records of the worked example below.
  const Alice := PullRecord("alice", "open", None, None, None)
  const Bob := PullRecord("bob", "closed", Some("2024-01-01T00:00:00Z"), Some("2024-01-03T00:00:00Z"), Some("2024-01-03T00:00:00Z"))
  const Carl := PullRecord("carl[bot]", "closed", Some("2024-01-01T00:00:00Z"), Some("2024-01-02T00:00:00Z"), None)

  lemma WorkedExampleAuthors()
    ensures IsHumanAuthored(Alice) && IsHumanAuthored(Bob) && IsBotAuthored(Carl)
  {
    assert OccursAt(Carl.login, "[bot]", 4);
    IncludesIffOccurs(Carl.login, "[bot]");
    IncludesIffOccurs(Alice.login, "[bot]");
    assert Alice.login[0..5] != "[bot]" by { assert Alice.login[0] == 'a'; }
    assert !Includes(Bob.login, "[bot]");
  }

  lemma WorkedExampleFilter()
    ensures GetFilteredPulls([Alice, Bob, Carl]) == [Alice, Bob]
  {
    WorkedExampleAuthors();
    assert Filter([Carl], IsHumanAuthored) == [] by {
      assert [Carl][1..] == [];
    }
    assert Filter([Bob, Carl], IsHumanAuthored) == [Bob] by {
      assert [Bob, Carl][1..] == [Carl];
    }
    assert [Alice, Bob, Carl][1..] == [Bob, Carl];
  }

  lemma WorkedExampleSort()
    ensures GetSortedPulls([Alice, Bob]) == SortedPulls([Alice], [Bob], [Bob], [])
  {
    assert [Alice, Bob][1..] == [Bob];
  }

  lemma WorkedExampleMean(ms: DateParser)
    requires ms(Some("2024-01-03T00:00:00Z")) - ms(Some("2024-01-01T00:00:00Z")) == 2 * 86400000
    ensures GetPullOpenTimeMean(ms, [Bob]) == 2.0
  {
    var d := GetPullOpenTime(ms, Bob);
    assert d * MsPerDay == (2 * 86400000) as real;
    assert d == 2.0;
    var times := GetPullOpenTimes(ms, [Bob]);
    assert times == [d];
    assert GetArraySum(times) == d;
  }

  /** The worked example: one open pull by alice, one pull by bob merged
      two days after creation, and one closed pull by carl[bot]. After the
      bot filter the record counts 1 open, 1 closed, 1 merged, 0 unmerged,
      and a mean time to resolution of 2 days. */
  lemma WorkedExample(ms: DateParser)
    requires ms(Some("2024-01-03T00:00:00Z")) - ms(Some("2024-01-01T00:00:00Z")) == 2 * 86400000
    ensures GetPullStatistics(ms, "org", "repo", GetFilteredPulls([Alice, Bob, Carl]))
      == Success(PullStatistics("org", "repo", 1, 1, 1, 0, 2.0))
  {
    WorkedExampleFilter();
    WorkedExampleSort();
    WorkedExampleMean(ms);
  }

  /** With no input at all the statistics call throws rather than
      reporting zero counts. */
  lemma EmptyInputThrows(ms: DateParser, orgName: string, repoName: string)
    ensures GetPullStatistics(ms, orgName, repoName, []) == Failure(ReduceOfEmptyArray)
  {
  }

  /** The index of the first catalog entry for `orgName`, or |catalog| if none. */
  function FindOrg(catalog: seq<OrgRecord>, orgName: string): (k: nat)
    ensures k <= |catalog|
    ensures forall j :: 0 <= j < k ==> catalog[j].orgName != orgName
    ensures k < |catalog| ==> catalog[k].orgName == orgName
  {
    if catalog == [] then 0
    else if catalog[0].orgName == orgName then 0
    else 1 + FindOrg(catalog[1..], orgName)
  }

  /** `getAllReposForOrg`: the repositories of the first catalog entry for
      `orgName`. With no such entry `find` yields `undefined`, and reading
      `repoNames` off it throws. */
  function GetAllReposForOrg(catalog: seq<OrgRecord>, orgName: string): (r: Result<seq<string>, TypeError>)
    ensures r.Failure? <==> forall i :: 0 <= i < |catalog| ==> catalog[i].orgName != orgName
    ensures r.Failure? ==> r.error == ReadOfUndefined("repoNames")
    ensures r.Success? ==>
      exists i :: 0 <= i < |catalog| && catalog[i].orgName == orgName && r.value == catalog[i].repoNames && (forall j :: 0 <= j < i ==> catalog[j].orgName != orgName)
  {
    var k := FindOrg(catalog, orgName);
    if k == |catalog| then Failure(ReadOfUndefined("repoNames")) else Success(catalog[k].repoNames)
  }

  /** When organisation names are distinct, looking up the i-th entry's name
      returns exactly that entry's repositories. */
  lemma AllReposForOrgUnambiguous(catalog: seq<OrgRecord>, i: nat)
    requires i < |catalog|
    requires Distinct(OrgNames(catalog))
    ensures GetAllReposForOrg(catalog, catalog[i].orgName) == Success(catalog[i].repoNames)
  {
    var k := FindOrg(catalog, catalog[i].orgName);
    assert k < |catalog|;
    assert OrgNames(catalog)[k] == OrgNames(catalog)[i];
    assert k == i;
  }

  /** Against the shipped catalog: emberjs has 7 repositories, ember-cli 4,
      glimmerjs 2, and any other organisation throws. */
  lemma CatalogLookups(orgName: string)
    ensures GetAllReposForOrg(OrgsReposList, "emberjs").Success? && |GetAllReposForOrg(OrgsReposList, "emberjs").value| == 7
    ensures GetAllReposForOrg(OrgsReposList, "ember-cli").Success? && |GetAllReposForOrg(OrgsReposList, "ember-cli").value| == 4
    ensures GetAllReposForOrg(OrgsReposList, "glimmerjs").Success? && |GetAllReposForOrg(OrgsReposList, "glimmerjs").value| == 2
    ensures orgName !in OrgNames(OrgsReposList) ==> GetAllReposForOrg(OrgsReposList, orgName) == Failure(ReadOfUndefined("repoNames"))
  {
    CatalogOrganisations();
    AllReposForOrgUnambiguous(OrgsReposList, 0);
    AllReposForOrgUnambiguous(OrgsReposList, 1);
    AllReposForOrgUnambiguous(OrgsReposList, 2);
  }
}
