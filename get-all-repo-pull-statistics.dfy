/** `scripts/get-all-repo-pull-statistics.js`: the older copy of the
    statistics pipeline. Fetching and file writes are outside the model:
    the records `octokit.paginate` would return are a parameter. Each
    operation is proved to agree with its counterpart in `UtilsPulls`. */
module AllRepoPullStatistics {
  import opened Wrappers
  import opened Sequences
  import opened UtilsGeneral
  import opened OrgsReposCatalog
  import opened UtilsPulls

  /** `ORGANIZATIONS_AND_REPOSITORIES_ARRAY`. */
  const OrganizationsAndRepositoriesArray: seq<(string, string)> := [
    ("emberjs", "ember.js"),
    ("emberjs", "data"),
    ("emberjs", "ember-test-helpers"),
    ("glimmerjs", "glimmer.js"),
    ("glimmerjs", "glimmer-vm"),
    ("ember-cli", "ember-cli")
  ]

  /** The six pairs of the older script are all listed in the catalog, and
      no pair occurs twice. */
  lemma OrganizationsAndRepositoriesInCatalog()
    ensures |OrganizationsAndRepositoriesArray| == 6
    ensures forall i, j :: 0 <= i < j < 6 ==> OrganizationsAndRepositoriesArray[i] != OrganizationsAndRepositoriesArray[j]
    ensures forall i :: 0 <= i < 6 ==> OrganizationsAndRepositoriesArray[i] in AllPairs(OrgsReposList)
  {
    var c := OrgsReposList;
    assert "ember.js" in c[0].repoNames && "data" in c[0].repoNames && "ember-test-helpers" in c[0].repoNames;
    assert "glimmer.js" in c[2].repoNames && "glimmer-vm" in c[2].repoNames;
    assert "ember-cli" in c[1].repoNames;
  }

  /** The filter inside `getAllPullRequests`:
      `!pullRequest.user.login.includes('[bot]')`. */
  predicate HasNoBotLogin(pullRequest: PullRecord)
    ensures HasNoBotLogin(pullRequest) <==> forall i :: !OccursAt(pullRequest.login, "[bot]", i)
  {
    IncludesIffOccurs(pullRequest.login, "[bot]");
    !Includes(pullRequest.login, "[bot]")
  }

  /** The records `getAllPullRequests` keeps of those fetched. */
  function BotsFiltered(pullRequests: seq<PullRecord>): (r: seq<PullRecord>)
    ensures IsSubsequence(r, pullRequests)
    ensures forall p :: p in r <==> p in pullRequests && !Includes(p.login, "[bot]")
  {
    Filter(pullRequests, HasNoBotLogin)
  }

  /** The older bot filter is the same as `getFilteredPulls`. */
  lemma BotsFilteredAgrees(pullRequests: seq<PullRecord>)
    ensures BotsFiltered(pullRequests) == GetFilteredPulls(pullRequests)
  {
    FiltersAgree(pullRequests, HasNoBotLogin, IsHumanAuthored);
  }

  /** Filters by pointwise equal predicates are equal. */
  lemma {:induction false} FiltersAgree<T(!new)>(s: seq<T>, p: T -> bool, q: T -> bool)
    requires forall x :: p(x) == q(x)
    ensures Filter(s, p) == Filter(s, q)
  {
    if s != [] {
      FiltersAgree(s[1..], p, q);
    }
  }

  /** `getSortedPulls` of the older script: the array
      `[pullsOpen, pullsClosed, pullsClosedMerged, pullsClosedUnmerged]`. */
  function GetSortedPulls(pullsAll: seq<PullRecord>): (result: seq<seq<PullRecord>>)
    ensures |result| == 4
    ensures IsSubsequence(result[0], pullsAll) && IsSubsequence(result[1], pullsAll)
    ensures forall p :: p in result[0] <==> p in pullsAll && p.state == "open"
    ensures forall p :: p in result[1] <==> p in pullsAll && p.state == "closed"
    ensures forall p :: multiset(result[0])[p] + multiset(result[1])[p] <= multiset(pullsAll)[p]
    ensures |result[0]| + |result[1]| <= |pullsAll|
    ensures IsSubsequence(result[2], result[1]) && IsSubsequence(result[3], result[1])
    ensures forall p :: p in result[2] <==> p in result[1] && p.closedAt == p.mergedAt
    ensures forall p :: p in result[3] <==> p in result[1] && p.closedAt != p.mergedAt
    ensures |result[2]| + |result[3]| == |result[1]|
  {
    var pullsOpen := Filter(pullsAll, (pull: PullRecord) => pull.state == "open");
    var pullsClosed := Filter(pullsAll, (pull: PullRecord) => pull.state == "closed");
    FilterDisjoint(pullsAll, (pull: PullRecord) => pull.state == "open", (pull: PullRecord) => pull.state == "closed");
    FilterSplit(pullsClosed, (pull: PullRecord) => pull.closedAt == pull.mergedAt, (pull: PullRecord) => pull.closedAt != pull.mergedAt);
    [pullsOpen,
     pullsClosed,
     Filter(pullsClosed, (pull: PullRecord) => pull.closedAt == pull.mergedAt),
     Filter(pullsClosed, (pull: PullRecord) => pull.closedAt != pull.mergedAt)]
  }

  /** Both copies of `getSortedPulls` bucket the records identically. */
  lemma SortedPullsAgree(pullsAll: seq<PullRecord>)
    ensures var r := UtilsPulls.GetSortedPulls(pullsAll);
      GetSortedPulls(pullsAll) == [r.open, r.closed, r.closedMerged, r.closedUnmerged]
  {
    FiltersAgree(pullsAll, (pull: PullRecord) => pull.state == "open", IsOpen);
    FiltersAgree(pullsAll, (pull: PullRecord) => pull.state == "closed", IsClosed);
    var closed := Filter(pullsAll, IsClosed);
    FiltersAgree(closed, (pull: PullRecord) => pull.closedAt == pull.mergedAt, IsMerged);
    FiltersAgree(closed, (pull: PullRecord) => pull.closedAt != pull.mergedAt, IsUnmerged);
  }

  /** `getTimeBetweenDateStringsInDays`. */
  function GetTimeBetweenDateStringsInDays(ms: DateParser, dateStringBefore: Timestamp, dateStringAfter: Timestamp): (days: real)
    ensures days * MsPerDay == (ms(dateStringAfter) - ms(dateStringBefore)) as real
  {
    (ms(dateStringAfter) - ms(dateStringBefore)) as real / (1000 * 60 * 60 * 24) as real
  }

  /** It is the same quantity as `getElapsedTimeDays` of the general utilities. */
  lemma TimeBetweenAgrees(ms: DateParser, before: Timestamp, after: Timestamp)
    ensures GetTimeBetweenDateStringsInDays(ms, before, after) == GetElapsedTimeDays(ms, before, after)
  {
  }

  /** `getTimeBetweenCreatedAndClosed`: how long a closed pull was open, in days. */
  function GetTimeBetweenCreatedAndClosed(ms: DateParser, pullClosed: PullRecord): (days: real)
    ensures days == GetPullOpenTime(ms, pullClosed)
  {
    TimeBetweenAgrees(ms, pullClosed.createdAt, pullClosed.closedAt);
    GetTimeBetweenDateStringsInDays(ms, pullClosed.createdAt, pullClosed.closedAt)
  }

  /** `getAveragePullOpenTime`: the durations summed by a seedless `reduce`
      and divided by the number of closed pulls; `reduce` throws on an
      empty list, so the list must be non-empty. */
  function GetAveragePullOpenTime(ms: DateParser, pullsClosed: seq<PullRecord>): (averageDuration: real)
    requires |pullsClosed| > 0
    ensures averageDuration * (|pullsClosed| as real) == Total(GetPullOpenTimes(ms, pullsClosed))
    ensures averageDuration == GetPullOpenTimeMean(ms, pullsClosed)
  {
    var durations := Map(pullsClosed, (pull: PullRecord) => GetTimeBetweenCreatedAndClosed(ms, pull));
    assert durations == GetPullOpenTimes(ms, pullsClosed);
    GetArraySum(durations) / (|pullsClosed| as real)
  }

  /** The record `getAndWriteRepoPullStatistics` builds. */
  datatype RepoPullStatistics = RepoPullStatistics(
    organizationName: string,
    repositoryName: string,
    openPullsCount: nat,
    closedPullsCount: nat,
    closedMergedCount: nat,
    closedUnmergedCount: nat,
    averageTimeToResolution: real)

  /** The statistics step of `getAndWriteRepoPullStatistics`, given the
      records fetched for the pair: bot-filter them as `getAllPullRequests`
      does, bucket them, count, and average the open times of the closed
      bucket. With no closed pull the seedless `reduce` throws. */
  function GetAndWriteRepoPullStatistics(ms: DateParser, orgName: string, repoName: string, fetched: seq<PullRecord>): (r: Result<RepoPullStatistics, TypeError>)
    ensures r.Failure? <==> forall p :: p in fetched && p.state == "closed" ==> Includes(p.login, "[bot]")
    ensures r.Failure? ==> r.error == ReduceOfEmptyArray
    ensures r.Success? ==>
      && r.value.organizationName == orgName && r.value.repositoryName == repoName
      && r.value.closedMergedCount + r.value.closedUnmergedCount == r.value.closedPullsCount
      && r.value.openPullsCount + r.value.closedPullsCount <= |fetched|
  {
    var pullsAll := BotsFiltered(fetched);
    var sorted := GetSortedPulls(pullsAll);
    var pullsOpen, pullsClosed, pullsClosedMerged, pullsClosedUnmerged := sorted[0], sorted[1], sorted[2], sorted[3];
    SortedPullsAgree(pullsAll);
    NoClosedPulls(pullsAll);
    if |pullsClosed| == 0 then
      Failure(ReduceOfEmptyArray)
    else
      Success(RepoPullStatistics(
        orgName, repoName,
        |pullsOpen|, |pullsClosed|, |pullsClosedMerged|, |pullsClosedUnmerged|,
        GetAveragePullOpenTime(ms, pullsClosed)))
  }

  /** The older pipeline computes the same counts and mean as
      `getPullStatistics` applied to `getFilteredPulls` of the same records,
      and throws on the same inputs. */
  lemma RepoPullStatisticsAgree(ms: DateParser, orgName: string, repoName: string, fetched: seq<PullRecord>)
    ensures var older, newer := GetAndWriteRepoPullStatistics(ms, orgName, repoName, fetched), GetPullStatistics(ms, orgName, repoName, GetFilteredPulls(fetched));
      && older.Failure? == newer.Failure?
      && (older.Failure? ==> older.error == newer.error)
      && (older.Success? ==>
          var o, n := older.value, newer.value;
          o == RepoPullStatistics(n.orgName, n.repoName, n.openPullsCount, n.closedPullsCount,
                                  n.closedMergedCount, n.closedUnmergedCount, n.averageTimeToResolution))
  {
    BotsFilteredAgrees(fetched);
    SortedPullsAgree(GetFilteredPulls(fetched));
  }
}
