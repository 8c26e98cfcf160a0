# Pull-request statistics pipeline, modelled in Dafny

The repository fetches GitHub pull-request records for a fixed catalog of
Ember organisations and repositories, and reduces each repository's records
to a summary record: how many pulls are open, how many are closed, how many
of the closed ones were merged or closed without merging, and the mean
number of days a closed pull stayed open. This project models that
pipeline as pure Dafny functions over record lists, together with the
helpers it uses, the data-file path builder and the catalog, and proves
the partition, count, order and agreement facts the code relies on.

Modules: two shared helper modules, then one module per source file:

- `Wrappers` (`wrappers.dfy`): `Option`, `Result`, and the two JavaScript
  `TypeError`s the code can throw (a seedless `reduce` on an empty array,
  and reading a property of `undefined`).
- `Sequences` (`sequences.dfy`): `Array.prototype.filter` and `map`,
  `String.prototype.includes`, and the subsequence relation.
- `UtilsGeneral` (`scripts/utils-general.js`): elapsed time, days, sum,
  mean, unique elements and occurrence counts. `getElementCounts` updates a
  dictionary in place at every `reduce` step; it is a method with a loop
  over a map. Everything else is a function.
- `UtilsPulls` (`scripts/utils-pulls.js`): the bot filter, the bucketing by
  state and by close mechanism, open times, the statistics record, and the
  catalog lookup `getAllReposForOrg` (the catalog is a parameter).
- `AllRepoPullStatistics` (`scripts/get-all-repo-pull-statistics.js`): the
  older copy of the same pipeline. Each of its operations is proved to
  agree with its counterpart in `UtilsPulls`.
- `UtilsDataFilePaths` (`scripts/utils-data-file-paths.js`): the path
  builder, with the base-directory table as a parameter.
- `OrgsReposCatalog` (`constants/orgs-repos-list.js`): the catalog constant.

Modelling choices:

- A record carries `login` (for `user.login`), `state`, and `createdAt`,
  `closedAt`, `mergedAt` as `Option<string>` (`None` is JSON `null`).
- `Date.parse` is a parameter `ms: Option<string> -> int`. Calendar
  semantics are not modelled. Day counts and means are exact `real`s.
- `getArraySum`, `getArrayMean`, `getPullOpenTimeMean` and the older
  script's `getAveragePullOpenTime` require a non-empty list. `reduce` with
  no initial value throws a `TypeError` on an empty array, and no caller
  catches it.
- `getPullStatistics`, and the statistics step of the older
  `getAndWriteRepoPullStatistics`, return `Failure(ReduceOfEmptyArray)`
  exactly when there is no closed pull. The code has no "no value" result
  here: the call throws, and the model follows the code.
- The merge test compares `closed_at` and `merged_at` as raw values. Two
  nulls are equal, so a closed record with neither field set counts as
  merged.
- `getAllReposForOrg` returns `Failure(ReadOfUndefined("repoNames"))` when
  no catalog entry matches, because `find` yields `undefined`.
- A missing key in the path table prints as `undefined`, as in a template
  literal.

## Model

| member | source | states |
|---|---|---|
| `Sequences.Filter` | scripts/utils-pulls.js:39-50 | `filter` keeps, in order, exactly the elements satisfying the predicate; each element keeps its multiplicity or drops to zero; the result is a subsequence of the input |
| `Sequences.FilterIdempotent` | scripts/utils-pulls.js:39-40 | filtering twice by one predicate equals filtering once |
| `Sequences.FilterConcat` | scripts/utils-pulls.js:39-40 | filtering distributes over concatenation |
| `Sequences.FilterDisjoint` | scripts/utils-pulls.js:43-44 | filters by predicates that never hold together take disjoint parts (as multisets) of the input, so their lengths sum to at most the input length |
| `Sequences.FilterSplit` | scripts/utils-pulls.js:45-50 | filters by complementary predicates split the input exactly, as multisets and in length |
| `Sequences.Map` | scripts/utils-pulls.js:59 | `map` gives a list of the same length whose entry i is f of entry i |
| `Sequences.IncludesIffOccurs` | scripts/utils-pulls.js:40 | `includes(t)` holds exactly when t occurs in the string at some index |
| `UtilsGeneral.GetElapsedTime` | scripts/utils-general.js:7-9 | the elapsed milliseconds added to the parsed `before` give the parsed `after` |
| `UtilsGeneral.ElapsedTimeAntisymmetric` | scripts/utils-general.js:8-9 | swapping the arguments negates the elapsed time |
| `UtilsGeneral.ElapsedTimeSelf` | scripts/utils-general.js:8-9 | the elapsed time from a timestamp to itself is 0 |
| `UtilsGeneral.ElapsedTimeChains` | scripts/utils-general.js:8-9 | elapsed times from a to b and from b to c add up to the one from a to c |
| `UtilsGeneral.GetDaysFromMs` | scripts/utils-general.js:10 | the days times 86400000 give back the milliseconds; a non-negative count gives non-negative days |
| `UtilsGeneral.GetElapsedTimeDays` | scripts/utils-general.js:11-12 | the days times 86400000 equal Ms(after) - Ms(before), in exact arithmetic; non-negative when `after` is not earlier |
| `UtilsGeneral.ElapsedTimeDaysAntisymmetric` | scripts/utils-general.js:11-12 | swapping the arguments negates the elapsed days |
| `UtilsGeneral.GetArraySum` | scripts/utils-general.js:15-16 | the seedless left fold `reduce(accumulator)` equals the textbook sum (head plus sum of tail) on every non-empty array; the empty array is excluded because `reduce` throws there |
| `UtilsGeneral.TotalConcat` | scripts/utils-general.js:15-16 | the textbook sum of a concatenation is the sum of the sums |
| `UtilsGeneral.ArraySumSingleton` | scripts/utils-general.js:16 | a one-element array sums to its element |
| `UtilsGeneral.ArraySumConcat` | scripts/utils-general.js:16 | for non-empty a and b, the sum of a + b is the sum of a plus the sum of b |
| `UtilsGeneral.ArraySumBounds` | scripts/utils-general.js:15-16 | if every element lies in [lo, hi], the sum lies in [n*lo, n*hi] |
| `UtilsGeneral.GetArrayMean` | scripts/utils-general.js:17 | defined only on non-empty arrays; mean times length equals the sum |
| `UtilsGeneral.ArrayMeanBounds` | scripts/utils-general.js:17 | the mean lies between any lower and upper bound of the elements |
| `UtilsGeneral.IndexOf` | scripts/utils-general.js:20 | `indexOf` is -1 exactly when the value is absent, and otherwise the first index holding it |
| `UtilsGeneral.IsUniqueElement` | scripts/utils-general.js:20 | holds exactly when `index` is the first position of `value` in the array, or `index` is -1 and the value is absent (the `indexOf` result) |
| `UtilsGeneral.UniqueElementsUpTo` | scripts/utils-general.js:20-21 | filtering the first n elements by `isUniqueElement` keeps the values of that prefix, each at its first index in order |
| `UtilsGeneral.GetUniqueElements` | scripts/utils-general.js:20-21 | same values as the input, none repeated, ordered by first occurrence, no longer than the input |
| `UtilsGeneral.GetElementCounts` | scripts/utils-general.js:22-25 | the keys are exactly the input's values, and each maps to its number of occurrences |
| `UtilsGeneral.ElementCountsSumToLength` | scripts/utils-general.js:22-25 | the counts, taken key by key in first-occurrence order, add up to the input length |
| `UtilsGeneral.ElementCountsKeysMatchUnique` | scripts/utils-general.js:20-25 | the counts have as many keys as `getUniqueElements` has elements |
| `UtilsPulls.GetFilteredPulls` | scripts/utils-pulls.js:39-40 | keeps, in order and with multiplicity, exactly the records whose login does not include `[bot]` |
| `UtilsPulls.FilteredPullsHaveNoBotMarker` | scripts/utils-pulls.js:39-40 | a record survives exactly when `[bot]` occurs at no index of its login |
| `UtilsPulls.FilteredPullsIdempotent` | scripts/utils-pulls.js:39-40 | applying the bot filter twice equals applying it once |
| `UtilsPulls.GetSortedPulls` | scripts/utils-pulls.js:42-53 | open and closed are disjoint subsequences of the input holding exactly its open and closed records, with open + closed <= input; merged and unmerged are subsequences of closed, split by `closed_at === merged_at`, that add up to closed as multisets and in length |
| `UtilsPulls.SortedPullsPartitionKnownStates` | scripts/utils-pulls.js:43-52 | open + merged + unmerged equals the number of records in a known state, so when every state is known, open + closed is the input length |
| `UtilsPulls.ClosedWithoutMergeIsUnmerged` | scripts/utils-pulls.js:45-50 | a closed record with `closed_at` set and `merged_at` null is unmerged, never merged |
| `UtilsPulls.NoClosedPulls` | scripts/utils-pulls.js:44 | the closed bucket is empty exactly when no record has state `closed` |
| `UtilsPulls.GetPullOpenTime` | scripts/utils-pulls.js:56-57 | the open time in days times 86400000 equals Ms(closed_at) - Ms(created_at) |
| `UtilsPulls.GetPullOpenTimes` | scripts/utils-pulls.js:59 | same length as the input; entry i is the open time of record i |
| `UtilsPulls.GetPullOpenTimeMean` | scripts/utils-pulls.js:61-62 | defined only on non-empty lists; mean times count equals the summed open times |
| `UtilsPulls.PullOpenTimeMeanBounds` | scripts/utils-pulls.js:56-62 | when no record closed before it was created, the mean is non-negative and at most the longest open time |
| `UtilsPulls.GetPullStatistics` | scripts/utils-pulls.js:64-80 | throws exactly when no record is closed; otherwise echoes org and repo, sets each count to its bucket's length (merged + unmerged = closed, open + closed <= input) and the average to the mean open time of the closed bucket |
| `UtilsPulls.WorkedExample` | scripts/utils-pulls.js:39-80 | alice open, bob merged after two days, carl[bot] closed: the filtered statistics are 1 open, 1 closed, 1 merged, 0 unmerged and a mean of 2.0 days |
| `UtilsPulls.EmptyInputThrows` | scripts/utils-pulls.js:61-80 | with no records the statistics call throws the empty-`reduce` TypeError |
| `UtilsPulls.FindOrg` | scripts/utils-pulls.js:116-118 | `find` yields the first entry whose `orgName` matches, or none at all |
| `UtilsPulls.GetAllReposForOrg` | scripts/utils-pulls.js:115-120 | fails, reading `repoNames` of undefined, exactly when no entry matches; otherwise returns the repositories of the first matching entry |
| `UtilsPulls.AllReposForOrgUnambiguous` | scripts/utils-pulls.js:115-120 | with distinct organisation names, looking up an entry's name returns that entry's repositories |
| `UtilsPulls.CatalogLookups` | scripts/utils-pulls.js:115-120 | against the catalog: emberjs has 7 repositories, ember-cli 4, glimmerjs 2, and any other name fails |
| `AllRepoPullStatistics.OrganizationsAndRepositoriesInCatalog` | scripts/get-all-repo-pull-statistics.js:5-12 | the six pairs are distinct and each is listed in the catalog |
| `AllRepoPullStatistics.HasNoBotLogin` | scripts/get-all-repo-pull-statistics.js:29-31 | holds exactly when `[bot]` occurs at no index of the login |
| `AllRepoPullStatistics.BotsFiltered` | scripts/get-all-repo-pull-statistics.js:29-31 | keeps, in order, exactly the records whose login does not include `[bot]` |
| `AllRepoPullStatistics.BotsFilteredAgrees` | scripts/get-all-repo-pull-statistics.js:29-31 | the older bot filter equals `getFilteredPulls` |
| `AllRepoPullStatistics.FiltersAgree` | scripts/get-all-repo-pull-statistics.js:29-31 | filters by pointwise equal predicates give equal results |
| `AllRepoPullStatistics.GetSortedPulls` | scripts/get-all-repo-pull-statistics.js:66-83 | four lists: subsequences of the input holding exactly its open and exactly its closed records, disjoint, with open + closed <= input as multisets and in length; then subsequences of closed split by `closed_at === merged_at` whose lengths add up to closed |
| `AllRepoPullStatistics.SortedPullsAgree` | scripts/get-all-repo-pull-statistics.js:66-83 | the older `getSortedPulls` returns the refactored buckets in the order [open, closed, merged, unmerged] |
| `AllRepoPullStatistics.GetTimeBetweenDateStringsInDays` | scripts/get-all-repo-pull-statistics.js:86-91 | the days times 86400000 equal Ms(after) - Ms(before) |
| `AllRepoPullStatistics.TimeBetweenAgrees` | scripts/get-all-repo-pull-statistics.js:86-91 | it equals `getElapsedTimeDays` of the general utilities |
| `AllRepoPullStatistics.GetTimeBetweenCreatedAndClosed` | scripts/get-all-repo-pull-statistics.js:95-100 | it equals the refactored `getPullOpenTime` |
| `AllRepoPullStatistics.GetAveragePullOpenTime` | scripts/get-all-repo-pull-statistics.js:106-113 | defined only on non-empty lists; the average times the count is the sum of the per-record open times, and it equals `getPullOpenTimeMean` |
| `AllRepoPullStatistics.GetAndWriteRepoPullStatistics` | scripts/get-all-repo-pull-statistics.js:117-133 | throws exactly when every closed fetched record is bot-authored; otherwise echoes organisation and repository, merged + unmerged = closed, and open + closed <= fetched |
| `AllRepoPullStatistics.RepoPullStatisticsAgree` | scripts/get-all-repo-pull-statistics.js:117-133 | the older record has the refactored record's fields (on the bot-filtered input), and both throw on the same inputs |
| `UtilsDataFilePaths.GetDataFilePath` | scripts/utils-data-file-paths.js:6-7 | the path ends in `.json`, and `orgName--repoName` occurs right after the directory and its slash |
| `UtilsDataFilePaths.DataFilePathShape` | scripts/utils-data-file-paths.js:7 | the path includes the segment `orgName--repoName` |
| `UtilsDataFilePaths.DataFilePathParts` | scripts/utils-data-file-paths.js:6-7 | paths with the same type and format share the directory part, and each path's remainder is its pair's file name: directory from (type, format) only, file name from (org, repo) only |
| `UtilsDataFilePaths.WildcardPath` | scripts/utils-pulls.js:97-103 | called with `*`, `*` the path is the directory followed by `/*--*.json` |
| `UtilsDataFilePaths.IntendedRawPath` | scripts/utils-data-file-paths.js:6-7 | with the intended table, raw files are `../data/pulls/raw/org--repo.json` |
| `UtilsDataFilePaths.IntendedStatisticsPaths` | scripts/utils-data-file-paths.js:6-7 | with the intended table, statistics files are `../data/pulls/statistics/org--repo.json`, and the summary glob is `../data/pulls/statistics/*--*.json` |
| `UtilsDataFilePaths.AsWrittenTablePaths` | constants/data-file-paths.js:5-8 | with the table as written, raw files land under `undefined/raw` |
| `UtilsDataFilePaths.AsWrittenImportPaths` | scripts/utils-data-file-paths.js:3-7 | with the import as written, every path is `undefined/org--repo.json` |
| `OrgsReposCatalog.AllPairs` | constants/orgs-repos-list.js:3-29 | flattening gives one pair per repository, and a pair is present exactly when its repository is listed under its organisation |
| `OrgsReposCatalog.AllPairsConcat` | constants/orgs-repos-list.js:3-29 | flattening keeps catalog order: the pairs of a + b are the pairs of a followed by those of b |
| `OrgsReposCatalog.PairsOf` | constants/orgs-repos-list.js:4-15 | one entry's pairs: one per repository, all with the entry's organisation |
| `OrgsReposCatalog.CatalogOrganisations` | constants/orgs-repos-list.js:3-29 | three organisations in the order emberjs, ember-cli, glimmerjs, pairwise distinct |
| `OrgsReposCatalog.CatalogRepositories` | constants/orgs-repos-list.js:6-27 | 7, 4 and 2 repositories, pairwise distinct within each organisation |
| `OrgsReposCatalog.CatalogPairCount` | constants/orgs-repos-list.js:3-29 | flattening the catalog yields 13 pairs |

## Findings

| source | as written | input that shows it | evidently intended | confidence | as-written member | corrected member |
|---|---|---|---|---|---|---|
| scripts/utils-data-file-paths.js:3-7 | `require('../constants/data-file-paths')` returns the exports object `{ DATA_FILE_PATHS }`, so no `type_format` key is found and the directory prints as `undefined` | `getDataFilePath('emberjs', 'data', 'pulls', 'raw')` gives `undefined/emberjs--data.json` | destructure the import and also nest the table's entries under `../data/pulls` (the next row); with the import fixed alone the path is still `undefined/raw/emberjs--data.json`, and only both fixes give `../data/pulls/raw/emberjs--data.json` | high; not executed | `UtilsDataFilePaths.AsWrittenImportPaths` | `UtilsDataFilePaths.IntendedRawPath` |
| constants/data-file-paths.js:5-8 | `this.data` and `this.pulls` read the still-empty `module.exports` of a CommonJS module, so they print as `undefined` | the `pulls_raw` entry is `undefined/raw`, so raw files go to `undefined/raw/emberjs--data.json` | every entry nested under `../data/pulls`, as in `../data/pulls/raw` | high; not executed | `UtilsDataFilePaths.AsWrittenTablePaths` | `UtilsDataFilePaths.IntendedStatisticsPaths` |

The rest of the model takes the table as a parameter. The lemmas about
concrete paths use the intended table, `IntendedPathTable`.

## Left out

- Fetching from GitHub through Octokit (`paginate`, `request`, the auth
  token, `getFirstPageOfPullRequests`): network I/O through a library. The
  fetched records are a parameter of `GetAndWriteRepoPullStatistics`.
- File reads and writes, `glob.sync`, and `JSON.parse`/`JSON.stringify`:
  `readPullsRawData`, `writePullStatistics` and
  `readRepoPullStatisticsAndWriteSummary` in `scripts/utils-pulls.js`;
  `readRepoPullRequestsFromFile`, `generateStatisticsSummaryFromFiles` and
  the writes in `getAllPullRequests` and `getAndWriteRepoPullStatistics`.
  All of this is file I/O.
- The `Promise.all` batch jobs `getAllRepoPullStatistics` and
  `getAndWriteAllRepoPullStatistics`: their point is concurrency. They also
  call `getRepoPullStatistics`, which the script never defines.
- `getMsFromStr` / `Date.parse`: the parser is the parameter `ms`. Its
  calendar semantics are not modelled. Neither is the `NaN` it returns for
  a malformed or null timestamp, nor how `NaN` spreads through the sums.
- IEEE floating point: days, sums and means are exact reals, so rounding
  and the order of additions do not matter in the model.
- `UtilsGeneral.GetElementCounts`: does not model that JavaScript object
  keys are strings. Values that print alike, such as `1` and `"1"`, share
  one key in the source. Keys inherited from `Object.prototype`, such as
  `constructor`, also misbehave there. The model keys the map by the values
  themselves.
- `UtilsGeneral.GetUniqueElements`: does not model that `indexOf` never
  finds `NaN`, so the source drops every `NaN`. Dafny values compare by
  equality.
- A missing field, JavaScript `undefined`: `Option` models only JSON `null`
  and a present value. The source's `===` tells `undefined` apart from
  `null`, so a closed record with `closed_at` null and no `merged_at` key
  is unmerged in the source but merged (`None == None`) in the model.
  GitHub's pull records always carry both keys.
- `pull.user` being null for a deleted account: the record carries the
  login string directly.
- Module-wiring defects in `scripts/utils-pulls.js`: line 6 imports the path
  table under the name `ORGS_REPOS_LIST`, and `glob` is never imported. The
  model passes the catalog to `GetAllReposForOrg` explicitly.
- `constants/data-file-paths.js` is modelled only as the two tables used in
  the findings.
- `app/router.js`: an application shell with an empty route map and no logic.
