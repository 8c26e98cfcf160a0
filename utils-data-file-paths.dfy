/** `scripts/utils-data-file-paths.js`: where the data file of one
    (organisation, repository) pair lives. The base-directory table is a
    parameter, keyed `<type>_<format>` as in `constants/data-file-paths.js`. */
module UtilsDataFilePaths {
  import opened Sequences

  /** A base-directory table: `<type>_<format>` to a directory. */
  type PathTable = map<string, string>

  /** What a template literal prints for a missing property. */
  const Undefined: string := "undefined"

  /** `${table[key]}`: the entry, or "undefined" when the key is missing. */
  function Lookup(table: PathTable, key: string): string
  {
    if key in table then table[key] else Undefined
  }

  /** The directory part of a data file path: it depends on the type and
      format only. */
  function Directory(table: PathTable, fileType: string, format: string): string
  {
    Lookup(table, fileType + "_" + format)
  }

  /** The file-name part of a data file path: it depends on the
      organisation and repository only. */
  function FileName(orgName: string, repoName: string): string
  {
    orgName + "--" + repoName + ".json"
  }

  /** `getDataFilePath`. */
  function GetDataFilePath(table: PathTable, orgName: string, repoName: string, fileType: string, format: string): (path: string)
    ensures |path| >= 5 && path[|path| - 5..] == ".json"
    ensures OccursAt(path, orgName + "--" + repoName, |Directory(table, fileType, format)| + 1)
  {
    var dir := Directory(table, fileType, format);
    var path := dir + "/" + orgName + "--" + repoName + ".json";
    assert path[|dir| + 1..|dir| + 1 + |orgName + "--" + repoName|] == orgName + "--" + repoName;
    assert path[|path| - 5..] == ".json";
    path
  }

  /** The path names the file of (orgName, repoName) somewhere in it and ends in `.json`. */
  lemma DataFilePathShape(table: PathTable, orgName: string, repoName: string, fileType: string, format: string)
    ensures Includes(GetDataFilePath(table, orgName, repoName, fileType, format), orgName + "--" + repoName)
  {
    var path := GetDataFilePath(table, orgName, repoName, fileType, format);
    IncludesIffOccurs(path, orgName + "--" + repoName);
  }

  /** Two paths of the same type and format share their directory part;
      two paths of the same pair share their file-name part; and the two
      parts can be read back from the path. */
  lemma DataFilePathParts(table: PathTable, o1: string, r1: string, o2: string, r2: string, t: string, f: string)
    ensures var p1, p2, k := GetDataFilePath(table, o1, r1, t, f), GetDataFilePath(table, o2, r2, t, f), |Directory(table, t, f)| + 1;
      p1[..k] == p2[..k] == Directory(table, t, f) + "/" && p1[k..] == FileName(o1, r1) && p2[k..] == FileName(o2, r2)
  {
  }

  /** The pattern the summary step globs for: every organisation and repository. */
  lemma WildcardPath(table: PathTable, fileType: string, format: string)
    ensures GetDataFilePath(table, "*", "*", fileType, format) == Directory(table, fileType, format) + "/*--*.json"
  {
  }

  /** `DATA_FILE_PATHS` as the authors evidently meant it: every entry nested
      under `../data`, the layout `pulls/raw`, `pulls/statistics`. */
  const IntendedPathTable: PathTable := map[
    "data" := "../data",
    "pulls" := "../data/pulls",
    "pulls_raw" := "../data/pulls/raw",
    "pulls_statistics" := "../data/pulls/statistics",
    "pulls_results" := "../data/pulls/results.json"
  ]

  /** `DATA_FILE_PATHS` as written: `this` at the top level of a CommonJS
      module is the still-empty `module.exports`, so `this.data` and
      `this.pulls` print as "undefined". */
  const AsWrittenPathTable: PathTable := map[
    "data" := "../data",
    "pulls" := Undefined + "/pulls",
    "pulls_raw" := Undefined + "/raw",
    "pulls_statistics" := Undefined + "/statistics",
    "pulls_results" := Undefined + "/results.json"
  ]

  /** What `require('../constants/data-file-paths')` returns: the exports
      object `{ DATA_FILE_PATHS }`, whose one key holds an object. */
  const AsWrittenImport: PathTable := map["DATA_FILE_PATHS" := "[object Object]"]

  /** With the intended table, raw files land in `../data/pulls/raw`. */
  lemma IntendedRawPath(orgName: string, repoName: string)
    ensures GetDataFilePath(IntendedPathTable, orgName, repoName, "pulls", "raw") == "../data/pulls/raw/" + orgName + "--" + repoName + ".json"
  {
    assert "pulls" + "_" + "raw" == "pulls_raw";
    assert Directory(IntendedPathTable, "pulls", "raw") == "../data/pulls/raw";
  }

  // With the intended table, statistics files land in `../data/pulls/statistics`,
  // and the summary step globs `../data/pulls/statistics/*--*.json`.
  lemma IntendedStatisticsPaths(orgName: string, repoName: string)
    ensures GetDataFilePath(IntendedPathTable, orgName, repoName, "pulls", "statistics") == "../data/pulls/statistics/" + orgName + "--" + repoName + ".json"
    ensures GetDataFilePath(IntendedPathTable, "*", "*", "pulls", "statistics") == "../data/pulls/statistics/*--*.json"
  {
    assert "pulls" + "_" + "statistics" == "pulls_statistics";
    assert Directory(IntendedPathTable, "pulls", "statistics") == "../data/pulls/statistics";
  }

  /** With the table as written in `constants/data-file-paths.js`, the raw
      file of every pair lands under `undefined/raw`. */
  lemma AsWrittenTablePaths(orgName: string, repoName: string)
    ensures GetDataFilePath(AsWrittenPathTable, orgName, repoName, "pulls", "raw") == "undefined/raw/" + orgName + "--" + repoName + ".json"
  {
    assert "pulls" + "_" + "raw" == "pulls_raw";
  }

  /** With the import as written in `scripts/utils-data-file-paths.js`, no
      `<type>_<format>` key exists, so every path starts with `undefined/`. */
  lemma AsWrittenImportPaths(orgName: string, repoName: string, fileType: string, format: string)
    requires fileType + "_" + format != "DATA_FILE_PATHS"
    ensures GetDataFilePath(AsWrittenImport, orgName, repoName, fileType, format) == "undefined/" + orgName + "--" + repoName + ".json"
  {
  }
}
