/** The project-root search and the data and configuration paths derived from the root. */
module Paths {
  import opened Wrappers
  import opened Errors

  /** An absolute path as its components below the file-system root; `[]` is the root. */
  type Path = seq<string>

  /** `path / name` */
  function Child(p: Path, name: string): (c: Path)
    ensures |c| == |p| + 1 && c[..|p|] == p && c[|p|] == name
  {
    p + [name]
  }

  /** `[path, *path.parents]`: the path itself, then each parent up to the root. */
  function Candidates(p: Path): (cs: seq<Path>)
    ensures |cs| == |p| + 1
    ensures forall i | 0 <= i < |cs| :: cs[i] == p[..|p| - i]
    decreases |p|
  {
    if |p| == 0 then [p]
    else
      var rest := Candidates(p[..|p| - 1]);
      assert forall i | 0 <= i < |rest| :: rest[i] == p[..|p| - (i + 1)];
      [p] + rest
  }

  /** The files that exist, as the set of their paths. */
  type FileSystem = set<Path>

  /** A directory holding `.git` or `pyproject.toml`. */
  predicate Marked(fs: FileSystem, p: Path) {
    Child(p, ".git") in fs || Child(p, "pyproject.toml") in fs
  }

  const NotFoundMessage: string := "Project root not found"

  /** The loop of `find_project_root` over a list of candidates: the first marked one. */
  function FirstMarked(fs: FileSystem, cs: seq<Path>): (r: Result<Path, Error>)
    ensures r.Ok? ==> r.value in cs && Marked(fs, r.value)
    ensures r.Err? ==> r.error == Raised("FileNotFoundError", NotFoundMessage)
  {
    if |cs| == 0 then Err(Raised("FileNotFoundError", NotFoundMessage))
    else if Marked(fs, cs[0]) then Ok(cs[0])
    else FirstMarked(fs, cs[1..])
  }

  /** `find_project_root(current_path)`. */
  function FindProjectRoot(fs: FileSystem, current: Path): (r: Result<Path, Error>)
    ensures r.Ok? ==> Marked(fs, r.value)
    ensures r.Err? ==> r.error == Raised("FileNotFoundError", NotFoundMessage)
  {
    FirstMarked(fs, Candidates(current))
  }

  /** `FirstMarked` picks the earliest marked candidate, and fails exactly when none is marked. */
  lemma {:induction false} FirstMarkedFirst(fs: FileSystem, cs: seq<Path>)
    ensures FirstMarked(fs, cs).Err? <==> forall i | 0 <= i < |cs| :: !Marked(fs, cs[i])
    ensures FirstMarked(fs, cs).Ok? ==>
      exists k | 0 <= k < |cs| :: cs[k] == FirstMarked(fs, cs).value && forall j | 0 <= j < k :: !Marked(fs, cs[j])
  {
    if |cs| > 0 && !Marked(fs, cs[0]) {
      FirstMarkedFirst(fs, cs[1..]);
      assert forall i | 1 <= i < |cs| :: cs[i] == cs[1..][i - 1];
      if FirstMarked(fs, cs).Ok? {
        var k :| 0 <= k < |cs| - 1 && cs[1..][k] == FirstMarked(fs, cs).value &&
                 forall j | 0 <= j < k :: !Marked(fs, cs[1..][j]);
        assert cs[k + 1] == FirstMarked(fs, cs).value;
        assert forall j | 0 <= j < k + 1 :: !Marked(fs, cs[j]) by {
          forall j | 0 <= j < k + 1
            ensures !Marked(fs, cs[j])
          {
            if j > 0 {
              assert cs[j] == cs[1..][j - 1];
            }
          }
        }
      }
    } else if |cs| > 0 {
      assert cs[0] == FirstMarked(fs, cs).value;
    }
  }

  /** The root found is the nearest marked ancestor of the starting path (the path itself
      included): it is a prefix of the path, it is marked, and no longer prefix is. The search
      fails exactly when no prefix is marked. */
  lemma FindProjectRootNearest(fs: FileSystem, current: Path)
    ensures FindProjectRoot(fs, current).Err? <==> forall n | 0 <= n <= |current| :: !Marked(fs, current[..n])
    ensures FindProjectRoot(fs, current).Ok? ==>
      var root := FindProjectRoot(fs, current).value;
      root == current[..|root|] &&
      forall n | |root| < n <= |current| :: !Marked(fs, current[..n])
  {
    var cs := Candidates(current);
    FirstMarkedFirst(fs, cs);
    forall n | 0 <= n <= |current|
      ensures current[..n] == cs[|current| - n]
    {
    }
    if FindProjectRoot(fs, current).Ok? {
      var k :| 0 <= k < |cs| && cs[k] == FindProjectRoot(fs, current).value && forall j | 0 <= j < k :: !Marked(fs, cs[j]);
      forall n | |current| - k < n <= |current|
        ensures !Marked(fs, current[..n])
      {
        assert current[..n] == cs[|current| - n];
      }
    }
  }

  /** `find_project_root` on a marked directory returns that directory. */
  lemma FindProjectRootMarked(fs: FileSystem, current: Path)
    requires Marked(fs, current)
    ensures FindProjectRoot(fs, current) == Ok(current)
  {
    assert Candidates(current)[0] == current;
  }

  // ---------------------------------------------------------------------------------------
  // The paths derived from `PROJECT_ROOT`

  /** `PROJECT_ROOT / 'data'` */
  function DataDir(root: Path): Path {
    Child(root, "data")
  }

  /** `DATA_DIR / 'raw'` */
  function RawDataDir(root: Path): Path {
    Child(DataDir(root), "raw")
  }

  /** `DATA_DIR / 'processed'` */
  function ProcessedDataDir(root: Path): Path {
    Child(DataDir(root), "processed")
  }

  /** `PROJECT_ROOT / 'config' / 'schema.json'` */
  function SchemaPath(root: Path): Path {
    Child(Child(root, "config"), "schema.json")
  }

  /** `PROJECT_ROOT / 'config' / 'prompts.json'` */
  function PromptsPath(root: Path): Path {
    Child(Child(root, "config"), "prompts.json")
  }

  /** The derived paths lie below the root where the constants say, and no two coincide. */
  lemma DerivedPaths(root: Path)
    ensures DataDir(root) == root + ["data"]
    ensures RawDataDir(root) == root + ["data", "raw"] && ProcessedDataDir(root) == root + ["data", "processed"]
    ensures SchemaPath(root) == root + ["config", "schema.json"]
    ensures PromptsPath(root) == root + ["config", "prompts.json"]
    ensures RawDataDir(root) != ProcessedDataDir(root) && SchemaPath(root) != PromptsPath(root)
    ensures RawDataDir(root) != SchemaPath(root) && RawDataDir(root) != PromptsPath(root)
    ensures ProcessedDataDir(root) != SchemaPath(root) && ProcessedDataDir(root) != PromptsPath(root)
  {
    assert RawDataDir(root)[|root|] == "data" && SchemaPath(root)[|root|] == "config";
    assert ProcessedDataDir(root)[|root|] == "data" && PromptsPath(root)[|root|] == "config";
    assert RawDataDir(root)[|root| + 1] == "raw" && ProcessedDataDir(root)[|root| + 1] == "processed";
    assert SchemaPath(root)[|root| + 1] == "schema.json" && PromptsPath(root)[|root| + 1] == "prompts.json";
  }
}
