/** Lookup of a file along an ordered list of directories, first match
    wins: how attribute files and file templates are found. A directory's
    files are given as a map from (directory, file name) to content. */
module SearchPath {
  import opened Wrappers

  /** Index of the first directory holding `name`, if any. */
  function FirstDir<T>(dirs: seq<string>, name: string, files: map<(string, string), T>): (r: Option<nat>)
    ensures r.Some? ==> (r.value < |dirs| && (dirs[r.value], name) in files
      && forall j :: 0 <= j < r.value ==> (dirs[j], name) !in files)
    ensures r.None? ==> forall j :: 0 <= j < |dirs| ==> (dirs[j], name) !in files
    decreases |dirs|
  {
    if |dirs| == 0 then None
    else if (dirs[0], name) in files then Some(0)
    else
      match FirstDir(dirs[1..], name, files)
      case None => None
      case Some(i) => Some(i + 1)
  }

  /** The content of `name` in the first directory holding it. */
  function Find<T>(dirs: seq<string>, name: string, files: map<(string, string), T>): (r: Option<T>)
    ensures r.Some? <==> exists j :: 0 <= j < |dirs| && (dirs[j], name) in files
    ensures r.Some? ==> exists i :: (0 <= i < |dirs| && (dirs[i], name) in files && r.value == files[(dirs[i], name)]
      && forall j :: 0 <= j < i ==> (dirs[j], name) !in files)
  {
    match FirstDir(dirs, name, files)
    case None => None
    case Some(i) => Some(files[(dirs[i], name)])
  }

  /** Directories after the first one holding `name` are never consulted:
      searching the whole list gives what that one directory gives. */
  lemma FirstDirectoryWins<T>(dirs: seq<string>, name: string, files: map<(string, string), T>, i: nat)
    requires i < |dirs| && (dirs[i], name) in files
    requires forall j :: 0 <= j < i ==> (dirs[j], name) !in files
    ensures Find(dirs, name, files) == Find([dirs[i]], name, files) == Some(files[(dirs[i], name)])
  {
    assert FirstDir(dirs, name, files) == Some(i);
    assert FirstDir([dirs[i]], name, files) == Some(0);
  }
}
