/** The pure part of the command line (cmd/main.go:14, 33-40): which path
    flag wins, whether hidden entries are included, and the ignore list. */
module Cli {
  import opened Strings
  import opened FileTree

  /** Directory names pruned on every invocation, before the user's own. */
  const DefaultIgnoredDirs: seq<string> := [".git", "node_modules", "venv", "env", "package-lock.json"]

  /** The parsed flag values: `-p`, `--path`, `-i`, `--include-hidden` and
      `--ignore`. */
  datatype Flags = Flags(path: string, pathLong: string, hidden: bool, hiddenLong: bool, ignore: string)

  /** The root path to walk and the options both modes walk it with. */
  datatype Invocation = Invocation(rootPath: string, options: Options)

  /** Merging the flags. `--path` wins over `-p` unless it still holds its
      default "."; either hidden flag includes hidden entries; the ignore list
      is the defaults followed by the comma-separated fields of `--ignore`,
      which join back to exactly the user's string. */
  function Resolve(f: Flags): (inv: Invocation)
    ensures f.pathLong != "." ==> inv.rootPath == f.pathLong
    ensures f.pathLong == "." ==> inv.rootPath == f.path
    ensures inv.options.includeHidden <==> f.hidden || f.hiddenLong
    ensures |inv.options.ignored| == |DefaultIgnoredDirs| + Count(f.ignore, ',') + 1
    ensures inv.options.ignored[..|DefaultIgnoredDirs|] == DefaultIgnoredDirs
    ensures forall i :: |DefaultIgnoredDirs| <= i < |inv.options.ignored| ==> ',' !in inv.options.ignored[i]
    ensures Join(inv.options.ignored[|DefaultIgnoredDirs|..], ',') == f.ignore
  {
    var rootPath := if f.pathLong != "." then f.pathLong else f.path;
    var user := Split(f.ignore, ',');
    JoinSplit(f.ignore, ',');
    assert (DefaultIgnoredDirs + user)[|DefaultIgnoredDirs|..] == user;
    Invocation(rootPath, Options(f.hidden || f.hiddenLong, DefaultIgnoredDirs + user))
  }

  /** An empty `--ignore` adds the single name "", which no real entry has:
      the names pruned are exactly the defaults. */
  lemma EmptyIgnoreAddsNothing(f: Flags, name: string)
    requires f.ignore == ""
    requires name != ""
    ensures Resolve(f).options.ignored == DefaultIgnoredDirs + [""]
    ensures name in Resolve(f).options.ignored <==> name in DefaultIgnoredDirs
  {
  }
}
