/** The directory tree the printer walks, the options of one invocation, the
    errors it can report, and the filter policy both output modes apply to
    every entry below the root (cmd/main.go:95-106 and again at 162-173). */
module FileTree {
  import opened Strings

  /** What reading a file yields: its text, or a read failure. */
  datatype Content = Text(text: string) | Unreadable

  /** One filesystem entry. `children` are in the order the directory listing
      returns them and are walked only when `isDir`; `fault` marks an entry
      for which the walk hands the callback an error (the entry cannot be
      inspected, or, for a directory, cannot be listed). */
  datatype Entry = Entry(
    name: string,
    isDir: bool,
    fault: bool,
    content: Content,
    children: seq<Entry>)

  /** The single error an invocation reports. Paths are relative to the root. */
  datatype Failure =
    | NotFound
    | NotADirectory
    | NoWorkingDirectory
    | WalkFailed(path: string)
    | ReadFailed(path: string)

  /** Settings shared by both modes: whether dot-prefixed entries are shown,
      and the directory names to prune. */
  datatype Options = Options(includeHidden: bool, ignored: seq<string>)

  /** The filter's decision about one entry: prune a directory with its whole
      subtree, skip a file, or keep the entry. */
  datatype Verdict = Prune | Skip | Keep

  /** Dot-prefixed names are hidden. */
  predicate IsHidden(name: string) {
    HasPrefix(name, ".")
  }

  /** A name is hidden exactly when its first character is '.'. */
  lemma HiddenIffLeadingDot(name: string)
    ensures IsHidden(name) <==> |name| > 0 && name[0] == '.'
  {
    if |name| > 0 && name[0] == '.' {
      assert name[..1] == ".";
    }
  }

  /** Relative path of an entry from its segments below the root. */
  function RelPath(segments: seq<string>): string {
    Join(segments, '/')
  }

  /** The filter policy. A hidden entry is dropped unless hidden entries are
      included; the ignore list prunes directories only, and prunes them even
      when hidden entries are included. */
  function Decide(name: string, isDir: bool, o: Options): (v: Verdict)
    ensures v == Prune ==> isDir
    ensures v == Skip ==> !isDir
    ensures v == Keep <==>
      (o.includeHidden || !IsHidden(name)) && !(isDir && name in o.ignored)
    ensures isDir && name in o.ignored ==> v == Prune
    ensures !isDir ==> (v == Keep <==> o.includeHidden || !IsHidden(name))
  {
    if !o.includeHidden && IsHidden(name) then
      if isDir then Prune else Skip
    else if isDir && name in o.ignored then Prune
    else Keep
  }
}
