/** The tree renderer (printDirStructure, cmd/main.go:65-124): a root line,
    then one line per kept entry in walk order, each indented by the number
    of segments in its relative path. Lines are written as they are produced,
    so the lines before an error stay on the output. */
module Renderer {
  import opened Wrappers
  import opened Strings
  import opened FileTree
  import opened Walk

  /** Filler written for every ancestor segment. */
  const Blank: string := "    "
  /** Connector written for the entry's own segment. */
  const Leaf: string := "└── "

  /** What the prefix loop writes from iteration `i` on, for a relative path
      of `k` parts: the connector on the last part, filler on the others. */
  function ConnectorsFrom(i: nat, k: nat): string
    decreases k - i
  {
    if i >= k then ""
    else (if i == k - 1 then Leaf else Blank) + ConnectorsFrom(i + 1, k)
  }

  /** The line written for one kept entry: the prefix computed from the parts
      of its relative path, its name, and a '/' for a directory. */
  function EntryLine(relPath: string, name: string, isDir: bool): string {
    ConnectorsFrom(0, |Split(relPath, '/')|) + name + (if isDir then "/\n" else "\n")
  }

  /** The line for a visit of the reference walk. */
  function VisitLine(v: Visit): string {
    EntryLine(RelPath(v.path), v.entry.name, v.entry.isDir)
  }

  /** The lines for a list of visits, in order. */
  function Lines(vs: seq<Visit>): (r: seq<string>)
    ensures |r| == |vs|
    ensures forall i :: 0 <= i < |vs| ==> r[i] == VisitLine(vs[i])
  {
    if vs == [] then [] else [VisitLine(vs[0])] + Lines(vs[1..])
  }

  /** The renderer's walk below `dir`: the filter decides each entry, a kept
      entry's line is written before its subtree is walked, and a fault stops
      the walk with the lines written so far. */
  function RenderForest(es: seq<Entry>, dir: seq<string>, o: Options): (r: Walked<string>)
    ensures r.error.Some? ==> r.error.value.WalkFailed?
  {
    if es == [] then Walked([], None)
    else
      var e := es[0];
      var p := dir + [e.name];
      if e.fault then Walked([], Some(WalkFailed(RelPath(p))))
      else
        match Decide(e.name, e.isDir, o)
        case Prune => RenderForest(es[1..], dir, o)
        case Skip => RenderForest(es[1..], dir, o)
        case Keep =>
          var line := EntryLine(RelPath(p), e.name, e.isDir);
          var sub := if e.isDir then RenderForest(e.children, p, o) else Walked([], None);
          if sub.error.Some? then Walked([line] + sub.out, sub.error)
          else
            var rest := RenderForest(es[1..], dir, o);
            Walked([line] + sub.out + rest.out, rest.error)
  }

  /** The label of the root line: the base name of the root path, or the base
      name of the working directory when that base name is ".". `cwdBase` is
      the working directory's base name, or None when it cannot be found. */
  function RootLabel(base: string, cwdBase: Option<string>): (r: Result<string, Failure>)
    ensures base != "." ==> r == Success(base)
    ensures base == "." ==> (r.Success? <==> cwdBase.Some?)
    ensures base == "." && cwdBase.Some? ==> r == Success(cwdBase.value)
    ensures r.Failure? ==> r.error == NoWorkingDirectory
  {
    if base != "." then Success(base)
    else if cwdBase.Some? then Success(cwdBase.value)
    else Failure(NoWorkingDirectory)
  }

  /** Everything the renderer writes, and the error it returns, if any. */
  datatype Report = Report(lines: seq<string>, error: Option<Failure>)

  /** The renderer. `root` is the root path's entry, None when it does not
      exist. A root that is missing, not a directory, or whose label cannot
      be found yields an error and no output; otherwise the root line is
      always written, even when the walk then fails. */
  function Render(root: Option<Entry>, base: string, cwdBase: Option<string>, o: Options): (r: Report)
    ensures root.None? ==> r == Report([], Some(NotFound))
    ensures root.Some? && !root.value.isDir ==> r == Report([], Some(NotADirectory))
    ensures root.Some? && root.value.isDir && RootLabel(base, cwdBase).Failure? ==>
      r == Report([], Some(NoWorkingDirectory))
    ensures root.Some? && root.value.isDir && RootLabel(base, cwdBase).Success? ==>
      |r.lines| >= 1 && r.lines[0] == RootLabel(base, cwdBase).value + "/\n"
  {
    match root
    case None => Report([], Some(NotFound))
    case Some(rt) =>
      if !rt.isDir then Report([], Some(NotADirectory))
      else
        match RootLabel(base, cwdBase)
        case Failure(f) => Report([], Some(f))
        case Success(rootName) =>
          var first := rootName + "/\n";
          if rt.fault then Report([first], Some(WalkFailed(".")))
          else
            var w := RenderForest(rt.children, [], o);
            Report([first] + w.out, w.error)
  }

  /** The line the tree shows for an entry `depth` levels below the root:
      filler for each ancestor level, the connector, the name, and "/" for a
      directory. */
  function TreeLine(depth: nat, name: string, isDir: bool): string
    requires depth >= 1
  {
    Repeat(Blank, depth - 1) + Leaf + name + (if isDir then "/\n" else "\n")
  }

  /** The prefix loop writes filler for every part but the last and the
      connector for the last one. */
  lemma {:induction false} ConnectorsShape(i: nat, k: nat)
    requires i < k
    ensures ConnectorsFrom(i, k) == Repeat(Blank, k - 1 - i) + Leaf
    decreases k - i
  {
    if i < k - 1 {
      ConnectorsShape(i + 1, k);
    }
  }

  /** The line of an entry whose relative path has `|path|` segments is
      `|path| - 1` fillers, the connector, the name, and "/\n" exactly when the
      entry is a directory. */
  lemma EntryLineShape(path: seq<string>, isDir: bool)
    requires |path| >= 1
    requires forall j :: 0 <= j < |path| ==> '/' !in path[j]
    ensures EntryLine(RelPath(path), path[|path| - 1], isDir) == TreeLine(|path|, path[|path| - 1], isDir)
  {
    SplitJoin(path, '/');
    ConnectorsShape(0, |path|);
  }

  /** A line ends in "/\n" exactly when its entry is a directory: the prefix
      ends in a blank and names hold no '/'. */
  lemma EntryLineSlashIffDir(path: seq<string>, isDir: bool)
    requires |path| >= 1
    requires forall j :: 0 <= j < |path| ==> '/' !in path[j]
    ensures HasSuffix(EntryLine(RelPath(path), path[|path| - 1], isDir), "/\n") <==> isDir
  {
    var name := path[|path| - 1];
    EntryLineShape(path, isDir);
    var pre := Repeat(Blank, |path| - 1) + Leaf;
    assert pre[|pre| - 1] == ' ';
    if !isDir {
      NoSlashBeforeNewline(pre, name);
    }
  }

  /** `pre + name + "\n"` does not end in "/\n" when `pre` ends in something
      other than '/' and `name` holds no '/'. */
  lemma NoSlashBeforeNewline(pre: string, name: string)
    requires |pre| >= 1 && pre[|pre| - 1] != '/'
    requires '/' !in name
    ensures !HasSuffix(pre + name + "\n", "/\n")
  {
    var line := pre + name + "\n";
    if |name| == 0 {
      assert line[|line| - 2] == pre[|pre| - 1];
    } else {
      assert line[|line| - 2] == name[|name| - 1];
    }
    assert line[|line| - 2..][0] == line[|line| - 2];
  }

  /** Splitting the visits of a walk: lines of a concatenation. */
  lemma {:induction false} LinesAppend(a: seq<Visit>, b: seq<Visit>)
    ensures Lines(a + b) == Lines(a) + Lines(b)
  {
  }

  /** The renderer's walk writes exactly the lines of the reference walk's
      visits and stops with the same error. */
  lemma {:induction false} RenderForestIsVisible(es: seq<Entry>, dir: seq<string>, o: Options)
    ensures var w := Visible(es, dir, o);
      RenderForest(es, dir, o) == Walked(Lines(w.out), w.error)
  {
    if es != [] {
      var e := es[0];
      var p := dir + [e.name];
      if !e.fault {
        RenderForestIsVisible(es[1..], dir, o);
        if Decide(e.name, e.isDir, o) == Keep {
          var v := Visit(p, e);
          assert VisitLine(v) == EntryLine(RelPath(p), e.name, e.isDir);
          if e.isDir {
            RenderForestIsVisible(e.children, p, o);
            var sub := Visible(e.children, p, o);
            var rest := Visible(es[1..], dir, o);
            LinesAppend([v], sub.out);
            LinesAppend([v] + sub.out, rest.out);
          } else {
            var rest := Visible(es[1..], dir, o);
            assert [v] + [] + rest.out == [v] + rest.out;
            LinesAppend([v], rest.out);
          }
        }
      }
    }
  }

  /** The renderer writes the root line followed by the lines of the
      reference walk's visits, and returns the walk's error. */
  lemma RenderIsVisible(root: Entry, base: string, cwdBase: Option<string>, o: Options)
    requires root.isDir && !root.fault
    requires RootLabel(base, cwdBase).Success?
    ensures var w := Visible(root.children, [], o);
      Render(Some(root), base, cwdBase, o) ==
        Report([RootLabel(base, cwdBase).value + "/\n"] + Lines(w.out), w.error)
  {
    RenderForestIsVisible(root.children, [], o);
  }
}
