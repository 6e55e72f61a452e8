/** The content dumper (printDirStructureWithContents, cmd/main.go:126-192):
    the same walk and filter as the renderer, but instead of lines it
    collects one fenced block per kept file whose extension is allowed, and
    prints the collected text only when the whole walk succeeds. */
module Dumper {
  import opened Wrappers
  import opened Strings
  import opened FileTree
  import opened Walk

  /** The extensions whose files are dumped; compared case-sensitively,
      leading dot included. */
  const AllowedExtensions: set<string> :=
    {".js", ".py", ".c", ".h", ".go", ".html", ".css", ".scss", ".txt", ".json", ".md"}

  /** A kept entry is dumped when it is not a directory and its extension is
      allowed. */
  predicate Dumpable(e: Entry) {
    !e.isDir && Ext(e.name) in AllowedExtensions
  }

  /** A file is dumped by its last extension alone: for a name ending in
      `.ext`, with no '.' or '/' in `ext`, whatever the stem holds. */
  lemma DumpableByExtension(e: Entry, stem: string, ext: string)
    requires e.name == stem + "." + ext
    requires '.' !in ext && '/' !in ext
    ensures Dumpable(e) <==> !e.isDir && "." + ext in AllowedExtensions
  {
    ExtAfterLastDot(stem, ext);
  }

  /** The block written for one file: its relative path, a blank line, and
      its text inside a fence, followed by a blank line. */
  function Block(relPath: string, text: string): string {
    relPath + ":\n\n```\n" + text + "\n```\n\n"
  }

  /** The blocks in order, as one text. */
  function Concat(blocks: seq<string>): string {
    if blocks == [] then "" else blocks[0] + Concat(blocks[1..])
  }

  /** The blocks of `first` followed by those of `next`, or the first error:
      an error in `first` stops the walk before `next` is visited. */
  function AndThen(first: Result<seq<string>, Failure>, next: Result<seq<string>, Failure>): Result<seq<string>, Failure> {
    if first.Failure? then first
    else if next.Failure? then next
    else Success(first.value + next.value)
  }

  /** The dumper's walk below `dir`: the blocks of the dumpable files in walk
      order, or the first error, which is a fault met by the walk or a
      dumpable file that cannot be read. */
  function DumpForest(es: seq<Entry>, dir: seq<string>, o: Options): (r: Result<seq<string>, Failure>)
    ensures r.Failure? ==> r.error.WalkFailed? || r.error.ReadFailed?
  {
    if es == [] then Success([])
    else
      var e := es[0];
      var p := dir + [e.name];
      if e.fault then Failure(WalkFailed(RelPath(p)))
      else if Decide(e.name, e.isDir, o) != Keep then DumpForest(es[1..], dir, o)
      else if e.isDir then AndThen(DumpForest(e.children, p, o), DumpForest(es[1..], dir, o))
      else if Ext(e.name) in AllowedExtensions then
        match e.content
        case Unreadable => Failure(ReadFailed(RelPath(p)))
        case Text(t) => AndThen(Success([Block(RelPath(p), t)]), DumpForest(es[1..], dir, o))
      else DumpForest(es[1..], dir, o)
  }

  /** The dumper. A missing root or one that is not a directory yields an
      error; so does any error of the walk, and then nothing is printed. */
  function Dump(root: Option<Entry>, o: Options): (r: Result<string, Failure>)
    ensures root.None? ==> r == Failure(NotFound)
    ensures root.Some? && !root.value.isDir ==> r == Failure(NotADirectory)
  {
    match root
    case None => Failure(NotFound)
    case Some(rt) =>
      if !rt.isDir then Failure(NotADirectory)
      else if rt.fault then Failure(WalkFailed("."))
      else
        match DumpForest(rt.children, [], o)
        case Failure(f) => Failure(f)
        case Success(blocks) => Success(Concat(blocks))
  }

  // Reference: the dumper as a filter over the kept entries of the walk.

  /** The dumpable visits, in order. */
  function DumpedFiles(vs: seq<Visit>): (r: seq<Visit>)
    ensures forall v :: v in r <==> v in vs && Dumpable(v.entry)
  {
    if vs == [] then []
    else if Dumpable(vs[0].entry) then [vs[0]] + DumpedFiles(vs[1..])
    else DumpedFiles(vs[1..])
  }

  /** A single visit is dumped exactly when it is dumpable. */
  lemma DumpedFilesSingle(v: Visit)
    ensures Dumpable(v.entry) ==> DumpedFiles([v]) == [v]
    ensures !Dumpable(v.entry) ==> DumpedFiles([v]) == []
  {
    assert [v][1..] == [];
  }

  /** The dumped visits of consecutive runs are those of the first run
      followed by those of the second: dumping keeps the walk's order. */
  lemma {:induction false} DumpedFilesAppend(a: seq<Visit>, b: seq<Visit>)
    ensures DumpedFiles(a + b) == DumpedFiles(a) + DumpedFiles(b)
  {
    if a == [] {
      assert a + b == b;
    } else {
      assert (a + b)[0] == a[0];
      assert (a + b)[1..] == a[1..] + b;
      DumpedFilesAppend(a[1..], b);
      if Dumpable(a[0].entry) {
        assert [a[0]] + DumpedFiles(a[1..]) + DumpedFiles(b) == [a[0]] + (DumpedFiles(a[1..]) + DumpedFiles(b));
      }
    }
  }

  /** Every dumpable visit can be read. */
  predicate AllReadable(vs: seq<Visit>) {
    forall v :: v in vs && Dumpable(v.entry) ==> v.entry.content.Text?
  }

  /** The block of each visit, for visits that can all be read. */
  function Blocks(vs: seq<Visit>): (r: seq<string>)
    requires forall v :: v in vs ==> v.entry.content.Text?
    ensures |r| == |vs|
    ensures forall i :: 0 <= i < |vs| ==> r[i] == Block(RelPath(vs[i].path), vs[i].entry.content.text)
  {
    if vs == [] then [] else [Block(RelPath(vs[0].path), vs[0].entry.content.text)] + Blocks(vs[1..])
  }

  /** Reading the dumpable visits in order: their blocks, or the read error of
      the first one that cannot be read. */
  function ReadVisits(vs: seq<Visit>): Result<seq<string>, Failure> {
    if vs == [] then Success([])
    else
      var v := vs[0];
      if !Dumpable(v.entry) then ReadVisits(vs[1..])
      else
        match v.entry.content
        case Unreadable => Failure(ReadFailed(RelPath(v.path)))
        case Text(t) => AndThen(Success([Block(RelPath(v.path), t)]), ReadVisits(vs[1..]))
  }

  /** The outcome of a dump from the reads of its visits and the walk's own
      error: a read failure comes first, since the walk stops at its point. */
  function Finish(readOutcome: Result<seq<string>, Failure>, walkError: Option<Failure>): (r: Result<seq<string>, Failure>)
    ensures r.Success? <==> readOutcome.Success? && walkError.None?
    ensures readOutcome.Failure? ==> r == readOutcome
    ensures r.Success? ==> r == readOutcome
    ensures readOutcome.Success? && walkError.Some? ==> r == Failure(walkError.value)
  {
    if readOutcome.Failure? then readOutcome
    else if walkError.Some? then Failure(walkError.value)
    else readOutcome
  }

  lemma {:induction false} ReadVisitsAppend(a: seq<Visit>, b: seq<Visit>)
    ensures ReadVisits(a + b) == AndThen(ReadVisits(a), ReadVisits(b))
  {
    if a == [] {
      assert a + b == b;
      var y := ReadVisits(b);
      if y.Success? {
        assert [] + y.value == y.value;
      }
    } else {
      assert (a + b)[1..] == a[1..] + b;
      ReadVisitsAppend(a[1..], b);
      var v := a[0];
      if Dumpable(v.entry) && v.entry.content.Text? {
        AndThenAssociative(Success([Block(RelPath(v.path), v.entry.content.text)]), ReadVisits(a[1..]), ReadVisits(b));
      }
    }
  }

  lemma AndThenAssociative(x: Result<seq<string>, Failure>, y: Result<seq<string>, Failure>, z: Result<seq<string>, Failure>)
    ensures AndThen(AndThen(x, y), z) == AndThen(x, AndThen(y, z))
  {
    if x.Success? && y.Success? && z.Success? {
      assert x.value + y.value + z.value == x.value + (y.value + z.value);
    }
  }

  /** The dumper's walk produces exactly the blocks of the reference walk's
      dumpable visits, and fails with the first read error among them or else
      with the walk's error. */
  lemma {:induction false} DumpForestIsVisible(es: seq<Entry>, dir: seq<string>, o: Options)
    ensures var w := Visible(es, dir, o);
      DumpForest(es, dir, o) == Finish(ReadVisits(w.out), w.error)
  {
    if es != [] {
      var e := es[0];
      var p := dir + [e.name];
      if !e.fault {
        DumpForestIsVisible(es[1..], dir, o);
        if Decide(e.name, e.isDir, o) == Keep {
          var v := Visit(p, e);
          var rest := Visible(es[1..], dir, o);
          if e.isDir {
            DumpForestIsVisible(e.children, p, o);
            var sub := Visible(e.children, p, o);
            ReadVisitsAppend([v], sub.out);
            ReadVisitsAppend([v] + sub.out, rest.out);
          } else {
            assert [v] + [] + rest.out == [v] + rest.out;
            ReadVisitsAppend([v], rest.out);
          }
        }
      }
    }
  }

  /** Reading the dumpable visits succeeds exactly when every one of them can
      be read, and then yields their blocks in order. */
  lemma {:induction false} ReadVisitsSucceeds(vs: seq<Visit>)
    ensures ReadVisits(vs).Success? <==> AllReadable(vs)
    ensures AllReadable(vs) ==> ReadVisits(vs) == Success(Blocks(DumpedFiles(vs)))
  {
    if vs != [] {
      var v := vs[0];
      ReadVisitsSucceeds(vs[1..]);
      assert forall u :: u in vs <==> u == v || u in vs[1..];
    }
  }

  /** A visit the dumper would fail to read. */
  predicate Unreadable(v: Visit) {
    Dumpable(v.entry) && v.entry.content.Unreadable?
  }

  /** `vs[k]` is the first dumpable visit that cannot be read. */
  predicate FirstUnreadable(vs: seq<Visit>, k: int) {
    && 0 <= k < |vs|
    && Unreadable(vs[k])
    && forall i :: 0 <= i < k ==> !Unreadable(vs[i])
  }

  lemma AllReadableCons(vs: seq<Visit>)
    requires |vs| >= 1
    ensures AllReadable(vs) <==> !Unreadable(vs[0]) && AllReadable(vs[1..])
  {
    assert forall u :: u in vs <==> u == vs[0] || u in vs[1..] by {
      assert vs == [vs[0]] + vs[1..];
    }
  }

  /** When a dumpable visit cannot be read, reading fails with the path of the
      first such visit. */
  lemma {:induction false} ReadVisitsFirstFailure(vs: seq<Visit>)
    requires !AllReadable(vs)
    ensures exists k ::
      FirstUnreadable(vs, k) && ReadVisits(vs) == Failure(ReadFailed(RelPath(vs[k].path)))
  {
    AllReadableCons(vs);
    var v := vs[0];
    if Unreadable(v) {
      assert FirstUnreadable(vs, 0);
    } else {
      ReadVisitsFirstFailure(vs[1..]);
      var k :| FirstUnreadable(vs[1..], k) &&
        ReadVisits(vs[1..]) == Failure(ReadFailed(RelPath(vs[1..][k].path)));
      assert forall i :: 1 <= i < k + 1 ==> vs[i] == vs[1..][i - 1];
      assert FirstUnreadable(vs, k + 1);
    }
  }
}
