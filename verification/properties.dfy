/** Properties of the two output modes, stated over whole invocations: the
    layout of the rendered tree, what the dumper prints or why it fails, how
    the two modes agree, and what the filter guarantees. */
module Properties {
  import opened Wrappers
  import opened Strings
  import opened FileTree
  import opened Walk
  import opened Renderer
  import opened Dumper

  /** The rendered tree: the root line, then one line per kept entry in walk
      order, made of one filler per ancestor segment, the connector, the name
      and "/" for a directory; the output ends where the walk stopped and the
      walk's error is returned. */
  lemma RenderLayout(root: Entry, base: string, cwdBase: Option<string>, o: Options)
    requires root.isDir && !root.fault
    requires RootLabel(base, cwdBase).Success?
    requires SlashFree(root.children)
    ensures var w := Visible(root.children, [], o);
      var r := Render(Some(root), base, cwdBase, o);
      && r.error == w.error
      && |r.lines| == |w.out| + 1
      && r.lines[0] == RootLabel(base, cwdBase).value + "/\n"
      && (forall i :: 1 <= i < |r.lines| ==>
            r.lines[i] == TreeLine(|w.out[i - 1].path|, w.out[i - 1].entry.name, w.out[i - 1].entry.isDir))
      && (forall i :: 1 <= i < |r.lines| ==>
            (HasSuffix(r.lines[i], "/\n") <==> w.out[i - 1].entry.isDir))
  {
    var w := Visible(root.children, [], o);
    RenderIsVisible(root, base, cwdBase, o);
    WalkShape(root.children, o);
    LayoutAfterRoot(Render(Some(root), base, cwdBase, o), RootLabel(base, cwdBase).value + "/\n", w.out);
  }

  /** The visits of a walk from the root of a tree whose names hold no '/':
      each path is non-empty, '/'-free, and ends in the entry's name. */
  lemma WalkShape(es: seq<Entry>, o: Options)
    requires SlashFree(es)
    ensures var vs := Visible(es, [], o).out;
      forall i :: 0 <= i < |vs| ==>
        && |vs[i].path| >= 1
        && vs[i].path[|vs[i].path| - 1] == vs[i].entry.name
        && (forall j :: 0 <= j < |vs[i].path| ==> '/' !in vs[i].path[j])
  {
    var vs := Visible(es, [], o).out;
    VisibleSlashFree(es, [], o);
    forall i | 0 <= i < |vs|
      ensures |vs[i].path| >= 1
      ensures vs[i].path[|vs[i].path| - 1] == vs[i].entry.name
      ensures forall j :: 0 <= j < |vs[i].path| ==> '/' !in vs[i].path[j]
    {
      assert vs[i] in vs;
    }
  }

  /** A report made of a root line and the lines of visits whose paths are
      non-empty, '/'-free and end in their entries' names has the tree layout
      after its root line. */
  lemma LayoutAfterRoot(r: Report, first: string, vs: seq<Visit>)
    requires r.lines == [first] + Lines(vs)
    requires forall i :: 0 <= i < |vs| ==>
      && |vs[i].path| >= 1
      && vs[i].path[|vs[i].path| - 1] == vs[i].entry.name
      && (forall j :: 0 <= j < |vs[i].path| ==> '/' !in vs[i].path[j])
    ensures |r.lines| == |vs| + 1
    ensures r.lines[0] == first
    ensures forall i :: 1 <= i < |r.lines| ==>
      r.lines[i] == TreeLine(|vs[i - 1].path|, vs[i - 1].entry.name, vs[i - 1].entry.isDir)
    ensures forall i :: 1 <= i < |r.lines| ==> (HasSuffix(r.lines[i], "/\n") <==> vs[i - 1].entry.isDir)
  {
    forall i | 1 <= i < |r.lines|
      ensures r.lines[i] == TreeLine(|vs[i - 1].path|, vs[i - 1].entry.name, vs[i - 1].entry.isDir)
      ensures HasSuffix(r.lines[i], "/\n") <==> vs[i - 1].entry.isDir
    {
      assert r.lines[i] == VisitLine(vs[i - 1]);
      VisitLineLayout(vs[i - 1]);
    }
  }

  /** The line of one visit whose path is non-empty, '/'-free and ends in its
      entry's name. */
  lemma VisitLineLayout(v: Visit)
    requires |v.path| >= 1 && v.path[|v.path| - 1] == v.entry.name
    requires forall j :: 0 <= j < |v.path| ==> '/' !in v.path[j]
    ensures VisitLine(v) == TreeLine(|v.path|, v.entry.name, v.entry.isDir)
    ensures HasSuffix(VisitLine(v), "/\n") <==> v.entry.isDir
  {
    EntryLineShape(v.path, v.entry.isDir);
    EntryLineSlashIffDir(v.path, v.entry.isDir);
  }

  /** The dumper prints exactly when the walk completes and every dumpable
      kept file can be read; it then prints their blocks in walk order.
      Otherwise it prints nothing and returns the first error met: the read
      failure of the first unreadable dumpable file, or else the walk's. */
  lemma DumpOutcome(root: Entry, o: Options)
    requires root.isDir && !root.fault
    ensures var w := Visible(root.children, [], o);
      var d := Dump(Some(root), o);
      && (d.Success? <==> w.error.None? && AllReadable(w.out))
      && (d.Success? ==> d.value == Concat(Blocks(DumpedFiles(w.out))))
      && (!AllReadable(w.out) ==> exists k ::
            FirstUnreadable(w.out, k) && d == Failure(ReadFailed(RelPath(w.out[k].path))))
      && (AllReadable(w.out) && w.error.Some? ==> d == Failure(w.error.value))
  {
    var w := Visible(root.children, [], o);
    DumpForestIsVisible(root.children, [], o);
    ReadVisitsSucceeds(w.out);
    if !AllReadable(w.out) {
      ReadVisitsFirstFailure(w.out);
    }
  }

  /** The two modes walk the same entries: the dumper's blocks are those of
      the renderer's kept non-directory entries with an allowed extension, in
      the same order; a walk error makes both fail, and the dumper can succeed
      only when the renderer does. */
  lemma ModesAgree(root: Entry, base: string, cwdBase: Option<string>, o: Options)
    requires root.isDir
    requires RootLabel(base, cwdBase).Success?
    ensures var r := Render(Some(root), base, cwdBase, o);
      var d := Dump(Some(root), o);
      && (r.error.Some? ==> d.Failure?)
      && (d.Failure? && d.error.WalkFailed? ==> r.error == Some(d.error))
      && (!root.fault ==>
            var w := Visible(root.children, [], o);
            && r.lines[1..] == Lines(w.out)
            && (d.Success? ==> AllReadable(w.out) && d.value == Concat(Blocks(DumpedFiles(w.out)))))
  {
    var r := Render(Some(root), base, cwdBase, o);
    var d := Dump(Some(root), o);
    if !root.fault {
      var w := Visible(root.children, [], o);
      RenderIsVisible(root, base, cwdBase, o);
      assert r.error == w.error;
      assert r.lines[1..] == Lines(w.out);
      DumpOutcome(root, o);
    } else {
      assert Render(Some(root), base, cwdBase, o).error == Some(WalkFailed("."));
    }
  }

  /** When no name in the tree is dot-prefixed, both modes produce the same
      result with hidden entries included or excluded. */
  lemma HiddenFlagNoOp(root: Option<Entry>, base: string, cwdBase: Option<string>, ignored: seq<string>)
    requires root.Some? ==> NoHidden(root.value.children)
    ensures Render(root, base, cwdBase, Options(true, ignored)) == Render(root, base, cwdBase, Options(false, ignored))
    ensures Dump(root, Options(true, ignored)) == Dump(root, Options(false, ignored))
  {
    if root.Some? {
      var es := root.value.children;
      HiddenFlagIrrelevant(es, [], ignored);
      RenderForestIsVisible(es, [], Options(true, ignored));
      RenderForestIsVisible(es, [], Options(false, ignored));
      DumpForestIsVisible(es, [], Options(true, ignored));
      DumpForestIsVisible(es, [], Options(false, ignored));
    }
  }

  /** What both modes show lies outside every pruned subtree: with hidden
      entries excluded, no segment of a kept entry's path is dot-prefixed; no
      directory on the path, the entry itself included when it is one, is on
      the ignore list, whatever the hidden setting. */
  lemma PrunedNeverShown(es: seq<Entry>, dir: seq<string>, o: Options)
    ensures forall v, j :: v in Visible(es, dir, o).out && |dir| <= j < |v.path| && !o.includeHidden ==>
      !IsHidden(v.path[j])
    ensures forall v, j :: v in Visible(es, dir, o).out && |dir| <= j < |v.path| - 1 ==>
      v.path[j] !in o.ignored
    ensures forall v :: v in Visible(es, dir, o).out && v.entry.isDir ==> v.entry.name !in o.ignored
  {
    var w := Visible(es, dir, o);
    forall v, j | v in w.out && |dir| <= j < |v.path| && !o.includeHidden
      ensures !IsHidden(v.path[j])
    {
      if j < |v.path| - 1 {
        assert Decide(v.path[j], true, o) == Keep;
      } else {
        assert Decide(v.entry.name, v.entry.isDir, o) == Keep;
      }
    }
  }

  /** An entry whose inspection fails stops both modes at that entry even
      when the filter would have dropped it. For a fault on the root's
      `i`-th child, reached after its earlier siblings were walked without
      a fault: the renderer keeps the root line and the lines of those
      siblings' walk and reports the faulty child; the dumper prints nothing,
      and reports the faulty child unless a file it read earlier failed. */
  lemma FaultPrecedesFilter(root: Entry, base: string, cwdBase: Option<string>, o: Options, i: nat)
    requires root.isDir && !root.fault
    requires RootLabel(base, cwdBase).Success?
    requires i < |root.children| && root.children[i].fault
    requires NoReachedFault(root.children[..i], o)
    ensures var name := root.children[i].name;
      var before := Visible(root.children[..i], [], o).out;
      && Render(Some(root), base, cwdBase, o) ==
           Report([RootLabel(base, cwdBase).value + "/\n"] + Lines(before), Some(WalkFailed(name)))
      && Dump(Some(root), o).Failure?
      && (AllReadable(before) ==> Dump(Some(root), o) == Failure(WalkFailed(name)))
  {
    var name := root.children[i].name;
    VisibleAt(root.children, i, [], o);
    assert RelPath([] + [name]) == name by {
      assert [] + [name] == [name];
    }
    RenderIsVisible(root, base, cwdBase, o);
    DumpOutcome(root, o);
  }

  /** Both modes report a walk error exactly when the walk reaches a faulty
      entry, however deep: the renderer returns an error exactly then, and
      the dumper can only succeed when it does not. */
  lemma WalkErrorIff(root: Entry, base: string, cwdBase: Option<string>, o: Options)
    requires root.isDir && !root.fault
    requires RootLabel(base, cwdBase).Success?
    ensures Render(Some(root), base, cwdBase, o).error.None? <==> NoReachedFault(root.children, o)
    ensures Dump(Some(root), o).Success? ==> NoReachedFault(root.children, o)
    ensures Dump(Some(root), o).Failure? && Dump(Some(root), o).error.WalkFailed? ==> !NoReachedFault(root.children, o)
  {
    RenderIsVisible(root, base, cwdBase, o);
    VisibleErrorIff(root.children, [], o);
    DumpOutcome(root, o);
    var w := Visible(root.children, [], o);
    if !AllReadable(w.out) {
      ReadVisitsFirstFailure(w.out);
    }
  }
}
