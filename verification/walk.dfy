/** The pre-order walk both output modes perform (filepath.Walk driving the
    callbacks at cmd/main.go:85-123 and 152-184), stated once as the list of
    entries the filter keeps, each with its path from the root. Both modes
    are proved to render exactly this list. */
module Walk {
  import opened Wrappers
  import opened FileTree

  /** A kept entry together with its path segments below the root. */
  datatype Visit = Visit(path: seq<string>, entry: Entry)

  /** What a walk produced before it stopped, and the error that stopped it,
      if any. */
  datatype Walked<T> = Walked(out: seq<T>, error: Option<Failure>)

  /** No entry the walk could reach carries a fault. */
  predicate Faultless(es: seq<Entry>) {
    forall i :: 0 <= i < |es| ==>
      !es[i].fault && (es[i].isDir ==> Faultless(es[i].children))
  }

  /** No entry the walk actually reaches carries a fault: the walk descends
      only into directories the filter keeps, so faults inside pruned
      subtrees and skipped files' own faults still count, but nothing below a
      pruned directory does. */
  predicate NoReachedFault(es: seq<Entry>, o: Options) {
    forall i :: 0 <= i < |es| ==>
      && !es[i].fault
      && (es[i].isDir && Decide(es[i].name, true, o) == Keep ==> NoReachedFault(es[i].children, o))
  }

  /** No entry name of the forest holds the path separator '/' (as on a real
      filesystem). */
  predicate SlashFree(es: seq<Entry>) {
    forall i :: 0 <= i < |es| ==>
      '/' !in es[i].name && SlashFree(es[i].children)
  }

  /** No entry of the forest has a dot-prefixed name. */
  predicate NoHidden(es: seq<Entry>) {
    forall i :: 0 <= i < |es| ==>
      !IsHidden(es[i].name) && NoHidden(es[i].children)
  }

  /** The entries below `dir` that the walk keeps, in pre-order: an entry
      with a fault stops the walk before the filter looks at it; a pruned
      directory contributes nothing, not even its subtree. */
  function Visible(es: seq<Entry>, dir: seq<string>, o: Options): (w: Walked<Visit>)
    ensures forall v :: v in w.out ==>
      && |v.path| > |dir|
      && v.path[..|dir|] == dir
      && v.path[|v.path| - 1] == v.entry.name
      && !v.entry.fault
      && Decide(v.entry.name, v.entry.isDir, o) == Keep
    ensures forall v, j :: v in w.out && |dir| <= j < |v.path| - 1 ==>
      Decide(v.path[j], true, o) == Keep
    ensures w.error.Some? ==> w.error.value.WalkFailed?
    ensures Faultless(es) ==> w.error.None?
  {
    if es == [] then Walked([], None)
    else
      var e := es[0];
      var p := dir + [e.name];
      if e.fault then Walked([], Some(WalkFailed(RelPath(p))))
      else if Decide(e.name, e.isDir, o) != Keep then Visible(es[1..], dir, o)
      else
        var sub := if e.isDir then Visible(e.children, p, o) else Walked([], None);
        assert forall v :: v in sub.out ==> v.path[|dir|] == e.name by {
          forall v | v in sub.out ensures v.path[|dir|] == e.name {
            assert v.path[..|p|][|dir|] == p[|dir|];
          }
        }
        if sub.error.Some? then Walked([Visit(p, e)] + sub.out, sub.error)
        else
          var rest := Visible(es[1..], dir, o);
          Walked([Visit(p, e)] + sub.out + rest.out, rest.error)
  }

  /** With no dot-prefixed name in the tree, the walk keeps the same entries
      whether or not hidden entries are included. */
  lemma {:induction false} HiddenFlagIrrelevant(es: seq<Entry>, dir: seq<string>, ignored: seq<string>)
    requires NoHidden(es)
    ensures Visible(es, dir, Options(true, ignored)) == Visible(es, dir, Options(false, ignored))
  {
    if es != [] {
      var e := es[0];
      var p := dir + [e.name];
      assert NoHidden(es[1..]) by {
        forall i | 0 <= i < |es[1..]| ensures !IsHidden(es[1..][i].name) && NoHidden(es[1..][i].children) {
          assert es[1..][i] == es[i + 1];
        }
      }
      HiddenFlagIrrelevant(es[1..], dir, ignored);
      HiddenFlagIrrelevant(e.children, p, ignored);
    }
  }

  /** Every segment of a kept entry's path is the name of an entry of the
      tree, so none holds '/' when no name does. */
  lemma {:induction false} VisibleSlashFree(es: seq<Entry>, dir: seq<string>, o: Options)
    requires SlashFree(es)
    requires forall j :: 0 <= j < |dir| ==> '/' !in dir[j]
    ensures forall v, j :: v in Visible(es, dir, o).out && 0 <= j < |v.path| ==> '/' !in v.path[j]
  {
    if es != [] {
      var e := es[0];
      var p := dir + [e.name];
      assert SlashFree(es[1..]) by {
        forall i | 0 <= i < |es[1..]| ensures '/' !in es[1..][i].name && SlashFree(es[1..][i].children) {
          assert es[1..][i] == es[i + 1];
        }
      }
      VisibleSlashFree(es[1..], dir, o);
      if !e.fault && Decide(e.name, e.isDir, o) == Keep && e.isDir {
        VisibleSlashFree(e.children, p, o);
      }
    }
  }

  /** The visits an entry contributes when the walk reaches it without a
      fault: its own visit when kept, followed by its subtree's when it is a
      kept directory. */
  function EntryVisits(e: Entry, dir: seq<string>, o: Options): seq<Visit> {
    var p := dir + [e.name];
    if Decide(e.name, e.isDir, o) != Keep then []
    else [Visit(p, e)] + (if e.isDir then Visible(e.children, p, o).out else [])
  }

  /** Walking two runs of siblings is walking the first and, unless it
      stopped with an error, then the second: the walk visits siblings in
      listing order and stops at the first error. */
  lemma {:induction false} VisibleAppend(a: seq<Entry>, b: seq<Entry>, dir: seq<string>, o: Options)
    ensures var wa := Visible(a, dir, o);
      var wb := Visible(b, dir, o);
      Visible(a + b, dir, o) ==
        if wa.error.Some? then wa else Walked(wa.out + wb.out, wb.error)
  {
    if a == [] {
      assert a + b == b;
    } else {
      assert (a + b)[0] == a[0];
      assert (a + b)[1..] == a[1..] + b;
      VisibleAppend(a[1..], b, dir, o);
      var e := a[0];
      var p := dir + [e.name];
      if !e.fault && Decide(e.name, e.isDir, o) == Keep {
        var sub := if e.isDir then Visible(e.children, p, o) else Walked([], None);
        var ra := Visible(a[1..], dir, o);
        var wb := Visible(b, dir, o);
        if sub.error.None? && ra.error.None? {
          assert [Visit(p, e)] + sub.out + ra.out + wb.out == [Visit(p, e)] + sub.out + (ra.out + wb.out);
        }
      }
    }
  }

  /** The walk reports no error exactly when no entry it reaches has a
      fault. */
  lemma {:induction false} VisibleErrorIff(es: seq<Entry>, dir: seq<string>, o: Options)
    ensures Visible(es, dir, o).error.None? <==> NoReachedFault(es, o)
  {
    if es != [] {
      var e := es[0];
      var p := dir + [e.name];
      assert NoReachedFault(es, o) <==>
        && !e.fault
        && (e.isDir && Decide(e.name, true, o) == Keep ==> NoReachedFault(e.children, o))
        && NoReachedFault(es[1..], o)
      by {
        forall i | 1 <= i < |es| ensures es[i] == es[1..][i - 1] {}
      }
      VisibleErrorIff(es[1..], dir, o);
      if !e.fault && e.isDir && Decide(e.name, true, o) == Keep {
        VisibleErrorIff(e.children, p, o);
      }
    }
  }

  /** On a forest whose first `i` entries the walk passes without a fault,
      the walk reaches entry `i`: it visits `es[..i]`, then what entry `i`
      contributes, and continues with the rest when that raised no error. */
  lemma VisibleAt(es: seq<Entry>, i: nat, dir: seq<string>, o: Options)
    requires i < |es|
    requires NoReachedFault(es[..i], o)
    ensures var e := es[i];
      var w := Visible(es, dir, o);
      var before := Visible(es[..i], dir, o).out;
      var rest := Visible(es[i + 1..], dir, o);
      if e.fault then
        w == Walked(before, Some(WalkFailed(RelPath(dir + [e.name]))))
      else if e.isDir && Decide(e.name, true, o) == Keep && !NoReachedFault(e.children, o) then
        w == Walked(before + EntryVisits(e, dir, o), Visible(e.children, dir + [e.name], o).error)
      else
        w == Walked(before + EntryVisits(e, dir, o) + rest.out, rest.error)
  {
    var e := es[i];
    var p := dir + [e.name];
    assert es == es[..i] + ([e] + es[i + 1..]);
    VisibleErrorIff(es[..i], dir, o);
    VisibleAppend(es[..i], [e] + es[i + 1..], dir, o);
    VisibleCons(e, es[i + 1..], dir, o);
    if !e.fault && e.isDir && Decide(e.name, true, o) == Keep {
      VisibleErrorIff(e.children, p, o);
    }
  }

  /** The walk of a forest starting with `e`: a fault stops it at once; else
      `e` contributes its visits, and the walk goes on to the siblings unless
      the walk of `e`'s subtree stopped with an error. */
  lemma VisibleCons(e: Entry, rest: seq<Entry>, dir: seq<string>, o: Options)
    ensures var p := dir + [e.name];
      var w := Visible([e] + rest, dir, o);
      var r := Visible(rest, dir, o);
      if e.fault then
        w == Walked([], Some(WalkFailed(RelPath(p))))
      else if e.isDir && Decide(e.name, true, o) == Keep && Visible(e.children, p, o).error.Some? then
        w == Walked(EntryVisits(e, dir, o), Visible(e.children, p, o).error)
      else
        w == Walked(EntryVisits(e, dir, o) + r.out, r.error)
  {
    var es := [e] + rest;
    assert es[0] == e && es[1..] == rest;
    var p := dir + [e.name];
    var r := Visible(rest, dir, o);
    if e.fault {
    } else if Decide(e.name, e.isDir, o) != Keep {
      assert EntryVisits(e, dir, o) == [];
      assert [] + r.out == r.out;
    } else if !e.isDir {
      assert EntryVisits(e, dir, o) == [Visit(p, e)];
      assert [Visit(p, e)] + [] + r.out == [Visit(p, e)] + r.out;
    } else {
      assert EntryVisits(e, dir, o) == [Visit(p, e)] + Visible(e.children, p, o).out;
    }
  }

  /** Every entry the walk reaches and the filter keeps is visited, with its
      path, and so is every visit of a kept directory's subtree. */
  lemma KeptEntryVisited(es: seq<Entry>, i: nat, dir: seq<string>, o: Options)
    requires i < |es|
    requires NoReachedFault(es, o)
    requires Decide(es[i].name, es[i].isDir, o) == Keep
    ensures Visit(dir + [es[i].name], es[i]) in Visible(es, dir, o).out
    ensures es[i].isDir ==>
      forall v :: v in Visible(es[i].children, dir + [es[i].name], o).out ==> v in Visible(es, dir, o).out
  {
    assert NoReachedFault(es[..i], o) by {
      forall j | 0 <= j < i ensures es[..i][j] == es[j] {}
    }
    assert es[i] == es[i];
    VisibleAt(es, i, dir, o);
  }
}
