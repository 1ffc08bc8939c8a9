/** The invariant without the keys of saved tables, which every operation keeps, and exactly when a
  * value that leaks into a saved table breaks the rest. */
module UndoLeaks {
  import opened Basics
  import opened Tables
  import opened UndoModel
  import opened UndoInvariant

  // ----- the invariant but for keys

  /** The same rows without secondary indices. */
  function Bare(s: State): State {
    s.(width := 0)
  }

  /** What the invariant says apart from keys: that of the table without secondary indices. */
  ghost predicate Sturdy(s: State) {
    Wf(Bare(s))
  }

  /** Every table that undo can reach has unique keys. */
  ghost predicate AllUnique(s: State)
    decreases |s.stack|
  {
    Unique(s.main, s.width) && (s.stack != [] ==> AllUnique(Undo(s)))
  }

  lemma BareUndo(s: State)
    ensures Undo(Bare(s)) == Bare(Undo(s))
  {}

  lemma SturdyParts(s: State)
    requires Sturdy(s)
    ensures |s.stack| <= s.revision
    ensures forall id | id in s.main :: id < s.nextId && s.main[id].mtime <= s.mono
    ensures s.stack != [] ==> TopOk(s, Top(s)) && (|s.stack| > 1 ==> Ordered(Top(Pop(s)), Top(s))) && Sturdy(Undo(s))
  {
    hide Growing, Single, BackupsLive, BackupsOlder, StampsDatable;
    BareUndo(s);
  }

  lemma SturdyDepth(s: State)
    requires Sturdy(s)
    ensures |s.stack| <= s.revision
  {}

  lemma SturdyApart(s: State)
    requires Sturdy(s)
    ensures s.stack != [] ==> s.main.Keys !! Top(s).removed.Keys
  {
    hide Wf;
    WfApart(Bare(s));
  }

  lemma SturdyFrom(s: State)
    requires |s.stack| <= s.revision
    requires forall id | id in s.main :: id < s.nextId && s.main[id].mtime <= s.mono
    requires s.stack != [] ==> TopOk(s, Top(s)) && (|s.stack| > 1 ==> Ordered(Top(Pop(s)), Top(s))) && Sturdy(Undo(s))
    ensures Sturdy(s)
  {
    hide Growing, Single, BackupsLive, BackupsOlder, StampsDatable;
    BareUndo(s);
  }

  /** The two parts make the invariant. */
  lemma {:induction false} WfIs(s: State)
    ensures Wf(s) <==> Sturdy(s) && AllUnique(s)
    decreases |s.stack|
  {
    hide Growing, Single, BackupsLive, BackupsOlder, StampsDatable, Unique;
    if s.stack != [] {
      BareUndo(s);
      WfIs(Undo(s));
    }
    assert Unique(s.main, 0) by { NoKeys(s.main); }
  }

  lemma NoKeys(t: Table)
    ensures Unique(t, 0)
  {}

  // ----- rows that are overwritten without a backup

  /** The table with `rows` written over rows of the same ids. */
  function Overlay(s: State, rows: Table): State {
    s.(main := s.main + rows)
  }

  /** The rows are of objects in the table, and stamped no earlier than those. */
  ghost predicate Later(s: State, rows: Table) {
    rows.Keys <= s.main.Keys && forall id | id in rows :: s.main[id].mtime <= rows[id].mtime <= s.mono
  }

  /** The rows that undo of the top session leaves as they are: of old objects without a usable backup. */
  function Leaking(s: State, rows: Table): Table
    requires s.stack != []
  {
    map id | id in rows && id < Top(s).oldNextId && Oldest(Top(s).olds, id, Top(s).ctime).None? :: rows[id]
  }

  /** Two sessions that undo to the same rows but for `rows`. */
  lemma UndoneOver(main: Table, t: Session, base: Table, b: Session, rows: Table)
    requires forall id: nat :: Before(main, t, id) == if id in rows then Some(rows[id]) else Before(base, b, id)
    ensures UndoMain(main, t) == UndoMain(base, b) + rows
  {
    hide Before;
    SomeInUndo(main, t);
    SomeInUndo(base, b);
  }

  /** What is written over the table leaks into the one that undo gives. */
  lemma OverlayUndo(s: State, rows: Table)
    requires s.stack != [] && Later(s, rows) && s.main.Keys !! Top(s).removed.Keys
    ensures Undo(Overlay(s, rows)) == Overlay(Undo(s), Leaking(s, rows)) && Later(Undo(s), Leaking(s, rows))
  {
    hide Before;
    var t, r := Top(s), Leaking(s, rows);
    OverlayBefore(s, rows);
    UndoneOver(s.main + rows, t, s.main, t, r);
    SomeInUndo(s.main, t);
    forall id | id in r ensures UndoMain(s.main, t)[id] == s.main[id] {}
  }

  lemma OverlayBefore(s: State, rows: Table)
    requires s.stack != [] && Later(s, rows) && s.main.Keys !! Top(s).removed.Keys
    ensures var t, r := Top(s), Leaking(s, rows);
      && (forall id: nat :: Before(s.main + rows, t, id) == if id in r then Some(r[id]) else Before(s.main, t, id))
      && (forall id | id in r :: Before(s.main, t, id) == Some(s.main[id]))
  {
    hide Oldest;
    var t, r, main := Top(s), Leaking(s, rows), s.main + rows;
    forall id: nat ensures Before(main, t, id) == if id in r then Some(r[id]) else Before(s.main, t, id) {
      assert id in Base(main, t) <==> id in Base(s.main, t);
    }
  }

  lemma OverlayTop(s: State, rows: Table)
    requires s.stack != [] && Later(s, rows) && TopOk(s, Top(s))
    ensures TopOk(Overlay(s, rows), Top(s))
  {
    var r := Overlay(s, rows);
    assert forall id | id in Base(s.main, Top(s)) ::
      id in Base(r.main, Top(s)) && Base(s.main, Top(s))[id].mtime <= Base(r.main, Top(s))[id].mtime;
  }

  lemma {:induction false} OverlaySturdy(s: State, rows: Table)
    requires Sturdy(s) && Later(s, rows)
    ensures Sturdy(Overlay(s, rows))
    decreases |s.stack|
  {
    hide Sturdy, TopOk;
    SturdyParts(s);
    var r := Overlay(s, rows);
    if s.stack != [] {
      TopApart(s);
      OverlayTop(s, rows);
      OverlayUndo(s, rows);
      OverlaySturdy(Undo(s), Leaking(s, rows));
    }
    SturdyFrom(r);
  }

  lemma TopApart(s: State)
    requires s.stack != [] && TopOk(s, Top(s))
    ensures s.main.Keys !! Top(s).removed.Keys
  {}

  /** Every table that the rows leak into stays unique with them. */
  ghost predicate Settles(s: State, rows: Table)
    decreases |s.stack|
  {
    Unique(s.main + rows, s.width) && (s.stack != [] ==> Settles(Undo(s), Leaking(s, rows)))
  }

  lemma {:induction false} OverlayUnique(s: State, rows: Table)
    requires Sturdy(s) && Later(s, rows)
    ensures AllUnique(Overlay(s, rows)) <==> Settles(s, rows)
    decreases |s.stack|
  {
    hide Sturdy, TopOk, Unique;
    SturdyParts(s);
    if s.stack != [] {
      TopApart(s);
      OverlayUndo(s, rows);
      OverlayUnique(Undo(s), Leaking(s, rows));
    }
  }

  // ----- modify

  /** `v` fits every saved table that a change of `id` without a backup leaks into. */
  ghost predicate LeakFits(s: State, id: nat, v: Value)
    decreases |s.stack|
  {
    s.stack != [] && Poisoned(s, id) ==> Fits(Undo(s).main - {id}, v, s.width) && LeakFits(Undo(s), id, v)
  }

  /** A change of one row leaks on until a session has a backup of it or is older than the object. */
  lemma {:induction false} LeakSettles(s: State, id: nat, row: Row)
    requires Sturdy(s) && AllUnique(s) && id in s.main && row.mtime == s.main[id].mtime
    requires s.stack != [] ==> Top(s).ctime <= row.mtime
    ensures s.stack != [] ==> (Settles(Undo(s), Leaking(s, map[id := row])) <==> LeakFits(s, id, row.value))
    decreases |s.stack|
  {
    hide Sturdy, TopOk, Unique, Fits;
    SturdyParts(s);
    if s.stack != [] {
      TopApart(s);
      var u, rows := Undo(s), Leaking(s, map[id := row]);
      if Poisoned(s, id) {
        assert rows == map[id := row];
        assert Before(s.main, Top(s), id) == Some(s.main[id]);
        assert u.main + rows == u.main[id := row];
        SturdyParts(u);
        assert s.stack != [] ==> u.stack == Pop(s).stack;
        LeakSettles(u, id, row);
        OneRowUnique(u.main, id, row, s.width);
      } else {
        assert rows == map[];
        NothingLeaks(u);
      }
    }
  }

  lemma OneRowUnique(t: Table, id: nat, row: Row, width: nat)
    requires Unique(t, width)
    ensures Unique(t[id := row], width) <==> Fits(t - {id}, row.value, width)
  {
    var u := t[id := row];
    assert forall x | x in t - {id} :: (t - {id})[x] == t[x] == u[x];
    if Fits(t - {id}, row.value, width) {
      FitsUnique(t, id, row, width);
    } else {
      var x, k: nat :| x in t - {id} && k < width && Key((t - {id})[x].value, k) == Key(row.value, k);
      assert Key(u[x].value, k) == Key(u[id].value, k);
    }
  }

  lemma {:induction false} NothingLeaks(s: State)
    requires AllUnique(s)
    ensures Settles(s, map[])
    decreases |s.stack|
  {
    assert s.main + map[] == s.main;
    if s.stack != [] {
      assert Leaking(s, map[]) == map[];
      NothingLeaks(Undo(s));
    }
  }

  /** The row that `modify` leaves behind when it makes no backup. */
  function Overwritten(s: State, id: nat, v: Value): State
    requires id in s.main
  {
    s.(main := s.main[id := Row(v, s.main[id].mtime)])
  }

  lemma OverwrittenIs(s: State, id: nat, v: Value)
    requires id in s.main && forall x | x in s.main :: s.main[x].mtime <= s.mono
    ensures Overwritten(s, id, v) == Overlay(s, map[id := Row(v, s.main[id].mtime)])
    ensures Later(s, map[id := Row(v, s.main[id].mtime)])
  {}

  lemma BackedUpSturdy(s: State, id: nat, v: Value)
    requires Sturdy(s) && id in s.main && NeedsBackup(s, id)
    ensures Sturdy(BackedUp(s, id, v)) && Undo(BackedUp(s, id, v)) == Undo(s)
  {
    hide Sturdy, Growing, Single, BackupsLive, BackupsOlder, StampsDatable, Oldest;
    SturdyParts(s);
    BackupUndo(s, id, v);
    BareTop(s, id, v);
    var r := BackedUp(s, id, v);
    assert Pop(r).stack == Pop(s).stack;
    SturdyFrom(r);
  }

  lemma BareTop(s: State, id: nat, v: Value)
    requires s.stack != [] && id in s.main && NeedsBackup(s, id) && TopOk(s, Top(s))
    requires forall x | x in s.main :: x < s.nextId && s.main[x].mtime <= s.mono
    ensures TopOk(BackedUp(s, id, v), Top(BackedUp(s, id, v)))
  {
    hide Growing, Single, BackupsLive, BackupsOlder, StampsDatable;
    NoKeys(s.main);
    BackupTop(Bare(s), id, v);
    assert BackedUp(Bare(s), id, v) == Bare(BackedUp(s, id, v));
  }

  lemma RemoveSturdy(s: State, id: nat)
    requires Sturdy(s) && id in s.main
    ensures Sturdy(Remove(s, id)) && (s.stack != [] ==> Remove(s, id).stack != [] && Undo(Remove(s, id)) == Undo(s))
  {
    hide Wf, TopOk, Undo;
    SturdyParts(s);
    RemoveWf(Bare(s), id);
    assert Remove(Bare(s), id) == Bare(Remove(s, id));
    if s.stack != [] {
      TopApart(s);
      RemoveUndo(s, id);
    }
  }

  lemma RevertedSturdy(s: State, id: nat)
    requires Sturdy(s) && id in s.main
    ensures var r := s.(main := s.main[id := Row(s.main[id].value, s.mono)]);
      Sturdy(r) && (Wf(s) ==> Wf(r))
  {
    hide Wf;
    SturdyParts(s);
    var r := s.(main := s.main[id := Row(s.main[id].value, s.mono)]);
    assert Raised(s, r) && Raised(Bare(s), Bare(r));
    RaisedWf(Bare(s), Bare(r));
    if Wf(s) {
      RaisedWf(s, r);
    }
  }

  /** `modify` keeps the invariant but for keys, whatever was reverted before. */
  lemma ModifySturdy(s: State, id: nat, v: Value)
    requires Sturdy(s) && id in s.main
    ensures Sturdy(Modify(s, id, v))
  {
    hide Sturdy, TopOk, Fits, Overlay, Undo;
    SturdyParts(s);
    OverwrittenIs(s, id, v);
    if ModifyOutcome(s, id, v).Reverted? {
      RevertedSturdy(s, id);
    } else if NeedsBackup(s, id) {
      BackedUpSturdy(s, id, v);
    } else {
      OverlaySturdy(s, map[id := Row(v, s.main[id].mtime)]);
      if ModifyOutcome(s, id, v).Erased? {
        RemoveSturdy(Overwritten(s, id, v), id);
      }
    }
  }

  /** `modify` keeps the whole invariant if and only if the new value fits every saved table that it
    * leaks into. Then undo of any session finds unique keys. */
  lemma ModifyWfExact(s: State, id: nat, v: Value)
    requires Wf(s) && id in s.main
    ensures Wf(Modify(s, id, v)) <==> LeakFits(s, id, v)
  {
    hide Wf, Sturdy, TopOk, Fits, Overlay, Undo, Unique, Settles, Leaking;
    var r := Modify(s, id, v);
    WfIs(s);
    WfIs(r);
    SturdyParts(s);
    ModifySturdy(s, id, v);
    OverwrittenIs(s, id, v);
    if ModifyOutcome(s, id, v).Reverted? {
      RevertedSturdy(s, id);
    } else if NeedsBackup(s, id) {
      BackedUpSturdy(s, id, v);
      OneRowUnique(s.main, id, r.main[id], s.width);
    } else {
      LeakExact(s, id, v);
    }
  }

  /** Without a backup the change or removal leaks as far as `LeakFits` looks. */
  lemma LeakExact(s: State, id: nat, v: Value)
    requires Sturdy(s) && AllUnique(s) && id in s.main && !NeedsBackup(s, id)
    ensures AllUnique(Modify(s, id, v)) <==> LeakFits(s, id, v)
  {
    hide Sturdy, TopOk, Fits, Undo, Unique, Settles, Leaking;
    var row := Row(v, s.main[id].mtime);
    var w, r := Overwritten(s, id, v), Modify(s, id, v);
    SturdyParts(s);
    OverwrittenIs(s, id, v);
    LeakSettles(s, id, row);
    OneRowUnique(s.main, id, row, s.width);
    OverlaySturdy(s, map[id := row]);
    if s.stack != [] {
      TopApart(s);
      OverlayUndo(s, map[id := row]);
      OverlayUnique(Undo(s), Leaking(s, map[id := row]));
    }
    if ModifyOutcome(s, id, v).Erased? {
      RemoveSturdy(w, id);
      assert r == Remove(w, id) && r.main == s.main - {id};
      UniqueWithout(s.main, id, s.width);
    }
  }

  lemma UniqueWithout(t: Table, id: nat, width: nat)
    requires Unique(t, width)
    ensures Unique(t - {id}, width)
  {
    assert forall x | x in t - {id} :: (t - {id})[x] == t[x];
  }

  // ----- squash

  /** The rows of the objects poisoned in the session below, as the top session left them. */
  function SquashLeak(s: State): Table
    requires |s.stack| > 1
  {
    map id | id in Undo(s).main && Poisoned(Undo(s), id) && id in Base(s.main, Top(s)) :: Base(s.main, Top(s))[id]
  }

  /** The rows that squashing leaves in the tables below fit them. */
  ghost predicate SquashSound(s: State) {
    |s.stack| > 1 ==> Settles(Undo(Undo(s)), SquashLeak(s))
  }

  lemma SturdyStacked(s: State)
    requires Sturdy(s) && |s.stack| > 1
    ensures Stacked(s.main, Top(s), Top(Pop(s)))
  {
    hide Wf;
    StackedFromWf(Bare(s));
  }

  /** Undo of the merged session is undo of both, except for what leaks. */
  lemma SquashLeaks(s: State)
    requires Sturdy(s) && |s.stack| > 1
    ensures Undo(SquashFast(s)) == Overlay(Undo(Undo(s)), SquashLeak(s)) && Later(Undo(Undo(s)), SquashLeak(s))
  {
    hide Sturdy, Stacked, TopOk, Before;
    var t, b, u, rows := Top(s), Top(Pop(s)), Undo(s), SquashLeak(s);
    SturdyStacked(s);
    SturdyParts(s);
    assert Top(u) == b;
    forall id: nat ensures
      Before(s.main, Merge(b, t), id) == if id in rows then Some(rows[id]) else Before(u.main, b, id)
    {
      MergeBefore(s.main, t, b, id);
      PoisonedHas(s, id);
    }
    forall id | id in rows
      ensures id in UndoMain(u.main, b) && UndoMain(u.main, b)[id].mtime <= rows[id].mtime <= s.mono
    {
      PoisonedRow(s, id);
    }
    UndoneOver(s.main, Merge(b, t), u.main, b, rows);
    assert Pop(SquashFast(s)).stack == Pop(u).stack;
  }

  lemma PoisonedHas(s: State, id: nat)
    requires |s.stack| > 1
    ensures PoisonedBelow(s.main, Top(s), Top(Pop(s)), id) <==> id in SquashLeak(s)
    ensures id in SquashLeak(s) ==> SquashLeak(s)[id] == Base(s.main, Top(s))[id]
  {
    assert Top(Undo(s)) == Top(Pop(s));
  }

  lemma PoisonedRow(s: State, id: nat)
    requires Sturdy(s) && |s.stack| > 1 && id in SquashLeak(s)
    ensures id in Undo(Undo(s)).main && Undo(Undo(s)).main[id] == Undo(s).main[id]
    ensures Undo(s).main[id].mtime <= SquashLeak(s)[id].mtime <= s.mono
  {
    hide Sturdy;
    SturdyParts(s);
    SturdyParts(Undo(s));
    Undone(s.main, Top(s), id);
    assert Before(Undo(s).main, Top(Undo(s)), id) == Some(Undo(s).main[id]);
  }

  /** Squashing keeps the invariant but for keys, whatever was reverted before. */
  lemma SquashFastSturdy(s: State)
    requires Sturdy(s)
    ensures Sturdy(SquashFast(s))
  {
    hide Sturdy, Stacked, Growing, Single, BackupsLive, BackupsOlder, StampsDatable, Overlay, SquashLeak;
    SturdyParts(s);
    if |s.stack| > 1 {
      var t, b, r := Top(s), Top(Pop(s)), SquashFast(s);
      SturdyStacked(s);
      SquashLeaks(s);
      SturdyParts(Undo(s));
      assert Pop(r).stack == Pop(Pop(s)).stack == Pop(Undo(s)).stack;
      MergedTop(s);
      OverlaySturdy(Undo(Undo(s)), SquashLeak(s));
    }
    SturdyFrom(SquashFast(s));
  }

  lemma MergedTop(s: State)
    requires |s.stack| > 1 && Stacked(s.main, Top(s), Top(Pop(s))) && TopOk(s, Top(s)) && TopOk(Undo(s), Top(Pop(s)))
    requires Top(Pop(s)).oldNextId <= Top(s).oldNextId
    ensures TopOk(SquashFast(s), Top(SquashFast(s)))
  {
    hide Stacked, Growing, Single, BackupsLive, BackupsOlder, StampsDatable;
    var t, b := Top(s), Top(Pop(s));
    MergeGrowing(s.main, t, b);
    MergeLive(s.main, t, b);
    MergeOlder(s.main, t, b);
  }

  /** `squash_fast` keeps the whole invariant if and only if what leaks into the tables below fits them. */
  lemma SquashFastWfExact(s: State)
    requires Wf(s)
    ensures Wf(SquashFast(s)) <==> SquashSound(s)
  {
    hide Wf, Sturdy, Settles, Overlay, SquashLeak;
    WfIs(s);
    WfIs(SquashFast(s));
    SquashFastSturdy(s);
    if |s.stack| > 1 {
      SturdyParts(s);
      SturdyParts(Undo(s));
      SquashLeaks(s);
      OverlayUnique(Undo(Undo(s)), SquashLeak(s));
    }
  }

  lemma SquashSturdy(s: State)
    requires Sturdy(s)
    ensures Sturdy(Squash(s)) && (|s.stack| > 1 ==> Undo(Squash(s)) == Undo(SquashFast(s)))
  {
    hide Wf, Stacked, Compressed;
    SquashFastSturdy(s);
    if |s.stack| > 1 {
      SturdyStacked(s);
      SquashCompressible(s);
      MergeOlder(s.main, Top(s), Top(Pop(s)));
      SquashIs(s);
      SquashIs(Bare(s));
      CompressedSturdy(SquashFast(s), |Top(Pop(s)).olds|, Top(s).removed.Keys);
    }
  }

  lemma CompressedSturdy(s: State, from: nat, gone: set<nat>)
    requires Sturdy(s) && s.stack != [] && Compressible(s.main, Top(s), from, gone)
    ensures Sturdy(WithTop(s, Compressed(Top(s), from, gone)))
  {
    hide Wf, Compressed;
    CompressedWf(Bare(s), from, gone);
    assert WithTop(Bare(s), Compressed(Top(s), from, gone)) == Bare(WithTop(s, Compressed(Top(s), from, gone)));
  }

  /** The same for `squash`: compression does not matter. */
  lemma SquashWfExact(s: State)
    requires Wf(s)
    ensures Wf(Squash(s)) <==> SquashSound(s)
  {
    hide Wf, Sturdy, SquashSound, Compressed;
    WfIs(s);
    WfIs(Squash(s));
    WfIs(SquashFast(s));
    SquashSturdy(s);
    SquashFastSturdy(s);
    SquashFastWfExact(s);
    SquashTop(s);
  }

  lemma SquashTop(s: State)
    ensures Squash(s).main == SquashFast(s).main && Squash(s).width == SquashFast(s).width == s.width
    ensures |Squash(s).stack| == |SquashFast(s).stack|
    ensures |s.stack| <= 1 ==> Squash(s) == SquashFast(s) && SquashFast(s).stack == []
  {
    hide KeptOlds, FoldedTable;
  }

  // ----- the other operations

  lemma EmplaceSturdy(s: State, v: Value)
    requires Sturdy(s)
    ensures Sturdy(Emplace(s, v))
  {
    hide Wf;
    if Fits(s.main, v, s.width) {
      EmplaceWf(Bare(s), v);
      assert Emplace(Bare(s), v) == Bare(Emplace(s, v));
    }
  }

  lemma StartSturdy(s: State)
    requires Sturdy(s)
    ensures Sturdy(Start(s))
  {
    hide Wf;
    StartWf(Bare(s));
  }

  lemma UndoSturdy(s: State)
    requires Sturdy(s)
    ensures Sturdy(Undo(s))
  {
    hide Wf;
    UndoWf(Bare(s));
    BareUndo(s);
  }

  lemma CompressLastSturdy(s: State)
    requires Sturdy(s) && s.stack != []
    ensures Sturdy(CompressLast(s)) && Undo(CompressLast(s)) == Undo(s)
  {
    hide Wf;
    CompressLastWf(Bare(s));
    assert CompressLast(Bare(s)) == Bare(CompressLast(s));
    BareUndo(s);
    BareUndo(CompressLast(s));
  }

  lemma CommitSturdy(s: State, revision: nat)
    requires Sturdy(s)
    ensures Sturdy(Commit(s, revision))
  {
    hide Wf;
    CommitWf(Bare(s), revision);
    assert Commit(Bare(s), revision) == Bare(Commit(s, revision));
  }

  lemma SetRevisionSturdy(s: State, revision: nat)
    requires Sturdy(s)
    ensures Sturdy(SetRevision(s, revision))
  {
    hide Wf;
    SetRevisionWf(Bare(s), revision);
    assert SetRevision(Bare(s), revision) == Bare(SetRevision(s, revision));
  }
}
