/** When the snapshot refinement holds, exactly, and what it gives a user of sessions. */
module UndoExactness {
  import opened Basics
  import opened Tables
  import opened UndoModel
  import opened UndoInvariant
  import opened UndoLeaks
  import opened UndoLosses
  import opened UndoRefinement

  // ----- modify and squash keep the saved tables exactly when they are safe

  lemma LastSaved(s: State)
    requires s.stack != []
    ensures |Saved(s)| > 0 && Saved(s)[|s.stack| - 1] == Snap(Undo(s))
  {
    SavedUndo(s);
  }

  /** An unsafe `modify` rewrites what undo will find. */
  lemma UnsafeModifyShows(s: State, id: nat, v: Value)
    requires Wf(s) && id in s.main && !ModifySafe(s, id, v)
    ensures s.stack != [] && Modify(s, id, v).stack != []
    ensures id in Undo(s).main && Undo(s).main[id].value == s.main[id].value
    ensures id in Undo(Modify(s, id, v)).main && Undo(Modify(s, id, v)).main[id].value == v
  {
    var r := Modify(s, id, v);
    assert Before(r.main, Top(r), id).Some?;
    assert Before(s.main, Top(s), id).Some?;
  }

  /** `modify` keeps every saved table if and only if it does not give a new value to an object
    * whose earlier `modify` in the session was reverted. */
  lemma ModifyExact(s: State, id: nat, v: Value)
    requires Wf(s) && id in s.main
    ensures Saved(Modify(s, id, v)) == Saved(s) <==> ModifySafe(s, id, v)
  {
    hide Levels, Wf, Undo, Modify;
    ModifyTable(s, id, v);
    var r := Modify(s, id, v);
    if ModifySafe(s, id, v) {
      if s.stack != [] {
        ModifyUndo(s, id, v);
      }
      CurrentOnly(s, r);
      assert Levels(s) == Saved(s) + [Levels(s)[|s.stack|]];
    } else {
      UnsafeModifyShows(s, id, v);
      LastSaved(s);
      LastSaved(r);
      assert Snap(Undo(r)).table[id] != Snap(Undo(s)).table[id];
    }
  }

  lemma UnsafeSquashShows(s: State) returns (id: nat)
    requires Wf(s) && !SquashSafe(s)
    ensures |s.stack| > 1
    ensures id in Undo(Undo(s)).main && id in Undo(Squash(s)).main
    ensures Undo(Squash(s)).main[id].value != Undo(Undo(s)).main[id].value
  {
    StackedFromWf(s);
    id :| Poisoned(Undo(s), id) && Base(s.main, Top(s))[id].value != Undo(s).main[id].value;
    SquashCompressible(s);
    assert PoisonedBelow(s.main, Top(s), Top(Pop(s)), id);
    MergeBefore(s.main, Top(s), Top(Pop(s)), id);
    assert Before(s.main, Top(SquashFast(s)), id).Some?;
    assert Before(Undo(s).main, Top(Undo(s)), id).Some?;
  }

  lemma SquashDepth(s: State)
    requires |s.stack| > 1
    ensures |Squash(s).stack| == |s.stack| - 1
  {}

  lemma UndoDepth(s: State)
    requires |s.stack| > 1
    ensures |Undo(s).stack| == |s.stack| - 1
  {}

  /** `squash` keeps every remaining saved table if and only if each object poisoned in the
    * session below still has the value that session knows. */
  lemma SquashExact(s: State)
    requires Wf(s) && |s.stack| > 1
    ensures Saved(Squash(s)) == Saved(s)[..|s.stack| - 1] <==> SquashSafe(s)
  {
    hide Wf, SquashSafe, Levels, SquashFast, CompressImpl;
    var r := Squash(s);
    SquashDepth(s);
    UndoDepth(s);
    SavedUndo(s);
    SavedUndo(Undo(s));
    LastLevel(Undo(Undo(s)));
    LastSaved(r);
    if SquashSafe(s) {
      SquashRefines(s);
    } else {
      var id := UnsafeSquashShows(s);
      assert Snap(Undo(r)).table[id] != Snap(Undo(Undo(s))).table[id];
      assert Saved(s)[|s.stack| - 2] == Snap(Undo(Undo(s)));
    }
  }

  /** `squash_fast` saves the same tables. */
  lemma SquashFastExact(s: State)
    requires Wf(s) && |s.stack| > 1
    ensures Saved(SquashFast(s)) == Saved(Squash(s))
    ensures Saved(SquashFast(s)) == Saved(s)[..|s.stack| - 1] <==> SquashSafe(s)
  {
    hide Wf, SquashSafe, Levels, SquashFast, CompressImpl, Stacked;
    StackedFromWf(s);
    SquashCompressible(s);
    SquashExact(s);
    SquashDepth(s);
    SquashFastShape(s);
    SavedUndo(Squash(s));
    SavedUndo(SquashFast(s));
  }

  /** The refinement fails for some run: after a reverted `modify`, the next one of the same object
    * in the session leaves no backup, and undo does not bring the old value back. */
  lemma RevertedThenModifiedIsLost()
    ensures var a, b, c := Value([0], 0), Value([1], 0), Value([2], 0);
      var s := Start(Emplace(Emplace(Empty(1), a), b));
      && 0 in s.main && ModifyOutcome(s, 0, b) == Reverted
      && var t := Modify(s, 0, b);
      && 0 in t.main && t.main[0].value == a && ModifyOutcome(t, 0, c) == Changed
      && 0 in Undo(Modify(t, 0, c)).main && Undo(Modify(t, 0, c)).main[0].value == c
  {
    hide Emplace, Start;
    var a, b, c := Value([0], 0), Value([1], 0), Value([2], 0);
    TwoObjects(a, b);
    var s := Start(Emplace(Emplace(Empty(1), a), b));
    assert s.main - {0} == map[1 := Row(b, 0)];
    assert Key((s.main - {0})[1].value, 0) == Key(b, 0);
    assert ModifyOutcome(s, 0, b) == Reverted;
    var t := Modify(s, 0, b);
    assert t.main == map[0 := Row(a, 1), 1 := Row(b, 0)];
    assert t.main - {0} == map[1 := Row(b, 0)];
    var u := Modify(t, 0, c);
    assert u.main == map[0 := Row(c, 1), 1 := Row(b, 0)];
    assert Before(u.main, Top(u), 0) == Some(Row(c, 1));
  }

  lemma TwoObjects(a: Value, b: Value)
    requires Key(a, 0) != Key(b, 0)
    ensures Start(Emplace(Emplace(Empty(1), a), b))
      == State(1, map[0 := Row(a, 0), 1 := Row(b, 0)], 2, [Session([], map[], 2, 1)], 1, 1)
  {
    var s := Emplace(Empty(1), a);
    assert s.main == map[0 := Row(a, 0)];
    assert Emplace(s, b).main == map[0 := Row(a, 0), 1 := Row(b, 0)];
  }

  /** Three objects with the keys 0, 1 and 2, and an open session. */
  ghost function ThreeObjects(): State {
    Start(Emplace(Emplace(Emplace(Empty(1), Value([0], 0)), Value([1], 0)), Value([2], 0)))
  }

  lemma ThreeObjectsIs()
    ensures ThreeObjects() == State(1,
      map[0 := Row(Value([0], 0), 0), 1 := Row(Value([1], 0), 0), 2 := Row(Value([2], 0), 0)], 3,
        [Session([], map[], 3, 1)], 1, 1)
  {
    var a, b, c := Value([0], 0), Value([1], 0), Value([2], 0);
    var s1 := Emplace(Empty(1), a);
    assert s1.main == map[0 := Row(a, 0)];
    var s2 := Emplace(s1, b);
    assert s2.main == map[0 := Row(a, 0), 1 := Row(b, 0)];
    var s3 := Emplace(s2, c);
    assert s3.main == map[0 := Row(a, 0), 1 := Row(b, 0), 2 := Row(c, 0)];
  }

  /** In it, changing 0 to key 1 was reverted. */
  ghost function AfterRevert(): State {
    var s := ThreeObjects();
    if 0 in s.main then Modify(s, 0, Value([1], 0)) else s
  }

  lemma AfterRevertIs()
    ensures 0 in ThreeObjects().main && ModifyOutcome(ThreeObjects(), 0, Value([1], 0)) == Reverted
    ensures AfterRevert() == State(1,
      map[0 := Row(Value([0], 0), 1), 1 := Row(Value([1], 0), 0), 2 := Row(Value([2], 0), 0)], 3,
        [Session([], map[], 3, 1)], 1, 1)
  {
    hide ThreeObjects;
    ThreeObjectsIs();
    var s, b, c := ThreeObjects(), Value([1], 0), Value([2], 0);
    assert s.main - {0} == map[1 := Row(b, 0), 2 := Row(c, 0)];
    assert Key((s.main - {0})[1].value, 0) == Key(b, 0);
  }

  /** From there object 2 moves to key 3, with a backup, and object 0 to key 2, without one. */
  ghost function Duplicating(): State {
    var s := AfterRevert();
    var t := if 2 in s.main then Modify(s, 2, Value([3], 0)) else s;
    if 0 in t.main then Modify(t, 0, Value([2], 0)) else t
  }

  lemma AfterRevertSturdy()
    ensures Sturdy(AfterRevert())
  {
    hide Wf, Fits;
    var a, b, c := Value([0], 0), Value([1], 0), Value([2], 0);
    assert Wf(Bare(Empty(1))) by { EmptyWf(0); }
    EmplaceSturdy(Empty(1), a);
    EmplaceSturdy(Emplace(Empty(1), a), b);
    EmplaceSturdy(Emplace(Emplace(Empty(1), a), b), c);
    var s := Start(Emplace(Emplace(Emplace(Empty(1), a), b), c));
    StartSturdy(Emplace(Emplace(Emplace(Empty(1), a), b), c));
    if 0 in s.main {
      ModifySturdy(s, 0, b);
    }
  }

  /** One `modify` of a known table that succeeds. */
  lemma ChangeIs(s: State, id: nat, v: Value, others: Table)
    requires Sturdy(s) && id in s.main && s.main - {id} == others && Fits(others, v, s.width)
    ensures Sturdy(Modify(s, id, v))
    ensures Modify(s, id, v) == if NeedsBackup(s, id) then BackedUp(s, id, v) else Overwritten(s, id, v)
  {
    hide Sturdy, Fits;
    ModifySturdy(s, id, v);
  }

  lemma OneKeyFits(t: Table, v: Value)
    requires forall id | id in t :: Key(t[id].value, 0) != Key(v, 0)
    ensures Fits(t, v, 1)
  {}

  lemma DuplicatingIs()
    ensures Duplicating() == State(1,
      map[0 := Row(Value([2], 0), 1), 1 := Row(Value([1], 0), 0), 2 := Row(Value([3], 0), 1)], 3,
      [Session([Entry(2, Row(Value([2], 0), 0))], map[], 3, 1)], 1, 1)
    ensures Sturdy(Duplicating())
  {
    hide Sturdy, Modify, AfterRevert, ThreeObjects, Fits, ModifyOutcome;
    var a, b, c, d := Value([0], 0), Value([1], 0), Value([2], 0), Value([3], 0);
    AfterRevertIs();
    AfterRevertSturdy();
    var s := AfterRevert();
    assert s.main - {2} == map[0 := Row(a, 1), 1 := Row(b, 0)];
    OneKeyFits(map[0 := Row(a, 1), 1 := Row(b, 0)], d);
    ChangeIs(s, 2, d, map[0 := Row(a, 1), 1 := Row(b, 0)]);
    var t := Modify(s, 2, d);
    assert t.main == map[0 := Row(a, 1), 1 := Row(b, 0), 2 := Row(d, 1)];
    assert Top(s) == Session([], map[], 3, 1) && s.stack[..0] == [] &&
      [] + [Entry(2, Row(c, 0))] == [Entry(2, Row(c, 0))];
    assert t.stack == [Session([Entry(2, Row(c, 0))], map[], 3, 1)];
    assert t.main - {0} == map[1 := Row(b, 0), 2 := Row(d, 1)];
    OneKeyFits(map[1 := Row(b, 0), 2 := Row(d, 1)], c);
    ChangeIs(t, 0, c, map[1 := Row(b, 0), 2 := Row(d, 1)]);
    assert Modify(t, 0, c).main == map[0 := Row(c, 1), 1 := Row(b, 0), 2 := Row(d, 1)];
  }

  /** Undo then brings 2 back to the key that 0 still has: `post_modify<false>` leaves a duplicate in a
    * unique index for good. */
  lemma RevertedThenModifiedDuplicates()
    ensures var s := Duplicating();
      Sturdy(s) && Unique(s.main, s.width) && !Unique(Undo(s).main, s.width) && NothingLost(s) && !Wf(s)
  {
    hide Sturdy, Duplicating;
    DuplicatingIs();
    var s, c := Duplicating(), Value([2], 0);
    OneBackup(Entry(2, Row(c, 0)), 1);
    assert Before(s.main, Top(s), 0) == Some(Row(c, 1));
    assert Before(s.main, Top(s), 2) == Some(Row(c, 0));
    var u := UndoMain(s.main, Top(s));
    assert Key(u[0].value, 0) == Key(u[2].value, 0);
    WfIs(s);
  }

  lemma OneBackup(e: Entry, c: nat)
    ensures forall id: nat :: Oldest([e], id, c) == if Relevant(e, id, c) then Some(e.row) else None
  {
    assert [e][1..] == [];
  }

  /** The same with object 2 removed instead of changed. */
  ghost function Losing(): State {
    var s := AfterRevert();
    var t := if 2 in s.main then Remove(s, 2) else s;
    if 0 in t.main then Modify(t, 0, Value([2], 0)) else t
  }

  lemma LosingIs()
    ensures Losing() == State(1, map[0 := Row(Value([2], 0), 1), 1 := Row(Value([1], 0), 0)], 3,
      [Session([], map[2 := Row(Value([2], 0), 0)], 3, 1)], 1, 1)
    ensures Sturdy(Losing())
  {
    hide Sturdy, Modify, AfterRevert, ThreeObjects, Fits, ModifyOutcome;
    var a, b, c := Value([0], 0), Value([1], 0), Value([2], 0);
    AfterRevertIs();
    AfterRevertSturdy();
    var s := AfterRevert();
    var t := Remove(s, 2);
    RemoveSturdy(s, 2);
    assert t.main == map[0 := Row(a, 1), 1 := Row(b, 0)];
    assert t.main - {0} == map[1 := Row(b, 0)];
    OneKeyFits(map[1 := Row(b, 0)], c);
    ChangeIs(t, 0, c, map[1 := Row(b, 0)]);
  }

  /** Undo of it loses object 2, whose key object 0 has, and nothing else. */
  lemma LosingClashes(lost: set<nat>)
    ensures Taken(Losing(), 2) && Shares(Losing(), 2) && !Unique(Undo(Losing()).main, 1)
    ensures Loses(Losing(), lost) <==> lost == {2}
  {
    hide Losing, Taken, Shares;
    LosingIs();
    var s, row := Losing(), Row(Value([2], 0), 0);
    assert Before(s.main, Top(s), 0) == Some(Row(Value([2], 0), 1));
    assert Before(s.main, Top(s), 2) == Some(row);
    KeyTaken(s, 2, 0, 0);
    if Loses(s, lost) {
      LostShare(s, lost, 2);
    } else if lost == {2} {
      assert Top(s).removed.Keys == {2};
      TakenIs(s, 2);
    }
  }

  // ----- runs without reverted modifies need no care at all

  /** No session on the stack has a poisoned object. */
  predicate NoPoison(s: State)
    decreases |s.stack|
  {
    && (forall id | id in s.main :: !Poisoned(s, id))
    && (s.stack != [] ==> NoPoison(Undo(s)))
  }

  lemma NoPoisonSafe(s: State, op: Op)
    requires NoPoison(s) && Enabled(s, op)
    ensures Safe(s, op)
  {
    if |s.stack| > 1 {
      assert NoPoison(Undo(s));
    }
  }

  /** `NoPoison` looks at rows and sessions only. */
  lemma {:induction false} NoPoisonAlike(s: State, r: State)
    requires NoPoison(s) && r.main == s.main && r.stack == s.stack
    ensures NoPoison(r)
    decreases |s.stack|
  {
    if s.stack != [] {
      NoPoisonAlike(Undo(s), Undo(r));
    }
  }

  lemma NoPoisonStep(s: State, r: State)
    requires NoPoison(s) && s.stack != [] && r.stack != [] && Undo(r) == Undo(s)
    requires forall id | id in r.main :: !Poisoned(r, id)
    ensures NoPoison(r)
  {}

  lemma {:induction false} NoPoisonKeep(s: State, n: nat)
    requires NoPoison(s) && n <= |s.stack|
    ensures NoPoison(Keep(s, n))
    decreases |s.stack|
  {
    if n > 0 {
      KeepUndo(s, n);
      NoPoisonKeep(Undo(s), n - 1);
      assert Top(Keep(s, n)) == Top(s);
      assert forall id | id in s.main :: Poisoned(Keep(s, n), id) ==> Poisoned(s, id);
    }
  }

  lemma NoPoisonModify(s: State, id: nat, v: Value)
    requires Wf(s) && NoPoison(s) && id in s.main && ModifyOutcome(s, id, v) != Reverted
    ensures NoPoison(Modify(s, id, v))
  {
    hide SessionBounds, Growing, Single, BackupsLive, BackupsOlder, StampsDatable, Fits;
    var r := Modify(s, id, v);
    if s.stack != [] {
      SameValueFits(s, id);
      if ModifyOutcome(s, id, v).Changed? {
        ChangedTop(s, id, v);
        forall x | x in r.main ensures !Poisoned(r, x) {
          if NeedsBackup(s, id) {
            OldestAppend(Top(s).olds, [Entry(id, s.main[id])], x, Top(s).ctime);
            assert x != id ==> r.main[x] == s.main[x];
          }
          assert !Poisoned(s, x);
        }
      } else {
        ErasedTop(s, id, v);
        assert forall x | x in r.main :: x in s.main && r.main[x] == s.main[x];
      }
      NoPoisonStep(s, r);
    }
  }

  lemma NoPoisonSquashFast(s: State)
    requires Wf(s) && NoPoison(s)
    ensures NoPoison(SquashFast(s))
  {
    hide Growing, Single, BackupsLive, BackupsOlder, StampsDatable, Stacked;
    if |s.stack| > 1 {
      var t, b, r := Top(s), Top(Pop(s)), SquashFast(s);
      StackedFromWf(s);
      assert NoPoison(Undo(s));
      forall id: nat ensures Before(s.main, Top(r), id) == Before(Undo(s).main, b, id) {
        MergeBefore(s.main, t, b, id);
        assert PoisonedBelow(s.main, t, b, id) ==> Poisoned(Undo(s), id);
      }
      SameBefore(Undo(s).main, b, s.main, Top(r));
      assert Undo(r).stack == Undo(Undo(s)).stack;
      NoPoisonAlike(Undo(Undo(s)), Undo(r));
      forall id | id in s.main ensures !Poisoned(r, id) {
        MergeNotPoisoned(s, id);
      }
    }
  }

  lemma MergeNotPoisoned(s: State, id: nat)
    requires |s.stack| > 1 && Stacked(s.main, Top(s), Top(Pop(s))) && id in s.main && !Poisoned(Undo(s), id)
    ensures !Poisoned(SquashFast(s), id)
  {
    var t, b := Top(s), Top(Pop(s));
    OldestAppend(b.olds, t.olds, id, b.ctime);
    OldestEarlier(t.olds, id, b.ctime, t.ctime);
    OldestFound(t.olds, id, t.ctime);
    OldestFound(t.olds, id, b.ctime);
    if id < b.oldNextId {
      Undone(s.main, t, id);
    }
  }

  lemma NoPoisonCompressed(s: State, from: nat, gone: set<nat>)
    requires NoPoison(s) && s.stack != [] && s.main.Keys !! Top(s).removed.Keys
    requires Compressible(s.main, Top(s), from, gone)
    ensures NoPoison(WithTop(s, Compressed(Top(s), from, gone)))
  {
    var t := Top(s);
    var r := WithTop(s, Compressed(t, from, gone));
    CompressedUndo(s, from, gone);
    forall id | id in r.main ensures !Poisoned(r, id) {
      var a, b := t.olds[..from], t.olds[from..];
      assert t.olds == a + b;
      OldestAppend(a, b, id, t.ctime);
      OldestAppend(a, KeptOlds(b, t.ctime, gone), id, t.ctime);
      KeptOldest(b, t.ctime, gone, id);
      assert !Poisoned(s, id);
    }
    NoPoisonStep(s, r);
  }

  lemma NoPoisonSquash(s: State)
    requires Wf(s) && NoPoison(s)
    ensures NoPoison(Squash(s))
  {
    hide NoPoison, TopOk;
    NoPoisonSquashFast(s);
    if |s.stack| > 1 {
      StackedFromWf(s);
      SquashCompressible(s);
      MergeOlder(s.main, Top(s), Top(Pop(s)));
      SquashIs(s);
      NoPoisonCompressed(SquashFast(s), |Top(Pop(s)).olds|, Top(s).removed.Keys);
    }
  }

  lemma NoPoisonCompress(s: State)
    requires Wf(s) && NoPoison(s) && s.stack != []
    ensures NoPoison(CompressLast(s))
  {
    CompressLastIs(s);
    NoPoisonCompressed(s, 0, Top(s).removed.Keys);
  }

  lemma NoPoisonEmplace(s: State, v: Value)
    requires Wf(s) && NoPoison(s)
    ensures NoPoison(Emplace(s, v))
  {
    if s.stack != [] {
      EmplaceUndo(s, v);
      var r := Emplace(s, v);
      assert forall id | id in r.main :: Poisoned(r, id) ==> Poisoned(s, id);
      NoPoisonStep(s, r);
    }
  }

  lemma NoPoisonRemove(s: State, id: nat)
    requires Wf(s) && NoPoison(s) && id in s.main
    ensures NoPoison(Remove(s, id))
  {
    hide SessionBounds, Growing, Single, BackupsLive, BackupsOlder, StampsDatable;
    if s.stack != [] {
      var r := Remove(s, id);
      RemoveUndo(s, id);
      forall x | x in r.main ensures !Poisoned(r, x) {
        assert x in s.main && r.main[x] == s.main[x] && !Poisoned(s, x);
      }
      NoPoisonStep(s, r);
    }
  }

  lemma NoPoisonStart(s: State)
    requires Wf(s) && NoPoison(s)
    ensures NoPoison(Start(s))
  {
    StartUndo(s);
    NoPoisonAlike(s, Undo(Start(s)));
  }

  ghost predicate Reverts(s: State, op: Op)
    requires Enabled(s, op)
  {
    op.DoModify? && ModifyOutcome(s, op.id, op.v) == Reverted
  }

  /** Only a reverted `modify` can poison an object. */
  lemma StepNoPoison(s: State, op: Op)
    requires Wf(s) && NoPoison(s) && Enabled(s, op) && !Reverts(s, op)
    ensures NoPoison(Step(s, op))
  {
    hide Wf, NoPoison, Fits, Emplace, Modify, Remove, Start, Undo, Squash, SquashFast;
    match op
    case DoEmplace(v) => NoPoisonEmplace(s, v);
    case DoModify(id, v) => NoPoisonModify(s, id, v);
    case DoRemove(id) => NoPoisonRemove(s, id);
    case DoStart => NoPoisonStart(s);
    case DoUndo => NoPoisonUndo(s);
    case DoSquash => NoPoisonSquash(s);
    case DoSquashFast => NoPoisonSquashFast(s);
    case DoCompress => NoPoisonCompress(s);
    case DoCommit(to) => DepthBound(s); CommitKeeps(s, to); NoPoisonKeep(s, Kept(s, to));
    case DoSetRevision(n) => NoPoisonAlike(s, SetRevision(s, n));
  }

  lemma NoPoisonUndo(s: State)
    requires NoPoison(s)
    ensures NoPoison(Undo(s))
  {}

  /** Every operation is enabled and none is a `modify` that gets reverted. */
  ghost predicate UnrevertedRun(s: State, ops: seq<Op>)
    decreases |ops|
  {
    ops == [] || (Enabled(s, ops[0]) && !Reverts(s, ops[0]) && UnrevertedRun(Step(s, ops[0]), ops[1..]))
  }

  /** So a run without reverted modifies refines the stack of snapshots, whatever else it does. */
  lemma {:induction false} UnrevertedRunIsSafe(s: State, ops: seq<Op>)
    requires Wf(s) && NoPoison(s) && UnrevertedRun(s, ops)
    ensures SafeRun(s, ops)
    decreases |ops|
  {
    hide Wf, NoPoison, Step, Enabled, Reverts, Safe, SpecStep;
    if ops != [] {
      NoPoisonSafe(s, ops[0]);
      StepNoPoison(s, ops[0]);
      StepRefines(s, ops[0]);
      UnrevertedRunIsSafe(Step(s, ops[0]), ops[1..]);
    }
  }

  lemma EmptyWf(width: nat)
    ensures Wf(Empty(width)) && NoPoison(Empty(width))
  {}

  /** The whole story for a new table: every run from the empty table in which no `modify` is reverted. */
  lemma UnrevertedRunsRefine(width: nat, ops: seq<Op>)
    requires UnrevertedRun(Empty(width), ops)
    ensures SafeRun(Empty(width), ops)
    ensures forall i | 0 <= i < |ops| ::
      SpecStep(width, Abs(Trace(Empty(width), ops)[i]), ops[i], Abs(Trace(Empty(width), ops)[i + 1]))
  {
    EmptyWf(width);
    UnrevertedRunIsSafe(Empty(width), ops);
    RunRefines(Empty(width), ops);
  }

  // ----- what a session gives its user

  /** The run never closes the session it starts in, and commits nothing. */
  ghost predicate Inside(s: State, ops: seq<Op>, depth: nat)
    requires EnabledRun(s, ops)
  {
    && (forall i | 0 <= i <= |ops| :: depth <= |Trace(s, ops)[i].stack|)
    && (forall op <- ops :: !op.DoCommit?)
  }

  lemma SpecKeepsBelow(width: nat, h: History<Snapshot>, op: Op, r: History<Snapshot>, depth: nat)
    requires SpecStep(width, h, op, r) && !op.DoCommit?
    requires depth < |h.levels| && depth < |r.levels|
    ensures r.levels[..depth] == h.levels[..depth]
  {}

  lemma {:induction false} RunKeepsBelow(s: State, ops: seq<Op>, depth: nat)
    requires Wf(s) && SafeRun(s, ops) && Inside(s, ops, depth)
    ensures Levels(Last(s, ops))[..depth] == Levels(s)[..depth]
    decreases |ops|
  {
    hide Wf, SpecStep, Step, Safe, Enabled, Levels;
    if ops != [] {
      var n := Step(s, ops[0]);
      StepRefines(s, ops[0]);
      var rest := Trace(n, ops[1..]);
      assert Trace(s, ops) == [s] + rest;
      assert Trace(s, ops)[1] == n && Trace(s, ops)[0] == s;
      SpecKeepsBelow(s.width, Abs(s), ops[0], Abs(n), depth);
      assert Inside(n, ops[1..], depth) by {
        forall i | 0 <= i <= |ops[1..]| ensures depth <= |rest[i].stack| {
          assert Trace(s, ops)[i + 1] == rest[i];
        }
      }
      RunKeepsBelow(n, ops[1..], depth);
    }
  }

  lemma WfTable(s: State)
    requires Wf(s)
    ensures TableOk(s)
  {}

  lemma AfterSession(s: State, ops: seq<Op>)
    requires Wf(s) && SafeRun(Start(s), ops) && Inside(Start(s), ops, |s.stack| + 1)
    requires |Last(Start(s), ops).stack| == |s.stack| + 1
    ensures Wf(Last(Start(s), ops)) && Saved(Last(Start(s), ops)) == Levels(s)
  {
    StartWf(s);
    RunRefines(Start(s), ops);
    RunKeepsBelow(Start(s), ops, |s.stack| + 1);
    WfTable(s);
    StartUndo(s);
    RaisedLevels(s, Undo(Start(s)));
    SavedUndo(Start(s));
  }

  /** Start a session, do anything inside it, undo it: the table, its next id and every older
    * table are what they were. */
  lemma SessionUndone(s: State, ops: seq<Op>)
    requires Wf(s) && SafeRun(Start(s), ops) && Inside(Start(s), ops, |s.stack| + 1)
    requires |Last(Start(s), ops).stack| == |s.stack| + 1
    ensures Levels(Undo(Last(Start(s), ops))) == Levels(s)
    ensures Snap(Undo(Last(Start(s), ops))) == Snap(s)
  {
    hide Wf, Inside, Trace, Start, EnabledRun, Last, Undo;
    var last := Last(Start(s), ops);
    AfterSession(s, ops);
    SavedUndo(last);
    LastLevel(Undo(last));
    LastLevel(s);
  }

  /** Start a session, do anything inside it, squash it into an open one: only the current table has
    * changed. */
  lemma SessionSquashed(s: State, ops: seq<Op>)
    requires Wf(s) && s.stack != [] && SafeRun(Start(s), ops) && Inside(Start(s), ops, |s.stack| + 1)
    requires |Last(Start(s), ops).stack| == |s.stack| + 1 && SquashSafe(Last(Start(s), ops))
    ensures Levels(Squash(Last(Start(s), ops))) == Saved(s) + [Snap(Last(Start(s), ops))]
  {
    hide Wf, Inside, Trace, SquashSafe, Squash, Start, EnabledRun, Last;
    var last := Last(Start(s), ops);
    AfterSession(s, ops);
    SquashRefines(last);
    SavedUndo(last);
  }

  // ----- the delta of the last session

  /** `olds` backs up exactly the objects of `now` that differ from `was`, with at most one entry each. */
  ghost predicate BacksUp(olds: seq<Entry>, now: Table, was: Table) {
    && (forall e <- olds :: e.id in now && e.id in was && was[e.id] == e.row)
    && (forall i, j | 0 <= i < j < |olds| :: olds[i].id != olds[j].id)
    && (forall id | id in now && id in was && (forall e <- olds :: e.id != id) :: now[id] == was[id])
  }

  /** After compression the three parts of `last_undo_session` are exactly the difference between
    * the table and its snapshot. */
  lemma DeltaIsExact(s: State)
    requires Sturdy(s) && s.stack != []
    ensures var t, now, was := Top(CompressLast(s)), s.main, Undo(s).main;
      && CompressLast(s).main == now
      // new_values: the ids at or above old_next_id
      && (forall id | id in now :: t.oldNextId <= id <==> id !in was)
      // removed_values: the ids that are gone, with their rows
      && t.removed == was - now.Keys
      // old_values: the objects still there that have changed, with their old rows
      && BacksUp(t.olds, now, was)
  {
    hide Sturdy, SessionBounds, Growing, Single, BackupsLive, BackupsOlder, StampsDatable, BacksUp, KeptOlds;
    SturdyParts(s);
    CompressLastIs(s);
    DeltaRemoved(s.main, Top(s));
    assert Top(s).olds[0..] == Top(s).olds;
    DeltaOlds(s.main, Top(s));
    forall id: nat ensures id in UndoMain(s.main, Top(s)) <==> Before(s.main, Top(s), id).Some? {}
  }

  lemma DeltaOlds(main: Table, t: Session)
    requires main.Keys !! t.removed.Keys && Growing(t.olds) && Single(t.olds, t.ctime) && BackupsLive(main, t)
    ensures BacksUp(KeptOlds(t.olds, t.ctime, t.removed.Keys), main, UndoMain(main, t))
  {
    var olds, u := KeptOlds(t.olds, t.ctime, t.removed.Keys), UndoMain(main, t);
    forall e <- olds ensures e.id in main && e.id in u && u[e.id] == e.row {
      KeptMember(t.olds, t.ctime, t.removed.Keys, e);
      RelevantUnique(main, t, e);
    }
    KeptGrowing(t.olds, t.ctime, t.removed.Keys);
    forall i, j | 0 <= i < j < |olds| ensures olds[i].id != olds[j].id {
      KeptMember(t.olds, t.ctime, t.removed.Keys, olds[j]);
    }
    forall id | id in main && id in u && (forall e <- olds :: e.id != id) ensures main[id] == u[id] {
      OldestFound(t.olds, id, t.ctime);
      forall e <- t.olds ensures !Relevant(e, id, t.ctime) {
        KeptMember(t.olds, t.ctime, t.removed.Keys, e);
      }
    }
  }

  lemma DeltaRemoved(main: Table, t: Session)
    requires main.Keys !! t.removed.Keys
    ensures Compressed(t, 0, t.removed.Keys).removed == UndoMain(main, t) - main.Keys
  {
    assert t.olds[0..] == t.olds;
    forall id: nat ensures id in UndoMain(main, t) <==> Before(main, t, id).Some? {}
  }

  /** Undo restores every relevant backup of the session: there is only one per id, the oldest. */
  lemma RelevantUnique(main: Table, t: Session, e: Entry)
    requires Growing(t.olds) && Single(t.olds, t.ctime) && BackupsLive(main, t)
    requires e in t.olds && e.row.mtime < t.ctime
    ensures e.id in UndoMain(main, t) && UndoMain(main, t)[e.id] == e.row
  {
    OldestFound(t.olds, e.id, t.ctime);
    assert Relevant(e, e.id, t.ctime);
    var o := Entry(e.id, Oldest(t.olds, e.id, t.ctime).value);
    var i, j :| 0 <= i < |t.olds| && 0 <= j < |t.olds| && t.olds[i] == e && t.olds[j] == o;
  }
}
