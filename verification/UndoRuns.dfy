/** Runs of the code, with any operations and whatever is reverted or lost in them: what they keep, and how
  * far they are runs of a stack of snapshots for each object by itself. */
module UndoRuns {
  import opened Basics
  import opened Tables
  import opened UndoModel
  import opened UndoInvariant
  import opened UndoLeaks
  import opened UndoLosses
  import opened UndoRefinement
  import opened UndoExactness

  // ----- what the code does

  /** What an operation does: as the model, but that undo may lose objects. */
  ghost predicate Does(s: State, op: Op, r: State)
    requires Enabled(s, op)
  {
    if op.DoUndo? then UndoesTo(s, r) else r == Step(s, op)
  }

  /** The assertion in `modify` holds: an object that is reverted shares no key with another. */
  ghost predicate Goes(s: State, op: Op)
    requires Enabled(s, op)
  {
    op.DoModify? && ModifyOutcome(s, op.id, op.v) == Reverted ==> OwnKeys(s, op.id)
  }

  /** The run may go on: no session still has a backup of an object that was lost. */
  ghost predicate GoesOn(s: State, op: Op, r: State) {
    op.DoUndo? ==> !Dangles(r, LostIn(s, r))
  }

  /** The states of a run of the code. */
  ghost predicate CodeRun(states: seq<State>, ops: seq<Op>) {
    && |states| == |ops| + 1
    && (forall i | 0 <= i < |ops| ::
          && Enabled(states[i], ops[i]) && Goes(states[i], ops[i]) && Does(states[i], ops[i], states[i + 1])
          && (i + 1 < |ops| ==> GoesOn(states[i], ops[i], states[i + 1])))
  }

  /** Where undo loses nothing, in particular under the whole invariant, the code does what the model says. */
  lemma WfDoes(s: State, op: Op, r: State)
    requires Wf(s) && Enabled(s, op)
    ensures Goes(s, op) && (Does(s, op, r) <==> r == Step(s, op)) && (r == Step(s, op) ==> GoesOn(s, op, r))
  {
    hide Wf, Step, Fits, UndoesTo;
    if op.DoUndo? {
      WfUndoes(s, r);
      UndoIs(s);
      assert LostIn(s, Undo(s)) == {};
    } else if op.DoModify? {
      WfTable(s);
      SameValueFits(s, op.id);
    }
  }

  lemma UndoIs(s: State)
    ensures Step(s, DoUndo) == Undo(s)
  {}

  /** The safe runs of the model are those of the code. */
  lemma {:induction false} SafeRunIs(states: seq<State>, ops: seq<Op>)
    requires |states| == |ops| + 1 && Wf(states[0]) && SafeRun(states[0], ops)
    ensures CodeRun(states, ops) <==> states == Trace(states[0], ops)
    decreases |ops|
  {
    hide Wf, Step, Enabled, Safe, Goes, Does, GoesOn, SpecStep;
    var s := states[0];
    if ops == [] {
      assert states == [s];
    } else {
      var n := Step(s, ops[0]);
      StepRefines(s, ops[0]);
      WfDoes(s, ops[0], states[1]);
      assert Trace(s, ops) == [s] + Trace(n, ops[1..]);
      if states[1] == n {
        SafeRunIs(states[1..], ops[1..]);
        assert states == [s] + states[1..];
        RunTail(states, ops);
      }
    }
  }

  lemma RunTail(states: seq<State>, ops: seq<Op>)
    requires |states| == |ops| + 1 && ops != []
    ensures CodeRun(states, ops) <==>
      && CodeRun(states[1..], ops[1..])
      && Enabled(states[0], ops[0]) && Goes(states[0], ops[0]) && Does(states[0], ops[0], states[1])
      && (|ops| > 1 ==> GoesOn(states[0], ops[0], states[1]))
  {
    hide Enabled, Goes, Does, GoesOn;
    if CodeRun(states[1..], ops[1..]) {
      forall i | 1 <= i < |ops| ensures
        && Enabled(states[i], ops[i]) && Goes(states[i], ops[i]) && Does(states[i], ops[i], states[i + 1])
        && (i + 1 < |ops| ==> GoesOn(states[i], ops[i], states[i + 1]))
      {
        assert states[1..][i - 1] == states[i] && ops[1..][i - 1] == ops[i] && states[1..][i] == states[i + 1];
      }
    }
  }

  // ----- the invariant but for keys

  /** Every operation keeps the invariant but for keys, exactly unless undo loses an object of which a session
    * still has a backup. */
  lemma StepSturdy(s: State, op: Op, r: State)
    requires Sturdy(s) && Enabled(s, op) && Does(s, op, r)
    ensures Sturdy(r) <==> GoesOn(s, op, r)
  {
    hide Sturdy, Fits, Emplace, Modify, Remove, Start, Undo, Squash, SquashFast, Commit, Loses, Dangles;
    match op
    case DoEmplace(v) => EmplaceSturdy(s, v);
    case DoModify(id, v) => ModifySturdy(s, id, v);
    case DoRemove(id) => RemoveSturdy(s, id);
    case DoStart => StartSturdy(s);
    case DoUndo => UndoneSturdy(s, r);
    case DoSquash => SquashSturdy(s);
    case DoSquashFast => SquashFastSturdy(s);
    case DoCompress => CompressLastSturdy(s);
    case DoCommit(to) => CommitSturdy(s, to);
    case DoSetRevision(n) => SetRevisionSturdy(s, n);
  }

  lemma UndoneSturdy(s: State, r: State)
    requires Sturdy(s) && UndoesTo(s, r)
    ensures LostIn(s, r) <= Undo(s).main.Keys && (Sturdy(r) <==> !Dangles(r, LostIn(s, r)))
  {
    hide Sturdy, Dangles, Undo, Loses;
    UndoSturdy(s);
    LessSturdy(Undo(s), LostIn(s, r));
    SameDangles(Undo(s), LostIn(s, r));
  }

  /** So does every run, up to its last step. */
  lemma {:induction false} RunSturdy(states: seq<State>, ops: seq<Op>, i: nat)
    requires CodeRun(states, ops) && Sturdy(states[0]) && i < |ops|
    ensures Sturdy(states[i])
    decreases i
  {
    hide Sturdy, Does, Goes, GoesOn, Enabled;
    if i > 0 {
      RunSturdy(states, ops, i - 1);
      StepSturdy(states[i - 1], ops[i - 1], states[i]);
    }
  }

  // ----- one object

  function At(s: Snapshot, id: nat): Option<Value> {
    if id in s.table then Some(s.table[id]) else None
  }

  /** What the snapshots say of one object. */
  function OfLevels(levels: seq<Snapshot>, id: nat): (r: seq<Option<Value>>)
    ensures |r| == |levels| && forall i | 0 <= i < |levels| :: r[i] == At(levels[i], id)
  {
    seq(|levels|, i requires 0 <= i < |levels| => At(levels[i], id))
  }

  function Of(h: History<Snapshot>, id: nat): History<Option<Value>> {
    History(OfLevels(h.levels, id), h.revision)
  }

  /** What one operation may do to one object: as `SpecStep`, without the keys. */
  predicate ObjectStep(h: History<Option<Value>>, op: Op, id: nat, r: History<Option<Value>>) {
    h.levels != [] &&
    match op
    case DoEmplace(v) => r == h || (Current(h).None? && r == WithCurrent(h, Some(v)))
    case DoModify(x, v) => r == h || (x == id && (r == WithCurrent(h, Some(v)) || r == WithCurrent(h, None)))
    case DoRemove(x) => r == if x == id then WithCurrent(h, None) else h
    case DoStart => r == SpecStart(h)
    case DoUndo => r == SpecUndo(h)
    case DoSquash => r == SpecSquash(h)
    case DoSquashFast => r == SpecSquash(h)
    case DoCompress => r == h
    case DoCommit(to) => r == SpecCommit(h, to)
    case DoSetRevision(n) => r == SpecSetRevision(h, n)
  }

  /** The operation gives a poisoned object a new value, or squashes one in. */
  predicate Disturbs(s: State, op: Op, id: nat)
    requires Enabled(s, op)
  {
    match op
    case DoModify(x, v) => x == id && !ModifySafe(s, x, v)
    case DoSquash => SquashDisturbs(s, id)
    case DoSquashFast => SquashDisturbs(s, id)
    case _ => false
  }

  predicate SquashDisturbs(s: State, id: nat) {
    |s.stack| > 1 && Poisoned(Undo(s), id) && Base(s.main, Top(s))[id].value != Undo(s).main[id].value
  }

  lemma SquashSafeIs(s: State)
    ensures SquashSafe(s) <==> forall id: nat :: !SquashDisturbs(s, id)
  {
    if SquashSafe(s) {
      forall id: nat ensures !SquashDisturbs(s, id) {
        assert |s.stack| > 1 && Poisoned(Undo(s), id) ==> Base(s.main, Top(s))[id].value == Undo(s).main[id].value;
      }
    } else {
      var id :| Poisoned(Undo(s), id) && Base(s.main, Top(s))[id].value != Undo(s).main[id].value;
      assert SquashDisturbs(s, id);
    }
  }

  /** The unsafe operations are those that disturb some object. */
  lemma SafeIs(s: State, op: Op)
    requires Enabled(s, op)
    ensures Safe(s, op) <==> forall id: nat :: !Disturbs(s, op, id)
  {
    if op.DoModify? {
      assert forall id: nat :: Disturbs(s, op, id) <==> id == op.id && !ModifySafe(s, op.id, op.v);
      assert Disturbs(s, op, op.id) <==> !Safe(s, op);
    } else if op.DoSquash? || op.DoSquashFast? {
      assert forall id: nat :: Disturbs(s, op, id) <==> SquashDisturbs(s, id);
      SquashSafeIs(s);
    }
  }

  // ----- what leaks into the saved snapshots of one object

  /** Rows written over a table leave every snapshot of an object as it was, if and only if its row has the
    * value it had. */
  lemma {:induction false} OverlaidLevels(s: State, rows: Table, id: nat)
    requires Sturdy(s) && Later(s, rows)
    ensures OfLevels(Levels(Overlay(s, rows)), id) == OfLevels(Levels(s), id) <==>
      (id in rows ==> rows[id].value == s.main[id].value)
    decreases |s.stack|
  {
    hide Sturdy, Before, Oldest, OfLevels, Levels;
    var r := Overlay(s, rows);
    OfLast(s, id);
    OfLast(r, id);
    assert At(Snap(r), id) == if id in rows then Some(rows[id].value) else At(Snap(s), id);
    if s.stack != [] {
      SturdyParts(s);
      SturdyApart(s);
      OverlayUndo(s, rows);
      OverlayBefore(s, rows);
      SomeInUndo(s.main, Top(s));
      OverlaidLevels(Undo(s), Leaking(s, rows), id);
      SameParts(OfLevels(Levels(Undo(r)), id), OfLevels(Levels(Undo(s)), id), At(Snap(r), id), At(Snap(s), id));
      if id in Leaking(s, rows) {
        assert Undo(s).main[id] == s.main[id];
      }
    } else {
      SameParts([], [], At(Snap(r), id), At(Snap(s), id));
    }
  }

  lemma SameParts<T>(a: seq<T>, b: seq<T>, x: T, y: T)
    requires |a| == |b|
    ensures a + [x] == b + [y] <==> a == b && x == y
  {
    if a + [x] == b + [y] {
      assert a == (a + [x])[..|a|] && b == (b + [y])[..|b|];
      assert (a + [x])[|a|] == x && (b + [y])[|b|] == y;
    }
  }

  lemma OfLast(s: State, id: nat)
    ensures |OfLevels(Levels(s), id)| == |s.stack| + 1
    ensures OfLevels(Levels(s), id) ==
      (if s.stack == [] then [] else OfLevels(Levels(Undo(s)), id)) + [At(Snap(s), id)]
  {}

  /** After a step that gives undo the table `Overlay(u, rows)` to go back to, instead of `u`. */
  lemma SavedObject(u: State, rows: Table, r: State, id: nat)
    requires Sturdy(u) && Later(u, rows) && r.stack != [] && Undo(r) == Overlay(u, rows)
    ensures OfLevels(Levels(r), id) == OfLevels(Levels(u), id) + [At(Snap(r), id)] <==>
      (id in rows ==> rows[id].value == u.main[id].value)
  {
    hide Sturdy, OfLevels, Levels, Undo, Overlay;
    OverlaidLevels(u, rows, id);
    OfLast(r, id);
    OfLast(u, id);
    OfLast(Undo(r), id);
    assert |Undo(r).stack| == |u.stack| by { OverlayStack(u, rows); }
    SameParts(OfLevels(Levels(Undo(r)), id), OfLevels(Levels(u), id), At(Snap(r), id), At(Snap(r), id));
  }

  lemma OverlayStack(s: State, rows: Table)
    ensures Overlay(s, rows).stack == s.stack
  {}

  /** And after one that leaves it alone. */
  lemma SavedWhole(s: State, r: State, id: nat)
    requires |r.stack| == |s.stack| && (s.stack != [] ==> Undo(r) == Undo(s))
    ensures OfLevels(Levels(r), id) == OfLevels(Levels(s), id)[..|s.stack|] + [At(Snap(r), id)]
  {
    hide OfLevels, Levels, Undo;
    OfLast(s, id);
    OfLast(r, id);
  }

  // ----- one step

  /** The rows that `modify` leaves in the table that undo goes back to. */
  ghost function ModifyLeak(s: State, id: nat, v: Value): Table
    requires s.stack != [] && id in s.main
  {
    if ModifyOutcome(s, id, v).Reverted? then Leaking(s, map[id := Row(s.main[id].value, s.mono)])
    else if NeedsBackup(s, id) then map[]
    else Leaking(s, map[id := Row(v, s.main[id].mtime)])
  }

  lemma ModifyLeaks(s: State, id: nat, v: Value)
    requires Sturdy(s) && s.stack != [] && id in s.main
    ensures Modify(s, id, v).stack != []
    ensures Undo(Modify(s, id, v)) == Overlay(Undo(s), ModifyLeak(s, id, v)) && Later(Undo(s), ModifyLeak(s, id, v))
  {
    hide Sturdy, Fits, Undo, Overlay, Leaking, TopOk, Later;
    SturdyParts(s);
    SturdyApart(s);
    OverwrittenIs(s, id, v);
    NoRows(s);
    NoRows(Undo(s));
    if ModifyOutcome(s, id, v).Reverted? {
      RevertedIs(s, id);
      OverlayUndo(s, map[id := Row(s.main[id].value, s.mono)]);
    } else if NeedsBackup(s, id) {
      BackedUpSturdy(s, id, v);
    } else {
      OverlayUndo(s, map[id := Row(v, s.main[id].mtime)]);
      if ModifyOutcome(s, id, v).Erased? {
        OverlaySturdy(s, map[id := Row(v, s.main[id].mtime)]);
        RemoveSturdy(Overwritten(s, id, v), id);
      }
    }
  }

  lemma RevertedIs(s: State, id: nat)
    requires id in s.main && forall x | x in s.main :: s.main[x].mtime <= s.mono
    ensures var row := Row(s.main[id].value, s.mono);
      s.(main := s.main[id := row]) == Overlay(s, map[id := row]) && Later(s, map[id := row])
  {}

  lemma NoRows(s: State)
    ensures Overlay(s, map[]) == s && Later(s, map[])
  {
    assert s.main + map[] == s.main;
  }

  lemma ModifyLeakValue(s: State, id: nat, v: Value, x: nat)
    requires Sturdy(s) && s.stack != [] && id in s.main
    ensures x in ModifyLeak(s, id, v) ==> x in Undo(s).main
    ensures (x in ModifyLeak(s, id, v) ==> ModifyLeak(s, id, v)[x].value == Undo(s).main[x].value) <==>
      !(x == id && !ModifySafe(s, id, v))
  {
    hide Sturdy, Fits;
    SturdyParts(s);
    if id < Top(s).oldNextId && Oldest(Top(s).olds, id, Top(s).ctime).None? {
      assert Before(s.main, Top(s), id) == Some(s.main[id]);
      assert Undo(s).main[id] == s.main[id];
    }
  }

  /** A step that changes at most the current table, seen from one object. */
  lemma ObjectCurrent(s: State, r: State, id: nat)
    requires |r.stack| == |s.stack| && r.revision == s.revision
    ensures var h, k := Of(Abs(s), id), Of(Abs(r), id);
      && h.levels != [] && Current(h) == At(Snap(s), id)
      && (OfLevels(Levels(r), id) == OfLevels(Levels(s), id)[..|s.stack|] + [At(Snap(r), id)] <==>
            k == WithCurrent(h, At(Snap(r), id)))
      && (k == h <==> k == WithCurrent(h, At(Snap(s), id)))
      && (forall c | k == WithCurrent(h, c) :: c == At(Snap(r), id))
  {
    hide OfLevels, Levels;
    OfLast(s, id);
    OfLast(r, id);
    var a, n := OfLevels(Levels(s), id), |s.stack|;
    assert a == a[..n] + [a[n]];
    forall c | Of(Abs(r), id) == WithCurrent(Of(Abs(s), id), c) ensures c == At(Snap(r), id) {
      assert OfLevels(Levels(r), id)[n] == (a[..n] + [c])[n];
    }
  }

  lemma EmplaceObject(s: State, v: Value, id: nat)
    requires Sturdy(s)
    ensures ObjectStep(Of(Abs(s), id), DoEmplace(v), id, Of(Abs(Emplace(s, v)), id))
  {
    hide Sturdy, TopOk, Fits, OfLevels, Levels, Undo, Of;
    var r := Emplace(s, v);
    SturdyParts(s);
    if s.stack != [] {
      EmplaceBelow(s, v);
    }
    SavedWhole(s, r, id);
    ObjectCurrent(s, r, id);
  }

  lemma EmplaceBelow(s: State, v: Value)
    requires Sturdy(s) && s.stack != []
    ensures Undo(Emplace(s, v)) == Undo(s)
  {
    hide Sturdy;
    SturdyParts(s);
    EmplaceUndo(s, v);
  }

  lemma ModifyObject(s: State, x: nat, v: Value, id: nat)
    requires Sturdy(s) && x in s.main
    ensures ObjectStep(Of(Abs(s), id), DoModify(x, v), id, Of(Abs(Modify(s, x, v)), id)) <==>
      !(x == id && !ModifySafe(s, x, v))
  {
    hide Sturdy, Fits, OfLevels, Levels, Undo, Of, Modify, Values, ModifyLeak, Overlay, Later;
    var r := Modify(s, x, v);
    ModifyTable(s, x, v);
    if s.stack != [] {
      ModifyLeaks(s, x, v);
      ModifyLeakValue(s, x, v, id);
      UndoSturdy(s);
      SavedObject(Undo(s), ModifyLeak(s, x, v), r, id);
      OfLast(s, id);
    } else {
      SavedWhole(s, r, id);
    }
    ObjectCurrent(s, r, id);
    ValuesHas(s.main);
  }

  lemma ValuesHas(t: Table)
    ensures Values(t).Keys == t.Keys && forall id | id in t :: Values(t)[id] == t[id].value
  {}

  lemma RemoveObject(s: State, x: nat, id: nat)
    requires Sturdy(s) && x in s.main
    ensures ObjectStep(Of(Abs(s), id), DoRemove(x), id, Of(Abs(Remove(s, x)), id))
  {
    hide Sturdy, OfLevels, Levels, Undo, Of, Remove, Values;
    var r := Remove(s, x);
    SturdyApart(s);
    RemoveSnap(s, x);
    if s.stack != [] {
      RemoveSturdy(s, x);
    }
    SavedWhole(s, r, id);
    ObjectCurrent(s, r, id);
    ValuesHas(s.main);
  }

  lemma SquashObject(s: State, r: State, id: nat)
    requires Sturdy(s) && (r == Squash(s) || r == SquashFast(s))
    ensures Of(Abs(r), id) == SpecSquash(Of(Abs(s), id)) <==> !SquashDisturbs(s, id)
  {
    hide Sturdy, OfLevels, Levels, Undo, Squash, SquashFast, Poisoned, Overlay, Later, SquashLeak;
    SquashShape(s, r);
    OfLast(s, id);
    OfLast(r, id);
    assert At(Snap(r), id) == At(Snap(s), id);
    if |s.stack| > 1 {
      var u, w := Undo(s), Undo(Undo(s));
      SquashSturdy(s);
      SquashLeaks(s);
      UndoSturdy(s);
      UndoSturdy(u);
      UndoDepth(s);
      OfLast(u, id);
      SavedObject(w, SquashLeak(s), r, id);
      SquashLeakValue(s, id);
      assert OfLevels(Levels(s), id)[..|s.stack| - 1] == OfLevels(Levels(w), id);
    }
  }

  lemma SquashLeakValue(s: State, id: nat)
    requires Sturdy(s) && |s.stack| > 1
    ensures id in SquashLeak(s) ==> id in Undo(Undo(s)).main
    ensures (id in SquashLeak(s) ==> SquashLeak(s)[id].value == Undo(Undo(s)).main[id].value) <==>
      !SquashDisturbs(s, id)
  {
    hide Sturdy;
    if id in SquashLeak(s) {
      PoisonedRow(s, id);
    }
  }

  lemma StartBelow(s: State)
    requires Sturdy(s)
    ensures Raised(s, Undo(Start(s)))
  {
    hide Sturdy, TopOk, Start, Undo;
    SturdyParts(s);
    StartUndo(s);
  }

  lemma StartObject(s: State, id: nat)
    requires Sturdy(s)
    ensures Of(Abs(Start(s)), id) == SpecStart(Of(Abs(s), id))
  {
    hide Sturdy, OfLevels, Levels, Raised;
    StartBelow(s);
    RaisedLevels(s, Undo(Start(s)));
    OfLast(s, id);
    OfLast(Start(s), id);
  }

  lemma UndoObject(s: State, id: nat)
    ensures Of(Abs(Undo(s)), id) == SpecUndo(Of(Abs(s), id))
  {
    hide OfLevels, Levels;
    OfLast(s, id);
    if s.stack != [] {
      OfLast(Undo(s), id);
    }
  }

  lemma CompressObject(s: State, id: nat)
    requires Sturdy(s) && s.stack != []
    ensures Of(Abs(CompressLast(s)), id) == Of(Abs(s), id)
  {
    hide Sturdy, OfLevels, Levels, Undo, KeptOlds, FoldedTable;
    CompressLastSturdy(s);
    OfLast(s, id);
    OfLast(CompressLast(s), id);
  }

  lemma CommitObject(s: State, revision: nat, id: nat)
    requires Sturdy(s)
    ensures Of(Abs(Commit(s, revision)), id) == SpecCommit(Of(Abs(s), id), revision)
  {
    hide Levels, Commit;
    SturdyDepth(s);
    CommitRefines(s, revision);
    var h := Abs(s);
    assert OfLevels(SpecCommit(h, revision).levels, id) == SpecCommit(Of(h, id), revision).levels;
  }

  /** The operation disturbs the object, or loses it. */
  ghost predicate Harms(s: State, op: Op, r: State, id: nat)
    requires Enabled(s, op)
  {
    Disturbs(s, op, id) || (op.DoUndo? && id in LostIn(s, r))
  }

  /** Every step of the code is a step of the stack of snapshots for each object that it does not harm, and for
    * no other. */
  lemma StepObject(s: State, op: Op, r: State, id: nat)
    requires Sturdy(s) && Enabled(s, op) && Does(s, op, r)
    ensures ObjectStep(Of(Abs(s), id), op, id, Of(Abs(r), id)) <==> !Harms(s, op, r, id)
  {
    hide Sturdy, Levels, OfLevels, SquashDisturbs, ModifySafe, UndoesTo, LostIn, Emplace, Modify, Remove, Start, Undo,
      Squash, SquashFast, CompressLast, Commit, SpecStart, SpecUndo, SpecSquash, SpecCommit;
    OfLast(s, id);
    match op
    case DoEmplace(v) => EmplaceObject(s, v, id);
    case DoModify(x, v) => ModifyObject(s, x, v, id);
    case DoRemove(x) => RemoveObject(s, x, id);
    case DoStart => StartObject(s, id);
    case DoUndo => UndoneObject(s, r, id);
    case DoSquash => SquashObject(s, Squash(s), id);
    case DoSquashFast => SquashObject(s, SquashFast(s), id);
    case DoCompress => CompressObject(s, id);
    case DoCommit(to) => CommitObject(s, to, id);
    case DoSetRevision(n) => SetRevisionObject(s, n, id);
  }

  /** Undo brings back the saved table for exactly the objects that it does not lose, and the older ones, too. */
  lemma UndoneObject(s: State, r: State, id: nat)
    requires Sturdy(s) && UndoesTo(s, r)
    ensures Of(Abs(r), id) == SpecUndo(Of(Abs(s), id)) <==> id !in LostIn(s, r)
  {
    hide Sturdy, OfLevels, Levels, Undo, Loses;
    UndoSturdy(s);
    UndoObject(s, id);
    LessLevels(Undo(s), LostIn(s, r), id);
  }

  /** Without some objects, all snapshots of the others are as they were. */
  lemma {:induction false} LessLevels(s: State, lost: set<nat>, id: nat)
    requires Sturdy(s) && lost <= s.main.Keys
    ensures OfLevels(Levels(Less(s, lost)), id) == OfLevels(Levels(s), id) <==> id !in lost
    decreases |s.stack|
  {
    hide Sturdy, OfLevels, Levels;
    var r := Less(s, lost);
    OfLast(s, id);
    OfLast(r, id);
    assert At(Snap(r), id) == if id in lost then None else At(Snap(s), id);
    if s.stack != [] {
      var rest := lost * Undo(s).main.Keys;
      SturdyParts(s);
      SturdyApart(s);
      LessUndo(s, lost);
      LessLevels(Undo(s), rest, id);
      SameParts(OfLevels(Levels(Undo(r)), id), OfLevels(Levels(Undo(s)), id), At(Snap(r), id), At(Snap(s), id));
    } else {
      SameParts([], [], At(Snap(r), id), At(Snap(s), id));
    }
  }

  lemma SetRevisionObject(s: State, n: nat, id: nat)
    ensures Of(Abs(SetRevision(s, n)), id) == SpecSetRevision(Of(Abs(s), id), n)
  {
    hide Levels;
    SetRevisionRefines(s, n);
  }

  // ----- whole runs

  /** Over every run of the code: it is one of the stack of snapshots for each object, but for the steps that
    * harm it. */
  lemma RunObject(states: seq<State>, ops: seq<Op>, id: nat, i: nat)
    requires CodeRun(states, ops) && Sturdy(states[0]) && i < |ops|
    ensures ObjectStep(Of(Abs(states[i]), id), ops[i], id, Of(Abs(states[i + 1]), id)) <==>
      !Harms(states[i], ops[i], states[i + 1], id)
  {
    hide Sturdy, Goes, GoesOn, ObjectStep, Harms, Of;
    RunSturdy(states, ops, i);
    StepObject(states[i], ops[i], states[i + 1], id);
  }

  /** No step of the run harms the object. */
  ghost predicate Unharmed(states: seq<State>, ops: seq<Op>, id: nat)
    requires CodeRun(states, ops)
  {
    forall i | 0 <= i < |ops| :: !Harms(states[i], ops[i], states[i + 1], id)
  }

  /** The run never closes the lowest `depth` sessions, and commits nothing. */
  ghost predicate StaysInside(states: seq<State>, ops: seq<Op>, depth: nat) {
    (forall s <- states :: depth <= |s.stack|) && (forall op <- ops :: !op.DoCommit?)
  }

  lemma ObjectKeepsBelow(h: History<Option<Value>>, op: Op, id: nat, r: History<Option<Value>>, depth: nat)
    requires ObjectStep(h, op, id, r) && !op.DoCommit?
    requires depth < |h.levels| && depth < |r.levels|
    ensures r.levels[..depth] == h.levels[..depth]
  {}

  lemma {:induction false} KeptUpTo(states: seq<State>, ops: seq<Op>, depth: nat, id: nat, i: nat)
    requires CodeRun(states, ops) && Sturdy(states[0]) && StaysInside(states, ops, depth) && Unharmed(states, ops, id)
    requires i <= |ops|
    ensures OfLevels(Levels(states[i]), id)[..depth] == OfLevels(Levels(states[0]), id)[..depth]
    decreases i
  {
    hide Sturdy, Does, Goes, GoesOn, Enabled, ObjectStep, OfLevels, Levels, Harms;
    if i > 0 {
      KeptUpTo(states, ops, depth, id, i - 1);
      RunObject(states, ops, id, i - 1);
      var a, b := states[i - 1], states[i];
      assert ops[i - 1] in ops && a in states && b in states;
      ObjectKeepsBelow(Of(Abs(a), id), ops[i - 1], id, Of(Abs(b), id), depth);
    }
  }

  /** Start a session, do anything inside it, undo it: every object that no step in it harmed, the closing undo
    * included, is what it was, in the current table and in every older one. */
  lemma SessionObjectUndone(s: State, states: seq<State>, ops: seq<Op>, id: nat)
    requires Sturdy(s) && CodeRun(states, ops + [DoUndo]) && states[0] == Start(s)
    requires StaysInside(states[..|ops| + 1], ops, |s.stack| + 1) && |states[|ops|].stack| == |s.stack| + 1
    requires Unharmed(states, ops + [DoUndo], id)
    ensures OfLevels(Levels(states[|ops| + 1]), id) == OfLevels(Levels(s), id)
  {
    assert |states| == |ops| + 2;
    hide Sturdy, CodeRun, OfLevels, Levels, Start, Undo, ObjectStep, StaysInside, Does, Goes, GoesOn, Enabled, Harms;
    var n, all, last := |ops|, ops + [DoUndo], states[|ops|];
    StartSturdy(s);
    StartObject(s, id);
    RunPrefix(states, ops, DoUndo, id);
    KeptUpTo(states[..n + 1], ops, |s.stack| + 1, id, n);
    RunObject(states, all, id, n);
    assert all[n] == DoUndo;
    ClosingStep(states, all, id, n);
    OfLast(s, id);
    OfLast(last, id);
    UndoSpec(Of(Abs(last), id), id, Of(Abs(states[n + 1]), id));
    OfLast(states[n + 1], id);
  }

  lemma UndoSpec(h: History<Option<Value>>, id: nat, r: History<Option<Value>>)
    requires ObjectStep(h, DoUndo, id, r)
    ensures r == SpecUndo(h)
  {}

  lemma ClosingStep(states: seq<State>, ops: seq<Op>, id: nat, i: nat)
    requires CodeRun(states, ops) && Unharmed(states, ops, id) && i < |ops|
    ensures Enabled(states[i], ops[i]) && !Harms(states[i], ops[i], states[i + 1], id)
  {}

  lemma RunPrefix(states: seq<State>, ops: seq<Op>, op: Op, id: nat)
    requires CodeRun(states, ops + [op]) && Unharmed(states, ops + [op], id)
    ensures CodeRun(states[..|ops| + 1], ops) && Unharmed(states[..|ops| + 1], ops, id)
  {
    hide Enabled, Does, Goes, GoesOn, Harms;
    var part := states[..|ops| + 1];
    forall i | 0 <= i < |ops| ensures
      && Enabled(part[i], ops[i]) && Goes(part[i], ops[i]) && Does(part[i], ops[i], part[i + 1])
      && GoesOn(part[i], ops[i], part[i + 1]) && !Harms(part[i], ops[i], part[i + 1], id)
    {
      assert (ops + [op])[i] == ops[i] && part[i] == states[i] && part[i + 1] == states[i + 1];
    }
  }

  // ----- an object that no step disturbs, and that undo loses

  /** The run of `Losing`, and what undo makes of it. */
  ghost function LosingRun(r: State): seq<State> {
    var t := AfterRevert();
    [ThreeObjects(), t, if 2 in t.main then Remove(t, 2) else t, Losing(), r]
  }

  function LosingOps(): seq<Op> {
    [DoModify(0, Value([1], 0)), DoRemove(2), DoModify(0, Value([2], 0)), DoUndo]
  }

  /** Object 2 is removed in the session, and no step disturbs it. Whatever the code makes of the closing undo,
    * the object is lost. */
  lemma UndisturbedIsLost(r: State)
    requires UndoesTo(Losing(), r)
    ensures CodeRun(LosingRun(r), LosingOps()) && Sturdy(LosingRun(r)[0])
    ensures forall i | 0 <= i < 4 ::
      Enabled(LosingRun(r)[i], LosingOps()[i]) && !Disturbs(LosingRun(r)[i], LosingOps()[i], 2)
    ensures 2 in Undo(Losing()).main && 2 !in r.main && LostIn(Losing(), r) == {2}
  {
    hide UndoesTo, Goes, Does, ModifySafe, Sturdy, AfterRevert, ThreeObjects, Losing, Loses, LostIn, Shares, Taken,
      Unique, Undo, Remove;
    LosingSteps();
    UndoesToLoses(Losing(), r);
    LosingClashes(LostIn(Losing(), r));
    UndoSteps(Losing(), r);
    var states, ops := LosingRun(r), LosingOps();
    forall i | 0 <= i < 4 ensures
      && Enabled(states[i], ops[i]) && Goes(states[i], ops[i]) && Does(states[i], ops[i], states[i + 1])
      && (i + 1 < 4 ==> GoesOn(states[i], ops[i], states[i + 1]))
    {
      if i == 0 {
      } else if i == 1 {
        assert Goes(AfterRevert(), DoRemove(2)) && Does(AfterRevert(), DoRemove(2), Remove(AfterRevert(), 2)) by {
          RemoveSteps(AfterRevert(), 2);
        }
      } else if i == 2 {
      }
    }
  }

  lemma RemoveSteps(s: State, id: nat)
    requires id in s.main
    ensures Goes(s, DoRemove(id)) && Does(s, DoRemove(id), Remove(s, id))
  {}

  lemma UndoSteps(s: State, r: State)
    requires UndoesTo(s, r)
    ensures Enabled(s, DoUndo) && Goes(s, DoUndo) && Does(s, DoUndo, r)
  {}

  lemma UndoesToLoses(s: State, r: State)
    requires UndoesTo(s, r)
    ensures Loses(s, LostIn(s, r)) && LostIn(s, r) !! r.main.Keys && LostIn(s, r) <= Undo(s).main.Keys
  {}

  lemma LosingSteps()
    ensures Sturdy(ThreeObjects())
    ensures var s, t, a, b := ThreeObjects(), AfterRevert(), DoModify(0, Value([1], 0)), DoModify(0, Value([2], 0));
      && Enabled(s, a) && Goes(s, a) && Does(s, a, t)
      && Enabled(t, DoRemove(2))
      && var u := Remove(t, 2);
      && Enabled(u, b) && Goes(u, b) && Does(u, b, Losing()) && Losing().stack != []
  {
    hide ThreeObjects, Sturdy;
    ThreeObjectsIs();
    AfterRevertIs();
    ThreeSturdy();
    var s, t := ThreeObjects(), AfterRevert();
    var u := Remove(t, 2);
    assert s.main - {0} == map[1 := Row(Value([1], 0), 0), 2 := Row(Value([2], 0), 0)];
    assert u.main == map[0 := Row(Value([0], 0), 1), 1 := Row(Value([1], 0), 0)];
    assert u.main - {0} == map[1 := Row(Value([1], 0), 0)];
    assert ModifyOutcome(u, 0, Value([2], 0)) == Changed;
    LosingIs();
  }

  lemma ThreeSturdy()
    ensures Sturdy(ThreeObjects())
  {
    hide Wf, Fits;
    var a, b, c := Value([0], 0), Value([1], 0), Value([2], 0);
    assert Wf(Bare(Empty(1))) by { EmptyWf(0); }
    EmplaceSturdy(Empty(1), a);
    EmplaceSturdy(Emplace(Empty(1), a), b);
    EmplaceSturdy(Emplace(Emplace(Empty(1), a), b), c);
    StartSturdy(Emplace(Emplace(Emplace(Empty(1), a), b), c));
  }
}
