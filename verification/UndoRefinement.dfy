/** `undo_index` refines a stack of full snapshots.
  *
  * The abstract state is the sequence of tables that undo can still reach, oldest first, ending
  * with the current one. Starting a session pushes a copy, undo drops the last table, squash drops
  * the last but one, commit drops the oldest ones. */
module UndoRefinement {
  import opened Basics
  import opened Tables
  import opened UndoModel
  import opened UndoInvariant

  datatype Snapshot = Snapshot(table: map<nat, Value>, nextId: nat)

  function Snap(s: State): Snapshot {
    Snapshot(Values(s.main), s.nextId)
  }

  /** The tables that undoing no, one, two, ... sessions gives, in reverse order. */
  function Levels(s: State): (levels: seq<Snapshot>)
    ensures |levels| == |s.stack| + 1
    decreases |s.stack|
  {
    (if s.stack == [] then [] else Levels(Undo(s))) + [Snap(s)]
  }

  /** The tables other than the current one. */
  function Saved(s: State): seq<Snapshot> {
    Levels(s)[..|s.stack|]
  }

  datatype History<+T> = History(levels: seq<T>, revision: int)

  function Abs(s: State): History<Snapshot> {
    History(Levels(s), s.revision)
  }

  // ----- the specification

  datatype Op =
    | DoEmplace(v: Value)
    | DoModify(id: nat, v: Value)
    | DoRemove(id: nat)
    | DoStart
    | DoUndo
    | DoSquash
    | DoSquashFast
    | DoCompress
    | DoCommit(commitTo: nat)
    | DoSetRevision(newRevision: nat)

  function Current<T>(h: History<T>): T
    requires h.levels != []
  {
    h.levels[|h.levels| - 1]
  }

  function WithCurrent<T>(h: History<T>, c: T): History<T>
    requires h.levels != []
  {
    h.(levels := h.levels[..|h.levels| - 1] + [c])
  }

  /** `v` shares no secondary key with any object of `t`. */
  ghost predicate FitsValues(t: map<nat, Value>, v: Value, width: nat) {
    forall id, k: nat | id in t && k < width :: Key(t[id], k) != Key(v, k)
  }

  function SpecStart<T>(h: History<T>): History<T>
    requires h.levels != []
  {
    History(h.levels + [Current(h)], h.revision + 1)
  }

  function SpecUndo<T>(h: History<T>): History<T> {
    if |h.levels| <= 1 then h else History(h.levels[..|h.levels| - 1], h.revision - 1)
  }

  function SpecSquash<T>(h: History<T>): History<T> {
    if |h.levels| <= 1 then h
    else History(h.levels[..|h.levels| - 2] + [Current(h)], h.revision - 1)
  }

  function SpecCommit<T>(h: History<T>, revision: nat): History<T> {
    if h.levels == [] then h
    else if h.revision <= revision then h.(levels := [Current(h)])
    else if h.revision - revision < |h.levels| - 1
      then h.(levels := h.levels[|h.levels| - 1 - (h.revision - revision)..])
    else h
  }

  function SpecSetRevision<T>(h: History<T>, revision: nat): History<T> {
    if |h.levels| == 1 && h.revision <= revision then h.(revision := revision) else h
  }

  /** The object is not as it was in the last saved table, or not in it. */
  predicate DiffersFromSaved(h: History<Snapshot>, id: nat)
    requires h.levels != [] && id in Current(h).table
  {
    |h.levels| == 1 ||
    var saved := h.levels[|h.levels| - 2];
    saved.nextId <= id || id !in saved.table || saved.table[id] != Current(h).table[id]
  }

  /** What one operation may do. A failed `modify` either changes nothing or removes the object: it removes
    * one that differs from the last saved table. One that does not differ may have been changed, and changed back,
    * in the session; only then it goes, too. */
  ghost predicate SpecStep(width: nat, h: History<Snapshot>, op: Op, r: History<Snapshot>) {
    h.levels != [] &&
    var c := Current(h);
    match op
    case DoEmplace(v) =>
      r == if FitsValues(c.table, v, width) then WithCurrent(h, Snapshot(c.table[c.nextId := v], c.nextId + 1)) else h
    case DoModify(id, v) =>
      id in c.table &&
      if FitsValues(c.table - {id}, v, width) then r == WithCurrent(h, c.(table := c.table[id := v]))
      else r == WithCurrent(h, c.(table := c.table - {id})) || (r == h && !DiffersFromSaved(h, id))
    case DoRemove(id) => id in c.table && r == WithCurrent(h, c.(table := c.table - {id}))
    case DoStart => r == SpecStart(h)
    case DoUndo => r == SpecUndo(h)
    case DoSquash => r == SpecSquash(h)
    case DoSquashFast => r == SpecSquash(h)
    case DoCompress => r == h
    case DoCommit(to) => r == SpecCommit(h, to)
    case DoSetRevision(n) => r == SpecSetRevision(h, n)
  }

  // ----- the implementation

  /** What the types of the program demand: an object passed in by reference exists. */
  predicate Enabled(s: State, op: Op) {
    match op
    case DoModify(id, _) => id in s.main
    case DoRemove(id) => id in s.main
    case DoCompress => s.stack != []
    case _ => true
  }

  ghost function Step(s: State, op: Op): State
    requires Enabled(s, op)
  {
    match op
    case DoEmplace(v) => Emplace(s, v)
    case DoModify(id, v) => Modify(s, id, v)
    case DoRemove(id) => Remove(s, id)
    case DoStart => Start(s)
    case DoUndo => Undo(s)
    case DoSquash => Squash(s)
    case DoSquashFast => SquashFast(s)
    case DoCompress => CompressLast(s)
    case DoCommit(to) => Commit(s, to)
    case DoSetRevision(n) => SetRevision(s, n)
  }

  /** The only steps to avoid after a reverted `modify`. */
  ghost predicate Safe(s: State, op: Op)
    requires Enabled(s, op)
  {
    match op
    case DoModify(id, v) => ModifySafe(s, id, v)
    case DoSquash => SquashSafe(s)
    case DoSquashFast => SquashSafe(s)
    case _ => true
  }

  // ----- one step

  lemma {:induction false} RaisedLevels(s: State, r: State)
    requires Raised(s, r)
    ensures Levels(r) == Levels(s)
    decreases |s.stack|
  {
    assert Values(r.main) == Values(s.main);
    if s.stack != [] {
      RaisedUndo(s, r);
      RaisedLevels(Undo(s), Undo(r));
    }
  }

  lemma SavedUndo(s: State)
    requires s.stack != []
    ensures Saved(s) == Levels(Undo(s))
    ensures Levels(s) == Levels(Undo(s)) + [Snap(s)]
  {}

  /** A step that leaves what undo gives leaves every saved table. */
  lemma CurrentOnly(s: State, r: State)
    requires |r.stack| == |s.stack|
    requires s.stack != [] ==> Raised(Undo(s), Undo(r))
    ensures Levels(r) == Saved(s) + [Snap(r)]
  {
    if s.stack != [] {
      RaisedLevels(Undo(s), Undo(r));
    }
  }

  lemma FitsSame(t: Table, v: Value, width: nat)
    ensures Fits(t, v, width) <==> FitsValues(Values(t), v, width)
  {
    forall id, k: nat | id in t && k < width ensures Key(t[id].value, k) == Key(Values(t)[id], k) {}
  }

  lemma EmplaceSnap(s: State, v: Value)
    ensures var r := Emplace(s, v);
      r.stack == s.stack && r.revision == s.revision &&
      Snap(r) == if Fits(s.main, v, s.width) then Snapshot(Values(s.main)[s.nextId := v], s.nextId + 1) else Snap(s)
  {}

  lemma EmplaceRefines(s: State, v: Value)
    requires Wf(s)
    ensures SpecStep(s.width, Abs(s), DoEmplace(v), Abs(Emplace(s, v)))
  {
    hide Wf, Fits, FitsValues, Emplace, Undo, Levels, Raised, Values;
    FitsSame(s.main, v, s.width);
    EmplaceSnap(s, v);
    EmplaceKeeps(s, v);
    CurrentOnly(s, Emplace(s, v));
    LastLevel(s);
  }

  lemma EmplaceKeeps(s: State, v: Value)
    requires Wf(s)
    ensures s.stack != [] ==> Raised(Undo(s), Undo(Emplace(s, v)))
  {
    hide Growing, Single, BackupsLive, BackupsOlder, StampsDatable, Unique;
    if s.stack != [] {
      EmplaceUndo(s, v);
    }
  }

  lemma RemoveSnap(s: State, id: nat)
    requires id in s.main
    ensures var r := Remove(s, id);
      |r.stack| == |s.stack| && r.revision == s.revision && Snap(r) == Snapshot(Values(s.main) - {id}, s.nextId)
  {}

  lemma RemoveRefines(s: State, id: nat)
    requires Wf(s) && id in s.main
    ensures SpecStep(s.width, Abs(s), DoRemove(id), Abs(Remove(s, id)))
  {
    hide Wf, Remove, Undo, Levels, Raised, Values;
    ValuesWithout(s.main, id);
    RemoveSnap(s, id);
    RemoveKeeps(s, id);
    CurrentOnly(s, Remove(s, id));
    LastLevel(s);
  }

  lemma RemoveKeeps(s: State, id: nat)
    requires Wf(s) && id in s.main
    ensures s.stack != [] ==> Raised(Undo(s), Undo(Remove(s, id)))
  {
    hide Growing, Single, BackupsLive, BackupsOlder, StampsDatable, Unique, SessionBounds;
    if s.stack != [] {
      RemoveUndo(s, id);
    }
  }

  /** Undo after a safe `modify` gives what it gave before, up to stamps. */
  lemma ModifyUndo(s: State, id: nat, v: Value)
    requires Wf(s) && id in s.main && ModifySafe(s, id, v) && s.stack != []
    ensures Modify(s, id, v).stack != [] && Raised(Undo(s), Undo(Modify(s, id, v)))
    ensures |Modify(s, id, v).stack| == |s.stack|
  {
    hide SessionBounds, Growing, Single, BackupsLive, BackupsOlder, StampsDatable;
    SameValueFits(s, id);
    match ModifyOutcome(s, id, v)
    case Changed => ChangedTop(s, id, v);
    case Reverted => RevertRaises(s, id); RaisedUndo(s, Modify(s, id, v));
    case Erased => ErasedTop(s, id, v);
  }

  lemma ValuesWithout(t: Table, id: nat)
    ensures Values(t - {id}) == Values(t) - {id}
    ensures id in t <==> id in Values(t)
  {}

  lemma ModifyTable(s: State, id: nat, v: Value)
    requires id in s.main
    ensures Values(Modify(s, id, v).main) ==
      match ModifyOutcome(s, id, v)
      case Changed => Values(s.main)[id := v]
      case Reverted => Values(s.main)
      case Erased => Values(s.main) - {id}
    ensures Modify(s, id, v).nextId == s.nextId && Modify(s, id, v).revision == s.revision
    ensures |Modify(s, id, v).stack| == |s.stack|
  {}

  /** An object that still gets a backup is as it was when the session started. */
  lemma StampedBefore(s: State, id: nat)
    requires Wf(s) && id in s.main && NeedsBackup(s, id)
    ensures id < Undo(s).nextId && id in Undo(s).main && Undo(s).main[id] == s.main[id]
  {
    hide Growing, Single, SessionBounds, Wf;
    assert BackupsOlder(s.main, Top(s)) && StampsDatable(s.main, Top(s)) && s.main.Keys !! Top(s).removed.Keys by {
      WfTop(s);
    }
    OldestFound(Top(s).olds, id, Top(s).ctime);
    assert Base(s.main, Top(s))[id] == s.main[id];
    assert Before(s.main, Top(s), id) == Some(s.main[id]);
  }

  lemma WfTop(s: State)
    requires Wf(s) && s.stack != []
    ensures TopOk(s, Top(s))
  {}

  lemma SameAsSaved(s: State, id: nat)
    requires Wf(s) && id in s.main && NeedsBackup(s, id)
    ensures id in Current(Abs(s)).table && !DiffersFromSaved(Abs(s), id)
  {
    hide Wf, Undo, Levels;
    StampedBefore(s, id);
    SavedUndo(s);
    LastLevel(s);
    LastLevel(Undo(s));
  }

  lemma ModifyRefines(s: State, id: nat, v: Value)
    requires Wf(s) && id in s.main && ModifySafe(s, id, v)
    ensures SpecStep(s.width, Abs(s), DoModify(id, v), Abs(Modify(s, id, v)))
  {
    hide Wf, Fits, FitsValues, Modify, Undo, Levels, Raised, Values, DiffersFromSaved;
    var r := Modify(s, id, v);
    if NeedsBackup(s, id) {
      SameAsSaved(s, id);
    }
    FitsSame(s.main - {id}, v, s.width);
    ValuesWithout(s.main, id);
    LastLevel(s);
    ModifyTable(s, id, v);
    if s.stack != [] {
      ModifyUndo(s, id, v);
    }
    CurrentOnly(s, r);
  }

  lemma StartRefines(s: State)
    requires Wf(s)
    ensures SpecStep(s.width, Abs(s), DoStart, Abs(Start(s)))
  {
    StartUndo(s);
    RaisedLevels(s, Undo(Start(s)));
    SavedUndo(Start(s));
  }

  lemma UndoRefines(s: State)
    ensures SpecStep(s.width, Abs(s), DoUndo, Abs(Undo(s)))
  {
    if s.stack != [] {
      SavedUndo(s);
    }
  }

  lemma SquashFastKeeps(s: State)
    requires Wf(s) && SquashSafe(s) && |s.stack| > 1
    ensures Raised(Undo(Undo(s)), Undo(SquashFast(s)))
  {
    hide Stacked, Growing, Single, BackupsLive, BackupsOlder, StampsDatable;
    StackedFromWf(s);
    SquashUndo(s);
  }

  lemma SquashFastShape(s: State)
    ensures var r := SquashFast(s);
      && Snap(r) == Snap(s)
      && (s.stack == [] ==> r == s)
      && (s.stack != [] ==> |r.stack| == |s.stack| - 1 && r.revision == s.revision - 1)
  {}

  lemma OneLevel(s: State)
    requires s.stack == []
    ensures Levels(s) == [Snap(s)]
  {}

  lemma SquashFastSaved(s: State)
    requires Wf(s) && SquashSafe(s) && |s.stack| > 1
    ensures Levels(SquashFast(s)) == Levels(s)[..|s.stack| - 1] + [Snap(s)]
  {
    hide Wf, SquashSafe, Raised, Levels, SquashFast;
    var r := SquashFast(s);
    SquashFastShape(s);
    SquashFastKeeps(s);
    RaisedLevels(Undo(Undo(s)), Undo(r));
    SavedUndo(r);
    SavedUndo(s);
    SavedUndo(Undo(s));
  }

  lemma SquashFastRefines(s: State)
    requires Wf(s) && SquashSafe(s)
    ensures Abs(SquashFast(s)) == SpecSquash(Abs(s))
  {
    hide Wf, SquashSafe, Levels, SquashFast;
    SquashFastShape(s);
    LastLevel(s);
    if |s.stack| == 1 {
      OneLevel(SquashFast(s));
    } else if |s.stack| > 1 {
      SquashFastSaved(s);
    }
  }

  lemma SquashShape(s: State, r: State)
    requires r == Squash(s) || r == SquashFast(s)
    ensures r.main == s.main && r.nextId == s.nextId && (s.stack == [] ==> r == s)
    ensures s.stack != [] ==> |r.stack| == |s.stack| - 1 && r.revision == s.revision - 1
  {
    hide KeptOlds, FoldedTable;
  }

  lemma SquashRefines(s: State)
    requires Wf(s) && SquashSafe(s)
    ensures Abs(Squash(s)) == SpecSquash(Abs(s))
  {
    hide Wf, SquashSafe, Levels, SquashFast, CompressImpl;
    SquashFastRefines(s);
    SquashShape(s, Squash(s));
    SquashShape(s, SquashFast(s));
    if |s.stack| > 1 {
      SquashWf(s);
      SavedUndo(Squash(s));
      SavedUndo(SquashFast(s));
    }
  }

  lemma CompressRefines(s: State)
    requires Wf(s) && s.stack != []
    ensures Abs(CompressLast(s)) == Abs(s)
  {
    CompressLastWf(s);
    SavedUndo(s);
    SavedUndo(CompressLast(s));
  }

  lemma {:induction false} KeepLevels(s: State, n: nat)
    requires n <= |s.stack|
    ensures Levels(Keep(s, n)) == Levels(s)[|s.stack| - n..]
    decreases n
  {
    hide Levels, Undo;
    LastLevel(s);
    if n == 0 {
      OneLevel(Keep(s, 0));
      assert Levels(s)[|s.stack|..] == [Snap(s)];
    } else {
      KeepUndo(s, n);
      UndoShape(s);
      KeepLevels(Undo(s), n - 1);
      SavedUndo(Keep(s, n));
      SavedUndo(s);
      var below, from := Levels(Undo(s)), |s.stack| - n;
      assert (below + [Snap(s)])[from..] == below[from..] + [Snap(s)];
    }
  }

  lemma CommitRefines(s: State, revision: nat)
    requires |s.stack| <= s.revision
    ensures Abs(Commit(s, revision)) == SpecCommit(Abs(s), revision)
  {
    hide Levels;
    CommitKeeps(s, revision);
    KeepLevels(s, Kept(s, revision));
    assert Current(Abs(s)) == Snap(s) by {
      LastLevel(s);
    }
  }

  lemma LastLevel(s: State)
    ensures Levels(s)[|s.stack|] == Snap(s)
  {}

  /** Every safe step keeps the invariant and does what the stack of snapshots does. */
  lemma StepRefines(s: State, op: Op)
    requires Wf(s) && Enabled(s, op) && Safe(s, op)
    ensures Wf(Step(s, op)) && Step(s, op).width == s.width
    ensures SpecStep(s.width, Abs(s), op, Abs(Step(s, op)))
  {
    hide Wf, SquashSafe, Fits, FitsValues, Values, Emplace, Modify, Remove, Start, Undo, Squash, SquashFast, Commit;
    StepWidth(s, op);
    match op
    case DoEmplace(v) => EmplaceWf(s, v); EmplaceRefines(s, v);
    case DoModify(id, v) => ModifyWf(s, id, v); ModifyRefines(s, id, v);
    case DoRemove(id) => RemoveWf(s, id); RemoveRefines(s, id);
    case DoStart => StartWf(s); StartRefines(s);
    case DoUndo => UndoWf(s); UndoRefines(s);
    case DoSquash => SquashWf(s); SquashRefines(s);
    case DoSquashFast => SquashFastWf(s); SquashFastRefines(s);
    case DoCompress => CompressLastWf(s); CompressRefines(s);
    case DoCommit(to) => CommitWf(s, to); DepthBound(s); CommitRefines(s, to);
    case DoSetRevision(n) => SetRevisionWf(s, n); SetRevisionRefines(s, n);
  }

  lemma StepWidth(s: State, op: Op)
    requires Enabled(s, op)
    ensures Step(s, op).width == s.width
  {}

  lemma DepthBound(s: State)
    requires Wf(s)
    ensures |s.stack| <= s.revision
  {}

  lemma SetRevisionRefines(s: State, n: nat)
    ensures SpecStep(s.width, Abs(s), DoSetRevision(n), Abs(SetRevision(s, n)))
  {}

  // ----- whole runs

  /** Every operation of the run is enabled. */
  ghost predicate EnabledRun(s: State, ops: seq<Op>)
    decreases |ops|
  {
    ops == [] || (Enabled(s, ops[0]) && EnabledRun(Step(s, ops[0]), ops[1..]))
  }

  /** And every operation is safe, too. */
  ghost predicate SafeRun(s: State, ops: seq<Op>)
    decreases |ops|
  {
    EnabledRun(s, ops) && (ops == [] || (Safe(s, ops[0]) && SafeRun(Step(s, ops[0]), ops[1..])))
  }

  /** The states of a run, the first included. */
  ghost function Trace(s: State, ops: seq<Op>): (trace: seq<State>)
    requires EnabledRun(s, ops)
    ensures |trace| == |ops| + 1 && trace[0] == s
    decreases |ops|
  {
    [s] + if ops == [] then [] else Trace(Step(s, ops[0]), ops[1..])
  }

  ghost function Last(s: State, ops: seq<Op>): State
    requires EnabledRun(s, ops)
  {
    Trace(s, ops)[|ops|]
  }

  /** Snapshot refinement: any run of safe steps is a run of the stack of snapshots. */
  lemma {:induction false} RunRefines(s: State, ops: seq<Op>)
    requires Wf(s) && SafeRun(s, ops)
    ensures forall i | 0 <= i <= |ops| :: Wf(Trace(s, ops)[i]) && Trace(s, ops)[i].width == s.width
    ensures forall i | 0 <= i < |ops| ::
      SpecStep(s.width, Abs(Trace(s, ops)[i]), ops[i], Abs(Trace(s, ops)[i + 1]))
    decreases |ops|
  {
    hide Wf, SpecStep, Step, Safe, Enabled;
    if ops != [] {
      var n := Step(s, ops[0]);
      StepRefines(s, ops[0]);
      RunRefines(n, ops[1..]);
      var rest := Trace(n, ops[1..]);
      assert Trace(s, ops) == [s] + rest;
      forall i | 0 <= i < |ops|
        ensures SpecStep(s.width, Abs(Trace(s, ops)[i]), ops[i], Abs(Trace(s, ops)[i + 1]))
      {
        if i > 0 {
          assert SpecStep(n.width, Abs(rest[i - 1]), ops[1..][i - 1], Abs(rest[i]));
        }
      }
    }
  }
}
