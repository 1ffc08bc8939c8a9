/** A database keeps its tables in lockstep, so that it behaves like one stack of snapshots of all
  * tables together. */
module DatabaseModel {
  import opened Basics
  import opened Tables
  import opened UndoModel
  import opened UndoInvariant
  import opened UndoLeaks
  import opened UndoLosses
  import opened UndoRefinement
  import opened UndoExactness

  /** `undo_stack_revision_range` */
  datatype Range = Range(first: int, last: int)

  function RangeOf(s: State): Range {
    Range(s.revision - |s.stack|, s.revision)
  }

  predicate Lockstep(db: seq<State>) {
    forall i, j | 0 <= i < |db| && 0 <= j < |db| :: RangeOf(db[i]) == RangeOf(db[j])
  }

  ghost predicate DbWf(db: seq<State>) {
    Lockstep(db) && forall i | 0 <= i < |db| :: Wf(db[i])
  }

  // ----- operations

  /** What a client does to one table. */
  predicate Local(op: Op) {
    op.DoEmplace? || op.DoModify? || op.DoRemove? || op.DoCompress?
  }

  /** What the database does to all tables. */
  predicate Global(op: Op) {
    op.DoStart? || op.DoUndo? || op.DoSquash? || op.DoCommit? || op.DoSetRevision?
  }

  datatype DbOp =
    | OnTable(i: nat, op: Op)
    | OnAll(op: Op)
    | UndoEverything
    | AddTable(width: nat)

  predicate DbEnabled(db: seq<State>, op: DbOp) {
    match op
    case OnTable(i, o) => i < |db| && Local(o) && Enabled(db[i], o)
    case OnAll(o) => Global(o)
    case _ => true
  }

  ghost predicate DbSafe(db: seq<State>, op: DbOp)
    requires DbEnabled(db, op)
  {
    match op
    case OnTable(i, o) => Safe(db[i], o)
    case OnAll(o) => forall i | 0 <= i < |db| :: Safe(db[i], o)
    case _ => true
  }

  ghost function All(db: seq<State>, op: Op): (r: seq<State>)
    requires Global(op)
  {
    seq(|db|, i requires 0 <= i < |db| => Step(db[i], op))
  }

  function AllEmptied(db: seq<State>): (r: seq<State>) {
    seq(|db|, i requires 0 <= i < |db| => AllUndone(db[i]))
  }

  /** A new table gets the stack of the others: its revision is set to the first of the range, and
    * sessions are started until it is the last. */
  function CaughtUp(width: nat, range: Range): State
    requires range.first <= range.last
    decreases range.last - range.first
  {
    if range.first == range.last then Empty(width).(revision := range.first)
    else Start(CaughtUp(width, range.(last := range.last - 1)))
  }

  function Added(db: seq<State>, width: nat): State {
    if db == [] then Empty(width) else CaughtUp(width, RangeOf(db[0]))
  }

  ghost function DbStep(db: seq<State>, op: DbOp): seq<State>
    requires DbEnabled(db, op)
  {
    match op
    case OnTable(i, o) => db[i := Step(db[i], o)]
    case OnAll(o) => All(db, o)
    case UndoEverything => AllEmptied(db)
    case AddTable(width) => db + [Added(db, width)]
  }

  // ----- the specification: one stack of snapshots of the whole database

  type DbHistory = History<seq<Snapshot>>

  function DbAbs(db: seq<State>): DbHistory
    requires db != [] && Lockstep(db)
  {
    History(
      seq(|db[0].stack| + 1, k requires 0 <= k <= |db[0].stack| =>
        seq(|db|, i requires 0 <= i < |db| => LevelAt(db[i], k))),
      db[0].revision)
  }

  function LevelAt(s: State, k: nat): Snapshot {
    if k <= |s.stack| then Levels(s)[k] else Snap(s)
  }

  function SpecUndoAll<T>(h: History<T>): History<T> {
    if h.levels == [] then h else History(h.levels[..1], h.revision - (|h.levels| - 1))
  }

  function EmptySnapshot(): Snapshot {
    Snapshot(map[], 0)
  }

  /** A new table is empty in every snapshot. */
  function WithEmpty(h: DbHistory): DbHistory {
    History(seq(|h.levels|, k requires 0 <= k < |h.levels| => h.levels[k] + [EmptySnapshot()]), h.revision)
  }

  /** What the history of the database says about table `i`. */
  function Column(h: DbHistory, i: nat): History<Snapshot>
    requires forall k | 0 <= k < |h.levels| :: i < |h.levels[k]|
  {
    History(seq(|h.levels|, k requires 0 <= k < |h.levels| => h.levels[k][i]), h.revision)
  }

  ghost predicate Rows(h: DbHistory, n: nat) {
    forall k | 0 <= k < |h.levels| :: |h.levels[k]| == n
  }

  ghost predicate DbSpecStep(widths: seq<nat>, h: DbHistory, op: DbOp, r: DbHistory) {
    h.levels != [] &&
    match op
    case OnTable(i, o) =>
      // only the current table `i` changes, and as that table alone would
      && i < |widths| && Rows(h, |widths|)
      && exists c: Snapshot ::
        && r == WithCurrent(h, Current(h)[i := c])
        && SpecStep(widths[i], Column(h, i), o, WithCurrent(Column(h, i), c))
    case OnAll(DoStart) => r == SpecStart(h)
    case OnAll(DoUndo) => r == SpecUndo(h)
    case OnAll(DoSquash) => r == SpecSquash(h)
    case OnAll(DoCommit(to)) => r == SpecCommit(h, to)
    case OnAll(DoSetRevision(n)) => r == SpecSetRevision(h, n)
    case OnAll(_) => false
    case UndoEverything => r == SpecUndoAll(h)
    case AddTable(_) =>
      r == WithEmpty(h)
  }

  // ----- columns

  lemma AbsColumn(db: seq<State>, i: nat)
    requires Lockstep(db) && i < |db|
    ensures Rows(DbAbs(db), |db|) && Column(DbAbs(db), i) == Abs(db[i]) && DbAbs(db).levels != []
  {
    assert RangeOf(db[i]) == RangeOf(db[0]);
    assert |Levels(db[i])| == |db[0].stack| + 1;
  }

  /** A history is known by its columns. */
  lemma ByColumns(h: DbHistory, db: seq<State>)
    requires db != [] && Lockstep(db) && Rows(h, |db|)
    requires forall i | 0 <= i < |db| :: Column(h, i) == Abs(db[i])
    ensures h == DbAbs(db)
  {
    var r := DbAbs(db);
    assert Column(h, 0) == Abs(db[0]);
    forall k | 0 <= k < |h.levels| ensures h.levels[k] == r.levels[k] {
      forall i | 0 <= i < |db| ensures h.levels[k][i] == r.levels[k][i] {
        AbsColumn(db, i);
        assert Column(h, i).levels[k] == Column(r, i).levels[k];
      }
    }
    assert h.levels == r.levels;
  }

  /** The operations on histories do the same to every column. */
  lemma ColumnSteps(h: DbHistory, n: nat, i: nat, to: nat)
    requires Rows(h, n) && i < n && h.levels != []
    ensures Rows(SpecStart(h), n) && Column(SpecStart(h), i) == SpecStart(Column(h, i))
    ensures Rows(SpecUndo(h), n) && Column(SpecUndo(h), i) == SpecUndo(Column(h, i))
    ensures Rows(SpecSquash(h), n) && Column(SpecSquash(h), i) == SpecSquash(Column(h, i))
    ensures Rows(SpecCommit(h, to), n) && Column(SpecCommit(h, to), i) == SpecCommit(Column(h, i), to)
    ensures Rows(SpecSetRevision(h, to), n) && Column(SpecSetRevision(h, to), i) == SpecSetRevision(Column(h, i), to)
    ensures Rows(SpecUndoAll(h), n) && Column(SpecUndoAll(h), i) == SpecUndoAll(Column(h, i))
  {
    hide Rows, SpecStart, SpecUndo, SpecSquash, SpecCommit, SpecUndoAll;
    ColumnStart(h, n, i);
    ColumnUndo(h, n, i);
    ColumnSquash(h, n, i);
    ColumnCommit(h, n, i, to);
    ColumnUndoAll(h, n, i);
    ColumnSetRevision(h, n, i, to);
  }

  lemma ColumnStart(h: DbHistory, n: nat, i: nat)
    requires Rows(h, n) && i < n && h.levels != []
    ensures Rows(SpecStart(h), n) && Column(SpecStart(h), i) == SpecStart(Column(h, i))
  {
    assert Column(SpecStart(h), i).levels == SpecStart(Column(h, i)).levels;
  }

  lemma ColumnUndo(h: DbHistory, n: nat, i: nat)
    requires Rows(h, n) && i < n && h.levels != []
    ensures Rows(SpecUndo(h), n) && Column(SpecUndo(h), i) == SpecUndo(Column(h, i))
  {
    assert Column(SpecUndo(h), i).levels == SpecUndo(Column(h, i)).levels;
  }

  lemma ColumnSquash(h: DbHistory, n: nat, i: nat)
    requires Rows(h, n) && i < n && h.levels != []
    ensures Rows(SpecSquash(h), n) && Column(SpecSquash(h), i) == SpecSquash(Column(h, i))
  {
    assert Column(SpecSquash(h), i).levels == SpecSquash(Column(h, i)).levels;
  }

  lemma ColumnCommit(h: DbHistory, n: nat, i: nat, to: nat)
    requires Rows(h, n) && i < n && h.levels != []
    ensures Rows(SpecCommit(h, to), n) && Column(SpecCommit(h, to), i) == SpecCommit(Column(h, i), to)
  {
    assert Column(SpecCommit(h, to), i).levels == SpecCommit(Column(h, i), to).levels;
  }

  lemma ColumnUndoAll(h: DbHistory, n: nat, i: nat)
    requires Rows(h, n) && i < n && h.levels != []
    ensures Rows(SpecUndoAll(h), n) && Column(SpecUndoAll(h), i) == SpecUndoAll(Column(h, i))
  {
    assert Column(SpecUndoAll(h), i).levels == SpecUndoAll(Column(h, i)).levels;
  }

  lemma ColumnSetRevision(h: DbHistory, n: nat, i: nat, to: nat)
    requires Rows(h, n) && i < n && h.levels != []
    ensures Rows(SpecSetRevision(h, to), n)
    ensures Column(SpecSetRevision(h, to), i) == SpecSetRevision(Column(h, i), to)
  {}

  lemma StepIs(s: State, r: nat)
    ensures Step(s, DoStart) == Start(s) && Step(s, DoUndo) == Undo(s) && Step(s, DoSquash) == Squash(s)
    ensures Step(s, DoCommit(r)) == Commit(s, r) && Step(s, DoSetRevision(r)) == SetRevision(s, r)
  {
    hide Start, Undo, Squash, Commit, SetRevision, Emplace, Modify, Remove, CompressLast;
  }

  // ----- lockstep

  /** A global operation changes the range of a table in a way that the range alone decides. */
  lemma RangeStep(s: State, r: State, op: Op)
    requires Global(op) && RangeOf(s) == RangeOf(r)
    ensures RangeOf(Step(s, op)) == RangeOf(Step(r, op))
  {
    hide Emplace, Modify, Remove, CompressLast, Squash, UndoMain;
    SquashRange(s);
    SquashRange(r);
  }

  lemma SquashRange(s: State)
    ensures RangeOf(Squash(s)) == if s.stack == [] then RangeOf(s) else RangeOf(s).(last := s.revision - 1)
  {
    hide KeptOlds, FoldedTable;
  }

  lemma RangeLocal(s: State, op: Op)
    requires Local(op) && Enabled(s, op)
    ensures RangeOf(Step(s, op)) == RangeOf(s)
  {}

  lemma {:induction false} RangeUndone(s: State)
    ensures RangeOf(AllUndone(s)) == Range(RangeOf(s).first, RangeOf(s).first)
    decreases |s.stack|
  {
    if s.stack != [] {
      RangeUndone(Undo(s));
    }
  }

  /** `set_revision` fails for all tables or for none. */
  lemma AllOrNone(db: seq<State>, revision: nat)
    requires Lockstep(db)
    ensures forall i, j | 0 <= i < |db| && 0 <= j < |db| ::
      MaySetRevision(db[i], revision) <==> MaySetRevision(db[j], revision)
  {
    forall i, j | 0 <= i < |db| && 0 <= j < |db|
      ensures MaySetRevision(db[i], revision) <==> MaySetRevision(db[j], revision)
    {
      assert RangeOf(db[i]) == RangeOf(db[j]);
    }
  }

  /** Whatever else is true of the tables, operations on all of them keep the lockstep. */
  lemma LockstepKept(db: seq<State>, op: Op)
    requires Lockstep(db) && Global(op)
    ensures Lockstep(All(db, op))
  {
    hide RangeOf, Step;
    forall i, j | 0 <= i < |db| && 0 <= j < |db| ensures RangeOf(All(db, op)[i]) == RangeOf(All(db, op)[j]) {
      RangeStep(db[i], db[j], op);
    }
  }

  lemma LockstepEmptied(db: seq<State>)
    requires Lockstep(db)
    ensures Lockstep(AllEmptied(db))
  {
    hide RangeOf;
    forall i, j | 0 <= i < |db| && 0 <= j < |db| ensures RangeOf(AllEmptied(db)[i]) == RangeOf(AllEmptied(db)[j]) {
      RangeUndone(db[i]);
      RangeUndone(db[j]);
    }
  }

  // ----- undo, as the code does it

  /** Undo of every table, each of which may lose objects. */
  ghost predicate DbUndoesTo(db: seq<State>, r: seq<State>) {
    |r| == |db| && forall i | 0 <= i < |db| :: UndoesTo(db[i], r[i])
  }

  /** In no table a session still has a backup of a lost object. */
  ghost predicate DbGoesOn(db: seq<State>, r: seq<State>)
    requires |r| == |db|
  {
    forall i | 0 <= i < |db| :: !Dangles(r[i], LostIn(db[i], r[i]))
  }

  ghost predicate DbUndoesAll(db: seq<State>, r: seq<State>) {
    |r| == |db| && forall i | 0 <= i < |db| :: UndoesAll(db[i], r[i])
  }

  /** Whatever is lost, the tables stay in lockstep. */
  lemma DbUndoneLockstep(db: seq<State>, r: seq<State>)
    requires Lockstep(db)
    ensures DbUndoesTo(db, r) ==> Lockstep(r)
    ensures DbUndoesAll(db, r) ==> Lockstep(r)
  {
    hide UndoesTo, UndoesAll, RangeOf, Step;
    if DbUndoesTo(db, r) {
      forall i, j | 0 <= i < |r| && 0 <= j < |r| ensures RangeOf(r[i]) == RangeOf(r[j]) {
        UndoneRange(db[i], r[i]);
        UndoneRange(db[j], r[j]);
        RangeStep(db[i], db[j], DoUndo);
      }
    }
    if DbUndoesAll(db, r) {
      forall i, j | 0 <= i < |r| && 0 <= j < |r| ensures RangeOf(r[i]) == RangeOf(r[j]) {
        AllUndoneRange(db[i], r[i]);
        AllUndoneRange(db[j], r[j]);
      }
    }
  }

  lemma UndoneRange(s: State, r: State)
    requires UndoesTo(s, r)
    ensures RangeOf(r) == RangeOf(Step(s, DoUndo)) == RangeOf(Undo(s))
  {}

  lemma {:induction false} AllUndoneRange(s: State, r: State)
    requires UndoesAll(s, r)
    ensures RangeOf(r) == Range(RangeOf(s).first, RangeOf(s).first)
    decreases |s.stack|
  {
    if s.stack != [] {
      var lost: set<nat> :| Loses(s, lost) && UndoesAll(Less(Undo(s), lost), r);
      AllUndoneRange(Less(Undo(s), lost), r);
    }
  }

  /** Under the whole invariant this is what the model says. */
  lemma DbWfUndoes(db: seq<State>, r: seq<State>)
    requires DbWf(db)
    ensures DbUndoesTo(db, r) <==> r == All(db, DoUndo)
    ensures DbGoesOn(db, All(db, DoUndo))
  {
    hide Wf, UndoesTo, Undo, Step, Dangles;
    forall i | 0 <= i < |db| && i < |r| ensures UndoesTo(db[i], r[i]) <==> r[i] == All(db, DoUndo)[i] {
      StepIs(db[i], 0);
      WfUndoes(db[i], r[i]);
    }
    forall i | 0 <= i < |db| ensures !Dangles(All(db, DoUndo)[i], LostIn(db[i], All(db, DoUndo)[i])) {
      StepIs(db[i], 0);
      NoneDangles(db[i]);
    }
  }

  lemma NoneDangles(s: State)
    ensures !Dangles(Undo(s), LostIn(s, Undo(s)))
  {
    assert LostIn(s, Undo(s)) == {};
  }

  /** Squashing all tables keeps the whole invariant if and only if it does so for each of them. */
  lemma DbSquashExact(db: seq<State>)
    requires DbWf(db)
    ensures DbWf(All(db, DoSquash)) <==> forall i | 0 <= i < |db| :: SquashSound(db[i])
  {
    hide Wf, SquashSound, RangeOf, Squash, Lockstep;
    LockstepKept(db, DoSquash);
    forall i | 0 <= i < |db| ensures Wf(All(db, DoSquash)[i]) <==> SquashSound(db[i]) {
      SquashWfExact(db[i]);
    }
  }

  // ----- late tables

  lemma StartShape(s: State)
    ensures Start(s).width == s.width && RangeOf(Start(s)) == RangeOf(s).(last := s.revision + 1)
  {}

  lemma StartLevels(s: State, n: nat)
    requires Wf(s) && n > 0 && Levels(s) == seq(n, _ => EmptySnapshot())
    ensures Wf(Start(s)) && Levels(Start(s)) == seq(n + 1, _ => EmptySnapshot())
  {
    hide Wf, Levels, Start;
    StartWf(s);
    StartRefines(s);
    assert SpecStart(Abs(s)).levels == Levels(s) + [EmptySnapshot()];
  }

  /** A table that has caught up has the range of the others, and undo finds it empty at every level. */
  lemma {:induction false} CaughtUpIs(width: nat, range: Range)
    requires 0 <= range.first <= range.last
    ensures var s := CaughtUp(width, range);
      && Wf(s) && s.width == width && RangeOf(s) == range
      && Levels(s) == seq(range.last - range.first + 1, _ => EmptySnapshot())
    decreases range.last - range.first
  {
    hide Wf, Levels, Start;
    if range.first == range.last {
      SetRevisionWf(Empty(width), range.first);
      EmptyWf(width);
      LastLevel(CaughtUp(width, range));
      assert Levels(CaughtUp(width, range)) == [EmptySnapshot()];
    } else {
      var before := range.(last := range.last - 1);
      CaughtUpIs(width, before);
      StartShape(CaughtUp(width, before));
      StartLevels(CaughtUp(width, before), range.last - range.first);
    }
  }

  // ----- refinement

  /** A local operation changes only the current table. */
  lemma LocalStep(width: nat, h: History<Snapshot>, op: Op, r: History<Snapshot>)
    requires Local(op) && SpecStep(width, h, op, r)
    ensures |r.levels| == |h.levels| > 0 && r == WithCurrent(h, Current(r))
  {
    hide FitsValues, DiffersFromSaved;
    assert h == WithCurrent(h, Current(h));
  }

  lemma ColumnWithCurrent(h: DbHistory, n: nat, i: nat, c: Snapshot, j: nat)
    requires Rows(h, n) && h.levels != [] && i < n && j < n
    ensures var r := WithCurrent(h, Current(h)[i := c]);
      Rows(r, n) && Column(r, j) == if j == i then WithCurrent(Column(h, j), c) else Column(h, j)
  {
    var r := WithCurrent(h, Current(h)[i := c]);
    if j == i {
      assert Column(r, j).levels == WithCurrent(Column(h, j), c).levels;
    } else {
      assert Column(r, j).levels == Column(h, j).levels;
    }
  }

  lemma TableRefines(db: seq<State>, i: nat, op: Op)
    requires DbWf(db) && i < |db| && Local(op) && Enabled(db[i], op) && Safe(db[i], op)
    ensures var r := db[i := Step(db[i], op)];
      DbWf(r) && DbSpecStep(Widths(db), DbAbs(db), OnTable(i, op), DbAbs(r))
  {
    hide Wf, Step, Safe, SpecStep, Levels, LevelAt, RangeOf;
    var s, r, h := Step(db[i], op), db[i := Step(db[i], op)], DbAbs(db);
    StepRefines(db[i], op);
    RangeLocal(db[i], op);
    LocalStep(db[i].width, Abs(db[i]), op, Abs(s));
    AbsColumn(db, i);
    var c := Current(Abs(s));
    var h' := WithCurrent(h, Current(h)[i := c]);
    forall j | 0 <= j < |db| ensures Column(h', j) == Abs(r[j]) && Rows(h', |db|) {
      AbsColumn(db, j);
      ColumnWithCurrent(h, |db|, i, c, j);
    }
    ByColumns(h', r);
  }

  function Widths(db: seq<State>): seq<nat> {
    seq(|db|, i requires 0 <= i < |db| => db[i].width)
  }

  /** What a global operation does to a history, whatever its snapshots are. */
  function SpecGlobal<T>(h: History<T>, op: Op): History<T>
    requires Global(op) && h.levels != []
  {
    match op
    case DoStart => SpecStart(h)
    case DoUndo => SpecUndo(h)
    case DoCommit(to) => SpecCommit(h, to)
    case DoSetRevision(n) => SpecSetRevision(h, n)
    case _ => SpecSquash(h)
  }

  lemma GlobalStep(s: State, op: Op)
    requires Wf(s) && Global(op) && Safe(s, op)
    ensures Wf(Step(s, op)) && Abs(Step(s, op)) == SpecGlobal(Abs(s), op)
  {
    hide Wf, Step, Safe, Levels;
    StepRefines(s, op);
  }

  lemma GlobalColumn(h: DbHistory, n: nat, i: nat, op: Op)
    requires Rows(h, n) && i < n && h.levels != [] && Global(op)
    ensures Rows(SpecGlobal(h, op), n) && Column(SpecGlobal(h, op), i) == SpecGlobal(Column(h, i), op)
  {
    hide Rows, SpecStart, SpecUndo, SpecSquash, SpecCommit, SpecSetRevision;
    ColumnSteps(h, n, i, match op case DoCommit(to) => to case DoSetRevision(n) => n case _ => 0);
  }

  lemma AllRefines(db: seq<State>, op: Op)
    requires DbWf(db) && Global(op) && forall i | 0 <= i < |db| :: Safe(db[i], op)
    ensures DbWf(All(db, op)) && (db != [] ==> DbAbs(All(db, op)) == SpecGlobal(DbAbs(db), op))
  {
    hide Wf, Step, Safe, Levels, LevelAt, RangeOf, SpecStart, SpecUndo, SpecSquash, SpecCommit, SpecSetRevision,
      SpecGlobal, DbAbs;
    var r := All(db, op);
    forall i | 0 <= i < |db| ensures Wf(r[i]) && Abs(r[i]) == SpecGlobal(Abs(db[i]), op) {
      GlobalStep(db[i], op);
    }
    LockstepKept(db, op);
    if db != [] {
      AbsColumn(db, 0);
      var h := SpecGlobal(DbAbs(db), op);
      GlobalColumn(DbAbs(db), |db|, 0, op);
      forall i | 0 <= i < |db| ensures Column(h, i) == Abs(r[i]) {
        AbsColumn(db, i);
        GlobalColumn(DbAbs(db), |db|, i, op);
      }
      ByColumns(h, r);
    }
  }

  lemma {:induction false} UndoneRefines(s: State)
    requires Wf(s)
    ensures Wf(AllUndone(s)) && Abs(AllUndone(s)) == SpecUndoAll(Abs(s))
    decreases |s.stack|
  {
    if s.stack != [] {
      UndoneRefines(Undo(s));
      SavedUndo(s);
    }
  }

  lemma EverythingRefines(db: seq<State>)
    requires DbWf(db)
    ensures DbWf(AllEmptied(db)) && (db != [] ==> DbAbs(AllEmptied(db)) == SpecUndoAll(DbAbs(db)))
  {
    hide Wf, Levels, LevelAt, RangeOf, SpecUndoAll, SpecCommit, DbAbs;
    var r := AllEmptied(db);
    forall i | 0 <= i < |db| ensures Wf(r[i]) && Abs(r[i]) == SpecUndoAll(Abs(db[i])) {
      UndoneRefines(db[i]);
    }
    LockstepEmptied(db);
    if db != [] {
      AbsColumn(db, 0);
      var h := SpecUndoAll(DbAbs(db));
      ColumnSteps(DbAbs(db), |db|, 0, 0);
      forall i | 0 <= i < |db| ensures Column(h, i) == Abs(r[i]) {
        AbsColumn(db, i);
        ColumnSteps(DbAbs(db), |db|, i, 0);
      }
      ByColumns(h, r);
    }
  }

  lemma AddRefines(db: seq<State>, width: nat)
    requires DbWf(db)
    ensures DbWf(db + [Added(db, width)])
    ensures db != [] ==> DbAbs(db + [Added(db, width)]) == WithEmpty(DbAbs(db))
  {
    hide Wf, Levels, LevelAt, CaughtUp;
    var r := db + [Added(db, width)];
    EmptyWf(width);
    if db != [] {
      DepthBound(db[0]);
      CaughtUpIs(width, RangeOf(db[0]));
      var h := WithEmpty(DbAbs(db));
      forall i | 0 <= i < |r| ensures Rows(h, |r|) && Column(h, i) == Abs(r[i]) {
        if i < |db| {
          AbsColumn(db, i);
          assert Column(h, i).levels == Column(DbAbs(db), i).levels;
        } else {
          assert Column(h, i).levels == Levels(r[i]);
        }
      }
      ByColumns(h, r);
    }
  }

  /** From `db` to `r` the database does one step of the stack of snapshots. */
  ghost predicate DbRefines(db: seq<State>, op: DbOp, r: seq<State>) {
    DbWf(db) && DbWf(r) && (db != [] ==> r != [] && DbSpecStep(Widths(db), DbAbs(db), op, DbAbs(r)))
  }

  /** Every safe step keeps the tables in lockstep and does what one stack of database snapshots does. */
  lemma DbStepRefines(db: seq<State>, op: DbOp)
    requires DbWf(db) && DbEnabled(db, op) && DbSafe(db, op)
    ensures DbRefines(db, op, DbStep(db, op))
  {
    hide Wf, Safe, Step, DbAbs, SpecStart, SpecUndo, SpecSquash, SpecCommit, SpecSetRevision, WithEmpty;
    if db != [] {
      AbsColumn(db, 0);
    }
    match op
    case OnTable(i, o) => TableRefines(db, i, o);
    case OnAll(o) => AllRefines(db, o);
    case UndoEverything => EverythingRefines(db);
    case AddTable(width) => AddRefines(db, width);
  }

  // ----- whole runs

  ghost predicate DbSafeRun(db: seq<State>, ops: seq<DbOp>)
    decreases |ops|
  {
    ops == [] || (DbEnabled(db, ops[0]) && DbSafe(db, ops[0]) && DbSafeRun(DbStep(db, ops[0]), ops[1..]))
  }

  ghost function DbTrace(db: seq<State>, ops: seq<DbOp>): (trace: seq<seq<State>>)
    requires DbSafeRun(db, ops)
    ensures |trace| == |ops| + 1 && trace[0] == db
    decreases |ops|
  {
    [db] + if ops == [] then [] else DbTrace(DbStep(db, ops[0]), ops[1..])
  }

  /** Over any run of safe steps the tables stay in lockstep, and the database is one stack of snapshots. */
  lemma {:induction false} DbRunRefines(db: seq<State>, ops: seq<DbOp>)
    requires DbWf(db) && DbSafeRun(db, ops)
    ensures forall k | 0 <= k <= |ops| :: DbWf(DbTrace(db, ops)[k])
    ensures forall k | 0 <= k < |ops| :: DbRefines(DbTrace(db, ops)[k], ops[k], DbTrace(db, ops)[k + 1])
    decreases |ops|
  {
    hide Wf, DbSpecStep, DbSafe, DbEnabled, DbAbs, Lockstep, DbStep;
    if ops != [] {
      var n := DbStep(db, ops[0]);
      DbStepRefines(db, ops[0]);
      DbRunRefines(n, ops[1..]);
      var trace, rest := DbTrace(db, ops), DbTrace(n, ops[1..]);
      assert trace == [db] + rest;
      forall k | 0 <= k < |ops| ensures DbRefines(trace[k], ops[k], trace[k + 1]) {
        if k > 0 {
          assert trace[k] == rest[k - 1] && trace[k + 1] == rest[k] && ops[k] == ops[1..][k - 1];
        }
      }
    }
  }

  // ----- runs without reverted modifies

  ghost predicate DbReverts(db: seq<State>, op: DbOp)
    requires DbEnabled(db, op)
  {
    op.OnTable? && Reverts(db[op.i], op.op)
  }

  ghost predicate DbClean(db: seq<State>) {
    DbWf(db) && forall i | 0 <= i < |db| :: NoPoison(db[i])
  }

  /** Every operation is enabled and none is a `modify` that gets reverted. */
  ghost predicate DbUnrevertedRun(db: seq<State>, ops: seq<DbOp>)
    decreases |ops|
  {
    ops == [] || (DbEnabled(db, ops[0]) && !DbReverts(db, ops[0]) && DbUnrevertedRun(DbStep(db, ops[0]), ops[1..]))
  }

  lemma {:induction false} NoPoisonUndone(s: State)
    requires NoPoison(s)
    ensures NoPoison(AllUndone(s))
    decreases |s.stack|
  {
    if s.stack != [] {
      NoPoisonUndone(Undo(s));
    }
  }

  lemma {:induction false} NoPoisonCaughtUp(width: nat, range: Range)
    requires 0 <= range.first <= range.last
    ensures NoPoison(CaughtUp(width, range))
    decreases range.last - range.first
  {
    hide Wf, Start;
    if range.first < range.last {
      var before := range.(last := range.last - 1);
      CaughtUpIs(width, before);
      NoPoisonCaughtUp(width, before);
      NoPoisonStart(CaughtUp(width, before));
    }
  }

  lemma DbCleanSafe(db: seq<State>, op: DbOp)
    requires DbClean(db) && DbEnabled(db, op)
    ensures DbSafe(db, op)
  {
    hide Wf, NoPoison, Safe, Lockstep;
    match op
    case OnTable(i, o) => NoPoisonSafe(db[i], o);
    case OnAll(o) =>
      forall i | 0 <= i < |db| ensures Safe(db[i], o) {
        NoPoisonSafe(db[i], o);
      }
    case UndoEverything =>
    case AddTable(_) =>
  }

  lemma DbCleanStep(db: seq<State>, op: DbOp)
    requires DbClean(db) && DbEnabled(db, op) && !DbReverts(db, op)
    ensures DbClean(DbStep(db, op))
  {
    hide Wf, NoPoison, Safe, Lockstep, Reverts, DbSpecStep, DbAbs, Step, AllUndone, CaughtUp;
    DbCleanSafe(db, op);
    DbStepRefines(db, op);
    var r := DbStep(db, op);
    match op
    case OnTable(i, o) => StepNoPoison(db[i], o);
    case OnAll(o) =>
      forall i | 0 <= i < |db| ensures NoPoison(r[i]) {
        NeverReverts(db[i], o);
        StepNoPoison(db[i], o);
      }
    case UndoEverything =>
      forall i | 0 <= i < |db| ensures NoPoison(r[i]) {
        NoPoisonUndone(db[i]);
      }
    case AddTable(width) => AddedClean(db, width);
  }

  lemma NeverReverts(s: State, op: Op)
    requires Global(op)
    ensures Enabled(s, op) && !Reverts(s, op)
  {}

  lemma AddedClean(db: seq<State>, width: nat)
    requires DbWf(db)
    ensures NoPoison(Added(db, width))
  {
    hide Wf, NoPoison, CaughtUp;
    EmptyWf(width);
    if db != [] {
      DepthBound(db[0]);
      NoPoisonCaughtUp(width, RangeOf(db[0]));
    }
  }

  /** A run in which no `modify` is reverted needs no other care. */
  lemma {:induction false} DbUnrevertedRunIsSafe(db: seq<State>, ops: seq<DbOp>)
    requires DbClean(db) && DbUnrevertedRun(db, ops)
    ensures DbSafeRun(db, ops)
    decreases |ops|
  {
    hide DbClean, DbSafe, DbEnabled, DbReverts, DbStep;
    if ops != [] {
      DbCleanSafe(db, ops[0]);
      DbCleanStep(db, ops[0]);
      DbUnrevertedRunIsSafe(DbStep(db, ops[0]), ops[1..]);
    }
  }

  /** From the empty database every run without reverted modifies, with tables added on the way, is a
    * run of one stack of snapshots of all tables. */
  lemma DbUnrevertedRunsRefine(ops: seq<DbOp>)
    requires DbUnrevertedRun([], ops)
    ensures DbSafeRun([], ops)
    ensures forall k | 0 <= k < |ops| :: DbRefines(DbTrace([], ops)[k], ops[k], DbTrace([], ops)[k + 1])
  {
    hide DbRefines;
    DbUnrevertedRunIsSafe([], ops);
    DbRunRefines([], ops);
  }

  // ----- a session over the whole database

  ghost function DbLast(db: seq<State>, ops: seq<DbOp>): seq<State>
    requires DbSafeRun(db, ops)
  {
    DbTrace(db, ops)[|ops|]
  }

  /** Every table has at least `depth` sessions. */
  predicate Deep(db: seq<State>, depth: nat) {
    forall i | 0 <= i < |db| :: depth <= |db[i].stack|
  }

  /** The run never closes the session it starts in, and commits nothing. */
  ghost predicate DbInside(db: seq<State>, ops: seq<DbOp>, depth: nat)
    requires DbSafeRun(db, ops)
    decreases |ops|
  {
    Deep(db, depth) && (ops == [] || (!Commits(ops[0]) && DbInside(DbStep(db, ops[0]), ops[1..], depth)))
  }

  predicate Commits(op: DbOp) {
    op.OnAll? && op.op.DoCommit?
  }

  /** The tables of `db` are still there, with the same first revision and the same snapshots below `depth`. */
  ghost predicate SameBelow(db: seq<State>, r: seq<State>, depth: nat) {
    && |db| <= |r|
    && forall i | 0 <= i < |db| ::
         && depth <= |db[i].stack| && depth <= |r[i].stack|
         && RangeOf(r[i]).first == RangeOf(db[i]).first && Levels(r[i])[..depth] == Levels(db[i])[..depth]
  }

  lemma StepBelow(s: State, op: Op, depth: nat)
    requires Wf(s) && Enabled(s, op) && Safe(s, op) && !op.DoCommit? && 0 < depth <= |s.stack|
    requires depth <= |Step(s, op).stack|
    ensures RangeOf(Step(s, op)).first == RangeOf(s).first && Levels(Step(s, op))[..depth] == Levels(s)[..depth]
  {
    hide Wf, Safe, Step, Levels, FitsValues;
    StepRefines(s, op);
    SpecKeepsBelow(s.width, Abs(s), op, Abs(Step(s, op)), depth);
  }

  lemma {:induction false} UndoneDepth(s: State)
    ensures AllUndone(s).stack == []
    decreases |s.stack|
  {
    if s.stack != [] {
      UndoneDepth(Undo(s));
    }
  }

  lemma DbStepBelow(db: seq<State>, op: DbOp, depth: nat)
    requires DbWf(db) && DbEnabled(db, op) && DbSafe(db, op) && !Commits(op) && depth > 0
    requires Deep(db, depth) && Deep(DbStep(db, op), depth)
    ensures SameBelow(db, DbStep(db, op), depth)
  {
    hide Wf, Safe, Step, Levels, RangeOf, AllUndone, Added;
    var r := DbStep(db, op);
    forall i | 0 <= i < |db|
      ensures RangeOf(r[i]).first == RangeOf(db[i]).first && Levels(r[i])[..depth] == Levels(db[i])[..depth]
    {
      assert depth <= |db[i].stack| && depth <= |r[i].stack|;
      match op
      case OnTable(j, o) => if i == j { StepBelow(db[i], o, depth); }
      case OnAll(o) => StepBelow(db[i], o, depth);
      case UndoEverything => UndoneDepth(db[i]);
      case AddTable(_) =>
    }
  }

  lemma {:induction false} DbRunBelow(db: seq<State>, ops: seq<DbOp>, depth: nat)
    requires DbWf(db) && DbSafeRun(db, ops) && DbInside(db, ops, depth) && depth > 0
    ensures DbWf(DbLast(db, ops)) && SameBelow(db, DbLast(db, ops), depth)
    decreases |ops|
  {
    hide Wf, DbSafe, DbEnabled, DbStep, Lockstep, Levels, RangeOf, Commits, DbSpecStep, DbAbs;
    if ops != [] {
      var n := DbStep(db, ops[0]);
      assert Deep(n, depth);
      DbStepRefines(db, ops[0]);
      DbStepBelow(db, ops[0], depth);
      DbRunBelow(n, ops[1..], depth);
      assert DbLast(db, ops) == DbLast(n, ops[1..]);
    }
  }

  /** Start a session over the database, do anything inside it, with nested sessions and new tables, and
    * undo it: every table that was there has its current and all older snapshots back. */
  lemma DbSessionUndone(db: seq<State>, ops: seq<DbOp>)
    requires DbWf(db) && DbSafeRun(All(db, DoStart), ops)
    requires forall i | 0 <= i < |db| :: DbInside(All(db, DoStart), ops, |db[i].stack| + 1)
    requires forall i | 0 <= i < |db| && i < |DbLast(All(db, DoStart), ops)| ::
      |DbLast(All(db, DoStart), ops)[i].stack| == |db[i].stack| + 1
    ensures var last := DbLast(All(db, DoStart), ops);
      && |db| <= |last| && DbWf(All(last, DoUndo))
      && forall i | 0 <= i < |db| :: Abs(All(last, DoUndo)[i]) == Abs(db[i])
  {
    hide Wf, DbSafeRun, DbInside, Levels, Lockstep, Step, RangeOf;
    var s := All(db, DoStart);
    AllRefines(db, DoStart);
    if db != [] {
      DbRunBelow(s, ops, |db[0].stack| + 1);
    } else {
      DbRunWf(s, ops);
    }
    var last := DbLast(s, ops);
    AllRefines(last, DoUndo);
    forall i | 0 <= i < |db| ensures Abs(All(last, DoUndo)[i]) == Abs(db[i]) {
      DbRunBelow(s, ops, |db[i].stack| + 1);
      StepIs(db[i], 0);
      StepIs(last[i], 0);
      UndoneHere(db[i], last[i]);
    }
  }

  lemma {:induction false} DbRunWf(db: seq<State>, ops: seq<DbOp>)
    requires DbWf(db) && DbSafeRun(db, ops)
    ensures DbWf(DbLast(db, ops))
  {
    hide DbWf, DbSafeRun;
    DbRunRefines(db, ops);
  }

  lemma UndoneHere(s: State, r: State)
    requires Wf(s) && Wf(r) && |r.stack| == |s.stack| + 1
    requires RangeOf(r).first == RangeOf(Start(s)).first
    requires Levels(r)[..|s.stack| + 1] == Levels(Start(s))[..|s.stack| + 1]
    ensures Abs(Undo(r)) == Abs(s)
  {
    hide Wf, Levels;
    StartRefines(s);
    SavedUndo(r);
    assert SpecStart(Abs(s)).levels == Levels(s) + [Current(Abs(s))];
  }
}
