/** Runs of the database with any operations, whatever is reverted or lost in them: what they keep, and what
  * a database session gives back of each object. */
module DatabaseRuns {
  import opened Basics
  import opened Tables
  import opened UndoModel
  import opened UndoInvariant
  import opened UndoLeaks
  import opened UndoLosses
  import opened UndoRefinement
  import opened UndoExactness
  import opened UndoRuns
  import opened DatabaseModel

  // ----- what the code does

  ghost predicate DbDoes(db: seq<State>, op: DbOp, r: seq<State>)
    requires DbEnabled(db, op)
  {
    match op
    case OnTable(i, o) => |r| == |db| && Does(db[i], o, r[i]) && r == db[i := r[i]]
    case OnAll(o) => |r| == |db| && forall i | 0 <= i < |db| :: Does(db[i], o, r[i])
    case UndoEverything => DbUndoesAll(db, r)
    case AddTable(width) => r == db + [Added(db, width)]
  }

  /** The run may go on: no assertion has failed, and no session still has a backup of a lost object. */
  ghost predicate DbMayGoOn(db: seq<State>, op: DbOp, r: seq<State>)
    requires DbEnabled(db, op) && DbDoes(db, op, r)
  {
    match op
    case OnTable(i, o) => Goes(db[i], o)
    case OnAll(o) => forall i | 0 <= i < |db| :: GoesOn(db[i], o, r[i])
    case UndoEverything => forall i | 0 <= i < |db| :: NeverDangles(db[i])
    case AddTable(_) => true
  }

  ghost predicate DbSturdy(db: seq<State>) {
    Lockstep(db) && forall i | 0 <= i < |db| :: Sturdy(db[i])
  }

  // ----- the invariant but for keys

  lemma {:induction false} AllUndoneSturdy(s: State, r: State)
    requires Sturdy(s) && NeverDangles(s) && UndoesAll(s, r)
    ensures Sturdy(r)
    decreases |s.stack|
  {
    hide Sturdy, Loses;
    if s.stack != [] {
      var lost: set<nat> :| Loses(s, lost) && UndoesAll(Less(Undo(s), lost), r);
      LessIs(s, lost);
      UndoneOnce(s, Less(Undo(s), lost));
      UndoneSturdy(s, Less(Undo(s), lost));
      AllUndoneSturdy(Less(Undo(s), lost), r);
    }
  }

  /** Every operation on the database that may go on keeps the lockstep, and every table's invariant but for
    * keys. */
  lemma DbStepSturdy(db: seq<State>, op: DbOp, r: seq<State>)
    requires DbSturdy(db) && DbEnabled(db, op) && DbDoes(db, op, r) && DbMayGoOn(db, op, r)
    ensures DbSturdy(r)
  {
    hide Sturdy, Does, GoesOn, Goes, Enabled, RangeOf, UndoesAll, NeverDangles, CaughtUp, Step;
    match op
    case OnTable(i, o) =>
      LocalSturdy(db[i], o, r[i]);
    case OnAll(o) =>
      forall i | 0 <= i < |db| ensures Enabled(db[i], o) {
        GlobalEnabled(db[i], o);
      }
      GlobalLockstep(db, o, r);
      forall i | 0 <= i < |db| ensures Sturdy(r[i]) {
        StepSturdy(db[i], o, r[i]);
      }
    case UndoEverything =>
      DbUndoneLockstep(db, r);
      forall i | 0 <= i < |db| ensures Sturdy(r[i]) {
        AllUndoneSturdy(db[i], r[i]);
      }
    case AddTable(width) => AddedSturdy(db, width);
  }

  lemma LocalSturdy(s: State, op: Op, r: State)
    requires Sturdy(s) && Local(op) && Enabled(s, op) && Does(s, op, r)
    ensures Sturdy(r) && RangeOf(r) == RangeOf(s)
  {
    hide Sturdy, Step;
    StepSturdy(s, op, r);
    RangeLocal(s, op);
  }

  lemma GlobalEnabled(s: State, op: Op)
    requires Global(op)
    ensures Enabled(s, op)
  {}

  lemma GlobalLockstep(db: seq<State>, op: Op, r: seq<State>)
    requires Lockstep(db) && Global(op) && |r| == |db|
    requires forall i | 0 <= i < |db| :: Enabled(db[i], op) && Does(db[i], op, r[i])
    ensures Lockstep(r)
  {
    hide RangeOf, Step, UndoesTo;
    forall i, j | 0 <= i < |r| && 0 <= j < |r| ensures RangeOf(r[i]) == RangeOf(r[j]) {
      RangeStep(db[i], db[j], op);
      DoneRange(db[i], op, r[i]);
      DoneRange(db[j], op, r[j]);
    }
  }

  lemma DoneRange(s: State, op: Op, r: State)
    requires Global(op) && Enabled(s, op) && Does(s, op, r)
    ensures RangeOf(r) == RangeOf(Step(s, op))
  {
    hide RangeOf, UndoesTo, Step;
    if op.DoUndo? {
      UndoneRange(s, r);
    }
  }

  lemma AddedSturdy(db: seq<State>, width: nat)
    requires DbSturdy(db)
    ensures DbSturdy(db + [Added(db, width)])
  {
    hide Wf, CaughtUp, Levels;
    EmptyWf(width);
    if db != [] {
      SturdyDepth(db[0]);
      CaughtUpIs(width, RangeOf(db[0]));
    }
    WfIs(Added(db, width));
  }

  // ----- one object of one table

  /** What an operation on the database does to table `i`, if it does anything. */
  function OnOne(op: DbOp, i: nat): Option<Op> {
    match op
    case OnTable(j, o) => if j == i then Some(o) else None
    case OnAll(o) => Some(o)
    case _ => None
  }

  ghost predicate DbHarms(db: seq<State>, op: DbOp, r: seq<State>, i: nat, id: nat)
    requires DbEnabled(db, op) && DbDoes(db, op, r) && i < |db|
  {
    OnOne(op, i).Some? && Harms(db[i], OnOne(op, i).value, r[i], id)
  }

  /** Every step but `undo_all` is for each object of each table a step of the stack of its snapshots, exactly
    * unless it harms the object, or nothing at all. */
  lemma DbStepObject(db: seq<State>, op: DbOp, r: seq<State>, i: nat, id: nat)
    requires DbSturdy(db) && DbEnabled(db, op) && DbDoes(db, op, r) && i < |db| && !op.UndoEverything?
    ensures |db| <= |r|
    ensures match OnOne(op, i)
      case Some(o) => ObjectStep(Of(Abs(db[i]), id), o, id, Of(Abs(r[i]), id)) <==> !DbHarms(db, op, r, i, id)
      case None => r[i] == db[i]
  {
    hide Sturdy, Does, Harms, ObjectStep, Of, Enabled;
    if OnOne(op, i).Some? {
      if op.OnAll? {
        GlobalEnabled(db[i], op.op);
      }
      StepObject(db[i], OnOne(op, i).value, r[i], id);
    }
  }

  // ----- whole runs

  ghost predicate DbCodeRun(dbs: seq<seq<State>>, ops: seq<DbOp>) {
    && |dbs| == |ops| + 1
    && (forall k | 0 <= k < |ops| :: DbEnabled(dbs[k], ops[k]) && DbDoes(dbs[k], ops[k], dbs[k + 1]))
    && (forall k | 0 <= k < |ops| :: k + 1 < |ops| ==> DbMayGoOn(dbs[k], ops[k], dbs[k + 1]))
  }

  lemma {:induction false} DbRunSturdy(dbs: seq<seq<State>>, ops: seq<DbOp>, k: nat)
    requires DbCodeRun(dbs, ops) && DbSturdy(dbs[0]) && k < |ops|
    ensures DbSturdy(dbs[k])
    decreases k
  {
    hide DbSturdy, DbDoes, DbMayGoOn, DbEnabled;
    if k > 0 {
      DbRunSturdy(dbs, ops, k - 1);
      DbStepSturdy(dbs[k - 1], ops[k - 1], dbs[k]);
    }
  }

  /** Table `i` is there from the start and never has fewer than `depth` sessions, the run does not commit,
    * nor harm object `id` of that table. */
  ghost predicate DbKeepsInside(dbs: seq<seq<State>>, ops: seq<DbOp>, i: nat, id: nat, depth: nat)
    requires DbCodeRun(dbs, ops)
  {
    && (forall k | 0 <= k <= |ops| :: i < |dbs[k]| && depth <= |dbs[k][i].stack|)
    && (forall k | 0 <= k < |ops| :: !Commits(ops[k]) && !DbHarms(dbs[k], ops[k], dbs[k + 1], i, id))
  }

  lemma {:induction false} DbKeptUpTo(dbs: seq<seq<State>>, ops: seq<DbOp>, i: nat, id: nat, depth: nat, k: nat)
    requires DbCodeRun(dbs, ops) && DbSturdy(dbs[0]) && DbKeepsInside(dbs, ops, i, id, depth) && k <= |ops| && depth > 0
    ensures OfLevels(Levels(dbs[k][i]), id)[..depth] == OfLevels(Levels(dbs[0][i]), id)[..depth]
    decreases k
  {
    hide DbSturdy, DbDoes, DbMayGoOn, DbEnabled, ObjectStep, OfLevels, Levels, DbHarms;
    if k > 0 {
      DbKeptUpTo(dbs, ops, i, id, depth, k - 1);
      DbRunSturdy(dbs, ops, k - 1);
      var a, op, b := dbs[k - 1], ops[k - 1], dbs[k];
      NotEmptied(a, op, b, i);
      DbStepObject(a, op, b, i, id);
      OfLast(a[i], id);
      OfLast(b[i], id);
      if OnOne(op, i).Some? {
        NoCommit(a, op, i);
        ObjectKeepsBelow(Of(Abs(a[i]), id), OnOne(op, i).value, id, Of(Abs(b[i]), id), depth);
      }
    }
  }

  lemma NoCommit(db: seq<State>, op: DbOp, i: nat)
    requires DbEnabled(db, op) && !Commits(op) && OnOne(op, i).Some?
    ensures !OnOne(op, i).value.DoCommit?
  {}

  lemma NotEmptied(db: seq<State>, op: DbOp, r: seq<State>, i: nat)
    requires DbEnabled(db, op) && DbDoes(db, op, r) && i < |db| && i < |r| && r[i].stack != []
    ensures !op.UndoEverything?
  {
    hide Does;
    if op.UndoEverything? {
      EmptiedStack(db[i], r[i]);
    }
  }

  lemma {:induction false} EmptiedStack(s: State, r: State)
    requires UndoesAll(s, r)
    ensures r.stack == []
    decreases |s.stack|
  {
    if s.stack != [] {
      var lost: set<nat> :| Loses(s, lost) && UndoesAll(Less(Undo(s), lost), r);
      EmptiedStack(Less(Undo(s), lost), r);
    }
  }

  /** Start a session over the database, do anything inside it, undo it: every object of every table that was
    * there and that no step harmed is what it was, in the current and in all older snapshots. */
  lemma DbSessionObjectUndone(db: seq<State>, dbs: seq<seq<State>>, ops: seq<DbOp>, r: seq<State>, i: nat, id: nat)
    requires DbSturdy(db) && i < |db| && DbCodeRun(dbs, ops) && dbs[0] == All(db, DoStart) && DbSturdy(dbs[|ops|])
    requires DbKeepsInside(dbs, ops, i, id, |db[i].stack| + 1) && |dbs[|ops|][i].stack| == |db[i].stack| + 1
    requires DbDoes(dbs[|ops|], OnAll(DoUndo), r) && !DbHarms(dbs[|ops|], OnAll(DoUndo), r, i, id)
    ensures OfLevels(Levels(r[i]), id) == OfLevels(Levels(db[i]), id)
  {
    hide Sturdy, OfLevels, Levels, Start, Undo, DbHarms, Does, ObjectStep, Harms, DbMayGoOn, Lockstep, Step;
    var s, last, depth := db[i], dbs[|ops|], |db[i].stack| + 1;
    StepIs(s, 0);
    StartSturdy(s);
    StartObject(s, id);
    AllSturdy(db, dbs[0]);
    DbKeptUpTo(dbs, ops, i, id, depth, |ops|);
    DbStepObject(last, OnAll(DoUndo), r, i, id);
    OfLast(s, id);
    OfLast(last[i], id);
    UndoSpec(Of(Abs(last[i]), id), id, Of(Abs(r[i]), id));
  }

  lemma AllSturdy(db: seq<State>, r: seq<State>)
    requires DbSturdy(db) && r == All(db, DoStart)
    ensures DbSturdy(r)
  {
    hide Sturdy, Lockstep, Start, Step;
    LockstepKept(db, DoStart);
    forall i | 0 <= i < |db| ensures Sturdy(r[i]) {
      StepIs(db[i], 0);
      StartSturdy(db[i]);
    }
  }
}
