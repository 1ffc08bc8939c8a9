/** How a `modify` that meets a conflict ends: told by what was done before, without the time stamps by which the
  * code decides it. */
module UndoConflicts {
  import opened Basics
  import opened Tables
  import opened UndoModel
  import opened UndoInvariant
  import opened UndoLeaks
  import opened UndoLosses
  import opened UndoRefinement
  import opened UndoRuns
  import opened UndoLayout
  import opened UndoStamps

  /** The session that took the table to revision `revision` is on the stack. */
  predicate Open(s: State, revision: int) {
    s.revision - |s.stack| < revision <= s.revision
  }

  function SessionAt(s: State, revision: int): Session
    requires Open(s, revision)
  {
    s.stack[revision - (s.revision - |s.stack|) - 1]
  }

  /** A session keeps its start time and its first id, whatever is squashed into it or committed below it. */
  lemma OpenKeeps(s: State, op: Op, r: State, revision: int)
    requires Enabled(s, op) && Does(s, op, r) && Open(s, revision) && Open(r, revision)
    ensures SessionAt(r, revision).ctime == SessionAt(s, revision).ctime
    ensures SessionAt(r, revision).oldNextId == SessionAt(s, revision).oldNextId
  {
    hide Open, SessionAt, Does, Enabled;
    match op
    case DoSquash => SquashMarks(s, op, r); SameSession(s, r, revision);
    case DoSquashFast => SquashMarks(s, op, r); SameSession(s, r, revision);
    case DoCommit(_) => CommitMarks(s, op, r); SameSession(s, r, revision);
    case _ => OtherMarks(s, op, r); SameSession(s, r, revision);
  }

  /** The sessions of `r` that were there in `s` have the start times and first ids that they had. */
  ghost predicate SameMarks(s: State, r: State) {
    var d := (r.revision - |r.stack|) - (s.revision - |s.stack|);
    forall i: nat, j: nat | j < |r.stack| && i < |s.stack| && i == j + d ::
      r.stack[j].ctime == s.stack[i].ctime && r.stack[j].oldNextId == s.stack[i].oldNextId
  }

  lemma SameSession(s: State, r: State, revision: int)
    requires SameMarks(s, r) && Open(s, revision) && Open(r, revision)
    ensures SessionAt(r, revision).ctime == SessionAt(s, revision).ctime
    ensures SessionAt(r, revision).oldNextId == SessionAt(s, revision).oldNextId
  {}

  lemma SquashMarks(s: State, op: Op, r: State)
    requires Enabled(s, op) && Does(s, op, r) && (op.DoSquash? || op.DoSquashFast?)
    ensures SameMarks(s, r)
  {
    hide KeptOlds, FoldedTable;
  }

  lemma CommitMarks(s: State, op: Op, r: State)
    requires Enabled(s, op) && Does(s, op, r) && op.DoCommit?
    ensures SameMarks(s, r)
  {}

  lemma OtherMarks(s: State, op: Op, r: State)
    requires Enabled(s, op) && Does(s, op, r) && !op.DoSquash? && !op.DoSquashFast? && !op.DoCommit?
    ensures SameMarks(s, r)
  {
    hide Fits, KeptOlds, FoldedTable, Loses, UndoMain;
  }

  // ----- stamped means touched

  /** The rows stamped at time `c` or later, wherever they are kept, are of the objects `ids`. */
  ghost predicate StampedIn(s: State, c: nat, ids: iset<nat>) {
    && (forall id | id in s.main && c <= s.main[id].mtime :: id in ids)
    && (forall t <- s.stack, id | id in t.removed && c <= t.removed[id].mtime :: id in ids)
    && (forall t <- s.stack, e <- t.olds | c <= e.row.mtime :: e.id in ids)
  }

  lemma {:induction false} KeptIn(olds: seq<Entry>, c: nat, gone: set<nat>)
    ensures forall e <- KeptOlds(olds, c, gone) :: e in olds
  {
    if olds != [] {
      KeptIn(olds[1..], c, gone);
    }
  }

  lemma FoldedIn(t: Session, d: nat, nid: nat, c: nat, ids: iset<nat>)
    requires forall id | id in t.removed && c <= t.removed[id].mtime :: id in ids
    requires forall e <- t.olds | c <= e.row.mtime :: e.id in ids
    ensures forall id | id in FoldedTable(t, d, nid) && c <= FoldedTable(t, d, nid)[id].mtime :: id in ids
  {
    forall id | id in FoldedTable(t, d, nid) && c <= FoldedTable(t, d, nid)[id].mtime ensures id in ids {
      OldestFound(t.olds, id, d);
    }
  }

  lemma CompressStamped(s: State, d: nat, nid: nat, c: nat, ids: iset<nat>)
    requires s.stack != [] && StampedIn(s, c, ids)
    ensures StampedIn(CompressImpl(s, d, nid), c, ids)
  {
    hide KeptOlds, FoldedTable;
    KeptIn(Top(s).olds, d, Top(s).removed.Keys);
    FoldedIn(Top(s), d, nid, c, ids);
    assert Top(s) in s.stack;
  }

  lemma UndoStamped(s: State, c: nat, ids: iset<nat>)
    requires StampedIn(s, c, ids)
    ensures StampedIn(Undo(s), c, ids)
  {
    if s.stack != [] {
      var t := Top(s);
      assert t in s.stack;
      forall id | id in Undo(s).main && c <= Undo(s).main[id].mtime ensures id in ids {
        OldestFound(t.olds, id, t.ctime);
      }
    }
  }

  lemma SquashFastStamped(s: State, c: nat, ids: iset<nat>)
    requires StampedIn(s, c, ids)
    ensures StampedIn(SquashFast(s), c, ids)
  {
    if |s.stack| > 1 {
      var r, b := SquashFast(s), Top(Pop(s));
      assert Top(s) in s.stack && b in s.stack;
      forall t <- r.stack ensures
          && (forall id | id in t.removed && c <= t.removed[id].mtime :: id in ids)
          && (forall e <- t.olds | c <= e.row.mtime :: e.id in ids)
      {
        if t !in s.stack {
          assert t == Merge(b, Top(s));
        }
      }
    }
  }

  /** Only `modify` and `emplace` stamp an object anew. */
  lemma StepStamped(s: State, op: Op, r: State, c: nat, ids: iset<nat>)
    requires Enabled(s, op) && Does(s, op, r) && StampedIn(s, c, ids) && (op.DoEmplace? ==> s.nextId in ids)
    ensures StampedIn(r, c, if op.DoModify? then ids + iset{op.id} else ids)
  {
    match op
    case DoEmplace(_) => hide Fits;
    case DoModify(_, _) => ModifyStamped(s, op.id, op.v, c, ids);
    case DoRemove(_) => RemoveStamped(s, op.id, c, ids);
    case DoStart =>
    case DoUndo => UndoStamped(s, c, ids);
    case DoSquash =>
      hide StampedIn, CompressImpl, SquashFast;
      if |s.stack| >= 2 {
        CompressStamped(s, Top(Pop(s)).ctime, Top(Pop(s)).oldNextId, c, ids);
        SquashFastStamped(CompressImpl(s, Top(Pop(s)).ctime, Top(Pop(s)).oldNextId), c, ids);
      } else {
        SquashFastStamped(s, c, ids);
      }
    case DoSquashFast => SquashFastStamped(s, c, ids);
    case DoCompress => CompressStamped(s, Top(s).ctime, Top(s).oldNextId, c, ids);
    case DoCommit(_) =>
    case DoSetRevision(_) =>
  }

  lemma RemoveStamped(s: State, id: nat, c: nat, ids: iset<nat>)
    requires id in s.main && StampedIn(s, c, ids)
    ensures StampedIn(Remove(s, id), c, ids)
  {
    if s.stack != [] {
      assert Top(s) in s.stack;
    }
  }

  lemma ModifyStamped(s: State, id: nat, v: Value, c: nat, ids: iset<nat>)
    requires id in s.main && StampedIn(s, c, ids)
    ensures StampedIn(Modify(s, id, v), c, ids + iset{id})
  {
    hide Fits;
    if s.stack != [] {
      assert Top(s) in s.stack;
    }
    if ModifyOutcome(s, id, v) == Erased {
      var n := s.(main := s.main[id := Row(v, s.main[id].mtime)]);
      RemoveStamped(n, id, c, ids + iset{id});
    }
  }

  /** No row is stamped later than now. */
  lemma {:induction false} StampedBeforeNow(s: State, c: nat)
    requires Sturdy(s) && s.mono < c
    ensures StampedIn(s, c, iset{})
    decreases |s.stack|
  {
    hide Sturdy, Growing, Single, BackupsLive, BackupsOlder, StampsDatable, StampedIn, UndoMain;
    SturdyParts(s);
    if s.stack != [] {
      UndoShape(s);
      StampedBeforeNow(Undo(s), c);
    }
    StampedFrom(s, c);
  }

  lemma StampedFrom(s: State, c: nat)
    requires s.mono < c && forall id | id in s.main :: s.main[id].mtime <= s.mono
    requires s.stack != [] ==> SessionBounds(s, Top(s)) && StampedIn(Undo(s), c, iset{})
    ensures StampedIn(s, c, iset{})
  {
    if s.stack != [] {
      assert s.stack == Undo(s).stack + [Top(s)];
    }
  }

  // ----- what a run touches

  /** In the first `k` steps of a run that starts with a session: the object is new, or `modify` was called on it. */
  predicate Touched(states: seq<State>, ops: seq<Op>, k: nat, id: nat)
    requires k <= |ops| && states != []
  {
    states[0].nextId <= id || exists j | 1 <= j < k :: ops[j].DoModify? && ops[j].id == id
  }

  ghost function TouchedIds(states: seq<State>, ops: seq<Op>, k: nat): iset<nat>
    requires k <= |ops| && states != []
  {
    iset id | Touched(states, ops, k, id)
  }

  /** A session is started first, and is open from then on up to state `k`. */
  ghost predicate SessionRun(states: seq<State>, ops: seq<Op>, k: nat) {
    && |states| == |ops| + 1 && CodeRun(states, ops) && Sturdy(states[0]) && 1 <= k < |ops| && ops[0].DoStart?
    && forall i | 1 <= i <= k :: Open(states[i], states[1].revision)
  }

  lemma SessionShort(states: seq<State>, ops: seq<Op>, k: nat, j: nat)
    requires SessionRun(states, ops, k) && 1 <= j <= k
    ensures SessionRun(states, ops, j) && Sturdy(states[j])
    ensures Open(states[j], states[1].revision) && Enabled(states[j], ops[j]) && Does(states[j], ops[j], states[j + 1])
  {
    hide CodeRun, Sturdy, Open;
    RunSturdy(states, ops, j);
    StepOf(states, ops, j);
  }

  lemma StepOf(states: seq<State>, ops: seq<Op>, j: nat)
    requires CodeRun(states, ops) && j < |ops|
    ensures Enabled(states[j], ops[j]) && Does(states[j], ops[j], states[j + 1])
  {}

  lemma {:induction false} SessionIs(states: seq<State>, ops: seq<Op>, k: nat)
    requires SessionRun(states, ops, k)
    ensures Open(states[k], states[1].revision)
    ensures SessionAt(states[k], states[1].revision).ctime == states[0].mono + 1
    ensures SessionAt(states[k], states[1].revision).oldNextId == states[0].nextId
    decreases k
  {
    hide CodeRun, Sturdy, Enabled, Does;
    if k == 1 {
      StepOf(states, ops, 0);
      StartIs(states[0], ops[0], states[1]);
    } else {
      SessionShort(states, ops, k, k - 1);
      SessionIs(states, ops, k - 1);
      OpenKeeps(states[k - 1], ops[k - 1], states[k], states[1].revision);
    }
  }

  lemma StartIs(s: State, op: Op, r: State)
    requires Enabled(s, op) && Does(s, op, r) && op.DoStart?
    ensures r == Start(s)
  {}

  /** Whatever was done in the session, undone in it, or lost: an object that is stamped in it is touched. */
  lemma {:induction false} OnlyTouched(states: seq<State>, ops: seq<Op>, k: nat)
    requires SessionRun(states, ops, k)
    ensures StampedIn(states[k], states[0].mono + 1, TouchedIds(states, ops, k))
    decreases k
  {
    hide CodeRun, Sturdy, Enabled, Does, Open, StampedIn;
    var c := states[0].mono + 1;
    if k == 1 {
      StepOf(states, ops, 0);
      StartIs(states[0], ops[0], states[1]);
      StampedBeforeNow(states[0], c);
      StepStamped(states[0], ops[0], states[1], c, iset{});
      StampedMore(states[1], c, iset{}, TouchedIds(states, ops, 1));
    } else {
      SessionShort(states, ops, k, k - 1);
      OnlyTouched(states, ops, k - 1);
      NewIsLater(states, ops, k - 1);
      var ids := TouchedIds(states, ops, k - 1);
      StepStamped(states[k - 1], ops[k - 1], states[k], c, ids);
      StampedMore(states[k], c, if ops[k - 1].DoModify? then ids + iset{ops[k - 1].id} else ids,
        TouchedIds(states, ops, k));
    }
  }

  lemma StampedMore(s: State, c: nat, ids: iset<nat>, more: iset<nat>)
    requires StampedIn(s, c, ids) && ids <= more
    ensures StampedIn(s, c, more)
  {}

  lemma NewIsLater(states: seq<State>, ops: seq<Op>, k: nat)
    requires SessionRun(states, ops, k)
    ensures states[0].nextId <= states[k].nextId
  {
    hide CodeRun, Sturdy, UsableOld, RemovedBelow;
    SessionShort(states, ops, k, k);
    SessionIs(states, ops, k);
    SturdySane(states[k]);
  }

  // ----- touched means stamped

  lemma StampKept(s: State, op: Op, r: State, c: nat, id: nat)
    requires Enabled(s, op) && Does(s, op, r) && !op.DoUndo? && id in r.main && id < s.nextId
    requires s.stack != [] && c <= Top(s).ctime <= s.mono
    requires (op.DoModify? && op.id == id) || (id in s.main ==> c <= s.main[id].mtime)
    ensures c <= r.main[id].mtime
  {
    hide Fits, KeptOlds, FoldedTable;
  }

  /** If nothing is undone in the session, an object that is touched in it is stamped in it. */
  lemma {:induction false} TouchedIsStamped(states: seq<State>, ops: seq<Op>, k: nat, id: nat)
    requires SessionRun(states, ops, k) && (forall i | 1 <= i < k :: !ops[i].DoUndo?)
    requires id in states[k].main && Touched(states, ops, k, id)
    ensures states[0].mono + 1 <= states[k].main[id].mtime
    decreases k
  {
    hide CodeRun, Sturdy, Enabled, Does, UsableOld, RemovedBelow;
    var revision := states[1].revision;
    SessionIs(states, ops, k);
    SessionShort(states, ops, k, k);
    if states[0].nextId <= id {
      NewIsStamped(states[k], revision - (states[k].revision - |states[k].stack|) - 1, id);
    } else {
      var s, op := states[k - 1], ops[k - 1];
      SessionShort(states, ops, k, k - 1);
      SessionIs(states, ops, k - 1);
      NewIsLater(states, ops, k - 1);
      TopIsLater(s, revision);
      if !(op.DoModify? && op.id == id) && id in s.main {
        TouchedIsStamped(states, ops, k - 1, id);
      }
      StampKept(s, op, states[k], states[0].mono + 1, id);
    }
  }

  lemma TopIsLater(s: State, revision: int)
    requires Sturdy(s) && Open(s, revision)
    ensures s.stack != [] && SessionAt(s, revision).ctime <= Top(s).ctime <= s.mono
    ensures s.revision == revision ==> SessionAt(s, revision) == Top(s)
  {
    hide Sturdy, UsableOld, RemovedBelow;
    SturdyParts(s);
    SturdySane(s);
  }

  // ----- how it ends

  /** Another object has one of the keys of `v`. */
  predicate Conflicts(s: State, id: nat, v: Value) {
    exists other, k: nat | other in s.main && k < s.width :: other != id && Key(s.main[other].value, k) == Key(v, k)
  }

  /** A session is started, anything is done in it, and then a `modify` in it, with no other session open inside it,
    * meets a conflict. The object can only be removed if it is new to the session, or `modify` was called on it in
    * the session, even if in vain. It is then removed, unless something was undone in the session. Otherwise the
    * table stays as it was. */
  lemma ConflictEnds(states: seq<State>, ops: seq<Op>, k: nat)
    requires SessionRun(states, ops, k) && states[k].revision == states[1].revision
    requires ops[k].DoModify? && Conflicts(states[k], ops[k].id, ops[k].v)
    ensures var id, before, after := ops[k].id, Values(states[k].main), Values(states[k + 1].main);
      && id in before && (after == before || after == before - {id})
      && (after == before - {id} ==> Touched(states, ops, k, id))
      && (Touched(states, ops, k, id) && (forall i | 1 <= i < k :: !ops[i].DoUndo?) ==> after == before - {id})
  {
    hide CodeRun, Sturdy, Touched, SessionAt, Open;
    var s, id, v := states[k], ops[k].id, ops[k].v;
    SessionShort(states, ops, k, k);
    SessionIs(states, ops, k);
    TopIsLater(s, states[1].revision);
    EndsBy(s, id, v);
    OnlyTouched(states, ops, k);
    if Touched(states, ops, k, id) && forall i | 1 <= i < k :: !ops[i].DoUndo? {
      TouchedIsStamped(states, ops, k, id);
    }
  }

  lemma EndsBy(s: State, id: nat, v: Value)
    requires id in s.main && Conflicts(s, id, v) && s.stack != []
    ensures Values(Modify(s, id, v).main) ==
      if s.main[id].mtime < Top(s).ctime then Values(s.main) else Values(s.main) - {id}
    ensures id in Values(s.main)
  {
    var other, k: nat :| other in s.main && k < s.width && other != id && Key(s.main[other].value, k) == Key(v, k);
    assert other in s.main - {id} && (s.main - {id})[other] == s.main[other];
    assert !Fits(s.main - {id}, v, s.width);
    hide Fits, Values;
    ModifyTable(s, id, v);
  }
}
