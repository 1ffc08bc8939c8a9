/** The invariant of `undo_index`, and the proof that every operation keeps it.
  *
  * The central fact is that each operation commutes with `Undo`: undoing the top session gives
  * the same table after the operation as it did before. */
module UndoInvariant {
  import opened Basics
  import opened Tables
  import opened UndoModel

  // ----- facts about the oldest relevant backup

  predicate Relevant(e: Entry, id: nat, c: nat) {
    e.id == id && e.row.mtime < c
  }

  lemma {:induction false} OldestFound(olds: seq<Entry>, id: nat, c: nat)
    ensures Oldest(olds, id, c).None? <==> forall e <- olds :: !Relevant(e, id, c)
    ensures Oldest(olds, id, c).Some? ==>
      Entry(id, Oldest(olds, id, c).value) in olds && Oldest(olds, id, c).value.mtime < c
  {
    if olds != [] {
      OldestFound(olds[1..], id, c);
      assert forall e <- olds :: e == olds[0] || e in olds[1..];
      assert olds[0] in olds;
    }
  }

  lemma {:induction false} OldestAppend(a: seq<Entry>, b: seq<Entry>, id: nat, c: nat)
    ensures Oldest(a + b, id, c) == if Oldest(a, id, c).Some? then Oldest(a, id, c) else Oldest(b, id, c)
  {
    if a == [] {
      assert a + b == b;
    } else {
      OldestAppend(a[1..], b, id, c);
      assert (a + b)[1..] == a[1..] + b;
    }
  }

  /** The stamps saved for one id grow along the list. */
  ghost predicate Growing(olds: seq<Entry>) {
    forall i, j | 0 <= i < j < |olds| && olds[i].id == olds[j].id :: olds[i].row.mtime < olds[j].row.mtime
  }

  /** Only the first backup of an id was saved before time `c`. */
  ghost predicate Single(olds: seq<Entry>, c: nat) {
    forall i, j | 0 <= i < j < |olds| && olds[i].id == olds[j].id :: c <= olds[j].row.mtime
  }

  /** The oldest relevant backup is the oldest backup of all, so an earlier deadline finds the same one or none. */
  lemma {:induction false} OldestEarlier(olds: seq<Entry>, id: nat, c: nat, d: nat)
    requires Growing(olds) && c <= d
    ensures Oldest(olds, id, c).Some? ==> Oldest(olds, id, d) == Oldest(olds, id, c)
    ensures Oldest(olds, id, d).Some? && Oldest(olds, id, d).value.mtime < c ==>
      Oldest(olds, id, c) == Oldest(olds, id, d)
  {
    if olds != [] {
      assert Growing(olds[1..]);
      OldestEarlier(olds[1..], id, c, d);
      OldestFound(olds[1..], id, c);
    }
  }

  /** The oldest relevant backup is the smallest stamp saved for its id. */
  lemma {:induction false} OldestLeast(olds: seq<Entry>, id: nat, c: nat)
    requires Growing(olds) && Oldest(olds, id, c).Some?
    ensures forall e <- olds | e.id == id :: Oldest(olds, id, c).value.mtime <= e.row.mtime
  {
    if olds[0].id == id {
      OldestFound(olds[1..], id, c);
      forall e <- olds | e.id == id ensures olds[0].row.mtime <= e.row.mtime {
        var j :| 0 <= j < |olds| && olds[j] == e;
      }
    } else {
      assert Growing(olds[1..]);
      OldestLeast(olds[1..], id, c);
      forall e <- olds | e.id == id ensures e in olds[1..] {
        var j :| 0 <= j < |olds| && olds[j] == e;
        assert olds[1..][j - 1] == e;
      }
    }
  }

  lemma AppendGrowing(a: seq<Entry>, k: seq<Entry>, c: nat)
    requires Growing(a) && Single(a, c) && Growing(k) && Single(k, c)
    requires forall e <- a, f <- k | e.id == f.id :: e.row.mtime < f.row.mtime && c <= f.row.mtime
    ensures Growing(a + k) && Single(a + k, c)
  {
    forall i, j | 0 <= i < j < |a + k| && (a + k)[i].id == (a + k)[j].id
      ensures (a + k)[i].row.mtime < (a + k)[j].row.mtime && c <= (a + k)[j].row.mtime
    {
      if i < |a| <= j {
        assert a[i] in a && k[j - |a|] in k;
      }
    }
  }

  /** A later relevant backup belongs to another id. */
  lemma TailApart(olds: seq<Entry>, c: nat, e: Entry)
    requires Single(olds, c) && olds != [] && e in olds[1..] && e.row.mtime < c
    ensures e.id != olds[0].id
  {
    var j :| 0 <= j < |olds[1..]| && olds[1..][j] == e;
    assert olds[j + 1] == e;
  }

  lemma TailGrowing(olds: seq<Entry>, c: nat)
    requires Growing(olds) && Single(olds, c) && olds != []
    ensures Growing(olds[1..]) && Single(olds[1..], c)
  {}

  // ----- the invariant

  /** Facts about the current table. */
  ghost predicate TableOk(s: State) {
    && (forall id | id in s.main :: id < s.nextId && s.main[id].mtime <= s.mono)
    && Unique(s.main, s.width)
  }

  /** Every backup of an id that is not new to the session belongs to a node that still exists,
    * and undo restores only such backups. */
  ghost predicate BackupsLive(main: Table, t: Session) {
    && (forall e <- t.olds | e.id < t.oldNextId :: e.id in Base(main, t))
    && (forall e <- t.olds | e.row.mtime < t.ctime :: e.id < t.oldNextId)
  }

  /** A node with a backup has been stamped in the session, and later than any of its backups. */
  ghost predicate BackupsOlder(main: Table, t: Session) {
    forall e <- t.olds | e.id in Base(main, t) ::
      e.row.mtime < Base(main, t)[e.id].mtime && t.ctime <= Base(main, t)[e.id].mtime
  }

  /** A node stamped before the session started is not new to it. */
  ghost predicate StampsDatable(main: Table, t: Session) {
    forall id | id in main && main[id].mtime < t.ctime :: id < t.oldNextId
  }

  ghost predicate SessionBounds(s: State, t: Session) {
    && t.ctime <= s.mono
    && t.oldNextId <= s.nextId
    && (forall id | id in t.removed :: id < s.nextId && t.removed[id].mtime <= s.mono)
    && (forall e <- t.olds :: e.id < s.nextId && e.row.mtime <= s.mono)
  }

  ghost predicate TopOk(s: State, t: Session) {
    && SessionBounds(s, t)
    && s.main.Keys !! t.removed.Keys
    && Growing(t.olds) && Single(t.olds, t.ctime)
    && BackupsLive(s.main, t)
    && BackupsOlder(s.main, t)
    && StampsDatable(s.main, t)
  }

  /** Session `b` started before session `t`, and its backups were saved before that. */
  ghost predicate Ordered(b: Session, t: Session) {
    && b.ctime < t.ctime
    && b.oldNextId <= t.oldNextId
    && forall e <- b.olds :: e.row.mtime < t.ctime
  }

  ghost predicate Wf(s: State)
    decreases |s.stack|
  {
    && |s.stack| <= s.revision
    && TableOk(s)
    && (s.stack != [] ==>
          && TopOk(s, Top(s))
          && (|s.stack| > 1 ==> Ordered(Top(Pop(s)), Top(s)))
          && Wf(Undo(s)))
  }

  // ----- raising stamps

  /** `r` is `s` except that some stamps, and the clock, have risen. */
  ghost predicate Raised(s: State, r: State) {
    && r == s.(main := r.main, mono := r.mono)
    && s.mono <= r.mono
    && r.main.Keys == s.main.Keys
    && forall id | id in s.main ::
         r.main[id] == s.main[id]
         || (r.main[id].value == s.main[id].value && s.main[id].mtime <= r.main[id].mtime <= r.mono)
  }

  lemma RaisedUndo(s: State, r: State)
    requires Raised(s, r)
    ensures Raised(Undo(s), Undo(r))
  {}

  lemma RaisedTable(s: State, r: State)
    requires Raised(s, r) && TableOk(s)
    ensures TableOk(r)
  {
    assert Unique(r.main, r.width) by {
      assert Unique(s.main, s.width);
    }
  }

  lemma RaisedShape(s: State, r: State)
    requires Raised(s, r)
    ensures r.stack == s.stack && r.revision == s.revision
  {}

  lemma UndoShape(s: State)
    requires s.stack != []
    ensures Undo(s).stack == Pop(s).stack
  {}

  lemma RaisedTop(s: State, r: State)
    requires Raised(s, r) && TableOk(s) && s.stack != [] && TopOk(s, Top(s))
    ensures TopOk(r, Top(r))
  {}

  lemma {:induction false} RaisedWf(s: State, r: State)
    requires Raised(s, r) && Wf(s)
    ensures Wf(r)
    decreases |s.stack|
  {
    hide Raised, TableOk, TopOk, Undo;
    RaisedTable(s, r);
    RaisedShape(s, r);
    if s.stack != [] {
      RaisedTop(s, r);
      RaisedUndo(s, r);
      RaisedShape(Undo(s), Undo(r));
      UndoShape(s);
      RaisedWf(Undo(s), Undo(r));
    }
  }

  /** The invariant from its parts, for a state whose top session undoes to a risen copy of a good state. */
  lemma WfFrom(below: State, s: State)
    requires s.stack != [] && |s.stack| <= s.revision
    requires TableOk(s) && TopOk(s, Top(s))
    requires |s.stack| > 1 ==> Ordered(Top(Pop(s)), Top(s))
    requires Wf(below) && Raised(below, Undo(s))
    ensures Wf(s)
  {
    RaisedWf(below, Undo(s));
  }

  /** The same for a step that leaves the sessions below the top, and what the top one goes back to. */
  lemma WfStep(s: State, r: State)
    requires Wf(s) && s.stack != [] && r.stack != [] && r.revision == s.revision
    requires Pop(r).stack == Pop(s).stack
    requires Top(r).ctime == Top(s).ctime && Top(r).oldNextId == Top(s).oldNextId
    requires TableOk(r) && TopOk(r, Top(r)) && Undo(r) == Undo(s)
    ensures Wf(r)
  {
    hide TableOk, SessionBounds, Growing, Single, BackupsLive, BackupsOlder, StampsDatable, Undo;
  }

  lemma SameBefore(main: Table, t: Session, main': Table, t': Session)
    requires forall id: nat :: Before(main', t', id) == Before(main, t, id)
    ensures UndoMain(main', t') == UndoMain(main, t)
  {
    var u, u' := UndoMain(main, t), UndoMain(main', t');
    forall id: nat ensures id in u <==> id in u' {
      assert Before(main', t', id) == Before(main, t, id);
    }
  }

  // ----- emplace

  lemma EmplaceUndo(s: State, v: Value)
    requires s.stack != [] && Top(s).oldNextId <= s.nextId
    ensures Undo(Emplace(s, v)) == Undo(s)
  {
    SameBefore(s.main, Top(s), Emplace(s, v).main, Top(s));
  }

  lemma EmplaceEffect(s: State, v: Value)
    ensures var r := Emplace(s, v);
      && r.stack == s.stack && r.revision == s.revision && r.width == s.width && r.mono == s.mono
      && r.nextId == (if Fits(s.main, v, s.width) then s.nextId + 1 else s.nextId)
      && (!Fits(s.main, v, s.width) ==> r == s)
  {}

  lemma EmplaceTop(s: State, v: Value)
    requires s.stack != [] && TableOk(s) && TopOk(s, Top(s))
    ensures TopOk(Emplace(s, v), Top(s))
  {}

  lemma EmplaceTable(s: State, v: Value)
    requires TableOk(s)
    ensures TableOk(Emplace(s, v))
  {}

  lemma EmplaceWf(s: State, v: Value)
    requires Wf(s)
    ensures Wf(Emplace(s, v))
  {
    EmplaceTable(s, v);
    if s.stack != [] {
      EmplaceTop(s, v);
      EmplaceUndo(s, v);
      WfStep(s, Emplace(s, v));
    }
  }

  // ----- remove

  lemma RemoveUndo(s: State, id: nat)
    requires s.stack != [] && id in s.main && s.main.Keys !! Top(s).removed.Keys
    ensures Undo(Remove(s, id)) == Undo(s)
  {
    var r := Remove(s, id);
    SameBefore(s.main, Top(s), r.main, Top(r));
    assert Pop(r).stack == Pop(s).stack;
  }

  lemma RemoveEffect(s: State, id: nat)
    requires id in s.main
    ensures var r := Remove(s, id);
      r.revision == s.revision && r.width == s.width && r.mono == s.mono && r.nextId == s.nextId
  {}

  lemma WfApart(s: State)
    requires Wf(s)
    ensures s.stack != [] ==> s.main.Keys !! Top(s).removed.Keys
  {}

  lemma RemoveTop(s: State, id: nat)
    requires s.stack != [] && id in s.main && TableOk(s) && TopOk(s, Top(s))
    ensures TopOk(Remove(s, id), Top(Remove(s, id)))
  {}

  lemma RemoveTable(s: State, id: nat)
    requires id in s.main && TableOk(s)
    ensures TableOk(Remove(s, id))
  {
    assert forall x | x in s.main - {id} :: (s.main - {id})[x] == s.main[x];
  }

  lemma RemoveWf(s: State, id: nat)
    requires Wf(s) && id in s.main
    ensures Wf(Remove(s, id))
  {
    var r := Remove(s, id);
    RemoveTable(s, id);
    if s.stack != [] {
      RemoveTop(s, id);
      RemoveUndo(s, id);
      assert Pop(r).stack == Pop(s).stack;
      WfStep(s, r);
    }
  }

  // ----- modify

  /** `id` is older than the top session and stamped since it started, but has no backup in it:
    * the trace of a `modify` that was reverted. */
  predicate Poisoned(s: State, id: nat) {
    && s.stack != [] && id in s.main && id < Top(s).oldNextId
    && Top(s).ctime <= s.main[id].mtime
    && Oldest(Top(s).olds, id, Top(s).ctime).None?
  }

  /** What the caller of `modify` must respect. */
  predicate ModifySafe(s: State, id: nat, v: Value)
    requires id in s.main
  {
    Poisoned(s, id) ==> v == s.main[id].value
  }

  /** The state after a first change of `id` in the top session, which leaves a backup. */
  function BackedUp(s: State, id: nat, v: Value): State
    requires s.stack != [] && id in s.main
  {
    WithTop(s, Top(s).(olds := Top(s).olds + [Entry(id, s.main[id])])).(main := s.main[id := Row(v, s.mono)])
  }

  lemma BackupUndo(s: State, id: nat, v: Value)
    requires s.stack != [] && id in s.main && NeedsBackup(s, id) && s.main.Keys !! Top(s).removed.Keys
    ensures Undo(BackedUp(s, id, v)) == Undo(s)
  {
    var r := BackedUp(s, id, v);
    forall x: nat ensures Before(r.main, Top(r), x) == Before(s.main, Top(s), x)
    {
      OldestAppend(Top(s).olds, [Entry(id, s.main[id])], x, Top(s).ctime);
    }
    SameBefore(s.main, Top(s), r.main, Top(r));
    assert Pop(r).stack == Pop(s).stack;
  }

  lemma SingletonGrowing(e: Entry, c: nat)
    ensures Growing([e]) && Single([e], c)
  {}

  lemma BackupTop(s: State, id: nat, v: Value)
    requires s.stack != [] && id in s.main && NeedsBackup(s, id) && TableOk(s) && TopOk(s, Top(s))
    ensures TopOk(BackedUp(s, id, v), Top(BackedUp(s, id, v)))
  {
    var r := BackedUp(s, id, v);
    var e := Entry(id, s.main[id]);
    assert Top(r).olds == Top(s).olds + [e];
    assert forall f <- Top(r).olds :: f in Top(s).olds || f == e;
    assert forall f <- Top(s).olds :: f.id != id;
    SingletonGrowing(e, Top(s).ctime);
    AppendGrowing(Top(s).olds, [e], Top(s).ctime);
    assert forall x :: x in Base(r.main, Top(r)) <==> x in Base(s.main, Top(s));
    assert forall x | x in Base(s.main, Top(s)) && x != id :: Base(r.main, Top(r))[x] == Base(s.main, Top(s))[x];
  }

  /** Without a backup, undo forgets the change of a new row, or restores an older backup. */
  lemma OverwriteUndo(s: State, id: nat, row: Row)
    requires s.stack != [] && id in s.main
    requires ((Top(s).ctime <= s.main[id].mtime && !Poisoned(s, id)) || row == s.main[id])
    requires s.main.Keys !! Top(s).removed.Keys
    ensures Undo(s.(main := s.main[id := row])) == Undo(s)
  {
    SameBefore(s.main, Top(s), s.main[id := row], Top(s));
  }

  lemma OverwriteTop(s: State, id: nat, v: Value)
    requires s.stack != [] && id in s.main && TopOk(s, Top(s))
    ensures TopOk(s.(main := s.main[id := Row(v, s.main[id].mtime)]), Top(s))
  {}

  lemma RevertRaises(s: State, id: nat)
    requires TableOk(s) && id in s.main
    ensures Raised(s, s.(main := s.main[id := Row(s.main[id].value, s.mono)]))
  {}

  lemma FitsUnique(t: Table, id: nat, row: Row, width: nat)
    requires Unique(t, width) && Fits(t - {id}, row.value, width)
    ensures Unique(t[id := row], width)
  {
    var u := t[id := row];
    forall x, y, k: nat | x in u && y in u && x != y && k < width
      ensures Key(u[x].value, k) != Key(u[y].value, k)
    {
      assert x != id ==> x in t - {id} && (t - {id})[x] == t[x];
      assert y != id ==> y in t - {id} && (t - {id})[y] == t[y];
    }
  }

  lemma ChangedTop(s: State, id: nat, v: Value)
    requires s.stack != [] && TableOk(s) && TopOk(s, Top(s))
    requires id in s.main && ModifySafe(s, id, v) && ModifyOutcome(s, id, v).Changed?
    ensures var r := Modify(s, id, v);
      r.stack != [] && TopOk(r, Top(r)) && Pop(r).stack == Pop(s).stack && Undo(r) == Undo(s)
      && Top(r).ctime == Top(s).ctime && Top(r).oldNextId == Top(s).oldNextId
  {
    hide SessionBounds, Growing, Single, BackupsLive, BackupsOlder, StampsDatable;
    var r := Modify(s, id, v);
    if NeedsBackup(s, id) {
      BackupUndo(s, id, v);
      BackupTop(s, id, v);
      assert Pop(r).stack == Pop(s).stack;
    } else {
      OverwriteUndo(s, id, r.main[id]);
      OverwriteTop(s, id, v);
    }
  }

  lemma ModifyChangedWf(s: State, id: nat, v: Value)
    requires Wf(s) && id in s.main && ModifySafe(s, id, v) && ModifyOutcome(s, id, v).Changed?
    ensures Wf(Modify(s, id, v))
  {
    hide TopOk, Unique, Fits;
    var r := Modify(s, id, v);
    FitsUnique(s.main, id, r.main[id], s.width);
    if s.stack != [] {
      ChangedTop(s, id, v);
      WfStep(s, r);
    }
  }

  /** A failed `modify` without a backup removes the object; undo still finds the old value. */
  lemma EraseUndo(s: State, id: nat, v: Value)
    requires s.stack != [] && id in s.main && !Poisoned(s, id) && Top(s).ctime <= s.main[id].mtime
    requires s.main.Keys !! Top(s).removed.Keys
    ensures Undo(Remove(s.(main := s.main[id := Row(v, s.main[id].mtime)]), id)) == Undo(s)
  {
    var w := s.(main := s.main[id := Row(v, s.main[id].mtime)]);
    OverwriteUndo(s, id, w.main[id]);
    RemoveUndo(w, id);
  }

  lemma EraseTop(w: State, id: nat)
    requires w.stack != [] && id in w.main && TopOk(w, Top(w))
    requires forall x | x in w.main :: x < w.nextId && w.main[x].mtime <= w.mono
    ensures TopOk(Remove(w, id), Top(Remove(w, id)))
  {}

  lemma ErasedTop(s: State, id: nat, v: Value)
    requires s.stack != [] && TableOk(s) && TopOk(s, Top(s))
    requires id in s.main && !Poisoned(s, id) && ModifyOutcome(s, id, v).Erased?
    ensures var r := Modify(s, id, v);
      r.stack != [] && TopOk(r, Top(r)) && Pop(r).stack == Pop(s).stack && Undo(r) == Undo(s)
      && Top(r).ctime == Top(s).ctime && Top(r).oldNextId == Top(s).oldNextId
  {
    hide SessionBounds, Growing, Single, BackupsLive, BackupsOlder, StampsDatable;
    EraseUndo(s, id, v);
    OverwriteTop(s, id, v);
    EraseTop(s.(main := s.main[id := Row(v, s.main[id].mtime)]), id);
    assert Pop(Modify(s, id, v)).stack == Pop(s).stack;
  }

  lemma ModifyErasedWf(s: State, id: nat, v: Value)
    requires Wf(s) && id in s.main && !Poisoned(s, id) && ModifyOutcome(s, id, v).Erased?
    ensures Wf(Modify(s, id, v))
  {
    hide TopOk, Unique, Fits;
    var r := Modify(s, id, v);
    assert r.main == s.main - {id};
    RemoveTable(s, id);
    if s.stack != [] {
      ErasedTop(s, id, v);
      WfStep(s, r);
    }
  }

  /** Writing back the value an object already has cannot fail. */
  lemma SameValueFits(s: State, id: nat)
    requires TableOk(s) && id in s.main
    ensures Fits(s.main - {id}, s.main[id].value, s.width)
  {
    assert forall x | x in s.main - {id} :: (s.main - {id})[x] == s.main[x];
  }

  lemma ModifyWf(s: State, id: nat, v: Value)
    requires Wf(s) && id in s.main && ModifySafe(s, id, v)
    ensures Wf(Modify(s, id, v))
  {
    SameValueFits(s, id);
    match ModifyOutcome(s, id, v)
    case Changed => ModifyChangedWf(s, id, v);
    case Reverted => RevertRaises(s, id); RaisedWf(s, Modify(s, id, v));
    case Erased => ModifyErasedWf(s, id, v);
  }

  // ----- sessions

  lemma StartUndo(s: State)
    requires forall id | id in s.main :: id < s.nextId && s.main[id].mtime <= s.mono
    ensures Undo(Start(s)) == s.(mono := s.mono + 1)
  {
    assert Undo(Start(s)).main == s.main;
    assert Undo(Start(s)).stack == s.stack;
  }

  lemma StartWf(s: State)
    requires Wf(s)
    ensures Wf(Start(s))
  {
    StartUndo(s);
    var r := Start(s);
    assert Raised(s, Undo(r));
    if |r.stack| > 1 {
      assert Top(Pop(r)) == Top(s);
    }
    WfFrom(s, r);
  }

  // ----- squash

  /** Undo takes an old node back to a stamp at most its own, and at most any it restores. */
  lemma Undone(main: Table, t: Session, id: nat)
    requires Growing(t.olds) && BackupsOlder(main, t)
    requires id in Base(main, t) && id < t.oldNextId
    ensures id in UndoMain(main, t)
    ensures UndoMain(main, t)[id].mtime <= Base(main, t)[id].mtime
    ensures forall e <- t.olds | Relevant(e, id, t.ctime) :: UndoMain(main, t)[id].mtime <= e.row.mtime
  {
    OldestFound(t.olds, id, t.ctime);
    if Oldest(t.olds, id, t.ctime).Some? {
      OldestLeast(t.olds, id, t.ctime);
    }
  }

  /** Two adjacent sessions, as `Wf` describes them: `t` above `b`, over the table `main`. */
  ghost predicate Stacked(main: Table, t: Session, b: Session) {
    && main.Keys !! t.removed.Keys && Growing(t.olds) && Single(t.olds, t.ctime)
    && BackupsLive(main, t) && BackupsOlder(main, t) && StampsDatable(main, t)
    && Ordered(b, t)
    && var u := UndoMain(main, t);
    && u.Keys !! b.removed.Keys && Growing(b.olds) && Single(b.olds, b.ctime) && BackupsLive(u, b) &&
      BackupsOlder(u, b) && StampsDatable(u, b)
    && (forall id | id in b.removed :: id < t.oldNextId)
    && (forall e <- b.olds :: e.id < t.oldNextId)
  }

  /** `id` is poisoned in session `b` once `t` is undone. */
  predicate PoisonedBelow(main: Table, t: Session, b: Session, id: nat) {
    var u := UndoMain(main, t);
    id in u && id < b.oldNextId && b.ctime <= u[id].mtime && Oldest(b.olds, id, b.ctime).None?
  }

  /** Merging two sessions changes what undo restores only for an id poisoned in the lower one,
    * which then keeps the row it has. */
  lemma MergeBefore(main: Table, t: Session, b: Session, id: nat)
    requires Stacked(main, t, b)
    ensures Before(main, Merge(b, t), id) ==
      if PoisonedBelow(main, t, b, id) then Some(Base(main, t)[id]) else Before(UndoMain(main, t), b, id)
  {
    OldestAppend(b.olds, t.olds, id, b.ctime);
    OldestEarlier(t.olds, id, b.ctime, t.ctime);
    OldestFound(t.olds, id, b.ctime);
    OldestFound(t.olds, id, t.ctime);
    var m := Merge(b, t);
    if id < b.oldNextId {
      assert id in Base(main, m) <==> id in Base(main, t) || id in b.removed;
      assert id in UndoMain(main, t) <==> id in Base(main, t);
    }
  }

  lemma MergeSpaced(main: Table, t: Session, b: Session, e: Entry, f: Entry)
    requires Stacked(main, t, b) && e in b.olds && f in t.olds && e.id == f.id
    ensures e.row.mtime < f.row.mtime && b.ctime <= f.row.mtime
  {
    if f.row.mtime < t.ctime {
      Undone(main, t, f.id);
      assert Relevant(f, f.id, t.ctime);
    }
  }

  lemma MergeGrowing(main: Table, t: Session, b: Session)
    requires Stacked(main, t, b)
    ensures Growing(b.olds + t.olds) && Single(b.olds + t.olds, b.ctime)
  {
    forall e <- b.olds, f <- t.olds | e.id == f.id ensures e.row.mtime < f.row.mtime && b.ctime <= f.row.mtime {
      MergeSpaced(main, t, b, e, f);
    }
    AppendGrowing(b.olds, t.olds, b.ctime);
  }

  lemma MergeLive(main: Table, t: Session, b: Session)
    requires Stacked(main, t, b)
    ensures BackupsLive(main, Merge(b, t))
  {
    var m := Merge(b, t);
    forall e <- m.olds
      ensures (e.id < m.oldNextId ==> e.id in Base(main, m)) && (e.row.mtime < m.ctime ==> e.id < m.oldNextId)
    {
      if e in t.olds && e.row.mtime < m.ctime {
        Undone(main, t, e.id);
        assert Relevant(e, e.id, t.ctime);
      }
    }
  }

  lemma MergeOlder(main: Table, t: Session, b: Session)
    requires Stacked(main, t, b)
    ensures main.Keys !! (b.removed + t.removed).Keys && t.removed.Keys !! b.removed.Keys
    ensures BackupsOlder(main, Merge(b, t)) && StampsDatable(main, Merge(b, t))
  {
    var m := Merge(b, t);
    forall id | id in Base(main, t) && id < t.oldNextId
      ensures id in UndoMain(main, t) && UndoMain(main, t)[id].mtime <= Base(main, t)[id].mtime
    {
      Undone(main, t, id);
    }
    forall e <- m.olds | e.id in Base(main, m) ensures e.row.mtime < Base(main, m)[e.id].mtime {
      if e.id in Base(main, t) {
        assert Base(main, m)[e.id] == Base(main, t)[e.id];
      }
    }
  }

  /** The objects poisoned in the session below still have the values that session knows. */
  ghost predicate SquashSafe(s: State) {
    |s.stack| > 1 ==> forall id | Poisoned(Undo(s), id) :: Base(s.main, Top(s))[id].value == Undo(s).main[id].value
  }

  lemma StackedFromWf(s: State)
    requires Wf(s) && |s.stack| > 1
    ensures Stacked(s.main, Top(s), Top(Pop(s)))
  {
    hide Growing, Single, BackupsLive, BackupsOlder, StampsDatable;
  }

  lemma SquashBefore(s: State, id: nat)
    requires |s.stack| > 1 && Stacked(s.main, Top(s), Top(Pop(s))) && SquashSafe(s) && SessionBounds(s, Top(s))
    requires TableOk(s)
    ensures var x, y := Before(Undo(s).main, Top(Undo(s)), id), Before(s.main, Top(SquashFast(s)), id);
      y == x || (x.Some? && y.Some? && x.value.value == y.value.value && x.value.mtime <= y.value.mtime <= s.mono)
  {
    MergeBefore(s.main, Top(s), Top(Pop(s)), id);
    if PoisonedBelow(s.main, Top(s), Top(Pop(s)), id) {
      assert Poisoned(Undo(s), id);
      Undone(s.main, Top(s), id);
    }
  }

  lemma SquashUndo(s: State)
    requires |s.stack| > 1 && Stacked(s.main, Top(s), Top(Pop(s))) && SquashSafe(s) && SessionBounds(s, Top(s))
    requires TableOk(s)
    ensures Raised(Undo(Undo(s)), Undo(SquashFast(s)))
  {
    hide Stacked, SquashSafe, SessionBounds, TableOk, Before;
    var t, b, r := Top(s), Top(Pop(s)), SquashFast(s);
    assert Pop(r).stack == Pop(Pop(s)).stack;
    forall id: nat ensures
        var x, y := Before(Undo(s).main, b, id), Before(s.main, Top(r), id);
        y == x || (x.Some? && y.Some? && x.value.value == y.value.value && x.value.mtime <= y.value.mtime <= s.mono)
    {
      SquashBefore(s, id);
    }
    SomeInUndo(Undo(s).main, b);
    SomeInUndo(s.main, Top(r));
  }

  /** `UndoMain` holds exactly the ids that have a row before the session. */
  lemma SomeInUndo(main: Table, t: Session)
    ensures forall id: nat :: id in UndoMain(main, t) <==> Before(main, t, id).Some?
  {}

  lemma SquashFastWf(s: State)
    requires Wf(s) && SquashSafe(s)
    ensures Wf(SquashFast(s))
  {
    hide Stacked, Growing, Single, BackupsLive, BackupsOlder, StampsDatable, SquashSafe;
    if |s.stack| > 1 {
      var t, b, r := Top(s), Top(Pop(s)), SquashFast(s);
      StackedFromWf(s);
      SquashUndo(s);
      MergeGrowing(s.main, t, b);
      MergeLive(s.main, t, b);
      MergeOlder(s.main, t, b);
      assert TopOk(r, Top(r));
      assert Pop(r).stack == Pop(Pop(s)).stack == Pop(Undo(s)).stack;
      WfFrom(Undo(Undo(s)), r);
    }
  }

  // ----- compression

  /** Session `t` with only its newest entries compressed: `olds[from..]`, and the removed nodes in `gone`. */
  function Compressed(t: Session, from: nat, gone: set<nat>): Session
    requires from <= |t.olds|
  {
    t.(olds := t.olds[..from] + KeptOlds(t.olds[from..], t.ctime, gone),
       removed := map id | id in t.removed && (id in gone ==> id < t.oldNextId) ::
         if id in gone then Oldest(t.olds[from..], id, t.ctime).GetOr(t.removed[id]) else t.removed[id])
  }

  lemma CompressLastIs(s: State)
    requires s.stack != []
    ensures CompressLast(s) == WithTop(s, Compressed(Top(s), 0, Top(s).removed.Keys))
  {
    var t := Top(s);
    var r := Compressed(t, 0, t.removed.Keys);
    assert t.olds[0..] == t.olds;
    assert r.olds == KeptOlds(t.olds, t.ctime, t.removed.Keys);
    assert r.removed == Top(CompressLast(s)).removed;
    assert CompressLast(s).stack == WithTop(s, Compressed(Top(s), 0, Top(s).removed.Keys)).stack;
  }

  /** Compressing before the merge is compressing the newer part of the merged session. */
  lemma SquashIs(s: State)
    requires |s.stack| > 1 && Top(s).removed.Keys !! Top(Pop(s)).removed.Keys
    ensures Squash(s) == WithTop(SquashFast(s),
      Compressed(Merge(Top(Pop(s)), Top(s)), |Top(Pop(s)).olds|, Top(s).removed.Keys))
  {
    var t, b := Top(s), Top(Pop(s));
    var c := CompressImpl(s, b.ctime, b.oldNextId);
    assert Pop(c).stack == Pop(s).stack;
    assert Merge(b, t).olds[|b.olds|..] == t.olds && Merge(b, t).olds[..|b.olds|] == b.olds;
    assert Merge(b, Top(c)).removed == Compressed(Merge(b, t), |b.olds|, t.removed.Keys).removed;
    assert Merge(b, Top(c)) == Compressed(Merge(b, t), |b.olds|, t.removed.Keys);
  }

  lemma {:induction false} KeptMember(olds: seq<Entry>, c: nat, gone: set<nat>, e: Entry)
    ensures e in KeptOlds(olds, c, gone) <==> e in olds && e.row.mtime < c && e.id !in gone
  {
    if olds != [] {
      KeptMember(olds[1..], c, gone, e);
      assert e in olds <==> e == olds[0] || e in olds[1..];
    }
  }

  lemma {:induction false} KeptGrowing(olds: seq<Entry>, c: nat, gone: set<nat>)
    requires Growing(olds) && Single(olds, c)
    ensures Growing(KeptOlds(olds, c, gone)) && Single(KeptOlds(olds, c, gone), c)
  {
    hide Growing, Single;
    if olds == [] {
      assert KeptOlds(olds, c, gone) == olds;
    } else {
      var rest := KeptOlds(olds[1..], c, gone);
      TailGrowing(olds, c);
      KeptGrowing(olds[1..], c, gone);
      if olds[0].row.mtime < c && olds[0].id !in gone {
        forall e <- rest ensures e.id != olds[0].id {
          KeptMember(olds[1..], c, gone, e);
          TailApart(olds, c, e);
        }
        SingletonGrowing(olds[0], c);
        AppendGrowing([olds[0]], rest, c);
      } else {
        assert KeptOlds(olds, c, gone) == rest;
      }
    }
  }

  lemma {:induction false} KeptOldest(olds: seq<Entry>, c: nat, gone: set<nat>, id: nat)
    ensures Oldest(KeptOlds(olds, c, gone), id, c) == if id in gone then None else Oldest(olds, id, c)
  {
    if olds != [] {
      KeptOldest(olds[1..], c, gone, id);
      var rest := KeptOlds(olds[1..], c, gone);
      if olds[0].row.mtime < c && olds[0].id !in gone {
        assert KeptOlds(olds, c, gone)[1..] == rest;
      } else {
        assert KeptOlds(olds, c, gone) == rest;
      }
    }
  }

  /** `gone` names the removed nodes whose relevant backups lie in `t.olds[from..]`. */
  ghost predicate Compressible(main: Table, t: Session, from: nat, gone: set<nat>) {
    && from <= |t.olds|
    && gone <= t.removed.Keys
    && (forall e <- t.olds[from..] | e.row.mtime < t.ctime && e.id in t.removed :: e.id in gone)
  }

  lemma CompressedBefore(main: Table, t: Session, from: nat, gone: set<nat>, id: nat)
    requires Compressible(main, t, from, gone) && main.Keys !! t.removed.Keys
    ensures Before(main, Compressed(t, from, gone), id) == Before(main, t, id)
  {
    var a, b := t.olds[..from], t.olds[from..];
    assert t.olds == a + b;
    OldestAppend(a, b, id, t.ctime);
    OldestAppend(a, KeptOlds(b, t.ctime, gone), id, t.ctime);
    KeptOldest(b, t.ctime, gone, id);
  }

  lemma CompressedMember(t: Session, from: nat, gone: set<nat>, e: Entry)
    requires from <= |t.olds| && e in Compressed(t, from, gone).olds
    ensures e in t.olds && (e in t.olds[..from] || e.id !in gone)
  {
    KeptMember(t.olds[from..], t.ctime, gone, e);
  }

  /** A later backup that is still usable belongs to another id. */
  lemma FirstApart(t: Session, from: nat, e: Entry, f: Entry)
    requires from <= |t.olds| && Single(t.olds, t.ctime)
    requires e in t.olds[..from] && f in t.olds[from..] && f.row.mtime < t.ctime
    ensures e.id != f.id
  {
    var i :| 0 <= i < from && t.olds[i] == e;
    var j :| from <= j < |t.olds| && t.olds[j] == f;
  }

  lemma CompressedGrowing(t: Session, from: nat, gone: set<nat>)
    requires from <= |t.olds| && Growing(t.olds) && Single(t.olds, t.ctime)
    ensures Growing(Compressed(t, from, gone).olds) && Single(Compressed(t, from, gone).olds, t.ctime)
  {
    var a, b := t.olds[..from], t.olds[from..];
    var k := KeptOlds(b, t.ctime, gone);
    KeptGrowing(b, t.ctime, gone);
    assert Growing(a) && Single(a, t.ctime);
    forall e <- a, f <- k ensures e.id != f.id {
      KeptMember(b, t.ctime, gone, f);
      FirstApart(t, from, e, f);
    }
    hide Growing, Single;
    AppendGrowing(a, k, t.ctime);
  }

  lemma CompressedOlder(main: Table, t: Session, from: nat, gone: set<nat>)
    requires Compressible(main, t, from, gone) && main.Keys !! t.removed.Keys
    requires Growing(t.olds) && Single(t.olds, t.ctime) && BackupsOlder(main, t)
    ensures BackupsOlder(main, Compressed(t, from, gone))
  {
    var r := Compressed(t, from, gone);
    var a, b := t.olds[..from], t.olds[from..];
    forall e <- r.olds | e.id in Base(main, r)
      ensures e.row.mtime < Base(main, r)[e.id].mtime && t.ctime <= Base(main, r)[e.id].mtime
    {
      CompressedMember(t, from, gone, e);
      if e.id in gone {
        OldestFound(b, e.id, t.ctime);
        forall f <- b ensures !Relevant(f, e.id, t.ctime) {
          if Relevant(f, e.id, t.ctime) {
            FirstApart(t, from, e, f);
          }
        }
      }
    }
  }

  lemma CompressedLive(main: Table, t: Session, from: nat, gone: set<nat>)
    requires Compressible(main, t, from, gone) && BackupsLive(main, t)
    ensures BackupsLive(main, Compressed(t, from, gone))
  {
    forall e <- Compressed(t, from, gone).olds ensures e in t.olds {
      CompressedMember(t, from, gone, e);
    }
  }

  lemma CompressedBounds(s: State, t: Session, from: nat, gone: set<nat>)
    requires Compressible(s.main, t, from, gone) && SessionBounds(s, t)
    ensures SessionBounds(s, Compressed(t, from, gone))
  {
    var r := Compressed(t, from, gone);
    forall e <- r.olds ensures e in t.olds {
      CompressedMember(t, from, gone, e);
    }
    forall id | id in r.removed ensures r.removed[id].mtime <= s.mono {
      OldestFound(t.olds[from..], id, t.ctime);
    }
  }

  lemma CompressedUndo(s: State, from: nat, gone: set<nat>)
    requires s.stack != [] && s.main.Keys !! Top(s).removed.Keys && Compressible(s.main, Top(s), from, gone)
    ensures Undo(WithTop(s, Compressed(Top(s), from, gone))) == Undo(s)
  {
    var r := WithTop(s, Compressed(Top(s), from, gone));
    forall id: nat ensures Before(r.main, Top(r), id) == Before(s.main, Top(s), id) {
      CompressedBefore(s.main, Top(s), from, gone, id);
    }
    SameBefore(s.main, Top(s), r.main, Top(r));
    assert Pop(r).stack == Pop(s).stack;
  }

  lemma CompressedWf(s: State, from: nat, gone: set<nat>)
    requires Wf(s) && s.stack != [] && Compressible(s.main, Top(s), from, gone)
    ensures Wf(WithTop(s, Compressed(Top(s), from, gone)))
    ensures Undo(WithTop(s, Compressed(Top(s), from, gone))) == Undo(s)
  {
    hide SessionBounds, Growing, Single, BackupsLive, BackupsOlder;
    var t := Top(s);
    var r := WithTop(s, Compressed(t, from, gone));
    CompressedUndo(s, from, gone);
    CompressedGrowing(t, from, gone);
    CompressedOlder(s.main, t, from, gone);
    CompressedLive(s.main, t, from, gone);
    CompressedBounds(s, t, from, gone);
    assert SessionBounds(r, Top(r)) by {
      BoundsAlike(s, r, Top(r));
    }
    assert Pop(r).stack == Pop(s).stack;
    WfStep(s, r);
  }

  lemma BoundsAlike(s: State, r: State, t: Session)
    requires SessionBounds(s, t) && r.nextId == s.nextId && r.mono == s.mono
    ensures SessionBounds(r, t)
  {}

  /** Compression of the top session's part of a merged session does not change what undo gives. */
  lemma SquashCompressible(s: State)
    requires |s.stack| > 1 && Stacked(s.main, Top(s), Top(Pop(s)))
    ensures Compressible(s.main, Top(SquashFast(s)), |Top(Pop(s)).olds|, Top(s).removed.Keys)
    ensures Undo(Squash(s)) == Undo(SquashFast(s))
  {
    var t, b := Top(s), Top(Pop(s));
    assert Merge(b, t).olds[|b.olds|..] == t.olds;
    MergeOlder(s.main, t, b);
    SquashIs(s);
    CompressedUndo(SquashFast(s), |b.olds|, t.removed.Keys);
  }

  lemma CompressLastWf(s: State)
    requires Wf(s) && s.stack != []
    ensures Wf(CompressLast(s)) && Undo(CompressLast(s)) == Undo(s)
  {
    CompressLastIs(s);
    CompressedWf(s, 0, Top(s).removed.Keys);
  }

  /** Squashing with compression leaves the same tables below as squashing without. */
  lemma SquashWf(s: State)
    requires Wf(s) && SquashSafe(s)
    ensures Wf(Squash(s)) && Undo(Squash(s)) == Undo(SquashFast(s))
  {
    hide Stacked;
    SquashFastWf(s);
    if |s.stack| > 1 {
      StackedFromWf(s);
      SquashCompressible(s);
      MergeOlder(s.main, Top(s), Top(Pop(s)));
      SquashIs(s);
      CompressedWf(SquashFast(s), |Top(Pop(s)).olds|, Top(s).removed.Keys);
    }
  }

  // ----- undo, commit, set_revision

  lemma UndoWf(s: State)
    requires Wf(s)
    ensures Wf(Undo(s))
  {}

  /** `s` with only its newest `n` sessions. */
  function Keep(s: State, n: nat): State
    requires n <= |s.stack|
  {
    s.(stack := s.stack[|s.stack| - n..])
  }

  lemma KeepUndo(s: State, n: nat)
    requires 0 < n <= |s.stack|
    ensures Undo(Keep(s, n)) == Keep(Undo(s), n - 1)
  {
    assert Undo(Keep(s, n)).stack == Keep(Undo(s), n - 1).stack;
  }

  lemma {:induction false} KeepWf(s: State, n: nat)
    requires Wf(s) && n <= |s.stack|
    ensures Wf(Keep(s, n))
    decreases |s.stack|
  {
    if n > 0 {
      KeepUndo(s, n);
      KeepWf(Undo(s), n - 1);
      var r := Keep(s, n);
      assert Top(r) == Top(s);
      if n > 1 {
        assert Top(Pop(r)) == Top(Pop(s));
      }
      WfFrom(Undo(r), r);
    }
  }

  /** How many sessions `commit` keeps. */
  function Kept(s: State, revision: nat): nat
    requires |s.stack| <= s.revision
  {
    if s.revision <= revision then 0
    else if s.revision - revision < |s.stack| then s.revision - revision
    else |s.stack|
  }

  lemma CommitKeeps(s: State, revision: nat)
    requires |s.stack| <= s.revision
    ensures Commit(s, revision) == Keep(s, Kept(s, revision))
  {}

  lemma CommitWf(s: State, revision: nat)
    requires Wf(s)
    ensures Wf(Commit(s, revision))
  {
    CommitKeeps(s, revision);
    KeepWf(s, Kept(s, revision));
  }

  lemma SetRevisionWf(s: State, revision: nat)
    requires Wf(s)
    ensures Wf(SetRevision(s, revision))
  {}
}
