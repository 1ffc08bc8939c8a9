/** The database: its list of tables, and sessions over all of them. */
module Database {
  import opened UndoModel
  import opened UndoInvariant
  import opened UndoLosses
  import opened UndoRefinement
  import opened DatabaseModel
  import opened UndoIndex

  ghost function Models(tables: seq<Table>): (r: seq<State>)
    reads tables
    ensures |r| == |tables| && forall i | 0 <= i < |tables| :: r[i] == tables[i].model
  {
    seq(|tables|, i requires 0 <= i < |tables| reads tables => tables[i].model)
  }

  predicate Different(tables: seq<Table>) {
    forall i, j | 0 <= i < j < |tables| :: tables[i] != tables[j]
  }

  /** Every table is in order, and all are in lockstep. */
  ghost predicate Sound(tables: seq<Table>)
    reads tables
  {
    Different(tables) && (forall t <- tables :: t.Valid()) && Lockstep(Models(tables))
  }

  // ----- one operation after the other on every table

  ghost predicate Is(t: Table, s: State)
    reads t
  {
    t.Valid() && t.model == s
  }

  /** What undo leaves: in order unless some session still has a backup of a lost object. */
  ghost predicate IsUndone(t: Table, was: State)
    reads t
  {
    t.Shown() && UndoesTo(was, t.model) && (t.Valid() <==> !Dangles(t.model, LostIn(was, t.model)))
  }

  /** From the states `was`, the first `i` tables have done `op`; the others are as they were. */
  ghost predicate Doing(was: seq<State>, tables: seq<Table>, op: Op, i: nat)
    requires Global(op)
    reads tables
  {
    && |was| == |tables|
    && (forall j | 0 <= j < |tables| && j < i :: Is(tables[j], Step(was[j], op)))
    && (forall j | i <= j < |tables| :: Is(tables[j], was[j]))
  }

  /** The same for undo. */
  ghost predicate Undoing(was: seq<State>, tables: seq<Table>, i: nat)
    reads tables
  {
    && |was| == |tables|
    && (forall j | 0 <= j < |tables| && j < i :: IsUndone(tables[j], was[j]))
    && (forall j | i <= j < |tables| :: Is(tables[j], was[j]))
  }

  ghost predicate UndoingAll(was: seq<State>, tables: seq<Table>, i: nat)
    reads tables
  {
    && |was| == |tables|
    && (forall j | 0 <= j < |tables| && j < i :: tables[j].Valid() && UndoesAll(was[j], tables[j].model))
    && (forall j | i <= j < |tables| :: Is(tables[j], was[j]))
  }

  lemma NextTable(was: seq<State>, tables: seq<Table>, i: nat)
    requires Different(tables) && i < |was| == |tables| && Is(tables[i], was[i])
    ensures tables[i].Valid() && tables[i].model == was[i]
    ensures forall j | 0 <= j < |tables| && j != i :: tables[j] != tables[i]
  {}

  lemma NowIs(t: Table, s: State)
    requires t.Valid() && t.model == s
    ensures Is(t, s)
  {}

  lemma NowUndone(t: Table, was: State)
    requires t.Shown() && UndoesTo(was, t.model) && (t.Valid() <==> !Dangles(t.model, LostIn(was, t.model)))
    ensures IsUndone(t, was)
  {}

  lemma Begins(tables: seq<Table>)
    requires Sound(tables)
    ensures Lockstep(Models(tables)) && Different(tables)
    ensures forall op | Global(op) :: Doing(Models(tables), tables, op, 0)
  {
    hide Table.Valid, Lockstep, Step;
  }

  lemma BeginsUndo(tables: seq<Table>)
    requires Sound(tables)
    ensures var was := Models(tables);
      Lockstep(was) && Different(tables) && Undoing(was, tables, 0) && UndoingAll(was, tables, 0)
  {
    hide Table.Valid, Lockstep;
  }

  lemma Done(was: seq<State>, tables: seq<Table>, op: Op)
    requires Global(op) && Lockstep(was) && Different(tables) && Doing(was, tables, op, |tables|)
    ensures Sound(tables) && Models(tables) == All(was, op)
  {
    hide Step, Lockstep, Table.Valid;
    LockstepKept(was, op);
    assert Models(tables) == All(was, op);
  }

  lemma DoneUndo(was: seq<State>, tables: seq<Table>)
    requires Lockstep(was) && Different(tables) && Undoing(was, tables, |tables|)
    ensures DbUndoesTo(was, Models(tables)) && Lockstep(Models(tables)) && forall t <- tables :: t.Shown()
    ensures Sound(tables) <==> DbGoesOn(was, Models(tables))
  {
    hide Lockstep, Table.Valid, Table.Shown, UndoesTo, Dangles;
    assert DbUndoesTo(was, Models(tables));
    DbUndoneLockstep(was, Models(tables));
    assert (forall t <- tables :: t.Valid()) <==> forall i | 0 <= i < |tables| :: tables[i].Valid();
  }

  lemma DoneUndoAll(was: seq<State>, tables: seq<Table>)
    requires Lockstep(was) && Different(tables) && UndoingAll(was, tables, |tables|)
    ensures DbUndoesAll(was, Models(tables)) && Sound(tables)
  {
    hide Lockstep, Table.Valid, UndoesAll;
    assert DbUndoesAll(was, Models(tables));
    DbUndoneLockstep(was, Models(tables));
  }

  // ----- sessions

  /** `undo_index::session` */
  class IndexSession {
    const index: Table
    var apply: bool

    constructor (index: Table, enabled: bool)
      requires index.Valid()
      modifies index
      ensures this.index == index && apply == enabled
      ensures index.Valid() && index.model == if enabled then Start(old(index.model)) else old(index.model)
    {
      this.index := index;
      apply := enabled;
      new;
      if enabled {
        index.StartSession();
      }
    }

    method Push()
      modifies this
      ensures !apply
    {
      apply := false;
    }

    method Squash()
      requires index.Valid()
      modifies this, index
      ensures !apply && index.Valid()
      ensures index.model == if old(apply) then UndoModel.Squash(old(index.model)) else old(index.model)
    {
      if apply {
        index.Squash();
      }
      apply := false;
    }

    method Undo()
      requires index.Valid()
      modifies this, index
      ensures !apply && index.Shown()
      ensures if old(apply) then UndoesTo(old(index.model), index.model) else index.model == old(index.model)
      ensures index.Valid() <==> (old(apply) ==> !Dangles(index.model, LostIn(old(index.model), index.model)))
    {
      hide Table.Valid, Table.Shown, UndoesTo, Dangles;
      ValidIsShown(index);
      if apply {
        index.Undo();
      }
      apply := false;
    }
  }

  /** The sub-sessions are those of the tables, one each. */
  predicate Paired(subs: seq<IndexSession>, tables: seq<Table>) {
    && |subs| == |tables|
    && (forall i, j | 0 <= i < j < |subs| :: subs[i] != subs[j])
    && (forall i | 0 <= i < |subs| :: subs[i].index == tables[i])
  }

  ghost predicate ApplyFrom(subs: seq<IndexSession>, i: nat)
    reads subs
  {
    forall j | 0 <= j < |subs| :: subs[j].apply <==> i <= j
  }

  /** Sessions of the first `i` tables have been started. */
  ghost predicate Opened(subs: seq<IndexSession>, tables: seq<Table>, i: nat)
    reads subs
  {
    i <= |tables| && Paired(subs, tables[..i]) && ApplyFrom(subs, 0)
  }

  lemma OpenedNone(tables: seq<Table>)
    ensures Opened([], tables, 0)
  {}

  lemma OpenedAll(subs: seq<IndexSession>, tables: seq<Table>)
    requires Opened(subs, tables, |tables|)
    ensures Paired(subs, tables) && ApplyFrom(subs, 0)
  {
    assert tables[..|tables|] == tables;
  }

  lemma OpenedMore(subs: seq<IndexSession>, tables: seq<Table>, i: nat, sub: IndexSession)
    requires Opened(subs, tables, i) && i < |tables| && sub !in subs && sub.apply && sub.index == tables[i]
    ensures Opened(subs + [sub], tables, i + 1)
  {}

  /** The loop of `database::session::squash`. */
  method SquashEach(subs: seq<IndexSession>, ghost tables: seq<Table>)
    requires Paired(subs, tables) && ApplyFrom(subs, 0) && Sound(tables)
    modifies subs, tables
    ensures forall s <- subs :: !s.apply
    ensures Sound(tables) && Models(tables) == All(old(Models(tables)), DoSquash)
  {
    hide UndoModel.Squash, Table.Valid, Lockstep, Step, All, Is, Sound, Models, Different;
    ghost var was := Models(tables);
    Begins(tables);
    for i := 0 to |subs|
      invariant Doing(was, tables, DoSquash, i)
      invariant ApplyFrom(subs, i)
    {
      NextTable(was, tables, i);
      StepIs(was[i], 0);
      subs[i].Squash();
      NowIs(tables[i], Step(was[i], DoSquash));
    }
    Done(was, tables, DoSquash);
  }

  /** The loop of `database::session::undo`. */
  method UndoEach(subs: seq<IndexSession>, ghost tables: seq<Table>)
    requires Paired(subs, tables) && ApplyFrom(subs, 0) && Sound(tables)
    modifies subs, tables
    ensures forall s <- subs :: !s.apply
    ensures DbUndoesTo(old(Models(tables)), Models(tables)) && Lockstep(Models(tables))
    ensures forall t <- tables :: t.Shown()
    ensures Sound(tables) <==> DbGoesOn(old(Models(tables)), Models(tables))
  {
    hide Table.Valid, Table.Shown, Lockstep, UndoesTo, Dangles, Is, IsUndone, Sound, Models, Different, DbUndoesTo,
      DbGoesOn;
    ghost var was := Models(tables);
    BeginsUndo(tables);
    for i := 0 to |subs|
      invariant Undoing(was, tables, i)
      invariant ApplyFrom(subs, i)
    {
      NextTable(was, tables, i);
      subs[i].Undo();
      NowUndone(tables[i], was[i]);
    }
    DoneUndo(was, tables);
  }

  /** `database::session`. Once it is pushed, squashed or undone it does nothing any more. */
  class Session {
    var subs: seq<IndexSession>
    ghost var tables: seq<Table>

    ghost predicate Valid()
      reads this, subs
    {
      Paired(subs, tables) && ApplyFrom(subs, 0)
    }

    constructor (subs: seq<IndexSession>, ghost tables: seq<Table>)
      ensures this.subs == subs && this.tables == tables
    {
      this.subs := subs;
      this.tables := tables;
    }

    /** Leaves the session on the undo stacks of the tables. */
    method Push()
      requires Valid()
      modifies this, subs
      ensures Valid() && subs == [] && tables == []
      // no sub-session undoes anything when it is destroyed
      ensures forall s <- old(subs) :: !s.apply
    {
      for i := 0 to |subs|
        invariant subs == old(subs)
        invariant forall j | 0 <= j < i :: !subs[j].apply
      {
        subs[i].Push();
      }
      subs, tables := [], [];
    }

    method Squash()
      requires Valid() && Sound(tables)
      modifies this, subs, tables
      ensures Valid() && subs == [] && tables == []
      ensures forall s <- old(subs) :: !s.apply
      ensures Sound(old(tables)) && Models(old(tables)) == All(old(Models(tables)), DoSquash)
    {
      hide Sound, All;
      SquashEach(subs, tables);
      subs, tables := [], [];
    }

    method Undo()
      requires Valid() && Sound(tables)
      modifies this, subs, tables
      ensures Valid() && subs == [] && tables == []
      ensures forall s <- old(subs) :: !s.apply
      ensures DbUndoesTo(old(Models(tables)), Models(old(tables))) && Lockstep(Models(old(tables)))
      ensures forall t <- old(tables) :: t.Shown()
      ensures Sound(old(tables)) <==> DbGoesOn(old(Models(tables)), Models(old(tables)))
    {
      hide Sound, Table.Shown, Lockstep, DbUndoesTo, DbGoesOn;
      UndoEach(subs, tables);
      subs, tables := [], [];
    }
  }

  // ----- the database

  datatype AddResult = TableAdded(table: Table) | TypeInUse | Inconsistent

  class Database {
    var indexMap: map<nat, Table>
    var tables: seq<Table>  // _index_list

    ghost predicate Valid()
      reads this, tables
    {
      Sound(tables)
    }

    constructor ()
      ensures Valid() && tables == [] && indexMap == map[]
    {
      indexMap, tables := map[], [];
    }

    /** -1 without tables; otherwise the revision of every table. */
    method Revision() returns (r: int)
      requires Valid()
      ensures r == if tables == [] then -1 else tables[0].model.revision
      ensures forall t <- tables :: t.model.revision == r
    {
      if |tables| == 0 {
        return -1;
      }
      assert tables[0] in tables;
      assert forall i | 0 <= i < |tables| :: RangeOf(Models(tables)[i]) == RangeOf(Models(tables)[0]);
      r := tables[0].Revision();
    }

    /** Undoes every table. All stay in order unless in some of them a session still has a backup of an object
      * that was lost. */
    method Undo()
      requires Valid()
      modifies tables
      ensures DbUndoesTo(old(Models(tables)), Models(tables)) && Lockstep(Models(tables))
      ensures forall t <- tables :: t.Shown()
      ensures Valid() <==> DbGoesOn(old(Models(tables)), Models(tables))
    {
      hide Table.Valid, Table.Shown, Lockstep, UndoesTo, Dangles, Is, IsUndone, Sound, Models, Different, DbUndoesTo,
        DbGoesOn;
      ghost var was := Models(tables);
      BeginsUndo(tables);
      for i := 0 to |tables|
        invariant Undoing(was, tables, i)
      {
        NextTable(was, tables, i);
        tables[i].Undo();
        NowUndone(tables[i], was[i]);
      }
      DoneUndo(was, tables);
    }

    method Squash()
      requires Valid()
      modifies tables
      ensures Valid() && Models(tables) == All(old(Models(tables)), DoSquash)
    {
      hide UndoModel.Squash, Table.Valid, Lockstep, Step, All, Is, Sound, Models, Different;
      ghost var was := Models(tables);
      Begins(tables);
      for i := 0 to |tables|
        invariant Doing(was, tables, DoSquash, i)
      {
        NextTable(was, tables, i);
        StepIs(was[i], 0);
        tables[i].Squash();
        NowIs(tables[i], Step(was[i], DoSquash));
      }
      Done(was, tables, DoSquash);
    }

    /** A table takes its argument as an unsigned number, so a negative one is a very late revision. */
    method Commit(revision: int)
      requires Valid() && -0x8000_0000_0000_0000 <= revision < 0x8000_0000_0000_0000
      modifies tables
      ensures Valid() && Models(tables) == All(old(Models(tables)), DoCommit(Unsigned(revision)))
      ensures 0 <= revision ==> Models(tables) == All(old(Models(tables)), DoCommit(revision))
      // with a negative argument no session stays, as no table gets as far as that revision
      ensures revision < 0 ==> forall t <- tables | old(t.model.revision) < 0x8000_0000_0000_0000 ::
        t.model == old(t.model).(stack := [])
    {
      hide UndoModel.Commit, Unsigned, Table.Valid, Lockstep, Step, All, Is, Sound, Models, Different;
      ghost var was := Models(tables);
      var r := Unsigned(revision);
      UnsignedIs(revision);
      CommitsAll(was, r);
      Begins(tables);
      for i := 0 to |tables|
        invariant Doing(was, tables, DoCommit(r), i)
      {
        NextTable(was, tables, i);
        StepIs(was[i], r);
        tables[i].Commit(r);
        NowIs(tables[i], Step(was[i], DoCommit(r)));
      }
      Done(was, tables, DoCommit(r));
    }

    /** Undoes every session of every table, if no undo but the last of a table loses an object of which a session
      * still has a backup. */
    method UndoAll()
      requires Valid() && forall i | 0 <= i < |tables| :: NeverDangles(tables[i].model)
      modifies tables
      ensures Valid() && DbUndoesAll(old(Models(tables)), Models(tables))
    {
      hide Table.Valid, Lockstep, UndoesAll, Is, NeverDangles, Sound, Models, Different, DbUndoesAll;
      ghost var was := Models(tables);
      BeginsUndo(tables);
      assert forall i | 0 <= i < |tables| :: NeverDangles(was[i]);
      for i := 0 to |tables|
        invariant UndoingAll(was, tables, i)
      {
        NextTable(was, tables, i);
        tables[i].UndoAll();
      }
      DoneUndoAll(was, tables);
    }

    /** The new session covers every table, or none if it is not enabled. */
    method StartSession(enabled: bool) returns (s: Session)
      requires Valid()
      modifies tables
      ensures Valid() && fresh(s) && s.Valid() && fresh(s.subs)
      ensures s.tables == if enabled then tables else []
      ensures Models(tables) == if enabled then All(old(Models(tables)), DoStart) else old(Models(tables))
    {
      if !enabled {
        s := new Session([], []);
        return;
      }
      s := StartEnabled();
    }

    method StartEnabled() returns (s: Session)
      requires Valid()
      modifies tables
      ensures Valid() && fresh(s) && s.Valid() && fresh(s.subs) && s.tables == tables
      ensures Models(tables) == All(old(Models(tables)), DoStart)
    {
      hide Table.Valid, Lockstep, Step, Start, All, Is, Sound, Models, Different, Opened, Paired, ApplyFrom;
      ghost var was := Models(tables);
      Begins(tables);
      OpenedNone(tables);
      var subs: seq<IndexSession> := [];
      for i := 0 to |tables|
        invariant Doing(was, tables, DoStart, i)
        invariant fresh(subs) && Opened(subs, tables, i)
      {
        NextTable(was, tables, i);
        StepIs(was[i], 0);
        var sub := new IndexSession(tables[i], true);
        NowIs(tables[i], Step(was[i], DoStart));
        OpenedMore(subs, tables, i, sub);
        subs := subs + [sub];
      }
      Done(was, tables, DoStart);
      OpenedAll(subs, tables);
      s := new Session(subs, tables);
    }

    /** `set_revision`; false stands for the exception, which no table survives changed. */
    method SetRevision(r: nat) returns (ok: bool)
      requires Valid()
      modifies tables
      ensures Valid()
      ensures ok <==> forall t <- tables :: old(t.model.stack) == [] && old(t.model.revision) <= r
      ensures ok ==> forall t <- tables :: t.model == old(t.model).(revision := r)
      ensures Models(tables) == if ok then All(old(Models(tables)), DoSetRevision(r)) else old(Models(tables))
    {
      hide UndoModel.SetRevision, Table.Valid, Lockstep, Step, Is, Different, Sound;
      ghost var was := Models(tables);
      Begins(tables);
      AllOrNone(was, r);
      SetsAll(was, r);
      for i := 0 to |tables|
        invariant Doing(was, tables, DoSetRevision(r), i)
        invariant forall j | 0 <= j < i :: MaySetRevision(old(tables[j].model), r)
      {
        NextTable(was, tables, i);
        StepIs(was[i], r);
        ok := tables[i].SetRevision(r);
        if !ok {
          assert MaySetRevision(was[0], r) <==> MaySetRevision(was[i], r);
          Refused(was, tables, r);
          return;
        }
        NowIs(tables[i], Step(was[i], DoSetRevision(r)));
      }
      ok := true;
      Done(was, tables, DoSetRevision(r));
    }

    /** Brings a fresh table to the range of the others. */
    method CatchUp(t: Table, first: nat, last: nat)
      requires t.Valid() && t.model == Empty(t.width) && first <= last
      modifies t
      ensures t.Valid() && t.model == CaughtUp(t.width, Range(first, last))
    {
      hide Table.Valid;
      var ok := t.SetRevision(first);
      var r := t.Revision();
      while r < last
        invariant t.Valid() && first <= r <= last && r == t.model.revision
        invariant t.model == CaughtUp(t.width, Range(first, r))
        decreases last - r
      {
        var session := new IndexSession(t, true);
        session.Push();
        r := t.Revision();
      }
    }

    /** The part of `add_index` that makes the undo stack of the added table consistent. */
    method Align(t: Table, firstTime: bool) returns (ok: bool)
      requires Valid() && tables != [] && t !in tables && t.Valid() && (firstTime ==> t.model == Empty(t.width))
      modifies if firstTime then {t} else {}
      ensures t.Valid() && Valid() && Models(tables) == old(Models(tables))
      ensures firstTime ==> ok && t.model == Added(Models(tables), t.width)
      ensures ok <==> RangeOf(t.model) == RangeOf(tables[0].model)
      ensures ok <==> t.model.revision == tables[0].model.revision && |t.model.stack| == |tables[0].model.stack|
    {
      hide CaughtUp, Lockstep, Added, Different, Table.Valid;
      ghost var was := Models(tables);
      assert tables[0] in tables;
      var first, last := tables[0].RevisionRange();
      FirstRange(was, t.width);
      var addedFirst, addedLast := t.RevisionRange();
      if addedFirst != first || addedLast != last {
        if !firstTime {
          return false;
        }
        CatchUp(t, first, last);
      }
      assert Models(tables) == was;
      return true;
    }

    /** `add_index`; `found` is the table that the segment has under this name, or null. */
    method AddIndex(typeId: nat, width: nat, found: Table?) returns (r: AddResult)
      requires Valid() && (found != null ==> found.Valid() && found !in tables)
      modifies this
      ensures Valid()
      ensures r == TypeInUse <==> typeId in old(indexMap)
      ensures r == Inconsistent <==>
        && typeId !in old(indexMap) && found != null && tables != []
        && (old(found.model.revision) != tables[0].model.revision
            || |old(found.model.stack)| != |tables[0].model.stack|)
      ensures !r.TableAdded? ==> tables == old(tables) && indexMap == old(indexMap)
      ensures r.TableAdded? ==> tables == old(tables) + [r.table] && indexMap == old(indexMap)[typeId := r.table]
      ensures r.TableAdded? ==> if found != null then r.table == found else fresh(r.table)
      ensures Models(tables) == old(Models(tables)) +
        if !r.TableAdded? then [] else [if found != null then old(found.model) else Added(old(Models(tables)), width)]
    {
      hide Lockstep, Added, Different, Table.Valid, RangeOf, Empty;
      if typeId in indexMap {
        return TypeInUse;
      }
      var t: Table;
      if found == null {
        t := new Table(width);
      } else {
        t := found;
      }
      if |tables| > 0 {
        var aligned := Align(t, found == null);
        if !aligned {
          return Inconsistent;
        }
      }
      AddSound(tables, t);
      ghost var now := Models(tables + [t]);
      indexMap := indexMap[typeId := t];
      tables := tables + [t];
      assert Models(tables) == now;
      return TableAdded(t);
    }
  }

  lemma AddSound(tables: seq<Table>, t: Table)
    requires Sound(tables) && t !in tables && t.Valid()
    requires tables != [] ==> RangeOf(t.model) == RangeOf(tables[0].model)
    ensures tables == [] ==> Added(Models(tables), t.width) == Empty(t.width)
    ensures Sound(tables + [t]) && Models(tables + [t]) == Models(tables) + [t.model]
  {
    hide Table.Valid;
    var r := tables + [t];
    assert Models(r) == Models(tables) + [t.model];
    forall i | 0 <= i < |tables| ensures RangeOf(tables[i].model) == RangeOf(tables[0].model) {
      assert Models(tables)[i] == tables[i].model;
    }
    assert forall i | 0 <= i < |r| :: RangeOf(Models(r)[i]) == RangeOf(t.model);
  }

  /** What a new table has to become. */
  lemma FirstRange(db: seq<State>, width: nat)
    requires db != [] && 0 <= RangeOf(db[0]).first
    ensures RangeOf(db[0]).first <= RangeOf(db[0]).last && Added(db, width).width == width
    ensures Added(db, width) == CaughtUp(width, RangeOf(db[0])) && RangeOf(Added(db, width)) == RangeOf(db[0])
    ensures CaughtUp(width, Range(0, 0)) == Empty(width)
  {
    CaughtUpIs(width, RangeOf(db[0]));
  }

  function Unsigned(x: int): nat
    requires -0x8000_0000_0000_0000 <= x < 0x8000_0000_0000_0000
  {
    if x < 0 then x + 0x1_0000_0000_0000_0000 else x
  }

  lemma UnsignedIs(x: int)
    requires -0x8000_0000_0000_0000 <= x < 0x8000_0000_0000_0000
    ensures if x < 0 then 0x8000_0000_0000_0000 <= Unsigned(x) else Unsigned(x) == x
  {}

  /** Committing to the present revision or a later one drops every session. */
  lemma CommitsAll(db: seq<State>, r: nat)
    ensures forall i | 0 <= i < |db| && db[i].revision <= r :: All(db, DoCommit(r))[i] == db[i].(stack := [])
  {}

  lemma SetsAll(db: seq<State>, r: nat)
    ensures forall i | 0 <= i < |db| && db[i].stack == [] && db[i].revision <= r ::
      All(db, DoSetRevision(r))[i] == db[i].(revision := r)
  {}

  /** The first table refuses, and so all stay as they are. */
  lemma Refused(was: seq<State>, tables: seq<Table>, r: nat)
    requires Lockstep(was) && Different(tables) && |was| == |tables| > 0 && !MaySetRevision(was[0], r)
    requires tables[0].Valid() && tables[0].model == UndoModel.SetRevision(was[0], r)
    requires forall j | 1 <= j < |tables| :: Is(tables[j], was[j])
    ensures Sound(tables) && Models(tables) == was
  {
    hide Lockstep, Table.Valid;
    assert Models(tables) == was;
  }
}
