/** The state of one `undo_index`, and each of its operations as a function.
  * Nodes are named by their ids; lists run from the oldest entry to the newest. */
module UndoModel {
  import opened Basics
  import opened Tables

  /** A backup made by `modify`: the row as it was before. */
  datatype Entry = Entry(id: nat, row: Row)

  /** An undo session: its segments of `_old_values` and `_removed_values`, and its `undo_state`. */
  datatype Session = Session(olds: seq<Entry>, removed: Table, oldNextId: nat, ctime: nat)

  datatype State = State(
    width: nat,           // number of secondary indices
    main: Table,
    nextId: nat,
    stack: seq<Session>,  // the last element is the top
    revision: int,
    mono: nat)            // _monotonic_revision

  function Empty(width: nat): State {
    State(width, map[], 0, [], 0, 0)
  }

  function Top(s: State): Session
    requires s.stack != []
  {
    s.stack[|s.stack| - 1]
  }

  function WithTop(s: State, t: Session): State
    requires s.stack != []
  {
    s.(stack := s.stack[..|s.stack| - 1] + [t])
  }

  function Pop(s: State): State
    requires s.stack != []
  {
    s.(stack := s.stack[..|s.stack| - 1], revision := s.revision - 1)
  }

  // ----- emplace, modify, remove

  ghost function Emplace(s: State, v: Value): State {
    if !Fits(s.main, v, s.width) then s
    else s.(main := s.main[s.nextId := Row(v, if s.stack == [] then 0 else s.mono)], nextId := s.nextId + 1)
  }

  function Remove(s: State, id: nat): State
    requires id in s.main
  {
    if s.stack == [] || Top(s).oldNextId <= id then s.(main := s.main - {id})
    else WithTop(s, Top(s).(removed := Top(s).removed[id := s.main[id]])).(main := s.main - {id})
  }

  /** `modify` copies the row first exactly when it was last stamped before the top session. */
  predicate NeedsBackup(s: State, id: nat)
    requires id in s.main
  {
    s.stack != [] && s.main[id].mtime < Top(s).ctime
  }

  datatype Outcome = Changed | Reverted | Erased

  ghost function ModifyOutcome(s: State, id: nat, v: Value): Outcome
    requires id in s.main
  {
    if Fits(s.main - {id}, v, s.width) then Changed
    else if NeedsBackup(s, id) then Reverted
    else Erased
  }

  ghost function Modify(s: State, id: nat, v: Value): State
    requires id in s.main
  {
    var row := s.main[id];
    match ModifyOutcome(s, id, v)
    case Changed =>
      if NeedsBackup(s, id) then
        WithTop(s, Top(s).(olds := Top(s).olds + [Entry(id, row)])).(main := s.main[id := Row(v, s.mono)])
      else
        s.(main := s.main[id := Row(v, row.mtime)])
    case Reverted =>
      s.(main := s.main[id := Row(row.value, s.mono)])
    case Erased =>
      Remove(s.(main := s.main[id := Row(v, row.mtime)]), id)
  }

  // ----- sessions

  function Start(s: State): State {
    s.(stack := s.stack + [Session([], map[], s.nextId, s.mono + 1)], revision := s.revision + 1, mono := s.mono + 1)
  }

  /** The oldest backup of `id` that was stamped before time `c`. */
  function Oldest(olds: seq<Entry>, id: nat, c: nat): Option<Row> {
    if olds == [] then None
    else if olds[0].id == id && olds[0].row.mtime < c then Some(olds[0].row)
    else Oldest(olds[1..], id, c)
  }

  /** The rows that undoing session `t` starts from. */
  function Base(main: Table, t: Session): Table {
    main + t.removed
  }

  /** The row of `id` when session `t` started. */
  function Before(main: Table, t: Session, id: nat): Option<Row> {
    if id in Base(main, t) && id < t.oldNextId
    then Some(Oldest(t.olds, id, t.ctime).GetOr(Base(main, t)[id]))
    else None
  }

  function UndoMain(main: Table, t: Session): Table {
    map id | id in Base(main, t) && Before(main, t, id).Some? :: Before(main, t, id).value
  }

  function Undo(s: State): State {
    if s.stack == [] then s
    else Pop(s).(main := UndoMain(s.main, Top(s)), nextId := Top(s).oldNextId)
  }

  /** `undo_all` */
  function AllUndone(s: State): State
    decreases |s.stack|
  {
    if s.stack == [] then s else AllUndone(Undo(s))
  }

  /** Session `t` merged into the session `b` below it. */
  function Merge(b: Session, t: Session): Session {
    Session(b.olds + t.olds, b.removed + t.removed, b.oldNextId, b.ctime)
  }

  function SquashFast(s: State): State {
    if s.stack == [] then s
    else if |s.stack| == 1 then Pop(s)
    else WithTop(Pop(s), Merge(Top(Pop(s)), Top(s)))
  }

  /** Backups that survive compression: stamped before `c`, and not of a removed node. */
  function KeptOlds(olds: seq<Entry>, c: nat, gone: set<nat>): seq<Entry> {
    if olds == [] then []
    else (if olds[0].row.mtime < c && olds[0].id !in gone then [olds[0]] else []) + KeptOlds(olds[1..], c, gone)
  }

  /** The removed nodes that are not new, with their usable backups folded in. */
  function FoldedTable(t: Session, c: nat, nid: nat): Table {
    map id | id in t.removed && id < nid :: Oldest(t.olds, id, c).GetOr(t.removed[id])
  }

  /** `compress_impl`: drops from the top session what is redundant once everything that started at
    * time `c`, with the next id `nid`, is one session; a backup of a removed node is folded into it. */
  function CompressImpl(s: State, c: nat, nid: nat): State
    requires s.stack != []
  {
    var t := Top(s);
    WithTop(s, t.(olds := KeptOlds(t.olds, c, t.removed.Keys), removed := FoldedTable(t, c, nid)))
  }

  function CompressLast(s: State): State
    requires s.stack != []
  {
    CompressImpl(s, Top(s).ctime, Top(s).oldNextId)
  }

  function Squash(s: State): State {
    if |s.stack| < 2 then SquashFast(s)
    else SquashFast(CompressImpl(s, Top(Pop(s)).ctime, Top(Pop(s)).oldNextId))
  }

  /** `commit` keeps the sessions that started at revision `revision` or later. */
  function Commit(s: State, revision: nat): State {
    if s.revision <= revision then s.(stack := [])
    else if s.revision - revision < |s.stack| then s.(stack := s.stack[|s.stack| - (s.revision - revision)..])
    else s
  }

  /** `set_revision` is refused while there is an undo stack, and never lowers the revision. */
  predicate MaySetRevision(s: State, revision: nat) {
    s.stack == [] && s.revision <= revision
  }

  function SetRevision(s: State, revision: nat): State {
    if MaySetRevision(s, revision) then s.(revision := revision) else s
  }
}
