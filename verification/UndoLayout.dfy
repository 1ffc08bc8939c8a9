/** How a table lies in memory: nodes, backups, the two delta lists and the marks into them.
  *
  * A singly linked list is a sequence whose last element is the head of the list, so pushing and
  * popping at the head leave the positions of the other elements alone. */
module UndoLayout {
  import opened Basics
  import opened Tables
  import opened UndoModel
  import opened UndoInvariant
  import opened UndoLeaks
  import opened UndoLosses
  import opened OrderedIndex

  /** `old_node`: a copy of an object, its saved stamp, and the address of the node it was copied from. */
  datatype OldNode = OldNode(id: nat, value: Value, mtime: nat, current: nat)

  type Backups = map<nat, OldNode>

  /** `undo_state`; the marks are the heads of the lists when the session started. */
  datatype UndoState = UndoState(oldValuesEnd: Option<nat>, removedValuesEnd: Option<nat>, oldNextId: nat, ctime: nat)

  function RowOf(n: Node): Row {
    Row(n.value, n.mtime)
  }

  function EntryOf(o: OldNode): Entry {
    Entry(o.id, Row(o.value, o.mtime))
  }

  function MainSet(m: Memory): set<nat> {
    set a | a in m && !m[a].removed
  }

  // ----- nodes and tables

  /** Every node has an id of its own, and `at` finds it. */
  ghost predicate Named(m: Memory, at: map<nat, nat>) {
    && (forall a | a in m :: m[a].id in at && at[m[a].id] == a)
    && (forall id | id in at :: at[id] in m && m[at[id]].id == id)
  }

  /** `t` is the table of the nodes `live`. */
  ghost predicate Shows(m: Memory, at: map<nat, nat>, live: set<nat>, t: Table) {
    && (forall a | a in live :: a in m && m[a].id in t && t[m[a].id] == RowOf(m[a]))
    && (forall id | id in t :: id in at && at[id] in live && at[id] in m && m[at[id]].id == id)
  }

  /** Every index is sorted and holds exactly the nodes `live`; keys may be duplicated. */
  ghost predicate IndicesOk(m: Memory, indices: seq<seq<nat>>, live: set<nat>) {
    forall k | 0 <= k < |indices| :: Holds(indices[k], live) && Sorted(m, k, indices[k])
  }

  ghost predicate AllStrict(m: Memory, indices: seq<seq<nat>>) {
    forall k | 0 <= k < |indices| :: Strict(m, k, indices[k])
  }

  // ----- lists in segments

  /** `cuts[i]` is where the segment of session `i` starts; at most one element lies below them all. */
  ghost predicate Cuts(cuts: seq<nat>, len: nat, sessions: nat) {
    && |cuts| == sessions
    && (forall i, j | 0 <= i < j < |cuts| :: cuts[i] <= cuts[j])
    && (forall i | 0 <= i < |cuts| :: cuts[i] <= len)
    && (if cuts == [] then len else cuts[0]) <= 1
  }

  function End(cuts: seq<nat>, len: nat, i: nat): nat {
    if i + 1 < |cuts| then cuts[i + 1] else len
  }

  function Seg(list: seq<nat>, cuts: seq<nat>, i: nat): seq<nat>
    requires i < |cuts| && cuts[i] <= End(cuts, |list|, i) <= |list|
  {
    list[cuts[i]..End(cuts, |list|, i)]
  }

  /** What a session remembers of a list of which `i` elements were there when it started. */
  function MarkAt(list: seq<nat>, i: nat): Option<nat>
    requires i <= |list|
  {
    if i == 0 then None else Some(list[i - 1])
  }

  ghost predicate RemovedOk(m: Memory, at: map<nat, nat>, list: seq<nat>, cuts: seq<nat>, stack: seq<Session>) {
    && Distinct(list)
    && (forall a :: a in list <==> a in m && m[a].removed)
    && Cuts(cuts, |list|, |stack|)
    && (forall i | 0 <= i < |stack| :: Shows(m, at, Elems(Seg(list, cuts, i)), stack[i].removed))
  }

  function Entries(b: Backups, list: seq<nat>): seq<Entry>
    requires forall a <- list :: a in b
  {
    seq(|list|, i requires 0 <= i < |list| => EntryOf(b[list[i]]))
  }

  /** Liveness: a backup that undo of its session would use points to the node it was copied from. */
  ghost predicate Live(m: Memory, b: Backups, list: seq<nat>, c: nat) {
    forall a <- list | a in b && b[a].mtime < c :: b[a].current in m && m[b[a].current].id == b[a].id
  }

  ghost predicate BackupsOk(m: Memory, b: Backups, list: seq<nat>, cuts: seq<nat>, stack: seq<Session>) {
    && Distinct(list)
    && (forall a :: a in list <==> a in b)
    && Cuts(cuts, |list|, |stack|)
    && (forall i | 0 <= i < |stack| ::
          && Entries(b, Seg(list, cuts, i)) == stack[i].olds
          && Live(m, b, Seg(list, cuts, i), stack[i].ctime))
  }

  ghost predicate MarksOk(states: seq<UndoState>, olds: seq<nat>, oldCuts: seq<nat>, removed: seq<nat>,
      removedCuts: seq<nat>, stack: seq<Session>)
    requires Cuts(oldCuts, |olds|, |stack|) && Cuts(removedCuts, |removed|, |stack|)
  {
    && |states| == |stack|
    && forall i | 0 <= i < |stack| ::
         states[i] == UndoState(MarkAt(olds, oldCuts[i]), MarkAt(removed, removedCuts[i]), stack[i].oldNextId,
           stack[i].ctime)
  }

  /** Ids are below `_next_id`; those of the elements that no session owns are older than every session. */
  ghost predicate IdsOk(m: Memory, list: seq<nat>, cuts: seq<nat>, s: State)
    requires Cuts(cuts, |list|, |s.stack|)
  {
    && (forall a | a in m :: m[a].id < s.nextId)
    && (s.stack != [] ==> forall a <- list[..cuts[0]] | a in m :: m[a].id < s.stack[0].oldNextId)
  }

  // ----- the whole table

  datatype Layout = Layout(
    nodes: Memory, backups: Backups, indices: seq<seq<nat>>,
    states: seq<UndoState>, olds: seq<nat>, removed: seq<nat>,
    at: map<nat, nat>, oldCuts: seq<nat>, removedCuts: seq<nat>)

  /** The layout shows the state `s`; nothing is said about the indices. */
  ghost predicate Stored(l: Layout, s: State) {
    && Named(l.nodes, l.at)
    && Shows(l.nodes, l.at, MainSet(l.nodes), s.main)
    && RemovedOk(l.nodes, l.at, l.removed, l.removedCuts, s.stack)
    && BackupsOk(l.nodes, l.backups, l.olds, l.oldCuts, s.stack)
    && Cuts(l.oldCuts, |l.olds|, |s.stack|) && Cuts(l.removedCuts, |l.removed|, |s.stack|)
    && MarksOk(l.states, l.olds, l.oldCuts, l.removed, l.removedCuts, s.stack)
    && IdsOk(l.nodes, l.removed, l.removedCuts, s)
  }

  ghost predicate Indexed(l: Layout, s: State) {
    |l.indices| == s.width + 1 && IndicesOk(l.nodes, l.indices, MainSet(l.nodes))
  }

  // ----- what the invariant says about the sessions together

  /** Later sessions started later, with a higher `_next_id`. */
  ghost predicate InOrder(stack: seq<Session>, nextId: nat) {
    && (forall i, j | 0 <= i < j < |stack| ::
          stack[i].oldNextId <= stack[j].oldNextId && stack[i].ctime < stack[j].ctime)
    && (forall i | 0 <= i < |stack| :: stack[i].oldNextId <= nextId)
  }

  /** The backups that undo of a session uses are of ids that are not new to it. */
  ghost predicate UsableOld(stack: seq<Session>) {
    forall i | 0 <= i < |stack| :: forall e <- stack[i].olds | e.row.mtime < stack[i].ctime :: e.id < stack[i].oldNextId
  }

  /** A node removed in one session existed when the next one started. */
  ghost predicate RemovedBelow(stack: seq<Session>) {
    forall i, j | 0 <= i < j < |stack| :: forall id | id in stack[i].removed :: id < stack[j].oldNextId
  }

  /** Facts about all sessions of the stack at once. */
  ghost predicate Sane(s: State) {
    InOrder(s.stack, s.nextId) && UsableOld(s.stack) && RemovedBelow(s.stack)
  }

  lemma {:induction false} SturdySane(s: State)
    requires Sturdy(s)
    ensures Sane(s)
    decreases |s.stack|
  {
    hide Sturdy, SessionBounds, Growing, Single, BackupsLive, BackupsOlder, StampsDatable, Ordered, Sane;
    SturdyParts(s);
    if s.stack == [] {
      SaneEmpty(s);
    } else {
      SturdyParts(Undo(s));
      SturdySane(Undo(s));
      if |s.stack| > 1 {
        assert Top(Undo(s)) == Top(Pop(s));
      }
      SaneFrom(s);
    }
  }

  lemma SaneEmpty(s: State)
    requires s.stack == []
    ensures Sane(s)
  {}

  lemma SaneFrom(s: State)
    requires s.stack != [] && Sane(Undo(s)) && SessionBounds(s, Top(s)) && BackupsLive(s.main, Top(s))
    requires |s.stack| > 1 ==> Ordered(Top(Pop(s)), Top(s)) && SessionBounds(Undo(s), Top(Pop(s)))
    ensures Sane(s)
  {
    var b, t := Undo(s).stack, Top(s);
    assert s.stack == b + [t];
    if b != [] {
      assert b[|b| - 1] == Top(Pop(s));
      OrderFrom(b, Top(Pop(s)), t);
    }
  }

  lemma OrderFrom(b: seq<Session>, a: Session, t: Session)
    requires b != [] && b[|b| - 1] == a && InOrder(b, t.oldNextId) && UsableOld(b) && RemovedBelow(b)
    requires a.ctime < t.ctime && forall id | id in a.removed :: id < t.oldNextId
    ensures forall i | 0 <= i < |b| :: b[i].oldNextId <= t.oldNextId && b[i].ctime < t.ctime
    ensures RemovedBelow(b + [t])
  {
    forall i | 0 <= i < |b| ensures b[i].ctime < t.ctime && forall id | id in b[i].removed :: id < t.oldNextId {
      if i < |b| - 1 {
        assert b[i].ctime < a.ctime;
      }
    }
    var c := b + [t];
    forall i, j | 0 <= i < j < |c| ensures forall id | id in c[i].removed :: id < c[j].oldNextId {
      assert c[i] == b[i] && (c[j] == t || c[j] == b[j]);
    }
  }

  // ----- changes of the memory that leave most of it alone

  lemma ShowsAlike(m: Memory, at: map<nat, nat>, r: Memory, at': map<nat, nat>, live: set<nat>, t: Table)
    requires Shows(m, at, live, t)
    requires forall a | a in live && a in m :: a in r && r[a].id == m[a].id && RowOf(r[a]) == RowOf(m[a])
    requires forall id | id in at && at[id] in live :: id in at' && at'[id] == at[id]
    ensures Shows(r, at', live, t)
  {}

  lemma RemovedAlike(m: Memory, at: map<nat, nat>, r: Memory, at': map<nat, nat>, list: seq<nat>, cuts: seq<nat>,
      stack: seq<Session>)
    requires RemovedOk(m, at, list, cuts, stack)
    requires forall a | a in m && m[a].removed :: a in r && r[a] == m[a]
    requires forall a | a in r && r[a].removed :: a in m && m[a].removed
    requires forall id | id in at && at[id] in m && m[at[id]].removed :: id in at' && at'[id] == at[id]
    ensures RemovedOk(r, at', list, cuts, stack)
  {
    forall i | 0 <= i < |stack| ensures Shows(r, at', Elems(Seg(list, cuts, i)), stack[i].removed) {
      assert forall a <- Seg(list, cuts, i) :: a in list;
      ShowsAlike(m, at, r, at', Elems(Seg(list, cuts, i)), stack[i].removed);
    }
  }

  lemma EntryAt(b: Backups, list: seq<nat>, a: nat)
    requires (forall x <- list :: x in b) && a in list
    ensures EntryOf(b[a]) in Entries(b, list)
  {
    var j :| 0 <= j < |list| && list[j] == a;
    assert Entries(b, list)[j] == EntryOf(b[a]);
  }

  /** Nodes may be freed whose ids no usable backup has. */
  lemma BackupsAlike(m: Memory, r: Memory, l: Layout, s: State, bound: nat)
    requires BackupsOk(m, l.backups, l.olds, l.oldCuts, s.stack)
    requires forall i | 0 <= i < |s.stack| ::
      forall e <- s.stack[i].olds | e.row.mtime < s.stack[i].ctime :: e.id < bound
    requires forall a | a in m && m[a].id < bound :: a in r && r[a].id == m[a].id
    ensures BackupsOk(r, l.backups, l.olds, l.oldCuts, s.stack)
  {
    forall i | 0 <= i < |s.stack| ensures Live(r, l.backups, Seg(l.olds, l.oldCuts, i), s.stack[i].ctime) {
      var seg := Seg(l.olds, l.oldCuts, i);
      forall a <- seg | a in l.backups && l.backups[a].mtime < s.stack[i].ctime
        ensures l.backups[a].current in r && r[l.backups[a].current].id == l.backups[a].id
      {
        EntryAt(l.backups, seg, a);
        assert EntryOf(l.backups[a]) in s.stack[i].olds;
      }
    }
  }

  // ----- emplace

  /** The secondary keys of `p` are free in the indices exactly when its value fits the table. */
  lemma FitsNoTwin(m: Memory, at: map<nat, nat>, t: Table, p: nat, width: nat)
    requires p in m && Shows(m, at, MainSet(m) - {p}, t)
    ensures Fits(t, m[p].value, width) <==> forall k | 1 <= k <= width :: NoTwin(m, k, MainSet(m) - {p}, p)
  {
    var live, v := MainSet(m) - {p}, m[p].value;
    if Fits(t, v, width) {
      forall k, a | 1 <= k <= width && a in live && a != p ensures KeyAt(m, k, a) != KeyAt(m, k, p) {
        assert Key(t[m[a].id].value, k - 1) != Key(v, k - 1);
      }
    } else {
      var id, k: nat :| id in t && k < width && Key(t[id].value, k) == Key(v, k);
      assert at[id] in live && KeyAt(m, k + 1, at[id]) == KeyAt(m, k + 1, p);
      assert !NoTwin(m, k + 1, live, p);
    }
  }

  lemma EmplaceStored(l: Layout, s: State, p: nat, v: Value, n: Node)
    requires Stored(l, s) && Sane(s) && p !in l.nodes && Fits(s.main, v, s.width)
    requires n == Node(s.nextId, v, if s.stack == [] then 0 else s.mono, false)
    ensures Stored(l.(nodes := l.nodes[p := n], at := l.at[s.nextId := p]), Emplace(s, v))
  {
    hide RemovedOk, BackupsOk, MarksOk, Cuts, Shows;
    var r, at := l.nodes[p := n], l.at[s.nextId := p];
    assert MainSet(r) == MainSet(l.nodes) + {p};
    RemovedAlike(l.nodes, l.at, r, at, l.removed, l.removedCuts, s.stack);
    BackupsAlike(l.nodes, r, l, s, s.nextId);
    ShowsAlike(l.nodes, l.at, r, at, MainSet(l.nodes), s.main);
    ShowsOneMore(r, at, MainSet(l.nodes), s.main, p);
  }

  lemma ShowsOneMore(m: Memory, at: map<nat, nat>, live: set<nat>, t: Table, p: nat)
    requires Shows(m, at, live, t) && p in m && m[p].id in at && at[m[p].id] == p && m[p].id !in t
    ensures Shows(m, at, live + {p}, t[m[p].id := RowOf(m[p])])
  {}

  // ----- remove

  /** A node may be freed that is in no list and that no usable backup names. */
  lemma FreeStored(l: Layout, s: State, p: nat)
    requires Stored(l, s) && Sane(s) && p in l.nodes && !l.nodes[p].removed
    requires s.stack == [] || Top(s).oldNextId <= l.nodes[p].id
    ensures l.nodes[p].id in s.main
    ensures Stored(l.(nodes := l.nodes - {p}, at := l.at - {l.nodes[p].id}), Remove(s, l.nodes[p].id))
  {
    hide RemovedOk, BackupsOk, MarksOk, Cuts;
    var id := l.nodes[p].id;
    var r, at := l.nodes - {p}, l.at - {id};
    assert p in MainSet(l.nodes);
    assert MainSet(r) == MainSet(l.nodes) - {p};
    RemovedAlike(l.nodes, l.at, r, at, l.removed, l.removedCuts, s.stack);
    BackupsAlike(l.nodes, r, l, s, id);
  }

  lemma SegPush(list: seq<nat>, cuts: seq<nat>, n: nat, p: nat, i: nat)
    requires Cuts(cuts, |list|, n) && i < n
    ensures Cuts(cuts, |list| + 1, n)
    ensures Seg(list + [p], cuts, i) == if i + 1 < n then Seg(list, cuts, i) else Seg(list, cuts, i) + [p]
    ensures MarkAt(list + [p], cuts[i]) == MarkAt(list, cuts[i])
  {}

  lemma RemovedPush(m: Memory, at: map<nat, nat>, list: seq<nat>, cuts: seq<nat>, s: State, p: nat)
    requires RemovedOk(m, at, list, cuts, s.stack) && Named(m, at) && s.stack != []
    requires p in m && !m[p].removed && m[p].id !in Top(s).removed
    ensures var t := Top(s);
      RemovedOk(m[p := m[p].(removed := true)], at, list + [p], cuts,
        WithTop(s, t.(removed := t.removed[m[p].id := RowOf(m[p])])).stack)
  {
    var t, n, r := Top(s), |s.stack|, m[p := m[p].(removed := true)];
    hide Cuts, Shows, Named, Elems, Seg, MarkAt;
    var stack := WithTop(s, t.(removed := t.removed[m[p].id := RowOf(m[p])])).stack;
    SegPush(list, cuts, n, p, 0);
    MembersPush(m, list, p);
    hide Distinct;
    forall i | 0 <= i < n ensures Shows(r, at, Elems(Seg(list + [p], cuts, i)), stack[i].removed) {
      SegPush(list, cuts, n, p, i);
      SegInList(list, cuts, n, i);
      ShowsPush(m, at, Seg(list, cuts, i), s.stack[i].removed, p);
    }
  }

  lemma MembersPush(m: Memory, list: seq<nat>, p: nat)
    requires Distinct(list) && (forall a :: a in list <==> a in m && m[a].removed)
    requires p in m && !m[p].removed
    ensures |list + [p]| == |list| + 1 && Distinct(list + [p])
    ensures var r := m[p := m[p].(removed := true)]; forall a :: a in list + [p] <==> a in r && r[a].removed
  {}

  lemma SegInList(list: seq<nat>, cuts: seq<nat>, n: nat, i: nat)
    requires Cuts(cuts, |list|, n) && i < n
    ensures cuts[i] <= End(cuts, |list|, i) <= |list| && forall a <- Seg(list, cuts, i) :: a in list
  {}

  /** Flagging a node and adding it to a segment. */
  lemma ShowsPush(m: Memory, at: map<nat, nat>, seg: seq<nat>, t: Table, p: nat)
    requires Shows(m, at, Elems(seg), t) && Named(m, at) && p in m && p !in seg
    ensures Shows(m[p := m[p].(removed := true)], at, Elems(seg), t)
    ensures m[p].id !in t ==> Shows(m[p := m[p].(removed := true)], at, Elems(seg + [p]), t[m[p].id := RowOf(m[p])])
  {
    var r := m[p := m[p].(removed := true)];
    ShowsAlike(m, at, r, at, Elems(seg), t);
    if m[p].id !in t {
      assert Elems(seg + [p]) == Elems(seg) + {p};
      ShowsOneMore(r, at, Elems(seg), t, p);
    }
  }

  lemma MarksPushRemoved(l: Layout, stack: seq<Session>, stack': seq<Session>, p: nat)
    requires Cuts(l.oldCuts, |l.olds|, |stack|) && Cuts(l.removedCuts, |l.removed|, |stack|) && stack != []
    requires MarksOk(l.states, l.olds, l.oldCuts, l.removed, l.removedCuts, stack)
    requires |stack'| == |stack| && forall i | 0 <= i < |stack| ::
      stack'[i].oldNextId == stack[i].oldNextId && stack'[i].ctime == stack[i].ctime
    ensures Cuts(l.removedCuts, |l.removed + [p]|, |stack|)
    ensures MarksOk(l.states, l.olds, l.oldCuts, l.removed + [p], l.removedCuts, stack')
  {
    assert Cuts(l.removedCuts, |l.removed + [p]|, |stack|) by { SegPush(l.removed, l.removedCuts, |stack|, p, 0); }
    forall i | 0 <= i < |stack|
      ensures MarkAt(l.removed + [p], l.removedCuts[i]) == MarkAt(l.removed, l.removedCuts[i]) {}
  }

  lemma MarksPushOld(l: Layout, stack: seq<Session>, stack': seq<Session>, q: nat)
    requires Cuts(l.oldCuts, |l.olds|, |stack|) && Cuts(l.removedCuts, |l.removed|, |stack|) && stack != []
    requires MarksOk(l.states, l.olds, l.oldCuts, l.removed, l.removedCuts, stack)
    requires |stack'| == |stack| && forall i | 0 <= i < |stack| ::
      stack'[i].oldNextId == stack[i].oldNextId && stack'[i].ctime == stack[i].ctime
    ensures Cuts(l.oldCuts, |l.olds + [q]|, |stack|)
    ensures MarksOk(l.states, l.olds + [q], l.oldCuts, l.removed, l.removedCuts, stack')
  {
    assert Cuts(l.oldCuts, |l.olds + [q]|, |stack|) by { SegPush(l.olds, l.oldCuts, |stack|, q, 0); }
    forall i | 0 <= i < |stack| ensures MarkAt(l.olds + [q], l.oldCuts[i]) == MarkAt(l.olds, l.oldCuts[i]) {}
  }

  lemma RetireShows(m: Memory, at: map<nat, nat>, t: Table, p: nat)
    requires Named(m, at) && Shows(m, at, MainSet(m), t) && p in m && !m[p].removed
    ensures var r := m[p := m[p].(removed := true)];
      Named(r, at) && MainSet(r) == MainSet(m) - {p} && Shows(r, at, MainSet(r), t - {m[p].id})
    ensures m[p].id in t && t[m[p].id] == RowOf(m[p])
  {
    assert p in MainSet(m);
    assert MainSet(m[p := m[p].(removed := true)]) == MainSet(m) - {p};
  }

  /** A removed node moves to the list and keeps its row. */
  lemma RetireStored(l: Layout, s: State, p: nat)
    requires Stored(l, s) && Sane(s) && p in l.nodes && !l.nodes[p].removed
    requires s.stack != [] && l.nodes[p].id < Top(s).oldNextId && s.main.Keys !! Top(s).removed.Keys
    ensures l.nodes[p].id in s.main
    ensures Stored(l.(nodes := l.nodes[p := l.nodes[p].(removed := true)], removed := l.removed + [p]),
      Remove(s, l.nodes[p].id))
  {
    hide BackupsOk, RemovedOk, MarksOk, Shows, MainSet;
    var id := l.nodes[p].id;
    var r := l.nodes[p := l.nodes[p].(removed := true)];
    RetireShows(l.nodes, l.at, s.main, p);
    RemovedPush(l.nodes, l.at, l.removed, l.removedCuts, s, p);
    BackupsAlike(l.nodes, r, l, s, s.nextId);
    BackupsOfStack(r, l, s.stack, Remove(s, id).stack);
    MarksPushRemoved(l, s.stack, Remove(s, id).stack, p);
    assert (l.removed + [p])[..l.removedCuts[0]] == l.removed[..l.removedCuts[0]];
  }

  /** `BackupsOk` only looks at the backups and start times of the sessions. */
  lemma BackupsOfStack(m: Memory, l: Layout, stack: seq<Session>, stack': seq<Session>)
    requires BackupsOk(m, l.backups, l.olds, l.oldCuts, stack)
    requires |stack'| == |stack| && forall i | 0 <= i < |stack| ::
      stack'[i].olds == stack[i].olds && stack'[i].ctime == stack[i].ctime
    ensures BackupsOk(m, l.backups, l.olds, l.oldCuts, stack')
  {}

  /** `RemovedOk` only looks at the removed nodes of the sessions. */
  lemma RemovedOfStack(m: Memory, l: Layout, stack: seq<Session>, stack': seq<Session>)
    requires RemovedOk(m, l.at, l.removed, l.removedCuts, stack)
    requires |stack'| == |stack| && forall i | 0 <= i < |stack| :: stack'[i].removed == stack[i].removed
    ensures RemovedOk(m, l.at, l.removed, l.removedCuts, stack')
  {}

  // ----- modify

  lemma OverwriteShows(m: Memory, at: map<nat, nat>, t: Table, p: nat, row: Row)
    requires Named(m, at) && Shows(m, at, MainSet(m), t) && p in m && !m[p].removed
    ensures var r := m[p := m[p].(value := row.value, mtime := row.mtime)];
      Named(r, at) && MainSet(r) == MainSet(m) && Shows(r, at, MainSet(r), t[m[p].id := row])
  {}

  /** A node in the table is overwritten. */
  lemma OverwriteStored(l: Layout, s: State, p: nat, row: Row)
    requires Stored(l, s) && Sane(s) && p in l.nodes && !l.nodes[p].removed
    ensures Stored(l.(nodes := l.nodes[p := l.nodes[p].(value := row.value, mtime := row.mtime)]),
      s.(main := s.main[l.nodes[p].id := row]))
  {
    hide RemovedOk, BackupsOk, MarksOk, Cuts, Named, Shows, MainSet;
    var r := l.nodes[p := l.nodes[p].(value := row.value, mtime := row.mtime)];
    OverwriteShows(l.nodes, l.at, s.main, p, row);
    RemovedAlike(l.nodes, l.at, r, l.at, l.removed, l.removedCuts, s.stack);
    BackupsAlike(l.nodes, r, l, s, s.nextId);
  }

  lemma BackupsPush(l: Layout, s: State, q: nat, o: OldNode)
    requires BackupsOk(l.nodes, l.backups, l.olds, l.oldCuts, s.stack) && s.stack != [] && q !in l.backups
    requires o.current in l.nodes && l.nodes[o.current].id == o.id
    ensures BackupsOk(l.nodes, l.backups[q := o], l.olds + [q], l.oldCuts,
      WithTop(s, Top(s).(olds := Top(s).olds + [EntryOf(o)])).stack)
  {
    hide Cuts, Entries, Live, Seg, MarkAt;
    var n, b, list := |s.stack|, l.backups[q := o], l.olds + [q];
    var stack := WithTop(s, Top(s).(olds := Top(s).olds + [EntryOf(o)])).stack;
    SegPush(l.olds, l.oldCuts, n, q, 0);
    forall i | 0 <= i < n ensures forall a <- Seg(list, l.oldCuts, i) :: a in b {
      SegInList(list, l.oldCuts, n, i);
    }
    forall i | 0 <= i < n
      ensures Entries(b, Seg(list, l.oldCuts, i)) == stack[i].olds
      ensures Live(l.nodes, b, Seg(list, l.oldCuts, i), stack[i].ctime)
    {
      SegPush(l.olds, l.oldCuts, n, q, i);
      SegInList(l.olds, l.oldCuts, n, i);
      SegmentPush(l.nodes, l.backups, Seg(l.olds, l.oldCuts, i), stack[i].ctime, q, o);
    }
  }

  /** Adding a backup of a live node to a segment. */
  lemma SegmentPush(m: Memory, b: Backups, seg: seq<nat>, c: nat, q: nat, o: OldNode)
    requires (forall a <- seg :: a in b) && Live(m, b, seg, c) && q !in b
    requires o.current in m && m[o.current].id == o.id
    ensures Entries(b[q := o], seg) == Entries(b, seg)
    ensures Entries(b[q := o], seg + [q]) == Entries(b, seg) + [EntryOf(o)]
    ensures Live(m, b[q := o], seg, c) && Live(m, b[q := o], seg + [q], c)
  {}

  /** A backup of a node is pushed onto the list. */
  lemma BackupStored(l: Layout, s: State, q: nat, o: OldNode)
    requires Stored(l, s) && s.stack != [] && q !in l.backups
    requires o.current in l.nodes && l.nodes[o.current].id == o.id
    ensures Stored(l.(backups := l.backups[q := o], olds := l.olds + [q]),
      WithTop(s, Top(s).(olds := Top(s).olds + [EntryOf(o)])))
  {
    hide RemovedOk, BackupsOk, MarksOk, Shows, Named;
    var r := WithTop(s, Top(s).(olds := Top(s).olds + [EntryOf(o)]));
    BackupsPush(l, s, q, o);
    RemovedOfStack(l.nodes, l, s.stack, r.stack);
    MarksPushOld(l, s.stack, r.stack, q);
  }

  // ----- sessions

  /** Starting a session cuts a list at its end. */
  lemma CutEnd(list: seq<nat>, cuts: seq<nat>, n: nat)
    requires Cuts(cuts, |list|, n)
    ensures Cuts(cuts + [|list|], |list|, n + 1)
    ensures forall i | 0 <= i < n :: Seg(list, cuts + [|list|], i) == Seg(list, cuts, i)
    ensures Seg(list, cuts + [|list|], n) == []
    ensures forall i | 0 <= i < n :: MarkAt(list, (cuts + [|list|])[i]) == MarkAt(list, cuts[i])
    ensures MarkAt(list, (cuts + [|list|])[n]) == MarkAt(list, |list|)
  {}

  lemma StartMarks(l: Layout, s: State)
    requires Cuts(l.oldCuts, |l.olds|, |s.stack|) && Cuts(l.removedCuts, |l.removed|, |s.stack|)
    requires MarksOk(l.states, l.olds, l.oldCuts, l.removed, l.removedCuts, s.stack)
    ensures Cuts(l.oldCuts + [|l.olds|], |l.olds|, |s.stack| + 1)
    ensures Cuts(l.removedCuts + [|l.removed|], |l.removed|, |s.stack| + 1)
    ensures MarksOk(l.states + [UndoState(MarkAt(l.olds, |l.olds|), MarkAt(l.removed, |l.removed|), s.nextId,
      s.mono + 1)],
      l.olds, l.oldCuts + [|l.olds|], l.removed, l.removedCuts + [|l.removed|], Start(s).stack)
  {
    CutEnd(l.olds, l.oldCuts, |s.stack|);
    CutEnd(l.removed, l.removedCuts, |s.stack|);
  }

  lemma StartStored(l: Layout, s: State)
    requires Stored(l, s)
    ensures var r := l.(
        states := l.states + [UndoState(MarkAt(l.olds, |l.olds|), MarkAt(l.removed, |l.removed|), s.nextId,
          s.mono + 1)],
        oldCuts := l.oldCuts + [|l.olds|], removedCuts := l.removedCuts + [|l.removed|]);
      Stored(r, Start(s))
  {
    hide MarksOk, RemovedOk, BackupsOk, Named, Shows;
    StartMarks(l, s);
    StartRemoved(l, s);
    StartBackups(l, s);
  }

  lemma StartRemoved(l: Layout, s: State)
    requires RemovedOk(l.nodes, l.at, l.removed, l.removedCuts, s.stack)
    ensures RemovedOk(l.nodes, l.at, l.removed, l.removedCuts + [|l.removed|], Start(s).stack)
  {
    hide Cuts;
    CutEnd(l.removed, l.removedCuts, |s.stack|);
    assert Elems([]) == {};
  }

  lemma StartBackups(l: Layout, s: State)
    requires BackupsOk(l.nodes, l.backups, l.olds, l.oldCuts, s.stack)
    ensures BackupsOk(l.nodes, l.backups, l.olds, l.oldCuts + [|l.olds|], Start(s).stack)
  {
    hide Cuts;
    CutEnd(l.olds, l.oldCuts, |s.stack|);
  }

  /** A node added to the memory, before and after it is in the indices. */
  lemma EmplaceIndices(l: Layout, s: State, p: nat, n: Node)
    requires Stored(l, s) && Indexed(l, s) && p !in l.nodes && n.id == s.nextId && !n.removed
    ensures var r := l.nodes[p := n];
      && |l.indices| == s.width + 1
      && p !in MainSet(l.nodes)
      && MainSet(r) == MainSet(l.nodes) + {p}
      && IndicesOk(r, l.indices, MainSet(l.nodes))
      && (Fits(s.main, n.value, s.width) <==> forall k | 1 <= k <= s.width :: NoTwin(r, k, MainSet(l.nodes), p))
      // `push_back` on the id index
      && Holds(l.indices[0] + [p], MainSet(r)) && Sorted(r, 0, l.indices[0] + [p])
  {
    hide RemovedOk, BackupsOk, MarksOk, Cuts;
    var r, idx := l.nodes[p := n], l.indices[0];
    NewNodeIndices(l.nodes, l.indices, p, n);
    assert MainSet(r) - {p} == MainSet(l.nodes);
    ShowsAlike(l.nodes, l.at, r, l.at, MainSet(l.nodes), s.main);
    FitsNoTwin(r, l.at, s.main, p, s.width);
    InsertHolds(idx, MainSet(l.nodes), |idx|, p);
    assert InsertAt(idx, |idx|, p) == idx + [p];
    forall i | 0 <= i < |idx| ensures KeyAt(r, 0, idx[i]) < KeyAt(r, 0, p) {
      assert idx[i] in MainSet(l.nodes);
    }
  }

  lemma NewNodeIndices(m: Memory, indices: seq<seq<nat>>, p: nat, n: Node)
    requires IndicesOk(m, indices, MainSet(m)) && p !in m && !n.removed
    ensures IndicesOk(m[p := n], indices, MainSet(m)) && p !in MainSet(m) && MainSet(m[p := n]) == MainSet(m) + {p}
  {
    forall k | 0 <= k < |indices| ensures Sorted(m[p := n], k, indices[k]) {
      assert forall a | a in indices[k] :: a in MainSet(m);
      SameKeys(m, m[p := n], k, indices[k]);
    }
  }

  /** Stamps do not matter to the indices. */
  lemma StampIndices(m: Memory, indices: seq<seq<nat>>, live: set<nat>, p: nat, t: nat)
    requires IndicesOk(m, indices, live) && p in m
    ensures IndicesOk(m[p := m[p].(mtime := t)], indices, live)
    ensures MainSet(m[p := m[p].(mtime := t)]) == MainSet(m)
  {
    forall k | 0 <= k < |indices| ensures Sorted(m[p := m[p].(mtime := t)], k, indices[k]) {
      SameKeys(m, m[p := m[p].(mtime := t)], k, indices[k]);
    }
  }

  lemma StackLengths(l: Layout, s: State)
    requires Stored(l, s)
    ensures |l.states| == |s.stack|
  {}

  /** `Stored` does not look at the indices. */
  lemma Reindexed(l: Layout, s: State, indices: seq<seq<nat>>)
    requires Stored(l, s)
    ensures Stored(l.(indices := indices), s)
  {}

  /** All of `emplace`, once the node is in every index. */
  lemma EmplaceDone(l: Layout, s: State, p: nat, v: Value, indices: seq<seq<nat>>, n: Node)
    requires Stored(l, s) && Indexed(l, s) && Sane(s) && p !in l.nodes && Fits(s.main, v, s.width)
    requires |indices| == s.width + 1 && indices[0] == l.indices[0] + [p]
    requires var r := l.nodes[p := Node(s.nextId, v, 0, false)];
      forall k | 1 <= k < |indices| :: Holds(indices[k], MainSet(l.nodes) + {p}) && Sorted(r, k, indices[k])
    requires n == Node(s.nextId, v, if s.stack == [] then 0 else s.mono, false)
    ensures var r := l.(nodes := l.nodes[p := n], indices := indices, at := l.at[s.nextId := p]);
      Stored(r, Emplace(s, v)) && Indexed(r, Emplace(s, v))
  {
    hide Stored, Sane, Fits, Holds, Sorted, MainSet;
    var n0 := Node(s.nextId, v, 0, false);
    EmplaceIndices(l, s, p, n0);
    StampIndices(l.nodes[p := n0], indices, MainSet(l.nodes[p := n0]), p, n.mtime);
    assert l.nodes[p := n0][p := n] == l.nodes[p := n];
    EmplaceStored(l, s, p, v, n);
    Reindexed(l.(nodes := l.nodes[p := n], at := l.at[s.nextId := p]), Emplace(s, v), indices);
  }

  lemma IndexCount(l: Layout, s: State)
    requires Indexed(l, s)
    ensures |l.indices| == s.width + 1
  {}

  // ----- remove and modify: from the indices to the whole layout

  /** A node is taken out of the table: freed, or flagged as removed. */
  lemma UnlinkIndices(m: Memory, r: Memory, indices: seq<seq<nat>>, p: nat)
    requires p in m && (r == m - {p} || r == m[p := m[p].(removed := true)])
    requires forall k | 0 <= k < |indices| :: Holds(indices[k], MainSet(m) - {p}) && Sorted(m, k, indices[k])
    ensures IndicesOk(r, indices, MainSet(r))
  {
    assert MainSet(r) == MainSet(m) - {p};
    forall k | 0 <= k < |indices| ensures Sorted(r, k, indices[k]) {
      SameKeys(m, r, k, indices[k]);
    }
  }

  /** What `remove` leaves when it frees the node. */
  lemma FreeDone(l: Layout, s: State, p: nat, indices: seq<seq<nat>>)
    requires Stored(l, s) && Sane(s) && p in l.nodes && !l.nodes[p].removed && |indices| == s.width + 1
    requires s.stack == [] || Top(s).oldNextId <= l.nodes[p].id
    requires forall k | 0 <= k < |indices| ::
      Holds(indices[k], MainSet(l.nodes) - {p}) && Sorted(l.nodes, k, indices[k])
    ensures l.nodes[p].id in s.main
    ensures var r := l.(nodes := l.nodes - {p}, indices := indices, at := l.at - {l.nodes[p].id});
      Stored(r, Remove(s, l.nodes[p].id)) && Indexed(r, Remove(s, l.nodes[p].id))
  {
    hide Stored, Sane, Holds, Sorted;
    FreeStored(l, s, p);
    UnlinkIndices(l.nodes, l.nodes - {p}, indices, p);
    Reindexed(l.(nodes := l.nodes - {p}, at := l.at - {l.nodes[p].id}), Remove(s, l.nodes[p].id), indices);
  }

  /** What `remove` leaves when it keeps the node for undo. */
  lemma RetireDone(l: Layout, s: State, p: nat, indices: seq<seq<nat>>)
    requires Stored(l, s) && Sane(s) && p in l.nodes && !l.nodes[p].removed && |indices| == s.width + 1
    requires s.stack != [] && l.nodes[p].id < Top(s).oldNextId && s.main.Keys !! Top(s).removed.Keys
    requires forall k | 0 <= k < |indices| ::
      Holds(indices[k], MainSet(l.nodes) - {p}) && Sorted(l.nodes, k, indices[k])
    ensures l.nodes[p].id in s.main
    ensures var r := l.(nodes := l.nodes[p := l.nodes[p].(removed := true)], removed := l.removed + [p],
      indices := indices);
      Stored(r, Remove(s, l.nodes[p].id)) && Indexed(r, Remove(s, l.nodes[p].id))
  {
    hide Stored, Sane, Holds, Sorted;
    var r := l.nodes[p := l.nodes[p].(removed := true)];
    RetireStored(l, s, p);
    UnlinkIndices(l.nodes, r, indices, p);
    Reindexed(l.(nodes := r, removed := l.removed + [p]), Remove(s, l.nodes[p].id), indices);
  }

  lemma TopMark(l: Layout, s: State)
    requires Stored(l, s)
    ensures |l.states| == |s.stack|
    ensures s.stack != [] ==>
      l.states[|s.stack| - 1].oldNextId == Top(s).oldNextId && l.states[|s.stack| - 1].ctime == Top(s).ctime
  {}

  lemma InTable(l: Layout, s: State, p: nat)
    requires Stored(l, s) && p in l.nodes && !l.nodes[p].removed
    ensures p in MainSet(l.nodes) && l.nodes[p].id in s.main && s.main[l.nodes[p].id] == RowOf(l.nodes[p])
  {}

  /** A node overwritten in place: the id index is fine, in the others only `p` may be misplaced. */
  lemma OverwriteIndices(l: Layout, s: State, p: nat, n: Node)
    requires Stored(l, s) && Indexed(l, s) && p in l.nodes && !l.nodes[p].removed
    requires n.id == l.nodes[p].id && !n.removed
    ensures var r, live := l.nodes[p := n], MainSet(l.nodes);
      && |l.indices| == s.width + 1 && p in live && MainSet(r) == live
      && (forall k | 0 <= k < |l.indices| :: Holds(l.indices[k], live) && SortedBut(r, k, l.indices[k], p))
      && Sorted(r, 0, l.indices[0])
      && (Fits(s.main - {n.id}, n.value, s.width) <==> forall k | 1 <= k <= s.width :: NoTwin(r, k, live, p))
  {
    hide RemovedOk, BackupsOk, MarksOk, Cuts;
    var r, live := l.nodes[p := n], MainSet(l.nodes);
    assert MainSet(r) == live;
    forall k | 0 <= k < |l.indices| ensures SortedBut(r, k, l.indices[k], p) {
      OneChanged(l.nodes, k, l.indices[k], p, n);
    }
    SameKeys(l.nodes, r, 0, l.indices[0]);
    OthersShow(l.nodes, l.at, s.main, p, n);
    FitsNoTwin(r, l.at, s.main - {n.id}, p, s.width);
    forall k ensures NoTwin(r, k, live, p) <==> NoTwin(r, k, live - {p}, p) {}
  }

  lemma OthersShow(m: Memory, at: map<nat, nat>, t: Table, p: nat, n: Node)
    requires Named(m, at) && Shows(m, at, MainSet(m), t) && p in m && n.id == m[p].id && !n.removed && !m[p].removed
    ensures Shows(m[p := n], at, MainSet(m[p := n]) - {p}, t - {n.id})
  {}

  /** `on_modify` and the change itself, as they leave the memory and the lists. */
  lemma BackupDone(l: Layout, s: State, p: nat, q: nat, v: Value)
    requires Stored(l, s) && Sane(s) && p in l.nodes && !l.nodes[p].removed && q !in l.backups
    requires l.nodes[p].id in s.main && NeedsBackup(s, l.nodes[p].id) && l.nodes[p].id < Top(s).oldNextId
    ensures var n := l.nodes[p];
      Stored(l.(nodes := l.nodes[p := n.(value := v, mtime := s.mono)],
                backups := l.backups[q := OldNode(n.id, n.value, n.mtime, p)], olds := l.olds + [q]),
        BackedUp(s, n.id, v))
  {
    hide Stored, Sane;
    var n := l.nodes[p];
    var o := OldNode(n.id, n.value, n.mtime, p);
    InTable(l, s, p);
    BackupStored(l, s, q, o);
    var l1 := l.(backups := l.backups[q := o], olds := l.olds + [q]);
    var s1 := WithTop(s, Top(s).(olds := Top(s).olds + [EntryOf(o)]));
    BackupSane(s, n.id);
    OverwriteStored(l1, s1, p, Row(v, s.mono));
  }

  lemma BackupSane(s: State, id: nat)
    requires Sane(s) && id in s.main && NeedsBackup(s, id)
    requires id < Top(s).oldNextId
    ensures Sane(WithTop(s, Top(s).(olds := Top(s).olds + [Entry(id, s.main[id])])))
  {}

  /** The whole of a `modify` that succeeds. */
  lemma ChangedStored(l: Layout, s: State, p: nat, q: nat, v: Value)
    requires Stored(l, s) && Sane(s) && p in l.nodes && !l.nodes[p].removed && q !in l.backups
    requires l.nodes[p].id in s.main && ModifyOutcome(s, l.nodes[p].id, v) == Changed
    requires NeedsBackup(s, l.nodes[p].id) ==> l.nodes[p].id < Top(s).oldNextId
    ensures var n := l.nodes[p];
      if NeedsBackup(s, n.id) then
        Stored(l.(nodes := l.nodes[p := n.(value := v, mtime := s.mono)],
                  backups := l.backups[q := OldNode(n.id, n.value, n.mtime, p)], olds := l.olds + [q]),
                    Modify(s, n.id, v))
      else Stored(l.(nodes := l.nodes[p := n.(value := v)]), Modify(s, n.id, v))
  {
    hide Stored, Sane;
    var n := l.nodes[p];
    InTable(l, s, p);
    if NeedsBackup(s, n.id) {
      BackupDone(l, s, p, q, v);
    } else {
      OverwriteStored(l, s, p, Row(v, n.mtime));
    }
  }

  /** The node `p` may be out of place in the indices; the other nodes are where they were. */
  ghost predicate Displaced(l: Layout, r: Memory, indices: seq<seq<nat>>, p: nat) {
    |indices| == |l.indices| && forall k | 0 <= k < |indices| ::
      && Holds(indices[k], MainSet(l.nodes)) && SortedBut(r, k, indices[k], p)
      && p in indices[k] && p in l.indices[k] && Erase(indices[k], p) == Erase(l.indices[k], p)
  }

  lemma DisplacedIs(l: Layout, r: Memory, indices: seq<seq<nat>>, p: nat)
    requires |indices| == |l.indices| && (|indices| > 0 ==> indices[0] == l.indices[0]) && p in MainSet(l.nodes)
    requires forall k | 0 <= k < |indices| :: Holds(l.indices[k], MainSet(l.nodes))
    requires forall k | 0 <= k < |indices| :: Holds(indices[k], MainSet(l.nodes)) && SortedBut(r, k, indices[k], p)
    requires forall k | 1 <= k < |indices| ::
      p in indices[k] && p in l.indices[k] && Erase(indices[k], p) == Erase(l.indices[k], p)
    ensures Displaced(l, r, indices, p)
  {
    hide Erase, SortedBut;
  }

  lemma DisplacedSorted(l: Layout, r: Memory, indices: seq<seq<nat>>, p: nat)
    requires Displaced(l, r, indices, p)
    ensures |indices| == |l.indices|
    ensures forall k | 0 <= k < |indices| :: Holds(indices[k], MainSet(l.nodes)) && SortedBut(r, k, indices[k], p)
  {}

  lemma IndexedHolds(l: Layout, s: State)
    requires Indexed(l, s)
    ensures |l.indices| == s.width + 1 && forall k | 0 <= k < |l.indices| :: Holds(l.indices[k], MainSet(l.nodes))
  {}

  /** Reverting gives every index back as it was, if no other object has a key of the old value. */
  lemma RevertedExactly(l: Layout, s: State, p: nat, indices: seq<seq<nat>>, success: bool)
    requires Stored(l, s) && Indexed(l, s) && p in l.nodes && !l.nodes[p].removed && |indices| == |l.indices|
    requires l.nodes[p].id in s.main && indices[0] == l.indices[0]
    requires var r, live := l.nodes[p := l.nodes[p].(mtime := s.mono)], MainSet(l.nodes);
      && (forall k | 1 <= k < |indices| :: Holds(indices[k], live) && p in indices[k] && p in l.indices[k]
            && Erase(indices[k], p) == Erase(l.indices[k], p) && (success ==> Sorted(r, k, indices[k])))
      && (success <==> KeysFree(r, 1, |indices|, live, p))
    ensures success <==> OwnKeys(s, l.nodes[p].id)
    ensures success ==> indices == l.indices
    ensures forall k | 0 <= k < |indices| :: Holds(indices[k], MainSet(l.nodes))
  {
    hide RemovedOk, BackupsOk, MarksOk, Cuts, Holds, Sorted, Erase, Fits;
    var r, live := l.nodes[p := l.nodes[p].(mtime := s.mono)], MainSet(l.nodes);
    OverwriteIndices(l, s, p, r[p]);
    if success {
      forall k | 1 <= k < |indices| ensures indices[k] == l.indices[k] {
        SameKeys(r, l.nodes, k, indices[k]);
        assert NoTwin(r, k, live, p);
        assert forall a | a in live || a == p :: KeyAt(l.nodes, k, a) == KeyAt(r, k, a);
        PlaceUnique(l.nodes, k, indices[k], l.indices[k], live, p);
      }
    }
  }

  /** What `modify` may rely on. */
  lemma ModifyBegins(l: Layout, s: State, p: nat, v: Value)
    requires Stored(l, s) && Indexed(l, s) && Sturdy(s) && p in l.nodes && !l.nodes[p].removed
    ensures var id := l.nodes[p].id;
      && p in MainSet(l.nodes) && id in s.main && s.main[id] == RowOf(l.nodes[p])
      && Sane(s)
      && (s.stack != [] ==> s.main.Keys !! Top(s).removed.Keys)
      && (NeedsBackup(s, id) ==> id < Top(s).oldNextId)
      && Sturdy(Modify(s, id, v)) && (Wf(s) ==> (Wf(Modify(s, id, v)) <==> LeakFits(s, id, v)))
      && Modify(s, id, v).revision == s.revision && Modify(s, id, v).width == s.width
      && Modify(s, id, v).mono == s.mono && Modify(s, id, v).nextId == s.nextId
  {
    hide Stored, Indexed, Sturdy, Wf, SessionBounds, Growing, Single, BackupsLive, BackupsOlder, Fits, Sane, Unique,
      LeakFits;
    InTable(l, s, p);
    SturdySane(s);
    SturdyParts(s);
    ModifySturdy(s, l.nodes[p].id, v);
    if Wf(s) {
      ModifyWfExact(s, l.nodes[p].id, v);
    }
  }

  /** How `modify` ends, told by the fields that it looks at. */
  lemma ModifyEnds(l: Layout, s: State, p: nat, v: Value)
    requires Stored(l, s) && p in l.nodes && !l.nodes[p].removed
    ensures var id, n := l.nodes[p].id, |l.states|;
      && id in s.main && (ModifyOutcome(s, id, v) == Changed <==> Fits(s.main - {id}, v, s.width))
      && Values(Modify(s, id, v).main) ==
           if Fits(s.main - {id}, v, s.width) then Values(s.main)[id := v]
           else if n == 0 || l.states[n - 1].ctime <= l.nodes[p].mtime then Values(s.main) - {id}
           else Values(s.main)
  {
    hide Stored, Fits;
    InTable(l, s, p);
    TopMark(l, s);
  }

  lemma ChangedDone(l: Layout, s: State, p: nat, q: nat, v: Value, nodes: Memory, indices: seq<seq<nat>>)
    requires Stored(l, s) && Indexed(l, s) && Sane(s) && p in l.nodes && !l.nodes[p].removed && q !in l.backups
    requires l.nodes[p].id in s.main && ModifyOutcome(s, l.nodes[p].id, v) == Changed
    requires NeedsBackup(s, l.nodes[p].id) ==> l.nodes[p].id < Top(s).oldNextId
    requires var mtime := if NeedsBackup(s, l.nodes[p].id) then s.mono else l.nodes[p].mtime;
      nodes == l.nodes[p := l.nodes[p].(value := v, mtime := mtime)]
    requires |indices| == |l.indices| && (|indices| > 0 ==> indices[0] == l.indices[0])
    requires forall k | 1 <= k < |indices| :: Holds(indices[k], MainSet(l.nodes)) && Sorted(nodes, k, indices[k])
    ensures var n := l.nodes[p];
      var r := l.(nodes := nodes, indices := indices);
      var r' := if NeedsBackup(s, n.id)
        then r.(backups := l.backups[q := OldNode(n.id, n.value, n.mtime, p)], olds := l.olds + [q]) else r;
      Stored(r', Modify(s, n.id, v)) && Indexed(r', Modify(s, n.id, v))
  {
    hide Stored, Sane, Holds, Sorted, SortedBut, MainSet, Fits;
    var n := l.nodes[p];
    OverwriteIndices(l, s, p, nodes[p]);
    ChangedStored(l, s, p, q, v);
    var l1 := l.(nodes := nodes);
    if NeedsBackup(s, n.id) {
      Reindexed(l1.(backups := l.backups[q := OldNode(n.id, n.value, n.mtime, p)], olds := l.olds + [q]),
        Modify(s, n.id, v), indices);
    } else {
      Reindexed(l1, Modify(s, n.id, v), indices);
    }
  }

  lemma RevertedDone(l: Layout, s: State, p: nat, v: Value, indices: seq<seq<nat>>, success: bool)
    requires Stored(l, s) && Indexed(l, s) && Sane(s) && p in l.nodes && !l.nodes[p].removed
    requires l.nodes[p].id in s.main && ModifyOutcome(s, l.nodes[p].id, v) == Reverted
    requires success ==> indices == l.indices
    ensures var r := l.(nodes := l.nodes[p := l.nodes[p].(mtime := s.mono)], indices := indices);
      && MainSet(r.nodes) == MainSet(l.nodes)
      && Stored(r, Modify(s, l.nodes[p].id, v)) && (success ==> Indexed(r, Modify(s, l.nodes[p].id, v)))
  {
    hide Stored, Sane, Holds, Sorted, MainSet, Fits;
    InTable(l, s, p);
    OverwriteStored(l, s, p, Row(l.nodes[p].value, s.mono));
    StampIndices(l.nodes, l.indices, MainSet(l.nodes), p, s.mono);
    Reindexed(l.(nodes := l.nodes[p := l.nodes[p].(mtime := s.mono)]), Modify(s, l.nodes[p].id, v), indices);
  }

  lemma ErasedBegins(l: Layout, s: State, p: nat, v: Value, indices: seq<seq<nat>>)
    requires Stored(l, s) && Sane(s) && p in l.nodes && !l.nodes[p].removed
    requires l.nodes[p].id in s.main && ModifyOutcome(s, l.nodes[p].id, v) == Erased
    ensures var id := l.nodes[p].id;
      var s1 := s.(main := s.main[id := Row(v, l.nodes[p].mtime)]);
      && Stored(l.(nodes := l.nodes[p := l.nodes[p].(value := v)], indices := indices), s1)
      && Sane(s1) && Modify(s, id, v) == Remove(s1, id)
  {
    hide Stored, Fits;
    var id := l.nodes[p].id;
    InTable(l, s, p);
    OverwriteStored(l, s, p, Row(v, l.nodes[p].mtime));
    Reindexed(l.(nodes := l.nodes[p := l.nodes[p].(value := v)]), s.(main := s.main[id := Row(v, l.nodes[p].mtime)]),
      indices);
  }
}
