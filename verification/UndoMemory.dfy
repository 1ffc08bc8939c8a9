/** What `undo` does to the memory, phase by phase, and why the result shows the undone table. */
module UndoMemory {
  import opened Basics
  import opened Tables
  import opened UndoModel
  import opened UndoInvariant
  import opened UndoLeaks
  import opened UndoLosses
  import opened UndoExactness
  import opened OrderedIndex
  import opened UndoLayout

  // ----- the three phases

  /** All new ids are erased. */
  function DropNew(m: Memory, oldNextId: nat): Memory {
    map a | a in m && (m[a].removed || m[a].id < oldNextId) :: m[a]
  }

  function RestoreNode(n: Node, olds: seq<Entry>, c: nat): Node {
    var r := Oldest(olds, n.id, c);
    if r.Some? then n.(value := r.value.value, mtime := r.value.mtime) else n
  }

  /** All usable backups are written back. */
  function RestoreNodes(m: Memory, olds: seq<Entry>, c: nat): Memory {
    map a | a in m :: RestoreNode(m[a], olds, c)
  }

  /** The removed nodes `seg` go back into the table, or are freed if their ids are new. */
  function ReviveNodes(m: Memory, seg: set<nat>, oldNextId: nat): Memory {
    map a | a in m && (a in seg ==> m[a].id < oldNextId) :: if a in seg then m[a].(removed := false) else m[a]
  }

  /** The names of the nodes that are left. */
  function Names(at: map<nat, nat>, m: Memory): map<nat, nat> {
    map id | id in at && at[id] in m :: at[id]
  }

  function UndoneNodes(m: Memory, t: Session, seg: set<nat>): Memory {
    ReviveNodes(RestoreNodes(DropNew(m, t.oldNextId), t.olds, t.ctime), seg, t.oldNextId)
  }

  /** No two nodes of the table share a key. */
  ghost predicate NoTwins(m: Memory, width: nat) {
    forall k, a | 0 <= k <= width && a in MainSet(m) :: NoTwin(m, k, MainSet(m), a)
  }

  // ----- steps of the phases

  /** Restoring goes from the newest backup to the oldest; each step puts one in front. */
  lemma RestoreStep(m: Memory, e: Entry, olds: seq<Entry>, c: nat)
    ensures RestoreNodes(RestoreNodes(m, olds, c), [e], c) == RestoreNodes(m, [e] + olds, c)
  {
    forall a | a in m ensures RestoreNode(RestoreNode(m[a], olds, c), [e], c) == RestoreNode(m[a], [e] + olds, c) {
      OldestAppend([e], olds, m[a].id, c);
    }
  }

  lemma RestoreNothing(m: Memory, c: nat)
    ensures RestoreNodes(m, [], c) == m
  {}

  /** A node without twins has none in a part of the table either. */
  lemma PartNoTwin(m: Memory, r: Memory, live: set<nat>, k: nat, p: nat)
    requires NoTwin(r, k, MainSet(r), p) && live <= MainSet(r)
    requires forall a | a in live || a == p :: KeyAt(m, k, a) == KeyAt(r, k, a)
    ensures NoTwin(m, k, live, p)
  {}

  lemma SortedToStrict(m: Memory, r: Memory, indices: seq<seq<nat>>, live: set<nat>, width: nat)
    requires NoTwins(r, width) && |indices| == width + 1 && live <= MainSet(r) && IndicesOk(m, indices, live)
    requires forall a, k | a in live && 0 <= k <= width :: KeyAt(m, k, a) == KeyAt(r, k, a)
    ensures AllStrict(m, indices)
  {
    forall k | 0 <= k < |indices| ensures Strict(m, k, indices[k]) {
      forall a | a in live ensures NoTwin(m, k, live, a) {
        assert NoTwin(r, k, MainSet(r), a);
        PartNoTwin(m, r, live, k, a);
      }
      SortedUniqueStrict(m, k, indices[k], live);
    }
  }

  // ----- the result

  lemma DropNamed(m: Memory, at: map<nat, nat>, r: Memory)
    requires Named(m, at)
    requires forall a | a in r :: a in m && r[a].id == m[a].id
    ensures Named(r, Names(at, r))
  {}

  /** The segment of removed nodes that the top session owns. */
  function TopSeg(l: Layout, n: nat): seq<nat>
    requires n > 0 && Cuts(l.removedCuts, |l.removed|, n)
  {
    Seg(l.removed, l.removedCuts, n - 1)
  }

  lemma TopRemoved(l: Layout, s: State)
    requires Stored(l, s) && s.stack != []
    ensures Cuts(l.removedCuts, |l.removed|, |s.stack|)
    ensures Shows(l.nodes, l.at, Elems(TopSeg(l, |s.stack|)), Top(s).removed)
    ensures forall a | a in TopSeg(l, |s.stack|) :: a in l.nodes && l.nodes[a].removed
  {
    assert forall a <- TopSeg(l, |s.stack|) :: a in l.removed;
  }

  /** The nodes of the table after undo are those of the ids below `old_next_id` that were in the
    * table or removed in the session. */
  lemma UndoneMain(l: Layout, s: State)
    requires Stored(l, s) && s.stack != [] && s.main.Keys !! Top(s).removed.Keys
    ensures Cuts(l.removedCuts, |l.removed|, |s.stack|)
    ensures var r := UndoneNodes(l.nodes, Top(s), Elems(TopSeg(l, |s.stack|)));
      Shows(r, Names(l.at, r), MainSet(r), UndoMain(s.main, Top(s)))
  {
    hide RemovedOk, BackupsOk, MarksOk;
    TopRemoved(l, s);
    UndoneShows(l.nodes, l.at, s.main, Top(s), Elems(TopSeg(l, |s.stack|)));
  }

  lemma UndoneShows(m: Memory, at: map<nat, nat>, main: Table, t: Session, seg: set<nat>)
    requires Named(m, at) && Shows(m, at, MainSet(m), main) && Shows(m, at, seg, t.removed)
    requires main.Keys !! t.removed.Keys && forall a | a in seg :: a in m && m[a].removed
    ensures var r := UndoneNodes(m, t, seg); Shows(r, Names(at, r), MainSet(r), UndoMain(main, t))
  {
    hide Named, Shows, MainSet, UndoneNodes, UndoMain;
    var r, u := UndoneNodes(m, t, seg), UndoMain(main, t);
    forall a | a in MainSet(r) ensures a in r && r[a].id in u && u[r[a].id] == RowOf(r[a]) {
      UndoneNode(m, at, main, t, seg, a);
    }
    forall id | id in u
      ensures id in Names(at, r) && Names(at, r)[id] in MainSet(r) && Names(at, r)[id] in r
        && r[Names(at, r)[id]].id == id
    {
      UndoneId(m, at, main, t, seg, id);
    }
    ShowsFrom(r, Names(at, r), MainSet(r), u);
  }

  lemma ShowsFrom(m: Memory, at: map<nat, nat>, live: set<nat>, t: Table)
    requires forall a | a in live :: a in m && m[a].id in t && t[m[a].id] == RowOf(m[a])
    requires forall id | id in t :: id in at && at[id] in live && at[id] in m && m[at[id]].id == id
    ensures Shows(m, at, live, t)
  {}

  lemma UndoneNode(m: Memory, at: map<nat, nat>, main: Table, t: Session, seg: set<nat>, a: nat)
    requires Shows(m, at, MainSet(m), main) && Shows(m, at, seg, t.removed)
    requires main.Keys !! t.removed.Keys && forall a | a in seg :: a in m && m[a].removed
    requires a in MainSet(UndoneNodes(m, t, seg))
    ensures var r, u := UndoneNodes(m, t, seg), UndoMain(main, t);
      a in r && r[a].id in u && u[r[a].id] == RowOf(r[a])
  {
    hide Oldest;
    assert a in MainSet(m) || a in seg;
    assert Before(main, t, m[a].id).Some?;
  }

  lemma UndoneId(m: Memory, at: map<nat, nat>, main: Table, t: Session, seg: set<nat>, id: nat)
    requires Named(m, at) && Shows(m, at, MainSet(m), main) && Shows(m, at, seg, t.removed)
    requires forall a | a in seg :: a in m && m[a].removed
    requires id in UndoMain(main, t)
    ensures var r := UndoneNodes(m, t, seg);
      id in Names(at, r) && Names(at, r)[id] in MainSet(r) && Names(at, r)[id] in r && r[Names(at, r)[id]].id == id
  {
    hide Oldest;
    assert id in main || id in t.removed;
  }

  /** Undo leaves every other removed node alone: none of them has a usable backup in the session. */
  lemma OthersUntouched(l: Layout, s: State, a: nat)
    requires Stored(l, s) && s.stack != [] && BackupsLive(s.main, Top(s))
    requires a in l.nodes && l.nodes[a].removed && a !in TopSeg(l, |s.stack|)
    ensures var r := UndoneNodes(l.nodes, Top(s), Elems(TopSeg(l, |s.stack|)));
      a in r && r[a] == l.nodes[a]
  {
    hide RemovedOk, BackupsOk, MarksOk, IdsOk;
    TopRemoved(l, s);
    var t := Top(s);
    OldestFound(t.olds, l.nodes[a].id, t.ctime);
  }

  // ----- the lists below the top session

  function Prefix(s: seq<nat>): seq<nat>
    requires s != []
  {
    s[..|s| - 1]
  }

  lemma SliceOfPrefix(list: seq<nat>, c: nat, x: nat, y: nat)
    requires x <= y <= c <= |list|
    ensures list[..c][x..y] == list[x..y] && list[..c][..x] == list[..x]
  {}

  /** Dropping the top segment of a list. */
  lemma CutPrefix(list: seq<nat>, cuts: seq<nat>, n: nat)
    requires Cuts(cuts, |list|, n) && n > 0
    ensures cuts[n - 1] <= |list| && |cuts| == n && Cuts(Prefix(cuts), cuts[n - 1], n - 1)
    ensures forall i | 0 <= i < n - 1 ::
      && cuts[i] <= End(cuts, |list|, i) <= |list|
      && cuts[i] <= End(Prefix(cuts), cuts[n - 1], i) <= cuts[n - 1]
      && Seg(list[..cuts[n - 1]], Prefix(cuts), i) == Seg(list, cuts, i)
      && MarkAt(list[..cuts[n - 1]], cuts[i]) == MarkAt(list, cuts[i])
    ensures n > 1 ==> cuts[0] <= cuts[n - 1] && list[..cuts[n - 1]][..cuts[0]] == list[..cuts[0]]
  {
    forall i | 0 <= i < n - 1 ensures
      && cuts[i] <= End(cuts, |list|, i) <= |list|
      && cuts[i] <= End(Prefix(cuts), cuts[n - 1], i) <= cuts[n - 1]
      && Seg(list[..cuts[n - 1]], Prefix(cuts), i) == Seg(list, cuts, i)
      && MarkAt(list[..cuts[n - 1]], cuts[i]) == MarkAt(list, cuts[i])
    {
      CutPrefixAt(list, cuts, n, i);
    }
    if n > 1 {
      SliceOfPrefix(list, cuts[n - 1], cuts[0], cuts[0]);
    }
  }

  lemma CutPrefixAt(list: seq<nat>, cuts: seq<nat>, n: nat, i: nat)
    requires Cuts(cuts, |list|, n) && i < n - 1
    ensures cuts[i] <= End(cuts, |list|, i) <= |list|
    ensures cuts[i] <= End(Prefix(cuts), cuts[n - 1], i) <= cuts[n - 1] <= |list|
    ensures Seg(list[..cuts[n - 1]], Prefix(cuts), i) == Seg(list, cuts, i)
    ensures MarkAt(list[..cuts[n - 1]], cuts[i]) == MarkAt(list, cuts[i])
  {
    var x, y, c := cuts[i], cuts[i + 1], cuts[n - 1];
    hide Cuts;
    SliceOfPrefix(list, c, x, y);
  }

  /** The elements of a list, by segment. */
  lemma TopOrBelow(list: seq<nat>, cuts: seq<nat>, n: nat, a: nat)
    requires Cuts(cuts, |list|, n) && n > 0 && Distinct(list)
    ensures a in list <==> a in list[..cuts[n - 1]] || a in Seg(list, cuts, n - 1)
    ensures !(a in list[..cuts[n - 1]] && a in Seg(list, cuts, n - 1))
  {
    assert list == list[..cuts[n - 1]] + Seg(list, cuts, n - 1);
  }

  function KeptBackups(b: Backups, list: seq<nat>): Backups {
    map q | q in b && q in list :: b[q]
  }

  lemma UsableBelow(stack: seq<Session>, nextId: nat, i: nat)
    requires InOrder(stack, nextId) && UsableOld(stack) && i < |stack|
    ensures forall e <- stack[i].olds | e.row.mtime < stack[i].ctime :: e.id < stack[|stack| - 1].oldNextId
  {
    if i < |stack| - 1 {
      assert stack[i].oldNextId <= stack[|stack| - 1].oldNextId;
    }
  }

  lemma UndoneBackups(m: Memory, r: Memory, b: Backups, list: seq<nat>, cuts: seq<nat>, s: State)
    requires s.stack != [] && BackupsOk(m, b, list, cuts, s.stack) && Sane(s)
    requires forall a | a in m && m[a].id < Top(s).oldNextId :: a in r && r[a].id == m[a].id
    ensures Cuts(cuts, |list|, |s.stack|)
    ensures var n := |s.stack|;
      BackupsOk(r, KeptBackups(b, list[..cuts[n - 1]]), list[..cuts[n - 1]], Prefix(cuts), s.stack[..n - 1])
  {
    hide InOrder, UsableOld, RemovedBelow, Live, Entries, Distinct, KeptBackups, Seg;
    var n := |s.stack|;
    var list', cuts' := list[..cuts[n - 1]], Prefix(cuts);
    var b' := KeptBackups(b, list');
    CutPrefix(list, cuts, n);
    KeptMembers(b, list, cuts[n - 1]);
    forall i | 0 <= i < n - 1
      ensures (forall a <- Seg(list', cuts', i) :: a in b')
      ensures Entries(b', Seg(list', cuts', i)) == s.stack[i].olds
      ensures Live(r, b', Seg(list', cuts', i), s.stack[i].ctime)
    {
      UndoneSegmentAt(m, r, b, list, cuts, s, i);
    }
  }

  lemma KeptMembers(b: Backups, list: seq<nat>, c: nat)
    requires Distinct(list) && (forall a :: a in list <==> a in b) && c <= |list|
    ensures Distinct(list[..c]) && forall a :: a in list[..c] <==> a in KeptBackups(b, list[..c])
  {
    assert forall a <- list[..c] :: a in list;
  }

  lemma UndoneSegmentAt(m: Memory, r: Memory, b: Backups, list: seq<nat>, cuts: seq<nat>, s: State, i: nat)
    requires s.stack != [] && BackupsOk(m, b, list, cuts, s.stack) && Sane(s) && i < |s.stack| - 1
    requires forall a | a in m && m[a].id < Top(s).oldNextId :: a in r && r[a].id == m[a].id
    ensures var b' := KeptBackups(b, list[..cuts[|s.stack| - 1]]);
      && cuts[i] <= End(cuts, |list|, i) <= |list|
      && (forall a <- Seg(list, cuts, i) :: a in b')
      && Entries(b', Seg(list, cuts, i)) == s.stack[i].olds && Live(r, b', Seg(list, cuts, i), s.stack[i].ctime)
  {
    hide InOrder, UsableOld, RemovedBelow, Live, Entries, Distinct;
    var n := |s.stack|;
    var list' := list[..cuts[n - 1]];
    CutPrefix(list, cuts, n);
    assert forall a <- list' :: a in list;
    assert forall a <- Seg(list', Prefix(cuts), i) :: a in list';
    UsableBelow(s.stack, s.nextId, i);
    UndoneSegment(m, r, b, KeptBackups(b, list'), Seg(list, cuts, i), s.stack[i], Top(s).oldNextId);
  }

  lemma UndoneSegment(m: Memory, r: Memory, b: Backups, b': Backups, seg: seq<nat>, t: Session, bound: nat)
    requires (forall a <- seg :: a in b && a in b' && b'[a] == b[a]) && Entries(b, seg) == t.olds
    requires Live(m, b, seg, t.ctime)
    requires forall e <- t.olds | e.row.mtime < t.ctime :: e.id < bound
    requires forall a | a in m && m[a].id < bound :: a in r && r[a].id == m[a].id
    ensures Entries(b', seg) == t.olds && Live(r, b', seg, t.ctime)
  {
    forall a <- seg | b[a].mtime < t.ctime ensures b[a].current in r && r[b[a].current].id == b[a].id {
      EntryAt(b, seg, a);
    }
  }

  lemma UndoneRemoved(m: Memory, at: map<nat, nat>, r: Memory, list: seq<nat>, cuts: seq<nat>, stack: seq<Session>)
    requires stack != [] && RemovedOk(m, at, list, cuts, stack)
    requires forall a | a in list[..cuts[|stack| - 1]] :: a in r && a in m && r[a] == m[a]
    requires forall a | a in r && r[a].removed :: a in m && m[a].removed && a !in Seg(list, cuts, |stack| - 1)
    ensures RemovedOk(r, Names(at, r), list[..cuts[|stack| - 1]], Prefix(cuts), stack[..|stack| - 1])
  {
    hide Shows, Cuts, Seg;
    var n := |stack|;
    CutPrefix(list, cuts, n);
    var list', cuts' := list[..cuts[n - 1]], Prefix(cuts);
    assert Distinct(list') && (forall a :: a in list' <==> a in r && r[a].removed) by {
      UndoneMembers(m, r, list, cuts, n);
    }
    forall i | 0 <= i < n - 1 ensures Shows(r, Names(at, r), Elems(Seg(list', cuts', i)), stack[i].removed) {
      SegMembers(list', cuts', n - 1, i);
      ShowsAlike(m, at, r, Names(at, r), Elems(Seg(list, cuts, i)), stack[i].removed);
    }
  }

  lemma SegMembers(list: seq<nat>, cuts: seq<nat>, n: nat, i: nat)
    requires Cuts(cuts, |list|, n) && i < n
    ensures forall a <- Seg(list, cuts, i) :: a in list
  {}

  lemma UndoneMembers(m: Memory, r: Memory, list: seq<nat>, cuts: seq<nat>, n: nat)
    requires n > 0 && Cuts(cuts, |list|, n) && Distinct(list) && forall a :: a in list <==> a in m && m[a].removed
    requires forall a | a in list[..cuts[n - 1]] :: a in r && a in m && r[a] == m[a]
    requires forall a | a in r && r[a].removed :: a in m && m[a].removed && a !in Seg(list, cuts, n - 1)
    ensures Distinct(list[..cuts[n - 1]]) && forall a :: a in list[..cuts[n - 1]] <==> a in r && r[a].removed
  {
    assert forall a <- list[..cuts[n - 1]] :: a in list;
    forall a ensures a in list[..cuts[n - 1]] <==> a in r && r[a].removed {
      TopOrBelow(list, cuts, n, a);
    }
  }

  /** The layout after `undo`. */
  function UndoneLayout(l: Layout, s: State, indices: seq<seq<nat>>): Layout
    requires s.stack != [] && Cuts(l.oldCuts, |l.olds|, |s.stack|) && Cuts(l.removedCuts, |l.removed|, |s.stack|)
    requires |l.states| == |s.stack|
  {
    var n := |s.stack|;
    var r := UndoneNodes(l.nodes, Top(s), Elems(TopSeg(l, n)));
    Layout(r, KeptBackups(l.backups, l.olds[..l.oldCuts[n - 1]]), indices,
      l.states[..n - 1], l.olds[..l.oldCuts[n - 1]], l.removed[..l.removedCuts[n - 1]],
      Names(l.at, r), Prefix(l.oldCuts), Prefix(l.removedCuts))
  }

  lemma UndoneMarks(l: Layout, s: State)
    requires Stored(l, s) && s.stack != []
    ensures var n := |s.stack|;
      && |l.states| == n
      && Cuts(Prefix(l.oldCuts), l.oldCuts[n - 1], n - 1) && Cuts(Prefix(l.removedCuts), l.removedCuts[n - 1], n - 1)
      && MarksOk(l.states[..n - 1], l.olds[..l.oldCuts[n - 1]], Prefix(l.oldCuts),
           l.removed[..l.removedCuts[n - 1]], Prefix(l.removedCuts), s.stack[..n - 1])
  {
    hide RemovedOk, BackupsOk, IdsOk, Named, Shows, Cuts, Seg, MarkAt;
    CutPrefix(l.olds, l.oldCuts, |s.stack|);
    CutPrefix(l.removed, l.removedCuts, |s.stack|);
  }

  /** Every id that is left lies below the `old_next_id` of the undone session. */
  lemma UndoneIds(l: Layout, s: State, a: nat)
    requires Stored(l, s) && Sane(s) && s.stack != []
    requires a in UndoneNodes(l.nodes, Top(s), Elems(TopSeg(l, |s.stack|)))
    ensures a in l.nodes && l.nodes[a].id < Top(s).oldNextId
  {
    hide BackupsOk, MarksOk, Named, Shows, Sane, IdsOk;
    var n := |s.stack|;
    if l.nodes[a].removed && a !in TopSeg(l, n) {
      TopOrBelow(l.removed, l.removedCuts, n, a);
      var j :| 0 <= j < l.removedCuts[n - 1] && l.removed[j] == a;
      BelowId(l, s, j);
    }
  }

  lemma BelowId(l: Layout, s: State, j: nat)
    requires Stored(l, s) && Sane(s) && s.stack != [] && j < l.removedCuts[|s.stack| - 1]
    ensures l.removed[j] in l.nodes && l.nodes[l.removed[j]].id < Top(s).oldNextId
  {
    hide BackupsOk, MarksOk, Named, UsableOld, MainSet;
    var n, a := |s.stack|, l.removed[j];
    assert a in l.removed;
    if j < l.removedCuts[0] {
      assert a in l.removed[..l.removedCuts[0]];
    } else {
      var i := SegmentOf(l.removedCuts, n, j);
      var seg := Seg(l.removed, l.removedCuts, i);
      assert seg[j - l.removedCuts[i]] == a;
      assert a in Elems(seg);
      assert l.nodes[a].id in s.stack[i].removed;
    }
  }

  /** The segment that position `j` lies in. */
  lemma {:induction false} SegmentOf(cuts: seq<nat>, n: nat, j: nat) returns (i: nat)
    requires |cuts| == n > 0 && cuts[0] <= j < cuts[n - 1]
    ensures i + 1 < n && cuts[i] <= j < cuts[i + 1]
  {
    i := 0;
    while cuts[i + 1] <= j
      invariant i + 1 < n && cuts[i] <= j
      decreases n - i
    {
      i := i + 1;
    }
  }

  /** The whole of `undo`, for the memory and the lists. */
  lemma UndoDone(l: Layout, s: State, indices: seq<seq<nat>>)
    requires Stored(l, s) && Sturdy(s) && s.stack != []
    ensures Cuts(l.oldCuts, |l.olds|, |s.stack|) && Cuts(l.removedCuts, |l.removed|, |s.stack|)
    ensures |l.states| == |s.stack|
    ensures Stored(UndoneLayout(l, s, indices), Undo(s))
  {
    hide Stored, Sturdy, SessionBounds, Growing, Single, BackupsOlder, StampsDatable, BackupsLive, UndoneNodes, Sane;
    var n, t := |s.stack|, Top(s);
    StoredParts(l, s);
    SturdyParts(s);
    SturdySane(s);
    UndoneMarks(l, s);
    UndoneMain(l, s);
    var r := UndoneNodes(l.nodes, t, Elems(TopSeg(l, n)));
    UndoneShape(l.nodes, t, Elems(TopSeg(l, n)));
    UndoneLists(l, s, r);
    forall a | a in r ensures r[a].id < t.oldNextId {
      UndoneIds(l, s, a);
    }
    UndoneStored(l, s, indices, r);
  }

  lemma StoredParts(l: Layout, s: State)
    requires Stored(l, s)
    ensures Cuts(l.oldCuts, |l.olds|, |s.stack|) && Cuts(l.removedCuts, |l.removed|, |s.stack|)
    ensures |l.states| == |s.stack|
  {}

  lemma UndoneShape(m: Memory, t: Session, seg: set<nat>)
    ensures var r := UndoneNodes(m, t, seg);
      && (forall a | a in r :: a in m && r[a].id == m[a].id && (r[a].removed ==> m[a].removed && a !in seg))
      && (forall a | a in m && m[a].id < t.oldNextId :: a in r && r[a].id == m[a].id)
  {}

  lemma UndoneLists(l: Layout, s: State, r: Memory)
    requires Stored(l, s) && Sane(s) && s.stack != [] && BackupsLive(s.main, Top(s))
    requires r == UndoneNodes(l.nodes, Top(s), Elems(TopSeg(l, |s.stack|)))
    ensures var n := |s.stack|;
      && Cuts(l.oldCuts, |l.olds|, n) && Cuts(l.removedCuts, |l.removed|, n)
      && Named(r, Names(l.at, r))
      && BackupsOk(r, KeptBackups(l.backups, l.olds[..l.oldCuts[n - 1]]), l.olds[..l.oldCuts[n - 1]],
        Prefix(l.oldCuts), s.stack[..n - 1])
      && RemovedOk(r, Names(l.at, r), l.removed[..l.removedCuts[n - 1]], Prefix(l.removedCuts), s.stack[..n - 1])
  {
    hide BackupsOk, RemovedOk, MarksOk, IdsOk, Shows, UndoneNodes, Sane;
    var n := |s.stack|;
    UndoneShape(l.nodes, Top(s), Elems(TopSeg(l, n)));
    DropNamed(l.nodes, l.at, r);
    UndoneBackups(l.nodes, r, l.backups, l.olds, l.oldCuts, s);
    forall a | a in l.removed[..l.removedCuts[n - 1]] ensures a in r && a in l.nodes && r[a] == l.nodes[a] {
      BelowIsRemoved(l, s, a);
      OthersUntouched(l, s, a);
    }
    UndoneRemoved(l.nodes, l.at, r, l.removed, l.removedCuts, s.stack);
  }

  lemma BelowIsRemoved(l: Layout, s: State, a: nat)
    requires Stored(l, s) && s.stack != [] && a in l.removed[..l.removedCuts[|s.stack| - 1]]
    ensures a in l.nodes && l.nodes[a].removed && a !in TopSeg(l, |s.stack|)
  {
    hide BackupsOk, MarksOk, IdsOk, Shows, Named;
    TopOrBelow(l.removed, l.removedCuts, |s.stack|, a);
  }

  lemma UndoneStored(l: Layout, s: State, indices: seq<seq<nat>>, r: Memory)
    requires Stored(l, s) && s.stack != [] && |l.states| == |s.stack|
    requires Cuts(l.oldCuts, |l.olds|, |s.stack|) && Cuts(l.removedCuts, |l.removed|, |s.stack|)
    requires r == UndoneNodes(l.nodes, Top(s), Elems(TopSeg(l, |s.stack|)))
    requires var n, at := |s.stack|, Names(l.at, r);
      && Cuts(Prefix(l.oldCuts), l.oldCuts[n - 1], n - 1) && Cuts(Prefix(l.removedCuts), l.removedCuts[n - 1], n - 1)
      && Named(r, at) && Shows(r, at, MainSet(r), UndoMain(s.main, Top(s)))
      && BackupsOk(r, KeptBackups(l.backups, l.olds[..l.oldCuts[n - 1]]), l.olds[..l.oldCuts[n - 1]],
        Prefix(l.oldCuts), s.stack[..n - 1])
      && RemovedOk(r, at, l.removed[..l.removedCuts[n - 1]], Prefix(l.removedCuts), s.stack[..n - 1])
      && MarksOk(l.states[..n - 1], l.olds[..l.oldCuts[n - 1]], Prefix(l.oldCuts),
           l.removed[..l.removedCuts[n - 1]], Prefix(l.removedCuts), s.stack[..n - 1])
    requires forall a | a in r :: a in l.nodes && r[a].id == l.nodes[a].id && r[a].id < Top(s).oldNextId
    ensures Stored(UndoneLayout(l, s, indices), Undo(s))
  {
    hide BackupsOk, RemovedOk, MarksOk, IdsOk, Named, Shows, UndoneNodes, Cuts, UndoMain, KeptBackups, Names, MainSet;
    UndoneIdsOk(l, s, r);
    CutsEnd(l.oldCuts, |l.olds|, |s.stack|);
    CutsEnd(l.removedCuts, |l.removed|, |s.stack|);
  }

  lemma CutsEnd(cuts: seq<nat>, len: nat, n: nat)
    requires Cuts(cuts, len, n) && n > 0
    ensures |cuts| == n && cuts[n - 1] <= len
  {}

  lemma UndoneIdsOk(l: Layout, s: State, r: Memory)
    requires Stored(l, s) && s.stack != []
    requires Cuts(l.removedCuts, |l.removed|, |s.stack|)
    requires Cuts(Prefix(l.removedCuts), l.removedCuts[|s.stack| - 1], |s.stack| - 1)
    requires forall a | a in r :: a in l.nodes && r[a].id == l.nodes[a].id && r[a].id < Top(s).oldNextId
    ensures IdsOk(r, l.removed[..l.removedCuts[|s.stack| - 1]], Prefix(l.removedCuts), Undo(s))
  {
    hide BackupsOk, RemovedOk, MarksOk, Named, Shows;
    if |s.stack| > 1 {
      var c := l.removedCuts[0];
      assert l.removed[..l.removedCuts[|s.stack| - 1]][..c] == l.removed[..c];
    }
  }

  // ----- the indices during undo

  /** A table with unique values has no twins. */
  lemma UniqueNoTwins(m: Memory, at: map<nat, nat>, t: Table, width: nat)
    requires Named(m, at) && Shows(m, at, MainSet(m), t) && Unique(t, width)
    ensures NoTwins(m, width)
  {
    forall k, a, b | 0 <= k <= width && a in MainSet(m) && b in MainSet(m) && a != b
      ensures KeyAt(m, k, a) != KeyAt(m, k, b)
    {
      assert m[a].id != m[b].id;
      if k > 0 {
        assert Key(t[m[a].id].value, k - 1) != Key(t[m[b].id].value, k - 1);
      }
    }
  }

  /** And the other way round. */
  lemma NoTwinsUnique(m: Memory, at: map<nat, nat>, t: Table, width: nat)
    requires Named(m, at) && Shows(m, at, MainSet(m), t) && NoTwins(m, width)
    ensures Unique(t, width)
  {
    forall id, other, k: nat | id in t && other in t && id != other && k < width
      ensures Key(t[id].value, k) != Key(t[other].value, k)
    {
      assert NoTwin(m, k + 1, MainSet(m), at[id]);
      assert KeyAt(m, k + 1, at[other]) != KeyAt(m, k + 1, at[id]);
    }
  }

  /** Whether undo leaves two nodes with one key is a matter of the table it goes back to. */
  lemma UndoneTwins(l: Layout, s: State)
    requires Stored(l, s) && Sturdy(s) && s.stack != []
    ensures Cuts(l.removedCuts, |l.removed|, |s.stack|)
    ensures NoTwins(UndoneNodes(l.nodes, Top(s), Elems(TopSeg(l, |s.stack|))), s.width) <==>
      Unique(Undo(s).main, s.width)
  {
    hide Sturdy, SessionBounds, Growing, Single, BackupsOlder, StampsDatable, BackupsLive, UndoneNodes, RemovedOk,
      BackupsOk, MarksOk, IdsOk, Shows, Unique, NoTwins;
    SturdyParts(s);
    UndoneMain(l, s);
    var r := UndoneNodes(l.nodes, Top(s), Elems(TopSeg(l, |s.stack|)));
    UndoneShape(l.nodes, Top(s), Elems(TopSeg(l, |s.stack|)));
    DropNamed(l.nodes, l.at, r);
    if Unique(Undo(s).main, s.width) {
      UniqueNoTwins(r, Names(l.at, r), UndoMain(s.main, Top(s)), s.width);
    }
    if NoTwins(r, s.width) {
      NoTwinsUnique(r, Names(l.at, r), UndoMain(s.main, Top(s)), s.width);
    }
  }

  /** The memory while the new ids are being erased. */
  ghost predicate Erasing(m: Memory, r: Memory, oldNextId: nat) {
    && (forall a | a in r :: a in m && r[a] == m[a])
    && (forall a | a in m && a !in r :: !m[a].removed && oldNextId <= m[a].id)
  }

  lemma ErasedAll(m: Memory, r: Memory, idx: seq<nat>, oldNextId: nat)
    requires Erasing(m, r, oldNextId) && Holds(idx, MainSet(r))
    requires forall j | 0 <= j < |idx| :: KeyAt(r, 0, idx[j]) < oldNextId
    ensures r == DropNew(m, oldNextId)
  {
    forall a | a in r && !r[a].removed ensures r[a].id < oldNextId {
      assert a in MainSet(r);
      var j :| 0 <= j < |idx| && idx[j] == a;
    }
  }

  lemma NewIdsFrom(m: Memory, idx: seq<nat>, pos: nat, oldNextId: nat)
    requires Sorted(m, 0, idx) && pos <= |idx| && (pos < |idx| ==> oldNextId <= KeyAt(m, 0, idx[pos]))
    ensures forall j | pos <= j < |idx| :: oldNextId <= KeyAt(m, 0, idx[j])
  {}

  /** One more new id erased. */
  lemma ErasedOne(m: Memory, names: map<nat, nat>, r: Memory, ids: seq<nat>, pos: nat, oldNextId: nat)
    requires pos < |ids| && Holds(ids, MainSet(r)) && Erasing(m, r, oldNextId) && oldNextId <= KeyAt(r, 0, ids[pos])
    requires Named(r, Names(names, r))
    requires forall j | 0 <= j < pos :: KeyAt(r, 0, ids[j]) < oldNextId
    requires forall j | pos <= j < |ids| :: oldNextId <= KeyAt(r, 0, ids[j])
    ensures ids[pos] in MainSet(r)
    ensures var p := ids[pos];
      var r', ids' := r - {p}, ids[..pos] + ids[pos + 1..];
      && Erasing(m, r', oldNextId)
      && Names(names, r) - {r[p].id} == Names(names, r')
      && (forall j | 0 <= j < pos :: KeyAt(r', 0, ids'[j]) < oldNextId)
      && (forall j | pos <= j < |ids'| :: oldNextId <= KeyAt(r', 0, ids'[j]))
  {
    var p := ids[pos];
    assert p in ids;
    var r', ids' := r - {p}, ids[..pos] + ids[pos + 1..];
    forall id | id in Names(names, r) && id != r[p].id ensures Names(names, r)[id] in r' {}
    forall j | 0 <= j < |ids'| ensures KeyAt(r', 0, ids'[j]) == KeyAt(r, 0, ids[if j < pos then j else j + 1]) {}
  }

  lemma NamesAll(m: Memory, at: map<nat, nat>)
    requires Named(m, at)
    ensures Names(at, m) == at
  {}

  /** Writing one backup back changes the node it was copied from, and no other. */
  lemma RestoreOneNode(m: Memory, at: map<nat, nat>, o: OldNode, c: nat)
    requires Named(m, at) && (o.mtime < c ==> o.current in m && m[o.current].id == o.id)
    ensures RestoreNodes(m, [EntryOf(o)], c) ==
      if o.mtime < c then m[o.current := m[o.current].(value := o.value, mtime := o.mtime)] else m
  {
    forall a | a in m ensures RestoreNode(m[a], [EntryOf(o)], c) ==
      if o.mtime < c && a == o.current then m[a].(value := o.value, mtime := o.mtime) else m[a]
    {
      assert Oldest([EntryOf(o)], m[a].id, c) == if o.id == m[a].id && o.mtime < c then Some(Row(o.value, o.mtime))
        else None by {
        assert [EntryOf(o)][1..] == [];
      }
    }
  }

  lemma RestoredShape(m: Memory, at: map<nat, nat>, olds: seq<Entry>, c: nat)
    requires Named(m, at)
    ensures var r := RestoreNodes(m, olds, c);
      && Named(r, at) && MainSet(r) == MainSet(m)
      && (forall a :: a in r <==> a in m) && (forall a | a in m :: r[a].id == m[a].id && r[a].removed == m[a].removed)
  {}

  /** The indices when the node `p` has got a new value. */
  lemma NewValueIndices(m: Memory, indices: seq<seq<nat>>, p: nat, n: Node)
    requires IndicesOk(m, indices, MainSet(m)) && p in m && n.id == m[p].id && n.removed == m[p].removed
    ensures var r := m[p := n];
      && MainSet(r) == MainSet(m)
      && (forall k | 0 <= k < |indices| :: Holds(indices[k], MainSet(m)) && SortedBut(r, k, indices[k], p))
      && (|indices| > 0 ==> Sorted(r, 0, indices[0]))
      && (n.removed ==> IndicesOk(r, indices, MainSet(r)))
  {
    var r := m[p := n];
    assert MainSet(r) == MainSet(m);
    forall k | 0 <= k < |indices|
      ensures SortedBut(r, k, indices[k], p) && (n.removed || k == 0 ==> Sorted(r, k, indices[k]))
    {
      OneChanged(m, k, indices[k], p, n);
      if n.removed || k == 0 {
        SameKeys(m, r, k, indices[k]);
      }
    }
  }

  /** One backup further: what has been restored after popping `q`. */
  lemma RestoredOneMore(m: Memory, b: Backups, list: seq<nat>, j: nat, c: nat)
    requires j < |list| && forall a <- list :: a in b
    ensures RestoreNodes(RestoreNodes(m, Entries(b, list[j + 1..]), c), [EntryOf(b[list[j]])], c) ==
      RestoreNodes(m, Entries(b, list[j..]), c)
  {
    assert Entries(b, list[j..]) == [EntryOf(b[list[j]])] + Entries(b, list[j + 1..]);
    RestoreStep(m, EntryOf(b[list[j]]), Entries(b, list[j + 1..]), c);
  }

  lemma InMainSet(m: Memory, p: nat)
    requires p in m && !m[p].removed
    ensures p in MainSet(m)
  {}

  lemma RestoreNone(m: Memory, b: Backups, list: seq<nat>, c: nat)
    requires forall q :: q in list <==> q in b
    ensures KeptBackups(b, list) == b && list[..|list|] == list
    ensures RestoreNodes(m, Entries(b, list[|list|..]), c) == m
  {
    assert Entries(b, list[|list|..]) == [];
    RestoreNothing(m, c);
  }

  /** The next backup to write back points to a node that is still there. */
  lemma RestoreReady(m: Memory, at: map<nat, nat>, b: Backups, list: seq<nat>, from: nat, j: nat, c: nat)
    requires Named(m, at) && (forall q <- list :: q in b) && from <= j < |list| && Live(m, b, list[from..], c)
    ensures var r := RestoreNodes(m, Entries(b, list[j + 1..]), c);
      && Named(r, at)
      && (b[list[j]].mtime < c ==> b[list[j]].current in r && r[b[list[j]].current].id == b[list[j]].id)
      && RestoreNodes(r, [EntryOf(b[list[j]])], c) == RestoreNodes(m, Entries(b, list[j..]), c)
  {
    RestoredShape(m, at, Entries(b, list[j + 1..]), c);
    RestoredOneMore(m, b, list, j, c);
    assert list[from..][j - from] == list[j];
  }

  lemma KeptOneLess(b: Backups, list: seq<nat>, j: nat)
    requires Distinct(list) && (forall q <- list :: q in b) && j < |list|
    ensures list[j] in KeptBackups(b, list[..j + 1]) && KeptBackups(b, list[..j + 1])[list[j]] == b[list[j]]
    ensures KeptBackups(b, list[..j + 1]) - {list[j]} == KeptBackups(b, list[..j])
    ensures list[..j + 1][..j] == list[..j]
  {
    assert list[..j + 1] == list[..j] + [list[j]];
    assert list[j] !in list[..j];
  }

  /** Popping a list stops exactly at the mark. */
  lemma AtMark(list: seq<nat>, from: nat, j: nat)
    requires Distinct(list) && from <= j <= |list|
    ensures j == 0 || Some(list[j - 1]) == MarkAt(list, from) <==> j == from
  {}

  // ----- removed nodes go back

  /** The nodes that are in the indices once `list[j..]` has been put back: a node whose key is taken stays out. */
  ghost function Back(m: Memory, list: seq<nat>, j: nat, oldNextId: nat, count: nat): set<nat>
    decreases |list| - j
  {
    if |list| <= j then MainSet(m)
    else
      var held, p := Back(m, list, j + 1, oldNextId, count), list[j];
      if p in m && m[p].id < oldNextId && KeysFree(m, 0, count, held, p) then held + {p} else held
  }

  /** Of the removed nodes `seg`, those in `held` are in the table again; nothing leads to the others any more. */
  function Reborn(m: Memory, seg: set<nat>, held: set<nat>): Memory {
    map a | a in m && (a in seg ==> a in held) :: if a in seg then m[a].(removed := false) else m[a]
  }

  /** The nodes that should have gone back but did not. */
  function Stranded(m: Memory, seg: set<nat>, held: set<nat>, oldNextId: nat): set<nat> {
    set a | a in seg && a in m && m[a].id < oldNextId && a !in held
  }

  lemma {:induction false} BackHolds(m: Memory, list: seq<nat>, j: nat, oldNextId: nat, count: nat)
    requires Distinct(list) && (forall a <- list :: a in m && m[a].removed) && j <= |list|
    ensures var held := Back(m, list, j, oldNextId, count);
      MainSet(m) <= held <= MainSet(m) + Elems(list[j..]) && forall a | a in held && a in list :: m[a].id < oldNextId
    decreases |list| - j
  {
    if j < |list| {
      BackHolds(m, list, j + 1, oldNextId, count);
      assert list[j..] == [list[j]] + list[j + 1..];
    }
  }

  /** Each node put back shares no key with another that is in the indices, and each one left out shares one. */
  lemma {:induction false} BackExact(m: Memory, list: seq<nat>, j: nat, oldNextId: nat, count: nat)
    requires Distinct(list) && (forall a <- list :: a in m && m[a].removed) && j <= |list|
    ensures var held := Back(m, list, j, oldNextId, count);
      forall a <- list[j..] | m[a].id < oldNextId :: a in held <==> KeysFree(m, 0, count, held - {a}, a)
    decreases |list| - j
  {
    if j < |list| {
      hide KeysFree;
      BackExact(m, list, j + 1, oldNextId, count);
      BackHolds(m, list, j + 1, oldNextId, count);
      var rest, held, p := Back(m, list, j + 1, oldNextId, count), Back(m, list, j, oldNextId, count), list[j];
      assert list[j..] == [p] + list[j + 1..];
      assert p !in rest && held - {p} == rest;
      forall a <- list[j + 1..] | m[a].id < oldNextId ensures a in held <==> KeysFree(m, 0, count, held - {a}, a) {
        assert a != p;
        if p in held {
          OneMoreFree(m, count, rest, p, a);
        }
      }
    }
  }

  lemma {:induction false} BackRest(m: Memory, list: seq<nat>, j: nat, i: nat, oldNextId: nat, count: nat)
    requires Distinct(list) && (forall a <- list :: a in m && m[a].removed) && j <= i <= |list|
    ensures Back(m, list, j, oldNextId, count) * (MainSet(m) + Elems(list[i..])) == Back(m, list, i, oldNextId, count)
    decreases i - j
  {
    hide KeysFree;
    if j < i {
      BackRest(m, list, j + 1, i, oldNextId, count);
      var all, rest := MainSet(m) + Elems(list[i..]), Back(m, list, j + 1, oldNextId, count);
      assert list[j] in list && list[j] !in all;
      assert (rest + {list[j]}) * all == rest * all;
    } else {
      BackHolds(m, list, j, oldNextId, count);
    }
  }

  /** The node removed last goes back first: only the nodes that were never removed, and those removed after it that
    * went back, can keep a node out. */
  lemma BackInOrder(m: Memory, list: seq<nat>, j: nat, i: nat, oldNextId: nat, count: nat)
    requires Distinct(list) && (forall a <- list :: a in m && m[a].removed) && j <= i < |list|
    requires m[list[i]].id < oldNextId
    ensures var held := Back(m, list, j, oldNextId, count);
      list[i] in held <==> forall a, k: nat | a in held && (a in MainSet(m) || a in list[i + 1..]) && k < count ::
        KeyAt(m, k, a) != KeyAt(m, k, list[i])
  {
    BackRest(m, list, j, i, oldNextId, count);
    BackRest(m, list, j, i + 1, oldNextId, count);
    BackHolds(m, list, i + 1, oldNextId, count);
    var held, rest := Back(m, list, j, oldNextId, count), Back(m, list, i + 1, oldNextId, count);
    assert list[i] in list[i..] && list[i] !in rest;
    assert forall a :: a in rest <==> a in held && (a in MainSet(m) || a in list[i + 1..]);
    assert list[i] in held <==> KeysFree(m, 0, count, rest, list[i]);
    if list[i] in held {
      forall a, k: nat | a in rest && k < count ensures KeyAt(m, k, a) != KeyAt(m, k, list[i]) {
        assert NoTwin(m, k, rest, list[i]);
      }
    } else {
      var k :| 0 <= k < count && !NoTwin(m, k, rest, list[i]);
      var a :| a in rest && a != list[i] && KeyAt(m, k, a) == KeyAt(m, k, list[i]);
      assert a in held && (a in MainSet(m) || a in list[i + 1..]);
    }
  }

  lemma OneMoreFree(m: Memory, count: nat, live: set<nat>, p: nat, a: nat)
    requires KeysFree(m, 0, count, live, p) && a != p && p !in live
    requires a in live <==> KeysFree(m, 0, count, live - {a}, a)
    ensures a in live <==> KeysFree(m, 0, count, live + {p} - {a}, a)
  {
    hide KeyAt;
    assert live + {p} - {a} == live - {a} + {p};
    if a in live {
      forall k | 0 <= k < count ensures KeyAt(m, k, p) != KeyAt(m, k, a) {
        assert NoTwin(m, k, live, p);
      }
      forall k | 0 <= k < count ensures NoTwin(m, k, live + {p} - {a}, a) {
        assert NoTwin(m, k, live - {a}, a);
      }
    } else {
      var k :| 0 <= k < count && !NoTwin(m, k, live - {a}, a);
      assert !NoTwin(m, k, live + {p} - {a}, a);
    }
  }

  lemma ReviveNone(m: Memory, at: map<nat, nat>, list: seq<nat>, oldNextId: nat, count: nat)
    requires Named(m, at)
    ensures Names(at, m) == at && list[..|list|] == list
    ensures var seg, held := Elems(list[|list|..]), Back(m, list, |list|, oldNextId, count);
      Reborn(m, seg, held) == m && MainSet(m) == held && Stranded(m, seg, held, oldNextId) == {}
  {}

  /** One more removed node goes back, or not. */
  lemma ReviveReady(m: Memory, list: seq<nat>, j: nat, oldNextId: nat, r: Memory, count: nat)
    requires Distinct(list) && (forall a <- list :: a in m && m[a].removed) && j < |list|
    requires var held := Back(m, list, j + 1, oldNextId, count);
      r == Reborn(m, Elems(list[j + 1..]), held) && MainSet(r) == held
    ensures var p, held := list[j], Back(m, list, j, oldNextId, count);
      && p in r && r[p] == m[p] && r[p].removed && p !in MainSet(r)
      && MainSet(r[p := r[p].(removed := false)]) == MainSet(r) + {p} && MainSet(r - {p}) == MainSet(r)
      && (p in held <==> r[p].id < oldNextId && KeysFree(r[p := r[p].(removed := false)], 0, count, MainSet(r), p))
      && held == (if p in held then MainSet(r) + {p} else MainSet(r))
      && Reborn(m, Elems(list[j..]), held) == (if p in held then r[p := r[p].(removed := false)] else r - {p})
  {
    var p, rest := list[j], Back(m, list, j + 1, oldNextId, count);
    BackHolds(m, list, j + 1, oldNextId, count);
    ReviveTail(list, j);
    assert p in list;
    var r' := r[p := r[p].(removed := false)];
    forall k | 0 <= k < count ensures NoTwin(r', k, rest, p) <==> NoTwin(m, k, rest, p) {
      assert forall a | a in rest || a == p :: KeyAt(r', k, a) == KeyAt(m, k, a);
    }
  }

  lemma ReviveTail(list: seq<nat>, j: nat)
    requires Distinct(list) && j < |list|
    ensures Elems(list[j..]) == Elems(list[j + 1..]) + {list[j]} && list[j] !in Elems(list[j + 1..])
    ensures list[..j + 1][..j] == list[..j]
  {
    assert list[j..] == [list[j]] + list[j + 1..];
  }

  lemma StrandedStep(m: Memory, list: seq<nat>, j: nat, oldNextId: nat, count: nat)
    requires Distinct(list) && (forall a <- list :: a in m && m[a].removed) && j < |list|
    ensures var p, held, rest := list[j], Back(m, list, j, oldNextId, count), Back(m, list, j + 1, oldNextId, count);
      Stranded(m, Elems(list[j..]), held, oldNextId) ==
        Stranded(m, Elems(list[j + 1..]), rest, oldNextId) + if m[p].id < oldNextId && p !in held then {p} else {}
  {
    BackHolds(m, list, j + 1, oldNextId, count);
    ReviveTail(list, j);
  }

  lemma NamesRevived(m: Memory, at: map<nat, nat>, r: Memory, p: nat)
    requires Named(r, Names(at, r)) && p in r
    ensures forall n: Node | n.id == r[p].id :: Names(at, r[p := n]) == Names(at, r) && Named(r[p := n], Names(at, r))
    ensures Names(at, r - {p}) == Names(at, r) - {r[p].id} && Named(r - {p}, Names(at, r) - {r[p].id})
  {}

  /** The indices do not know of a removed node. */
  lemma RevivedIndices(m: Memory, indices: seq<seq<nat>>, p: nat)
    requires IndicesOk(m, indices, MainSet(m)) && p in m && m[p].removed
    ensures p !in MainSet(m) && forall k | 0 <= k < |indices| :: p !in indices[k]
    ensures var r := m[p := m[p].(removed := false)];
      MainSet(r) == MainSet(m) + {p} && IndicesOk(r, indices, MainSet(m))
    ensures MainSet(m - {p}) == MainSet(m) && IndicesOk(m - {p}, indices, MainSet(m))
  {
    var r := m[p := m[p].(removed := false)];
    forall k | 0 <= k < |indices| ensures Sorted(r, k, indices[k]) && Sorted(m - {p}, k, indices[k]) {
      assert forall a <- indices[k] :: a in MainSet(m);
      SameKeys(m, r, k, indices[k]);
      SameKeys(m, m - {p}, k, indices[k]);
    }
  }

  lemma NotHeld(indices: seq<seq<nat>>, live: set<nat>, p: nat)
    requires (forall k | 0 <= k < |indices| :: Holds(indices[k], live)) && p !in live
    ensures forall k | 0 <= k < |indices| :: p !in indices[k]
  {}

  /** What `insert_impl` has done to the indices from `n` on. */
  ghost predicate Inserting(m: Memory, was: seq<seq<nat>>, now: seq<seq<nat>>, n: nat, p: nat, ok: bool)
    requires |now| == |was|
  {
    && (ok <==> forall k | n <= k < |was| :: InsertUnique(m, k, was[k], p).inserted)
    && (if ok then forall k | n <= k < |was| :: now[k] == InsertUnique(m, k, was[k], p).idx else now == was)
  }

  /** One index more. */
  lemma InsertingStep(m: Memory, was: seq<seq<nat>>, now: seq<seq<nat>>, n: nat, p: nat, ok: bool)
    requires n < |was| == |now| && InsertUnique(m, n, was[n], p).inserted
    requires Inserting(m, was[n := InsertUnique(m, n, was[n], p).idx], now, n + 1, p, ok)
    requires now[n] == InsertUnique(m, n, was[n], p).idx
    ensures Inserting(m, was, if ok then now else was, n, p, ok)
  {
    hide InsertUnique;
    var mid := was[n := InsertUnique(m, n, was[n], p).idx];
    assert forall k | n < k < |was| :: mid[k] == was[k];
  }

  /** With the indices in order, the insertion succeeds exactly when every key is free. */
  lemma InsertedAll(m: Memory, was: seq<seq<nat>>, now: seq<seq<nat>>, n: nat, live: set<nat>, p: nat, ok: bool)
    requires |now| == |was| && Inserting(m, was, now, n, p, ok) && p !in live
    requires forall k | n <= k < |was| :: Holds(was[k], live) && Sorted(m, k, was[k])
    ensures ok <==> KeysFree(m, n, |was|, live, p)
    ensures ok ==> forall k | n <= k < |was| :: Holds(now[k], live + {p}) && Sorted(m, k, now[k])
    ensures !ok ==> now == was
  {
    hide Holds, Sorted, NoTwin, InsertUnique;
    forall k | n <= k < |was| ensures
      var r := InsertUnique(m, k, was[k], p);
      (r.inserted <==> NoTwin(m, k, live, p)) && (r.inserted ==> Holds(r.idx, live + {p}) && Sorted(m, k, r.idx))
    {
      InsertUniqueCorrect(m, k, was[k], live, p);
    }
  }

  // ----- the phases put together

  lemma UndoBegins(l: Layout, s: State)
    requires Stored(l, s) && l.states != []
    ensures s.stack != [] && |l.states| == |s.stack|
    ensures Cuts(l.oldCuts, |l.olds|, |s.stack|) && Cuts(l.removedCuts, |l.removed|, |s.stack|)
    ensures var n := |s.stack|;
      && |l.oldCuts| == n && |l.removedCuts| == n && l.oldCuts[n - 1] <= |l.olds| && l.removedCuts[n - 1] <= |l.removed|
      && l.states[n - 1] == UndoState(MarkAt(l.olds, l.oldCuts[n - 1]), MarkAt(l.removed, l.removedCuts[n - 1]),
        Top(s).oldNextId, Top(s).ctime)
    ensures Named(l.nodes, l.at)
  {
    hide RemovedOk, BackupsOk, IdsOk, Shows, Named;
  }

  /** The second phase may begin. */
  lemma EraseDone(l: Layout, s: State, m: Memory, at: map<nat, nat>)
    requires Stored(l, s) && Sturdy(s) && s.stack != []
    requires m == DropNew(l.nodes, Top(s).oldNextId) && Named(m, at)
    ensures Distinct(l.olds) && forall q :: q in l.olds <==> q in l.backups
    ensures |l.oldCuts| == |s.stack| && l.oldCuts[|s.stack| - 1] <= |l.olds|
    ensures Live(m, l.backups, l.olds[l.oldCuts[|s.stack| - 1]..], Top(s).ctime)
  {
    hide RemovedOk, MarksOk, IdsOk, Shows, Named, Sane, Sturdy;
    StoredParts(l, s);
    CutsEnd(l.oldCuts, |l.olds|, |s.stack|);
    SturdySane(s);
    LiveDropped(l, s, m);
  }

  lemma LiveDropped(l: Layout, s: State, m: Memory)
    requires BackupsOk(l.nodes, l.backups, l.olds, l.oldCuts, s.stack) && Sane(s) && s.stack != []
    requires m == DropNew(l.nodes, Top(s).oldNextId)
    ensures Live(m, l.backups, l.olds[l.oldCuts[|s.stack| - 1]..], Top(s).ctime)
  {
    hide InOrder, RemovedBelow, Distinct;
    var n, seg := |s.stack|, l.olds[l.oldCuts[|s.stack| - 1]..];
    assert seg == Seg(l.olds, l.oldCuts, n - 1);
    assert forall a <- seg :: a in l.olds;
    forall a <- seg | a in l.backups && l.backups[a].mtime < Top(s).ctime
      ensures l.backups[a].current in m && m[l.backups[a].current].id == l.backups[a].id
    {
      EntryAt(l.backups, seg, a);
    }
  }

  /** The last phase may begin. */
  lemma RestoreDone(l: Layout, s: State, m: Memory, at: map<nat, nat>)
    requires Stored(l, s) && Sturdy(s) && s.stack != []
    requires |l.oldCuts| == |s.stack| && l.oldCuts[|s.stack| - 1] <= |l.olds| && forall q <- l.olds :: q in l.backups
    requires |l.removedCuts| == |s.stack| && l.removedCuts[|s.stack| - 1] <= |l.removed|
    requires var t, from := Top(s), l.oldCuts[|s.stack| - 1];
      m == RestoreNodes(DropNew(l.nodes, t.oldNextId), Entries(l.backups, l.olds[from..]), t.ctime)
    requires at == Names(l.at, DropNew(l.nodes, Top(s).oldNextId))
    ensures Named(m, at) && at == Names(l.at, m) && forall a | a in m :: a in l.nodes && m[a].id == l.nodes[a].id
    ensures Distinct(l.removed) && forall a <- l.removed :: a in m && m[a].removed
    ensures ReviveNodes(m, Elems(l.removed[l.removedCuts[|s.stack| - 1]..]), Top(s).oldNextId)
      == UndoneNodes(l.nodes, Top(s), Elems(l.removed[l.removedCuts[|s.stack| - 1]..]))
    ensures NoTwins(UndoneNodes(l.nodes, Top(s), Elems(l.removed[l.removedCuts[|s.stack| - 1]..])), s.width)
      <==> Unique(UndoModel.Undo(s).main, s.width)
  {
    hide Sturdy, MarksOk, IdsOk, Shows, NoTwins, Sane, UndoneNodes, Unique;
    var t, n := Top(s), |s.stack|;
    var m1 := DropNew(l.nodes, t.oldNextId);
    TopEntries(l, s);
    DropNamed(l.nodes, l.at, m1);
    RestoredShape(m1, at, t.olds, t.ctime);
    UndoneTwins(l, s);
    assert TopSeg(l, n) == l.removed[l.removedCuts[n - 1]..];
    UndoneIsRevived(l.nodes, t, Elems(TopSeg(l, n)));
  }

  lemma UndoneIsRevived(m: Memory, t: Session, seg: set<nat>)
    ensures ReviveNodes(RestoreNodes(DropNew(m, t.oldNextId), t.olds, t.ctime), seg, t.oldNextId) ==
      UndoneNodes(m, t, seg)
  {}

  lemma TopEntries(l: Layout, s: State)
    requires Stored(l, s) && s.stack != []
    ensures |l.oldCuts| == |s.stack| && l.oldCuts[|s.stack| - 1] <= |l.olds| && forall q <- l.olds :: q in l.backups
    ensures Entries(l.backups, l.olds[l.oldCuts[|s.stack| - 1]..]) == Top(s).olds
  {
    hide RemovedOk, MarksOk, IdsOk, Shows, Named;
    var n := |s.stack|;
    assert l.olds[l.oldCuts[n - 1]..] == Seg(l.olds, l.oldCuts, n - 1);
  }

  /** If no two nodes of the result share a key, then the duplicates are gone once all backups are written back. */
  lemma RestoredStrict(m: Memory, list: seq<nat>, from: nat, oldNextId: nat, indices: seq<seq<nat>>, width: nat)
    requires from <= |list| && forall a <- list :: a in m && m[a].removed
    requires NoTwins(ReviveNodes(m, Elems(list[from..]), oldNextId), width)
    requires |indices| == width + 1 && IndicesOk(m, indices, MainSet(m))
    ensures AllStrict(m, indices)
  {
    hide NoTwins, NoTwin, Holds, Sorted, Strict;
    var u := ReviveNodes(m, Elems(list[from..]), oldNextId);
    assert forall a <- list[from..] :: a in list;
    forall a | a in MainSet(m) ensures a in MainSet(u) && u[a] == m[a] {}
    SortedToStrict(m, u, indices, MainSet(m), width);
  }

  // ----- what is lost

  /** The ids of the nodes that do not go back. */
  ghost function LostIds(m: Memory, list: seq<nat>, from: nat, oldNextId: nat, count: nat): set<nat>
    requires from <= |list|
  {
    IdsOf(m, Stranded(m, Elems(list[from..]), Back(m, list, from, oldNextId, count), oldNextId))
  }

  /** The nodes of some objects. */
  function AddressesOf(m: Memory, ids: set<nat>): set<nat> {
    set a | a in m && m[a].id in ids
  }

  lemma LostAddresses(l: Layout, s: State, m: Memory)
    requires Named(l.nodes, l.at) && s.stack != []
    requires |l.removedCuts| == |s.stack| && l.removedCuts[|s.stack| - 1] <= |l.removed|
    requires forall a | a in m :: a in l.nodes && m[a].id == l.nodes[a].id
    ensures var from, nid := l.removedCuts[|s.stack| - 1], Top(s).oldNextId;
      var seg, held := Elems(l.removed[from..]), Back(m, l.removed, from, nid, s.width + 1);
      AddressesOf(l.nodes, LostIds(m, l.removed, from, nid, s.width + 1)) == Stranded(m, seg, held, nid)
  {
    hide Back;
  }

  lemma RebornKeys(m: Memory, seg: set<nat>, held: set<nat>)
    ensures Reborn(m, seg, held).Keys <= m.Keys
  {}

  lemma NamesLeft(l: Layout, m: Memory, r: Memory)
    requires r.Keys <= m.Keys
    ensures Names(Names(l.at, m), r) == Names(l.at, r)
  {}

  /** The ids of some nodes. */
  function IdsOf(m: Memory, gone: set<nat>): set<nat> {
    set a | a in gone && a in m :: m[a].id
  }

  lemma StrandedNodes(m: Memory, list: seq<nat>, from: nat, oldNextId: nat, count: nat)
    requires Distinct(list) && (forall a <- list :: a in m && m[a].removed) && from <= |list|
    ensures var seg, held := Elems(list[from..]), Back(m, list, from, oldNextId, count);
      var all, gone := ReviveNodes(m, seg, oldNextId), Stranded(m, seg, held, oldNextId);
      && Reborn(m, seg, held) == all - gone && gone <= MainSet(all) && MainSet(all - gone) == held
  {
    BackHolds(m, list, from, oldNextId, count);
    assert forall a <- list[from..] :: a in list;
  }

  /** What undo leaves out of the indices is what it may lose. */
  lemma StrandedLoses(m: Memory, at: map<nat, nat>, list: seq<nat>, from: nat, s: State)
    requires s.stack != [] && Distinct(list) && (forall a <- list :: a in m && m[a].removed) && from <= |list|
    requires var seg := Elems(list[from..]);
      var all := ReviveNodes(m, seg, Top(s).oldNextId);
      && Shows(all, at, MainSet(all), Undo(s).main) && Named(all, at)
      && Owns(m, at, seg, Top(s).removed, Top(s).oldNextId)
    ensures var seg, held := Elems(list[from..]), Back(m, list, from, Top(s).oldNextId, s.width + 1);
      Loses(s, IdsOf(m, Stranded(m, seg, held, Top(s).oldNextId)))
  {
    hide KeysFree, Fits, Undo, Back, ReviveNodes, MainSet, Reborn, Stranded, Distinct;
    var nid := Top(s).oldNextId;
    var seg, held := Elems(list[from..]), Back(m, list, from, nid, s.width + 1);
    var all, gone := ReviveNodes(m, seg, nid), Stranded(m, seg, held, nid);
    var lost := IdsOf(m, gone);
    StrandedNodes(m, list, from, nid, s.width + 1);
    SameIds(m, seg, nid, gone);
    forall id <- lost
      ensures id in Undo(s).main && id in Top(s).removed
      ensures !Fits(Less(Undo(s), lost).main, Undo(s).main[id].value, s.width)
    {
      var a :| a in gone && a in m && m[a].id == id;
      StrandedIs(m, seg, held, nid, a);
      StrandedOne(m, at, list, from, s, a);
      assert Less(Undo(s), lost).main - {id} == Less(Undo(s), lost).main;
    }
    forall id | id in Top(s).removed && id in Less(Undo(s), lost).main
      ensures Fits(Less(Undo(s), lost).main - {id}, Undo(s).main[id].value, s.width)
    {
      PutBackOne(m, at, list, from, s, id);
      StrandedOne(m, at, list, from, s, at[id]);
    }
  }

  lemma StrandedIs(m: Memory, seg: set<nat>, held: set<nat>, oldNextId: nat, a: nat)
    requires a in Stranded(m, seg, held, oldNextId)
    ensures a in seg && a in m && m[a].id < oldNextId && a !in held
  {}

  /** The nodes `seg` are those of the objects of `t`, as far as `at` still knows them. */
  ghost predicate Owns(m: Memory, at: map<nat, nat>, seg: set<nat>, t: Table, bound: nat) {
    && (forall a | a in seg :: a in m && m[a].id in t)
    && (forall id | id in t && id < bound :: id in at && at[id] in seg && m[at[id]].id == id)
  }

  /** One node that undo tries to put back: whether it stays, and whether its value fits the table without it. */
  lemma StrandedOne(m: Memory, at: map<nat, nat>, list: seq<nat>, from: nat, s: State, a: nat)
    requires s.stack != [] && Distinct(list) && (forall a <- list :: a in m && m[a].removed) && from <= |list|
    requires var seg := Elems(list[from..]);
      var all := ReviveNodes(m, seg, Top(s).oldNextId);
      && Shows(all, at, MainSet(all), Undo(s).main) && Named(all, at)
      && Owns(m, at, seg, Top(s).removed, Top(s).oldNextId)
    requires a in list[from..] && m[a].id < Top(s).oldNextId
    ensures var seg, held := Elems(list[from..]), Back(m, list, from, Top(s).oldNextId, s.width + 1);
      var lost, id := IdsOf(m, Stranded(m, seg, held, Top(s).oldNextId)), m[a].id;
      && id in Undo(s).main && id in Top(s).removed && at[id] == a && (id in lost <==> a !in held)
      && (a in held <==> Fits(Less(Undo(s), lost).main - {id}, Undo(s).main[id].value, s.width))
  {
    hide KeysFree, Fits, Undo, Back, Shows, Named, IdsOf, Distinct, ReviveNodes, Stranded, Reborn, MainSet;
    var nid, id := Top(s).oldNextId, m[a].id;
    var seg, held := Elems(list[from..]), Back(m, list, from, nid, s.width + 1);
    var all, gone := ReviveNodes(m, seg, nid), Stranded(m, seg, held, nid);
    StrandedNodes(m, list, from, nid, s.width + 1);
    BackExact(m, list, from, nid, s.width + 1);
    SameIds(m, seg, nid, gone);
    RevivedOne(m, seg, held, nid, a);
    OneStays(m, all, at, Undo(s).main, gone, a, s.width);
    MainLess(all, gone);
  }

  lemma RevivedOne(m: Memory, seg: set<nat>, held: set<nat>, oldNextId: nat, a: nat)
    requires a in seg && a in m && m[a].id < oldNextId
    ensures var all, gone := ReviveNodes(m, seg, oldNextId), Stranded(m, seg, held, oldNextId);
      && a in MainSet(all) && (a in gone <==> a !in held)
      && forall x | x in all :: x in m && all[x].id == m[x].id && all[x].value == m[x].value
  {}

  lemma MainLess(m: Memory, gone: set<nat>)
    ensures MainSet(m - gone) == MainSet(m) - gone
  {}

  /** A node of the table `t` of which `gone` are left out. */
  lemma OneStays(m: Memory, all: Memory, at: map<nat, nat>, t: Table, gone: set<nat>, a: nat, width: nat)
    requires Named(all, at) && Shows(all, at, MainSet(all), t) && gone <= MainSet(all) && a in MainSet(all)
    requires forall x | x in all :: x in m && all[x].id == m[x].id && all[x].value == m[x].value
    ensures var lost, held, id := IdsOf(all, gone), MainSet(all) - gone, m[a].id;
      && id in t && id in at && at[id] == a && (id in lost <==> a in gone)
      && (KeysFree(m, 0, width + 1, held - {a}, a) <==> Fits(t - lost - {id}, t[id].value, width))
  {
    hide KeysFree, Fits;
    var lost, r, id := IdsOf(all, gone), all - gone, m[a].id;
    ForgetShows(all, at, t, gone);
    assert MainSet(r) == MainSet(all) - gone;
    ShowsOthers(r, Names(at, r), MainSet(r), t - lost, a, id);
    FitsExact(m, all, r, Names(at, r), t - lost - {id}, MainSet(r) - {a}, a, width);
  }

  lemma ShowsOthers(m: Memory, at: map<nat, nat>, live: set<nat>, t: Table, a: nat, id: nat)
    requires Shows(m, at, live, t) && Named(m, at) && (a in m ==> m[a].id == id) && (id in at ==> at[id] == a)
    ensures Shows(m, at, live - {a}, t - {id})
  {}

  lemma PutBackOne(m: Memory, at: map<nat, nat>, list: seq<nat>, from: nat, s: State, id: nat)
    requires s.stack != [] && (forall a <- list :: a in m && m[a].removed) && from <= |list|
    requires var seg := Elems(list[from..]);
      var all := ReviveNodes(m, seg, Top(s).oldNextId);
      Shows(all, at, MainSet(all), Undo(s).main) && Owns(m, at, seg, Top(s).removed, Top(s).oldNextId)
    requires id in Top(s).removed && id in Undo(s).main
    ensures id in at && at[id] in list[from..] && at[id] in m && m[at[id]].id == id < Top(s).oldNextId
  {}

  /** The keys of a node are free among `live` exactly when its value fits the table they show. */
  lemma FitsExact(m: Memory, all: Memory, r: Memory, at: map<nat, nat>, t: Table, live: set<nat>, p: nat, width: nat)
    requires p in m && p in all && p !in live && Shows(r, at, live, t) && live <= r.Keys
    requires forall a | a in live || a == p :: a in m && a in all && all[a].value == m[a].value && all[a].id == m[a].id
    requires forall a <- live :: r[a] == all[a]
    requires forall a <- live :: m[a].id != m[p].id
    ensures Fits(t, all[p].value, width) <==> KeysFree(m, 0, width + 1, live, p)
  {
    if Fits(t, all[p].value, width) {
      forall k, a | 0 <= k <= width && a in live ensures KeyAt(m, k, a) != KeyAt(m, k, p) {
        if k > 0 {
          assert Key(t[r[a].id].value, k - 1) != Key(all[p].value, k - 1);
        }
      }
    } else {
      var id, k: nat :| id in t && k < width && Key(t[id].value, k) == Key(all[p].value, k);
      assert at[id] in live && KeyAt(m, k + 1, at[id]) == KeyAt(m, k + 1, p);
      assert !NoTwin(m, k + 1, live, p);
    }
  }

  /** Nodes of the table that nothing leads to any more. */
  lemma ForgetShows(m: Memory, at: map<nat, nat>, t: Table, gone: set<nat>)
    requires Named(m, at) && Shows(m, at, MainSet(m), t) && gone <= MainSet(m)
    ensures var r := m - gone;
      && Named(r, Names(at, r)) && MainSet(r) == MainSet(m) - gone
      && Shows(r, Names(at, r), MainSet(r), t - IdsOf(m, gone)) && IdsOf(m, gone) <= t.Keys
  {
    var r, lost := m - gone, IdsOf(m, gone);
    assert forall id | id in t :: id in lost <==> at[id] in gone;
  }

  lemma ForgetStored(l: Layout, s: State, gone: set<nat>)
    requires Stored(l, s) && Sane(s) && gone <= MainSet(l.nodes)
    ensures var r, lost := l.nodes - gone, IdsOf(l.nodes, gone);
      && Named(r, Names(l.at, r)) && Shows(r, Names(l.at, r), MainSet(r), Less(s, lost).main) && lost <= s.main.Keys
      && (!Dangles(s, lost) ==> Stored(l.(nodes := r, at := Names(l.at, r)), Less(s, lost)))
  {
    hide Named, Shows, RemovedOk, BackupsOk, MarksOk, Cuts, MainSet, Dangles, IdsOf, InOrder, RemovedBelow;
    var r, lost := l.nodes - gone, IdsOf(l.nodes, gone);
    ForgetShows(l.nodes, l.at, s.main, gone);
    if !Dangles(s, lost) {
      ForgetRemoved(l, s, gone);
      ForgetBackups(l, s, gone);
    }
  }

  lemma ForgetRemoved(l: Layout, s: State, gone: set<nat>)
    requires RemovedOk(l.nodes, l.at, l.removed, l.removedCuts, s.stack) && gone <= MainSet(l.nodes)
    ensures RemovedOk(l.nodes - gone, Names(l.at, l.nodes - gone), l.removed, l.removedCuts, s.stack)
  {
    hide RemovedOk;
    RemovedAlike(l.nodes, l.at, l.nodes - gone, Names(l.at, l.nodes - gone), l.removed, l.removedCuts, s.stack);
  }

  lemma ForgetBackups(l: Layout, s: State, gone: set<nat>)
    requires BackupsOk(l.nodes, l.backups, l.olds, l.oldCuts, s.stack) && UsableOld(s.stack)
    requires !Dangles(s, IdsOf(l.nodes, gone))
    ensures BackupsOk(l.nodes - gone, l.backups, l.olds, l.oldCuts, s.stack)
  {
    forall i | 0 <= i < |s.stack|
      ensures Live(l.nodes - gone, l.backups, Seg(l.olds, l.oldCuts, i), s.stack[i].ctime)
    {
      var seg := Seg(l.olds, l.oldCuts, i);
      forall a <- seg | a in l.backups && l.backups[a].mtime < s.stack[i].ctime
        ensures l.backups[a].current in l.nodes - gone && (l.nodes - gone)[l.backups[a].current].id == l.backups[a].id
      {
        EntryAt(l.backups, seg, a);
        assert EntryOf(l.backups[a]) in s.stack[i].olds;
      }
    }
  }

  lemma UndoFinish(l: Layout, s: State, m: Memory, at: map<nat, nat>, indices: seq<seq<nat>>)
    requires Stored(l, s) && Sturdy(s) && s.stack != [] && |indices| == s.width + 1
    requires |l.oldCuts| == |s.stack| && l.oldCuts[|s.stack| - 1] <= |l.olds|
    requires |l.removedCuts| == |s.stack| && l.removedCuts[|s.stack| - 1] <= |l.removed| && |l.states| == |s.stack|
    requires Distinct(l.removed) && forall a <- l.removed :: a in m && m[a].removed
    requires ReviveNodes(m, Elems(l.removed[l.removedCuts[|s.stack| - 1]..]), Top(s).oldNextId)
      == UndoneNodes(l.nodes, Top(s), Elems(l.removed[l.removedCuts[|s.stack| - 1]..]))
    requires Named(m, Names(l.at, m)) && forall a | a in m :: a in l.nodes && m[a].id == l.nodes[a].id
    requires var from := l.removedCuts[|s.stack| - 1];
      at == Names(l.at, Reborn(m, Elems(l.removed[from..]), Back(m, l.removed, from, Top(s).oldNextId, s.width + 1)))
    ensures var n, from := |s.stack|, l.removedCuts[|s.stack| - 1];
      var seg, held := Elems(l.removed[from..]), Back(m, l.removed, from, Top(s).oldNextId, s.width + 1);
      var lost := IdsOf(m, Stranded(m, seg, held, Top(s).oldNextId));
      var r := Layout(Reborn(m, seg, held), KeptBackups(l.backups, l.olds[..l.oldCuts[n - 1]]), indices,
        l.states[..n - 1], l.olds[..l.oldCuts[n - 1]], l.removed[..from], at, Prefix(l.oldCuts), Prefix(l.removedCuts));
      && Loses(s, lost) && lost <= UndoModel.Undo(s).main.Keys
      && Named(r.nodes, at) && Shows(r.nodes, at, MainSet(r.nodes), Less(UndoModel.Undo(s), lost).main)
      && (!Dangles(UndoModel.Undo(s), lost) ==> Stored(r, Less(UndoModel.Undo(s), lost)))
  {
    hide Stored, Sturdy, IndicesOk, Loses, Dangles, MainSet, Unique, UndoneNodes, ReviveNodes, Back, Reborn, Named,
      Shows, Sane, Distinct, Names, KeptBackups;
    var n, from, nid, count := |s.stack|, l.removedCuts[|s.stack| - 1], Top(s).oldNextId, s.width + 1;
    var seg, held := Elems(l.removed[from..]), Back(m, l.removed, from, nid, count);
    var gone, all := Stranded(m, seg, held, nid), ReviveNodes(m, seg, nid);
    StoredParts(l, s);
    assert TopSeg(l, n) == l.removed[from..];
    UndoDone(l, s, indices);
    var full := UndoneLayout(l, s, indices);
    assert full.nodes == all;
    StrandedNodes(m, l.removed, from, nid, count);
    UndoSturdy(s);
    SturdySane(UndoModel.Undo(s));
    ForgetStored(full, UndoModel.Undo(s), gone);
    UndoLoses(l, s, m, all);
    NamesTwice(l.at, all, all - gone);
    SameIds(m, seg, nid, gone);
  }

  lemma NamesTwice(at: map<nat, nat>, m: Memory, r: Memory)
    requires r.Keys <= m.Keys
    ensures Names(Names(at, m), r) == Names(at, r)
  {}

  lemma SameIds(m: Memory, seg: set<nat>, oldNextId: nat, gone: set<nat>)
    requires gone <= MainSet(ReviveNodes(m, seg, oldNextId))
    ensures IdsOf(ReviveNodes(m, seg, oldNextId), gone) == IdsOf(m, gone)
  {}

  lemma OwnsSegment(l: Layout, s: State, m: Memory, all: Memory)
    requires Stored(l, s) && s.stack != []
    requires forall a <- l.removed :: a in m && m[a].removed
    requires forall a | a in m :: a in l.nodes && m[a].id == l.nodes[a].id
    requires Cuts(l.removedCuts, |l.removed|, |s.stack|)
    requires all == ReviveNodes(m, Elems(TopSeg(l, |s.stack|)), Top(s).oldNextId)
    ensures Owns(m, Names(l.at, all), Elems(TopSeg(l, |s.stack|)), Top(s).removed, Top(s).oldNextId)
  {
    hide RemovedOk, BackupsOk, MarksOk, IdsOk, Owns, Shows, Named, ReviveNodes, Cuts;
    TopRemoved(l, s);
    assert forall a <- TopSeg(l, |s.stack|) :: a in l.removed;
    OwnsIs(l.nodes, l.at, Elems(TopSeg(l, |s.stack|)), Top(s).removed, m, Top(s).oldNextId);
  }

  lemma OwnsIs(m: Memory, at: map<nat, nat>, seg: set<nat>, t: Table, r: Memory, oldNextId: nat)
    requires Shows(m, at, seg, t) && forall a | a in seg :: a in r
    requires forall a | a in r :: a in m && r[a].id == m[a].id
    ensures Owns(r, Names(at, ReviveNodes(r, seg, oldNextId)), seg, t, oldNextId)
  {}

  lemma UndoLoses(l: Layout, s: State, m: Memory, all: Memory)
    requires Stored(l, s) && Sturdy(s) && s.stack != []
    requires |l.removedCuts| == |s.stack| && l.removedCuts[|s.stack| - 1] <= |l.removed|
    requires Distinct(l.removed) && forall a <- l.removed :: a in m && m[a].removed
    requires Named(m, Names(l.at, m)) && forall a | a in m :: a in l.nodes && m[a].id == l.nodes[a].id
    requires var seg := Elems(l.removed[l.removedCuts[|s.stack| - 1]..]);
      all == ReviveNodes(m, seg, Top(s).oldNextId) == UndoneNodes(l.nodes, Top(s), seg)
    ensures var from := l.removedCuts[|s.stack| - 1];
      var seg, held := Elems(l.removed[from..]), Back(m, l.removed, from, Top(s).oldNextId, s.width + 1);
      Loses(s, IdsOf(m, Stranded(m, seg, held, Top(s).oldNextId)))
  {
    hide Sturdy, Loses, UndoneNodes, ReviveNodes, Back, RemovedOk, BackupsOk, MarksOk, IdsOk, Distinct;
    var n := |s.stack|;
    SturdyApart(s);
    TopRemoved(l, s);
    UndoneMain(l, s);
    assert TopSeg(l, n) == l.removed[l.removedCuts[n - 1]..];
    UndoneShape(l.nodes, Top(s), Elems(TopSeg(l, n)));
    DropNamed(l.nodes, l.at, all);
    OwnsSegment(l, s, m, all);
    StrandedLoses(m, Names(l.at, all), l.removed, l.removedCuts[n - 1], s);
  }

  /** The indices are strictly sorted exactly when the keys are unique. */
  lemma StrictIs(m: Memory, at: map<nat, nat>, indices: seq<seq<nat>>, s: State)
    requires Named(m, at) && Shows(m, at, MainSet(m), s.main)
    requires |indices| == s.width + 1 && IndicesOk(m, indices, MainSet(m))
    ensures AllStrict(m, indices) <==> Unique(s.main, s.width)
  {
    hide Holds, Sorted, AllStrict, Unique, NoTwins, NoTwin, IndicesOk;
    if AllStrict(m, indices) {
      StrictNoTwins(m, indices, s.width);
      NoTwinsUnique(m, at, s.main, s.width);
    }
    if Unique(s.main, s.width) {
      UniqueNoTwins(m, at, s.main, s.width);
      SortedToStrict(m, m, indices, MainSet(m), s.width);
    }
  }

  /** Strictly sorted indices leave no twins. */
  lemma StrictNoTwins(m: Memory, indices: seq<seq<nat>>, width: nat)
    requires IndicesOk(m, indices, MainSet(m)) && AllStrict(m, indices) && |indices| == width + 1
    ensures NoTwins(m, width)
  {
    hide Holds, Sorted, Strict, NoTwin;
    forall k, a | 0 <= k <= width && a in MainSet(m) ensures NoTwin(m, k, MainSet(m), a) {
      assert Holds(indices[k], MainSet(m)) && Strict(m, k, indices[k]);
      StrictNoTwin(m, k, indices[k], MainSet(m), a);
    }
  }

  lemma UndoNothing(l: Layout, s: State, leaked: set<nat>)
    requires Stored(l, s) && Indexed(l, s)
    ensures |l.states| == |s.stack|
    ensures l.states == [] ==> UndoesTo(s, s) && LostIn(s, s) == {} && !Dangles(s, {})
    ensures Named(l.nodes, l.at) && Shows(l.nodes, l.at, MainSet(l.nodes), s.main)
    ensures leaked == leaked + AddressesOf(l.nodes, {})
  {
    hide RemovedOk, BackupsOk, IdsOk, Named, Shows;
    assert AddressesOf(l.nodes, {}) == {};
    if l.states == [] {
      assert LostIn(s, s) == {} && Less(s, {}) == s;
    }
  }

  lemma UndoScalars(l: Layout, s: State)
    requires Stored(l, s) && Sturdy(s) && l.states != []
    ensures s.stack != [] && l.states[|l.states| - 1].oldNextId == Top(s).oldNextId
    ensures var u := UndoModel.Undo(s);
      && Sturdy(u) && |u.stack| == |s.stack| - 1 && u.width == s.width && u.mono == s.mono
      && u.nextId == Top(s).oldNextId && u.revision == s.revision - 1
  {
    hide RemovedOk, BackupsOk, IdsOk, Shows, Named, Sturdy, Cuts;
    UndoSturdy(s);
  }

  // ----- where the code parts from the model

  /** However the table of `Losing` lies in memory, nothing is new and nothing is backed up, so undo goes
    * straight to the removed node of object 2; but its key is taken in the secondary index. `insert_impl`
    * returns false, and the object is in no index any more. */
  lemma RevertedThenModifiedLoses(l: Layout)
    requires Stored(l, Losing()) && Indexed(l, Losing())
    ensures 2 in l.at && l.at[2] in l.nodes && l.nodes[l.at[2]].removed && |l.indices| == 2
    ensures var p := l.at[2];
      var m := l.nodes[p := l.nodes[p].(removed := false)];
      && l.nodes[p].id == 2 < Losing().nextId
      && !InsertUnique(m, 1, l.indices[1], p).inserted && !KeysFree(m, 0, 2, MainSet(l.nodes), p)
    ensures forall lost | Loses(Losing(), lost) :: lost == {2}
  {
    hide BackupsOk, MarksOk, IdsOk, Losing, InsertUnique, Holds, Strict, Unique, UndoMain;
    LosingIs();
    var s := Losing();
    TopRemoved(l, s);
    var p, q := l.at[2], l.at[0];
    assert p in Elems(TopSeg(l, 1)) && q in MainSet(l.nodes);
    var m := l.nodes[p := l.nodes[p].(removed := false)];
    assert KeyAt(m, 1, q) == KeyAt(m, 1, p) == 2;
    RevivedIndices(l.nodes, l.indices, p);
    InsertUniqueCorrect(m, 1, l.indices[1], MainSet(l.nodes), p);
    assert !NoTwin(m, 1, MainSet(l.nodes), p);
    forall lost | Loses(s, lost) ensures lost == {2} {
      LosingClashes(lost);
    }
  }
}
