/** What squashing, compressing and committing do to the memory and the lists. */
module SquashMemory {
  import opened Basics
  import opened Tables
  import opened UndoModel
  import opened UndoInvariant
  import opened UndoLeaks
  import opened OrderedIndex
  import opened UndoLayout
  import opened UndoMemory
  import opened UndoExactness

  // ----- all history is dropped

  function LiveNodes(m: Memory): Memory {
    map a | a in m && !m[a].removed :: m[a]
  }

  lemma LiveIndices(m: Memory, indices: seq<seq<nat>>)
    requires IndicesOk(m, indices, MainSet(m))
    ensures MainSet(LiveNodes(m)) == MainSet(m) && IndicesOk(LiveNodes(m), indices, MainSet(m))
  {
    assert MainSet(LiveNodes(m)) == MainSet(m);
    forall k | 0 <= k < |indices| ensures Sorted(LiveNodes(m), k, indices[k]) {
      assert forall a <- indices[k] :: a in MainSet(m);
      SameKeys(m, LiveNodes(m), k, indices[k]);
    }
  }

  lemma ClearedStored(l: Layout, s: State, revision: int)
    requires Stored(l, s) && Indexed(l, s)
    ensures var m := LiveNodes(l.nodes);
      var r, s' := Layout(m, map[], l.indices, [], [], [], Names(l.at, m), [], []),
        s.(stack := [], revision := revision);
      Stored(r, s') && Indexed(r, s')
  {
    hide RemovedOk, BackupsOk, MarksOk, Cuts;
    var m := LiveNodes(l.nodes);
    LiveIndices(l.nodes, l.indices);
    DropNamed(l.nodes, l.at, m);
    ShowsAlike(l.nodes, l.at, m, Names(l.at, m), MainSet(l.nodes), s.main);
    EmptyLists(m, Names(l.at, m));
  }

  lemma EmptyLists(m: Memory, at: map<nat, nat>)
    requires forall a | a in m :: !m[a].removed
    ensures RemovedOk(m, at, [], [], []) && BackupsOk(m, map[], [], [], []) && Cuts([], 0, 0)
    ensures MarksOk([], [], [], [], [], [])
  {}

  /** Freeing the removed nodes one by one. */
  ghost predicate Disposing(m: Memory, list: seq<nat>, j: nat, r: Memory)
    requires j <= |list|
  {
    && (forall a | a in r :: a in m && r[a] == m[a] && (a in list ==> a in list[..j]))
    && (forall a | a in m && (a in list ==> a in list[..j]) :: a in r)
  }

  lemma DisposeStep(m: Memory, names: map<nat, nat>, list: seq<nat>, j: nat, r: Memory)
    requires j < |list| && Distinct(list) && (forall a <- list :: a in m) && Disposing(m, list, j + 1, r)
    requires Named(r, Names(names, r))
    ensures list[j] in r && r[list[j]] == m[list[j]]
    ensures Disposing(m, list, j, r - {list[j]}) && list[..j + 1][..j] == list[..j]
    ensures Names(names, r - {list[j]}) == Names(names, r) - {r[list[j]].id}
    ensures Named(r - {list[j]}, Names(names, r - {list[j]}))
  {
    assert list[..j + 1] == list[..j] + [list[j]];
    assert list[j] in list;
    assert list[j] !in list[..j];
  }

  lemma DisposeBegins(m: Memory, at: map<nat, nat>, list: seq<nat>)
    requires Named(m, at)
    ensures Disposing(m, list, |list|, m) && Names(at, m) == at && list[..|list|] == list
  {}

  lemma DisposeEnds(m: Memory, list: seq<nat>, r: Memory)
    requires Disposing(m, list, 0, r) && forall a :: a in list <==> a in m && m[a].removed
    ensures r == LiveNodes(m)
  {}

  // ----- two sessions become one

  /** Without the top cut, the two top segments are one. */
  lemma DropCut(list: seq<nat>, cuts: seq<nat>, n: nat)
    requires Cuts(cuts, |list|, n) && n > 1
    ensures |cuts| == n && Cuts(Prefix(cuts), |list|, n - 1) && cuts[n - 2] <= cuts[n - 1] <= |list|
    ensures forall i | 0 <= i < n - 2 :: Seg(list, Prefix(cuts), i) == Seg(list, cuts, i)
    ensures Seg(list, Prefix(cuts), n - 2) == Seg(list, cuts, n - 2) + Seg(list, cuts, n - 1)
  {
    var x, y := cuts[n - 2], cuts[n - 1];
    assert list[x..] == list[x..y] + list[y..];
  }

  lemma EntriesAppend(b: Backups, s: seq<nat>, t: seq<nat>)
    requires forall a <- s + t :: a in b
    ensures (forall a <- s :: a in b) && (forall a <- t :: a in b)
    ensures Entries(b, s + t) == Entries(b, s) + Entries(b, t)
  {
    assert forall a <- s :: a in s + t;
    assert forall a <- t :: a in s + t;
  }

  lemma LiveAppend(m: Memory, b: Backups, s: seq<nat>, t: seq<nat>, c: nat, d: nat)
    requires Live(m, b, s, c) && Live(m, b, t, d) && c <= d
    ensures Live(m, b, s + t, c)
  {}

  lemma MergedBackups(m: Memory, b: Backups, list: seq<nat>, cuts: seq<nat>, s: State)
    requires BackupsOk(m, b, list, cuts, s.stack) && |s.stack| > 1 && Top(Pop(s)).ctime <= Top(s).ctime
    ensures |cuts| == |s.stack| && BackupsOk(m, b, list, Prefix(cuts), SquashFast(s).stack)
  {
    hide Live, Entries, Cuts, Seg;
    var n, stack := |s.stack|, SquashFast(s).stack;
    DropCut(list, cuts, n);
    forall i | 0 <= i < n - 1
      ensures (forall a <- Seg(list, Prefix(cuts), i) :: a in b)
      ensures Entries(b, Seg(list, Prefix(cuts), i)) == stack[i].olds
      ensures Live(m, b, Seg(list, Prefix(cuts), i), stack[i].ctime)
    {
      SegMembers(list, Prefix(cuts), n - 1, i);
      if i == n - 2 {
        EntriesAppend(b, Seg(list, cuts, n - 2), Seg(list, cuts, n - 1));
        LiveAppend(m, b, Seg(list, cuts, n - 2), Seg(list, cuts, n - 1), s.stack[n - 2].ctime, s.stack[n - 1].ctime);
      }
    }
  }

  lemma ShowsUnion(m: Memory, at: map<nat, nat>, s: seq<nat>, t: seq<nat>, a: Table, b: Table)
    requires Named(m, at) && Distinct(s + t) && Shows(m, at, Elems(s), a) && Shows(m, at, Elems(t), b)
    ensures a.Keys !! b.Keys && Shows(m, at, Elems(s + t), a + b)
  {
    assert Elems(s + t) == Elems(s) + Elems(t);
    DistinctParts(s, t);
  }

  lemma DistinctParts(s: seq<nat>, t: seq<nat>)
    requires Distinct(s + t)
    ensures Elems(s) !! Elems(t)
  {
    forall x, y | 0 <= x < |s| && 0 <= y < |t| ensures s[x] != t[y] {
      assert (s + t)[x] != (s + t)[|s| + y];
    }
  }

  lemma DistinctSlice(list: seq<nat>, x: nat, y: nat)
    requires Distinct(list) && x <= y <= |list|
    ensures Distinct(list[x..y]) && Distinct(list[x..])
  {}

  lemma MergedRemoved(m: Memory, at: map<nat, nat>, list: seq<nat>, cuts: seq<nat>, s: State)
    requires Named(m, at) && RemovedOk(m, at, list, cuts, s.stack) && |s.stack| > 1
    ensures |cuts| == |s.stack| && RemovedOk(m, at, list, Prefix(cuts), SquashFast(s).stack)
    ensures Top(Pop(s)).removed.Keys !! Top(s).removed.Keys
  {
    hide Cuts, Named, Shows;
    var n, stack := |s.stack|, SquashFast(s).stack;
    DropCut(list, cuts, n);
    var x, y := Seg(list, cuts, n - 2), Seg(list, cuts, n - 1);
    assert Distinct(x + y) by {
      DistinctSlice(list, cuts[n - 2], |list|);
    }
    ShowsUnion(m, at, x, y, s.stack[n - 2].removed, s.stack[n - 1].removed);
  }

  /** `squash_fast` of two or more sessions only forgets a mark. */
  lemma MergedStored(l: Layout, s: State)
    requires Stored(l, s) && Indexed(l, s) && Sane(s) && |s.stack| > 1
    ensures |l.states| == |l.oldCuts| == |l.removedCuts| == |s.stack|
    ensures var r := l.(states := l.states[..|s.stack| - 1], oldCuts := Prefix(l.oldCuts),
      removedCuts := Prefix(l.removedCuts));
      Stored(r, SquashFast(s)) && Indexed(r, SquashFast(s))
  {
    hide RemovedOk, BackupsOk, Named, Shows, Cuts, UsableOld, RemovedBelow;
    StoredParts(l, s);
    CutsEnd(l.oldCuts, |l.olds|, |s.stack|);
    CutsEnd(l.removedCuts, |l.removed|, |s.stack|);
    DropCut(l.olds, l.oldCuts, |s.stack|);
    DropCut(l.removed, l.removedCuts, |s.stack|);
    MergedBackups(l.nodes, l.backups, l.olds, l.oldCuts, s);
    MergedRemoved(l.nodes, l.at, l.removed, l.removedCuts, s);
  }

  // ----- compression of the top segments

  function FoldNode(n: Node, olds: seq<Entry>, c: nat): Node {
    if n.removed then RestoreNode(n, olds, c) else n
  }

  /** Backups stamped before `c` are folded into the removed nodes they were copied from. */
  function FoldNodes(m: Memory, olds: seq<Entry>, c: nat): Memory {
    map a | a in m :: FoldNode(m[a], olds, c)
  }

  function GoneIds(m: Memory): set<nat> {
    set a | a in m && m[a].removed :: m[a].id
  }

  /** The backups that compression keeps. */
  function KeptAddrs(b: Backups, list: seq<nat>, c: nat, gone: set<nat>): seq<nat>
    requires forall q <- list :: q in b
  {
    if list == [] then []
    else (if b[list[0]].mtime < c && b[list[0]].id !in gone then [list[0]] else []) + KeptAddrs(b, list[1..], c, gone)
  }

  /** The removed nodes that compression keeps. */
  function KeptNodes(m: Memory, list: seq<nat>, nid: nat): seq<nat>
    requires forall a <- list :: a in m
  {
    if list == [] then [] else (if m[list[0]].id < nid then [list[0]] else []) + KeptNodes(m, list[1..], nid)
  }

  /** The removed nodes `seg` with new ids are freed. */
  function DropRemoved(m: Memory, seg: set<nat>, nid: nat): Memory {
    map a | a in m && (a in seg ==> m[a].id < nid) :: m[a]
  }

  lemma FoldNothing(m: Memory, c: nat)
    ensures FoldNodes(m, [], c) == m
  {}

  /** The oldest usable backup is folded in last, and wins. */
  lemma FoldStep(m: Memory, e: Entry, olds: seq<Entry>, c: nat)
    ensures FoldNodes(FoldNodes(m, olds, c), [e], c) == FoldNodes(m, [e] + olds, c)
  {
    forall a | a in m ensures FoldNode(FoldNode(m[a], olds, c), [e], c) == FoldNode(m[a], [e] + olds, c) {
      OldestAppend([e], olds, m[a].id, c);
    }
  }

  lemma FoldOne(m: Memory, at: map<nat, nat>, o: OldNode, c: nat)
    requires Named(m, at) && (o.mtime < c ==> o.current in m && m[o.current].id == o.id)
    ensures FoldNodes(m, [EntryOf(o)], c) ==
      if o.mtime < c && m[o.current].removed then m[o.current := m[o.current].(value := o.value, mtime := o.mtime)]
        else m
    ensures o.mtime < c ==> (m[o.current].removed <==> o.id in GoneIds(m))
  {
    RestoreOneNode(m, at, o, c);
    var r := RestoreNodes(m, [EntryOf(o)], c);
    forall a | a in m ensures FoldNode(m[a], [EntryOf(o)], c) == if m[a].removed then r[a] else m[a] {}
  }

  lemma FoldShape(m: Memory, at: map<nat, nat>, olds: seq<Entry>, c: nat)
    requires Named(m, at)
    ensures var r := FoldNodes(m, olds, c);
      && Named(r, at) && MainSet(r) == MainSet(m) && GoneIds(r) == GoneIds(m)
      && (forall a :: a in r <==> a in m) && (forall a | a in m :: r[a].id == m[a].id && r[a].removed == m[a].removed)
      && (forall a | a in m && !m[a].removed :: r[a] == m[a])
  {
    var r := FoldNodes(m, olds, c);
    forall a | a in m ensures r[a].id == m[a].id && r[a].removed == m[a].removed {}
    assert GoneIds(r) == GoneIds(m) by {
      assert forall a :: a in r && r[a].removed <==> a in m && m[a].removed;
    }
  }

  /** How far the filter of `_old_values` has come: `list[i..]` is done. */
  ghost predicate Filtering(m: Memory, b: Backups, list: seq<nat>, i: nat, c: nat, r: Memory, olds: seq<nat>)
    requires i <= |list| && forall q <- list :: q in b
  {
    && olds == list[..i] + KeptAddrs(b, list[i..], c, GoneIds(m))
    && r == FoldNodes(m, Entries(b, list[i..]), c)
  }

  lemma FilterBegins(m: Memory, b: Backups, list: seq<nat>, c: nat)
    requires forall q :: q in list <==> q in b
    ensures Filtering(m, b, list, |list|, c, m, list) && KeptBackups(b, list) == b
  {
    assert Entries(b, list[|list|..]) == [];
    assert KeptAddrs(b, list[|list|..], c, GoneIds(m)) == [];
    FoldNothing(m, c);
  }

  /** The next backup is dropped, folded into its removed node, or kept. */
  lemma FilterStep(m: Memory, at: map<nat, nat>, b: Backups, list: seq<nat>, from: nat, i: nat, c: nat, r: Memory,
      olds: seq<nat>)
    requires Named(m, at) && (forall q <- list :: q in b) && from <= i < |list| && Live(m, b, list[from..], c)
    requires Filtering(m, b, list, i + 1, c, r, olds)
    ensures |olds| > i && olds[i] == list[i]
    ensures var o := b[list[i]];
      && (o.mtime < c ==> o.current in r)
      && (if o.mtime < c && r[o.current].removed then
            Filtering(m, b, list, i, c, r[o.current := r[o.current].(value := o.value, mtime := o.mtime)],
              olds[..i] + olds[i + 1..])
          else if o.mtime >= c then Filtering(m, b, list, i, c, r, olds[..i] + olds[i + 1..])
          else Filtering(m, b, list, i, c, r, olds))
  {
    hide FoldNodes, Named;
    var q, o := list[i], b[list[i]];
    var rest := KeptAddrs(b, list[i + 1..], c, GoneIds(m));
    assert list[..i + 1] == list[..i] + [q] && list[i..][1..] == list[i + 1..] && list[i..] == [q] + list[i + 1..];
    assert olds[..i] == list[..i] && olds[i + 1..] == rest && olds == list[..i] + [q] + rest;
    FoldShape(m, at, Entries(b, list[i + 1..]), c);
    assert list[from..][i - from] == q;
    FoldOne(r, at, o, c);
    assert Entries(b, list[i..]) == [EntryOf(o)] + Entries(b, list[i + 1..]);
    FoldStep(m, EntryOf(o), Entries(b, list[i + 1..]), c);
  }

  /** How far the filter of `_removed_values` has come. */
  ghost predicate Freeing(m: Memory, list: seq<nat>, i: nat, nid: nat, r: Memory, removed: seq<nat>)
    requires i <= |list| && forall a <- list :: a in m
  {
    && removed == list[..i] + KeptNodes(m, list[i..], nid)
    && r == DropRemoved(m, Elems(list[i..]), nid)
  }

  lemma FreeBegins(m: Memory, at: map<nat, nat>, list: seq<nat>, nid: nat)
    requires Named(m, at) && forall a <- list :: a in m
    ensures Freeing(m, list, |list|, nid, m, list) && Names(at, m) == at
  {
    assert KeptNodes(m, list[|list|..], nid) == [];
  }

  lemma FreeStep(m: Memory, names: map<nat, nat>, list: seq<nat>, i: nat, nid: nat, r: Memory, removed: seq<nat>)
    requires Distinct(list) && (forall a <- list :: a in m) && i < |list|
    requires Freeing(m, list, i + 1, nid, r, removed) && Named(r, Names(names, r))
    ensures |removed| > i && removed[i] == list[i] && list[i] in r
    ensures var p := list[i];
      if nid <= r[p].id then
        && Freeing(m, list, i, nid, r - {p}, removed[..i] + removed[i + 1..])
        && Names(names, r - {p}) == Names(names, r) - {r[p].id} && Named(r - {p}, Names(names, r - {p}))
      else Freeing(m, list, i, nid, r, removed)
  {
    var p, rest := list[i], KeptNodes(m, list[i + 1..], nid);
    assert list[..i + 1] == list[..i] + [p] && list[i..][1..] == list[i + 1..];
    assert removed[..i] == list[..i] && removed[i + 1..] == rest && removed == list[..i] + [p] + rest;
    assert list[i..] == [p] + list[i + 1..];
    assert Elems(list[i..]) == Elems(list[i + 1..]) + {p} && p !in Elems(list[i + 1..]);
  }

  // ----- the compressed layout

  lemma {:induction false} KeptAddrsMembers(b: Backups, list: seq<nat>, c: nat, gone: set<nat>)
    requires (forall q <- list :: q in b) && Distinct(list)
    ensures Distinct(KeptAddrs(b, list, c, gone))
    ensures forall q :: q in KeptAddrs(b, list, c, gone) <==> q in list && b[q].mtime < c && b[q].id !in gone
  {
    if list != [] {
      assert Distinct(list[1..]);
      KeptAddrsMembers(b, list[1..], c, gone);
      assert forall q :: q in list <==> q == list[0] || q in list[1..];
      assert list[0] !in list[1..];
    }
  }

  lemma {:induction false} KeptAddrsEntries(b: Backups, list: seq<nat>, c: nat, gone: set<nat>)
    requires forall q <- list :: q in b
    ensures forall q <- KeptAddrs(b, list, c, gone) :: q in b
    ensures Entries(b, KeptAddrs(b, list, c, gone)) == KeptOlds(Entries(b, list), c, gone)
  {
    if list != [] {
      KeptAddrsEntries(b, list[1..], c, gone);
      var rest := KeptAddrs(b, list[1..], c, gone);
      assert Entries(b, list)[1..] == Entries(b, list[1..]);
      assert Entries(b, [list[0]] + rest) == [EntryOf(b[list[0]])] + Entries(b, rest);
    }
  }

  /** Only the ids of usable backups matter to the filter. */
  lemma {:induction false} KeptOldsAlike(olds: seq<Entry>, c: nat, gone: set<nat>, gone': set<nat>)
    requires forall e <- olds | e.row.mtime < c :: e.id in gone <==> e.id in gone'
    ensures KeptOlds(olds, c, gone) == KeptOlds(olds, c, gone')
  {
    if olds != [] {
      assert olds[0] in olds;
      assert forall e <- olds[1..] :: e in olds;
      KeptOldsAlike(olds[1..], c, gone, gone');
    }
  }

  lemma {:induction false} KeptNodesMembers(m: Memory, list: seq<nat>, nid: nat)
    requires (forall a <- list :: a in m) && Distinct(list)
    ensures Distinct(KeptNodes(m, list, nid))
    ensures forall a :: a in KeptNodes(m, list, nid) <==> a in list && m[a].id < nid
  {
    if list != [] {
      assert Distinct(list[1..]);
      KeptNodesMembers(m, list[1..], nid);
      assert forall q :: q in list <==> q == list[0] || q in list[1..];
      assert list[0] !in list[1..];
    }
  }

  /** Replacing the top segment of a list. */
  lemma NewTop(list: seq<nat>, cuts: seq<nat>, n: nat, kept: seq<nat>)
    requires Cuts(cuts, |list|, n) && n > 0
    ensures |cuts| == n && cuts[n - 1] <= |list|
    ensures var r := list[..cuts[n - 1]] + kept;
      && Cuts(cuts, |r|, n)
      && (forall i | 0 <= i < n - 1 :: Seg(r, cuts, i) == Seg(list, cuts, i))
      && Seg(r, cuts, n - 1) == kept && Seg(list, cuts, n - 1) == list[cuts[n - 1]..]
      && (forall i | 0 <= i < n :: MarkAt(r, cuts[i]) == MarkAt(list, cuts[i]))
      && r[..cuts[0]] == list[..cuts[0]]
  {
    var c := cuts[n - 1];
    var r := list[..c] + kept;
    assert r[..c] == list[..c];
    forall i | 0 <= i < n - 1 ensures Seg(r, cuts, i) == Seg(list, cuts, i) {
      assert cuts[i] <= cuts[i + 1] <= c by { assert i + 1 < n - 1 ==> cuts[i + 1] <= cuts[n - 1]; }
      assert r[cuts[i]..cuts[i + 1]] == list[cuts[i]..cuts[i + 1]];
    }
    forall i | 0 <= i < n ensures cuts[i] <= c {}
  }

  /** The removed ids that a usable backup can name are those of the top session. */
  lemma GoneAgree(l: Layout, s: State, c: nat, e: Entry)
    requires Stored(l, s) && s.stack != [] && BackupsLive(s.main, Top(s)) && c <= Top(s).ctime
    requires e in Top(s).olds && e.row.mtime < c
    ensures e.id in GoneIds(l.nodes) <==> e.id in Top(s).removed
  {
    hide BackupsOk, MarksOk, IdsOk, RemovedOk;
    TopRemoved(l, s);
    assert e.id in Base(s.main, Top(s));
  }

  /** Backups of other removed nodes are never usable in the top session. */
  lemma OthersNotFolded(l: Layout, s: State, c: nat, a: nat)
    requires Stored(l, s) && s.stack != [] && BackupsLive(s.main, Top(s)) && c <= Top(s).ctime
    requires a in l.nodes && l.nodes[a].removed && a !in TopSeg(l, |s.stack|)
    ensures Oldest(Top(s).olds, l.nodes[a].id, c).None?
  {
    hide BackupsOk, MarksOk, IdsOk, RemovedOk;
    TopRemoved(l, s);
    OldestFound(Top(s).olds, l.nodes[a].id, c);
  }

  lemma KeptSegment(m: Memory, r: Memory, b: Backups, b': Backups, seg: seq<nat>, t: Session, c: nat, nid: nat)
    requires (forall q <- seg :: q in b) && Distinct(seg) && Entries(b, seg) == t.olds && Live(m, b, seg, t.ctime)
    requires c <= t.ctime
    requires forall a | a in m && !m[a].removed :: a in r && r[a].id == m[a].id
    requires forall e <- t.olds | e.row.mtime < c :: e.id in GoneIds(m) <==> e.id in t.removed
    requires var kept := KeptAddrs(b, seg, c, GoneIds(m)); forall q <- kept :: q in b' && q in b && b'[q] == b[q]
    ensures var kept := KeptAddrs(b, seg, c, GoneIds(m));
      && (forall q <- kept :: q in b')
      && Entries(b', kept) == KeptOlds(t.olds, c, t.removed.Keys) && Live(r, b', kept, t.ctime)
  {
    var kept := KeptAddrs(b, seg, c, GoneIds(m));
    KeptAddrsEntries(b, seg, c, GoneIds(m));
    KeptAddrsMembers(b, seg, c, GoneIds(m));
    KeptOldsAlike(t.olds, c, GoneIds(m), t.removed.Keys);
    assert Entries(b', kept) == Entries(b, kept);
  }

  lemma CompressedBackups(l: Layout, s: State, c: nat, nid: nat, r: Memory)
    requires Stored(l, s) && Sane(s) && s.stack != [] && BackupsLive(s.main, Top(s)) && c <= Top(s).ctime
    requires forall i | 0 <= i < |s.stack| - 1 :: s.stack[i].oldNextId <= nid
    requires forall a | a in l.nodes && (!l.nodes[a].removed || l.nodes[a].id < nid) ::
      a in r && r[a].id == l.nodes[a].id
    ensures Cuts(l.oldCuts, |l.olds|, |s.stack|) && (forall q <- l.olds :: q in l.backups)
    ensures var from := l.oldCuts[|s.stack| - 1];
      var olds := l.olds[..from] + KeptAddrs(l.backups, l.olds[from..], c, GoneIds(l.nodes));
      BackupsOk(r, KeptBackups(l.backups, olds), olds, l.oldCuts, CompressImpl(s, c, nid).stack)
  {
    hide MarksOk, IdsOk, RemovedOk, Named, Shows, Cuts, Live, Entries, BackupsLive, InOrder, RemovedBelow, UsableOld,
      Seg, Distinct, KeptAddrs, KeptBackups;
    var n, t := |s.stack|, Top(s);
    CutsEnd(l.oldCuts, |l.olds|, n);
    var from, stack := l.oldCuts[n - 1], CompressImpl(s, c, nid).stack;
    var kept := KeptAddrs(l.backups, l.olds[from..], c, GoneIds(l.nodes));
    var olds := l.olds[..from] + kept;
    var b := KeptBackups(l.backups, olds);
    NewTop(l.olds, l.oldCuts, n, kept);
    OldsMembers(l.backups, l.olds, from, c, GoneIds(l.nodes));
    forall i | 0 <= i < n - 1
      ensures (forall q <- Seg(olds, l.oldCuts, i) :: q in b)
      ensures Entries(b, Seg(olds, l.oldCuts, i)) == stack[i].olds
      ensures Live(r, b, Seg(olds, l.oldCuts, i), stack[i].ctime)
    {
      SegMembers(olds, l.oldCuts, n, i);
      CompressedLower(l, s, nid, r, b, i);
    }
    CompressedTop(l, s, c, nid, r, b);
  }

  lemma CompressedLower(l: Layout, s: State, nid: nat, r: Memory, b: Backups, i: nat)
    requires Stored(l, s) && UsableOld(s.stack) && i < |s.stack| - 1 && s.stack[i].oldNextId <= nid
    requires forall a | a in l.nodes && (!l.nodes[a].removed || l.nodes[a].id < nid) ::
      a in r && r[a].id == l.nodes[a].id
    requires Cuts(l.oldCuts, |l.olds|, |s.stack|) && forall q <- Seg(l.olds, l.oldCuts, i) ::
      q in b && q in l.backups && b[q] == l.backups[q]
    ensures Entries(b, Seg(l.olds, l.oldCuts, i)) == s.stack[i].olds
    ensures Live(r, b, Seg(l.olds, l.oldCuts, i), s.stack[i].ctime)
  {
    hide MarksOk, IdsOk, RemovedOk, Named, Shows, Cuts, Live, Entries;
    CutsAt(l.oldCuts, |l.olds|, |s.stack|, i);
    UndoneSegment(l.nodes, r, l.backups, b, Seg(l.olds, l.oldCuts, i), s.stack[i], nid);
  }

  /** A list whose tail is replaced by a part of it. */
  lemma ReplaceTail(list: seq<nat>, from: nat, kept: seq<nat>)
    requires from <= |list| && Distinct(list) && Distinct(kept) && forall x <- kept :: x in list[from..]
    ensures Distinct(list[..from] + kept) && (forall x <- list[..from] + kept :: x in list)
    ensures forall x <- list[..from] :: x !in list[from..]
    ensures forall x <- list :: x in list[..from] || x in list[from..]
  {
    assert list == list[..from] + list[from..];
    assert forall x <- list[from..] :: x in list;
    forall x <- list[..from] ensures x !in list[from..] {
      DistinctParts(list[..from], list[from..]);
      assert x in Elems(list[..from]);
    }
    var r := list[..from] + kept;
    forall i, j | 0 <= i < j < |r| ensures r[i] != r[j] {
      if i < from <= j {
        assert r[i] in list[..from] && r[j] in kept;
      }
    }
  }

  lemma OldsMembers(b: Backups, list: seq<nat>, from: nat, c: nat, gone: set<nat>)
    requires from <= |list| && Distinct(list) && forall q :: q in list <==> q in b
    ensures var olds := list[..from] + KeptAddrs(b, list[from..], c, gone);
      && Distinct(olds)
      && (forall q :: q in olds <==> q in KeptBackups(b, olds))
      && (forall q <- olds :: q in KeptBackups(b, olds) && q in b && KeptBackups(b, olds)[q] == b[q])
      && (forall q <- KeptAddrs(b, list[from..], c, gone) :: q in olds)
  {
    DistinctSlice(list, from, |list|);
    KeptAddrsMembers(b, list[from..], c, gone);
    ReplaceTail(list, from, KeptAddrs(b, list[from..], c, gone));
  }

  lemma CompressedTop(l: Layout, s: State, c: nat, nid: nat, r: Memory, b: Backups)
    requires Stored(l, s) && s.stack != [] && BackupsLive(s.main, Top(s)) && c <= Top(s).ctime
    requires forall a | a in l.nodes && !l.nodes[a].removed :: a in r && r[a].id == l.nodes[a].id
    requires Cuts(l.oldCuts, |l.olds|, |s.stack|) && (forall q <- l.olds :: q in l.backups)
    requires var kept := KeptAddrs(l.backups, l.olds[l.oldCuts[|s.stack| - 1]..], c, GoneIds(l.nodes));
      forall q <- kept :: q in b && q in l.backups && b[q] == l.backups[q]
    ensures var kept := KeptAddrs(l.backups, l.olds[l.oldCuts[|s.stack| - 1]..], c, GoneIds(l.nodes));
      && (forall q <- kept :: q in b)
      && Entries(b, kept) == KeptOlds(Top(s).olds, c, Top(s).removed.Keys) && Live(r, b, kept, Top(s).ctime)
  {
    hide MarksOk, IdsOk, RemovedOk, Named, Shows, Live, BackupsLive;
    var from := l.oldCuts[|s.stack| - 1];
    assert Seg(l.olds, l.oldCuts, |s.stack| - 1) == l.olds[from..];
    DistinctSlice(l.olds, from, |l.olds|);
    forall e <- Top(s).olds | e.row.mtime < c ensures e.id in GoneIds(l.nodes) <==> e.id in Top(s).removed {
      GoneAgree(l, s, c, e);
    }
    KeptSegment(l.nodes, r, l.backups, b, l.olds[from..], Top(s), c, nid);
  }

  lemma RemovedMembers(m: Memory, r: Memory, list: seq<nat>, from: nat, nid: nat)
    requires from <= |list| && Distinct(list) && forall a :: a in list <==> a in m && m[a].removed
    requires forall a :: a in r <==> a in m && (a in list[from..] ==> m[a].id < nid)
    requires forall a | a in r :: r[a].removed == m[a].removed
    ensures var removed := list[..from] + KeptNodes(m, list[from..], nid);
      && Distinct(removed) && (forall a <- removed :: a in list)
      && (forall a :: a in removed <==> a in r && r[a].removed)
  {
    hide Distinct;
    assert forall a <- list[from..] :: a in list;
    DistinctSlice(list, from, |list|);
    KeptNodesMembers(m, list[from..], nid);
    ReplaceTail(list, from, KeptNodes(m, list[from..], nid));
  }

  /** The memory after compression. */
  function CompressedNodes(m: Memory, t: Session, c: nat, seg: set<nat>, nid: nat): Memory {
    DropRemoved(FoldNodes(m, t.olds, c), seg, nid)
  }

  lemma CompressedShape(m: Memory, at: map<nat, nat>, t: Session, c: nat, seg: set<nat>, nid: nat)
    requires Named(m, at) && forall a | a in seg :: a in m && m[a].removed
    ensures var r := CompressedNodes(m, t, c, seg, nid);
      && Named(r, Names(at, r)) && MainSet(r) == MainSet(m)
      && (forall a :: a in r <==> a in m && (a in seg ==> m[a].id < nid))
      && (forall a | a in r :: r[a].id == m[a].id && r[a].removed == m[a].removed)
      && (forall a | a in r && !m[a].removed :: r[a] == m[a])
      && (forall a | a in r && m[a].removed :: r[a] == RestoreNode(m[a], t.olds, c))
  {
    FoldShape(m, at, t.olds, c);
    var f, r := FoldNodes(m, t.olds, c), CompressedNodes(m, t, c, seg, nid);
    DropNamed(f, at, r);
    assert MainSet(r) == MainSet(f);
  }

  lemma RestoredRow(n: Node, olds: seq<Entry>, c: nat)
    ensures RowOf(RestoreNode(n, olds, c)) == Oldest(olds, n.id, c).GetOr(RowOf(n))
  {}

  lemma CompressedShows(m: Memory, at: map<nat, nat>, t: Session, c: nat, list: seq<nat>, nid: nat)
    requires Named(m, at) && Distinct(list) && Shows(m, at, Elems(list), t.removed) && forall a <- list ::
      a in m && m[a].removed
    ensures var r := CompressedNodes(m, t, c, Elems(list), nid);
      Shows(r, Names(at, r), Elems(KeptNodes(m, list, nid)), FoldedTable(t, c, nid))
  {
    hide Named, Oldest, RestoreNode, CompressedNodes, Distinct;
    var r, kept := CompressedNodes(m, t, c, Elems(list), nid), KeptNodes(m, list, nid);
    var u := FoldedTable(t, c, nid);
    CompressedShape(m, at, t, c, Elems(list), nid);
    KeptNodesMembers(m, list, nid);
    forall a | a in Elems(kept) ensures a in r && r[a].id in u && u[r[a].id] == RowOf(r[a]) {
      RestoredRow(m[a], t.olds, c);
      assert a in Elems(list);
    }
    forall id | id in u
      ensures id in Names(at, r) && Names(at, r)[id] in Elems(kept) && Names(at, r)[id] in r
        && r[Names(at, r)[id]].id == id
    {
      assert at[id] in list && m[at[id]].id == id;
    }
    ShowsFrom(r, Names(at, r), Elems(kept), u);
  }

  lemma CompressedRemoved(l: Layout, s: State, c: nat, nid: nat)
    requires Stored(l, s) && s.stack != [] && BackupsLive(s.main, Top(s)) && c <= Top(s).ctime
    ensures Cuts(l.removedCuts, |l.removed|, |s.stack|) && (forall a <- l.removed :: a in l.nodes)
    ensures var from := l.removedCuts[|s.stack| - 1];
      var r := CompressedNodes(l.nodes, Top(s), c, Elems(l.removed[from..]), nid);
      var removed := l.removed[..from] + KeptNodes(l.nodes, l.removed[from..], nid);
      RemovedOk(r, Names(l.at, r), removed, l.removedCuts, CompressImpl(s, c, nid).stack)
  {
    hide Stored, Named, Shows, Cuts, BackupsLive, CompressedNodes, Distinct, Seg, KeptNodes, FoldedTable, KeptOlds,
      Elems, Live, Entries, MarkAt, Oldest;
    var n, t := |s.stack|, Top(s);
    ListParts(l, s);
    StoredParts(l, s);
    var from, stack := l.removedCuts[n - 1], CompressImpl(s, c, nid).stack;
    var seg, kept := l.removed[from..], KeptNodes(l.nodes, l.removed[from..], nid);
    var removed, r := l.removed[..from] + kept, CompressedNodes(l.nodes, t, c, Elems(seg), nid);
    NewTop(l.removed, l.removedCuts, n, kept);
    assert forall a <- seg :: a in l.removed;
    SegElems(seg, l.nodes);
    CompressedShape(l.nodes, l.at, t, c, Elems(seg), nid);
    InElems(seg);
    RemovedMembers(l.nodes, r, l.removed, from, nid);
    DistinctSlice(l.removed, from, |l.removed|);
    TopShown(l, s);
    CompressedShows(l.nodes, l.at, t, c, seg, nid);
    forall i | 0 <= i < n - 1
      ensures Shows(r, Names(l.at, r), Elems(Seg(removed, l.removedCuts, i)), stack[i].removed)
    {
      CompressedBelow(l, s, c, nid, i);
    }
  }

  lemma InElems(s: seq<nat>)
    ensures forall a :: a in Elems(s) <==> a in s
  {}

  lemma TopShown(l: Layout, s: State)
    requires Stored(l, s) && s.stack != []
    ensures |l.removedCuts| == |s.stack| && l.removedCuts[|s.stack| - 1] <= |l.removed|
    ensures Shows(l.nodes, l.at, Elems(l.removed[l.removedCuts[|s.stack| - 1]..]), Top(s).removed)
  {
    hide Shows, BackupsOk, MarksOk, IdsOk, Named;
    var n := |s.stack|;
    CutsEnd(l.removedCuts, |l.removed|, n);
    assert Seg(l.removed, l.removedCuts, n - 1) == l.removed[l.removedCuts[n - 1]..];
  }

  lemma CompressedBelow(l: Layout, s: State, c: nat, nid: nat, i: nat)
    requires Stored(l, s) && s.stack != [] && BackupsLive(s.main, Top(s)) && c <= Top(s).ctime && i < |s.stack| - 1
    ensures Cuts(l.removedCuts, |l.removed|, |s.stack|)
    ensures var r := CompressedNodes(l.nodes, Top(s), c, Elems(l.removed[l.removedCuts[|s.stack| - 1]..]), nid);
      Shows(r, Names(l.at, r), Elems(Seg(l.removed, l.removedCuts, i)), s.stack[i].removed)
  {
    hide BackupsOk, MarksOk, IdsOk, BackupsLive, CompressedNodes, Oldest, Named, Shows, Cuts, Seg, RestoreNode;
    var n := |s.stack|;
    StoredParts(l, s);
    CutsEnd(l.removedCuts, |l.removed|, n);
    var from := l.removedCuts[n - 1];
    var r := CompressedNodes(l.nodes, Top(s), c, Elems(l.removed[from..]), nid);
    assert forall a <- l.removed[from..] :: a in l.removed;
    CompressedShape(l.nodes, l.at, Top(s), c, Elems(l.removed[from..]), nid);
    CutsAt(l.removedCuts, |l.removed|, n, i);
    forall a | a in Elems(Seg(l.removed, l.removedCuts, i)) ensures a in r && r[a] == l.nodes[a] {
      SegBelowTop(l.removed, l.removedCuts, n, i, a);
      OthersNotFolded(l, s, c, a);
      Unrestored(l.nodes[a], Top(s).olds, c);
    }
    ShowsAlike(l.nodes, l.at, r, Names(l.at, r), Elems(Seg(l.removed, l.removedCuts, i)), s.stack[i].removed);
  }

  lemma Unrestored(n: Node, olds: seq<Entry>, c: nat)
    requires Oldest(olds, n.id, c).None?
    ensures RestoreNode(n, olds, c) == n
  {}

  lemma CutsAt(cuts: seq<nat>, len: nat, n: nat, i: nat)
    requires Cuts(cuts, len, n) && i < n
    ensures |cuts| == n && cuts[i] <= End(cuts, len, i) <= len
  {}

  lemma SegBelowTop(list: seq<nat>, cuts: seq<nat>, n: nat, i: nat, a: nat)
    requires Cuts(cuts, |list|, n) && Distinct(list) && i < n - 1 && a in Seg(list, cuts, i)
    ensures a in list && a !in Seg(list, cuts, n - 1) && a !in list[cuts[n - 1]..]
  {
    var x :| 0 <= x < |Seg(list, cuts, i)| && Seg(list, cuts, i)[x] == a;
    assert cuts[i + 1] <= cuts[n - 1] by { assert i + 1 < n - 1 ==> cuts[i + 1] <= cuts[n - 1]; }
    assert list[..cuts[n - 1]][cuts[i] + x] == a;
    TopOrBelow(list, cuts, n, a);
  }

  /** The layout after compression of the top segments. */
  function CompressedLayout(l: Layout, s: State, c: nat, nid: nat): Layout
    requires s.stack != [] && |l.oldCuts| == |s.stack| == |l.removedCuts|
    requires l.oldCuts[|s.stack| - 1] <= |l.olds| && l.removedCuts[|s.stack| - 1] <= |l.removed|
    requires (forall q <- l.olds :: q in l.backups) && (forall a <- l.removed :: a in l.nodes)
  {
    var from, removedFrom := l.oldCuts[|s.stack| - 1], l.removedCuts[|s.stack| - 1];
    var r := CompressedNodes(l.nodes, Top(s), c, Elems(l.removed[removedFrom..]), nid);
    var olds := l.olds[..from] + KeptAddrs(l.backups, l.olds[from..], c, GoneIds(l.nodes));
    l.(nodes := r, backups := KeptBackups(l.backups, olds), olds := olds,
       removed := l.removed[..removedFrom] + KeptNodes(l.nodes, l.removed[removedFrom..], nid), at := Names(l.at, r))
  }

  /** What compression may rely on. */
  ghost predicate Ready(l: Layout, s: State, c: nat, nid: nat) {
    && Stored(l, s) && Indexed(l, s) && Sane(s) && s.stack != []
    && BackupsLive(s.main, Top(s)) && c <= Top(s).ctime
    && forall i | 0 <= i < |s.stack| - 1 :: s.stack[i].oldNextId <= nid
  }

  lemma ListParts(l: Layout, s: State)
    requires Stored(l, s) && s.stack != []
    ensures |l.oldCuts| == |s.stack| == |l.removedCuts| && |l.states| == |s.stack|
    ensures l.oldCuts[|s.stack| - 1] <= |l.olds| && l.removedCuts[|s.stack| - 1] <= |l.removed|
    ensures Distinct(l.olds) && forall q :: q in l.olds <==> q in l.backups
    ensures Distinct(l.removed) && forall a :: a in l.removed <==> a in l.nodes && l.nodes[a].removed
    ensures l.states[|s.stack| - 1] == UndoState(
      MarkAt(l.olds, l.oldCuts[|s.stack| - 1]), MarkAt(l.removed, l.removedCuts[|s.stack| - 1]), Top(s).oldNextId,
        Top(s).ctime)
    ensures Named(l.nodes, l.at)
    ensures Live(l.nodes, l.backups, l.olds[l.oldCuts[|s.stack| - 1]..], Top(s).ctime)
    ensures Entries(l.backups, l.olds[l.oldCuts[|s.stack| - 1]..]) == Top(s).olds
  {
    hide Shows, IdsOk;
    var n := |s.stack|;
    CutsEnd(l.oldCuts, |l.olds|, n);
    CutsEnd(l.removedCuts, |l.removed|, n);
    assert Seg(l.olds, l.oldCuts, n - 1) == l.olds[l.oldCuts[n - 1]..];
  }

  lemma CompressDone(l: Layout, s: State, c: nat, nid: nat)
    requires Ready(l, s, c, nid)
    ensures |l.oldCuts| == |s.stack| == |l.removedCuts|
    ensures l.oldCuts[|s.stack| - 1] <= |l.olds| && l.removedCuts[|s.stack| - 1] <= |l.removed|
    ensures (forall q <- l.olds :: q in l.backups) && (forall a <- l.removed :: a in l.nodes)
    ensures Stored(CompressedLayout(l, s, c, nid), CompressImpl(s, c, nid))
    ensures Indexed(CompressedLayout(l, s, c, nid), CompressImpl(s, c, nid))
  {
    hide Stored, Sane, BackupsLive, CompressedNodes, KeptAddrs, KeptNodes, KeptBackups, Named, Indexed, FoldedTable,
      KeptOlds, Distinct, Live, Entries, MarkAt, Elems;
    ListParts(l, s);
    var seg := l.removed[l.removedCuts[|s.stack| - 1]..];
    assert forall a <- seg :: a in l.removed;
    SegElems(seg, l.nodes);
    CompressedShape(l.nodes, l.at, Top(s), c, Elems(seg), nid);
    var r := CompressedNodes(l.nodes, Top(s), c, Elems(seg), nid);
    CompressedBackups(l, s, c, nid, r);
    CompressedRemoved(l, s, c, nid);
    CompressedMarks(l, s, c, nid);
    CompressedMain(l, s, r);
    CompressedStored(l, s, c, nid);
  }

  lemma SegElems(seg: seq<nat>, m: Memory)
    requires forall a <- seg :: a in m && m[a].removed
    ensures forall a | a in Elems(seg) :: a in m && m[a].removed
  {}

  /** The table and its indices do not notice compression. */
  lemma CompressedMain(l: Layout, s: State, r: Memory)
    requires Stored(l, s) && Indexed(l, s) && MainSet(r) == MainSet(l.nodes)
    requires forall a | a in r :: a in l.nodes && r[a].id == l.nodes[a].id && (l.nodes[a].removed || r[a] == l.nodes[a])
    requires forall a | a in l.nodes && !l.nodes[a].removed :: a in r
    ensures Shows(r, Names(l.at, r), MainSet(r), s.main)
    ensures IndicesOk(r, l.indices, MainSet(r)) && |l.indices| == s.width + 1
    ensures forall a | a in r :: r[a].id < s.nextId
  {
    hide RemovedOk, BackupsOk, MarksOk, Cuts;
    ShowsAlike(l.nodes, l.at, r, Names(l.at, r), MainSet(r), s.main);
    forall k | 0 <= k < |l.indices| ensures Sorted(r, k, l.indices[k]) {
      assert forall a <- l.indices[k] :: a in MainSet(r);
      SameKeys(l.nodes, r, k, l.indices[k]);
    }
  }

  lemma CompressedMarks(l: Layout, s: State, c: nat, nid: nat)
    requires Stored(l, s) && s.stack != []
    requires |l.oldCuts| == |s.stack| == |l.removedCuts|
    requires l.oldCuts[|s.stack| - 1] <= |l.olds| && l.removedCuts[|s.stack| - 1] <= |l.removed|
    requires (forall q <- l.olds :: q in l.backups) && (forall a <- l.removed :: a in l.nodes)
    ensures var r := CompressedLayout(l, s, c, nid);
      && Cuts(l.oldCuts, |r.olds|, |s.stack|) && Cuts(l.removedCuts, |r.removed|, |s.stack|)
      && MarksOk(l.states, r.olds, l.oldCuts, r.removed, l.removedCuts, CompressImpl(s, c, nid).stack)
      && r.removed[..l.removedCuts[0]] == l.removed[..l.removedCuts[0]]
  {
    hide RemovedOk, BackupsOk, Named, Shows, IdsOk, KeptOlds, FoldedTable, Cuts, KeptAddrs, KeptNodes, MarkAt, Seg;
    var n, r := |s.stack|, CompressedLayout(l, s, c, nid);
    NewTop(l.olds, l.oldCuts, n, KeptAddrs(l.backups, l.olds[l.oldCuts[n - 1]..], c, GoneIds(l.nodes)));
    NewTop(l.removed, l.removedCuts, n, KeptNodes(l.nodes, l.removed[l.removedCuts[n - 1]..], nid));
  }

  lemma CompressedStored(l: Layout, s: State, c: nat, nid: nat)
    requires Stored(l, s) && s.stack != []
    requires |l.oldCuts| == |s.stack| == |l.removedCuts|
    requires l.oldCuts[|s.stack| - 1] <= |l.olds| && l.removedCuts[|s.stack| - 1] <= |l.removed|
    requires (forall q <- l.olds :: q in l.backups) && (forall a <- l.removed :: a in l.nodes)
    requires var r, s' := CompressedLayout(l, s, c, nid), CompressImpl(s, c, nid);
      && Named(r.nodes, r.at) && Shows(r.nodes, r.at, MainSet(r.nodes), s.main)
      && IndicesOk(r.nodes, l.indices, MainSet(r.nodes)) && |l.indices| == s.width + 1
      && Cuts(l.oldCuts, |r.olds|, |s.stack|) && Cuts(l.removedCuts, |r.removed|, |s.stack|)
      && RemovedOk(r.nodes, r.at, r.removed, l.removedCuts, s'.stack)
      && BackupsOk(r.nodes, r.backups, r.olds, l.oldCuts, s'.stack)
      && MarksOk(l.states, r.olds, l.oldCuts, r.removed, l.removedCuts, s'.stack)
      && r.removed[..l.removedCuts[0]] == l.removed[..l.removedCuts[0]]
      && (forall a | a in r.nodes :: a in l.nodes && r.nodes[a].id == l.nodes[a].id && r.nodes[a].id < s.nextId)
    ensures Stored(CompressedLayout(l, s, c, nid), CompressImpl(s, c, nid))
    ensures Indexed(CompressedLayout(l, s, c, nid), CompressImpl(s, c, nid))
  {
    hide RemovedOk, BackupsOk, MarksOk, Named, Shows, CompressedNodes, KeptAddrs, KeptNodes, KeptBackups, Cuts,
      KeptOlds, FoldedTable, IndicesOk, MainSet, Names;
  }

  // ----- the steps put together

  lemma DisposeReady(l: Layout, s: State)
    requires Stored(l, s)
    ensures Named(l.nodes, l.at) && Distinct(l.olds) && (forall q :: q in l.olds <==> q in l.backups)
    ensures Distinct(l.removed) && forall a :: a in l.removed <==> a in l.nodes && l.nodes[a].removed
  {}

  lemma KeptNothing(b: Backups)
    ensures KeptBackups(b, []) == map[]
  {}

  lemma SquashFastIs(s: State)
    ensures s.stack == [] ==> SquashFast(s) == s
    ensures |s.stack| == 1 ==> SquashFast(s) == s.(stack := [], revision := s.revision - 1)
    ensures |s.stack| > 1 ==> SquashFast(s) == s.(stack := SquashFast(s).stack, revision := s.revision - 1)
  {}

  /** Dropping a backup from the list and freeing it. */
  lemma FilterDrop(m: Memory, b: Backups, list: seq<nat>, i: nat, c: nat, r: Memory, olds: seq<nat>)
    requires Distinct(list) && (forall q <- list :: q in b) && i < |list| && Filtering(m, b, list, i + 1, c, r, olds)
    ensures |olds| > i && olds[i] == list[i]
    ensures olds[i] in KeptBackups(b, olds) && KeptBackups(b, olds)[olds[i]] == b[list[i]]
    ensures KeptBackups(b, olds) - {olds[i]} == KeptBackups(b, olds[..i] + olds[i + 1..])
    ensures i > 0 ==> (olds[..i] + olds[i + 1..])[i - 1] == list[i - 1] && olds[i - 1] == list[i - 1]
  {
    hide KeptAddrs, GoneIds, FoldNodes, Entries;
    var kept := KeptAddrs(b, list[i + 1..], c, GoneIds(m));
    DistinctSlice(list, i + 1, |list|);
    KeptAddrsMembers(b, list[i + 1..], c, GoneIds(m));
    ReplaceTail(list, i + 1, kept);
    assert olds == list[..i + 1] + kept;
    assert list[i] in list;
    KeptBut(b, olds, i);
  }

  lemma KeptBut(b: Backups, list: seq<nat>, i: nat)
    requires Distinct(list) && i < |list|
    ensures KeptBackups(b, list) - {list[i]} == KeptBackups(b, list[..i] + list[i + 1..])
  {
    assert list == list[..i] + [list[i]] + list[i + 1..];
  }

  lemma FilterEnds(m: Memory, b: Backups, list: seq<nat>, from: nat, c: nat, r: Memory, olds: seq<nat>)
    requires from <= |list| && (forall q <- list :: q in b) && Filtering(m, b, list, from, c, r, olds)
    ensures olds == list[..from] + KeptAddrs(b, list[from..], c, GoneIds(m))
    ensures r == FoldNodes(m, Entries(b, list[from..]), c)
  {}

  lemma FreeEnds(m: Memory, list: seq<nat>, from: nat, nid: nat, r: Memory, removed: seq<nat>)
    requires from <= |list| && (forall a <- list :: a in m) && Freeing(m, list, from, nid, r, removed)
    ensures removed == list[..from] + KeptNodes(m, list[from..], nid)
    ensures r == DropRemoved(m, Elems(list[from..]), nid)
  {}

  lemma CompressBegins(l: Layout, s: State, c: nat, nid: nat)
    requires Ready(l, s, c, nid)
    ensures s.stack != [] && |l.oldCuts| == |s.stack| == |l.removedCuts| && |l.states| == |s.stack|
    ensures var n := |s.stack|;
      && l.oldCuts[n - 1] <= |l.olds| && l.removedCuts[n - 1] <= |l.removed|
      && l.states[n - 1].oldValuesEnd == MarkAt(l.olds, l.oldCuts[n - 1])
      && l.states[n - 1].removedValuesEnd == MarkAt(l.removed, l.removedCuts[n - 1])
      && Live(l.nodes, l.backups, l.olds[l.oldCuts[n - 1]..], c)
      && Entries(l.backups, l.olds[l.oldCuts[n - 1]..]) == Top(s).olds
    ensures Named(l.nodes, l.at) && Distinct(l.olds) && (forall q :: q in l.olds <==> q in l.backups)
    ensures Distinct(l.removed) && forall a <- l.removed :: a in l.nodes
  {
    hide Stored, Indexed, Sane, Named, Distinct, MarkAt, BackupsLive, Entries;
    ListParts(l, s);
  }

  /** Folding leaves the ids alone that the second filter looks at. */
  lemma FoldedNodes(l: Layout, s: State, c: nat, nid: nat, r: Memory, from: nat)
    requires s.stack != [] && Named(l.nodes, l.at) && r == FoldNodes(l.nodes, Top(s).olds, c) &&
      forall a <- l.removed :: a in l.nodes
    requires from <= |l.removed|
    ensures Named(r, l.at) && (forall a <- l.removed :: a in r)
    ensures (forall a <- l.removed[from..] :: a in r && a in l.nodes)
    ensures KeptNodes(r, l.removed[from..], nid) == KeptNodes(l.nodes, l.removed[from..], nid)
  {
    hide FoldNodes, Named;
    FoldShape(l.nodes, l.at, Top(s).olds, c);
    assert forall a <- l.removed[from..] :: a in l.removed;
    KeptNodesAlike(l.nodes, r, l.removed[from..], nid);
  }

  lemma {:induction false} KeptNodesAlike(m: Memory, r: Memory, list: seq<nat>, nid: nat)
    requires forall a <- list :: a in m && a in r && r[a].id == m[a].id
    ensures KeptNodes(r, list, nid) == KeptNodes(m, list, nid)
  {
    if list != [] {
      KeptNodesAlike(m, r, list[1..], nid);
    }
  }

  lemma CompressEnds(l: Layout, s: State, c: nat, nid: nat, r: Layout)
    requires Ready(l, s, c, nid) && s.stack != [] && |l.oldCuts| == |s.stack| == |l.removedCuts|
    requires l.oldCuts[|s.stack| - 1] <= |l.olds| && l.removedCuts[|s.stack| - 1] <= |l.removed|
    requires (forall q <- l.olds :: q in l.backups) && (forall a <- l.removed :: a in l.nodes)
    requires forall a <- l.removed[l.removedCuts[|s.stack| - 1]..] :: a in l.nodes
    requires r.nodes == DropRemoved(FoldNodes(l.nodes, Top(s).olds, c),
      Elems(l.removed[l.removedCuts[|s.stack| - 1]..]), nid)
    requires r.olds == l.olds[..l.oldCuts[|s.stack| - 1]] + KeptAddrs(l.backups, l.olds[l.oldCuts[|s.stack| - 1]..],
      c, GoneIds(l.nodes))
    requires r.removed == l.removed[..l.removedCuts[|s.stack| - 1]] + KeptNodes(l.nodes,
      l.removed[l.removedCuts[|s.stack| - 1]..], nid)
    requires r == l.(nodes := r.nodes, backups := KeptBackups(l.backups, r.olds), olds := r.olds,
      removed := r.removed, at := Names(l.at, r.nodes))
    ensures Stored(r, CompressImpl(s, c, nid)) && Indexed(r, CompressImpl(s, c, nid))
    ensures CompressImpl(s, c, nid) == s.(stack := CompressImpl(s, c, nid).stack)
  {
    hide Ready, Stored, Indexed, FoldNodes, DropRemoved, KeptAddrs, KeptNodes, KeptBackups, Names, KeptOlds,
      FoldedTable, Elems;
    CompressDone(l, s, c, nid);
    assert r == CompressedLayout(l, s, c, nid);
  }

  lemma ReadyLast(l: Layout, s: State)
    requires Stored(l, s) && Indexed(l, s) && Sturdy(s) && l.states != []
    ensures s.stack != [] && |l.states| == |s.stack|
    ensures l.states[|l.states| - 1].ctime == Top(s).ctime && l.states[|l.states| - 1].oldNextId == Top(s).oldNextId
    ensures Ready(l, s, Top(s).ctime, Top(s).oldNextId)
  {
    hide Named, Shows, RemovedOk, BackupsOk, IdsOk, Cuts, IndicesOk, BackupsLive, Growing, Single, BackupsOlder,
      StampsDatable, Sturdy;
    SturdyParts(s);
    SturdySane(s);
  }

  lemma ReadySquash(l: Layout, s: State)
    requires Stored(l, s) && Indexed(l, s) && Sturdy(s) && |l.states| > 1
    ensures |l.states| == |s.stack|
    ensures l.states[|l.states| - 2].ctime == Top(Pop(s)).ctime
    ensures l.states[|l.states| - 2].oldNextId == Top(Pop(s)).oldNextId
    ensures Ready(l, s, Top(Pop(s)).ctime, Top(Pop(s)).oldNextId)
    ensures Sane(CompressImpl(s, Top(Pop(s)).ctime, Top(Pop(s)).oldNextId))
  {
    hide Named, Shows, RemovedOk, BackupsOk, IdsOk, Cuts, IndicesOk, BackupsLive, Growing, Single, BackupsOlder,
      StampsDatable, CompressImpl, Sturdy;
    SturdyParts(s);
    SturdySane(s);
    CompressedSane(s, Top(Pop(s)).ctime, Top(Pop(s)).oldNextId);
  }

  lemma CompressedSane(s: State, c: nat, nid: nat)
    requires Sane(s) && s.stack != []
    ensures Sane(CompressImpl(s, c, nid))
  {
    var r := CompressImpl(s, c, nid);
    forall e | e in Top(r).olds ensures e in Top(s).olds {
      KeptMember(Top(s).olds, c, Top(s).removed.Keys, e);
    }
    forall i | 0 <= i < |s.stack| - 1 ensures r.stack[i] == s.stack[i] {}
  }

  // ----- the change since the top session started

  /** The three ranges are exactly the difference between the tables `was` and `now`. */
  ghost predicate Delta(l: Layout, was: Table, now: Table, added: seq<nat>, olds: seq<nat>, gone: seq<nat>) {
    && (forall a :: a in added <==> a in MainSet(l.nodes) && l.nodes[a].id !in was)
    && (forall q <- olds :: q in l.backups) && BacksUp(Entries(l.backups, olds), now, was)
    && Shows(l.nodes, l.at, Elems(gone), was - now.Keys)
  }

  /** The elements of a list from its head to a mark. */
  function Newer(list: seq<nat>, mark: Option<nat>): seq<nat>
    requires mark.Some? ==> mark.value in list
  {
    if mark.None? then list else list[Position(list, mark.value) + 1..]
  }

  lemma NewerThanMark(list: seq<nat>, i: nat)
    requires Distinct(list) && i <= |list|
    ensures MarkAt(list, i).Some? ==> MarkAt(list, i).value in list
    ensures Newer(list, MarkAt(list, i)) == list[i..]
  {}

  lemma DeltaMarks(l: Layout, s: State)
    requires Stored(l, s) && Indexed(l, s) && l.states != []
    ensures |l.states| == |s.stack| == |l.oldCuts| == |l.removedCuts| && l.indices != []
    ensures var n, info := |s.stack|, l.states[|l.states| - 1];
      && info.oldNextId == Top(s).oldNextId
      && (info.oldValuesEnd.Some? ==> info.oldValuesEnd.value in l.olds)
      && (info.removedValuesEnd.Some? ==> info.removedValuesEnd.value in l.removed)
      && l.oldCuts[n - 1] <= |l.olds| && Newer(l.olds, info.oldValuesEnd) == l.olds[l.oldCuts[n - 1]..]
      && l.removedCuts[n - 1] <= |l.removed| &&
        Newer(l.removed, info.removedValuesEnd) == l.removed[l.removedCuts[n - 1]..]
  {
    hide Shows, Named, IdsOk, Live, Entries, IndicesOk, Newer, MarkAt, Distinct;
    ListParts(l, s);
    NewerThanMark(l.olds, l.oldCuts[|s.stack| - 1]);
    NewerThanMark(l.removed, l.removedCuts[|s.stack| - 1]);
  }

  lemma DeltaShown(l: Layout, s: State, was: Table, added: seq<nat>, olds: seq<nat>, gone: seq<nat>)
    requires Stored(l, s) && Indexed(l, s) && s.stack != [] && l.indices != []
    requires |l.oldCuts| == |s.stack| == |l.removedCuts|
    requires l.oldCuts[|s.stack| - 1] <= |l.olds| && olds == l.olds[l.oldCuts[|s.stack| - 1]..]
    requires l.removedCuts[|s.stack| - 1] <= |l.removed| && gone == l.removed[l.removedCuts[|s.stack| - 1]..]
    requires added == l.indices[0][LowerBound(l.nodes, 0, l.indices[0], Top(s).oldNextId)..]
    requires forall id | id in s.main :: Top(s).oldNextId <= id <==> id !in was
    requires Top(s).removed == was - s.main.Keys && BacksUp(Top(s).olds, s.main, was)
    ensures Delta(l, was, s.main, added, olds, gone)
  {
    hide RemovedOk, BackupsOk, MarksOk, IdsOk, Named, BacksUp, Cuts, MainSet, Shows, Holds, Sorted, Distinct, Entries;
    ListParts(l, s);
    TopShown(l, s);
    AddedIds(l.nodes, l.at, l.indices[0], s.main, Top(s).oldNextId, was);
  }

  lemma AddedIds(m: Memory, at: map<nat, nat>, idx: seq<nat>, now: Table, nid: nat, was: Table)
    requires Holds(idx, MainSet(m)) && Sorted(m, 0, idx) && Shows(m, at, MainSet(m), now)
    requires forall id | id in now :: nid <= id <==> id !in was
    ensures forall a :: a in idx[LowerBound(m, 0, idx, nid)..] <==> a in MainSet(m) && m[a].id !in was
  {
    hide Sorted, Distinct, LowerBound;
    FromBound(m, idx, nid);
    forall a | a in MainSet(m) ensures nid <= KeyAt(m, 0, a) <==> m[a].id !in was {
      assert m[a].id in now;
    }
  }

  lemma FromBound(m: Memory, idx: seq<nat>, x: nat)
    requires Sorted(m, 0, idx)
    ensures forall a :: a in idx[LowerBound(m, 0, idx, x)..] <==> a in idx && x <= KeyAt(m, 0, a)
  {
    hide KeyAt, LowerBound;
    var first := LowerBound(m, 0, idx, x);
    NewIdsFrom(m, idx, first, x);
    assert idx == idx[..first] + idx[first..];
    hide Sorted;
    assert forall a <- idx[..first] :: KeyAt(m, 0, a) < x;
    assert forall a <- idx[first..] :: x <= KeyAt(m, 0, a);
  }

  lemma CompressLastStack(s: State)
    requires s.stack != []
    ensures CompressLast(s).stack != []
  {}
}
