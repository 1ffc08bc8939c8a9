/** What a partial commit does to the memory and the lists. */
module CommitMemory {
  import opened Basics
  import opened Tables
  import opened UndoModel
  import opened UndoInvariant
  import opened UndoLeaks
  import opened OrderedIndex
  import opened UndoLayout
  import opened UndoMemory
  import opened SquashMemory
  import opened UndoBackups

  /** A commit keeps the element just below the lowest cut that is left: a mark points to it. */
  function Floor(c: nat): nat {
    if c == 0 then 0 else c - 1
  }

  /** The cuts of the sessions from `i` on, in a list that has lost its first `f` elements. */
  function Shifted(cuts: seq<nat>, i: nat, f: nat): seq<nat>
    requires i <= |cuts| && forall j | i <= j < |cuts| :: f <= cuts[j]
  {
    seq(|cuts| - i, x requires 0 <= x < |cuts| - i => cuts[i + x] - f)
  }

  lemma ShiftedCuts(list: seq<nat>, cuts: seq<nat>, n: nat, i: nat)
    requires Cuts(cuts, |list|, n) && i < n
    ensures |cuts| == n && cuts[i] <= |list| && (forall j | i <= j < |cuts| :: Floor(cuts[i]) <= cuts[j])
    ensures var f, r := Floor(cuts[i]), list[Floor(cuts[i])..];
      var c := Shifted(cuts, i, f);
      && Cuts(c, |r|, n - i)
      && (forall x | 0 <= x < n - i ::
            Seg(r, c, x) == Seg(list, cuts, i + x) && MarkAt(r, c[x]) == MarkAt(list, cuts[i + x]))
  {
    ShiftedInOrder(cuts, |list|, n, i);
    var f := Floor(cuts[i]);
    var r, c := list[f..], Shifted(cuts, i, f);
    forall x | 0 <= x < n - i ensures
      && c[x] <= End(c, |r|, x) <= |r|
      && Seg(r, c, x) == Seg(list, cuts, i + x) && MarkAt(r, c[x]) == MarkAt(list, cuts[i + x])
    {
      ShiftedAt(list, cuts, n, i, x);
    }
  }

  lemma ShiftedInOrder(cuts: seq<nat>, len: nat, n: nat, i: nat)
    requires Cuts(cuts, len, n) && i < n
    ensures |cuts| == n && cuts[i] <= len && (forall j | i <= j < n :: cuts[i] <= cuts[j] && Floor(cuts[i]) <= cuts[j])
    ensures Cuts(Shifted(cuts, i, Floor(cuts[i])), len - Floor(cuts[i]), n - i)
  {
    forall j | i <= j < n ensures cuts[i] <= cuts[j] {}
  }

  lemma ShiftedAt(list: seq<nat>, cuts: seq<nat>, n: nat, i: nat, x: nat)
    requires Cuts(cuts, |list|, n) && i + x < n && (forall j | i <= j < n :: cuts[i] <= cuts[j])
    ensures |cuts| == n && cuts[i] <= |list| && (forall j | i <= j < |cuts| :: Floor(cuts[i]) <= cuts[j])
    ensures cuts[i + x] <= End(cuts, |list|, i + x) <= |list|
    ensures var f, r := Floor(cuts[i]), list[Floor(cuts[i])..];
      var c := Shifted(cuts, i, f);
      && c[x] <= End(c, |r|, x) <= |r|
      && Seg(r, c, x) == Seg(list, cuts, i + x) && MarkAt(r, c[x]) == MarkAt(list, cuts[i + x])
  {
    hide Cuts, MarkAt, Shifted, End, Floor;
    ShiftedEnd(cuts, |list|, n, i, x);
    ShiftedSeg(list, Floor(cuts[i]), cuts[i + x], End(cuts, |list|, i + x));
  }

  lemma ShiftedEnd(cuts: seq<nat>, len: nat, n: nat, i: nat, x: nat)
    requires Cuts(cuts, len, n) && i + x < n && (forall j | i <= j < n :: cuts[i] <= cuts[j])
    ensures |cuts| == n && (forall j | i <= j < |cuts| :: Floor(cuts[i]) <= cuts[j])
    ensures Floor(cuts[i]) <= cuts[i] <= len && cuts[i + x] <= End(cuts, len, i + x) <= len
    ensures cuts[i + x] > 0 ==> Floor(cuts[i]) < cuts[i + x]
    ensures var f := Floor(cuts[i]);
      var c := Shifted(cuts, i, f);
      |c| == n - i && c[x] == cuts[i + x] - f && End(c, len - f, x) == End(cuts, len, i + x) - f
  {
    CutsAt(cuts, len, n, i + x);
    CutsAt(cuts, len, n, i);
  }

  lemma ShiftedSeg(list: seq<nat>, f: nat, x: nat, y: nat)
    requires f <= x <= y <= |list| && (x > 0 ==> f < x)
    ensures list[f..][x - f..y - f] == list[x..y] && MarkAt(list[f..], x - f) == MarkAt(list, x)
  {
    if x > 0 {
      assert list[f..][x - f - 1] == list[x - 1];
    }
  }

  // ----- the memory

  /** The removed nodes `gone` are freed. */
  function Without(m: Memory, gone: set<nat>): Memory {
    map a | a in m && a !in gone :: m[a]
  }

  /** No session that is kept needs a node that is freed. */
  lemma NotFreed(l: Layout, s: State, i: nat, j: nat, e: Entry)
    requires Stored(l, s) && Reached(s) && i <= j < |s.stack| && e in s.stack[j].olds && e.row.mtime < s.stack[j].ctime
    ensures |l.removedCuts| == |s.stack| && l.removedCuts[i] <= |l.removed|
    ensures e.id in l.at && l.at[e.id] in l.nodes && l.at[e.id] !in l.removed[..l.removedCuts[i]]
  {
    hide BackupsOk, MarksOk, IdsOk;
    assert forall a <- l.removed[..l.removedCuts[i]] :: a in l.removed;
    if e.id in s.main {
      assert l.at[e.id] in MainSet(l.nodes);
    } else {
      var k :| j <= k < |s.stack| && e.id in s.stack[k].removed;
      assert l.at[e.id] in Elems(Seg(l.removed, l.removedCuts, k));
      SegAbove(l.removed, l.removedCuts, |s.stack|, i, k, l.at[e.id]);
    }
  }

  lemma SegAbove(list: seq<nat>, cuts: seq<nat>, n: nat, i: nat, k: nat, a: nat)
    requires Cuts(cuts, |list|, n) && Distinct(list) && i <= k < n && a in Seg(list, cuts, k)
    ensures a !in list[..cuts[i]] && a in list
  {
    var x :| 0 <= x < |Seg(list, cuts, k)| && Seg(list, cuts, k)[x] == a;
    assert list[cuts[k] + x] == a && cuts[i] <= cuts[k];
  }

  lemma CommittedBackups(l: Layout, s: State, i: nat)
    requires Stored(l, s) && Reached(s) && i < |s.stack|
    ensures Cuts(l.oldCuts, |l.olds|, |s.stack|) && Cuts(l.removedCuts, |l.removed|, |s.stack|)
    ensures forall j | i <= j < |l.oldCuts| :: Floor(l.oldCuts[i]) <= l.oldCuts[j]
    ensures var f := Floor(l.oldCuts[i]);
      var m := Without(l.nodes, Elems(l.removed[..Floor(l.removedCuts[i])]));
      BackupsOk(m, KeptBackups(l.backups, l.olds[f..]), l.olds[f..], Shifted(l.oldCuts, i, f), s.stack[i..])
  {
    hide MarksOk, IdsOk, RemovedOk, Named, Shows, Cuts, Live, Entries, Seg, Reached, Distinct, MarkAt, Without, Elems;
    CutsAt(l.oldCuts, |l.olds|, |s.stack|, i);
    CutsAt(l.removedCuts, |l.removed|, |s.stack|, i);
    var n, f := |s.stack|, Floor(l.oldCuts[i]);
    ShiftedCuts(l.olds, l.oldCuts, n, i);
    var olds, cuts := l.olds[f..], Shifted(l.oldCuts, i, f);
    var m, b := Without(l.nodes, Elems(l.removed[..Floor(l.removedCuts[i])])), KeptBackups(l.backups, olds);
    assert Distinct(olds) && forall q :: q in olds <==> q in b by {
      SuffixMembers(l.backups, l.olds, f);
    }
    forall x | 0 <= x < n - i
      ensures (forall q <- Seg(olds, cuts, x) :: q in b)
      ensures Entries(b, Seg(olds, cuts, x)) == s.stack[i + x].olds
      ensures Live(m, b, Seg(olds, cuts, x), s.stack[i + x].ctime)
    {
      SegMembers(olds, cuts, n - i, x);
      CommittedSegment(l, s, i, i + x, b);
    }
  }

  lemma SuffixMembers(b: Backups, list: seq<nat>, f: nat)
    requires Distinct(list) && (forall q :: q in list <==> q in b) && f <= |list|
    ensures Distinct(list[f..]) && forall q :: q in list[f..] <==> q in KeptBackups(b, list[f..])
  {
    DistinctSlice(list, f, |list|);
    assert forall q <- list[f..] :: q in list;
  }

  lemma CommittedSegment(l: Layout, s: State, i: nat, j: nat, b: Backups)
    requires Stored(l, s) && Reached(s) && i <= j < |s.stack|
    requires Cuts(l.oldCuts, |l.olds|, |s.stack|) && forall q <- Seg(l.olds, l.oldCuts, j) ::
      q in b && q in l.backups && b[q] == l.backups[q]
    ensures Cuts(l.removedCuts, |l.removed|, |s.stack|)
    ensures var m := Without(l.nodes, Elems(l.removed[..Floor(l.removedCuts[i])]));
      Entries(b, Seg(l.olds, l.oldCuts, j)) == s.stack[j].olds &&
        Live(m, b, Seg(l.olds, l.oldCuts, j), s.stack[j].ctime)
  {
    hide MarksOk, IdsOk, RemovedOk, Shows, Reached;
    CutsAt(l.oldCuts, |l.olds|, |s.stack|, j);
    CutsAt(l.removedCuts, |l.removed|, |s.stack|, i);
    var seg := Seg(l.olds, l.oldCuts, j);
    var m := Without(l.nodes, Elems(l.removed[..Floor(l.removedCuts[i])]));
    forall q <- seg | b[q].mtime < s.stack[j].ctime ensures b[q].current in m && m[b[q].current].id == b[q].id {
      EntryAt(l.backups, seg, q);
      NotFreed(l, s, i, j, EntryOf(l.backups[q]));
      ShorterPrefix(l.removed, Floor(l.removedCuts[i]), l.removedCuts[i]);
    }
  }

  lemma ShorterPrefix(list: seq<nat>, x: nat, y: nat)
    requires x <= y <= |list|
    ensures forall a <- list[..x] :: a in list[..y]
  {
    assert list[..x] == list[..y][..x];
  }

  lemma WithoutShape(m: Memory, at: map<nat, nat>, gone: set<nat>)
    requires Named(m, at) && forall a | a in gone :: a in m && m[a].removed
    ensures var r := Without(m, gone);
      && Named(r, Names(at, r)) && MainSet(r) == MainSet(m)
      && (forall a :: a in r <==> a in m && a !in gone) && (forall a | a in r :: r[a] == m[a])
  {
    DropNamed(m, at, Without(m, gone));
    assert MainSet(Without(m, gone)) == MainSet(m);
  }

  lemma PrefixRemoved(l: Layout, s: State, f: nat)
    requires Stored(l, s) && f <= |l.removed|
    ensures forall a | a in Elems(l.removed[..f]) :: a in l.nodes && l.nodes[a].removed
    ensures Distinct(l.removed) && (forall a :: a in l.removed <==> a in l.nodes && l.nodes[a].removed)
    ensures Named(l.nodes, l.at)
  {
    hide Shows, BackupsOk, MarksOk, IdsOk;
    assert forall a <- l.removed[..f] :: a in l.removed;
  }

  lemma CommittedRemoved(l: Layout, s: State, i: nat)
    requires Stored(l, s) && i < |s.stack|
    ensures Cuts(l.removedCuts, |l.removed|, |s.stack|) && forall j | i <= j < |l.removedCuts| ::
      Floor(l.removedCuts[i]) <= l.removedCuts[j]
    ensures var f := Floor(l.removedCuts[i]);
      var m := Without(l.nodes, Elems(l.removed[..f]));
      RemovedOk(m, Names(l.at, m), l.removed[f..], Shifted(l.removedCuts, i, f), s.stack[i..])
  {
    hide Stored, Shows, Cuts, Seg, Distinct, Named;
    StoredParts(l, s);
    CutsAt(l.removedCuts, |l.removed|, |s.stack|, i);
    var n, f := |s.stack|, Floor(l.removedCuts[i]);
    ShiftedCuts(l.removed, l.removedCuts, n, i);
    var removed, cuts := l.removed[f..], Shifted(l.removedCuts, i, f);
    var m := Without(l.nodes, Elems(l.removed[..f]));
    PrefixRemoved(l, s, f);
    WithoutShape(l.nodes, l.at, Elems(l.removed[..f]));
    SuffixRemoved(l.nodes, l.removed, f);
    forall x | 0 <= x < n - i ensures Shows(m, Names(l.at, m), Elems(Seg(removed, cuts, x)), s.stack[i + x].removed) {
      CommittedShows(l, s, i, i + x);
    }
  }

  lemma SuffixRemoved(m: Memory, list: seq<nat>, f: nat)
    requires Distinct(list) && (forall a :: a in list <==> a in m && m[a].removed) && f <= |list|
    ensures Distinct(list[f..]) && var r := Without(m, Elems(list[..f])); forall a ::
      a in list[f..] <==> a in r && r[a].removed
  {
    DistinctSlice(list, f, |list|);
    ReplaceTail(list, f, []);
    assert forall a <- list[f..] :: a in list;
  }

  lemma CommittedShows(l: Layout, s: State, i: nat, j: nat)
    requires Stored(l, s) && i <= j < |s.stack|
    ensures Cuts(l.removedCuts, |l.removed|, |s.stack|)
    ensures var m := Without(l.nodes, Elems(l.removed[..Floor(l.removedCuts[i])]));
      Shows(m, Names(l.at, m), Elems(Seg(l.removed, l.removedCuts, j)), s.stack[j].removed)
  {
    hide BackupsOk, MarksOk, IdsOk;
    CutsAt(l.removedCuts, |l.removed|, |s.stack|, i);
    var m := Without(l.nodes, Elems(l.removed[..Floor(l.removedCuts[i])]));
    forall a | a in Elems(Seg(l.removed, l.removedCuts, j)) ensures a in m && m[a] == l.nodes[a] {
      SegAbove(l.removed, l.removedCuts, |s.stack|, i, j, a);
      ShorterPrefix(l.removed, Floor(l.removedCuts[i]), l.removedCuts[i]);
    }
    ShowsAlike(l.nodes, l.at, m, Names(l.at, m), Elems(Seg(l.removed, l.removedCuts, j)), s.stack[j].removed);
  }

  /** An element below a cut was removed before that session started. */
  lemma BelowCut(l: Layout, s: State, i: nat, j: nat)
    requires Stored(l, s) && Sane(s) && i < |s.stack| && j < l.removedCuts[i]
    ensures j < |l.removed| && l.removed[j] in l.nodes && l.nodes[l.removed[j]].id < s.stack[i].oldNextId
  {
    hide BackupsOk, MarksOk, Named, UsableOld, MainSet;
    var n := |s.stack|;
    CutsAt(l.removedCuts, |l.removed|, n, i);
    var a := l.removed[j];
    assert a in l.removed;
    if j < l.removedCuts[0] {
      assert a in l.removed[..l.removedCuts[0]];
    } else {
      var k := SegmentOf(l.removedCuts[..i + 1], i + 1, j);
      var seg := Seg(l.removed, l.removedCuts, k);
      assert seg[j - l.removedCuts[k]] == a;
      assert a in Elems(seg);
      assert l.nodes[a].id in s.stack[k].removed;
    }
  }

  ghost predicate Committable(l: Layout, i: nat) {
    && i < |l.states| == |l.oldCuts| == |l.removedCuts|
    && l.oldCuts[i] <= |l.olds| && l.removedCuts[i] <= |l.removed|
    && (forall j | i <= j < |l.oldCuts| :: Floor(l.oldCuts[i]) <= l.oldCuts[j])
    && (forall j | i <= j < |l.removedCuts| :: Floor(l.removedCuts[i]) <= l.removedCuts[j])
  }

  /** The layout after a commit that keeps the sessions from `i` on. */
  ghost function CommittedLayout(l: Layout, i: nat): Layout
    requires Committable(l, i)
  {
    var f, g := Floor(l.oldCuts[i]), Floor(l.removedCuts[i]);
    var m := Without(l.nodes, Elems(l.removed[..g]));
    Layout(m, KeptBackups(l.backups, l.olds[f..]), l.indices, l.states[i..], l.olds[f..], l.removed[g..],
      Names(l.at, m), Shifted(l.oldCuts, i, f), Shifted(l.removedCuts, i, g))
  }

  /** What a partial commit may rely on. */
  lemma CommitParts(l: Layout, s: State, i: nat)
    requires Stored(l, s) && i < |s.stack|
    ensures |l.states| == |s.stack| && Committable(l, i)
    ensures l.states[i].oldValuesEnd == MarkAt(l.olds, l.oldCuts[i])
    ensures l.states[i].removedValuesEnd == MarkAt(l.removed, l.removedCuts[i])
    ensures Distinct(l.olds) && forall q :: q in l.olds <==> q in l.backups
    ensures Distinct(l.removed) && forall a :: a in l.removed <==> a in l.nodes && l.nodes[a].removed
    ensures Named(l.nodes, l.at)
  {
    hide Shows, IdsOk, Live, Entries, Named;
    ShiftedInOrder(l.oldCuts, |l.olds|, |s.stack|, i);
    ShiftedInOrder(l.removedCuts, |l.removed|, |s.stack|, i);
  }

  lemma CommittedMarks(l: Layout, s: State, i: nat)
    requires Stored(l, s) && i < |s.stack|
    requires |l.states| == |s.stack| && Committable(l, i)
    ensures var r := CommittedLayout(l, i);
      && Cuts(r.oldCuts, |r.olds|, |s.stack| - i) && Cuts(r.removedCuts, |r.removed|, |s.stack| - i)
      && MarksOk(r.states, r.olds, r.oldCuts, r.removed, r.removedCuts, s.stack[i..])
  {
    hide Shows, IdsOk, Named, RemovedOk, BackupsOk, Cuts, Seg, MarkAt;
    ShiftedCuts(l.olds, l.oldCuts, |s.stack|, i);
    ShiftedCuts(l.removed, l.removedCuts, |s.stack|, i);
  }

  lemma CommittedIds(l: Layout, s: State, i: nat)
    requires Stored(l, s) && Sane(s) && i < |s.stack|
    requires |l.states| == |s.stack| && Committable(l, i)
    requires Cuts(Shifted(l.removedCuts, i, Floor(l.removedCuts[i])), |l.removed| - Floor(l.removedCuts[i]),
      |s.stack| - i)
    ensures var r := CommittedLayout(l, i); IdsOk(r.nodes, r.removed, r.removedCuts, s.(stack := s.stack[i..]))
  {
    hide Shows, Named, BackupsOk, RemovedOk, MarksOk, Sane, Elems;
    var r, g := CommittedLayout(l, i), Floor(l.removedCuts[i]);
    forall a <- r.removed[..r.removedCuts[0]] | a in r.nodes ensures r.nodes[a].id < s.stack[i].oldNextId {
      assert r.removedCuts[0] == l.removedCuts[i] - g;
      assert a == l.removed[g];
      BelowCut(l, s, i, g);
    }
  }

  /** All of a partial commit. */
  lemma CommitDone(l: Layout, s: State, i: nat)
    requires Stored(l, s) && Indexed(l, s) && Sturdy(s) && i < |s.stack|
    ensures |l.states| == |s.stack| && Committable(l, i)
    ensures Stored(CommittedLayout(l, i), Keep(s, |s.stack| - i))
    ensures Indexed(CommittedLayout(l, i), Keep(s, |s.stack| - i))
  {
    hide Stored, Sane, Reached, Sturdy, Named, Distinct, Shows, BackupsOk, RemovedOk, MarksOk, IdsOk, Cuts, IndicesOk,
      MainSet, Without, Names, KeptBackups, Elems, MarkAt;
    CommitParts(l, s, i);
    SturdySane(s);
    SturdyReached(s);
    CommittedBackups(l, s, i);
    CommittedRemoved(l, s, i);
    CommittedMarks(l, s, i);
    CommittedIds(l, s, i);
    CommittedMain(l, s, i);
    CommittedStored(l, s, i);
  }

  lemma CommittedMain(l: Layout, s: State, i: nat)
    requires Stored(l, s) && Indexed(l, s) && i < |s.stack| && i < |l.removedCuts| && l.removedCuts[i] <= |l.removed|
    ensures var m := Without(l.nodes, Elems(l.removed[..Floor(l.removedCuts[i])]));
      && Named(m, Names(l.at, m)) && Shows(m, Names(l.at, m), MainSet(m), s.main)
      && IndicesOk(m, l.indices, MainSet(m)) && |l.indices| == s.width + 1
  {
    hide Stored, Indexed, Named, Shows, IndicesOk, MainSet, Without;
    PrefixRemoved(l, s, Floor(l.removedCuts[i]));
    WithoutShape(l.nodes, l.at, Elems(l.removed[..Floor(l.removedCuts[i])]));
    WithoutMembers(l.nodes, Elems(l.removed[..Floor(l.removedCuts[i])]));
    CompressedMain(l, s, Without(l.nodes, Elems(l.removed[..Floor(l.removedCuts[i])])));
  }

  lemma WithoutMembers(m: Memory, gone: set<nat>)
    requires forall a | a in gone :: a in m && m[a].removed
    ensures forall a | a in m && !m[a].removed :: a in Without(m, gone)
    ensures forall a | a in Without(m, gone) :: a in m && Without(m, gone)[a] == m[a]
  {}

  lemma CommittedStored(l: Layout, s: State, i: nat)
    requires i < |s.stack| && |l.states| == |s.stack| && Committable(l, i)
    requires var r, stack := CommittedLayout(l, i), s.stack[i..];
      && Named(r.nodes, r.at) && Shows(r.nodes, r.at, MainSet(r.nodes), s.main)
      && IndicesOk(r.nodes, r.indices, MainSet(r.nodes)) && |r.indices| == s.width + 1
      && Cuts(r.oldCuts, |r.olds|, |stack|) && Cuts(r.removedCuts, |r.removed|, |stack|)
      && RemovedOk(r.nodes, r.at, r.removed, r.removedCuts, stack)
      && BackupsOk(r.nodes, r.backups, r.olds, r.oldCuts, stack)
      && MarksOk(r.states, r.olds, r.oldCuts, r.removed, r.removedCuts, stack)
      && IdsOk(r.nodes, r.removed, r.removedCuts, s.(stack := stack))
    ensures Stored(CommittedLayout(l, i), Keep(s, |s.stack| - i))
    ensures Indexed(CommittedLayout(l, i), Keep(s, |s.stack| - i))
  {
    hide Named, Shows, BackupsOk, RemovedOk, MarksOk, IdsOk, Cuts, IndicesOk, MainSet, CommittedLayout;
    assert s.stack[|s.stack| - (|s.stack| - i)..] == s.stack[i..];
  }

  // ----- the loops of a partial commit

  /** Freeing what lies behind the mark, from the mark on: `pos` elements are left there. */
  ghost predicate Behind(list: seq<nat>, i: nat, pos: nat, r: seq<nat>)
    requires 0 < i <= |list|
  {
    pos < i && r == list[..pos] + list[i - 1..]
  }

  lemma BehindBegins(list: seq<nat>, i: nat, pos: nat)
    requires 0 < i <= |list| && Distinct(list) && pos < |list| && list[pos] == list[i - 1]
    ensures pos == i - 1 && Behind(list, i, pos, list)
  {}

  lemma BehindStep(list: seq<nat>, i: nat, pos: nat, r: seq<nat>)
    requires 0 < i <= |list| && Distinct(list) && pos > 0 && Behind(list, i, pos, r)
    ensures pos <= |r| - 1 && r[pos - 1] == list[pos - 1] && Distinct(r)
    ensures Behind(list, i, pos - 1, r[..pos - 1] + r[pos..])
  {
    assert r[..pos - 1] == list[..pos - 1] && r[pos..] == list[i - 1..];
  }

  lemma BehindEnds(list: seq<nat>, i: nat, r: seq<nat>)
    requires 0 < i <= |list| && Behind(list, i, 0, r)
    ensures r == list[i - 1..]
  {}

  lemma KeptAll(b: Backups, list: seq<nat>)
    requires forall q :: q in list <==> q in b
    ensures KeptBackups(b, list) == b
  {}

  lemma WithoutBegins(m: Memory, at: map<nat, nat>, list: seq<nat>, i: nat)
    requires 0 < i <= |list| && Named(m, at)
    ensures Without(m, Elems(list[i - 1..i - 1])) == m && Names(at, m) == at
  {}

  lemma WithoutStep(m: Memory, names: map<nat, nat>, list: seq<nat>, i: nat, pos: nat, r: Memory)
    requires 0 < pos < i <= |list| && Distinct(list) && (forall a <- list :: a in m)
    requires r == Without(m, Elems(list[pos..i - 1])) && Named(r, Names(names, r))
    ensures var p := list[pos - 1];
      && p in r && r - {p} == Without(m, Elems(list[pos - 1..i - 1]))
      && Names(names, r - {p}) == Names(names, r) - {r[p].id} && Named(r - {p}, Names(names, r - {p}))
  {
    var p := list[pos - 1];
    assert list[pos - 1..i - 1] == [p] + list[pos..i - 1];
    assert p !in list[pos..i - 1];
  }

  lemma SetRevisionStored(l: Layout, s: State, r: nat)
    requires Stored(l, s) && Indexed(l, s)
    ensures Stored(l, SetRevision(s, r)) && Indexed(l, SetRevision(s, r))
  {}

  lemma MarkIs(list: seq<nat>, i: nat)
    requires i <= |list|
    ensures MarkAt(list, i).Some? <==> i > 0
    ensures i > 0 ==> MarkAt(list, i).value == list[i - 1]
  {}

  lemma NothingBehind(l: Layout)
    requires Named(l.nodes, l.at) && forall q :: q in l.olds <==> q in l.backups
    ensures KeptBackups(l.backups, l.olds[0..]) == l.backups && l.olds[0..] == l.olds
    ensures Without(l.nodes, Elems(l.removed[..0])) == l.nodes && l.removed[0..] == l.removed
    ensures Names(l.at, l.nodes) == l.at
  {}
}
