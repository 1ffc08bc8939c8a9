/** The node memory of a table, and one ordered index over it.
  *
  * An index is the sequence of its nodes' addresses; the balanced tree that keeps the sequence in
  * order is not part of this model. */
module OrderedIndex {
  import opened Basics
  import opened Tables

  datatype Node = Node(id: nat, value: Value, mtime: nat, removed: bool)

  /** The nodes allocated so far and not yet freed, by address. */
  type Memory = map<nat, Node>

  /** Index 0 is ordered by id, index `k` by secondary key `k - 1`. */
  function KeyAt(m: Memory, k: nat, a: nat): int {
    if a !in m then 0 else if k == 0 then m[a].id else Key(m[a].value, k - 1)
  }

  /** The index holds exactly the nodes `live`, each once. */
  ghost predicate Holds(idx: seq<nat>, live: set<nat>) {
    Distinct(idx) && forall a :: a in idx <==> a in live
  }

  ghost predicate Sorted(m: Memory, k: nat, idx: seq<nat>) {
    forall i, j | 0 <= i < j < |idx| :: KeyAt(m, k, idx[i]) <= KeyAt(m, k, idx[j])
  }

  ghost predicate Strict(m: Memory, k: nat, idx: seq<nat>) {
    forall i, j | 0 <= i < j < |idx| :: KeyAt(m, k, idx[i]) < KeyAt(m, k, idx[j])
  }

  /** Sorted once the node `p` is disregarded. */
  ghost predicate SortedBut(m: Memory, k: nat, idx: seq<nat>, p: nat) {
    forall i, j | 0 <= i < j < |idx| && idx[i] != p && idx[j] != p :: KeyAt(m, k, idx[i]) <= KeyAt(m, k, idx[j])
  }

  ghost predicate StrictBut(m: Memory, k: nat, idx: seq<nat>, p: nat) {
    forall i, j | 0 <= i < j < |idx| && idx[i] != p && idx[j] != p :: KeyAt(m, k, idx[i]) < KeyAt(m, k, idx[j])
  }

  /** No other node in `live` has the key of `p`. */
  ghost predicate NoTwin(m: Memory, k: nat, live: set<nat>, p: nat) {
    forall a | a in live && a != p :: KeyAt(m, k, a) != KeyAt(m, k, p)
  }

  /** The key of `p` is free in the indices from `n` on, of `count`. */
  ghost predicate KeysFree(m: Memory, n: nat, count: nat, live: set<nat>, p: nat) {
    forall k | n <= k < count :: NoTwin(m, k, live, p)
  }

  lemma KeysFreeStep(m: Memory, n: nat, count: nat, live: set<nat>, p: nat)
    ensures n >= count ==> KeysFree(m, n, count, live, p)
    ensures n < count ==>
      (KeysFree(m, n, count, live, p) <==> NoTwin(m, n, live, p) && KeysFree(m, n + 1, count, live, p))
  {}

  /** In ascending order of the ids, or of the keys themselves. */
  ghost predicate Ascending(m: Memory, k: nat, idx: seq<nat>) {
    forall i, j | 0 <= i < j < |idx| && idx[i] in m && idx[j] in m ::
      var a, b := m[idx[i]], m[idx[j]];
      if k == 0 then a.id <= b.id
      else k <= |a.value.keys| && k <= |b.value.keys| ==> a.value.keys[k - 1] <= b.value.keys[k - 1]
  }

  /** That is what the order of an index means, for nodes that have the key. */
  lemma SortedAscending(m: Memory, k: nat, idx: seq<nat>)
    ensures Sorted(m, k, idx) ==> Ascending(m, k, idx)
    ensures (forall a <- idx :: a in m && k <= |m[a].value.keys|) ==> (Ascending(m, k, idx) <==> Sorted(m, k, idx))
  {}

  // ----- the operations of the tree

  /** The number of leading nodes with a key below `x`. */
  function LowerBound(m: Memory, k: nat, idx: seq<nat>, x: int): (i: nat)
    ensures i <= |idx|
    ensures forall j | 0 <= j < i :: KeyAt(m, k, idx[j]) < x
    ensures i < |idx| ==> x <= KeyAt(m, k, idx[i])
  {
    if idx == [] || x <= KeyAt(m, k, idx[0]) then 0 else 1 + LowerBound(m, k, idx[1..], x)
  }

  /** `iterator_to` */
  function Position(idx: seq<nat>, p: nat): (i: nat)
    requires p in idx
    ensures i < |idx| && idx[i] == p
  {
    if idx[0] == p then 0 else 1 + Position(idx[1..], p)
  }

  /** `insert_before` */
  function InsertAt(idx: seq<nat>, i: nat, p: nat): seq<nat>
    requires i <= |idx|
  {
    idx[..i] + [p] + idx[i..]
  }

  function Erase(idx: seq<nat>, p: nat): seq<nat>
    requires p in idx
  {
    idx[..Position(idx, p)] + idx[Position(idx, p) + 1..]
  }

  datatype Insertion = Insertion(idx: seq<nat>, pos: nat, inserted: bool)

  /** Inserts `p` unless a node with its key is there, and tells where it is or would have been. */
  function InsertUnique(m: Memory, k: nat, idx: seq<nat>, p: nat): (r: Insertion)
    ensures r.pos <= |idx|
  {
    var x := KeyAt(m, k, p);
    var i := LowerBound(m, k, idx, x);
    if i < |idx| && KeyAt(m, k, idx[i]) == x then Insertion(idx, i, false)
    else Insertion(InsertAt(idx, i, p), i, true)
  }

  /** Inserts `p` behind the nodes with its key. */
  function InsertEqual(m: Memory, k: nat, idx: seq<nat>, p: nat): seq<nat> {
    InsertAt(idx, LowerBound(m, k, idx, KeyAt(m, k, p) + 1), p)
  }

  /** The check of `post_modify`: the key of `p` lies strictly between those of its neighbours. */
  predicate InPlace(m: Memory, k: nat, idx: seq<nat>, p: nat)
    requires p in idx
  {
    var i := Position(idx, p);
    && (i > 0 ==> KeyAt(m, k, idx[i - 1]) < KeyAt(m, k, p))
    && (i + 1 < |idx| ==> KeyAt(m, k, p) < KeyAt(m, k, idx[i + 1]))
  }

  /** One level of `post_modify<true>`: the new index, and whether `p` could be placed. */
  function FixUnique(m: Memory, k: nat, idx: seq<nat>, p: nat): (seq<nat>, bool)
    requires p in idx
  {
    if InPlace(m, k, idx, p) then (idx, true)
    else
      var rest := Erase(idx, p);
      var r := InsertUnique(m, k, rest, p);
      if r.inserted then (r.idx, true) else (InsertAt(rest, r.pos, p), false)
  }

  /** `p` stands in front of a node with its key, behind all with a smaller one. */
  ghost predicate BeforeTwin(m: Memory, k: nat, idx: seq<nat>, p: nat)
    requires p in idx
  {
    var i := Position(idx, p);
    && i + 1 < |idx| && KeyAt(m, k, idx[i + 1]) == KeyAt(m, k, p)
    && forall j | 0 <= j < i :: KeyAt(m, k, idx[j]) < KeyAt(m, k, p)
  }

  /** `p` stands behind all nodes with its key. */
  ghost predicate BehindTwins(m: Memory, k: nat, idx: seq<nat>, p: nat)
    requires p in idx
  {
    forall j | Position(idx, p) < j < |idx| :: KeyAt(m, k, p) < KeyAt(m, k, idx[j])
  }

  /** One level of `post_modify<false>`. */
  function FixEqual(m: Memory, k: nat, idx: seq<nat>, p: nat): seq<nat>
    requires p in idx
  {
    if InPlace(m, k, idx, p) then idx else InsertEqual(m, k, Erase(idx, p), p)
  }

  // ----- what they do to the nodes held

  lemma InsertHolds(idx: seq<nat>, live: set<nat>, i: nat, p: nat)
    requires Holds(idx, live) && i <= |idx| && p !in live
    ensures Holds(InsertAt(idx, i, p), live + {p})
  {
    var r := InsertAt(idx, i, p);
    assert idx == idx[..i] + idx[i..];
    assert forall a :: a in r <==> a in idx || a == p;
  }

  lemma EraseHolds(idx: seq<nat>, live: set<nat>, p: nat)
    requires Holds(idx, live) && p in idx
    ensures Holds(Erase(idx, p), live - {p})
  {
    var i, r := Position(idx, p), Erase(idx, p);
    forall x, y | 0 <= x < y < |r| ensures r[x] != r[y] {
      assert r[x] == idx[if x < i then x else x + 1] && r[y] == idx[if y < i then y else y + 1];
    }
    forall a ensures a in r <==> a in idx && a != p {
      if a in idx && a != p {
        var x :| 0 <= x < |idx| && idx[x] == a;
        assert r[if x < i then x else x - 1] == a;
      }
    }
  }

  /** Erasing what was just inserted gives the index back. */
  lemma EraseInserted(idx: seq<nat>, i: nat, p: nat)
    requires p !in idx && i <= |idx|
    ensures p in InsertAt(idx, i, p) && Erase(InsertAt(idx, i, p), p) == idx
  {
    var r := InsertAt(idx, i, p);
    assert r[i] == p;
    assert forall j | 0 <= j < |r| && j != i :: r[j] in idx;
    assert idx == idx[..i] + idx[i..];
  }

  // ----- what they do to the order

  lemma EraseSortedBut(m: Memory, k: nat, idx: seq<nat>, p: nat)
    requires Distinct(idx) && p in idx
    ensures SortedBut(m, k, idx, p) ==> Sorted(m, k, Erase(idx, p))
    ensures StrictBut(m, k, idx, p) ==> Strict(m, k, Erase(idx, p))
  {
    var c, r := Position(idx, p), Erase(idx, p);
    forall i, j | 0 <= i < j < |r| ensures
        && (SortedBut(m, k, idx, p) ==> KeyAt(m, k, r[i]) <= KeyAt(m, k, r[j]))
        && (StrictBut(m, k, idx, p) ==> KeyAt(m, k, r[i]) < KeyAt(m, k, r[j]))
    {
      var x, y := if i < c then i else i + 1, if j < c then j else j + 1;
      assert r[i] == idx[x] && r[j] == idx[y];
      assert idx[x] != p && idx[y] != p;
    }
  }

  lemma InsertSorted(m: Memory, k: nat, idx: seq<nat>, i: nat, p: nat)
    requires Sorted(m, k, idx) && i <= |idx|
    requires i > 0 ==> KeyAt(m, k, idx[i - 1]) <= KeyAt(m, k, p)
    requires i < |idx| ==> KeyAt(m, k, p) <= KeyAt(m, k, idx[i])
    ensures Sorted(m, k, InsertAt(idx, i, p))
  {}

  lemma InsertStrict(m: Memory, k: nat, idx: seq<nat>, i: nat, p: nat)
    requires Strict(m, k, idx) && i <= |idx|
    requires i > 0 ==> KeyAt(m, k, idx[i - 1]) < KeyAt(m, k, p)
    requires i < |idx| ==> KeyAt(m, k, p) < KeyAt(m, k, idx[i])
    ensures Strict(m, k, InsertAt(idx, i, p))
  {}

  lemma InsertBut(m: Memory, k: nat, idx: seq<nat>, i: nat, p: nat)
    requires Strict(m, k, idx) && i <= |idx|
    ensures StrictBut(m, k, InsertAt(idx, i, p), p)
  {
    var r := InsertAt(idx, i, p);
    forall j | 0 <= j < |r| && r[j] != p ensures j != i && r[j] == idx[if j < i then j else j - 1] {}
  }

  /** `insert_unique` inserts exactly when the key is free, and keeps the index in order, strictly if it was.
    * The index may hold duplicates of other keys. */
  lemma InsertUniqueCorrect(m: Memory, k: nat, idx: seq<nat>, live: set<nat>, p: nat)
    requires Holds(idx, live) && Sorted(m, k, idx) && p !in live
    ensures var r := InsertUnique(m, k, idx, p);
      && (r.inserted <==> NoTwin(m, k, live, p))
      && (r.inserted ==> Holds(r.idx, live + {p}) && Sorted(m, k, r.idx) && (Strict(m, k, idx) ==> Strict(m, k, r.idx)))
      && (!r.inserted ==> r.idx == idx)
      && Ascending(m, k, r.idx)
  {
    hide Ascending;
    var r := InsertUnique(m, k, idx, p);
    SortedAscending(m, k, r.idx);
    if r.inserted {
      InsertHolds(idx, live, r.pos, p);
      InsertSorted(m, k, idx, r.pos, p);
      if Strict(m, k, idx) {
        InsertStrict(m, k, idx, r.pos, p);
      }
      forall a | a in live ensures KeyAt(m, k, a) != KeyAt(m, k, p) {
        var j :| 0 <= j < |idx| && idx[j] == a;
      }
    } else {
      assert idx[r.pos] in live;
    }
  }

  /** The neighbour check of `post_modify` detects exactly a node that is out of place or shares its key. */
  lemma InPlaceExact(m: Memory, k: nat, idx: seq<nat>, p: nat)
    requires Distinct(idx) && p in idx && SortedBut(m, k, idx, p)
    ensures InPlace(m, k, idx, p) <==> Sorted(m, k, idx) && forall a <- idx | a != p :: KeyAt(m, k, a) != KeyAt(m, k, p)
    ensures StrictBut(m, k, idx, p) ==> (InPlace(m, k, idx, p) <==> Strict(m, k, idx))
  {
    var c := Position(idx, p);
    if InPlace(m, k, idx, p) {
      forall i | 0 <= i < |idx| && i != c
        ensures if i < c then KeyAt(m, k, idx[i]) < KeyAt(m, k, p) else KeyAt(m, k, p) < KeyAt(m, k, idx[i])
      {
        if i < c - 1 {
          assert KeyAt(m, k, idx[i]) <= KeyAt(m, k, idx[c - 1]);
        } else if c + 1 < i {
          assert KeyAt(m, k, idx[c + 1]) <= KeyAt(m, k, idx[i]);
        }
      }
      forall a <- idx | a != p ensures KeyAt(m, k, a) != KeyAt(m, k, p) {
        var i :| 0 <= i < |idx| && idx[i] == a;
      }
      forall i, j | 0 <= i < j < |idx| ensures KeyAt(m, k, idx[i]) <= KeyAt(m, k, idx[j])
        && (StrictBut(m, k, idx, p) ==> KeyAt(m, k, idx[i]) < KeyAt(m, k, idx[j])) {
        assert i != c ==> idx[i] != p;
        assert j != c ==> idx[j] != p;
      }
    } else if Sorted(m, k, idx) {
      assert c > 0 ==> idx[c - 1] != p;
      assert c + 1 < |idx| ==> idx[c + 1] != p;
    }
  }

  lemma StrictNoTwin(m: Memory, k: nat, idx: seq<nat>, live: set<nat>, p: nat)
    requires Holds(idx, live) && Strict(m, k, idx) && p in live
    ensures NoTwin(m, k, live, p)
  {
    forall a | a in live && a != p ensures KeyAt(m, k, a) != KeyAt(m, k, p) {
      var i, j :| 0 <= i < |idx| && 0 <= j < |idx| && idx[i] == a && idx[j] == p;
    }
  }

  /** Whatever the new key of `p`, one level of `post_modify<true>` keeps the other nodes in order, puts `p`
    * among them, and reports a conflict exactly when its key is taken. */
  lemma FixUniqueCorrect(m: Memory, k: nat, idx: seq<nat>, live: set<nat>, p: nat)
    requires Holds(idx, live) && p in live && SortedBut(m, k, idx, p)
    ensures var (r, ok) := FixUnique(m, k, idx, p);
      && Holds(r, live) && Sorted(m, k, r)
      && (ok <==> NoTwin(m, k, live, p))
      && p in r && Erase(r, p) == Erase(idx, p) && (!ok ==> BeforeTwin(m, k, r, p))
      && (StrictBut(m, k, idx, p) ==> StrictBut(m, k, r, p) && (ok ==> Strict(m, k, r)))
  {
    InPlaceExact(m, k, idx, p);
    if InPlace(m, k, idx, p) {
      hide Sorted, Strict, StrictBut, SortedBut, InPlace, Erase;
    } else {
      FixMoved(m, k, idx, live, p);
    }
  }

  /** The case of a node that is out of place or shares its key. */
  lemma FixMoved(m: Memory, k: nat, idx: seq<nat>, live: set<nat>, p: nat)
    requires Holds(idx, live) && p in live && SortedBut(m, k, idx, p) && !InPlace(m, k, idx, p)
    ensures var (r, ok) := FixUnique(m, k, idx, p);
      && Holds(r, live) && Sorted(m, k, r)
      && (ok <==> NoTwin(m, k, live, p))
      && p in r && Erase(r, p) == Erase(idx, p) && (!ok ==> BeforeTwin(m, k, r, p))
      && (StrictBut(m, k, idx, p) ==> StrictBut(m, k, r, p) && (ok ==> Strict(m, k, r)))
  {
    hide Holds, Sorted, SortedBut, Strict, StrictBut, Erase, NoTwin, InPlace, InsertAt, LowerBound, Distinct,
      BeforeTwin;
    HeldOnce(m, k, idx, live, p);
    EraseHolds(idx, live, p);
    EraseSortedBut(m, k, idx, p);
    var rest := Erase(idx, p);
    var r := InsertUnique(m, k, rest, p);
    InsertUniqueCorrect(m, k, rest, live - {p}, p);
    InsertHolds(rest, live - {p}, r.pos, p);
    EraseInserted(rest, r.pos, p);
    assert live - {p} + {p} == live;
    TwinSorted(m, k, rest, p);
    TwinBefore(m, k, rest, p);
    if Strict(m, k, rest) {
      InsertBut(m, k, rest, r.pos, p);
    }
  }

  lemma HeldOnce(m: Memory, k: nat, idx: seq<nat>, live: set<nat>, p: nat)
    requires Holds(idx, live) && p in live
    ensures Distinct(idx) && p in idx && p !in Erase(idx, p)
    ensures NoTwin(m, k, live, p) <==> NoTwin(m, k, live - {p}, p)
  {
    EraseHolds(idx, live, p);
  }

  /** In front of a node with its key, a node is in order, too. */
  lemma TwinSorted(m: Memory, k: nat, idx: seq<nat>, p: nat)
    requires Sorted(m, k, idx)
    ensures var r := InsertUnique(m, k, idx, p); !r.inserted ==> Sorted(m, k, InsertAt(idx, r.pos, p))
  {
    var r := InsertUnique(m, k, idx, p);
    if !r.inserted {
      InsertSorted(m, k, idx, r.pos, p);
    }
  }

  lemma InsertedPosition(idx: seq<nat>, i: nat, p: nat)
    requires p !in idx && i <= |idx|
    ensures p in InsertAt(idx, i, p) && Position(InsertAt(idx, i, p), p) == i
  {
    var r := InsertAt(idx, i, p);
    assert r[i] == p;
    assert forall j | 0 <= j < |r| && j != i :: r[j] in idx;
  }

  lemma TwinBefore(m: Memory, k: nat, idx: seq<nat>, p: nat)
    requires p !in idx
    ensures var r := InsertUnique(m, k, idx, p);
      !r.inserted ==> p in InsertAt(idx, r.pos, p) && BeforeTwin(m, k, InsertAt(idx, r.pos, p), p)
  {
    InsertedPosition(idx, InsertUnique(m, k, idx, p).pos, p);
  }

  /** One level of `post_modify<false>` restores the order even where keys are duplicated, puts `p` behind the nodes
    * with its key, and moves no other node. */
  lemma FixEqualCorrect(m: Memory, k: nat, idx: seq<nat>, live: set<nat>, p: nat)
    requires Holds(idx, live) && p in live && SortedBut(m, k, idx, p)
    ensures var r := FixEqual(m, k, idx, p);
      Holds(r, live) && Sorted(m, k, r) && p in r && Erase(r, p) == Erase(idx, p) && BehindTwins(m, k, r, p)
  {
    hide SortedBut, InsertAt, Erase, InsertEqual;
    if InPlace(m, k, idx, p) {
      InPlaceExact(m, k, idx, p);
    } else {
      hide Sorted, Distinct;
      var rest := Erase(idx, p);
      EraseHolds(idx, live, p);
      EraseSortedBut(m, k, idx, p);
      InsertEqualCorrect(m, k, rest, live - {p}, p);
      assert live - {p} + {p} == live;
    }
  }

  lemma InsertEqualCorrect(m: Memory, k: nat, idx: seq<nat>, live: set<nat>, p: nat)
    requires Holds(idx, live) && Sorted(m, k, idx) && p !in live
    ensures var r := InsertEqual(m, k, idx, p);
      Holds(r, live + {p}) && Sorted(m, k, r) && p in r && Erase(r, p) == idx && BehindTwins(m, k, r, p)
  {
    hide Erase, Distinct;
    var i := LowerBound(m, k, idx, KeyAt(m, k, p) + 1);
    InsertHolds(idx, live, i, p);
    InsertSorted(m, k, idx, i, p);
    EraseInserted(idx, i, p);
    InsertedPosition(idx, i, p);
  }

  /** A sorted index without duplicate keys is strictly sorted: the duplicates of undo are transient. */
  lemma SortedUniqueStrict(m: Memory, k: nat, idx: seq<nat>, live: set<nat>)
    requires Holds(idx, live) && Sorted(m, k, idx)
    requires forall a | a in live :: NoTwin(m, k, live, a)
    ensures Strict(m, k, idx)
  {
    forall i, j | 0 <= i < j < |idx| ensures KeyAt(m, k, idx[i]) < KeyAt(m, k, idx[j]) {
      assert idx[i] in live && idx[j] in live;
    }
  }

  /** There is only one place for a node whose key is free. */
  lemma PlaceUnique(m: Memory, k: nat, a: seq<nat>, b: seq<nat>, live: set<nat>, p: nat)
    requires Holds(a, live) && Sorted(m, k, a) && Holds(b, live) && Sorted(m, k, b) && p in live
    requires NoTwin(m, k, live, p) && Erase(a, p) == Erase(b, p)
    ensures a == b
  {
    hide KeyAt, Sorted, NoTwin;
    PlaceSplits(m, k, a, live, p);
    PlaceSplits(m, k, b, live, p);
    var i, j, rest := Position(a, p), Position(b, p), Erase(a, p);
    assert a == rest[..i] + [p] + rest[i..] && b == rest[..j] + [p] + rest[j..];
    var x := if i < j then i else j;
    assert x < |rest| ==> (x < i <==> KeyAt(m, k, rest[x]) < KeyAt(m, k, p)) && (x < i <==> x < j);
  }

  /** The node stands between the smaller keys and the greater ones. */
  lemma PlaceSplits(m: Memory, k: nat, idx: seq<nat>, live: set<nat>, p: nat)
    requires Holds(idx, live) && Sorted(m, k, idx) && p in live && NoTwin(m, k, live, p)
    ensures forall x | 0 <= x < |Erase(idx, p)| ::
      x < Position(idx, p) <==> KeyAt(m, k, Erase(idx, p)[x]) < KeyAt(m, k, p)
  {
    var i, rest := Position(idx, p), Erase(idx, p);
    forall x | 0 <= x < |rest| ensures x < i <==> KeyAt(m, k, rest[x]) < KeyAt(m, k, p) {
      var y := if x < i then x else x + 1;
      assert rest[x] == idx[y] && idx[y] in live && idx[y] != p;
    }
  }

  /** Taking an inserted node out again gives the index back. */
  lemma InsertUniqueUndone(m: Memory, k: nat, idx: seq<nat>, p: nat)
    requires p !in idx
    ensures var r := InsertUnique(m, k, idx, p); r.inserted ==> p in r.idx && Erase(r.idx, p) == idx
  {
    EraseInserted(idx, InsertUnique(m, k, idx, p).pos, p);
  }

  lemma SortedIsBut(m: Memory, k: nat, idx: seq<nat>, p: nat)
    requires Sorted(m, k, idx)
    ensures SortedBut(m, k, idx, p)
  {}

  // ----- changes to the memory

  /** Order only depends on the keys of the nodes in the index. */
  lemma SameKeys(m: Memory, r: Memory, k: nat, idx: seq<nat>)
    requires forall a | a in idx :: KeyAt(r, k, a) == KeyAt(m, k, a)
    ensures Strict(m, k, idx) ==> Strict(r, k, idx)
    ensures Sorted(m, k, idx) ==> Sorted(r, k, idx)
  {}

  /** A change of one node leaves the others in order. */
  lemma OneChanged(m: Memory, k: nat, idx: seq<nat>, p: nat, n: Node)
    ensures StrictBut(m, k, idx, p) ==> StrictBut(m[p := n], k, idx, p)
    ensures Strict(m, k, idx) ==> StrictBut(m[p := n], k, idx, p)
    ensures SortedBut(m, k, idx, p) ==> SortedBut(m[p := n], k, idx, p)
    ensures Sorted(m, k, idx) ==> SortedBut(m[p := n], k, idx, p)
  {
    var r := m[p := n];
    assert forall a | a in idx && a != p :: KeyAt(r, k, a) == KeyAt(m, k, a);
  }
}
