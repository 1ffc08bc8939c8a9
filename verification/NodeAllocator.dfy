/** The allocator of single nodes: a free list threaded through blocks that are carved 64 at a time. */
module NodeAllocator {
  import opened Basics

  const BATCH: nat := 64

  /** The `i`th cell of the batch at `base`. */
  function Cell(base: nat, i: nat, size: nat): nat {
    base + i * size
  }

  function Carved(base: nat, n: nat, size: nat): (r: seq<nat>)
    ensures |r| == n
  {
    seq(n, i requires 0 <= i < n => Cell(base, i, size))
  }

  /** Blocks of `size` bytes at different addresses do not overlap. */
  ghost predicate Spaced(cells: set<nat>, size: nat) {
    forall x, y | x in cells && y in cells && x != y :: x + size <= y || y + size <= x
  }

  /** A block lies in the batch at `base`. */
  predicate Within(x: nat, base: nat, size: nat) {
    base <= x && x + size <= base + 64 * size
  }

  /** Two batches do not overlap. */
  predicate Separate(a: nat, b: nat, size: nat) {
    a + 64 * size <= b || b + 64 * size <= a
  }

  /** The free list that starts at `head` runs through `nodes`, and ends. */
  ghost predicate Chain(links: map<nat, Option<nat>>, head: Option<nat>, nodes: seq<nat>)
    decreases |nodes|
  {
    if nodes == [] then head == None
    else head == Some(nodes[0]) && nodes[0] in links && Chain(links, links[nodes[0]], nodes[1..])
  }

  lemma {:induction false} ChainAlike(links: map<nat, Option<nat>>, links': map<nat, Option<nat>>, head: Option<nat>,
      nodes: seq<nat>)
    requires Chain(links, head, nodes)
    requires forall a | a in nodes && a in links :: a in links' && links'[a] == links[a]
    ensures Chain(links', head, nodes)
    decreases |nodes|
  {
    if nodes != [] {
      assert nodes[0] in nodes;
      assert forall a <- nodes[1..] :: a in nodes;
      ChainAlike(links, links', links[nodes[0]], nodes[1..]);
    }
  }

  /** A chain is acyclic: following its links reaches the end after as many steps as it has nodes. */
  function Follow(links: map<nat, Option<nat>>, head: Option<nat>, n: nat): Option<nat>
    decreases n
  {
    if n == 0 || head.None? || head.value !in links then head else Follow(links, links[head.value], n - 1)
  }

  lemma {:induction false} ChainEnds(links: map<nat, Option<nat>>, head: Option<nat>, nodes: seq<nat>, n: nat)
    requires Chain(links, head, nodes) && n <= |nodes|
    ensures Follow(links, head, n) == if n == |nodes| then None else Some(nodes[n])
    decreases n
  {
    if n > 0 {
      ChainEnds(links, links[nodes[0]], nodes[1..], n - 1);
    }
  }

  // ----- cells

  lemma CellsApart(i: nat, j: nat, size: nat)
    requires i < j
    ensures i * size + size <= j * size
  {
    assert (j - i) * size == size + (j - i - 1) * size;
    assert j * size == i * size + (j - i) * size;
  }

  lemma CarvedCells(base: nat, size: nat)
    ensures |Carved(base, BATCH, size)| == 64
    ensures forall i | 0 <= i < 64 :: Carved(base, BATCH, size)[i] == base + i * size
  {}

  lemma CarvedSpaced(base: nat, size: nat)
    requires size > 0
    ensures Spaced(Elems(Carved(base, BATCH, size)), size) && Distinct(Carved(base, BATCH, size))
    ensures forall x | x in Elems(Carved(base, BATCH, size)) :: Within(x, base, size)
  {
    var s := Carved(base, BATCH, size);
    forall i, j | 0 <= i < j < BATCH ensures s[i] + size <= s[j] {
      CellsApart(i, j, size);
    }
    forall i | 0 <= i < BATCH ensures Within(s[i], base, size) {
      CellsApart(i, BATCH, size);
    }
    assert forall x | x in Elems(s) :: exists i :: 0 <= i < BATCH && s[i] == x;
  }

  ghost predicate Covered(x: nat, bases: set<nat>, size: nat) {
    exists b :: b in bases && Within(x, b, size)
  }

  /** The blocks in use and the free ones are all that was carved, and none overlaps another. */
  ghost predicate Laid(live: set<nat>, free: seq<nat>, bases: set<nat>, batches: nat, size: nat) {
    && Distinct(free) && live !! Elems(free)
    && Spaced(live + Elems(free), size)
    && (forall x | x in live + Elems(free) :: Covered(x, bases, size))
    && |live| + |free| == 64 * batches
  }

  lemma LaidMore(live: set<nat>, bases: set<nat>, batches: nat, base: nat, size: nat)
    requires Laid(live, [], bases, batches, size) && size > 0 && forall b | b in bases :: Separate(b, base, size)
    ensures Laid(live, Carved(base, BATCH, size), bases + {base}, batches + 1, size)
  {
    var more := Elems(Carved(base, BATCH, size));
    CarvedSpaced(base, size);
    assert live + Elems([]) == live;
    forall x, y | x in live && y in more ensures x + size <= y || y + size <= x {
      assert Covered(x, bases, size);
      var b :| b in bases && Within(x, b, size);
      assert Separate(b, base, size);
    }
    forall x | x in live + more ensures Covered(x, bases + {base}, size) {
      if x in live {
        assert Covered(x, bases, size);
        var b :| b in bases && Within(x, b, size);
        assert b in bases + {base};
      } else {
        assert base in bases + {base};
      }
    }
  }

  lemma LaidTake(live: set<nat>, free: seq<nat>, bases: set<nat>, batches: nat, size: nat)
    requires Laid(live, free, bases, batches, size) && free != []
    ensures Laid(live + {free[0]}, free[1..], bases, batches, size)
    ensures free[0] !in live && forall x | x in live :: x + size <= free[0] || free[0] + size <= x
  {
    hide Covered, Spaced, Elems;
    var p, rest := free[0], free[1..];
    Head(free);
    Moved(Elems(free), live, p);
    assert Elems(free) - {p} == Elems(rest);
    assert live + {p} + Elems(rest) == Elems(rest) + (live + {p}) && live + Elems(free) == Elems(free) + live;
    SpacedFrom(live + Elems(free), size, live, p);
  }

  lemma Head(free: seq<nat>)
    requires free != [] && Distinct(free)
    ensures Distinct(free[1..]) && Elems(free) == {free[0]} + Elems(free[1..]) && free[0] !in Elems(free[1..])
  {
    assert free == [free[0]] + free[1..];
  }

  lemma SpacedFrom(cells: set<nat>, size: nat, live: set<nat>, p: nat)
    requires Spaced(cells, size) && live <= cells && p in cells && p !in live
    ensures forall x | x in live :: x + size <= p || p + size <= x
  {}

  lemma LaidPut(live: set<nat>, free: seq<nat>, bases: set<nat>, batches: nat, size: nat, p: nat)
    requires Laid(live, free, bases, batches, size) && p in live
    ensures Laid(live - {p}, [p] + free, bases, batches, size) && p !in free
  {
    hide Covered, Spaced, Elems;
    OneMore(free, p, live);
    Moved(live, Elems(free), p);
  }

  lemma OneMore(free: seq<nat>, p: nat, live: set<nat>)
    requires Distinct(free) && p in live && live !! Elems(free)
    ensures Distinct([p] + free) && Elems([p] + free) == Elems(free) + {p} && p !in free
  {
    assert p !in Elems(free);
  }

  /** An element moves from one set to another. */
  lemma Moved(a: set<nat>, b: set<nat>, p: nat)
    requires p in a && a !! b
    ensures a - {p} + (b + {p}) == a + b && a - {p} !! b + {p} && |a - {p}| == |a| - 1
  {}

  /** The links in memory are those of the free list, which has `n` nodes. */
  ghost predicate Threaded(links: map<nat, Option<nat>>, head: Option<nat>, n: nat, free: seq<nat>) {
    Chain(links, head, free) && links.Keys == Elems(free) && |free| == n
  }

  lemma ThreadedTake(links: map<nat, Option<nat>>, head: Option<nat>, n: nat, free: seq<nat>)
    requires Threaded(links, head, n, free) && Distinct(free) && head.Some?
    ensures free != [] && head.value == free[0] && head.value in links && n > 0
    ensures Threaded(links - {head.value}, links[head.value], n - 1, free[1..])
  {
    var p, rest := free[0], free[1..];
    assert free == [p] + rest;
    assert forall a <- rest :: a != p;
    ChainAlike(links, links - {p}, links[p], rest);
  }

  lemma ThreadedPut(links: map<nat, Option<nat>>, head: Option<nat>, n: nat, free: seq<nat>, p: nat)
    requires Threaded(links, head, n, free) && p !in free
    ensures Threaded(links[p := head], Some(p), n + 1, [p] + free)
  {
    ChainAlike(links, links[p := head], head, free);
    assert ([p] + free)[1..] == free;
  }

  lemma ThreadedEmpty(links: map<nat, Option<nat>>, n: nat, free: seq<nat>)
    requires Threaded(links, None, n, free)
    ensures free == [] && links == map[] && n == 0
  {}

  class Allocator {
    const size: nat  // sizeof(T), at least that of a link
    var links: map<nat, Option<nat>>  // the `list_item`s in memory
    var freelist: Option<nat>
    var freelistSize: nat

    ghost var free: seq<nat>
    ghost var live: set<nat>   // handed out and not returned
    ghost var bases: set<nat>  // the batches carved so far
    ghost var batches: nat

    ghost predicate Valid()
      reads this
    {
      size > 0 && Threaded(links, freelist, freelistSize, free) && Laid(live, free, bases, batches, size)
    }

    constructor (size: nat)
      requires size > 0
      ensures Valid() && this.size == size && live == {} && free == [] && batches == 0 && bases == {}
    {
      this.size := size;
      links, freelist, freelistSize := map[], None, 0;
      free, live, bases, batches := [], {}, {}, 0;
    }

    /** Carves a batch out of `chunk`, which the segment has just handed out, when the list is empty. */
    method GetSome(chunk: nat)
      requires Valid() && freelist == None
      requires forall b | b in bases :: Separate(b, chunk, size)
      modifies this
      ensures Valid() && live == old(live) && |free| == 64
      ensures forall i | 0 <= i < |free| :: free[i] == chunk + i * size
      ensures bases == old(bases) + {chunk} && batches == old(batches) + 1
    {
      hide Laid, Threaded, Carved, Separate, Elems, Distinct;
      ThreadedEmpty(links, freelistSize, free);
      LaidMore(live, bases, batches, chunk, size);
      CarvedCells(chunk, size);
      free := Carved(chunk, BATCH, size);
      Thread(chunk);
      freelistSize := freelistSize + BATCH;
      freelist := Some(chunk);
      bases := bases + {chunk};
      batches := batches + 1;
    }

    /** The loop of `get_some`. */
    method Thread(chunk: nat)
      requires links == map[] && free == Carved(chunk, BATCH, size) && Distinct(free)
      modifies this`links
      ensures Threaded(links, Some(chunk), BATCH, free)
    {
      hide Threaded, Carved, Linked, Distinct;
      CarvedSteps(chunk, size);
      LinkedNone(links, free);
      var result, i := chunk, 0;
      while i < BATCH - 1
        invariant 0 <= i <= BATCH - 1 && result == free[i]
        invariant Linked(links, free, i)
      {
        var next := result + size;
        LinkedStep(links, free, i, Some(next));
        links := links[result := Some(next)];
        result := next;
        i := i + 1;
      }
      LinkedUp(links, free);
      links := links[result := None];
    }

    /** `allocate(1)`; `chunk` is where the segment would put another batch. */
    method Allocate(chunk: nat) returns (p: nat)
      requires Valid() && forall b | b in bases :: Separate(b, chunk, size)
      modifies this
      ensures Valid() && p !in old(live) && live == old(live) + {p}
      // the block overlaps none that is in use
      ensures forall x | x in old(live) :: x + size <= p || p + size <= x
      // the last one returned is handed out first; a batch is carved only when none is left
      ensures old(free) != [] ==>
        p == old(free)[0] && free == old(free)[1..] && batches == old(batches) && bases == old(bases)
      ensures old(free) == [] ==>
        && p == chunk && |free| == 63 && (forall i | 0 <= i < |free| :: free[i] == chunk + (i + 1) * size)
        && batches == old(batches) + 1 && bases == old(bases) + {chunk}
    {
      hide Laid, Threaded, Carved;
      if freelist == None {
        ThreadedEmpty(links, freelistSize, free);
        GetSome(chunk);
        NotEmpty(links, freelist, freelistSize, free);
      }
      FreeDistinct(live, free, bases, batches, size);
      ThreadedTake(links, freelist, freelistSize, free);
      LaidTake(live, free, bases, batches, size);
      p := freelist.value;
      freelist := links[p];
      links := links - {p};
      freelistSize := freelistSize - 1;
      free := free[1..];
      live := live + {p};
    }

    /** `deallocate(p, 1)` */
    method Deallocate(p: nat)
      requires Valid() && p in live
      modifies this
      ensures Valid() && live == old(live) - {p} && free == [p] + old(free)
      ensures batches == old(batches) && bases == old(bases)
    {
      hide Laid, Threaded;
      LaidPut(live, free, bases, batches, size, p);
      ThreadedPut(links, freelist, freelistSize, free, p);
      links := links[p := freelist];
      freelist := Some(p);
      freelistSize := freelistSize + 1;
      free := [p] + free;
      live := live - {p};
    }

    /** `freelist_memory_usage` */
    method MemoryUsage() returns (n: nat)
      requires Valid()
      ensures n == |free| * size
      ensures n + |live| * size == 64 * batches * size
    {
      hide Laid, Threaded;
      Sizes(links, freelist, freelistSize, live, free, bases, batches, size);
      n := freelistSize * size;
    }
  }

  lemma Distribute(a: nat, b: nat, c: nat)
    ensures (a + b) * c == a * c + b * c
  {}

  lemma Sizes(links: map<nat, Option<nat>>, head: Option<nat>, n: nat, live: set<nat>, free: seq<nat>,
      bases: set<nat>, batches: nat, size: nat)
    requires Threaded(links, head, n, free) && Laid(live, free, bases, batches, size)
    ensures n == |free| && |free| * size + |live| * size == 64 * batches * size
  {
    hide Chain, Spaced, Distinct, Covered;
    Distribute(|free|, |live|, size);
    assert |free| + |live| == 64 * batches;
  }

  lemma FreeDistinct(live: set<nat>, free: seq<nat>, bases: set<nat>, batches: nat, size: nat)
    requires Laid(live, free, bases, batches, size)
    ensures Distinct(free)
  {}

  lemma NotEmpty(links: map<nat, Option<nat>>, head: Option<nat>, n: nat, free: seq<nat>)
    requires Threaded(links, head, n, free) && free != []
    ensures head == Some(free[0])
  {}

  // ----- the loop of `get_some`

  lemma CarvedSteps(base: nat, size: nat)
    ensures var s := Carved(base, BATCH, size);
      s[0] == base && forall i | 0 <= i < BATCH - 1 :: s[i + 1] == s[i] + size
  {
    var s := Carved(base, BATCH, size);
    forall i | 0 <= i < BATCH - 1 ensures s[i + 1] == s[i] + size {
      Distribute(i, 1, size);
    }
  }

  /** The first `i` cells have been linked to the next. */
  ghost predicate Linked(links: map<nat, Option<nat>>, cells: seq<nat>, i: nat)
    requires i < |cells|
  {
    && links.Keys == Elems(cells[..i])
    && forall k | 0 <= k < i :: cells[k] in links && links[cells[k]] == Some(cells[k + 1])
  }

  lemma LinkedNone(links: map<nat, Option<nat>>, cells: seq<nat>)
    requires links == map[] && cells != []
    ensures Linked(links, cells, 0)
  {}

  lemma LinkedStep(links: map<nat, Option<nat>>, cells: seq<nat>, i: nat, next: Option<nat>)
    requires i + 1 < |cells| && Linked(links, cells, i) && Distinct(cells) && next == Some(cells[i + 1])
    ensures Linked(links[cells[i] := next], cells, i + 1)
  {
    assert cells[..i + 1] == cells[..i] + [cells[i]];
  }

  lemma LinkedUp(links: map<nat, Option<nat>>, cells: seq<nat>)
    requires cells != [] && Linked(links, cells, |cells| - 1) && Distinct(cells)
    ensures Threaded(links[cells[|cells| - 1] := None], Some(cells[0]), |cells|, cells)
  {
    assert cells == cells[..|cells| - 1] + [cells[|cells| - 1]];
    var r: map<nat, Option<nat>> := links[cells[|cells| - 1] := None];
    ChainFrom(r, cells, 0);
    assert cells[0..] == cells;
  }

  lemma {:induction false} ChainFrom(links: map<nat, Option<nat>>, cells: seq<nat>, i: nat)
    requires i < |cells|
    requires forall k | 0 <= k < |cells| - 1 :: cells[k] in links && links[cells[k]] == Some(cells[k + 1])
    requires cells[|cells| - 1] in links && links[cells[|cells| - 1]] == None
    ensures Chain(links, Some(cells[i]), cells[i..])
    decreases |cells| - i
  {
    assert cells[i..][1..] == cells[i + 1..];
    if i + 1 < |cells| {
      ChainFrom(links, cells, i + 1);
    }
  }
}
