/** The links of an index node: three 42-bit fields with offsets to other nodes, in units of 4 bytes,
  * and two bits for the balance or the removal flag. */
module PackedLinks {
  import opened Basics

  const HALF_FIELD: int := 0x200_0000_0000  // 2^41

  /** What a signed field of 42 bits keeps of an integer. */
  function Field42(x: int): (r: int)
    ensures -HALF_FIELD <= r < HALF_FIELD
    ensures -HALF_FIELD <= x < HALF_FIELD <==> r == x
  {
    (x + HALF_FIELD) % (2 * HALF_FIELD) - HALF_FIELD
  }

  /** What a signed field of 2 bits keeps of an integer. */
  function Field2(x: int): (r: int)
    ensures -2 <= r < 2
    ensures -2 <= x < 2 <==> r == x
  {
    (x + 2) % 4 - 2
  }

  /** An arithmetic shift to the right by two bits. */
  function ShiftRight(x: int): int {
    x / 4
  }

  const NULL_LINK: int := 1

  /** `set_parent`, `set_left` and `set_right` for the node at `n`. */
  function Packed(n: int, link: Option<int>): int {
    if link.None? then NULL_LINK else Field42(ShiftRight(link.value - n))
  }

  /** `get_parent`, `get_left` and `get_right`. */
  function Unpacked(n: int, field: int): Option<int> {
    if field == NULL_LINK then None else Some(n + 4 * field)
  }

  /** A link comes back as it was if and only if it is aligned, near enough, and not 4 bytes ahead. */
  lemma RoundTrip(n: int, p: int)
    ensures Unpacked(n, Packed(n, Some(p))) == Some(p) <==>
      ((p - n) % 4 == 0 && -0x800_0000_0000 <= p - n <= 0x7ff_ffff_fffc && p - n != 4)
    ensures Unpacked(n, Packed(n, None)) == None
  {
    var s := ShiftRight(p - n);
    assert (p - n) % 4 == p - n - 4 * s;
    assert Field42(s) == s <==> -HALF_FIELD <= s < HALF_FIELD;
  }

  /** Links that are kept are kept apart. */
  lemma Injective(n: int, p: Option<int>, q: Option<int>)
    requires forall x <- [p, q] :: x.Some? ==>
      (x.value - n) % 4 == 0 && -0x800_0000_0000 <= x.value - n <= 0x7ff_ffff_fffc && x.value - n != 4
    requires Packed(n, p) == Packed(n, q)
    ensures p == q
  {
    assert p in [p, q] && q in [p, q];
    if p.Some? {
      RoundTrip(n, p.value);
    }
    if q.Some? {
      RoundTrip(n, q.value);
    }
  }

  // ----- nodes in memory

  datatype Hook = Hook(parent: int, left: int, right: int, color: int)

  datatype Links = Links(parent: Option<int>, left: Option<int>, right: Option<int>)

  type Hooks = map<int, Hook>

  function LinksOf(hooks: Hooks, n: int): Links
    requires n in hooks
  {
    Links(Unpacked(n, hooks[n].parent), Unpacked(n, hooks[n].left), Unpacked(n, hooks[n].right))
  }

  /** How far two nodes of one segment can be apart: aligned, not overlapping, within 8 TB. A hook takes 16 bytes. */
  predicate Apart(a: int, b: int) {
    (a - b) % 4 == 0 && (a == b || a - b <= -16 || a - b >= 16) && -0x800_0000_0000 < a - b < 0x800_0000_0000
  }

  ghost predicate InSegment(nodes: set<int>) {
    forall a, b | a in nodes && b in nodes :: Apart(a, b)
  }

  lemma SegmentRoundTrip(nodes: set<int>, n: int, link: Option<int>)
    requires InSegment(nodes) && n in nodes && (link.Some? ==> link.value in nodes)
    ensures Unpacked(n, Packed(n, link)) == link
  {
    if link.Some? {
      assert Apart(link.value, n);
      RoundTrip(n, link.value);
    } else {
      RoundTrip(n, n);
    }
  }

  class NodeMemory {
    var hooks: Hooks

    ghost predicate Valid()
      reads this
    {
      InSegment(hooks.Keys) && forall n | n in hooks :: hooks[n].color == Field2(hooks[n].color)
    }

    constructor (nodes: set<int>)
      requires InSegment(nodes)
      ensures Valid() && hooks.Keys == nodes && forall n | n in nodes :: LinksOf(hooks, n) == Links(None, None, None)
    {
      hooks := map n | n in nodes :: Hook(NULL_LINK, NULL_LINK, NULL_LINK, 0);
    }

    method SetParent(n: int, p: Option<int>)
      requires Valid() && n in hooks && (p.Some? ==> p.value in hooks)
      modifies this
      ensures Valid() && hooks.Keys == old(hooks).Keys
      ensures hooks == old(hooks)[n := old(hooks)[n].(parent := hooks[n].parent)]
      ensures LinksOf(hooks, n) == LinksOf(old(hooks), n).(parent := p)
    {
      SegmentRoundTrip(hooks.Keys, n, p);
      hooks := hooks[n := hooks[n].(parent := Packed(n, p))];
      assert hooks.Keys == old(hooks).Keys;
    }

    method SetLeft(n: int, p: Option<int>)
      requires Valid() && n in hooks && (p.Some? ==> p.value in hooks)
      modifies this
      ensures Valid() && hooks.Keys == old(hooks).Keys
      ensures hooks == old(hooks)[n := old(hooks)[n].(left := hooks[n].left)]
      ensures LinksOf(hooks, n) == LinksOf(old(hooks), n).(left := p)
    {
      SegmentRoundTrip(hooks.Keys, n, p);
      hooks := hooks[n := hooks[n].(left := Packed(n, p))];
      assert hooks.Keys == old(hooks).Keys;
    }

    /** Also `set_next` of the lists. */
    method SetRight(n: int, p: Option<int>)
      requires Valid() && n in hooks && (p.Some? ==> p.value in hooks)
      modifies this
      ensures Valid() && hooks.Keys == old(hooks).Keys
      ensures hooks == old(hooks)[n := old(hooks)[n].(right := hooks[n].right)]
      ensures LinksOf(hooks, n) == LinksOf(old(hooks), n).(right := p)
    {
      SegmentRoundTrip(hooks.Keys, n, p);
      hooks := hooks[n := hooks[n].(right := Packed(n, p))];
      assert hooks.Keys == old(hooks).Keys;
    }

    /** Two signed bits hold the balances -1, 0, 1 and the removal flag -2, each as itself. */
    method SetColor(n: int, c: int)
      requires Valid() && n in hooks
      modifies this
      ensures Valid() && hooks.Keys == old(hooks).Keys && hooks == old(hooks)[n := old(hooks)[n].(color := Field2(c))]
      ensures hooks[n].color == c <==> c in {-2, -1, 0, 1}
    {
      if hooks[n].color != c {
        hooks := hooks[n := hooks[n].(color := Field2(c))];
      }
      assert hooks == old(hooks)[n := old(hooks)[n].(color := hooks[n].color)];
      assert hooks.Keys == old(hooks).Keys;
    }
  }

  // ----- mapping the segment elsewhere

  function Shifted(nodes: set<int>, d: int): set<int> {
    set n | n in nodes :: n + d
  }

  lemma ShiftedAt(nodes: set<int>, d: int, m: int)
    ensures m in Shifted(nodes, d) <==> m - d in nodes
  {
    if m - d in nodes {
      var n := m - d;
      assert n in nodes && n + d == m;
    }
  }

  /** The same bytes, mapped `d` bytes higher. */
  function Remapped(hooks: Hooks, d: int): Hooks {
    map m | m in Shifted(hooks.Keys, d) && m - d in hooks :: hooks[m - d]
  }

  function Moved(link: Option<int>, d: int): Option<int> {
    if link.None? then None else Some(link.value + d)
  }

  /** Every link follows the segment. */
  lemma RemappedLinks(hooks: Hooks, d: int, n: int)
    requires n in hooks
    ensures n + d in Remapped(hooks, d)
    ensures var (was, now) := (LinksOf(hooks, n), LinksOf(Remapped(hooks, d), n + d));
      now == Links(Moved(was.parent, d), Moved(was.left, d), Moved(was.right, d))
  {
    hide Shifted;
    ShiftedAt(hooks.Keys, d, n + d);
    assert n + d - d == n;
    assert Remapped(hooks, d)[n + d] == hooks[n];
  }

  lemma RemappedSegment(hooks: Hooks, d: int)
    requires InSegment(hooks.Keys)
    ensures InSegment(Remapped(hooks, d).Keys)
  {
    hide Apart, Shifted;
    forall a, b | a in Remapped(hooks, d) && b in Remapped(hooks, d) ensures Apart(a, b) {
      assert Apart(a - d, b - d);
      ApartMoved(a - d, b - d, d);
    }
  }

  lemma ApartMoved(a: int, b: int, d: int)
    requires Apart(a, b)
    ensures Apart(a + d, b + d)
  {
    assert (a + d) - (b + d) == a - b;
  }
}
