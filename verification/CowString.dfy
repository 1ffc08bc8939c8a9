/** `shared_cow_string`, a shared block of bytes: what it does otherwise than a vector, and its order. */
module CowString {
  import opened Basics
  import opened CowModel
  import opened CowVector

  // ----- changes in place

  /** `resize_and_fill`: `content` is what the caller's function writes. */
  method ResizeAndFill(s: Store<Byte>, h: nat, content: seq<Byte>, nb: nat)
    requires s.Valid() && h in s.handles && nb !in s.blocks
    modifies s
    ensures s.Valid() && s.Views() == old(s.Views())[h := content]
    // in place if the handle is the only user of a block of the right size
    ensures var d := old(s.handles)[h];
      && (d.Some? ==> d.value in old(s.blocks))
      && s.handles == old(s.handles)[h :=
           if d.Some? && old(s.blocks)[d.value].refs == 1 && |old(s.blocks)[d.value].data| == |content| then d
           else if |content| == 0 then None else Some(nb)]
  {
    hide Owned, Full, Vectors, Total, Filled;
    OwnedBlock(s.handles, s.blocks, s.region, h);
    if s.handles[h].Some? && s.blocks[s.handles[h].value].refs == 1 &&
      |s.blocks[s.handles[h].value].data| == |content| {
      RewrittenOwned(s.handles, s.blocks, s.region, h, Filled(content));
      s.Overwrite(s.handles[h].value, Outside(content), |content|);
      assert content[..|content|] == content;
    } else {
      s.MakeRoom(h, |content|, 0, nb, content);
      if |content| > 0 {
        ghost var before, b := s.blocks, s.handles[h].value;
        assert content[..0] == [];
        FilledParts(content, 0, content);
        s.Fill(s.handles[h].value, 0, content);
        assert s.blocks == before[b := before[b].(data := Filled(content))];
      }
    }
  }

  /** Move assignment; across regions it is `assign`, which may write in place. */
  method MoveAssign(s: Store<Byte>, h: nat, o: nat, nb: nat)
    requires s.Valid() && h in s.handles && o in s.handles && nb !in s.blocks
    modifies s
    ensures s.Valid() && o in old(s.Views())
    ensures s.Views() ==
      if h == o then old(s.Views())
      else if s.region(h) == s.region(o) then old(s.Views())[h := old(s.Views())[o]][o := []]
      else old(s.Views())[h := old(s.Views())[o]]
  {
    hide Owned, Full, Vectors, Total;
    if h == o || s.region(h) == s.region(o) {
      s.MoveAssign(h, o, nb);
    } else {
      s.Assign(h, o, nb);
    }
  }

  // ----- order

  /** `char_traits::compare` of two ranges of the same length. */
  function CompareBytes(a: seq<Byte>, b: seq<Byte>): (r: int)
    requires |a| == |b|
    ensures -1 <= r <= 1
  {
    if a == [] then 0
    else if a[0] < b[0] then -1
    else if a[0] > b[0] then 1
    else CompareBytes(a[1..], b[1..])
  }

  /** `compare`; `None` is the `out_of_range` exception. */
  function Compare(s: seq<Byte>, start: nat, count: nat, other: seq<Byte>): Option<int> {
    if start > |s| then None
    else
      var n := Min(count, |s| - start);
      var m := Min(n, |other|);
      var r := CompareBytes(s[start..start + m], other[..m]);
      Some(if r != 0 then r else if n < |other| then -1 else if n > |other| then 1 else 0)
  }

  /** The three-way operator. */
  function Order(a: seq<Byte>, b: seq<Byte>): int {
    Compare(a, 0, |a|, b).value
  }

  /** The order, one byte at a time. */
  lemma OrderStep(a: seq<Byte>, b: seq<Byte>)
    ensures Order(a, b) ==
      if a == [] || b == [] then (if |a| < |b| then -1 else if |a| > |b| then 1 else 0)
      else if a[0] < b[0] then -1
      else if a[0] > b[0] then 1
      else Order(a[1..], b[1..])
  {
    var m := Min(|a|, |b|);
    if m > 0 {
      assert a[..m][1..] == a[1..][..m - 1] && b[..m][1..] == b[1..][..m - 1];
    }
  }

  /** Only equal strings compare equal: the order agrees with `operator==`. */
  lemma {:induction false} OrderEqual(a: seq<Byte>, b: seq<Byte>)
    ensures Order(a, b) == 0 <==> a == b
    decreases |a|
  {
    OrderStep(a, b);
    if a != [] && b != [] {
      OrderEqual(a[1..], b[1..]);
      assert a == [a[0]] + a[1..] && b == [b[0]] + b[1..];
    }
  }

  lemma {:induction false} OrderReversed(a: seq<Byte>, b: seq<Byte>)
    ensures Order(b, a) == -Order(a, b)
    decreases |a|
  {
    OrderStep(a, b);
    OrderStep(b, a);
    if a != [] && b != [] {
      OrderReversed(a[1..], b[1..]);
    }
  }

  lemma {:induction false} OrderTransitive(a: seq<Byte>, b: seq<Byte>, c: seq<Byte>)
    requires Order(a, b) <= 0 && Order(b, c) <= 0
    ensures Order(a, c) <= 0
    ensures Order(a, b) < 0 || Order(b, c) < 0 ==> Order(a, c) < 0
    decreases |a|
  {
    OrderStep(a, b);
    OrderStep(b, c);
    OrderStep(a, c);
    if a != [] && b != [] && c != [] && a[0] == b[0] == c[0] {
      OrderTransitive(a[1..], b[1..], c[1..]);
    }
  }

  /** `a` comes first if and only if it is a proper prefix, or the first difference says so. */
  ghost predicate Before(a: seq<Byte>, b: seq<Byte>, i: nat) {
    i <= |a| && i < |b| && a[..i] == b[..i] && (i == |a| || a[i] < b[i])
  }

  lemma {:induction false} OrderLexicographic(a: seq<Byte>, b: seq<Byte>)
    ensures Order(a, b) < 0 <==> exists i: nat :: Before(a, b, i)
    decreases |a|
  {
    OrderStep(a, b);
    if a == [] || b == [] {
      assert b != [] ==> Before(a, b, 0);
    } else {
      OrderLexicographic(a[1..], b[1..]);
      if a[0] < b[0] {
        assert Before(a, b, 0);
      }
      if a[0] == b[0] && Order(a, b) < 0 {
        var i: nat :| Before(a[1..], b[1..], i);
        assert a[..i + 1] == [a[0]] + a[1..][..i] && b[..i + 1] == [b[0]] + b[1..][..i];
        assert Before(a, b, i + 1);
      }
      forall i: nat | Before(a, b, i) ensures Order(a, b) < 0 {
        if i > 0 {
          assert a[0] == a[..i][0] == b[..i][0] == b[0];
          assert a[1..][..i - 1] == a[..i][1..] && b[1..][..i - 1] == b[..i][1..];
          assert Before(a[1..], b[1..], i - 1);
        }
      }
    }
  }

  /** A comparison with a part of the string is the order of that part. */
  lemma ComparePart(s: seq<Byte>, start: nat, count: nat, other: seq<Byte>)
    ensures Compare(s, start, count, other).None? <==> start > |s|
    ensures start <= |s| ==>
      Compare(s, start, count, other) == Some(Order(s[start..start + Min(count, |s| - start)], other))
  {
    if start <= |s| {
      var part := s[start..start + Min(count, |s| - start)];
      var m := Min(|part|, |other|);
      assert part[..m] == s[start..start + m];
    }
  }
}
