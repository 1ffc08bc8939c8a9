/** `shared_cow_vector`: handles at addresses that share blocks until one of them writes. */
module CowVector {
  import opened Basics
  import opened CowModel

  /** Where `_alloc` copies from: nowhere, the elements of a block, or memory of the caller. */
  datatype Source<+T> = Nowhere | Inside(block: nat) | Outside(values: seq<T>)

  predicate Readable<T>(blocks: Blocks<T>, src: Source<T>, n: nat) {
    match src
    case Nowhere => n == 0
    case Inside(b) => b in blocks && n <= |blocks[b].data| && forall i | 0 <= i < n :: blocks[b].data[i].Built?
    case Outside(values) => n <= |values|
  }

  function Read<T>(blocks: Blocks<T>, src: Source<T>, n: nat): (r: seq<T>)
    requires Readable(blocks, src, n)
    ensures |r| == n
  {
    match src
    case Nowhere => []
    case Inside(b) => seq(n, i requires 0 <= i < n => blocks[b].data[i].value)
    case Outside(values) => values[..n]
  }

  function Raws<T>(n: nat): seq<Slot<T>> {
    seq(n, _ => Raw)
  }

  class Store<T(==)> {
    const region: nat -> nat  // the region that an address lies in
    var handles: Handles
    var blocks: Blocks<T>
    ghost var built: nat      // elements constructed and destroyed so far
    ghost var destroyed: nat

    ghost predicate Valid()
      reads this
    {
      Owned(handles, blocks, region) && built == destroyed + Total(blocks)
    }

    /** What every handle would hold if it were a vector of its own. */
    ghost function Views(): map<nat, seq<T>>
      requires Valid()
      reads this
    {
      Vectors(handles, blocks, region)
    }

    constructor (region: nat -> nat)
      ensures Valid() && handles == map[] && blocks == map[] && this.region == region
    {
      this.region := region;
      handles, blocks := map[], map[];
      built, destroyed := 0, 0;
    }

    // ----- elements

    /** Placement new: the place must be raw. */
    method Construct(b: nat, i: nat, v: T)
      requires b in blocks && i < |blocks[b].data| && blocks[b].data[i] == Raw
      modifies this`blocks, this`built
      ensures blocks == old(blocks)[b := old(blocks)[b].(data := old(blocks)[b].data[i := Built(v)])]
      ensures built == old(built) + 1
    {
      blocks := blocks[b := blocks[b].(data := blocks[b].data[i := Built(v)])];
      built := built + 1;
    }

    /** `std::destroy`: every element must have been constructed and not yet destroyed. */
    method Destroy(b: nat, from: nat)
      requires b in blocks && from <= |blocks[b].data| && forall i | from <= i < |blocks[b].data| ::
        blocks[b].data[i].Built?
      modifies this`blocks, this`destroyed
      ensures var x := old(blocks)[b];
        && blocks == old(blocks)[b := x.(data := x.data[..from] + Raws(|x.data| - from))]
        && destroyed == old(destroyed) + (|x.data| - from)
    {
      ghost var x := blocks[b];
      for i := from to |blocks[b].data|
        invariant b in blocks && blocks == old(blocks)[b := blocks[b]] && blocks[b] == x.(data := blocks[b].data)
        invariant blocks[b].data == x.data[..from] + Raws(i - from) + x.data[i..]
        invariant destroyed == old(destroyed) + (i - from)
      {
        blocks := blocks[b := blocks[b].(data := blocks[b].data[i := Raw])];
        destroyed := destroyed + 1;
      }
      assert blocks[b].data == x.data[..from] + Raws(|x.data| - from);
    }

    /** Constructs `values` from place `from` on. */
    method Fill(b: nat, from: nat, values: seq<T>)
      requires b in blocks && from + |values| <= |blocks[b].data|
      requires forall i | from <= i < from + |values| :: blocks[b].data[i] == Raw
      modifies this`blocks, this`built
      ensures var x := old(blocks)[b];
        && blocks == old(blocks)[b := x.(data := x.data[..from] + Filled(values) + x.data[from + |values|..])]
        && built == old(built) + |values|
    {
      ghost var x := blocks[b];
      for i := 0 to |values|
        invariant b in blocks && blocks == old(blocks)[b := blocks[b]] && blocks[b] == x.(data := blocks[b].data)
        invariant blocks[b].data == x.data[..from] + Filled(values[..i]) + x.data[from + i..]
        invariant built == old(built) + i
      {
        assert values[..i + 1] == values[..i] + [values[i]];
        assert Filled(values[..i + 1]) == Filled(values[..i]) + [Built(values[i])];
        Construct(b, from + i, values[i]);
      }
      assert values[..|values|] == values;
    }

    // ----- blocks

    /** A block goes back to the region it came from, once, and with no element left in it. */
    method Deallocate(b: nat, r: nat)
      requires b in blocks && blocks[b].region == r && blocks[b].data == Raws(|blocks[b].data|)
      modifies this`blocks
      ensures blocks == old(blocks) - {b}
    {
      blocks := blocks - {b};
    }

    /** `dec_refcount`; `_data` still points to the block. */
    method DecRefcount(h: nat)
      requires h in handles
      requires handles[h].Some? ==> var b := handles[h].value;
        b in blocks && blocks[b].refs > 0 && Full(blocks[b].data) && blocks[b].region == region(h)
      modifies this`blocks, this`destroyed
      ensures blocks == Released(old(blocks), handles[h])
      ensures destroyed == old(destroyed) + Freed(old(blocks), handles[h])
    {
      if handles[h].None? {
        return;
      }
      var b := handles[h].value;
      blocks := blocks[b := blocks[b].(refs := blocks[b].refs - 1)];
      if blocks[b].refs == 0 {
        Destroy(b, 0);
        Deallocate(b, region(h));
      }
    }

    /** `_alloc`: a new block of `size` places whose first `copied` are copied from `src`; the rest is
      * raw. `nb` is where the allocator puts it. */
    method Alloc(h: nat, src: Source<T>, size: nat, copied: nat, nb: nat)
      requires Owned(handles, blocks, region) && h in handles && nb !in blocks
      requires copied <= size && Readable(blocks, src, copied)
      modifies this`blocks, this`handles, this`built, this`destroyed
      ensures handles == old(handles)[h := if size == 0 then None else Some(nb)]
      ensures destroyed == old(destroyed) + Freed(old(blocks), old(handles)[h])
      ensures built == old(built) + copied
      ensures old(handles)[h].Some? ==>
        old(handles)[h].value in old(blocks) && old(blocks)[old(handles)[h].value].refs > 0
      ensures var r := Released(old(blocks), old(handles)[h]);
        blocks == if size == 0 then r
          else r[nb := Block(region(h), 1, Filled(Read(old(blocks), src, copied)) + Raws(size - copied))]
    {
      hide Full, Owned, Filled, Read, Readable, Raws, Released;
      OwnedBlock(handles, blocks, region, h);
      ghost var bl := blocks;
      var newData: Option<nat> := None;
      if size > 0 {
        blocks := blocks[nb := Block(region(h), 1, Raws(size))];
        newData := Some(nb);
        ReadElsewhere(bl, src, copied, nb, blocks[nb]);
        RawParts(Read(blocks, src, copied), size);
        Fill(nb, 0, Read(blocks, src, copied));
        ReleasedElsewhere(bl, handles[h], nb, blocks[nb]);
        assert blocks == bl[nb := blocks[nb]];
      }
      DecRefcount(h);
      handles := handles[h := newData];
    }

    // ----- constructors and destructor

    /** The constructors from a range. */
    method ConstructRange(h: nat, values: seq<T>, nb: nat)
      requires Valid() && h !in handles && nb !in blocks
      modifies this
      ensures Valid() && Views() == old(Views())[h := values]
    {
      hide Owned, Full, Vectors;
      AcquiredOwned(handles, blocks, region, h, None);
      handles := handles[h := None];
      AllocRange(h, Outside(values), values, nb);
    }

    /** `_alloc` of a whole range. */
    method AllocRange(h: nat, src: Source<T>, ghost values: seq<T>, nb: nat)
      requires Valid() && h in handles && nb !in blocks && Readable(blocks, src, |values|)
      requires Read(blocks, src, |values|) == values
      requires src.Outside? ==> |src.values| == |values|
      requires src.Inside? ==> src.block in blocks && |blocks[src.block].data| == |values|
      requires src.Nowhere? ==> values == []
      modifies this
      ensures Valid() && Views() == old(Views())[h := values]
      ensures handles == old(handles)[h := if values == [] then None else Some(nb)]
    {
      hide Owned, Full, Vectors, Total, Freed;
      ghost var hs, bl := handles, blocks;
      var n := match src case Nowhere => 0 case Inside(b) => |blocks[b].data| case Outside(v) => |v|;
      Alloc(h, src, n, n, nb);
      if n == 0 {
        MovedOwned(hs, bl, region, h, None);
      } else {
        ReplacedOwned(hs, bl, region, h, nb, Filled(values));
        assert Filled(values) + Raws(0) == Filled(values);
      }
    }

    /** The copy constructor. */
    method CopyConstruct(h: nat, o: nat, nb: nat)
      requires Valid() && h !in handles && o in handles && nb !in blocks
      modifies this
      ensures Valid() && o in old(Views()) && Views() == old(Views())[h := old(Views())[o]]
      // within a region the block is shared
      ensures region(h) == region(o) ==> handles == old(handles)[h := old(handles)[o]] && built == old(built)
    {
      hide Owned, Full, Vectors, Total;
      OwnedBlock(handles, blocks, region, o);
      if region(h) == region(o) {
        AcquiredOwned(handles, blocks, region, h, handles[o]);
        handles := handles[h := handles[o]];
        if handles[h].Some? {
          var b := handles[h].value;
          blocks := blocks[b := blocks[b].(refs := blocks[b].refs + 1)];
        }
      } else {
        AcquiredOwned(handles, blocks, region, h, None);
        ghost var value := Views()[o];
        handles := handles[h := None];
        if handles[o].Some? {
          ReadWhole(blocks, handles[o].value);
          AllocRange(h, Inside(handles[o].value), value, nb);
        }
      }
    }

    /** The move constructor; across regions it copies, and the source keeps its value. */
    method MoveConstruct(h: nat, o: nat, nb: nat)
      requires Valid() && h !in handles && o in handles && nb !in blocks
      modifies this
      ensures Valid() && o in old(Views())
      ensures Views() == if region(h) == region(o) then old(Views())[h := old(Views())[o]][o := []]
        else old(Views())[h := old(Views())[o]]
      ensures region(h) == region(o) ==> handles == old(handles)[h := old(handles)[o]][o := None] && built == old(built)
    {
      hide Owned, Full, Vectors, Total;
      OwnedBlock(handles, blocks, region, o);
      if region(h) == region(o) {
        TakenOwned(handles, blocks, region, h, o);
        handles := handles[h := handles[o]];
        handles := handles[o := None];
      } else {
        CopyConstruct(h, o, nb);
      }
    }

    /** The destructor. */
    method Destruct(h: nat)
      requires Valid() && h in handles
      modifies this
      ensures Valid() && Views() == old(Views()) - {h}
    {
      hide Owned, Full, Vectors, Total, Freed;
      OwnedBlock(handles, blocks, region, h);
      ReleasedOwned(handles, blocks, region, h);
      ReleasedTotal(blocks, handles[h]);
      DecRefcount(h);
      handles := handles - {h};
    }

    // ----- assignment

    /** Copy assignment. */
    method Assign(h: nat, o: nat, nb: nat)
      requires Valid() && h in handles && o in handles && nb !in blocks
      modifies this
      ensures Valid() && o in old(Views()) && Views() == old(Views())[h := old(Views())[o]]
      ensures region(h) == region(o) ==> handles == old(handles)[h := old(handles)[o]] && built == old(built)
    {
      hide Owned, Full, Vectors, Total, Freed;
      OwnedBlock(handles, blocks, region, o);
      OwnedBlock(handles, blocks, region, h);
      if h == o {
        assert Views() == old(Views())[h := old(Views())[o]];
        return;
      }
      if region(h) == region(o) {
        OtherKept(handles, blocks, region, h, o);
        MovedOwned(handles, blocks, region, h, handles[o]);
        DecRefcount(h);
        handles := handles[h := handles[o]];
        if handles[h].Some? {
          var b := handles[h].value;
          blocks := blocks[b := blocks[b].(refs := blocks[b].refs + 1)];
        }
      } else {
        if handles[o].Some? {
          ReadWhole(blocks, handles[o].value);
        }
        AssignRange(h, if handles[o].Some? then Inside(handles[o].value) else Nowhere, Views()[o], nb);
      }
    }

    /** `_assign`: writes in place if the handle is the only user of a block of the right size. */
    method AssignRange(h: nat, src: Source<T>, ghost values: seq<T>, nb: nat)
      requires Valid() && h in handles && nb !in blocks && Readable(blocks, src, |values|)
      requires Read(blocks, src, |values|) == values
      requires src.Outside? ==> |src.values| == |values|
      requires src.Inside? ==> src.block in blocks && |blocks[src.block].data| == |values|
      modifies this
      ensures Valid() && Views() == old(Views())[h := values]
      // in place if the handle is the only user of a block of the right size
      ensures var d := old(handles)[h];
        && (d.Some? ==> d.value in old(blocks))
        && handles == old(handles)[h :=
             if d.Some? && old(blocks)[d.value].refs == 1 && |old(blocks)[d.value].data| == |values| then d
             else if |values| == 0 then None else Some(nb)]
    {
      hide Owned, Full, Vectors, Total;
      OwnedBlock(handles, blocks, region, h);
      var n := match src case Nowhere => 0 case Inside(b) => |blocks[b].data| case Outside(v) => |v|;
      if handles[h].Some? && blocks[handles[h].value].refs == 1 && |blocks[handles[h].value].data| == n {
        RewrittenOwned(handles, blocks, region, h, Filled(values));
        Overwrite(handles[h].value, src, n);
      } else {
        AllocRange(h, src, values, nb);
      }
    }

    /** `std::copy` onto the elements of a block. */
    method Overwrite(b: nat, src: Source<T>, n: nat)
      requires b in blocks && |blocks[b].data| == n && Readable(blocks, src, n)
      modifies this`blocks
      ensures blocks == old(blocks)[b := old(blocks)[b].(data := Filled(Read(old(blocks), src, n)))]
    {
      hide Read, Readable;
      var values := Read(blocks, src, n);
      ghost var x := blocks[b];
      for i := 0 to n
        invariant b in blocks && blocks == old(blocks)[b := blocks[b]] && blocks[b] == x.(data := blocks[b].data)
        invariant blocks[b].data == Filled(values[..i]) + x.data[i..]
      {
        assert Filled(values[..i + 1]) == Filled(values[..i]) + [Built(values[i])];
        blocks := blocks[b := blocks[b].(data := blocks[b].data[i := Built(values[i])])];
      }
      assert values[..n] == values;
      assert blocks[b].data == Filled(values);
    }

    /** Move assignment; across regions it copies. */
    method MoveAssign(h: nat, o: nat, nb: nat)
      requires Valid() && h in handles && o in handles && nb !in blocks
      modifies this
      ensures Valid() && o in old(Views())
      ensures Views() ==
        if h == o then old(Views())
        else if region(h) == region(o) then old(Views())[h := old(Views())[o]][o := []]
        else old(Views())[h := old(Views())[o]]
      ensures h != o && region(h) == region(o) ==> handles == old(handles)[h := old(handles)[o]][o := None]
    {
      hide Owned, Full, Vectors, Total, Freed;
      OwnedBlock(handles, blocks, region, o);
      OwnedBlock(handles, blocks, region, h);
      if h == o {
        return;
      }
      if region(h) == region(o) {
        ReleasedOwned(handles, blocks, region, h);
        ReleasedTotal(blocks, handles[h]);
        TakenOwned(handles - {h}, Released(blocks, handles[h]), region, h, o);
        DecRefcount(h);
        ghost var rest: Handles := handles - {h};
        handles := handles[h := handles[o]];
        handles := handles[o := None];
        ghost var moved: Handles := rest[h := rest[o]];
        assert handles == moved[o := None];
        Restored(old(Views()), h, o);
      } else {
        var values := if handles[o].None? then []
          else Read(blocks, Inside(handles[o].value), |blocks[handles[o].value].data|);
        assert values == Views()[o];
        ClearAndConstruct(h, |values|, 0, values, nb);
        assert old(Views())[h][..0] + values == values;
      }
    }

    /** `clear` */
    method Clear(h: nat)
      requires Valid() && h in handles
      modifies this
      ensures Valid() && Views() == old(Views())[h := []]
    {
      hide Owned, Full, Vectors, Total, Freed;
      OwnedBlock(handles, blocks, region, h);
      MovedOwned(handles, blocks, region, h, None);
      DecRefcount(h);
      handles := handles[h := None];
    }

    /** First part of `clear_and_construct`: makes room behind the first `kept` elements, in the block
      * itself if the handle is its only user and the size is right. `result` is what will be there. */
    method MakeRoom(h: nat, size: nat, kept: nat, nb: nat, ghost result: seq<T>)
      requires Valid() && h in handles && nb !in blocks && h in Views()
      requires kept <= size == |result| && kept <= |Views()[h]| && result[..kept] == Views()[h][..kept]
      modifies this
      // in place if the handle is the only user of a block of the right size
      ensures var d := old(handles)[h];
        && (d.Some? ==> d.value in old(blocks))
        && handles == old(handles)[h :=
             if d.Some? && old(blocks)[d.value].refs == 1 && |old(blocks)[d.value].data| == size then d
             else if size == 0 then None else Some(nb)]
      ensures handles[h].Some? <==> size > 0
      ensures size == 0 ==> Valid() && Views() == old(Views())[h := result]
      ensures size > 0 ==> var b := handles[h].value;
        && b in blocks && blocks[b].data == Filled(result[..kept]) + Raws(size - kept)
        && var r := blocks[b := blocks[b].(data := Filled(result))];
           && Owned(handles, r, region) && Vectors(handles, r, region) == old(Views())[h := result]
           && built + (size - kept) == destroyed + Total(r)
    {
      hide Owned, Full, Vectors, Total, Freed, Filled;
      OwnedBlock(handles, blocks, region, h);
      ghost var hs, bl := handles, blocks;
      if handles[h].Some? && blocks[handles[h].value].refs == 1 && |blocks[handles[h].value].data| == size {
        var b := handles[h].value;
        RewrittenOwned(handles, blocks, region, h, Filled(result));
        KeptPart(blocks[b].data, result, kept);
        Destroy(b, kept);
        assert blocks[b := blocks[b].(data := Filled(result))] == bl[b := bl[b].(data := Filled(result))];
      } else {
        if handles[h].Some? {
          ReadKept(blocks, handles[h].value, result, kept);
        }
        Alloc(h, if handles[h].Some? then Inside(handles[h].value) else Nowhere, size, kept, nb);
        if size == 0 {
          MovedOwned(hs, bl, region, h, None);
          assert result == [];
        } else {
          ReplacedOwned(hs, bl, region, h, nb, Filled(result));
          assert blocks[nb := blocks[nb].(data := Filled(result))] ==
            Released(bl, hs[h])[nb := Block(region(h), 1, Filled(result))];
        }
      }
    }

    /** `clear_and_construct`: keeps the first `kept` elements and constructs `values` behind them. */
    method ClearAndConstruct(h: nat, size: nat, kept: nat, values: seq<T>, nb: nat)
      requires Valid() && h in handles && nb !in blocks && size == kept + |values|
      requires h in Views() && kept <= |Views()[h]|
      modifies this
      ensures Valid() && Views() == old(Views())[h := old(Views())[h][..kept] + values]
      // in place if the handle is the only user of a block of the right size
      ensures var d := old(handles)[h];
        && (d.Some? ==> d.value in old(blocks))
        && handles == old(handles)[h :=
             if d.Some? && old(blocks)[d.value].refs == 1 && |old(blocks)[d.value].data| == size then d
             else if size == 0 then None else Some(nb)]
    {
      hide Owned, Full, Vectors, Total, Filled;
      ghost var result := Views()[h][..kept] + values;
      MakeRoom(h, size, kept, nb, result);
      if size > 0 {
        var b := handles[h].value;
        ghost var before := blocks;
        Fill(b, kept, values);
        FilledParts(result, kept, values);
        assert blocks == before[b := before[b].(data := Filled(result))];
      }
    }

    /** `emplace_back` */
    method EmplaceBack(h: nat, v: T, nb: nat)
      requires Valid() && h in handles && nb !in blocks
      modifies this
      ensures Valid() && h in old(Views()) && Views() == old(Views())[h := old(Views())[h] + [v]]
      ensures handles == old(handles)[h := Some(nb)]
    {
      hide Owned, Full, Vectors, Total;
      OwnedBlock(handles, blocks, region, h);
      var size := if handles[h].None? then 0 else |blocks[handles[h].value].data|;
      assert Views()[h][..size] == Views()[h];
      ClearAndConstruct(h, size + 1, size, [v], nb);
    }

    // ----- comparison

    /** `operator==`: sharing a block decides at once. */
    method Equal(h: nat, o: nat) returns (r: bool)
      requires Valid() && h in handles && o in handles
      ensures h in Views() && o in Views() && (r <==> Views()[h] == Views()[o])
    {
      hide Owned, Full, Vectors, Total;
      OwnedBlock(handles, blocks, region, h);
      OwnedBlock(handles, blocks, region, o);
      if handles[h] == handles[o] {
        return true;
      }
      var n := if handles[h].None? then 0 else |blocks[handles[h].value].data|;
      if n != if handles[o].None? then 0 else |blocks[handles[o].value].data| {
        return false;
      }
      if n == 0 {
        return true;
      }
      var a, b := blocks[handles[h].value].data, blocks[handles[o].value].data;
      for i := 0 to n
        invariant forall j | 0 <= j < i :: a[j] == b[j]
      {
        if a[i] != b[i] {
          assert Contents(a)[i] != Contents(b)[i];
          return false;
        }
      }
      assert Contents(a) == Contents(b);
      return true;
    }
  }

  lemma ReadWhole<T>(blocks: Blocks<T>, b: nat)
    requires b in blocks && Full(blocks[b].data)
    ensures Readable(blocks, Inside(b), |blocks[b].data|)
    ensures Read(blocks, Inside(b), |blocks[b].data|) == Contents(blocks[b].data)
  {}

  lemma RawParts<T>(values: seq<T>, size: nat)
    requires |values| <= size
    ensures forall i | 0 <= i < size :: Raws<T>(size)[i] == Raw
    ensures |Raws<T>(size)| == size
    ensures Raws<T>(size)[..0] + Filled(values) + Raws<T>(size)[|values|..] == Filled(values) + Raws(size - |values|)
  {}

  lemma ReadElsewhere<T>(blocks: Blocks<T>, src: Source<T>, n: nat, b: nat, x: Block<T>)
    requires Readable(blocks, src, n) && b !in blocks
    ensures Readable(blocks[b := x], src, n) && Read(blocks[b := x], src, n) == Read(blocks, src, n)
  {}

  lemma ReleasedElsewhere<T>(blocks: Blocks<T>, d: Option<nat>, b: nat, x: Block<T>)
    requires (d.Some? ==> d.value in blocks && blocks[d.value].refs > 0) && b !in blocks
    ensures Released(blocks[b := x], d) == Released(blocks, d)[b := x]
  {}

  lemma FilledParts<T>(result: seq<T>, kept: nat, values: seq<T>)
    requires kept <= |result| && values == result[kept..]
    ensures var d := Filled(result[..kept]) + Raws(|values|);
      d[..kept] + Filled(values) + d[kept + |values|..] == Filled(result)
  {}

  lemma KeptPart<T>(data: seq<Slot<T>>, result: seq<T>, kept: nat)
    requires Full(data) && kept <= |data| == |result| && Contents(data)[..kept] == result[..kept]
    ensures data[..kept] + Raws(|data| - kept) == Filled(result[..kept]) + Raws(|result| - kept)
  {
    assert forall i | 0 <= i < kept :: data[i] == Built(Contents(data)[..kept][i]);
  }

  lemma ReadKept<T>(blocks: Blocks<T>, b: nat, result: seq<T>, kept: nat)
    requires b in blocks && Full(blocks[b].data) && kept <= |blocks[b].data| && kept <= |result|
    requires Contents(blocks[b].data)[..kept] == result[..kept]
    ensures Readable(blocks, Inside(b), kept) && Read(blocks, Inside(b), kept) == result[..kept]
  {
    assert forall i | 0 <= i < kept :: blocks[b].data[i] == Built(Contents(blocks[b].data)[..kept][i]);
  }

  /** The block of another handle survives when `h` lets go of its own. */
  lemma OtherKept<T>(handles: Handles, blocks: Blocks<T>, region: nat -> nat, h: nat, o: nat)
    requires Owned(handles, blocks, region) && h in handles && o in handles && h != o
    ensures handles[h].Some? ==> handles[h].value in blocks && blocks[handles[h].value].refs > 0
    ensures handles[o].Some? ==> var r := Released(blocks, handles[h]);
      handles[o].value in r && r[handles[o].value].region == region(o) && handles[o].value in blocks
  {
    hide Full, Users;
    ReleasedOwned(handles, blocks, region, h);
    assert o in handles - {h};
  }

  /** A handle takes over the block of another. */
  lemma TakenOwned<T>(handles: Handles, blocks: Blocks<T>, region: nat -> nat, h: nat, o: nat)
    requires Owned(handles, blocks, region) && h !in handles && o in handles && region(h) == region(o)
    ensures var r := handles[h := handles[o]][o := None];
      && Owned(r, blocks, region) && o in Vectors(handles, blocks, region)
      && Vectors(r, blocks, region) ==
        Vectors(handles, blocks, region)[h := Vectors(handles, blocks, region)[o]][o := []]
  {
    hide Full, Contents, Users;
    var r := handles[h := handles[o]][o := None];
    forall b | b in blocks ensures |Users(r, b)| == |Users(handles, b)| {
      UsersLess(handles, o, b);
      assert r == (handles - {o})[h := handles[o]][o := None];
      UsersMore(handles - {o}, h, handles[o], b);
      UsersMore((handles - {o})[h := handles[o]], o, None, b);
    }
    forall x | x in r && x != h && x != o ensures ValueOf(r, blocks, x) == ValueOf(handles, blocks, x) {}
  }

  lemma Restored<T>(v: map<nat, seq<T>>, h: nat, o: nat)
    requires h in v && o in v && h != o
    ensures (v - {h})[h := (v - {h})[o]][o := []] == v[h := v[o]][o := []]
  {}
}
