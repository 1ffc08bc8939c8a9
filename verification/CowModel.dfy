/** Blocks with reference counts, and the handles that share them. */
module CowModel {
  import opened Basics

  /** A place for one element: raw memory, or an element that has been constructed. */
  datatype Slot<+T> = Raw | Built(value: T)

  /** `impl`; a block remembers the region it was allocated in. */
  datatype Block<+T> = Block(region: nat, refs: nat, data: seq<Slot<T>>)

  type Blocks<T> = map<nat, Block<T>>

  /** The handles by address, each with its `_data`. */
  type Handles = map<nat, Option<nat>>

  predicate Full<T>(data: seq<Slot<T>>) {
    forall i | 0 <= i < |data| :: data[i].Built?
  }

  function Contents<T>(data: seq<Slot<T>>): (r: seq<T>)
    requires Full(data)
    ensures |r| == |data| && forall i | 0 <= i < |r| :: data[i] == Built(r[i])
  {
    seq(|data|, i requires 0 <= i < |data| => data[i].value)
  }

  function Filled<T>(values: seq<T>): (r: seq<Slot<T>>)
    ensures |r| == |values| && Full(r) && Contents(r) == values
  {
    seq(|values|, i requires 0 <= i < |values| => Built(values[i]))
  }

  function Users(handles: Handles, b: nat): set<nat> {
    set h | h in handles && handles[h] == Some(b)
  }

  /** Every block is full, not empty, and counts the handles that use it, of which there is one at
    * least; a handle uses a block of its own region. */
  ghost predicate Owned<T>(handles: Handles, blocks: Blocks<T>, region: nat -> nat) {
    && (forall h | h in handles && handles[h].Some? ::
          handles[h].value in blocks && blocks[handles[h].value].region == region(h))
    && (forall b | b in blocks ::
          Full(blocks[b].data) && |blocks[b].data| > 0 && blocks[b].refs == |Users(handles, b)| > 0)
  }

  /** The vector that `h` stands for. */
  function ValueOf<T>(handles: Handles, blocks: Blocks<T>, h: nat): seq<T>
    requires h in handles && (handles[h].Some? ==> handles[h].value in blocks && Full(blocks[handles[h].value].data))
  {
    if handles[h].None? then [] else Contents(blocks[handles[h].value].data)
  }

  ghost function Vectors<T>(handles: Handles, blocks: Blocks<T>, region: nat -> nat): map<nat, seq<T>>
    requires Owned(handles, blocks, region)
  {
    map h | h in handles :: ValueOf(handles, blocks, h)
  }

  /** The number of elements in all blocks. */
  ghost function Total<T>(blocks: Blocks<T>): nat {
    if blocks == map[] then 0 else
      var b :| b in blocks;
      |blocks[b].data| + Total(blocks - {b})
  }

  lemma {:induction false} TotalRemove<T>(blocks: Blocks<T>, b: nat)
    requires b in blocks
    ensures Total(blocks) == |blocks[b].data| + Total(blocks - {b})
  {
    var c :| c in blocks && Total(blocks) == |blocks[c].data| + Total(blocks - {c});
    if c != b {
      TotalRemove(blocks - {c}, b);
      TotalRemove(blocks - {b}, c);
      assert blocks - {c} - {b} == blocks - {b} - {c};
    }
  }

  lemma TotalPut<T>(blocks: Blocks<T>, b: nat, x: Block<T>)
    ensures Total(blocks[b := x]) == Total(blocks - {b}) + |x.data|
    ensures b !in blocks ==> Total(blocks[b := x]) == Total(blocks) + |x.data|
    ensures b in blocks ==> Total(blocks[b := x]) == Total(blocks) - |blocks[b].data| + |x.data|
  {
    TotalRemove(blocks[b := x], b);
    assert blocks[b := x] - {b} == blocks - {b};
    if b in blocks {
      TotalRemove(blocks, b);
    } else {
      assert blocks - {b} == blocks;
    }
  }

  // ----- the four ways in which blocks and handles change

  /** `dec_refcount` */
  function Released<T>(blocks: Blocks<T>, d: Option<nat>): Blocks<T>
    requires d.Some? ==> d.value in blocks && blocks[d.value].refs > 0
  {
    if d.None? then blocks
    else if blocks[d.value].refs == 1 then blocks - {d.value}
    else blocks[d.value := blocks[d.value].(refs := blocks[d.value].refs - 1)]
  }

  /** `++reference_count` */
  function Acquired<T>(blocks: Blocks<T>, d: Option<nat>): Blocks<T>
    requires d.Some? ==> d.value in blocks
  {
    if d.None? then blocks else blocks[d.value := blocks[d.value].(refs := blocks[d.value].refs + 1)]
  }

  lemma UsersLess(handles: Handles, h: nat, b: nat)
    requires h in handles
    ensures Users(handles - {h}, b) == Users(handles, b) - {h}
    ensures |Users(handles - {h}, b)| == |Users(handles, b)| - if handles[h] == Some(b) then 1 else 0
  {
    assert Users(handles - {h}, b) == Users(handles, b) - {h};
    if handles[h] == Some(b) {
      assert h in Users(handles, b);
    } else {
      assert h !in Users(handles, b);
    }
  }

  lemma UsersMore(handles: Handles, h: nat, d: Option<nat>, b: nat)
    requires h !in handles
    ensures |Users(handles[h := d], b)| == |Users(handles, b)| + if d == Some(b) then 1 else 0
  {
    assert handles[h := d] - {h} == handles;
    UsersLess(handles[h := d], h, b);
  }

  lemma ReleasedOwned<T>(handles: Handles, blocks: Blocks<T>, region: nat -> nat, h: nat)
    requires Owned(handles, blocks, region) && h in handles
    ensures handles[h].Some? ==>
      handles[h].value in blocks && blocks[handles[h].value].refs > 0 && Full(blocks[handles[h].value].data)
    ensures var r := Released(blocks, handles[h]);
      Owned(handles - {h}, r, region) && Vectors(handles - {h}, r, region) == Vectors(handles, blocks, region) - {h}
  {
    hide Full, Contents, Users, Total;
    var r := Released(blocks, handles[h]);
    forall b | b in blocks && handles[h] != Some(b) ensures |Users(handles - {h}, b)| == |Users(handles, b)| {
      UsersLess(handles, h, b);
    }
    if handles[h].Some? {
      var b := handles[h].value;
      UsersLess(handles, h, b);
      if blocks[b].refs == 1 {
        SoleUser(handles, h, b);
      }
    }
    SameValues(handles, blocks, handles - {h}, r, region, {h});
  }

  /** The number of elements that releasing a block destroys. */
  function Freed<T>(blocks: Blocks<T>, d: Option<nat>): nat {
    if d.Some? && d.value in blocks && blocks[d.value].refs == 1 then |blocks[d.value].data| else 0
  }

  lemma ReleasedTotal<T>(blocks: Blocks<T>, d: Option<nat>)
    requires d.Some? ==> d.value in blocks && blocks[d.value].refs > 0
    ensures Total(Released(blocks, d)) == Total(blocks) - Freed(blocks, d)
  {
    if d.Some? {
      TotalRemove(blocks, d.value);
      TotalPut(blocks, d.value, blocks[d.value].(refs := blocks[d.value].refs - 1));
    }
  }

  lemma SoleUser(handles: Handles, h: nat, b: nat)
    requires h in handles && handles[h] == Some(b) && |Users(handles, b)| == 1
    ensures forall x | x in handles && x != h :: handles[x] != Some(b)
  {
    forall x | x in handles && x != h ensures handles[x] != Some(b) {
      UsersLess(handles, h, b);
      assert x in Users(handles - {h}, b) ==> |Users(handles - {h}, b)| > 0;
    }
  }

  /** Handles whose blocks keep their data keep their values. */
  lemma SameValues<T>(handles: Handles, blocks: Blocks<T>, handles': Handles, blocks': Blocks<T>,
      region: nat -> nat, gone: set<nat>)
    requires Owned(handles, blocks, region) && Owned(handles', blocks', region)
    requires handles'.Keys == handles.Keys - gone
    requires forall h | h in handles' :: handles'[h] == handles[h]
    requires forall h | h in handles' && handles[h].Some? ::
      blocks'[handles[h].value].data == blocks[handles[h].value].data
    ensures Vectors(handles', blocks', region) == Vectors(handles, blocks, region) - gone
  {
    hide Full, Contents, Users;
    forall h | h in handles' ensures ValueOf(handles', blocks', h) == ValueOf(handles, blocks, h) {}
  }

  /** One handle gets a value, and the others keep theirs. */
  lemma OneValue<T>(handles: Handles, blocks: Blocks<T>, handles': Handles, blocks': Blocks<T>,
      region: nat -> nat, h: nat)
    requires Owned(handles, blocks, region) && Owned(handles', blocks', region) && h in handles'
    requires handles'.Keys == handles.Keys + {h}
    requires forall x | x in handles' && x != h :: handles'[x] == handles[x]
    requires forall x | x in handles' && x != h && handles[x].Some? ::
      blocks'[handles[x].value].data == blocks[handles[x].value].data
    ensures Vectors(handles', blocks', region) == Vectors(handles, blocks, region)[h := ValueOf(handles', blocks', h)]
  {
    hide Full, Contents, Users;
    forall x | x in handles' && x != h ensures ValueOf(handles', blocks', x) == ValueOf(handles, blocks, x) {}
  }

  lemma AcquiredOwned<T>(handles: Handles, blocks: Blocks<T>, region: nat -> nat, h: nat, d: Option<nat>)
    requires Owned(handles, blocks, region) && h !in handles
    requires d.Some? ==> d.value in blocks && blocks[d.value].region == region(h)
    ensures var r := Acquired(blocks, d);
      && Owned(handles[h := d], r, region) && Total(r) == Total(blocks)
      && Vectors(handles[h := d], r, region) ==
         Vectors(handles, blocks, region)[h := if d.None? then [] else Contents(blocks[d.value].data)]
  {
    hide Full, Contents, Users, Total;
    var r := Acquired(blocks, d);
    forall b | b in r ensures r[b].refs == |Users(handles[h := d], b)| > 0 {
      UsersMore(handles, h, d, b);
    }
    if d.Some? {
      TotalPut(blocks, d.value, r[d.value]);
    }
    assert Owned(handles[h := d], r, region);
    OneValue(handles, blocks, handles[h := d], r, region, h);
  }

  lemma FreshOwned<T>(handles: Handles, blocks: Blocks<T>, region: nat -> nat, h: nat, b: nat, data: seq<Slot<T>>)
    requires Owned(handles, blocks, region) && h !in handles && b !in blocks && Full(data) && |data| > 0
    ensures var r := blocks[b := Block(region(h), 1, data)];
      && Owned(handles[h := Some(b)], r, region) && Total(r) == Total(blocks) + |data|
      && Vectors(handles[h := Some(b)], r, region) == Vectors(handles, blocks, region)[h := Contents(data)]
  {
    hide Full, Contents, Total;
    var r := blocks[b := Block(region(h), 1, data)];
    forall c | c in r ensures r[c].refs == |Users(handles[h := Some(b)], c)| > 0 {
      UsersMore(handles, h, Some(b), c);
      if c == b {
        assert Users(handles, b) == {};
      }
    }
    TotalPut(blocks, b, r[b]);
    assert Owned(handles[h := Some(b)], r, region);
    OneValue(handles, blocks, handles[h := Some(b)], r, region, h);
  }

  /** Writing in place is safe in a block with one user. */
  lemma RewrittenOwned<T>(handles: Handles, blocks: Blocks<T>, region: nat -> nat, h: nat, data: seq<Slot<T>>)
    requires Owned(handles, blocks, region) && h in handles && handles[h].Some? && Full(data) && |data| > 0
    requires blocks[handles[h].value].refs == 1
    ensures var b := handles[h].value;
      var r := blocks[b := blocks[b].(data := data)];
      && Owned(handles, r, region) && Total(r) == Total(blocks) - |blocks[b].data| + |data|
      && Vectors(handles, r, region) == Vectors(handles, blocks, region)[h := Contents(data)]
  {
    var b := handles[h].value;
    var r := blocks[b := blocks[b].(data := data)];
    TotalPut(blocks, b, r[b]);
    SoleUser(handles, h, b);
    assert Owned(handles, r, region);
    OneValue(handles, blocks, handles, r, region, h);
  }

  /** A handle moves to a new block. */
  lemma ReplacedOwned<T>(handles: Handles, blocks: Blocks<T>, region: nat -> nat, h: nat, b: nat, data: seq<Slot<T>>)
    requires Owned(handles, blocks, region) && h in handles && b !in blocks && Full(data) && |data| > 0
    ensures handles[h].Some? ==> handles[h].value in blocks && blocks[handles[h].value].refs > 0
    ensures var r := Released(blocks, handles[h])[b := Block(region(h), 1, data)];
      && Owned(handles[h := Some(b)], r, region) && Total(r) == Total(blocks) - Freed(blocks, handles[h]) + |data|
      && Vectors(handles[h := Some(b)], r, region) == Vectors(handles, blocks, region)[h := Contents(data)]
  {
    hide Owned, Vectors, Full, Contents, Total, Freed;
    var rest := handles - {h};
    OwnedBlock(handles, blocks, region, h);
    ReleasedOwned(handles, blocks, region, h);
    ReleasedTotal(blocks, handles[h]);
    FreshOwned(rest, Released(blocks, handles[h]), region, h, b, data);
    assert rest[h := Some(b)] == handles[h := Some(b)];
    var v := Vectors(handles, blocks, region);
    assert (v - {h})[h := Contents(data)] == v[h := Contents(data)];
  }

  lemma OwnedBlock<T>(handles: Handles, blocks: Blocks<T>, region: nat -> nat, h: nat)
    requires Owned(handles, blocks, region) && h in handles
    ensures handles[h].Some? ==> handles[h].value in blocks
    ensures handles[h].Some? ==> var x := blocks[handles[h].value];
      x.refs > 0 && x.region == region(h) && Full(x.data) && |x.data| > 0
    ensures h in Vectors(handles, blocks, region)
    ensures Vectors(handles, blocks, region)[h] == if handles[h].None? then []
      else Contents(blocks[handles[h].value].data)
  {}

  /** A handle lets go of its block and shares another, or none. */
  lemma MovedOwned<T>(handles: Handles, blocks: Blocks<T>, region: nat -> nat, h: nat, d: Option<nat>)
    requires Owned(handles, blocks, region) && h in handles
    requires handles[h].Some? ==> handles[h].value in blocks && blocks[handles[h].value].refs > 0
    requires d.Some? ==> var r := Released(blocks, handles[h]);
      d.value in r && r[d.value].region == region(h)
    ensures var r := Acquired(Released(blocks, handles[h]), d);
      && Owned(handles[h := d], r, region) && Total(r) == Total(blocks) - Freed(blocks, handles[h])
      && (d.Some? ==> d.value in blocks && Full(blocks[d.value].data))
      && Vectors(handles[h := d], r, region) ==
        Vectors(handles, blocks, region)[h := if d.None? then [] else Contents(blocks[d.value].data)]
  {
    hide Owned, Vectors, Full, Contents, Total, Freed, Users;
    var rest, r := handles - {h}, Released(blocks, handles[h]);
    ReleasedOwned(handles, blocks, region, h);
    ReleasedTotal(blocks, handles[h]);
    AcquiredOwned(rest, r, region, h, d);
    assert rest[h := d] == handles[h := d];
    if d.Some? {
      OwnedFull(rest, r, region, d.value);
    }
    var v, x := Vectors(handles, blocks, region), if d.None? then [] else Contents(r[d.value].data);
    assert (v - {h})[h := x] == v[h := x];
  }

  lemma OwnedFull<T>(handles: Handles, blocks: Blocks<T>, region: nat -> nat, b: nat)
    requires Owned(handles, blocks, region) && b in blocks
    ensures Full(blocks[b].data)
  {}

  /** When the last handle is gone, so is every block: nothing leaks. */
  lemma NothingLeft<T>(blocks: Blocks<T>, region: nat -> nat)
    requires Owned(map[], blocks, region)
    ensures blocks == map[] && Total(blocks) == 0
  {
    forall b: nat ensures |Users(map[], b)| == 0 {
      assert Users(map[], b) == {};
    }
  }
}
