/** Objects, table rows and the uniqueness rule shared by every table. */
module Tables {

  /** An object without its id: what its secondary indices see of it, and the rest. */
  datatype Value = Value(keys: seq<int>, payload: int)

  /** The key that secondary index `k` extracts from an object. */
  function Key(v: Value, k: nat): int {
    if k < |v.keys| then v.keys[k] else 0
  }

  /** A node of the table: its object and the time stamp `_mtime`. */
  datatype Row = Row(value: Value, mtime: nat)

  type Table = map<nat, Row>

  /** No row of `t` shares a key with `v` in any of the `width` secondary indices. */
  ghost predicate Fits(t: Table, v: Value, width: nat) {
    forall id, k: nat | id in t && k < width :: Key(t[id].value, k) != Key(v, k)
  }

  /** Every secondary index of `t` is unique. */
  ghost predicate Unique(t: Table, width: nat) {
    forall id, other, k: nat | id in t && other in t && id != other && k < width ::
      Key(t[id].value, k) != Key(t[other].value, k)
  }

  /** For objects that have a key for every index: it is the keys themselves that must differ. */
  lemma KeysTell(t: Table, v: Value, width: nat)
    requires width <= |v.keys| && forall id | id in t :: width <= |t[id].value.keys|
    ensures Fits(t, v, width) <==> forall id, k: nat | id in t && k < width :: t[id].value.keys[k] != v.keys[k]
    ensures Unique(t, width) <==> forall id, other, k: nat | id in t && other in t && id != other && k < width ::
      t[id].value.keys[k] != t[other].value.keys[k]
  {
    assert forall id, k: nat | id in t && k < width :: Key(t[id].value, k) == t[id].value.keys[k];
    assert forall k: nat | k < width :: Key(v, k) == v.keys[k];
    if Unique(t, width) {
      forall id, other, k: nat | id in t && other in t && id != other && k < width
        ensures t[id].value.keys[k] != t[other].value.keys[k]
      {
        assert Key(t[id].value, k) != Key(t[other].value, k);
      }
    }
  }

  /** What a user can observe of a table: objects by id, without time stamps. */
  function Values(t: Table): map<nat, Value> {
    map id | id in t :: t[id].value
  }
}
