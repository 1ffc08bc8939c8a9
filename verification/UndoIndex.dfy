/** The multi-indexed table with nested undo sessions, working in place on its memory, indices and lists. */
module UndoIndex {
  import opened Basics
  import opened Tables
  import opened UndoModel
  import opened UndoInvariant
  import opened UndoLeaks
  import opened UndoLosses
  import opened OrderedIndex
  import opened UndoLayout
  import opened UndoMemory
  import opened SquashMemory
  import opened CommitMemory
  import opened UndoExactness

  class Table {
    const width: nat  // number of secondary indices
    var nodes: Memory
    var backups: Backups
    var indices: seq<seq<nat>>
    var undoStack: seq<UndoState>
    var oldValues: seq<nat>
    var removedValues: seq<nat>
    var nextId: nat
    var revision: int
    var monotonic: nat

    ghost var leaked: set<nat>  // lost nodes: never freed, but no index or list leads to them
    ghost var model: State
    ghost var at: map<nat, nat>  // the address of each id
    ghost var oldCuts: seq<nat>
    ghost var removedCuts: seq<nat>

    ghost function View(): Layout
      reads this
    {
      Layout(nodes, backups, indices, undoStack, oldValues, removedValues, at, oldCuts, removedCuts)
    }

    ghost predicate Scalars()
      reads this
    {
      model.width == width && model.nextId == nextId && model.revision == revision && model.mono == monotonic
    }

    /** The fields represent `model`. */
    ghost predicate Rep()
      reads this
    {
      Scalars() && Stored(View(), model) && Indexed(View(), model)
    }

    /** The fields represent a table that keeps the invariant, except that it or some saved table may not have
      * unique keys. Then its indices hold duplicates. */
    ghost predicate Valid()
      reads this
    {
      Rep() && Sturdy(model)
    }

    /** The nodes and the indices represent the current table, whatever can be said of the backups. */
    ghost predicate Shown()
      reads this
    {
      && Scalars() && Named(nodes, at) && Shows(nodes, at, MainSet(nodes), model.main)
      && |indices| == width + 1 && IndicesOk(nodes, indices, MainSet(nodes))
    }

    constructor (width: nat)
      ensures Valid() && Wf(model) && model == Empty(width) && this.width == width && leaked == {}
      ensures nodes == map[] && backups == map[] && undoStack == [] && oldValues == removedValues == []
      ensures nextId == revision == monotonic == 0
    {
      this.width := width;
      nodes, backups, at, leaked := map[], map[], map[], {};
      indices := seq(width + 1, _ => []);
      undoStack, oldValues, removedValues, oldCuts, removedCuts := [], [], [], [], [];
      nextId, revision, monotonic := 0, 0, 0;
      model := Empty(width);
    }

    // ----- indices

    /** `insert_impl`: inserts `p` into the indices from `n` on, or into none of them. */
    method InsertImpl(p: nat, n: nat) returns (ok: bool)
      requires n <= |indices| && forall k | n <= k < |indices| :: p !in indices[k]
      modifies this`indices
      ensures |indices| == |old(indices)| && indices[..n] == old(indices)[..n]
      ensures Inserting(nodes, old(indices), indices, n, p, ok)
      decreases |indices| - n
    {
      hide InsertUnique, Erase;
      ghost var was := indices;
      if n == |indices| {
        return true;
      }
      InsertUniqueUndone(nodes, n, indices[n], p);
      var r := InsertUnique(nodes, n, indices[n], p);
      if !r.inserted {
        return false;
      }
      indices := indices[n := r.idx];
      ok := InsertImpl(p, n + 1);
      assert indices[..n + 1][n] == r.idx;
      assert indices[..n] == indices[..n + 1][..n];
      InsertingStep(nodes, was, indices, n, p, ok);
      if !ok {
        indices := indices[n := Erase(indices[n], p)];
        assert indices == was;
      }
    }

    /** `erase_impl`: takes `p` out of the indices from `n` on. */
    method EraseImpl(p: nat, n: nat, ghost live: set<nat>)
      requires n <= |indices| && p in live
      requires forall k | n <= k < |indices| :: Holds(indices[k], live) && SortedBut(nodes, k, indices[k], p)
      modifies this`indices
      ensures |indices| == |old(indices)| && indices[..n] == old(indices)[..n]
      ensures forall k | n <= k < |indices| :: Holds(indices[k], live - {p}) && Sorted(nodes, k, indices[k])
      ensures forall k | n <= k < |indices| :: StrictBut(nodes, k, old(indices)[k], p) ==> Strict(nodes, k, indices[k])
      decreases |indices| - n
    {
      hide Strict, StrictBut, Sorted, SortedBut, Erase;
      if n == |indices| {
        return;
      }
      EraseHolds(indices[n], live, p);
      EraseSortedBut(nodes, n, indices[n], p);
      ghost var erased := Erase(indices[n], p);
      indices := indices[n := Erase(indices[n], p)];
      EraseImpl(p, n + 1, live);
      assert indices[..n + 1][n] == erased;
      assert indices[..n] == indices[..n + 1][..n];
    }

    /** `post_modify<true>`: moves a modified node to its place in the indices from `n` on. It stops
      * at the first index where its key is taken, and leaves it there before the node that has it. */
    method PostModifyUnique(p: nat, n: nat, ghost live: set<nat>) returns (ok: bool)
      requires n <= |indices| && p in live
      requires forall k | n <= k < |indices| :: Holds(indices[k], live) && SortedBut(nodes, k, indices[k], p)
      modifies this`indices
      ensures |indices| == |old(indices)| && indices[..n] == old(indices)[..n]
      ensures forall k | n <= k < |indices| :: Holds(indices[k], live) && SortedBut(nodes, k, indices[k], p)
      ensures forall k | n <= k < |indices| ::
        p in indices[k] && p in old(indices)[k] && Erase(indices[k], p) == Erase(old(indices)[k], p)
      ensures ok <==> KeysFree(nodes, n, |indices|, live, p)
      ensures ok ==> forall k | n <= k < |indices| :: Sorted(nodes, k, indices[k])
      decreases |indices| - n
    {
      hide Sorted, SortedBut, NoTwin, FixUnique, KeysFree, Erase, Strict, StrictBut;
      KeysFreeStep(nodes, n, |indices|, live, p);
      if n == |indices| {
        return true;
      }
      FixUniqueCorrect(nodes, n, indices[n], live, p);
      var (fixed, placed) := FixUnique(nodes, n, indices[n], p);
      SortedIsBut(nodes, n, fixed, p);
      indices := indices[n := fixed];
      if !placed {
        return false;
      }
      ok := PostModifyUnique(p, n + 1, live);
      assert indices[..n + 1][n] == fixed;
      assert indices[..n] == indices[..n + 1][..n];
    }

    /** `post_modify<false>`: the same where keys may be duplicated for a while. */
    method PostModifyEqual(p: nat, n: nat, ghost live: set<nat>)
      requires n <= |indices| && p in live
      requires forall k | n <= k < |indices| :: Holds(indices[k], live) && SortedBut(nodes, k, indices[k], p)
      modifies this`indices
      ensures |indices| == |old(indices)| && indices[..n] == old(indices)[..n]
      ensures forall k | n <= k < |indices| :: Holds(indices[k], live) && Sorted(nodes, k, indices[k])
      decreases |indices| - n
    {
      hide Sorted, SortedBut, FixEqual;
      if n == |indices| {
        return;
      }
      FixEqualCorrect(nodes, n, indices[n], live, p);
      ghost var fixed := FixEqual(nodes, n, indices[n], p);
      indices := indices[n := FixEqual(nodes, n, indices[n], p)];
      PostModifyEqual(p, n + 1, live);
      assert indices[..n + 1][n] == fixed;
      assert indices[..n] == indices[..n + 1][..n];
    }

    // ----- emplace

    /** Builds the node at `p` and puts it into all indices, or frees it again. */
    method Construct(p: nat, v: Value) returns (ok: bool)
      requires Valid() && p !in nodes && p !in leaked
      modifies this`nodes, this`indices
      ensures ok <==> Fits(model.main, v, width)
      ensures !ok ==> nodes == old(nodes) && indices == old(indices)
      ensures ok ==>
        && |indices| == width + 1 && indices[0] == old(indices)[0] + [p]
        && (forall k | 1 <= k < |indices| :: Holds(indices[k], MainSet(old(nodes)) + {p})
              && Sorted(old(nodes)[p := Node(nextId, v, 0, false)], k, indices[k]))
        && nodes == old(nodes)[p := Node(nextId, v, if undoStack == [] then 0 else monotonic, false)]
    {
      hide Sturdy, Holds, Sorted, NoTwin, Fits, Stored, Indexed, MainSet, Inserting;
      ghost var l := View();
      EmplaceIndices(l, model, p, Node(nextId, v, 0, false));
      nodes := nodes[p := Node(nextId, v, 0, false)];
      NotHeld(l.indices, MainSet(l.nodes), p);
      ok := InsertImpl(p, 1);
      InsertedAll(nodes, l.indices, indices, 1, MainSet(l.nodes), p, ok);
      if !ok {
        nodes := nodes - {p};
        assert nodes == l.nodes;
        return;
      }
      indices := indices[0 := indices[0] + [p]];
      if undoStack != [] {
        nodes := nodes[p := nodes[p].(mtime := monotonic)];
      }
    }

    /** The new object gets the next id; `p` is where the allocator puts it. A conflict in any index
      * leaves the table as it was. */
    method Emplace(v: Value, p: nat) returns (r: Option<nat>)
      requires Valid() && p !in nodes && p !in leaked
      modifies this
      ensures leaked == old(leaked)
      ensures Valid() && model == UndoModel.Emplace(old(model), v)
      ensures r == if Fits(old(model).main, v, width) then Some(old(nextId)) else None
      ensures r.Some? ==>
        nodes == old(nodes)[p := Node(old(nextId), v, if old(undoStack) == [] then 0 else old(monotonic), false)]
      ensures r.None? ==> View() == old(View())
    {
      hide Sturdy, Holds, Sorted, Fits, Sane, Stored, Indexed, MainSet, UndoModel.Emplace;
      ghost var l, s := View(), model;
      StackLengths(l, s);
      SturdySane(s);
      EmplaceSturdy(s, v);
      EmplaceEffect(s, v);
      IndexCount(l, s);
      var ok := Construct(p, v);
      if !ok {
        return None;
      }
      EmplaceDone(l, s, p, v, indices, nodes[p]);
      model := UndoModel.Emplace(s, v);
      at := at[nextId := p];
      r := Some(nextId);
      nextId := nextId + 1;
    }

    // ----- remove

    /** `remove`, also of an object that a failed `modify` left out of place. */
    method Unlink(p: nat)
      requires Scalars() && Stored(View(), model) && Sane(model)
      requires p in nodes && !nodes[p].removed && p in MainSet(nodes) && nodes[p].id in model.main
      requires model.stack != [] ==> model.main.Keys !! Top(model).removed.Keys
      requires |indices| == width + 1
      requires forall k | 0 <= k < |indices| :: Holds(indices[k], MainSet(nodes)) && SortedBut(nodes, k, indices[k], p)
      modifies this
      ensures leaked == old(leaked)
      ensures Rep() && model == UndoModel.Remove(old(model), old(nodes[p].id))
      // a node that is not new to the session waits in the list of removed ones; any other is freed
      ensures var n, top := old(nodes[p]), |old(undoStack)| - 1;
        var kept := top >= 0 && n.id < old(undoStack)[top].oldNextId;
        && nodes == (if kept then old(nodes)[p := n.(removed := true)] else old(nodes) - {p})
        && removedValues == (if kept then old(removedValues) + [p] else old(removedValues))
        && backups == old(backups) && oldValues == old(oldValues) && undoStack == old(undoStack)
    {
      hide Holds, Sorted, SortedBut, Sane, Stored, Indexed, MainSet, UndoModel.Remove;
      ghost var l, s, id := View(), model, nodes[p].id;
      TopMark(l, s);
      RemoveEffect(s, id);
      EraseImpl(p, 0, MainSet(nodes));
      if undoStack != [] && nodes[p].id < undoStack[|undoStack| - 1].oldNextId {
        RetireDone(l, s, p, indices);
        nodes := nodes[p := nodes[p].(removed := true)];
        removedValues := removedValues + [p];
      } else {
        FreeDone(l, s, p, indices);
        DisposeNode(p);
      }
      model := UndoModel.Remove(s, id);
    }

    /** `dispose_node` */
    method DisposeNode(p: nat)
      requires p in nodes
      modifies this`nodes, this`at
      ensures nodes == old(nodes) - {p} && at == old(at) - {old(nodes)[p].id}
    {
      at := at - {nodes[p].id};
      nodes := nodes - {p};
    }

    /** Removes the object at `p`. */
    method Remove(p: nat)
      requires Valid() && p in nodes && !nodes[p].removed
      modifies this
      ensures leaked == old(leaked)
      ensures old(nodes[p].id) in old(model).main
      ensures Valid() && model == UndoModel.Remove(old(model), old(nodes[p].id))
      // a node that is not new to the session waits in the list of removed ones; any other is freed
      ensures var n, top := old(nodes[p]), |old(undoStack)| - 1;
        var kept := top >= 0 && n.id < old(undoStack)[top].oldNextId;
        && nodes == (if kept then old(nodes)[p := n.(removed := true)] else old(nodes) - {p})
        && removedValues == (if kept then old(removedValues) + [p] else old(removedValues))
        && backups == old(backups) && oldValues == old(oldValues) && undoStack == old(undoStack)
    {
      hide Holds, Sorted, SortedBut, Sane, Stored, Indexed, MainSet, UndoModel.Remove, Sturdy;
      ghost var s := model;
      SturdySane(s);
      SturdyApart(s);
      InTable(View(), s, p);
      OverwriteIndices(View(), s, p, nodes[p]);
      assert nodes[p := nodes[p]] == nodes;
      RemoveSturdy(s, nodes[p].id);
      Unlink(p);
    }

    // ----- modify

    /** `on_modify`: the first change in a session copies the object to the list of old values. */
    method OnModify(p: nat, q: nat) returns (backup: bool)
      requires Valid() && p in nodes && !nodes[p].removed && q !in backups
      modifies this`nodes, this`backups, this`oldValues
      ensures old(nodes[p].id) in model.main && backup == NeedsBackup(model, old(nodes[p].id))
      ensures !backup ==> nodes == old(nodes) && backups == old(backups) && oldValues == old(oldValues)
      ensures backup ==> var n := old(nodes[p]);
        && nodes == old(nodes)[p := n.(mtime := monotonic)]
        && backups == old(backups)[q := OldNode(n.id, n.value, n.mtime, p)]
        && oldValues == old(oldValues) + [q]
    {
      hide Sturdy, Stored, Indexed;
      TopMark(View(), model);
      InTable(View(), model, p);
      if undoStack == [] || undoStack[|undoStack| - 1].ctime <= nodes[p].mtime {
        return false;
      }
      backups := backups[q := OldNode(nodes[p].id, nodes[p].value, nodes[p].mtime, p)];
      oldValues := oldValues + [q];
      nodes := nodes[p := nodes[p].(mtime := monotonic)];
      return true;
    }

    /** The last step of a failed `modify` with a backup: the old value goes back into every index. The
      * assertion that this succeeds holds exactly when no other object has a key of the old value. */
    method Revert(p: nat, q: nat, ghost l: Layout) returns (success: bool)
      requires Stored(l, model) && Indexed(l, model)
      requires Scalars() && p in l.nodes && !l.nodes[p].removed && q !in l.backups && |indices| == |l.indices|
      requires exists v :: nodes == l.nodes[p := l.nodes[p].(value := v, mtime := monotonic)]
      requires q in backups && backups == l.backups[q := backups[q]] && backups[q].value == l.nodes[p].value
      requires oldValues == l.olds + [q]
      requires indices[..1] == l.indices[..1] && Displaced(l, nodes, indices, p)
      modifies this`nodes, this`backups, this`oldValues, this`indices
      ensures l.nodes[p].id in model.main && (success <==> OwnKeys(model, l.nodes[p].id))
      ensures nodes == l.nodes[p := l.nodes[p].(mtime := monotonic)]
      ensures backups == l.backups && oldValues == l.olds
      ensures success ==> indices == l.indices
      ensures |indices| == |l.indices| && forall k | 0 <= k < |indices| :: Holds(indices[k], MainSet(l.nodes))
    {
      hide Holds, Sorted, SortedBut, NoTwin, Fits, Stored, Indexed, MainSet, Erase, KeysFree;
      ghost var was := nodes;
      nodes := nodes[p := nodes[p].(value := backups[q].value)];
      ghost var n := nodes[p];
      assert nodes == l.nodes[p := n];
      InTable(l, model, p);
      OverwriteIndices(l, model, p, n);
      DisplacedSorted(l, was, indices, p);
      ghost var ids := indices[0];
      assert ids == l.indices[..1][0];
      forall k | 1 <= k < |indices| ensures SortedBut(nodes, k, indices[k], p) {
        OneChanged(was, k, indices[k], p, n);
      }
      success := PostModifyUnique(p, 1, MainSet(l.nodes));
      assert indices[0] == indices[..1][0] == ids;
      RevertedExactly(l, model, p, indices, success);
      backups := backups - {q};
      oldValues := oldValues[..|oldValues| - 1];
    }

    /** First part of `modify`: the backup, the change, and the search for a place in every index. */
    method TryChange(p: nat, v: Value, q: nat) returns (ok: bool, backup: bool)
      requires Valid() && p in nodes && !nodes[p].removed && q !in backups
      modifies this`nodes, this`backups, this`oldValues, this`indices
      ensures var n := old(nodes[p]);
        && n.id in model.main && backup == NeedsBackup(model, n.id)
        && (ok <==> Fits(model.main - {n.id}, v, width))
        && nodes == old(nodes)[p := n.(value := v, mtime := if backup then monotonic else n.mtime)]
        && backups == (if backup then old(backups)[q := OldNode(n.id, n.value, n.mtime, p)] else old(backups))
        && oldValues == (if backup then old(oldValues) + [q] else old(oldValues))
      ensures |indices| == |old(indices)| == width + 1 && indices[0] == old(indices)[0]
      ensures MainSet(nodes) == MainSet(old(nodes)) && p in MainSet(nodes) && Displaced(old(View()), nodes, indices, p)
      ensures ok ==> forall k | 1 <= k < |indices| :: Sorted(nodes, k, indices[k])
    {
      hide Sturdy, Holds, Sorted, SortedBut, NoTwin, Fits, Stored, Indexed, Unique, MainSet, Sane;
      ghost var l, s := View(), model;
      InTable(l, s, p);
      backup := OnModify(p, q);
      nodes := nodes[p := nodes[p].(value := v)];
      OverwriteIndices(l, s, p, nodes[p]);
      assert nodes == l.nodes[p := nodes[p]];
      ok := PostModifyUnique(p, 1, MainSet(l.nodes));
      assert indices[0] == indices[..1][0] == l.indices[..1][0];
      DisplacedIs(l, nodes, indices, p);
    }

    /** Gives the object at `p` the value `v`; `q` is where the allocator would put a backup. On a
      * conflict the object gets its old value back from the backup, or is removed without one. Where that
      * old value shares a key with another object, an assertion fails (see `Revert`), and the later indices may be
      * left out of order. */
    method Modify(p: nat, v: Value, q: nat) returns (ok: bool)
      requires Valid() && p in nodes && !nodes[p].removed && q !in backups
      modifies this
      ensures leaked == old(leaked) && old(nodes[p].id) in old(model).main
      ensures model == UndoModel.Modify(old(model), old(nodes[p].id), v)
      ensures (ModifyOutcome(old(model), old(nodes[p].id), v).Reverted? ==> OwnKeys(old(model), old(nodes[p].id)))
        ==> Valid()
      ensures Scalars() && Stored(View(), model) && Sturdy(model) && |indices| == width + 1
      ensures forall k | 0 <= k < |indices| :: Holds(indices[k], MainSet(nodes))
      ensures ok <==> ModifyOutcome(old(model), old(nodes[p].id), v) == Changed
      // a conflict removes the object, but for one last stamped before the session; that one keeps its value
      ensures var id, n, values := old(nodes[p].id), |old(undoStack)|, Values(old(model.main));
        && (ok <==> Fits(old(model.main) - {id}, v, width))
        && Values(model.main) ==
             if ok then values[id := v]
             else if n == 0 || old(undoStack)[n - 1].ctime <= old(nodes[p].mtime) then values - {id}
             else values
      // all saved tables stay unique exactly when the change leaks into none that it does not fit
      ensures Wf(old(model)) ==> (Wf(model) <==> LeakFits(old(model), old(nodes[p].id), v))
      // a revert undoes everything but the stamp
      ensures ModifyOutcome(old(model), old(nodes[p].id), v) == Reverted && OwnKeys(old(model), old(nodes[p].id)) ==>
        View() == old(View()).(nodes := old(nodes)[p := old(nodes[p]).(mtime := monotonic)])
    {
      hide Wf, Sturdy, Holds, Sorted, SortedBut, Fits, Stored, Indexed, MainSet, Sane, LeakFits, UndoModel.Modify,
        OwnKeys, Displaced, Values;
      ghost var l, s, n := View(), model, nodes[p];
      ModifyBegins(l, s, p, v);
      ModifyEnds(l, s, p, v);
      var backup;
      ok, backup := TryChange(p, v, q);
      if ok {
        DisplacedSorted(l, nodes, indices, p);
        ChangedDone(l, s, p, q, v, nodes, indices);
        model := UndoModel.Modify(s, n.id, v);
        IndexedHolds(View(), model);
      } else if backup {
        var success := Revert(p, q, l);
        RevertedDone(l, s, p, v, indices, success);
        model := UndoModel.Modify(s, n.id, v);
      } else {
        DisplacedSorted(l, nodes, indices, p);
        ErasedBegins(l, s, p, v, indices);
        model := s.(main := s.main[n.id := Row(v, n.mtime)]);
        Unlink(p);
        IndexedHolds(View(), model);
      }
    }

    // ----- sessions

    /** `add_session` */
    method StartSession()
      requires Valid()
      modifies this
      ensures leaked == old(leaked)
      ensures Valid() && model == Start(old(model))
    {
      hide Sturdy, Stored, Holds, Sorted;
      ghost var l, s := View(), model;
      StartSturdy(s);
      StartStored(l, s);
      var oldEnd := if oldValues == [] then None else Some(oldValues[|oldValues| - 1]);
      var removedEnd := if removedValues == [] then None else Some(removedValues[|removedValues| - 1]);
      PushMark(UndoState(oldEnd, removedEnd, nextId, monotonic + 1));
    }

    /** The new mark goes on the stack. */
    method PushMark(mark: UndoState)
      modifies this`monotonic, this`revision, this`undoStack, this`oldCuts, this`removedCuts, this`model
      ensures View() == old(View()).(states := old(undoStack) + [mark],
        oldCuts := old(oldCuts) + [|oldValues|], removedCuts := old(removedCuts) + [|removedValues|])
      ensures monotonic == old(monotonic) + 1 && revision == old(revision) + 1 && model == Start(old(model))
    {
      hide Start;
      monotonic := monotonic + 1;
      revision := revision + 1;
      undoStack := undoStack + [mark];
      oldCuts := oldCuts + [|oldValues|];
      removedCuts := removedCuts + [|removedValues|];
      model := Start(model);
    }

    // ----- undo

    /** Erases the node at position `pos` of the id index, and frees it. */
    method EraseAt(pos: nat)
      requires Named(nodes, at) && IndicesOk(nodes, indices, MainSet(nodes)) && |indices| > 0 && pos < |indices[0]|
      modifies this`nodes, this`indices, this`at
      ensures |indices| == |old(indices)| && IndicesOk(nodes, indices, MainSet(nodes))
      ensures Named(nodes, at)
      ensures indices[0] == old(indices)[0][..pos] + old(indices)[0][pos + 1..]
      ensures var p := old(indices)[0][pos];
        p in old(nodes) && !old(nodes)[p].removed && nodes == old(nodes) - {p} && at == old(at) - {old(nodes)[p].id}
    {
      hide Sorted, SortedBut, Sorted, SortedBut;
      ghost var m, ids, live := nodes, indices[0], MainSet(nodes);
      var p := indices[0][pos];
      assert p in live;
      forall k | 0 <= k < |indices| ensures SortedBut(nodes, k, indices[k], p) {
        SortedIsBut(nodes, k, indices[k], p);
      }
      EraseHolds(ids, live, p);
      EraseSortedBut(nodes, 0, ids, p);
      indices := indices[0 := indices[0][..pos] + indices[0][pos + 1..]];
      assert indices[0] == Erase(ids, p);
      ghost var first := indices[0];
      EraseImpl(p, 1, live);
      assert indices[0] == indices[..1][0] == first;
      UnlinkIndices(m, m - {p}, indices, p);
      DisposeNode(p);
    }

    /** First part of `undo`: erases all new ids. */
    method EraseNew(oldNextId: nat)
      requires Named(nodes, at) && IndicesOk(nodes, indices, MainSet(nodes)) && |indices| > 0
      modifies this`nodes, this`indices, this`at
      ensures |indices| == |old(indices)| && IndicesOk(nodes, indices, MainSet(nodes))
      ensures nodes == DropNew(old(nodes), oldNextId) && Named(nodes, at) && at == Names(old(at), nodes)
    {
      hide Named;
      ghost var m, names := nodes, at;
      NamesAll(nodes, at);
      var pos := LowerBound(nodes, 0, indices[0], oldNextId);
      NewIdsFrom(nodes, indices[0], pos, oldNextId);
      while pos < |indices[0]|
        invariant |indices| == |old(indices)| && IndicesOk(nodes, indices, MainSet(nodes)) && Named(nodes, at)
        invariant pos <= |indices[0]|
        invariant forall j | 0 <= j < pos :: KeyAt(nodes, 0, indices[0][j]) < oldNextId
        invariant forall j | pos <= j < |indices[0]| :: oldNextId <= KeyAt(nodes, 0, indices[0][j])
        invariant Erasing(m, nodes, oldNextId) && at == Names(names, nodes)
        decreases |indices[0]|
      {
        ghost var before, ids := nodes, indices[0];
        EraseAt(pos);
        ErasedOne(m, names, before, ids, pos, oldNextId);
      }
      ErasedAll(m, nodes, indices[0], oldNextId);
    }

    /** Writes the backup `o` back, unless it is younger than the session. */
    method RestoreOne(o: OldNode, c: nat)
      requires Named(nodes, at) && IndicesOk(nodes, indices, MainSet(nodes)) && |indices| > 0
      requires o.mtime < c ==> o.current in nodes && nodes[o.current].id == o.id
      modifies this`nodes, this`indices
      ensures |indices| == |old(indices)| && IndicesOk(nodes, indices, MainSet(nodes))
      ensures nodes == RestoreNodes(old(nodes), [EntryOf(o)], c)
    {
      hide Named, Holds, Sorted, SortedBut, MainSet, RestoreNodes;
      RestoreOneNode(nodes, at, o, c);
      if c <= o.mtime {
        return;
      }
      var p := o.current;
      ghost var m, n := nodes, nodes[p].(value := o.value, mtime := o.mtime);
      NewValueIndices(m, indices, p, n);
      nodes := nodes[p := nodes[p].(value := o.value, mtime := o.mtime)];
      if !nodes[p].removed {
        InMainSet(nodes, p);
        ghost var first := indices[0];
        PostModifyEqual(p, 1, MainSet(nodes));
        assert indices[0] == indices[..1][0] == first;
      }
    }

    /** Second part of `undo`: writes the backups of the session back, the newest first. */
    method RestoreOld(end: Option<nat>, c: nat, ghost from: nat)
      requires Named(nodes, at) && IndicesOk(nodes, indices, MainSet(nodes)) && |indices| > 0
      requires Distinct(oldValues) && (forall q :: q in oldValues <==> q in backups)
      requires from <= |oldValues| && end == MarkAt(oldValues, from)
      requires Live(nodes, backups, oldValues[from..], c)
      modifies this`nodes, this`indices, this`oldValues, this`backups
      ensures |indices| == |old(indices)| && IndicesOk(nodes, indices, MainSet(nodes))
      ensures oldValues == old(oldValues)[..from] && backups == KeptBackups(old(backups), oldValues)
      ensures nodes == RestoreNodes(old(nodes), Entries(old(backups), old(oldValues)[from..]), c)
    {
      hide Named, Holds, Sorted, IndicesOk, MainSet, RestoreNodes, Entries, Live, KeptBackups, MarkAt, Distinct;
      ghost var m, b, list := nodes, backups, oldValues;
      RestoreNone(m, b, list, c);
      AtMark(list, from, |oldValues|);
      while oldValues != [] && Some(oldValues[|oldValues| - 1]) != end
        invariant from <= |oldValues| <= |list| && oldValues == list[..|oldValues|]
        invariant oldValues == [] || Some(oldValues[|oldValues| - 1]) == end <==> |oldValues| == from
        invariant backups == KeptBackups(b, oldValues)
        invariant |indices| == |old(indices)| && IndicesOk(nodes, indices, MainSet(nodes))
        invariant nodes == RestoreNodes(m, Entries(b, list[|oldValues|..]), c)
        decreases |oldValues|
      {
        ghost var j := |oldValues| - 1;
        var q := oldValues[|oldValues| - 1];
        RestoreReady(m, at, b, list, from, j, c);
        KeptOneLess(b, list, j);
        AtMark(list, from, j);
        oldValues := oldValues[..|oldValues| - 1];
        RestoreOne(backups[q], c);
        backups := backups - {q};
      }
    }

    /** Puts a removed node back into all indices, or frees it if its id is new. If a key is taken, the node
      * goes into no index, and nobody notices: it is never freed, but nothing leads to it any more. */
    method ReviveOne(p: nat, oldNextId: nat)
      requires Named(nodes, at) && p in nodes && nodes[p].removed && IndicesOk(nodes, indices, MainSet(nodes))
      modifies this`nodes, this`indices, this`at, this`leaked
      ensures |indices| == |old(indices)| && IndicesOk(nodes, indices, MainSet(nodes))
      ensures var n, r := old(nodes)[p], old(nodes)[p := old(nodes)[p].(removed := false)];
        var back := n.id < oldNextId && KeysFree(r, 0, |indices|, MainSet(old(nodes)), p);
        && nodes == (if back then r else old(nodes) - {p})
        && at == (if back then old(at) else old(at) - {n.id})
        && leaked == (if n.id < oldNextId && !back then old(leaked) + {p} else old(leaked))
    {
      hide Named, NoTwin, Holds, Sorted, MainSet, Inserting, KeysFree;
      ghost var m, live, was := nodes, MainSet(nodes), indices;
      RevivedIndices(m, indices, p);
      if nodes[p].id < oldNextId {
        nodes := nodes[p := nodes[p].(removed := false)];
        var inserted := InsertImpl(p, 0);
        InsertedAll(nodes, was, indices, 0, live, p, inserted);
        if !inserted {
          Strand(p);
          assert nodes == m - {p};
        }
      } else {
        DisposeNode(p);
      }
    }

    /** Nothing is done to a lost node: it only counts as part of the memory in use no longer. */
    method Strand(p: nat)
      requires p in nodes
      modifies this`nodes, this`at, this`leaked
      ensures nodes == old(nodes) - {p} && at == old(at) - {old(nodes)[p].id} && leaked == old(leaked) + {p}
    {
      at := at - {nodes[p].id};
      nodes := nodes - {p};
      leaked := leaked + {p};
    }

    /** Last part of `undo`: puts the nodes removed in the session back, each if its keys are free. */
    method Reinsert(end: Option<nat>, oldNextId: nat, ghost from: nat)
      requires Named(nodes, at) && IndicesOk(nodes, indices, MainSet(nodes)) && |indices| == width + 1
      requires Distinct(removedValues) && forall a <- removedValues :: a in nodes && nodes[a].removed
      requires from <= |removedValues| && end == MarkAt(removedValues, from)
      modifies this`nodes, this`indices, this`removedValues, this`at, this`leaked
      ensures |indices| == |old(indices)| && removedValues == old(removedValues)[..from]
      ensures var seg := Elems(old(removedValues)[from..]);
        var held := Back(old(nodes), old(removedValues), from, oldNextId, width + 1);
        && nodes == Reborn(old(nodes), seg, held) && MainSet(nodes) == held && at == Names(old(at), nodes)
        && leaked == old(leaked) + Stranded(old(nodes), seg, held, oldNextId)
      ensures IndicesOk(nodes, indices, MainSet(nodes))
    {
      hide Named, Holds, Sorted, IndicesOk, MainSet, KeysFree, Back, Reborn, Stranded, Names, Distinct, MarkAt, Elems;
      ghost var m, names, list, lost := nodes, at, removedValues, leaked;
      ReviveNone(m, at, list, oldNextId, width + 1);
      assert lost + {} == lost;
      AtMark(list, from, |list|);
      while removedValues != [] && Some(removedValues[|removedValues| - 1]) != end
        invariant from <= |removedValues| <= |list| && removedValues == list[..|removedValues|]
        invariant removedValues == [] || Some(removedValues[|removedValues| - 1]) == end <==> |removedValues| == from
        invariant |indices| == width + 1 && IndicesOk(nodes, indices, MainSet(nodes))
        invariant Named(nodes, at) && at == Names(names, nodes)
        invariant var seg, held := Elems(list[|removedValues|..]), Back(m, list, |removedValues|, oldNextId, width + 1);
          && nodes == Reborn(m, seg, held) && MainSet(nodes) == held
          && leaked == lost + Stranded(m, seg, held, oldNextId)
        decreases |removedValues|
      {
        ghost var j := |removedValues| - 1;
        var p := removedValues[|removedValues| - 1];
        ReviveReady(m, list, j, oldNextId, nodes, width + 1);
        StrandedStep(m, list, j, oldNextId, width + 1);
        NamesRevived(m, names, nodes, p);
        AtMark(list, from, j);
        ReviveTail(list, j);
        removedValues := removedValues[..|removedValues| - 1];
        ReviveOne(p, oldNextId);
      }
    }

    /** The two lists of the top session are worked off: nodes, backups, lists and indices are those of the
      * saved table, but for the objects that are lost. */
    method UndoLists(info: UndoState) returns (ghost lost: set<nat>)
      requires Valid() && undoStack != [] && info == undoStack[|undoStack| - 1]
      modifies this`nodes, this`indices, this`at, this`oldValues, this`backups, this`removedValues, this`leaked
      ensures model.stack != [] && |undoStack| == |model.stack| == |oldCuts| == |removedCuts|
      ensures |indices| == width + 1 && IndicesOk(nodes, indices, MainSet(nodes))
      ensures leaked == old(leaked) + AddressesOf(old(nodes), lost)
      ensures var u := UndoModel.Undo(model);
        var r := Layout(nodes, backups, indices, undoStack[..|undoStack| - 1], oldValues, removedValues,
          at, Prefix(oldCuts), Prefix(removedCuts));
        && Loses(model, lost) && lost <= u.main.Keys
        && Named(nodes, at) && Shows(nodes, at, MainSet(nodes), Less(u, lost).main)
        && (!Dangles(u, lost) ==> Stored(r, Less(u, lost)))
    {
      hide Sturdy, Stored, Named, Shows, IndicesOk, Distinct, MainSet, Loses, Dangles, Live, MarkAt, Cuts, UndoneNodes,
        UndoModel.Undo, DropNew, RestoreNodes, ReviveNodes, Reborn, Back, Stranded, Names, KeptBackups, Entries, Elems,
        IdsOf, AddressesOf;
      ghost var l, s := View(), model;
      UndoBegins(l, s);
      ghost var n := |s.stack|;
      ghost var from, removedFrom := l.oldCuts[n - 1], l.removedCuts[n - 1];
      EraseNew(info.oldNextId);
      EraseDone(l, s, nodes, at);
      RestoreOld(info.oldValuesEnd, info.ctime, from);
      RestoreDone(l, s, nodes, at);
      ghost var m := nodes;
      Reinsert(info.removedValuesEnd, info.oldNextId, removedFrom);
      lost := LostIds(m, l.removed, removedFrom, info.oldNextId, width + 1);
      RebornKeys(m, Elems(l.removed[removedFrom..]), Back(m, l.removed, removedFrom, info.oldNextId, width + 1));
      NamesLeft(l, m, nodes);
      UndoFinish(l, s, m, at, indices);
      LostAddresses(l, s, m);
    }

    /** `undo`: goes back to the table at the start of the top session, but for the objects that are lost. Each
      * index is sorted and holds exactly the objects of that table. Undo may go on unless some session still
      * has a backup of a lost object. */
    method Undo()
      requires Valid()
      modifies this
      ensures Shown() && UndoesTo(old(model), model) && |undoStack| == |model.stack|
      ensures Valid() <==> !Dangles(model, LostIn(old(model), model))
      ensures leaked == old(leaked) + AddressesOf(old(nodes), LostIn(old(model), model))
    {
      hide Sturdy, Stored, UndoModel.Undo, Prefix, Loses, Dangles, IndicesOk, Named, Shows, MainSet, AddressesOf;
      ValidIsShown(this);
      UndoNothing(View(), model, leaked);
      if undoStack == [] {
        return;
      }
      UndoScalars(View(), model);
      var info := undoStack[|undoStack| - 1];
      ghost var u := UndoModel.Undo(model);
      ghost var lost := UndoLists(info);
      LessSturdy(u, lost);
      LessIs(model, lost);
      SameDangles(u, lost);
      PopSession(info, lost);
    }

    /** The end of `undo`. */
    method PopSession(info: UndoState, ghost lost: set<nat>)
      requires undoStack != [] && oldCuts != [] && removedCuts != []
      modifies this`nextId, this`undoStack, this`revision, this`oldCuts, this`removedCuts, this`model
      ensures View() == old(View()).(states := old(undoStack)[..|old(undoStack)| - 1],
        oldCuts := Prefix(old(oldCuts)), removedCuts := Prefix(old(removedCuts)))
      ensures nextId == info.oldNextId && revision == old(revision) - 1
      ensures model == Less(UndoModel.Undo(old(model)), lost)
    {
      hide UndoModel.Undo, Prefix;
      nextId := info.oldNextId;
      undoStack := undoStack[..|undoStack| - 1];
      revision := revision - 1;
      oldCuts := Prefix(oldCuts);
      removedCuts := Prefix(removedCuts);
      model := Less(UndoModel.Undo(model), lost);
    }

    /** `undo_all`. An undo that loses an object of which a session still has a backup may only be the last. */
    method UndoAll()
      requires Valid() && NeverDangles(model)
      modifies this
      ensures Valid() && UndoesAll(old(model), model)
    {
      hide Sturdy, Stored, Indexed, IndicesOk, Named, Shows, MainSet, UndoesTo, Dangles;
      ValidIsShown(this);
      UndoNothing(View(), model, leaked);
      while undoStack != []
        invariant Valid() && NeverDangles(model) && |undoStack| == |model.stack|
        invariant forall r | UndoesAll(model, r) :: UndoesAll(old(model), r)
        decreases |undoStack|
      {
        ghost var s := model;
        UndoNothing(View(), s, leaked);
        Undo();
        UndoneOnce(s, model);
      }
    }

    // ----- squash

    /** `dispose_undo`: frees everything in the two lists. */
    method DisposeUndo()
      requires Stored(View(), model)
      modifies this`nodes, this`backups, this`at, this`oldValues, this`removedValues
      ensures nodes == LiveNodes(old(nodes)) && at == Names(old(at), nodes)
      ensures backups == map[] && oldValues == [] && removedValues == []
    {
      hide Stored, Named, Names, Distinct, LiveNodes;
      DisposeReady(View(), model);
      ClearOld();
      ClearRemoved();
    }

    /** First half of `dispose_undo`: frees every backup. */
    method ClearOld()
      requires Distinct(oldValues) && forall q :: q in oldValues <==> q in backups
      modifies this`backups, this`oldValues
      ensures backups == map[] && oldValues == []
    {
      hide Distinct, KeptBackups;
      ghost var b, list := backups, oldValues;
      RestoreNone(nodes, b, list, 0);
      while oldValues != []
        invariant |oldValues| <= |list| && oldValues == list[..|oldValues|] && backups == KeptBackups(b, oldValues)
        decreases |oldValues|
      {
        var q := oldValues[|oldValues| - 1];
        KeptOneLess(b, list, |oldValues| - 1);
        oldValues := oldValues[..|oldValues| - 1];
        backups := backups - {q};
      }
      KeptNothing(b);
    }

    /** Second half: frees every removed node. */
    method ClearRemoved()
      requires Named(nodes, at) && Distinct(removedValues)
      requires forall a :: a in removedValues <==> a in nodes && nodes[a].removed
      modifies this`nodes, this`at, this`removedValues
      ensures nodes == LiveNodes(old(nodes)) && at == Names(old(at), nodes) && removedValues == []
    {
      hide Named, Names, Distinct, Disposing;
      ghost var m, names, gone := nodes, at, removedValues;
      assert forall a <- gone :: a in m;
      DisposeBegins(m, names, gone);
      while removedValues != []
        invariant |removedValues| <= |gone| && removedValues == gone[..|removedValues|]
        invariant Disposing(m, gone, |removedValues|, nodes) && at == Names(names, nodes) && Named(nodes, at)
        decreases |removedValues|
      {
        var p := removedValues[|removedValues| - 1];
        DisposeStep(m, names, gone, |removedValues| - 1, nodes);
        removedValues := removedValues[..|removedValues| - 1];
        DisposeNode(p);
      }
      DisposeEnds(m, gone, nodes);
    }

    /** `squash_fast`. It keeps the invariant but for keys (`UndoLeaks.SquashFastSturdy`), and that of the
      * keys exactly when `UndoLeaks.SquashSound` says so. */
    method SquashFast()
      requires Rep() && Sane(model)
      modifies this
      ensures leaked == old(leaked)
      ensures Rep() && model == UndoModel.SquashFast(old(model))
    {
      hide Stored, Indexed, Sane, Prefix, LiveNodes, Names, UndoModel.SquashFast;
      ghost var l, s := View(), model;
      StackLengths(l, s);
      SquashFastIs(s);
      if undoStack == [] {
        return;
      }
      if |undoStack| == 1 {
        ClearedStored(l, s, s.revision - 1);
        DisposeUndo();
        DropMark([], []);
      } else {
        MergedStored(l, s);
        DropMark(Prefix(oldCuts), Prefix(removedCuts));
      }
    }

    /** The end of `squash_fast`. */
    method DropMark(ghost cuts: seq<nat>, ghost removed: seq<nat>)
      requires undoStack != []
      modifies this`undoStack, this`revision, this`oldCuts, this`removedCuts, this`model
      ensures View() == old(View()).(states := old(undoStack)[..|old(undoStack)| - 1], oldCuts := cuts,
        removedCuts := removed)
      ensures revision == old(revision) - 1 && model == UndoModel.SquashFast(old(model))
    {
      hide UndoModel.SquashFast;
      undoStack := undoStack[..|undoStack| - 1];
      revision := revision - 1;
      oldCuts, removedCuts := cuts, removed;
      model := UndoModel.SquashFast(model);
    }

    // ----- compression

    /** First filter of `compress_impl`: drops the backups that later undo would skip, and folds the
      * others of removed nodes into those nodes. */
    method FilterOld(end: Option<nat>, c: nat, ghost from: nat)
      requires Named(nodes, at) && Distinct(oldValues) && (forall q :: q in oldValues <==> q in backups)
      requires from <= |oldValues| && end == MarkAt(oldValues, from) && Live(nodes, backups, oldValues[from..], c)
      modifies this`nodes, this`oldValues, this`backups
      ensures oldValues == old(oldValues)[..from] + KeptAddrs(old(backups), old(oldValues)[from..], c,
        GoneIds(old(nodes)))
      ensures backups == KeptBackups(old(backups), oldValues)
      ensures nodes == FoldNodes(old(nodes), Entries(old(backups), old(oldValues)[from..]), c)
    {
      hide Named, Distinct, Live, KeptBackups, MarkAt, Filtering, FoldNodes, KeptAddrs, Entries;
      ghost var m, b, list := nodes, backups, oldValues;
      FilterBegins(m, b, list, c);
      AtMark(list, from, |list|);
      var i := |oldValues|;
      while i > 0 && Some(oldValues[i - 1]) != end
        invariant from <= i <= |list| && i <= |oldValues| && (i > 0 ==> oldValues[i - 1] == list[i - 1])
        invariant i == 0 || Some(list[i - 1]) == end <==> i == from
        invariant Filtering(m, b, list, i, c, nodes, oldValues)
        invariant backups == KeptBackups(b, oldValues)
        decreases i
      {
        i := i - 1;
        AtMark(list, from, i);
        FilterStep(m, at, b, list, from, i, c, nodes, oldValues);
        FilterDrop(m, b, list, i, c, nodes, oldValues);
        var q := oldValues[i];
        var o := backups[q];
        var drop := c <= o.mtime;
        if !drop && nodes[o.current].removed {
          nodes := nodes[o.current := nodes[o.current].(value := o.value, mtime := o.mtime)];
          drop := true;
        }
        if drop {
          oldValues := oldValues[..i] + oldValues[i + 1..];
          backups := backups - {q};
        }
      }
      FilterEnds(m, b, list, from, c, nodes, oldValues);
    }

    /** Second filter of `compress_impl`: frees the removed nodes with new ids. */
    method FilterRemoved(end: Option<nat>, nid: nat, ghost from: nat)
      requires Named(nodes, at) && Distinct(removedValues) && (forall a <- removedValues :: a in nodes)
      requires from <= |removedValues| && end == MarkAt(removedValues, from)
      modifies this`nodes, this`removedValues, this`at
      ensures removedValues == old(removedValues)[..from] + KeptNodes(old(nodes), old(removedValues)[from..], nid)
      ensures nodes == DropRemoved(old(nodes), Elems(old(removedValues)[from..]), nid) && at == Names(old(at), nodes)
    {
      hide Named, Distinct, MarkAt, Freeing, DropRemoved, KeptNodes, Elems, Names;
      ghost var m, names, list := nodes, at, removedValues;
      FreeBegins(m, at, list, nid);
      AtMark(list, from, |list|);
      var i := |removedValues|;
      while i > 0 && Some(removedValues[i - 1]) != end
        invariant from <= i <= |list| && i <= |removedValues| && (i > 0 ==> removedValues[i - 1] == list[i - 1])
        invariant i == 0 || Some(list[i - 1]) == end <==> i == from
        invariant Freeing(m, list, i, nid, nodes, removedValues)
        invariant Named(nodes, at) && at == Names(names, nodes)
        decreases i
      {
        i := i - 1;
        AtMark(list, from, i);
        FreeStep(m, names, list, i, nid, nodes, removedValues);
        var p := removedValues[i];
        if nid <= nodes[p].id {
          removedValues := removedValues[..i] + removedValues[i + 1..];
          DisposeNode(p);
        }
      }
      FreeEnds(m, list, from, nid, nodes, removedValues);
    }

    /** `compress_impl` for everything that started at time `c` with the next id `nid`. */
    method CompressImpl(c: nat, nid: nat)
      requires Scalars() && Ready(View(), model, c, nid)
      modifies this
      ensures leaked == old(leaked)
      ensures Rep() && model == UndoModel.CompressImpl(old(model), c, nid)
    {
      hide Named, Distinct, Live, MarkAt, Stored, Indexed, KeptAddrs, Entries, Ready, KeptNodes, Elems, Names,
        KeptBackups, FoldNodes, DropRemoved, UndoModel.CompressImpl;
      ghost var l, s := View(), model;
      CompressBegins(l, s, c, nid);
      CompressDone(l, s, c, nid);
      var info := undoStack[|undoStack| - 1];
      ghost var n := |s.stack|;
      ghost var from, removedFrom := oldCuts[n - 1], removedCuts[n - 1];
      FilterOld(info.oldValuesEnd, c, from);
      FoldedNodes(l, s, c, nid, nodes, removedFrom);
      FilterRemoved(info.removedValuesEnd, nid, removedFrom);
      CompressEnds(l, s, c, nid, View());
      model := UndoModel.CompressImpl(s, c, nid);
    }

    /** `compress_last_undo_session` */
    method CompressLast()
      requires Valid() && undoStack != []
      modifies this
      ensures leaked == old(leaked)
      ensures old(model).stack != [] && Valid() && model == UndoModel.CompressLast(old(model))
    {
      hide Sturdy, Stored, Indexed, Ready, UndoModel.CompressImpl;
      ghost var l, s := View(), model;
      StackLengths(l, s);
      ReadyLast(l, s);
      CompressLastSturdy(s);
      CompressImpl(undoStack[|undoStack| - 1].ctime, undoStack[|undoStack| - 1].oldNextId);
    }

    /** `last_undo_session`: what has changed since the top session started. `added` are the nodes of
      * the new ids, `olds` the backups of the changed objects, `gone` the nodes of the removed ones. */
    method LastSession() returns (added: seq<nat>, olds: seq<nat>, gone: seq<nat>)
      requires Valid()
      modifies this
      ensures leaked == old(leaked)
      ensures Valid()
      ensures old(model).stack == [] ==> added == olds == gone == [] && View() == old(View()) && model == old(model)
      ensures old(model).stack != [] ==>
        model == UndoModel.CompressLast(old(model)) &&
          Delta(View(), UndoModel.Undo(old(model)).main, model.main, added, olds, gone)
    {
      hide Sturdy, Stored, Indexed, UndoModel.CompressLast, UndoModel.Undo, Delta, LowerBound, BacksUp;
      StackLengths(View(), model);
      if undoStack == [] {
        return [], [], [];
      }
      DeltaIsExact(model);
      ghost var s := model;
      CompressLast();
      CompressLastStack(s);
      added, olds, gone := Ranges();
      DeltaShown(View(), model, UndoModel.Undo(s).main, added, olds, gone);
    }

    /** The parts of the index and of the two lists that belong to the top session. */
    method Ranges() returns (added: seq<nat>, olds: seq<nat>, gone: seq<nat>)
      requires Valid() && model.stack != []
      ensures |oldCuts| == |model.stack| == |removedCuts| && indices != []
      ensures oldCuts[|model.stack| - 1] <= |oldValues| && olds == oldValues[oldCuts[|model.stack| - 1]..]
      ensures removedCuts[|model.stack| - 1] <= |removedValues|
      ensures gone == removedValues[removedCuts[|model.stack| - 1]..]
      ensures added == indices[0][LowerBound(nodes, 0, indices[0], Top(model).oldNextId)..]
    {
      hide Sturdy, Stored, Indexed, MarkAt, Newer, LowerBound;
      StackLengths(View(), model);
      var info := undoStack[|undoStack| - 1];
      DeltaMarks(View(), model);
      added := indices[0][LowerBound(nodes, 0, indices[0], info.oldNextId)..];
      olds := Newer(oldValues, info.oldValuesEnd);
      gone := Newer(removedValues, info.removedValuesEnd);
    }

    /** `squash_and_compress`. All saved tables stay unique exactly when what leaks into them fits. */
    method Squash()
      requires Valid()
      modifies this
      ensures leaked == old(leaked)
      ensures Valid() && model == UndoModel.Squash(old(model))
      ensures Wf(old(model)) ==> (Wf(model) <==> SquashSound(old(model)))
    {
      hide Wf, Sturdy, Stored, Indexed, Ready, Sane, SquashSound, UndoModel.SquashFast, UndoModel.CompressImpl;
      ghost var l, s := View(), model;
      StackLengths(l, s);
      SturdySane(s);
      SquashSturdy(s);
      if Wf(s) {
        SquashWfExact(s);
      }
      if |undoStack| >= 2 {
        ReadySquash(l, s);
        CompressImpl(undoStack[|undoStack| - 2].ctime, undoStack[|undoStack| - 2].oldNextId);
      }
      SquashFast();
    }

    // ----- commit

    /** First half of `dispose`: frees the backups behind the mark, which keeps its own. */
    method DisposeOld(mark: nat, ghost i: nat)
      requires Distinct(oldValues) && (forall q :: q in oldValues <==> q in backups)
      requires 0 < i <= |oldValues| && mark == oldValues[i - 1]
      modifies this`oldValues, this`backups
      ensures oldValues == old(oldValues)[i - 1..] && backups == KeptBackups(old(backups), oldValues)
    {
      hide Distinct, KeptBackups, Behind;
      ghost var b, list := backups, oldValues;
      var pos: nat := Position(oldValues, mark);
      BehindBegins(list, i, pos);
      KeptAll(b, list);
      while pos > 0
        invariant pos < |oldValues| && Behind(list, i, pos, oldValues)
        invariant backups == KeptBackups(b, oldValues)
        decreases pos
      {
        var q := oldValues[pos - 1];
        BehindStep(list, i, pos, oldValues);
        KeptBut(b, oldValues, pos - 1);
        oldValues := oldValues[..pos - 1] + oldValues[pos..];
        backups := backups - {q};
        pos := pos - 1;
      }
      BehindEnds(list, i, oldValues);
    }

    /** Second half of `dispose`: frees the removed nodes behind the mark. */
    method DisposeRemoved(mark: nat, ghost i: nat)
      requires Named(nodes, at) && Distinct(removedValues) && (forall a <- removedValues :: a in nodes)
      requires 0 < i <= |removedValues| && mark == removedValues[i - 1]
      modifies this`removedValues, this`nodes, this`at
      ensures removedValues == old(removedValues)[i - 1..]
      ensures nodes == Without(old(nodes), Elems(old(removedValues)[..i - 1])) && at == Names(old(at), nodes)
    {
      hide Distinct, Behind, Named, Names, Without, Elems;
      ghost var m, names, list := nodes, at, removedValues;
      var pos: nat := Position(removedValues, mark);
      BehindBegins(list, i, pos);
      WithoutBegins(m, at, list, i);
      while pos > 0
        invariant pos < |removedValues| && Behind(list, i, pos, removedValues)
        invariant nodes == Without(m, Elems(list[pos..i - 1])) && at == Names(names, nodes) && Named(nodes, at)
        decreases pos
      {
        var p := removedValues[pos - 1];
        BehindStep(list, i, pos, removedValues);
        WithoutStep(m, names, list, i, pos, nodes);
        removedValues := removedValues[..pos - 1] + removedValues[pos..];
        DisposeNode(p);
        pos := pos - 1;
      }
      BehindEnds(list, i, removedValues);
    }

    /** `dispose`: frees what lies behind the marks of session `i`. */
    method Dispose(marks: UndoState, ghost i: nat)
      requires Stored(View(), model) && i < |model.stack| && |undoStack| == |model.stack| && marks == undoStack[i]
      modifies this`oldValues, this`backups, this`removedValues, this`nodes, this`at
      ensures Committable(old(View()), i)
      ensures Layout(nodes, backups, indices, undoStack[i..], oldValues, removedValues, at,
          Shifted(oldCuts, i, Floor(oldCuts[i])), Shifted(removedCuts, i, Floor(removedCuts[i]))) ==
            CommittedLayout(old(View()), i)
    {
      hide Stored, Named, Distinct, Without, KeptBackups, Shifted, Elems, MarkAt, Names;
      CommitParts(View(), model, i);
      MarkIs(oldValues, oldCuts[i]);
      MarkIs(removedValues, removedCuts[i]);
      NothingBehind(View());
      if marks.oldValuesEnd.Some? {
        DisposeOld(marks.oldValuesEnd.value, oldCuts[i]);
      }
      if marks.removedValuesEnd.Some? {
        DisposeRemoved(marks.removedValuesEnd.value, removedCuts[i]);
      }
    }

    /** `commit`: drops the sessions that started before revision `r`. */
    method Commit(r: nat)
      requires Valid()
      modifies this
      ensures leaked == old(leaked)
      ensures Valid() && model == UndoModel.Commit(old(model), r)
    {
      hide Sturdy, Stored, Indexed, LiveNodes, Names, CommittedLayout, Shifted, Floor, Committable;
      ghost var l, s := View(), model;
      StackLengths(l, s);
      SturdyDepth(s);
      CommitSturdy(s, r);
      CommitKeeps(s, r);
      var target := if r < revision then r else revision;
      if target == revision {
        ClearedStored(l, s, s.revision);
        DisposeUndo();
        undoStack, oldCuts, removedCuts := [], [], [];
      } else if revision - target < |undoStack| {
        var i := |undoStack| - (revision - target);
        CommitDone(l, s, i);
        Dispose(undoStack[i], i);
        undoStack := undoStack[i..];
        oldCuts, removedCuts := CommittedLayout(l, i).oldCuts, CommittedLayout(l, i).removedCuts;
      }
      model := UndoModel.Commit(s, r);
    }

    // ----- revisions

    /** `set_revision`; false stands for the exception. */
    method SetRevision(r: nat) returns (ok: bool)
      requires Valid()
      modifies this
      ensures leaked == old(leaked)
      ensures ok <==> old(undoStack) == [] && old(revision) <= r
      ensures revision == if ok then r else old(revision)
      ensures Valid() && model == UndoModel.SetRevision(old(model), r) && ok == MaySetRevision(old(model), r)
      ensures !ok ==> View() == old(View())
    {
      hide Sturdy, Stored, Indexed;
      StackLengths(View(), model);
      SetRevisionSturdy(model, r);
      SetRevisionStored(View(), model, r);
      if undoStack != [] || r < revision {
        return false;
      }
      revision := r;
      model := UndoModel.SetRevision(model, r);
      return true;
    }

    /** `revision` */
    method Revision() returns (r: int)
      requires Valid()
      ensures r == model.revision
    {
      hide Sturdy, Stored, Indexed;
      r := revision;
    }

    /** `undo_stack_revision_range` */
    method RevisionRange() returns (first: int, last: int)
      requires Valid()
      ensures first == model.revision - |model.stack| && last == model.revision
      ensures 0 <= first <= last
    {
      hide Stored, Indexed, Sturdy;
      StackLengths(View(), model);
      SturdyDepth(model);
      first, last := revision - |undoStack|, revision;
    }
  }

  lemma ValidIsShown(t: Table)
    requires t.Valid()
    ensures t.Shown()
  {
    hide RemovedOk, BackupsOk, MarksOk, IdsOk, Sturdy, IndicesOk, Shows, Named;
  }

  /** Every index holds exactly the objects of the table, and is strictly sorted exactly if the keys are unique. */
  lemma ShownIndices(t: Table)
    requires t.Shown()
    ensures AllStrict(t.nodes, t.indices) <==> Unique(t.model.main, t.model.width)
    ensures forall id: nat, k | 0 <= k < |t.indices| :: id in t.model.main <==> id in t.at && t.at[id] in t.indices[k]
  {
    hide AllStrict, Unique, Sorted;
    StrictIs(t.nodes, t.at, t.indices, t.model);
    forall id: nat, k | 0 <= k < |t.indices|
      ensures id in t.model.main <==> id in t.at && t.at[id] in t.indices[k]
    {
      assert Holds(t.indices[k], MainSet(t.nodes));
    }
  }

  /** Every index is in ascending order, index 0 of the ids and index `k` of the keys `k - 1`; where the keys are
    * unique, no two nodes have the same. The nodes in it have the values of the objects. */
  lemma ShownOrder(t: Table, k: nat, i: nat, j: nat)
    requires t.Shown() && k < |t.indices| && i < j < |t.indices[k]|
    ensures t.indices[k][i] in t.nodes && t.indices[k][j] in t.nodes
    ensures var a, b := t.nodes[t.indices[k][i]], t.nodes[t.indices[k][j]];
      && a.id in t.model.main && t.model.main[a.id].value == a.value
      && b.id in t.model.main && t.model.main[b.id].value == b.value
      && (k == 0 ==> a.id < b.id)
      && (0 < k <= |a.value.keys| && k <= |b.value.keys| ==>
            && a.value.keys[k - 1] <= b.value.keys[k - 1]
            && (Unique(t.model.main, t.model.width) ==> a.value.keys[k - 1] < b.value.keys[k - 1]))
  {
    hide Unique;
    var idx := t.indices[k];
    StrictIs(t.nodes, t.at, t.indices, t.model);
    assert Holds(idx, MainSet(t.nodes)) && Sorted(t.nodes, k, idx);
    assert idx[i] in idx && idx[j] in idx;
    assert Unique(t.model.main, t.model.width) ==> Strict(t.nodes, k, idx);
  }

  /** After undo, whatever else is lost: an object of the saved table that shares no key, or was not removed, is in
    * every index, and one put back whose key belongs to an object that was not removed is in none. */
  lemma UndoneIndices(t: Table, s: State, id: nat, k: nat)
    requires t.Shown() && UndoesTo(s, t.model) && id in UndoModel.Undo(s).main && k < |t.indices|
    ensures !Shares(s, id) ==> id in t.at && t.at[id] in t.indices[k]
    ensures Taken(s, id) ==> !(id in t.at && t.at[id] in t.indices[k])
  {
    hide Shares, Taken, UndoModel.Undo, Loses, Table.Shown;
    ShownIndices(t);
    LostShare(s, LostIn(s, t.model), id);
  }
}
