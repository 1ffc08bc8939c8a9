/** Where the node of a backup is. The header says that every key in `old_values` is in the table or in
  * `removed_values`; this is exactly when it is so. */
module UndoBackups {
  import opened Basics
  import opened Tables
  import opened UndoModel
  import opened UndoInvariant
  import opened UndoLeaks
  import opened UndoLosses
  import opened UndoRefinement
  import opened UndoExactness
  import opened UndoRuns

  // ----- backups that undo may use

  /** The node of a backup that is usable, or at least not new to its session, is in the table or was removed
    * in the same or a later session. */
  ghost predicate Reached(s: State) {
    forall j | 0 <= j < |s.stack| ::
      forall e <- s.stack[j].olds | e.row.mtime < s.stack[j].ctime || e.id < s.stack[j].oldNextId ::
        e.id in s.main || exists k :: j <= k < |s.stack| && e.id in s.stack[k].removed
  }

  lemma {:induction false} SturdyReached(s: State)
    requires Sturdy(s)
    ensures Reached(s)
    decreases |s.stack|
  {
    hide Sturdy, SessionBounds, Growing, Single, BackupsOlder, StampsDatable, Ordered;
    SturdyParts(s);
    if s.stack != [] {
      var u, n := Undo(s), |s.stack| - 1;
      SturdyReached(u);
      assert u.stack == s.stack[..n];
      forall j, e |
        0 <= j <= n && e in s.stack[j].olds && (e.row.mtime < s.stack[j].ctime || e.id < s.stack[j].oldNextId)
        ensures e.id in s.main || exists k :: j <= k < |s.stack| && e.id in s.stack[k].removed
      {
        if j < n {
          assert u.stack[j] == s.stack[j];
          ReachedUp(s, j, e.id);
        } else if e.id !in s.main {
          assert e.id in Base(s.main, Top(s));
          assert e.id in s.stack[n].removed;
        }
      }
    }
  }

  lemma ReachedUp(s: State, j: nat, id: nat)
    requires s.stack != [] && j < |s.stack| - 1
    requires id in Undo(s).main || exists k :: j <= k < |Undo(s).stack| && id in Undo(s).stack[k].removed
    ensures id in s.main || exists k :: j <= k < |s.stack| && id in s.stack[k].removed
  {
    var n := |s.stack| - 1;
    if id in Undo(s).main {
      assert id in s.main || id in s.stack[n].removed;
    } else {
      var k :| j <= k < |Undo(s).stack| && id in Undo(s).stack[k].removed;
      assert s.stack[k] == Undo(s).stack[k];
    }
  }

  // ----- all backups

  /** The object has a node: in the table, or among the removed ones of some session. */
  ghost predicate HasNode(s: State, id: nat) {
    id in s.main || exists k :: 0 <= k < |s.stack| && id in s.stack[k].removed
  }

  /** What the header says of `old_values`. */
  ghost predicate BackupsHaveNodes(s: State) {
    forall j | 0 <= j < |s.stack| :: forall e <- s.stack[j].olds :: HasNode(s, e.id)
  }

  /** It can only fail for a backup of an object that is new to the session which holds the backup. */
  lemma OnlyNewMayLack(s: State)
    requires Sturdy(s)
    ensures BackupsHaveNodes(s) <==>
      forall j | 0 <= j < |s.stack| :: forall e <- s.stack[j].olds | s.stack[j].oldNextId <= e.id :: HasNode(s, e.id)
  {
    hide Sturdy;
    SturdyReached(s);
    forall j, e | 0 <= j < |s.stack| && e in s.stack[j].olds && e.id < s.stack[j].oldNextId ensures HasNode(s, e.id) {
      assert e.id in s.main || exists k :: j <= k < |s.stack| && e.id in s.stack[k].removed;
    }
  }

  // ----- session by session

  /** Objects that are new to the top session, and backed up in it, are there when it is undone. */
  ghost predicate NewHaveNodes(s: State)
    requires s.stack != []
  {
    forall e <- Top(s).olds | Top(s).oldNextId <= e.id :: e.id in Base(s.main, Top(s))
  }

  /** At every level that undo reaches. */
  ghost predicate NewHaveNodesBelow(s: State)
    decreases |s.stack|
  {
    s.stack != [] ==> NewHaveNodes(s) && NewHaveNodesBelow(Undo(s))
  }

  /** What belongs to lower sessions is older than the top one. */
  lemma {:induction false} LowerAreOlder(s: State)
    requires Sturdy(s)
    ensures forall j | 0 <= j < |s.stack| :: forall e <- s.stack[j].olds :: e.id < s.nextId
    ensures forall j | 0 <= j < |s.stack| :: forall id <- s.stack[j].removed :: id < s.nextId
    decreases |s.stack|
  {
    hide Sturdy, Growing, Single, BackupsLive, BackupsOlder, StampsDatable;
    SturdyParts(s);
    if s.stack != [] {
      var u := Undo(s);
      LowerAreOlder(u);
      assert u.stack == s.stack[..|s.stack| - 1] && u.nextId == Top(s).oldNextId;
      forall j | 0 <= j < |s.stack|
        ensures (forall e <- s.stack[j].olds :: e.id < s.nextId) && (forall id <- s.stack[j].removed :: id < s.nextId)
      {
        if j < |u.stack| {
          assert s.stack[j] == u.stack[j];
        }
      }
    }
  }

  /** For an object older than the top session, undo changes nothing about having a node. */
  lemma NodeBelow(s: State, id: nat)
    requires s.stack != []
    ensures HasNode(s, id) <==>
      id in Base(s.main, Top(s)) || exists k :: 0 <= k < |Undo(s).stack| && id in Undo(s).stack[k].removed
    ensures HasNode(Undo(s), id) ==> HasNode(s, id)
    ensures id < Top(s).oldNextId && HasNode(s, id) ==> HasNode(Undo(s), id)
  {
    var u, n := Undo(s), |s.stack| - 1;
    assert u.stack == s.stack[..n];
    if k :| 0 <= k < |s.stack| && id in s.stack[k].removed {
      if k < n {
        assert u.stack[k] == s.stack[k];
      }
    }
    if k :| 0 <= k < |u.stack| && id in u.stack[k].removed {
      assert s.stack[k] == u.stack[k];
    }
  }

  lemma {:induction false} NodesByLevel(s: State)
    requires Sturdy(s)
    ensures BackupsHaveNodes(s) <==> NewHaveNodesBelow(s)
    decreases |s.stack|
  {
    hide Sturdy, Base, HasNode;
    SturdyParts(s);
    if s.stack != [] {
      NodesByLevel(Undo(s));
      LevelNodes(s);
    }
  }

  lemma LevelNodes(s: State)
    requires Sturdy(s) && s.stack != []
    ensures BackupsHaveNodes(s) <==> NewHaveNodes(s) && BackupsHaveNodes(Undo(s))
  {
    hide Sturdy, Growing, Single, BackupsOlder, StampsDatable, SessionBounds, HasNode, Base;
    var u, n := Undo(s), |s.stack| - 1;
    SturdyParts(s);
    LowerAreOlder(u);
    assert u.stack == s.stack[..n] && u.nextId == Top(s).oldNextId;
    forall id: nat
      ensures HasNode(s, id) <==>
        id in Base(s.main, Top(s)) || exists k :: 0 <= k < |u.stack| && id in u.stack[k].removed
      ensures HasNode(u, id) ==> HasNode(s, id)
      ensures id < Top(s).oldNextId && HasNode(s, id) ==> HasNode(u, id)
    {
      NodeBelow(s, id);
    }
    forall j | 0 <= j < n ensures s.stack[j] == u.stack[j] {}
  }

  // ----- one step

  /** The operation frees a node that a backup of the same session still belongs to, or loses an object of
    * which a session still has a backup. */
  ghost predicate Orphans(s: State, op: Op, r: State)
    requires Enabled(s, op)
  {
    match op
    case DoRemove(id) => BackedUpNew(s, id)
    case DoModify(id, v) => ModifyOutcome(s, id, v).Erased? && BackedUpNew(s, id)
    case DoSquash =>
      |s.stack| > 1 && exists e <- Top(Pop(s)).olds :: Top(Pop(s)).oldNextId <= e.id && e.id in Top(s).removed
    case DoUndo => BacksUpAny(r, LostIn(s, r))
    case _ => false
  }

  /** Some session has a backup of one of the objects. */
  ghost predicate BacksUpAny(s: State, ids: set<nat>) {
    exists j | 0 <= j < |s.stack| :: exists e <- s.stack[j].olds :: e.id in ids
  }

  /** The object is new to the top session, which nevertheless holds a backup of it. */
  ghost predicate BackedUpNew(s: State, id: nat) {
    s.stack != [] && Top(s).oldNextId <= id && exists e <- Top(s).olds :: e.id == id
  }

  /** Only ids and sessions matter. */
  lemma {:induction false} NodesAlike(s: State, r: State)
    requires r.main.Keys == s.main.Keys && r.stack == s.stack
    ensures NewHaveNodesBelow(r) <==> NewHaveNodesBelow(s)
    decreases |s.stack|
  {
    if s.stack != [] {
      NodesAlike(Undo(s), Undo(r));
    }
  }

  /** After a step that leaves the lower sessions, with the ids that undo gives, it depends on the top one. */
  lemma TopDecides(s: State, r: State)
    requires s.stack != [] && r.stack != [] && NewHaveNodesBelow(s)
    requires Undo(r).main.Keys == Undo(s).main.Keys && Undo(r).stack == Undo(s).stack
    ensures NewHaveNodesBelow(r) <==> NewHaveNodes(r)
  {
    NodesAlike(Undo(s), Undo(r));
  }

  lemma ModifyNodes(s: State, id: nat, v: Value)
    requires Sturdy(s) && id in s.main && NewHaveNodesBelow(s)
    ensures NewHaveNodesBelow(Modify(s, id, v)) <==> !Orphans(s, DoModify(id, v), s)
  {
    hide Sturdy, Fits, NewHaveNodesBelow, Undo, ModifyLeak, Overlay;
    var r := Modify(s, id, v);
    ModifyTable(s, id, v);
    if s.stack == [] {
      EmptyNodes(r);
    } else {
      ModifyLeaks(s, id, v);
      OverlayNodes(Undo(s), ModifyLeak(s, id, v));
      TopDecides(s, r);
      ModifyTopNodes(s, id, v);
    }
  }

  lemma EmptyNodes(s: State)
    requires s.stack == []
    ensures NewHaveNodesBelow(s)
  {}

  lemma OverlayNodes(s: State, rows: Table)
    requires Later(s, rows)
    ensures Overlay(s, rows).main.Keys == s.main.Keys && Overlay(s, rows).stack == s.stack
  {}

  lemma ModifyTopNodes(s: State, id: nat, v: Value)
    requires Sturdy(s) && s.stack != [] && id in s.main && NewHaveNodesBelow(s)
    ensures Modify(s, id, v).stack != []
    ensures NewHaveNodes(Modify(s, id, v)) <==> !Orphans(s, DoModify(id, v), s)
  {
    hide Sturdy, Fits, NewHaveNodes, Remove, NewHaveNodesBelow;
    SturdyApart(s);
    assert NewHaveNodes(s) by { TopOfAll(s); }
    if ModifyOutcome(s, id, v).Erased? {
      ChangedTopNodes(s, Overwritten(s, id, v));
      RemoveTopNodes(Overwritten(s, id, v), id);
    } else {
      ChangedTopNodes(s, Modify(s, id, v));
    }
  }

  lemma TopOfAll(s: State)
    requires s.stack != [] && NewHaveNodesBelow(s)
    ensures NewHaveNodes(s)
  {}

  /** A change of objects in the table, with backups or without. */
  lemma ChangedTopNodes(s: State, r: State)
    requires s.stack != [] && r.stack != [] && NewHaveNodes(s) && r.main.Keys == s.main.Keys
    requires Top(r).removed == Top(s).removed && Top(r).oldNextId == Top(s).oldNextId
    requires forall e <- Top(r).olds :: e in Top(s).olds || e.id in s.main
    ensures NewHaveNodes(r)
  {}

  lemma RemoveTopNodes(s: State, id: nat)
    requires s.stack != [] && s.main.Keys !! Top(s).removed.Keys && id in s.main && NewHaveNodes(s)
    ensures Remove(s, id).stack != []
    ensures NewHaveNodes(Remove(s, id)) <==> !BackedUpNew(s, id)
  {
    if BackedUpNew(s, id) {
      var e :| e in Top(s).olds && e.id == id;
      assert e.id !in Base(Remove(s, id).main, Top(Remove(s, id)));
    }
  }

  lemma RemoveNodes(s: State, id: nat)
    requires Sturdy(s) && id in s.main && NewHaveNodesBelow(s)
    ensures NewHaveNodesBelow(Remove(s, id)) <==> !BackedUpNew(s, id)
  {
    hide Sturdy, Undo;
    SturdyApart(s);
    if s.stack != [] {
      RemoveSturdy(s, id);
      TopDecides(s, Remove(s, id));
      RemoveTopNodes(s, id);
    }
  }

  lemma EmplaceNodes(s: State, v: Value)
    requires Sturdy(s) && NewHaveNodesBelow(s)
    ensures NewHaveNodesBelow(Emplace(s, v))
  {
    hide Sturdy, Undo, Fits;
    if s.stack != [] {
      EmplaceBelow(s, v);
      TopDecides(s, Emplace(s, v));
    }
  }

  lemma StartNodes(s: State)
    requires Sturdy(s) && NewHaveNodesBelow(s)
    ensures NewHaveNodesBelow(Start(s))
  {
    hide Sturdy;
    StartBelow(s);
    NodesAlike(s, Undo(Start(s)));
  }

  lemma SquashFastNodes(s: State)
    requires Sturdy(s) && NewHaveNodesBelow(s)
    ensures NewHaveNodesBelow(SquashFast(s))
  {
    hide Sturdy, Stacked;
    if |s.stack| > 1 {
      var r, w := SquashFast(s), Undo(Undo(s));
      SquashLeaks(s);
      OverlayNodes(w, SquashLeak(s));
      TopDecides(Undo(s), r);
      MergedNodes(s);
    }
  }

  lemma MergedNodes(s: State)
    requires Sturdy(s) && |s.stack| > 1 && NewHaveNodes(s) && NewHaveNodes(Undo(s))
    ensures SquashFast(s).stack != [] && NewHaveNodes(SquashFast(s))
  {
    hide Sturdy;
    SturdyStacked(s);
    var t, b := Top(s), Top(Pop(s));
    assert Top(Undo(s)) == b;
    forall e <- b.olds + t.olds | b.oldNextId <= e.id ensures e.id in Base(s.main, Merge(b, t)) {
      if e in b.olds {
        assert e.id in Base(Undo(s).main, b);
      }
    }
  }

  lemma SquashNodes(s: State)
    requires Sturdy(s) && NewHaveNodesBelow(s)
    ensures NewHaveNodesBelow(Squash(s)) <==> !Orphans(s, DoSquash, s)
  {
    hide Sturdy, Stacked, Undo, Overlay, SquashLeak, Squash, SquashFast;
    SquashTop(s);
    if |s.stack| > 1 {
      var r := Squash(s);
      SquashSturdy(s);
      SquashLeaks(s);
      OverlayNodes(Undo(Undo(s)), SquashLeak(s));
      UndoDepth(s);
      SquashedNodes(s);
      TopDecides(Undo(s), r);
    }
  }

  lemma SquashedNodes(s: State)
    requires Sturdy(s) && |s.stack| > 1 && NewHaveNodes(s) && Undo(s).stack != [] && NewHaveNodes(Undo(s))
    ensures Squash(s).stack != [] && (NewHaveNodes(Squash(s)) <==> !Orphans(s, DoSquash, s))
  {
    hide Sturdy, Growing, Single, BackupsOlder, StampsDatable;
    SturdyStacked(s);
    var t, b, r := Top(s), Top(Pop(s)), Squash(s);
    MergeLive(s.main, t, b);
    MergeOlder(s.main, t, b);
    SquashTopIs(s);
    assert Top(Undo(s)) == b;
    forall e <- Top(r).olds | b.oldNextId <= e.id ensures e in b.olds && e.id in Base(Undo(s).main, b) {
      KeptMember(t.olds, b.ctime, t.removed.Keys, e);
    }
    assert forall id | b.oldNextId <= id :: id in Base(s.main, Top(r)) <==> id in s.main || id in b.removed;
    if e :| e in b.olds && b.oldNextId <= e.id && e.id in t.removed {
      assert e in Top(r).olds && e.id !in Base(s.main, Top(r));
    }
  }

  /** The session that `squash` leaves on top. */
  lemma SquashTopIs(s: State)
    requires |s.stack| > 1
    ensures var t, b, r := Top(s), Top(Pop(s)), Squash(s);
      && r.stack != [] && r.main == s.main && Top(r).oldNextId == b.oldNextId
      && Top(r).olds == b.olds + KeptOlds(t.olds, b.ctime, t.removed.Keys)
      && Top(r).removed == b.removed + FoldedTable(t, b.ctime, b.oldNextId)
  {}

  lemma CompressNodes(s: State)
    requires Sturdy(s) && s.stack != [] && NewHaveNodesBelow(s)
    ensures NewHaveNodesBelow(CompressLast(s))
  {
    hide Sturdy, Undo;
    var t, r := Top(s), CompressLast(s);
    CompressLastSturdy(s);
    TopDecides(s, r);
    assert NewHaveNodes(s);
    forall e <- Top(r).olds | t.oldNextId <= e.id ensures e.id in Base(r.main, Top(r)) {
      KeptMember(t.olds, t.ctime, t.removed.Keys, e);
    }
  }

  lemma {:induction false} KeepNodes(s: State, n: nat)
    requires NewHaveNodesBelow(s) && n <= |s.stack|
    ensures NewHaveNodesBelow(Keep(s, n))
    decreases |s.stack|
  {
    if n > 0 {
      KeepUndo(s, n);
      KeepNodes(Undo(s), n - 1);
      assert Top(Keep(s, n)) == Top(s);
    }
  }

  /** If every backup has its node, then so it is after the operation if and only if that neither frees nor loses
    * the node of a backup. */
  lemma StepNodes(s: State, op: Op, r: State)
    requires Sturdy(s) && BackupsHaveNodes(s) && Enabled(s, op) && Does(s, op, r)
    ensures BackupsHaveNodes(r) <==> !Orphans(s, op, r)
  {
    hide Sturdy, BackupsHaveNodes, BackedUpNew, BacksUpAny, ModifyOutcome, UndoesTo, Emplace, Modify, Remove, Start,
      Undo, Squash, SquashFast, CompressLast, Commit;
    NodesByLevel(s);
    if op.DoUndo? {
      UndoKeepsNodes(s, r);
    } else {
      StepSturdy(s, op, r);
      NodesByLevel(r);
      match op
      case DoEmplace(v) => EmplaceNodes(s, v);
      case DoModify(id, v) => ModifyNodes(s, id, v);
      case DoRemove(id) => RemoveNodes(s, id);
      case DoStart => StartNodes(s);
      case DoSquash => SquashNodes(s);
      case DoSquashFast => SquashFastNodes(s);
      case DoCompress => CompressNodes(s);
      case DoCommit(to) => SturdyDepth(s); CommitKeeps(s, to); KeepNodes(s, Kept(s, to));
      case DoSetRevision(n) => NodesAlike(s, SetRevision(s, n));
    }
  }

  lemma UndoKeepsNodes(s: State, r: State)
    requires Sturdy(s) && NewHaveNodesBelow(s) && UndoesTo(s, r)
    ensures BackupsHaveNodes(r) <==> !BacksUpAny(r, LostIn(s, r))
  {
    hide Sturdy, Undo, Loses, BackupsHaveNodes, BacksUpAny;
    UndoSturdy(s);
    BelowNodes(s);
    NodesByLevel(Undo(s));
    LessNodes(Undo(s), LostIn(s, r));
  }

  lemma BelowNodes(s: State)
    requires NewHaveNodesBelow(s)
    ensures NewHaveNodesBelow(Undo(s))
  {}

  lemma LessNodes(s: State, lost: set<nat>)
    requires Sturdy(s) && BackupsHaveNodes(s) && lost <= s.main.Keys
    ensures BackupsHaveNodes(Less(s, lost)) <==> !BacksUpAny(Less(s, lost), lost)
  {
    hide Sturdy;
    var r := Less(s, lost);
    MainApart(s);
    forall id: nat ensures HasNode(r, id) <==> HasNode(s, id) && id !in lost {}
    if BacksUpAny(r, lost) {
      var j :| 0 <= j < |r.stack| && exists e <- r.stack[j].olds :: e.id in lost;
      var e :| e in r.stack[j].olds && e.id in lost;
      assert !HasNode(r, e.id);
    }
  }

  /** No object of the table is among the removed ones of any session. */
  lemma {:induction false} MainApart(s: State)
    requires Sturdy(s)
    ensures forall k | 0 <= k < |s.stack| :: s.main.Keys !! s.stack[k].removed.Keys
    decreases |s.stack|
  {
    hide Sturdy;
    if s.stack != [] {
      var u, n := Undo(s), |s.stack| - 1;
      SturdyApart(s);
      UndoSturdy(s);
      MainApart(u);
      LowerAreOlder(u);
      assert u.stack == s.stack[..n] && u.nextId == Top(s).oldNextId;
      forall k, id | 0 <= k < n && id in s.stack[k].removed ensures id !in s.main {
        assert u.stack[k] == s.stack[k] && id < Top(s).oldNextId && id !in u.main;
      }
    }
  }

  // ----- where it fails, and where it cannot

  /** It fails for some run: `squash_fast` leaves a backup of a new object, which is then removed and freed. */
  lemma SquashFastOrphans(v: Value, w: Value)
    ensures var s := Start(Emplace(Start(Empty(1)), v));
      && 0 in s.main
      && var t := SquashFast(Modify(s, 0, w));
      && 0 in t.main && Sturdy(t) && BackupsHaveNodes(t)
      && var r := Remove(t, 0);
      && r.stack != [] && Top(r).olds == [Entry(0, Row(v, 1))] && !HasNode(r, 0) && !BackupsHaveNodes(r)
  {
    hide Sturdy, Emplace, Modify, Start, SquashFast;
    var s := Start(Emplace(Start(Empty(1)), v));
    NewBackedUp(v, w);
    var t := SquashFast(Modify(s, 0, w));
    assert HasNode(t, 0);
    assert Top(Remove(t, 0)).olds[0].id == 0;
  }

  /** The state between `squash_fast` and the removal. */
  lemma NewBackedUp(v: Value, w: Value)
    ensures var s := Start(Emplace(Start(Empty(1)), v));
      && 0 in s.main
      && var t := SquashFast(Modify(s, 0, w));
      && Sturdy(t)
      && t == State(1, map[0 := Row(w, 2)], 1, [Session([Entry(0, Row(v, 1))], map[], 0, 1)], 1, 2)
  {
    hide Wf;
    var e := Start(Empty(1));
    var s := Start(Emplace(e, v));
    assert Wf(Bare(Empty(1))) by { EmptyWf(0); }
    StartSturdy(Empty(1));
    EmplaceSturdy(e, v);
    StartSturdy(Emplace(e, v));
    var b, t := Session([], map[], 0, 1), Session([], map[], 1, 2);
    assert s == State(1, map[0 := Row(v, 1)], 1, [b, t], 2, 2);
    ModifySturdy(s, 0, w);
    assert s.main - {0} == map[];
    var m := Modify(s, 0, w);
    assert m.main == map[0 := Row(w, 2)];
    assert [] + [Entry(0, Row(v, 1))] == [Entry(0, Row(v, 1))] && [b, t][..1] == [b];
    assert m.stack == [b, Session([Entry(0, Row(v, 1))], map[], 1, 2)];
    SquashFastSturdy(m);
  }

  /** No session holds a backup of an object that is new to it. */
  ghost predicate NoNewBackups(s: State) {
    forall j | 0 <= j < |s.stack| :: forall e <- s.stack[j].olds :: e.id < s.stack[j].oldNextId
  }

  lemma NoNewHaveNodes(s: State)
    requires Sturdy(s) && NoNewBackups(s)
    ensures BackupsHaveNodes(s)
  {
    hide Sturdy, HasNode;
    OnlyNewMayLack(s);
  }

  /** Only `squash_fast` can leave such a backup. */
  lemma StepNoNew(s: State, op: Op, r: State)
    requires Sturdy(s) && NoNewBackups(s) && Enabled(s, op) && !op.DoSquashFast? && Does(s, op, r)
    ensures NoNewBackups(r)
  {
    hide Sturdy, NoNewBackups, Emplace, Modify, Remove, Start, Undo, Squash, CompressLast, Commit, SetRevision,
      UndoesTo;
    match op
    case DoEmplace(v) => SameNoNew(s, r);
    case DoModify(id, v) => ModifyNoNew(s, id, v);
    case DoRemove(id) => RemoveNoNew(s, id);
    case DoStart => StartNoNew(s);
    case DoUndo => UndoNoNew(s, r);
    case DoSquash => SquashNoNew(s);
    case DoCompress => CompressNoNew(s);
    case DoCommit(to) => SturdyDepth(s); CommitKeeps(s, to); KeepNoNew(s, Kept(s, to));
    case DoSetRevision(n) => SameNoNew(s, r);
  }

  lemma SameNoNew(s: State, r: State)
    requires NoNewBackups(s)
    ensures r.stack == s.stack ==> NoNewBackups(r)
    ensures forall v :: Emplace(s, v).stack == s.stack
    ensures forall n: nat :: SetRevision(s, n).stack == s.stack
  {}

  lemma ModifyNoNew(s: State, id: nat, v: Value)
    requires Sturdy(s) && NoNewBackups(s) && id in s.main
    ensures NoNewBackups(Modify(s, id, v))
  {
    hide Sturdy, Fits, Growing, Single, BackupsLive, BackupsOlder, SessionBounds;
    SturdyParts(s);
  }

  lemma RemoveNoNew(s: State, id: nat)
    requires NoNewBackups(s) && id in s.main
    ensures NoNewBackups(Remove(s, id))
  {}

  lemma StartNoNew(s: State)
    requires NoNewBackups(s)
    ensures NoNewBackups(Start(s))
  {}

  lemma UndoNoNew(s: State, r: State)
    requires NoNewBackups(s) && UndoesTo(s, r)
    ensures NoNewBackups(r)
  {}

  lemma KeepNoNew(s: State, n: nat)
    requires NoNewBackups(s) && n <= |s.stack|
    ensures NoNewBackups(Keep(s, n))
  {}

  lemma SquashNoNew(s: State)
    requires Sturdy(s) && NoNewBackups(s)
    ensures NoNewBackups(Squash(s))
  {
    hide Sturdy, Growing, Single, BackupsOlder, StampsDatable;
    if |s.stack| > 1 {
      var t, b, n := Top(s), Top(Pop(s)), |s.stack| - 2;
      SturdyStacked(s);
      MergeLive(s.main, t, b);
      SquashTopIs(s);
      assert Squash(s).stack[..n] == s.stack[..n];
      forall e <- Top(Squash(s)).olds ensures e.id < b.oldNextId {
        KeptMember(t.olds, b.ctime, t.removed.Keys, e);
      }
    }
  }

  lemma CompressNoNew(s: State)
    requires s.stack != [] && NoNewBackups(s)
    ensures NoNewBackups(CompressLast(s))
  {
    var t := Top(s);
    forall e <- Top(CompressLast(s)).olds ensures e in t.olds {
      KeptMember(t.olds, t.ctime, t.removed.Keys, e);
    }
  }

  /** Without `squash_fast`, what the header says holds over every run that may go on. */
  lemma {:induction false} RunNodes(states: seq<State>, ops: seq<Op>, i: nat)
    requires CodeRun(states, ops) && (forall op <- ops :: !op.DoSquashFast?) && i <= |ops|
    requires Sturdy(states[0]) && NoNewBackups(states[0])
    ensures i == 0 || GoesOn(states[i - 1], ops[i - 1], states[i]) ==>
      Sturdy(states[i]) && NoNewBackups(states[i]) && BackupsHaveNodes(states[i])
    decreases i
  {
    hide Sturdy, NoNewBackups, BackupsHaveNodes, Does, Goes, GoesOn, Enabled;
    if i == 0 {
      NoNewHaveNodes(states[0]);
    } else if GoesOn(states[i - 1], ops[i - 1], states[i]) {
      RunNodes(states, ops, i - 1);
      assert ops[i - 1] in ops;
      StepSturdy(states[i - 1], ops[i - 1], states[i]);
      StepNoNew(states[i - 1], ops[i - 1], states[i]);
      NoNewHaveNodes(states[i]);
    }
  }

  // ----- an undo that leaves a backup without its object

  /** The states of a run: with one session open, object 2 changes, with a backup; in another session the
    * steps of `Losing` follow. */
  ghost function OrphaningRun(): (states: seq<State>)
    ensures |states| == 6 && states[0] == ThreeObjects()
  {
    var a, b, c, d, e := Value([0], 0), Value([1], 0), Value([2], 0), Value([2], 1), Value([2], 0);
    var below, t := Session([Entry(2, Row(c, 0))], map[], 3, 1), Session([], map[], 3, 2);
    var main := map[0 := Row(a, 0), 1 := Row(b, 0), 2 := Row(d, 1)];
    [ThreeObjects(),
     State(1, main, 3, [below], 1, 1),
     State(1, main, 3, [below, t], 2, 2),
     State(1, main[0 := Row(a, 2)], 3, [below, t], 2, 2),
     State(1, map[0 := Row(a, 2), 1 := Row(b, 0)], 3, [below, t.(removed := map[2 := Row(d, 1)])], 2, 2),
     State(1, map[0 := Row(e, 2), 1 := Row(b, 0)], 3, [below, t.(removed := map[2 := Row(d, 1)])], 2, 2)]
  }

  function OrphaningOps(): (ops: seq<Op>)
    ensures |ops| == 5 && forall i | 0 <= i < 5 :: !ops[i].DoUndo? && !ops[i].DoSquashFast?
  {
    [DoModify(2, Value([2], 1)), DoStart, DoModify(0, Value([1], 0)), DoRemove(2), DoModify(0, Value([2], 0))]
  }

  lemma OrphaningSteps(i: nat)
    requires i < 5
    ensures var states, ops := OrphaningRun(), OrphaningOps();
      && Enabled(states[i], ops[i]) && Goes(states[i], ops[i]) && Does(states[i], ops[i], states[i + 1])
  {
    hide ThreeObjects, Goes, Does, Modify, Start, Remove, ModifyOutcome, OwnKeys, OrphaningRun;
    var states, b, c := OrphaningRun(), Value([1], 0), Value([2], 0);
    if i == 0 {
      ChangedBelow();
      ModifySteps(states[0], 2, Value([2], 1));
    } else if i == 1 {
      ChangedBelow();
      StartSteps(states[1]);
    } else if i == 2 {
      RevertedAbove();
      ModifySteps(states[2], 0, b);
    } else if i == 3 {
      RemovedAbove();
      RemoveSteps(states[3], 2);
    } else {
      RemovedAbove();
      ModifySteps(states[4], 0, c);
    }
  }

  lemma ChangedBelow()
    ensures var states, v := OrphaningRun(), Value([2], 1);
      && 2 in states[0].main && ModifyOutcome(states[0], 2, v) == Changed && Modify(states[0], 2, v) == states[1]
      && Start(states[1]) == states[2]
  {
    hide ThreeObjects;
    ThreeObjectsIs();
    var states, a, b, c := OrphaningRun(), Row(Value([0], 0), 0), Row(Value([1], 0), 0), Value([2], 0);
    var below := Session([Entry(2, Row(c, 0))], map[], 3, 1);
    assert states[0].main - {2} == map[0 := a, 1 := b];
    OneKeyFits(map[0 := a, 1 := b], Value([2], 1));
    assert [] + [Entry(2, Row(c, 0))] == [Entry(2, Row(c, 0))] && states[0].stack[..0] == [] && [] + [below] == [below];
    assert [below] + [Session([], map[], 3, 2)] == [below, Session([], map[], 3, 2)];
  }

  lemma RevertedAbove()
    ensures var s, v := OrphaningRun()[2], Value([1], 0);
      0 in s.main && ModifyOutcome(s, 0, v) == Reverted && OwnKeys(s, 0) && Modify(s, 0, v) == OrphaningRun()[3]
  {
    var s, b, d := OrphaningRun()[2], Value([1], 0), Row(Value([2], 1), 1);
    assert s.main - {0} == map[1 := Row(b, 0), 2 := d];
    OneKeyFits(map[1 := Row(b, 0), 2 := d], Value([0], 0));
    assert Key((s.main - {0})[1].value, 0) == Key(b, 0);
  }

  lemma RemovedAbove()
    ensures var states, v := OrphaningRun(), Value([2], 0);
      && 2 in states[3].main && Remove(states[3], 2) == states[4]
      && 0 in states[4].main && ModifyOutcome(states[4], 0, v) == Changed && Modify(states[4], 0, v) == states[5]
  {
    var states, b, c := OrphaningRun(), Row(Value([1], 0), 0), Value([2], 0);
    assert states[3].main - {2} == states[4].main && states[3].stack[..1] == [states[3].stack[0]];
    assert states[4].main - {0} == map[1 := b];
    OneKeyFits(map[1 := b], c);
    assert states[4].main[0 := Row(c, 2)] == states[5].main;
  }

  lemma ModifySteps(s: State, id: nat, v: Value)
    requires id in s.main && (ModifyOutcome(s, id, v) == Reverted ==> OwnKeys(s, id))
    ensures Goes(s, DoModify(id, v)) && Does(s, DoModify(id, v), Modify(s, id, v))
  {}

  lemma StartSteps(s: State)
    ensures Goes(s, DoStart) && Does(s, DoStart, Start(s))
  {}

  lemma OrphaningIsRun(r: State)
    requires UndoesTo(OrphaningRun()[5], r)
    ensures CodeRun(OrphaningRun() + [r], OrphaningOps() + [DoUndo])
  {
    hide UndoesTo, Enabled, Goes, Does;
    var states, ops := OrphaningRun() + [r], OrphaningOps() + [DoUndo];
    forall i | 0 <= i < 6 ensures
      && Enabled(states[i], ops[i]) && Goes(states[i], ops[i]) && Does(states[i], ops[i], states[i + 1])
      && (i < 5 ==> !ops[i].DoUndo?)
    {
      if i < 5 {
        OrphaningSteps(i);
      } else {
        UndoSteps(OrphaningRun()[5], r);
      }
    }
  }

  lemma OrphaningLoses(s: State, r: State)
    requires s == OrphaningRun()[5] && UndoesTo(s, r)
    ensures LostIn(s, r) == {2} && r.stack != [] && 2 !in r.main
    ensures Top(r) == Session([Entry(2, Row(Value([2], 0), 0))], map[], 3, 1) && |r.stack| == 1
  {
    hide UndoesTo, Loses, LostIn, Taken, Shares, Unique;
    assert Before(s.main, Top(s), 0) == Some(Row(Value([2], 0), 2));
    assert Before(s.main, Top(s), 2) == Some(Row(Value([2], 1), 1));
    KeyTaken(s, 2, 0, 0);
    UndoesToLoses(s, r);
    LostShare(s, LostIn(s, r), 2);
    OnlyRemovedLost(s, LostIn(s, r));
    UndoesToLess(s, r);
  }

  lemma OnlyRemovedLost(s: State, lost: set<nat>)
    requires s.stack != [] && Loses(s, lost)
    ensures lost <= Top(s).removed.Keys
  {}

  lemma UndoesToLess(s: State, r: State)
    requires UndoesTo(s, r)
    ensures r == Less(Undo(s), LostIn(s, r))
  {}

  /** No `squash_fast` is involved, and undo of the second session leaves the backup of the first without the
    * object, which it loses. */
  lemma UndoOrphans(r: State)
    requires UndoesTo(OrphaningRun()[5], r)
    ensures CodeRun(OrphaningRun() + [r], OrphaningOps() + [DoUndo]) && Sturdy(ThreeObjects())
    ensures BackupsHaveNodes(OrphaningRun()[5]) && !BackupsHaveNodes(r) && Dangles(r, LostIn(OrphaningRun()[5], r))
  {
    hide UndoesTo, CodeRun, Sturdy, LostIn, BackupsHaveNodes, OrphaningRun, OrphaningOps, ThreeObjects, Dangles,
      NoNewBackups;
    var s, states, ops := OrphaningRun()[5], OrphaningRun() + [r], OrphaningOps() + [DoUndo];
    ThreeSturdy();
    NoneNewAtFirst();
    OrphaningIsRun(r);
    OrphaningLoses(s, r);
    OrphanLeft(r, LostIn(s, r));
    assert states[5] == s && states[0] == ThreeObjects() && ops[4] == OrphaningOps()[4];
    RunNodes(states, ops, 5);
  }

  lemma NoneNewAtFirst()
    ensures NoNewBackups(ThreeObjects())
  {
    hide ThreeObjects;
    ThreeObjectsIs();
  }

  lemma OrphanLeft(r: State, lost: set<nat>)
    requires |r.stack| == 1 && Top(r) == Session([Entry(2, Row(Value([2], 0), 0))], map[], 3, 1)
    requires 2 in lost && 2 !in r.main
    ensures Dangles(r, lost) && !BackupsHaveNodes(r)
  {
    var e := Entry(2, Row(Value([2], 0), 0));
    assert e in r.stack[0].olds && !HasNode(r, 2);
  }
}
