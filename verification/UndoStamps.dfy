/** What the time stamps and ids of a table tell, over all sessions at once. */
module UndoStamps {
  import opened Basics
  import opened Tables
  import opened UndoModel
  import opened UndoInvariant
  import opened UndoLeaks
  import opened UndoRefinement
  import opened UndoExactness
  import opened UndoLosses
  import opened UndoRuns
  import opened UndoLayout

  // ----- stamps

  /** The number of backups of `id` saved before time `c`. */
  function Count(olds: seq<Entry>, id: nat, c: nat): nat {
    if olds == [] then 0 else (if Relevant(olds[0], id, c) then 1 else 0) + Count(olds[1..], id, c)
  }

  /** The backups of the sessions from `j` on, the oldest first. */
  function OldsFrom(stack: seq<Session>, j: nat): seq<Entry>
    decreases |stack|
  {
    if |stack| <= j then [] else OldsFrom(stack[..|stack| - 1], j) + stack[|stack| - 1].olds
  }

  lemma {:induction false} CountAppend(a: seq<Entry>, b: seq<Entry>, id: nat, c: nat)
    ensures Count(a + b, id, c) == Count(a, id, c) + Count(b, id, c)
  {
    if a == [] {
      assert a + b == b;
    } else {
      CountAppend(a[1..], b, id, c);
      assert (a + b)[1..] == a[1..] + b;
    }
  }

  lemma {:induction false} CountNone(olds: seq<Entry>, id: nat, c: nat)
    requires forall e <- olds :: !Relevant(e, id, c)
    ensures Count(olds, id, c) == 0
  {
    if olds != [] {
      assert olds[0] in olds;
      assert forall e <- olds[1..] :: e in olds;
      CountNone(olds[1..], id, c);
    }
  }

  /** In one session at most one backup of an id was saved before the session: the oldest. */
  lemma {:induction false} CountSingle(olds: seq<Entry>, id: nat, c: nat, d: nat)
    requires Growing(olds) && Single(olds, d) && c <= d
    ensures Count(olds, id, c) == if Oldest(olds, id, d).Some? && Oldest(olds, id, d).value.mtime < c then 1 else 0
  {
    if olds != [] {
      TailGrowing(olds, d);
      CountSingle(olds[1..], id, c, d);
      OldestFound(olds[1..], id, d);
      if olds[0].id == id && Oldest(olds[1..], id, d).Some? {
        TailApart(olds, d, Entry(id, Oldest(olds[1..], id, d).value));
      }
    }
  }

  /** No session on the stack lacks a backup of `id` that a reverted `modify` took back. */
  predicate Traced(s: State, id: nat)
    decreases |s.stack|
  {
    !Poisoned(s, id) && (s.stack != [] ==> Traced(Undo(s), id))
  }

  /** The table that undoing the sessions from `j` on gives. */
  function UndoneTo(s: State, j: nat): State
    decreases |s.stack|
  {
    if |s.stack| <= j then s else UndoneTo(Undo(s), j)
  }

  /** `row` was saved no later than any backup of `id` in `olds`. */
  ghost predicate Earliest(olds: seq<Entry>, id: nat, row: Row) {
    Entry(id, row) in olds && forall e <- olds | e.id == id :: row.mtime <= e.row.mtime
  }

  /** The rule behind undo: for an object older than session `j`, the stamp of its node is at least the
    * start of that session if and only if the sessions from `j` on hold a backup of it saved before that
    * start; and then they hold exactly one. It is the oldest one there, and it holds the row that undoing
    * these sessions gives; without one that is the row of the node. */
  lemma {:induction false} StampsTell(s: State, j: nat, id: nat)
    requires Sturdy(s) && Traced(s, id) && j < |s.stack| && id in s.main && id < s.stack[j].oldNextId
    ensures Count(OldsFrom(s.stack, j), id, s.stack[j].ctime) == if s.stack[j].ctime <= s.main[id].mtime then 1 else 0
    ensures var o := Oldest(OldsFrom(s.stack, j), id, s.stack[j].ctime);
      && (o.Some? <==> s.stack[j].ctime <= s.main[id].mtime)
      && (o.Some? ==> Earliest(OldsFrom(s.stack, j), id, o.value))
      && id in UndoneTo(s, j).main && UndoneTo(s, j).main[id] == o.GetOr(s.main[id])
    decreases |s.stack|
  {
    hide Sturdy, SessionBounds, StampsDatable, BackupsLive, BackupsOlder, Growing, Single, UsableOld, RemovedBelow,
      Poisoned, Earliest;
    var n, t, c := |s.stack|, Top(s), s.stack[j].ctime;
    SturdySane(s);
    SturdyParts(s);
    assert c <= t.ctime && s.stack[j].oldNextId <= t.oldNextId;
    StampOfTop(s, id);
    CountSingle(t.olds, id, c, t.ctime);
    var u, rest := Undo(s), OldsFrom(s.stack[..n - 1], j);
    CountAppend(rest, t.olds, id, c);
    OldestAppend(rest, t.olds, id, c);
    assert UndoneTo(s, j) == UndoneTo(u, j);
    assert u.main[id] == Oldest(t.olds, id, t.ctime).GetOr(s.main[id]) by {
      assert Before(s.main, t, id).Some?;
    }
    if j == n - 1 {
      assert rest == [] && rest + t.olds == t.olds;
      OldestFound(t.olds, id, t.ctime);
      EarliestOfTop(s, [], id, c);
    } else {
      assert u.stack == s.stack[..n - 1] && u.stack[j] == s.stack[j];
      StampsTell(u, j, id);
      OldestEarlier(t.olds, id, c, t.ctime);
      EarliestOfTop(s, rest, id, c);
    }
  }

  /** One session more keeps the oldest backup the oldest. */
  lemma EarliestOfTop(s: State, rest: seq<Entry>, id: nat, c: nat)
    requires Sturdy(s) && s.stack != [] && id in s.main && id < Top(s).oldNextId && c <= Top(s).ctime
    requires id in Undo(s).main
    requires var o := Oldest(rest, id, c); o.Some? ==> Earliest(rest, id, o.value) && c <= Undo(s).main[id].mtime
    ensures var o := Oldest(rest + Top(s).olds, id, c); o.Some? ==> Earliest(rest + Top(s).olds, id, o.value)
  {
    hide Sturdy;
    SturdyParts(s);
    var t := Top(s);
    OldestAppend(rest, t.olds, id, c);
    OldestFound(rest, id, c);
    OldestFound(t.olds, id, c);
    if Oldest(rest, id, c).Some? {
      forall e <- t.olds | e.id == id ensures Oldest(rest, id, c).value.mtime <= e.row.mtime {
        OldestFound(t.olds, id, t.ctime);
        if Relevant(e, id, t.ctime) {
          OldestLeast(t.olds, id, t.ctime);
          assert Before(s.main, t, id) == Oldest(t.olds, id, t.ctime);
        }
      }
    } else if Oldest(t.olds, id, c).Some? {
      OldestLeast(t.olds, id, c);
    }
  }

  lemma StampOfTop(s: State, id: nat)
    requires Sturdy(s) && !Poisoned(s, id) && s.stack != [] && id in s.main && id < Top(s).oldNextId
    ensures Growing(Top(s).olds) && Single(Top(s).olds, Top(s).ctime)
    ensures Oldest(Top(s).olds, id, Top(s).ctime).Some? <==> Top(s).ctime <= s.main[id].mtime
  {
    hide Sturdy;
    SturdyParts(s);
    OldestFound(Top(s).olds, id, Top(s).ctime);
  }

  /** An object whose stamp is older than a session is older than the session itself. */
  lemma {:induction false} NewIsStamped(s: State, j: nat, id: nat)
    requires Sturdy(s) && j < |s.stack| && id in s.main && s.stack[j].oldNextId <= id
    ensures s.stack[j].ctime <= s.main[id].mtime
    decreases |s.stack|
  {
    hide Sturdy, SessionBounds, Growing, Single, BackupsLive, Ordered, UsableOld, RemovedBelow;
    var n, t := |s.stack|, Top(s);
    SturdySane(s);
    SturdyParts(s);
    if j < n - 1 {
      assert s.stack[j].ctime < t.ctime;
      if id < t.oldNextId && s.main[id].mtime < t.ctime {
        var u := Undo(s);
        assert u.stack[j] == s.stack[j];
        NotBackedUp(s, id);
        NewIsStamped(u, j, id);
      }
    }
  }

  lemma NotBackedUp(s: State, id: nat)
    requires Sturdy(s) && s.stack != [] && id in s.main && s.main[id].mtime < Top(s).ctime
    ensures id in Undo(s).main && Undo(s).main[id] == s.main[id]
  {
    hide Sturdy;
    SturdyParts(s);
    OldestFound(Top(s).olds, id, Top(s).ctime);
    assert Before(s.main, Top(s), id) == Some(s.main[id]);
  }

  // ----- ids

  /** Over every run of the code, an id that has been given out is not given out again until its insertion is
    * undone. */
  lemma {:induction false} IdNotReused(states: seq<State>, ops: seq<Op>, id: nat, i: nat)
    requires CodeRun(states, ops) && id < states[0].nextId && i <= |ops|
    requires forall j | 0 <= j < |ops| && ops[j].DoUndo? :: id < Undo(states[j]).nextId
    ensures id < states[i].nextId
    decreases i
  {
    hide Enabled, Does, Goes, GoesOn, Undo;
    if i > 0 {
      IdNotReused(states, ops, id, i - 1);
      NextIdGrows(states[i - 1], ops[i - 1], states[i]);
    }
  }

  lemma NextIdGrows(s: State, op: Op, r: State)
    requires Enabled(s, op) && Does(s, op, r)
    ensures if op.DoUndo? then r.nextId == Undo(s).nextId else s.nextId <= r.nextId
  {
    hide Fits, KeptOlds, FoldedTable, Loses;
  }

  // ----- revisions

  function Max(a: int, b: int): int {
    if a < b then b else a
  }

  /** `commit` moves the bottom of the undo stack up to the revision asked for, never down, and never
    * beyond the current one. */
  lemma CommitBottom(s: State, r: nat)
    requires Sturdy(s)
    ensures var c := Commit(s, r);
      && c.main == s.main && c.revision == s.revision
      && c.revision - |c.stack| == Max(s.revision - |s.stack|, Min(r, s.revision))
  {
    SturdyDepth(s);
    CommitKeeps(s, r);
  }
}
