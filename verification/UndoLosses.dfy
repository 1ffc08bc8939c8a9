/** What undo loses: an object that it puts back after its removal goes into no index if its key is taken.
  * `UndoModel.Undo` puts every object back; this is what the code does instead. */
module UndoLosses {
  import opened Basics
  import opened Tables
  import opened UndoModel
  import opened UndoInvariant
  import opened UndoLeaks

  // ----- which objects

  /** The table without the objects `lost`. */
  function Less(s: State, lost: set<nat>): State {
    s.(main := s.main - lost)
  }

  /** Undo of the top session may lose exactly `lost`: of the objects that it puts back, those that stay share
    * no key with any other, and each of the others finds its key taken by one that stays. Which of two
    * removed objects with one key is lost depends on the order of their removal. */
  ghost predicate Loses(s: State, lost: set<nat>) {
    if s.stack == [] then lost == {}
    else
      && lost <= Top(s).removed.Keys && lost <= Undo(s).main.Keys
      && (forall id | id in Top(s).removed && id in Less(Undo(s), lost).main ::
            Fits(Less(Undo(s), lost).main - {id}, Undo(s).main[id].value, s.width))
      && (forall id <- lost :: !Fits(Less(Undo(s), lost).main, Undo(s).main[id].value, s.width))
  }

  /** The objects of the saved table that `r` lacks. */
  function LostIn(s: State, r: State): set<nat> {
    Undo(s).main.Keys - r.main.Keys
  }

  /** What `undo` does: it goes back to the saved table, but for what it loses. */
  ghost predicate UndoesTo(s: State, r: State) {
    Loses(s, LostIn(s, r)) && r == Less(Undo(s), LostIn(s, r))
  }

  lemma LessIs(s: State, lost: set<nat>)
    requires Loses(s, lost)
    ensures LostIn(s, Less(Undo(s), lost)) == lost && UndoesTo(s, Less(Undo(s), lost))
  {
    assert LostIn(s, Less(Undo(s), lost)) == lost;
  }

  /** An object that undo puts back, of whose keys another object of the saved table has one. */
  ghost predicate Shares(s: State, id: nat) {
    && s.stack != [] && id in Top(s).removed && id in Undo(s).main
    && !Fits(Undo(s).main - {id}, Undo(s).main[id].value, s.width)
  }

  /** An object that undo puts back, of whose keys an object that was not removed has one. */
  ghost predicate Taken(s: State, id: nat) {
    && s.stack != [] && id in Top(s).removed && id in Undo(s).main
    && !Fits(Undo(s).main - Top(s).removed.Keys, Undo(s).main[id].value, s.width)
  }

  lemma TakenIs(s: State, id: nat)
    requires Taken(s, id) && Top(s).removed.Keys == {id}
    ensures Loses(s, {id})
  {}

  /** No object that undo puts back shares a key. */
  ghost predicate NothingLost(s: State) {
    forall id: nat :: !Shares(s, id)
  }

  /** Only such objects can be lost, and one whose key belongs to an object that was not removed is. */
  lemma LostShare(s: State, lost: set<nat>, id: nat)
    requires Loses(s, lost)
    ensures id in lost ==> Shares(s, id)
    ensures Taken(s, id) ==> id in lost
  {
    if s.stack != [] && id in Undo(s).main && id in Top(s).removed {
      var t, v := Undo(s).main, Undo(s).main[id].value;
      if id in lost {
        FitsPart(Less(Undo(s), lost).main, t - {id}, v, s.width);
      } else {
        FitsPart(t - Top(s).removed.Keys, Less(Undo(s), lost).main - {id}, v, s.width);
      }
    }
  }

  lemma FitsPart(part: Table, t: Table, v: Value, width: nat)
    requires part.Keys <= t.Keys && forall id | id in part :: part[id] == t[id]
    ensures Fits(t, v, width) ==> Fits(part, v, width)
  {}

  /** Of the objects `todo` of a table, those that go back one after the other if their keys are free. */
  lemma {:induction false} OneByOne(t: Table, todo: set<nat>, width: nat) returns (lost: set<nat>)
    requires todo <= t.Keys
    ensures lost <= todo
    ensures forall id | id in todo && id in t - lost :: Fits(t - lost - {id}, t[id].value, width)
    ensures forall id <- lost :: !Fits(t - lost, t[id].value, width)
  {
    if todo == {} {
      lost := {};
    } else {
      hide Fits;
      var x :| x in todo;
      if Fits(t - todo, t[x].value, width) {
        lost := OneByOne(t, todo - {x}, width);
        FitsLast(t, t - todo, t - lost, x, width);
      } else {
        lost := OneByOne(t - {x}, todo - {x}, width);
        assert t - {x} - lost == t - (lost + {x});
        assert forall id | id in t - {x} :: (t - {x})[id] == t[id];
        FitsPart(t - todo, t - (lost + {x}), t[x].value, width);
        lost := lost + {x};
      }
    }
  }

  /** An object that went back first shares no key with those that went back after it. */
  lemma FitsLast(t: Table, before: Table, after: Table, x: nat, width: nat)
    requires x in t && x in after && Fits(before, t[x].value, width)
    requires forall id | id in before || id in after :: id in t
    requires forall id | id in before :: before[id] == t[id]
    requires forall id | id in after :: after[id] == t[id]
    requires forall id | id in after && id !in before && id != x :: Fits(after - {id}, t[id].value, width)
    ensures Fits(after - {x}, t[x].value, width)
  {
    forall id, k: nat | id in after - {x} && k < width ensures Key((after - {x})[id].value, k) != Key(t[x].value, k) {
      if id in before {
        assert Key(before[id].value, k) != Key(t[x].value, k);
      } else {
        assert Key((after - {id})[x].value, k) != Key(t[id].value, k);
      }
    }
  }

  /** Undo has a result in every state. */
  lemma UndoEnds(s: State)
    ensures exists r :: UndoesTo(s, r)
  {
    var lost: set<nat> := {};
    if s.stack != [] {
      hide Fits, Undo;
      lost := OneByOne(Undo(s).main, Top(s).removed.Keys * Undo(s).main.Keys, s.width);
      assert Less(Undo(s), lost).main == Undo(s).main - lost;
    }
    LessIs(s, lost);
  }

  /** Undo loses nothing exactly when no object that it puts back shares a key. */
  lemma NothingIsLost(s: State, lost: set<nat>)
    requires Loses(s, lost)
    ensures lost == {} <==> NothingLost(s)
  {
    if NothingLost(s) {
      forall id <- lost ensures false {
        LostShare(s, lost, id);
      }
    } else {
      var id: nat :| Shares(s, id);
      assert lost == {} ==> Less(Undo(s), lost).main == Undo(s).main;
    }
  }

  lemma KeyTaken(s: State, id: nat, other: nat, k: nat)
    requires s.stack != [] && id in Top(s).removed && id in Undo(s).main && k < s.width
    requires other in Undo(s).main && other !in Top(s).removed
    requires Key(Undo(s).main[id].value, k) == Key(Undo(s).main[other].value, k)
    ensures Taken(s, id) && Shares(s, id) && !Unique(Undo(s).main, s.width)
  {
    var t: Table := Undo(s).main;
    assert (t - Top(s).removed.Keys)[other] == t[other] && (t - {id})[other] == t[other];
  }

  lemma UniqueLosesNone(s: State)
    requires Unique(Undo(s).main, s.width)
    ensures NothingLost(s)
  {
    forall id: nat ensures !Shares(s, id) {
      if id in Undo(s).main {
        assert forall x | x in Undo(s).main - {id} :: (Undo(s).main - {id})[x] == Undo(s).main[x];
      }
    }
  }

  /** Under the whole invariant `undo` does what the model says. */
  lemma WfUndoes(s: State, r: State)
    requires Wf(s)
    ensures UndoesTo(s, r) <==> r == Undo(s)
  {
    hide Wf, Unique, Fits;
    WfIs(s);
    assert Unique(Undo(s).main, s.width);
    UniqueLosesNone(s);
    LosesNone(s);
    assert Less(Undo(s), {}) == Undo(s);
    LessIs(s, {});
    if UndoesTo(s, r) {
      NothingIsLost(s, LostIn(s, r));
    }
  }

  lemma LosesNone(s: State)
    requires NothingLost(s)
    ensures Loses(s, {})
  {
    hide Fits;
    assert Less(Undo(s), {}).main == Undo(s).main;
    forall id | s.stack != [] && id in Top(s).removed && id in Undo(s).main
      ensures Fits(Undo(s).main - {id}, Undo(s).main[id].value, s.width)
    {
      assert !Shares(s, id);
    }
  }

  /** No undo down to the last one loses an object. */
  ghost predicate LosesNothing(s: State)
    decreases |s.stack|
  {
    s.stack != [] ==> NothingLost(s) && LosesNothing(Undo(s))
  }

  lemma {:induction false} AllUniqueLosesNone(s: State)
    requires AllUnique(s)
    ensures LosesNothing(s)
    decreases |s.stack|
  {
    hide Unique, NothingLost;
    if s.stack != [] {
      UniqueLosesNone(s);
      AllUniqueLosesNone(Undo(s));
    }
  }

  /** No other object has a key of this one. */
  ghost predicate OwnKeys(s: State, id: nat)
    requires id in s.main
  {
    Fits(s.main - {id}, s.main[id].value, s.width)
  }

  // ----- what remains

  /** Some session still has a backup of a lost object that is not new to it. */
  ghost predicate Dangles(s: State, lost: set<nat>) {
    exists j | 0 <= j < |s.stack| :: exists e <- s.stack[j].olds :: e.id in lost && e.id < s.stack[j].oldNextId
  }

  lemma SameDangles(s: State, lost: set<nat>)
    ensures Dangles(Less(s, lost), lost) <==> Dangles(s, lost)
  {}

  /** The top session has one. */
  ghost predicate DanglesTop(s: State, lost: set<nat>)
    requires s.stack != []
  {
    exists e <- Top(s).olds :: e.id in lost && e.id < Top(s).oldNextId
  }

  lemma DanglesBelow(s: State, lost: set<nat>)
    requires s.stack != [] && lost <= s.main.Keys
    requires forall j | 0 <= j < |s.stack| :: s.stack[j].oldNextId <= Top(s).oldNextId
    ensures Dangles(s, lost) <==> DanglesTop(s, lost) || Dangles(Undo(s), lost * Undo(s).main.Keys)
  {
    var u, n, rest := Undo(s), |s.stack| - 1, lost * Undo(s).main.Keys;
    assert u.stack == s.stack[..n] && s.stack[n] == Top(s);
    assert forall id <- lost | id < Top(s).oldNextId :: id in rest;
    if j :| 0 <= j < |s.stack| && exists e <- s.stack[j].olds :: e.id in lost && e.id < s.stack[j].oldNextId {
      var e :| e in s.stack[j].olds && e.id in lost && e.id < s.stack[j].oldNextId;
      if j < n {
        assert u.stack[j] == s.stack[j] && e.id in rest;
      }
    }
    if j :| 0 <= j < |u.stack| && exists e <- u.stack[j].olds :: e.id in rest && e.id < u.stack[j].oldNextId {
      assert s.stack[j] == u.stack[j];
    }
  }

  lemma LessUndo(s: State, lost: set<nat>)
    requires s.stack != [] && lost <= s.main.Keys && s.main.Keys !! Top(s).removed.Keys
    ensures Undo(Less(s, lost)) == Less(Undo(s), lost * Undo(s).main.Keys)
  {
    var t, rest := Top(s), lost * Undo(s).main.Keys;
    forall id: nat ensures Before(s.main - lost, t, id) == if id in lost then None else Before(s.main, t, id) {}
    assert Undo(Less(s, lost)).main == Less(Undo(s), rest).main;
  }

  lemma LessTop(s: State, lost: set<nat>)
    requires s.stack != [] && lost <= s.main.Keys && TopOk(s, Top(s))
    ensures TopOk(Less(s, lost), Top(s)) <==> !DanglesTop(s, lost)
  {
    var t := Top(s);
    assert Base(s.main - lost, t) == Base(s.main, t) - lost;
    if e :| e in t.olds && e.id in lost && e.id < t.oldNextId {
      assert e.id !in Base(s.main - lost, t);
    }
  }

  /** Without lost objects, the invariant but for keys goes on exactly if no backup of them remains. */
  lemma {:induction false} LessSturdy(s: State, lost: set<nat>)
    requires Sturdy(s) && lost <= s.main.Keys
    ensures Sturdy(Less(s, lost)) <==> !Dangles(s, lost)
    decreases |s.stack|
  {
    hide Sturdy, TopOk, Dangles, DanglesTop, Undo;
    SturdyParts(s);
    var r := Less(s, lost);
    SturdyStep(r);
    if s.stack != [] {
      var rest := lost * Undo(s).main.Keys;
      SturdyApart(s);
      UndoShape(s);
      OlderBelow(s);
      DanglesBelow(s, lost);
      LessTop(s, lost);
      LessUndo(s, lost);
      LessSturdy(Undo(s), rest);
    } else {
      assert !Dangles(s, lost) by { NoneDangle(s, lost); }
    }
  }

  lemma NoneDangle(s: State, lost: set<nat>)
    requires s.stack == []
    ensures !Dangles(s, lost)
  {}

  /** The invariant but for keys, by levels. */
  lemma SturdyStep(s: State)
    requires |s.stack| <= s.revision && forall id | id in s.main :: id < s.nextId && s.main[id].mtime <= s.mono
    ensures Sturdy(s) <==> s.stack != [] ==>
      TopOk(s, Top(s)) && (|s.stack| > 1 ==> Ordered(Top(Pop(s)), Top(s))) && Sturdy(Undo(s))
  {
    hide Sturdy, TopOk;
    if Sturdy(s) {
      SturdyParts(s);
    }
    if s.stack != [] ==>
      TopOk(s, Top(s)) && (|s.stack| > 1 ==> Ordered(Top(Pop(s)), Top(s))) && Sturdy(Undo(s))
    {
      SturdyFrom(s);
    }
  }

  lemma {:induction false} OlderBelow(s: State)
    requires Sturdy(s) && s.stack != []
    ensures forall j | 0 <= j < |s.stack| :: s.stack[j].oldNextId <= Top(s).oldNextId
    decreases |s.stack|
  {
    hide Sturdy, TopOk;
    SturdyParts(s);
    if |s.stack| > 1 {
      var u := Undo(s);
      assert u.stack == s.stack[..|s.stack| - 1];
      OlderBelow(u);
      forall j | 0 <= j < |s.stack| ensures s.stack[j].oldNextId <= Top(s).oldNextId {
        if j < |u.stack| {
          assert u.stack[j] == s.stack[j];
        }
      }
    }
  }

  // ----- one undo after the other

  /** Undoing every session. */
  ghost predicate UndoesAll(s: State, r: State)
    decreases |s.stack|
  {
    if s.stack == [] then r == s
    else exists lost: set<nat> :: Loses(s, lost) && UndoesAll(Less(Undo(s), lost), r)
  }

  /** However objects are lost, no undo but the last leaves a backup of one. */
  ghost predicate NeverDangles(s: State)
    decreases |s.stack|
  {
    |s.stack| > 1 ==> forall lost: set<nat> | Loses(s, lost) ::
      !Dangles(Undo(s), lost) && NeverDangles(Less(Undo(s), lost))
  }

  lemma UndoneOnce(s: State, r: State)
    requires UndoesTo(s, r) && s.stack != []
    ensures |r.stack| == |s.stack| - 1
    ensures NeverDangles(s) ==> !Dangles(r, LostIn(s, r)) && NeverDangles(r)
    ensures forall t | UndoesAll(r, t) :: UndoesAll(s, t)
  {
    SameDangles(Undo(s), LostIn(s, r));
  }

  /** Where nothing is lost on the way, this is what the model says. */
  lemma {:induction false} AllUndoneIs(s: State, r: State)
    requires LosesNothing(s)
    ensures NeverDangles(s) && (UndoesAll(s, r) <==> r == AllUndone(s))
    decreases |s.stack|
  {
    hide NothingLost, Loses;
    if s.stack != [] {
      AllUndoneIs(Undo(s), r);
      LosesNone(s);
      assert Less(Undo(s), {}) == Undo(s);
      forall lost: set<nat> | Loses(s, lost) ensures lost == {} {
        NothingIsLost(s, lost);
      }
      assert !Dangles(Undo(s), {});
    }
  }
}
