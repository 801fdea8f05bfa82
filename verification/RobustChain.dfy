/** The baton of futex/robust.c: what happens once the parent's release has found waiters. */
module RobustChain {
  import opened Runs
  import opened RobustFutex

  // ---------------------------------------------------------------- before the release

  /** While the parent owns the futex nobody has held it, and whoever waits has announced itself. */
  ghost predicate Early(s: State) {
    s.ppc == Owns ==>
      && s.held == [] && s.sawDied == []
      && forall i | i in s.kids && (s.kids[i].pc.Wait? || s.kids[i].pc.Asleep?) ::
           s.word.waiters && s.kids[i].pending && s.kids[i].fail == 0
  }

  ghost predicate Calm(s: State) {
    s.ppc == Owns ==> forall i | i in s.kids ::
      && (!s.kids[i].pc.SetPending? && !s.kids[i].pc.Leaving? && !s.kids[i].pc.Gone? ==>
            s.kids[i].pending && s.kids[i].fail == 0)
      && (s.kids[i].pc == SetPending ==> s.kids[i].fail == 0)
  }

  ghost predicate Prelude(s: State) { Inv(s) && Early(s) && Calm(s) }

  lemma RunKeepsPrelude(s: State, i: nat)
    requires Early(s) && Calm(s) && s.ppc == Owns && i in s.kids && KidStep(s, i).Some?
    requires s.word != FREE && !HasTurn(s, i)
    ensures Early(KidStep(s, i).value) && Calm(KidStep(s, i).value)
  {
  }

  lemma StepKeepsPrelude(s: State, e: Event)
    requires Prelude(s) && Step(s, e).Some?
    ensures Prelude(Step(s, e).value)
  {
    StepKeepsInv(s, e);
    if s.ppc == Owns && e.Run? {
      RunKeepsPrelude(s, e.kid);
    }
    assert s.ppc == Owns ==> forall i | i in s.kids :: !HasTurn(s, i);
  }

  lemma ReachablePrelude(s: State, events: seq<Event>)
    requires Init(s)
    ensures var r := Exec(Step, s, events); r.Some? ==> Prelude(r.value)
  {
    forall s, e | Prelude(s) && Step(s, e).Some? ensures Prelude(Step(s, e).value) {
      StepKeepsPrelude(s, e);
    }
    Invariance(Step, Prelude, s, events);
  }

  // ---------------------------------------------------------------- FUTEX_WAITERS is never lost

  ghost predicate KeepsWaiters(s: State) {
    && s.ppc != Owns && s.word.waiters
    && forall i | i in s.kids && s.kids[i].pc == Recover :: s.kids[i].val.waiters
  }

  lemma StepKeepsWaiters(s: State, e: Event)
    requires KeepsWaiters(s) && Step(s, e).Some?
    ensures KeepsWaiters(Step(s, e).value)
  {
  }

  lemma {:induction false} ContendedStays(r: State, after: seq<Event>)
    requires Prelude(r) && r.ppc == Owns && r.word.waiters
    ensures var t := Exec(Step, r, [Release] + after); t.Some? ==> t.value.word.waiters
  {
    var t := Step(r, Release).value;
    assert ([Release] + after)[1..] == after;
    assert forall i | i in r.kids :: !HasTurn(r, i);
    forall s, e | KeepsWaiters(s) && Step(s, e).Some? ensures KeepsWaiters(Step(s, e).value) {
      StepKeepsWaiters(s, e);
    }
    Invariance(Step, KeepsWaiters, t, after);
  }

  /** After the parent's release the word keeps FUTEX_WAITERS, and so is never free again, whatever
      else happens, exactly if the release finds the bit set.  Otherwise the release itself frees
      the word. */
  lemma WaitersStay(s: State, before: seq<Event>)
    requires Init(s) && Exec(Step, s, before).Some? && Exec(Step, s, before).value.ppc == Owns
    ensures var r := Exec(Step, s, before).value;
      r.word.waiters <==>
      forall after :: var t := Exec(Step, r, [Release] + after);
        t.Some? ==> t.value.word.waiters && t.value.word != FREE
  {
    ReachablePrelude(s, before);
    var r := Exec(Step, s, before).value;
    if r.word.waiters {
      forall after ensures var t := Exec(Step, r, [Release] + after); t.Some? ==> t.value.word.waiters {
        ContendedStays(r, after);
      }
    } else {
      var after: seq<Event> := [];
      assert ([Release] + after)[1..] == [];
      assert Exec(Step, r, [Release] + after) == Some(r.(word := FREE, ppc := Released));
    }
  }

  // ---------------------------------------------------------------- the holders

  ghost function Last(s: State): nat
    requires s.held != []
  {
    s.held[|s.held| - 1]
  }

  predicate Present(pc: Pc) { Critical(pc) || pc.WakeNext? }

  /** Nobody holds the futex twice; whoever has held it is still at it or gone. */
  ghost predicate Holders(s: State) {
    && (forall a, b | 0 <= a < b < |s.held| :: s.held[a] != s.held[b])
    && (forall i | i in s.held :: i in s.kids && (Present(s.kids[i].pc) || s.kids[i].pc.Gone?))
  }

  /** Only the last holder can be at it. */
  ghost predicate TurnIsLast(s: State) {
    && (s.ppc != Released ==> s.held == [])
    && (forall i | i in s.kids && Present(s.kids[i].pc) :: s.held != [] && i == Last(s))
  }

  ghost predicate Looking(s: State) { s.held != [] && Last(s) in s.kids && s.kids[Last(s)].pc.Holding? }

  /** Who has looked has seen the right thing, and who is about to look will. */
  ghost predicate Sights(s: State) {
    && |s.sawDied| == |s.held| - (if Looking(s) then 1 else 0)
    && (forall a | 0 <= a < |s.sawDied| :: s.sawDied[a] == (a > 0))
    && (Looking(s) ==> s.word.died == (|s.held| > 1))
    && (forall i | i in s.kids && s.kids[i].pc.WakeNext? :: s.word.died)
  }

  ghost predicate Orderly(s: State) { Inv(s) && KeepsWaiters(s) && Listing(s) }

  ghost predicate Listing(s: State) { Holders(s) && TurnIsLast(s) && Sights(s) }

  /** The holder goes on. */
  lemma HolderKeepsListing(s: State, i: nat)
    requires Listing(s) && i in s.kids && Critical(s.kids[i].pc) && KidStep(s, i).Some?
    ensures Listing(KidStep(s, i).value)
  {
    HolderMoves(s, KidStep(s, i).value, i);
  }

  lemma HolderMoves(s: State, t: State, i: nat)
    requires Listing(s) && i in s.kids && Critical(s.kids[i].pc) && i in t.kids && t.kids == s.kids[i := t.kids[i]]
    requires t.held == s.held && t.ppc == s.ppc && Critical(t.kids[i].pc) && !t.kids[i].pc.Holding?
    requires t.sawDied == if s.kids[i].pc.Holding? then s.sawDied + [s.word.died] else s.sawDied
    ensures Listing(t)
  {
    assert i == Last(s);
    assert !Looking(t) && forall j | j in t.kids :: !t.kids[j].pc.WakeNext?;
  }

  /** A move of somebody who does not hold the futex, or the last one of a holder. */
  lemma OtherKeepsListing(s: State, t: State, i: nat)
    requires Listing(s) && i in s.kids && i in t.kids && t == s.(kids := s.kids[i := t.kids[i]])
    requires !Critical(s.kids[i].pc) && !s.kids[i].pc.Gone? && !Present(t.kids[i].pc)
    requires s.kids[i].pc.WakeNext? ==> t.kids[i].pc.Gone?
    ensures Listing(t)
  {
    assert Looking(t) == Looking(s);
  }

  lemma RunKeepsListing(s: State, i: nat)
    requires Listing(s) && KeepsWaiters(s) && i in s.kids && KidStep(s, i).Some?
    ensures Listing(KidStep(s, i).value)
  {
    if Critical(s.kids[i].pc) {
      HolderKeepsListing(s, i);
    } else {
      var t := KidStep(s, i).value;
      assert t.word == s.word;
      OtherKeepsListing(s, t, i);
    }
  }

  /** A holder that ends marks the word and stays to wake the next; others just go. */
  lemma DeathKeepsListing(s: State, i: nat, keep: bool)
    requires Listing(s) && Inv(s) && Step(s, Dies(i, keep)).Some?
    ensures Listing(Step(s, Dies(i, keep)).value)
  {
    var t := Step(s, Dies(i, keep)).value;
    if s.kids[i].pc.Leaving? {
      assert !HasTurn(s, i) && s.word.tid != i;
      OtherKeepsListing(s, t, i);
    } else {
      assert i == Last(s) && t.held == s.held && t.kids == s.kids[i := t.kids[i]];
      assert !Looking(t) && forall j | j in t.kids && t.kids[j].pc.WakeNext? :: j == i;
    }
  }

  ghost predicate NobodyPresent(s: State) { forall i | i in s.kids :: !Present(s.kids[i].pc) }

  /** A sleeper becomes the new last holder while nobody is at it. */
  lemma WakeKeepsListing(s: State, j: nat)
    requires Holders(s) && NobodyPresent(s) && s.ppc == Released && Wake(s, j).Some?
    requires |s.sawDied| == |s.held| && (forall a | 0 <= a < |s.sawDied| :: s.sawDied[a] == (a > 0))
    requires s.word.died == (s.held != [])
    ensures Listing(Wake(s, j).value)
  {
    assert j !in s.held;
  }

  lemma WakesKeepsListing(s: State, i: nat, j: nat)
    requires Listing(s) && Step(s, Wakes(i, j)).Some?
    ensures Listing(Step(s, Wakes(i, j)).value)
  {
    assert i == Last(s);
    var r := Put(s, i, s.kids[i].(pc := Gone));
    assert NobodyPresent(r) && !Looking(s);
    WakeKeepsListing(r, j);
  }

  lemma StepKeepsListing(s: State, e: Event)
    requires Orderly(s) && Step(s, e).Some?
    ensures Listing(Step(s, e).value)
  {
    match e
    case Run(i) => RunKeepsListing(s, i);
    case Wakes(i, j) => WakesKeepsListing(s, i, j);
    case ParentWakes(j) => ParentWakesKeepsListing(s, j);
    case Dies(i, keep) => DeathKeepsListing(s, i, keep);
    case WakesNone(i) => QuietKeepsListing(s, e, i);
    case Interrupted(i) => QuietKeepsListing(s, e, i);
    case GivesUp(i) => QuietKeepsListing(s, e, i);
    case Release =>
    case ParentWakesNone =>
  }

  lemma ParentWakesKeepsListing(s: State, j: nat)
    requires Listing(s) && Inv(s) && Step(s, ParentWakes(j)).Some?
    ensures Listing(Step(s, ParentWakes(j)).value)
  {
    WakeKeepsListing(s.(ppc := Released), j);
  }

  lemma QuietKeepsListing(s: State, e: Event, i: nat)
    requires Listing(s) && (e == WakesNone(i) || e == Interrupted(i) || e == GivesUp(i)) && Step(s, e).Some?
    ensures Listing(Step(s, e).value)
  {
    OtherKeepsListing(s, Step(s, e).value, i);
  }

  lemma StepKeepsOrderly(s: State, e: Event)
    requires Orderly(s) && Step(s, e).Some?
    ensures Orderly(Step(s, e).value)
  {
    StepKeepsInv(s, e);
    StepKeepsWaiters(s, e);
    StepKeepsListing(s, e);
  }

  /** The holders, in every run after a release that finds waiters, whoever is interrupted, gives up or
      comes late: nobody holds the futex twice, the first holder sees no dead owner, every later one
      does, and each of them has looked or is about to. */
  lemma HoldersInOrder(s: State, before: seq<Event>, after: seq<Event>)
    requires Init(s) && Exec(Step, s, before).Some?
    requires var r := Exec(Step, s, before).value; r.ppc == Owns && r.word.waiters
    requires Exec(Step, Exec(Step, s, before).value, [Release] + after).Some?
    ensures var t := Exec(Step, Exec(Step, s, before).value, [Release] + after).value;
      && (forall a, b | 0 <= a < b < |t.held| :: t.held[a] != t.held[b])
      && (forall a | 0 <= a < |t.sawDied| :: t.sawDied[a] == (a > 0))
      && |t.held| - 1 <= |t.sawDied| <= |t.held|
      && ((forall i | i in t.kids :: t.kids[i].pc != Holding) ==> |t.sawDied| == |t.held|)
  {
    ReachablePrelude(s, before);
    var r := Exec(Step, s, before).value;
    AfterRelease(r);
    assert ([Release] + after)[1..] == after;
    forall s, e | Orderly(s) && Step(s, e).Some? ensures Orderly(Step(s, e).value) {
      StepKeepsOrderly(s, e);
    }
    Invariance(Step, Orderly, Step(r, Release).value, after);
  }

  lemma AfterRelease(r: State)
    requires Prelude(r) && r.ppc == Owns && r.word.waiters
    ensures Step(r, Release) == Some(r.(ppc := Waking)) && Orderly(r.(ppc := Waking))
  {
    StepKeepsInv(r, Release);
    assert forall i | i in r.kids :: !HasTurn(r, i);
  }
}
