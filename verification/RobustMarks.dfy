/** The marks of futex/robust.c: what the word says about its owner, where the owner can be found when it
    dies, and what is counted as a failure. */
module RobustMarks {
  import opened Runs
  import opened RobustFutex
  import opened RobustChain
  import B = RobustBaton

  // ---------------------------------------------------------------- the owner's own marks

  /** list_op_pending is set from the first step until the futex is on the list; the word of a child that
      has recovered the futex is its own and carries no FUTEX_OWNER_DIED. */
  ghost predicate KidMarks(s: State, i: nat, k: Kid) {
    && (Recovered(k.pc) ==> s.word.tid == i && !s.word.died)
    && (k.pc.SetPending? || k.pc.Exiting? ==> !k.pending)
    && (!k.pc.SetPending? && !k.pc.Exiting? && !k.pc.WakeNext? && !k.pc.Gone? ==> k.pending)
    && (k.pc.ClearPending? || k.pc.Exiting? ==> k.listed)
    && (!k.pc.ClearPending? && !k.pc.Exiting? && !k.pc.WakeNext? && !k.pc.Gone? ==> !k.listed)
  }

  ghost predicate Marks(s: State) { Inv(s) && forall i | i in s.kids :: KidMarks(s, i, s.kids[i]) }

  lemma RunKeepsOwnMarks(s: State, i: nat)
    requires i in s.kids && KidMarks(s, i, s.kids[i]) && KidStep(s, i).Some?
    ensures var t := KidStep(s, i).value; i in t.kids && KidMarks(t, i, t.kids[i]) && t.kids == s.kids[i := t.kids[i]]
  {
    match s.kids[i].pc
    case SetPending =>
    case ReadOld =>
    case TryFree =>
    case MarkWaiters =>
    case Wait =>
    case Again =>
    case Holding =>
    case Recover =>
    case LinkNext =>
    case LinkHead =>
    case ClearPending =>
  }

  /** Whoever changes owner or mark of the word has the turn, so nobody else has recovered it. */
  lemma RunKeepsMarks(s: State, i: nat)
    requires Marks(s) && i in s.kids && KidStep(s, i).Some?
    ensures Marks(KidStep(s, i).value)
  {
    var t := KidStep(s, i).value;
    RunKeepsInv(s, i);
    assert KidMarks(s, i, s.kids[i]);
    RunKeepsOwnMarks(s, i);
    forall j | j in t.kids && j != i ensures KidMarks(t, j, t.kids[j]) {
      assert KidMarks(s, j, s.kids[j]);
      if Recovered(s.kids[j].pc) {
        assert HasTurn(s, j);
        RunKeepsWordOfOthers(s, i, j);
      }
    }
  }

  lemma RunKeepsWordOfOthers(s: State, i: nat, j: nat)
    requires Inv(s) && i in s.kids && i != j && HasTurn(s, j) && KidStep(s, i).Some?
    ensures var t := KidStep(s, i).value; t.word.tid == s.word.tid && t.word.died == s.word.died
  {
    assert !HasTurn(s, i);
  }

  lemma DeathKeepsMarks(s: State, i: nat, keep: bool)
    requires Marks(s) && Step(s, Dies(i, keep)).Some?
    ensures Marks(Step(s, Dies(i, keep)).value)
  {
    StepKeepsInv(s, Dies(i, keep));
    var t := Step(s, Dies(i, keep)).value;
    assert KidMarks(s, i, s.kids[i]);
    forall j | j in t.kids && j != i ensures KidMarks(t, j, t.kids[j]) {
      assert KidMarks(s, j, s.kids[j]);
    }
  }

  lemma OtherKeepsMarks(s: State, e: Event)
    requires Marks(s) && Step(s, e).Some? && !e.Run? && !e.Dies?
    ensures Marks(Step(s, e).value)
  {
    StepKeepsInv(s, e);
    var t := Step(s, e).value;
    forall j | j in t.kids ensures KidMarks(t, j, t.kids[j]) {
      assert KidMarks(s, j, s.kids[j]);
      assert e.Release? ==> !HasTurn(s, j);
    }
  }

  lemma StepKeepsMarks(s: State, e: Event)
    requires Marks(s) && Step(s, e).Some?
    ensures Marks(Step(s, e).value)
  {
    match e
    case Run(i) => RunKeepsMarks(s, i);
    case Dies(i, keep) => DeathKeepsMarks(s, i, keep);
    case _ => OtherKeepsMarks(s, e);
  }

  lemma ReachableMarks(s: State, events: seq<Event>)
    requires Init(s)
    ensures var r := Exec(Step, s, events); r.Some? ==> Marks(r.value)
  {
    forall s, e | Marks(s) && Step(s, e).Some? ensures Marks(Step(s, e).value) {
      StepKeepsMarks(s, e);
    }
    Invariance(Step, Marks, s, events);
  }

  /** In every interleaving: a child that has recovered the futex and not yet died owns the word, which is
      not marked FUTEX_OWNER_DIED; a living owner is always to be found through its list or its pending
      slot; and whoever is about to exit has the futex on its list and nothing pending. */
  lemma LivingOwner(s: State, events: seq<Event>, i: nat)
    requires Init(s) && Exec(Step, s, events).Some?
    requires i in Exec(Step, s, events).value.kids
    ensures var t := Exec(Step, s, events).value;
      && (Recovered(t.kids[i].pc) ==> t.word == Word(i, t.word.waiters, false))
      && (t.word.tid == i && !t.kids[i].pc.WakeNext? && !t.kids[i].pc.Gone? ==> t.kids[i].pending || t.kids[i].listed)
      && (t.kids[i].pc.Exiting? ==> t.kids[i].listed && !t.kids[i].pending)
  {
    ReachableMarks(s, events);
    var t := Exec(Step, s, events).value;
    assert KidMarks(t, i, t.kids[i]) && t.kids[i].pc.SetPending? ==> !HasTurn(t, i);
  }

  // ---------------------------------------------------------------- FUTEX_OWNER_DIED after a contended release

  predicate Unrecovered(pc: Pc) { pc.Holding? || pc.Recover? }

  /** The last holder has died, or has not yet recovered the futex from one that died. */
  ghost predicate OwnerIsDead(s: State) {
    s.held != [] && Last(s) in s.kids &&
    (if Unrecovered(s.kids[Last(s)].pc) then |s.held| > 1 else !Recovered(s.kids[Last(s)].pc))
  }

  ghost predicate DiedIs(s: State) {
    && (s.word.died <==> OwnerIsDead(s))
    && (forall i | i in s.kids && Unrecovered(s.kids[i].pc) :: s.word.tid != i)
  }

  ghost predicate Marked(s: State) { Orderly(s) && Marks(s) && DiedIs(s) }

  /** A child that is not at it moves: nothing changes for the word's owner. */
  lemma BystanderKeepsDied(s: State, t: State, i: nat)
    requires Listing(s) && DiedIs(s) && i in s.kids && i in t.kids && t.kids == s.kids[i := t.kids[i]]
    requires t.held == s.held && t.word.died == s.word.died && t.word.tid == s.word.tid
    requires !Present(s.kids[i].pc) && !s.kids[i].pc.Gone? && !Present(t.kids[i].pc)
    ensures DiedIs(t)
  {
    assert i !in s.held;
  }

  lemma HolderKeepsDied(s: State, i: nat)
    requires Marked(s) && i in s.kids && Critical(s.kids[i].pc) && KidStep(s, i).Some?
    ensures DiedIs(KidStep(s, i).value)
  {
    assert i == Last(s) && KidMarks(s, i, s.kids[i]);
    var t := KidStep(s, i).value;
    assert t.held == s.held && t.kids == s.kids[i := t.kids[i]];
    assert forall j | j in s.kids && j != i :: !Unrecovered(s.kids[j].pc);
  }

  lemma RunKeepsDied(s: State, i: nat)
    requires Marked(s) && i in s.kids && KidStep(s, i).Some?
    ensures DiedIs(KidStep(s, i).value)
  {
    if Critical(s.kids[i].pc) {
      HolderKeepsDied(s, i);
    } else {
      BystanderKeepsDied(s, KidStep(s, i).value, i);
    }
  }

  lemma DeathKeepsDied(s: State, i: nat, keep: bool)
    requires Marked(s) && Step(s, Dies(i, keep)).Some?
    ensures DiedIs(Step(s, Dies(i, keep)).value)
  {
    var t := Step(s, Dies(i, keep)).value;
    assert KidMarks(s, i, s.kids[i]);
    if s.kids[i].pc.Leaving? {
      assert !HasTurn(s, i) && s.word.tid != i;
      BystanderKeepsDied(s, t, i);
    } else {
      assert i == Last(s) && t.held == s.held && t.word.died;
      assert forall j | j in s.kids && j != i :: !Unrecovered(s.kids[j].pc);
    }
  }

  /** The new holder finds the mark of the one before it, or none if it is the first. */
  lemma WakeKeepsDied(s: State, j: nat)
    requires Inv(s) && NobodyPresent(s) && Wake(s, j).Some? && s.word.died == (s.held != [])
    ensures DiedIs(Wake(s, j).value)
  {
    var t := Wake(s, j).value;
    assert Last(t) == j && !HasTurn(s, j);
  }

  lemma WakesKeepsDied(s: State, i: nat, j: nat)
    requires Marked(s) && Step(s, Wakes(i, j)).Some?
    ensures DiedIs(Step(s, Wakes(i, j)).value)
  {
    assert i == Last(s) && s.word.died && HasTurn(s, i);
    var r := Put(s, i, s.kids[i].(pc := Gone));
    assert forall x :: HasTurn(r, x) ==> HasTurn(s, x) && x != i;
    assert NobodyPresent(r) && Inv(r);
    WakeKeepsDied(r, j);
  }

  lemma ParentWakesKeepsDied(s: State, j: nat)
    requires Marked(s) && Step(s, ParentWakes(j)).Some?
    ensures DiedIs(Step(s, ParentWakes(j)).value)
  {
    var r := s.(ppc := Released);
    assert forall x :: HasTurn(r, x) ==> HasTurn(s, x);
    assert NobodyPresent(r) && Inv(r);
    WakeKeepsDied(r, j);
  }

  lemma ReturnKeepsDied(s: State, e: Event, i: nat)
    requires Listing(s) && DiedIs(s) && (e == Interrupted(i) || e == GivesUp(i)) && Step(s, e).Some?
    ensures DiedIs(Step(s, e).value)
  {
    BystanderKeepsDied(s, Step(s, e).value, i);
  }

  lemma StepKeepsDied(s: State, e: Event)
    requires Marked(s) && Step(s, e).Some?
    ensures DiedIs(Step(s, e).value)
  {
    match e
    case Run(i) => RunKeepsDied(s, i);
    case Dies(i, keep) => DeathKeepsDied(s, i, keep);
    case Wakes(i, j) => WakesKeepsDied(s, i, j);
    case ParentWakes(j) => ParentWakesKeepsDied(s, j);
    case Interrupted(i) => ReturnKeepsDied(s, e, i);
    case GivesUp(i) => ReturnKeepsDied(s, e, i);
    case WakesNone(i) => assert i == Last(s);
    case Release =>
    case ParentWakesNone =>
  }

  lemma StepKeepsMarked(s: State, e: Event)
    requires Marked(s) && Step(s, e).Some?
    ensures Marked(Step(s, e).value)
  {
    StepKeepsOrderly(s, e);
    StepKeepsMarks(s, e);
    StepKeepsDied(s, e);
  }

  /** In every run after a release that finds waiters, FUTEX_OWNER_DIED is set exactly as long as the last
      holder has died or has not yet recovered the futex from a dead one; then the TID in the word is that
      of nobody who is alive. */
  lemma OwnerDiedTells(s: State, before: seq<Event>, after: seq<Event>)
    requires Init(s) && Exec(Step, s, before).Some?
    requires var r := Exec(Step, s, before).value; r.ppc == Owns && r.word.waiters
    requires Exec(Step, Exec(Step, s, before).value, [Release] + after).Some?
    ensures var t := Exec(Step, Exec(Step, s, before).value, [Release] + after).value;
      && (t.word.died <==> OwnerIsDead(t))
      && (t.word.died && t.word.tid in t.kids ==> t.kids[t.word.tid].pc.WakeNext? || t.kids[t.word.tid].pc.Gone?)
      && (t.word.died ==> forall i | i in t.kids :: !Recovered(t.kids[i].pc))
  {
    ReachablePrelude(s, before);
    ReachableMarks(s, before);
    var r := Exec(Step, s, before).value;
    AfterRelease(r);
    StepKeepsMarks(r, Release);
    assert ([Release] + after)[1..] == after;
    forall s, e | Marked(s) && Step(s, e).Some? ensures Marked(Step(s, e).value) {
      StepKeepsMarked(s, e);
    }
    assert forall i | i in r.kids :: !HasTurn(r, i);
    Invariance(Step, Marked, r.(ppc := Waking), after);
    var t := Exec(Step, r.(ppc := Waking), after).value;
    forall i | i in t.kids && Recovered(t.kids[i].pc) ensures !t.word.died {
      assert KidMarks(t, i, t.kids[i]);
    }
  }

  // ---------------------------------------------------------------- failures and the free word

  function GiveUps(events: seq<Event>, i: nat): nat {
    if events == [] then 0 else (if events[0] == GivesUp(i) then 1 else 0) + GiveUps(events[1..], i)
  }

  /** Child `i` finds the futex free. */
  predicate TakesFree(s: State, e: Event, i: nat) {
    e == Run(i) && i in s.kids && s.kids[i].pc.TryFree? && s.word == FREE
  }

  function FreeTakes(s: State, events: seq<Event>, i: nat): nat
    decreases |events|
  {
    if events == [] || Step(s, events[0]).None? then 0
    else (if TakesFree(s, events[0], i) then 1 else 0) + FreeTakes(Step(s, events[0]).value, events[1..], i)
  }

  lemma StepCountsFailure(s: State, e: Event, i: nat)
    requires Step(s, e).Some? && i in s.kids
    ensures var t := Step(s, e).value;
      i in t.kids && t.kids[i].fail == s.kids[i].fail + (if e == GivesUp(i) || TakesFree(s, e, i) then 1 else 0)
  {
    match e
    case Run(x) =>
    case Interrupted(x) =>
    case GivesUp(x) =>
    case Dies(x, _) =>
    case Wakes(x, y) =>
    case WakesNone(x) =>
    case Release =>
    case ParentWakes(y) =>
    case ParentWakesNone =>
  }

  /** What a child counts as a failure, in any run from any state: each time FUTEX_WAIT fails for good,
      and each time it finds the futex free. */
  lemma {:induction false} FailuresAreCounted(s: State, events: seq<Event>, i: nat)
    requires i in s.kids && Exec(Step, s, events).Some?
    ensures var t := Exec(Step, s, events).value;
      i in t.kids && t.kids[i].fail == s.kids[i].fail + GiveUps(events, i) + FreeTakes(s, events, i)
    decreases |events|
  {
    if events != [] {
      StepCountsFailure(s, events[0], i);
      FailuresAreCounted(Step(s, events[0]).value, events[1..], i);
    }
  }

  /** The word is free only from an uncontended release until somebody holds the futex, and then nobody
      sleeps. */
  ghost predicate FreeIs(s: State) {
    && (s.word == FREE ==> s.held == [] && NoSleeper(s))
    && (s.held != [] ==> s.ppc == Released)
    && (forall i | i in s.kids && s.kids[i].pc.Wait? :: s.kids[i].val.waiters)
  }

  lemma RunKeepsFree(s: State, i: nat)
    requires FreeIs(s) && Inv(s) && i in s.kids && KidStep(s, i).Some?
    ensures FreeIs(KidStep(s, i).value)
  {
    match s.kids[i].pc
    case SetPending =>
    case ReadOld =>
    case TryFree =>
    case MarkWaiters =>
    case Wait =>
    case Again =>
    case Holding =>
    case Recover =>
    case LinkNext =>
    case LinkHead =>
    case ClearPending =>
  }

  /** A sleeper has set FUTEX_WAITERS, so the release does not free the word. */
  lemma ReleaseKeepsFree(s: State)
    requires FreeIs(s) && Early(s) && Step(s, Release).Some?
    ensures FreeIs(Step(s, Release).value)
  {}

  lemma OtherKeepsFree(s: State, e: Event)
    requires FreeIs(s) && Inv(s) && Step(s, e).Some? && !e.Run? && !e.Release?
    ensures FreeIs(Step(s, e).value)
  {
    match e
    case Interrupted(i) =>
    case GivesUp(i) =>
    case Dies(i, _) =>
    case Wakes(i, j) => assert HasTurn(s, i);
    case WakesNone(i) =>
    case ParentWakes(j) =>
    case ParentWakesNone =>
  }

  ghost predicate FreePrelude(s: State) { FreeIs(s) && Prelude(s) }

  lemma StepKeepsFree(s: State, e: Event)
    requires FreePrelude(s) && Step(s, e).Some?
    ensures FreePrelude(Step(s, e).value)
  {
    StepKeepsPrelude(s, e);
    if e.Run? {
      RunKeepsFree(s, e.kid);
    } else if e.Release? {
      ReleaseKeepsFree(s);
    } else {
      OtherKeepsFree(s, e);
    }
  }

  /** In every reachable state a free word means that nobody has held the futex and nobody sleeps, and the
      next child that tries gets it at once. */
  lemma FreeWordIsTaken(s: State, events: seq<Event>, i: nat)
    requires Init(s) && Exec(Step, s, events).Some?
    requires var t := Exec(Step, s, events).value; t.word == FREE && i in t.kids && t.kids[i].pc.TryFree?
    ensures var t := Exec(Step, s, events).value;
      && t.held == [] && (forall j | j in t.kids :: t.kids[j].pc != Asleep)
      && Step(t, Run(i)).Some?
      && var u := Step(t, Run(i)).value;
         i in u.kids && Critical(u.kids[i].pc) && u.word == Word(i, false, false) && u.held == [i]
  {
    forall s, e | FreePrelude(s) && Step(s, e).Some? ensures FreePrelude(Step(s, e).value) {
      StepKeepsFree(s, e);
    }
    Invariance(Step, FreePrelude, s, events);
  }

  // ---------------------------------------------------------------- nobody leaves without a reason

  /** After EAGAIN child `i` sees that the word is not the one it first read. */
  predicate SeesChange(s: State, e: Event, i: nat) {
    e == Run(i) && i in s.kids && s.kids[i].pc.Again? && s.word != s.kids[i].oldval
  }

  function Reasons(s: State, events: seq<Event>, i: nat): nat
    decreases |events|
  {
    if events == [] || Step(s, events[0]).None? then 0
    else
      (if events[0] == GivesUp(i) || SeesChange(s, events[0], i) then 1 else 0)
      + Reasons(Step(s, events[0]).value, events[1..], i)
  }

  /** Child `i` is on its way out, or gone, without having held the futex. */
  predicate LeftOut(s: State, i: nat) {
    i in s.kids && (s.kids[i].pc.Leaving? || (s.kids[i].pc.Gone? && i !in s.held))
  }

  /** Whoever is at it has come to hold the futex; whoever is on the way has not. */
  ghost predicate HeldIs(s: State, i: nat) {
    i in s.kids && (!s.kids[i].pc.Gone? ==> (Present(s.kids[i].pc) <==> i in s.held))
  }

  lemma StepHasReason(s: State, e: Event, i: nat)
    requires Inv(s) && HeldIs(s, i) && Step(s, e).Some?
    ensures var t := Step(s, e).value;
      && HeldIs(t, i)
      && (LeftOut(t, i) <==> LeftOut(s, i) || e == GivesUp(i) || SeesChange(s, e, i))
      && (LeftOut(s, i) ==> e != GivesUp(i) && !SeesChange(s, e, i))
  {
    match e
    case Run(x) => RunHasReason(s, x, i);
    case Interrupted(x) =>
    case GivesUp(x) =>
    case Dies(x, _) => assert s.kids[x].pc.Leaving? ==> !HasTurn(s, x);
    case Wakes(x, y) =>
    case WakesNone(x) =>
    case Release =>
    case ParentWakes(y) =>
    case ParentWakesNone =>
  }

  lemma RunHasReason(s: State, x: nat, i: nat)
    requires HeldIs(s, i) && x in s.kids && KidStep(s, x).Some?
    ensures var t := KidStep(s, x).value;
      HeldIs(t, i) && (LeftOut(t, i) <==> LeftOut(s, i) || SeesChange(s, Run(x), i))
  {
    if x == i {
      match s.kids[i].pc
      case SetPending =>
      case ReadOld =>
      case TryFree =>
      case MarkWaiters =>
      case Wait =>
      case Again =>
      case Holding =>
      case Recover =>
      case LinkNext =>
      case LinkHead =>
      case ClearPending =>
    }
  }

  lemma {:induction false} ReasonsTell(s: State, events: seq<Event>, i: nat)
    requires Inv(s) && HeldIs(s, i) && Exec(Step, s, events).Some?
    ensures var t := Exec(Step, s, events).value;
      (if LeftOut(t, i) then 1 else 0) == (if LeftOut(s, i) then 1 else 0) + Reasons(s, events, i)
    decreases |events|
  {
    if events != [] {
      StepKeepsInv(s, events[0]);
      StepHasReason(s, events[0], i);
      ReasonsTell(Step(s, events[0]).value, events[1..], i);
    }
  }

  /** In every run: a child goes away without having held the futex exactly if, once and only once, its
      FUTEX_WAIT failed for good or it saw after EAGAIN that the word had changed since it first read it.
      Interruptions, and EAGAIN with the word unchanged, only make it try again. */
  lemma NobodyLeavesWithoutReason(s: State, events: seq<Event>, i: nat)
    requires Init(s) && i in s.kids && Exec(Step, s, events).Some?
    ensures Reasons(s, events, i) == if LeftOut(Exec(Step, s, events).value, i) then 1 else 0
  {
    ReasonsTell(s, events, i);
  }

  // ---------------------------------------------------------------- FUTEX_WAITERS after an uncontended release

  /** Child `i` is about to try when the parent releases the futex, and takes it free. */
  lemma TakesAfterRelease(s: State, i: nat) returns (events: seq<Event>, t: State)
    requires Init(s) && i in s.kids
    ensures Exec(Step, s, events) == Some(t) && t.ppc == Released && t.word == Word(i, false, false)
    ensures i in t.kids && t.kids[i].pc.Holding? && t.kids == s.kids[i := t.kids[i]]
  {
    var s1 := Put(s, i, FreshKid.(pc := ReadOld, pending := true));
    events := B.ThenOne(s, [], s, Run(i), s1);
    var s2 := Put(s1, i, s1.kids[i].(pc := TryFree, oldval := s.word));
    events := B.ThenOne(s, events, s1, Run(i), s2);
    var s3 := s2.(word := FREE, ppc := Released);
    events := B.ThenOne(s, events, s2, Release, s3);
    t := Put(s3, i, s3.kids[i].(pc := Holding, fail := 1)).(word := Word(i, false, false), held := s.held + [i]);
    events := B.ThenOne(s, events, s3, Run(i), t);
  }

  /** Child `j` comes, and is about to set FUTEX_WAITERS. */
  lemma ComesToMark(s: State, j: nat) returns (events: seq<Event>, t: State)
    requires j in s.kids && s.kids[j] == FreshKid && s.word != FREE
    ensures Exec(Step, s, events) == Some(t) && t.word == s.word && t.ppc == s.ppc
    ensures j in t.kids && t.kids[j].pc.MarkWaiters? && t.kids == s.kids[j := t.kids[j]]
  {
    var s1 := Put(s, j, s.kids[j].(pc := ReadOld, pending := true));
    events := B.ThenOne(s, [], s, Run(j), s1);
    var s2 := Put(s1, j, s1.kids[j].(pc := TryFree, oldval := s.word));
    events := B.ThenOne(s, events, s1, Run(j), s2);
    t := Put(s2, j, s2.kids[j].(pc := MarkWaiters));
    events := B.ThenOne(s, events, s2, Run(j), t);
  }

  /** It sets the bit and falls asleep between the holder's reading and setting of the word. */
  lemma BitIsOverwritten(s: State, i: nat, j: nat) returns (events: seq<Event>, t: State)
    requires i != j && i in s.kids && j in s.kids && s.kids[i].pc.Holding? && s.kids[j].pc.MarkWaiters?
    requires !s.word.waiters
    ensures Exec(Step, s, events) == Some(t) && !t.word.waiters && t.word.tid == i
    ensures j in t.kids && t.kids[j].pc.Asleep?
  {
    var s1 := Put(s, i, s.kids[i].(pc := Recover, val := s.word)).(sawDied := s.sawDied + [s.word.died]);
    events := B.ThenOne(s, [], s, Run(i), s1);
    var w := s.word.(waiters := true);
    var s2 := Put(s1, j, s1.kids[j].(pc := Wait, val := w)).(word := w);
    events := B.ThenOne(s, events, s1, Run(j), s2);
    var s3 := Put(s2, j, s2.kids[j].(pc := Asleep));
    events := B.ThenOne(s, events, s2, Run(j), s3);
    t := Put(s3, i, s3.kids[i].(pc := LinkNext)).(word := Word(i, false, false));
    events := B.ThenOne(s, events, s3, Run(i), t);
  }

  /** Reading the word and setting it are two steps.  After an uncontended release, with two children or
      more, FUTEX_WAITERS can be lost although a child sleeps: it was set between the two. */
  lemma WaitersCanBeLost(s: State, i: nat, j: nat) returns (events: seq<Event>, t: State)
    requires Init(s) && i != j && i in s.kids && j in s.kids
    ensures Exec(Step, s, events) == Some(t) && t.ppc == Released
    ensures j in t.kids && t.kids[j].pc.Asleep? && !t.word.waiters
  {
    var take, s1 := TakesAfterRelease(s, i);
    var come, s2 := ComesToMark(s1, j);
    ExecAppend(Step, s, take, come);
    var lose;
    lose, t := BitIsOverwritten(s2, i, j);
    ExecAppend(Step, s, take + come, lose);
    events := take + come + lose;
    StaysReleased(s2, lose);
  }

  lemma {:induction false} StaysReleased(s: State, events: seq<Event>)
    requires s.ppc == Released && Exec(Step, s, events).Some?
    ensures Exec(Step, s, events).value.ppc == Released
    decreases |events|
  {
    if events != [] {
      assert Step(s, events[0]).value.ppc == Released;
      StaysReleased(Step(s, events[0]).value, events[1..]);
    }
  }
}
