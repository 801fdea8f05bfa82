/** The baton of futex/robust.c when all children sleep at the parent's release: who gets it, for how
    long the run goes on, and when nobody is left out.

    Sleepers may be interrupted, as by freezing them, and may give up.  An interrupted child tries
    again; until it sleeps it can miss the baton.
 */
module RobustBaton {
  import opened Runs
  import opened RobustFutex
  import opened RobustChain

  // ---------------------------------------------------------------- before the release

  /** What a child has read while the parent owns the futex carries the parent's TID. */
  ghost predicate SawParent(s: State) {
    s.ppc == Owns ==> forall i | i in s.kids && !s.kids[i].pc.SetPending? && !s.kids[i].pc.ReadOld? ::
      s.kids[i].oldval.tid == s.parent
  }

  ghost predicate Overture(s: State) { Prelude(s) && SawParent(s) }

  lemma StepKeepsOverture(s: State, e: Event)
    requires Overture(s) && Step(s, e).Some?
    ensures Overture(Step(s, e).value)
  {
    StepKeepsPrelude(s, e);
    assert s.ppc == Owns ==> s.word.tid == s.parent;
  }

  lemma ReachableOverture(s: State, events: seq<Event>)
    requires Init(s)
    ensures var r := Exec(Step, s, events); r.Some? ==> Overture(r.value)
  {
    forall s, e | Overture(s) && Step(s, e).Some? ensures Overture(Step(s, e).value) {
      StepKeepsOverture(s, e);
    }
    Invariance(Step, Overture, s, events);
  }

  // ---------------------------------------------------------------- after it

  /** A child that comes back from FUTEX_WAIT with EAGAIN will see that the word is no longer the one
      it first read, because the parent's TID is gone from it for good. */
  ghost predicate SteadyKid(s: State, i: nat, k: Kid) {
    && !k.pc.SetPending? && !k.pc.ReadOld? && k.oldval.tid == s.parent
    && (k.pc.Again? ==> s.word.tid != s.parent)
    && (k.pc.Wait? ==> k.val == s.word || s.word.tid != s.parent)
    && (Recovered(k.pc) ==> s.word.tid == i)
    && (k.pc.ClearPending? || k.pc.Exiting? ==> k.listed)
  }

  ghost predicate Steady(s: State) { forall i | i in s.kids :: SteadyKid(s, i, s.kids[i]) }

  ghost predicate Running(s: State) { Orderly(s) && Steady(s) }

  /** Of the children's own steps only recovering the futex changes the word. */
  lemma RunKeepsWord(s: State, i: nat)
    requires s.word.waiters && i in s.kids && KidStep(s, i).Some?
    ensures var t := KidStep(s, i).value;
      && t.parent == s.parent && i in t.kids && t.kids == s.kids[i := t.kids[i]]
      && (if s.kids[i].pc.Recover? then t.word.tid == i else t.word == s.word)
  {}

  lemma RunKeepsOwnSteady(s: State, i: nat)
    requires s.word.waiters && i in s.kids && SteadyKid(s, i, s.kids[i]) && KidStep(s, i).Some?
    ensures var t := KidStep(s, i).value; i in t.kids && SteadyKid(t, i, t.kids[i])
  {
    match s.kids[i].pc
    case TryFree =>
    case MarkWaiters =>
    case Wait =>
    case Again =>
    case Holding =>
    case Recover =>
    case LinkNext =>
    case LinkHead =>
    case ClearPending =>
  }

  /** Others owe nothing to a holder's change of the word but that the parent's TID is gone. */
  lemma OthersStaySteady(s: State, t: State, i: nat)
    requires Steady(s) && TurnIsLast(s) && i in s.kids && i in t.kids && t.kids == s.kids[i := t.kids[i]]
    requires SteadyKid(t, i, t.kids[i]) && t.parent == s.parent
    requires t.word == s.word || (Present(s.kids[i].pc) && t.word.tid != t.parent)
    ensures Steady(t)
  {
    forall j | j in t.kids ensures SteadyKid(t, j, t.kids[j]) {
      assert SteadyKid(s, j, s.kids[j]);
    }
  }

  lemma RunKeepsSteady(s: State, i: nat)
    requires Running(s) && i in s.kids && KidStep(s, i).Some?
    ensures Steady(KidStep(s, i).value)
  {
    assert SteadyKid(s, i, s.kids[i]);
    RunKeepsWord(s, i);
    RunKeepsOwnSteady(s, i);
    OthersStaySteady(s, KidStep(s, i).value, i);
  }

  lemma DeathKeepsSteady(s: State, i: nat, keep: bool)
    requires Running(s) && Step(s, Dies(i, keep)).Some?
    ensures Steady(Step(s, Dies(i, keep)).value)
  {
    assert SteadyKid(s, i, s.kids[i]);
    OthersStaySteady(s, Step(s, Dies(i, keep)).value, i);
  }

  predicate OweNothing(k: Kid, l: Kid) {
    l.oldval == k.oldval && (l.pc.TryFree? || l.pc.Leaving? || l.pc.Holding? || l.pc.Gone?)
  }

  /** Somebody moves without touching the word and not to a place where something is owed. */
  lemma MoveKeepsSteady(s: State, t: State)
    requires Steady(s) && t.parent == s.parent && t.word == s.word && t.kids.Keys == s.kids.Keys
    requires forall j | j in s.kids :: t.kids[j] == s.kids[j] || OweNothing(s.kids[j], t.kids[j])
    ensures Steady(t)
  {
    forall j | j in t.kids ensures SteadyKid(t, j, t.kids[j]) {
      assert SteadyKid(s, j, s.kids[j]);
    }
  }

  lemma StepKeepsSteady(s: State, e: Event)
    requires Running(s) && Step(s, e).Some?
    ensures Steady(Step(s, e).value)
  {
    match e
    case Run(i) => RunKeepsSteady(s, i);
    case Dies(i, keep) => DeathKeepsSteady(s, i, keep);
    case Interrupted(i) => MoveKeepsSteady(s, Step(s, e).value);
    case GivesUp(i) => MoveKeepsSteady(s, Step(s, e).value);
    case Wakes(i, j) => MoveKeepsSteady(s, Step(s, e).value);
    case WakesNone(i) => MoveKeepsSteady(s, Step(s, e).value);
    case Release =>
    case ParentWakes(j) => MoveKeepsSteady(s, Step(s, e).value);
    case ParentWakesNone => MoveKeepsSteady(s, Step(s, e).value);
  }

  lemma StepKeepsRunning(s: State, e: Event)
    requires Running(s) && Step(s, e).Some?
    ensures Running(Step(s, e).value)
  {
    StepKeepsOrderly(s, e);
    StepKeepsSteady(s, e);
  }

  ghost predicate AllAsleep(s: State) { forall i | i in s.kids :: s.kids[i].pc.Asleep? }

  lemma AsleepAtRelease(r: State)
    requires Overture(r) && r.ppc == Owns && r.kids != map[] && AllAsleep(r)
    ensures Step(r, Release) == Some(r.(ppc := Waking)) && Running(r.(ppc := Waking))
  {
    var i :| i in r.kids;
    AfterRelease(r);
  }

  // ---------------------------------------------------------------- runs are short

  function Weight(pc: Pc): nat {
    match pc
    case SetPending => 17
    case ReadOld => 16
    case TryFree => 15
    case MarkWaiters => 14
    case Wait => 13
    case Asleep => 12
    case Again => 9
    case Holding => 8
    case Recover => 7
    case LinkNext => 6
    case LinkHead => 5
    case ClearPending => 4
    case Exiting => 3
    case Leaving => 2
    case WakeNext => 1
    case Gone => 0
  }

  ghost function Total(kids: map<nat, Kid>): nat {
    if kids == map[] then 0
    else
      var i :| i in kids;
      Weight(kids[i].pc) + Total(kids - {i})
  }

  lemma {:induction false} TotalWithout(kids: map<nat, Kid>, i: nat)
    requires i in kids
    ensures Total(kids) == Weight(kids[i].pc) + Total(kids - {i})
    decreases |kids|
  {
    var j :| j in kids && Total(kids) == Weight(kids[j].pc) + Total(kids - {j});
    if j != i {
      TotalWithout(kids - {j}, i);
      TotalWithout(kids - {i}, j);
      assert kids - {j} - {i} == kids - {i} - {j};
    }
  }

  lemma TotalPut(kids: map<nat, Kid>, i: nat, k: Kid)
    requires i in kids
    ensures Total(kids[i := k]) + Weight(kids[i].pc) == Total(kids) + Weight(k.pc)
  {
    TotalWithout(kids, i);
    TotalWithout(kids[i := k], i);
    assert kids[i := k] - {i} == kids - {i};
  }

  lemma {:induction false} TotalAsleep(kids: map<nat, Kid>)
    requires forall i | i in kids :: kids[i].pc.Asleep?
    ensures Total(kids) == 12 * |kids|
    decreases |kids|
  {
    if kids != map[] {
      var i :| i in kids && Total(kids) == Weight(kids[i].pc) + Total(kids - {i});
      assert |kids - {i}| == |kids| - 1;
      TotalAsleep(kids - {i});
    }
  }

  /** A child that moves by itself gets lighter. */
  lemma RunLowersWeight(s: State, i: nat)
    requires s.word.waiters && i in s.kids && SteadyKid(s, i, s.kids[i]) && KidStep(s, i).Some?
    ensures var t := KidStep(s, i).value;
      t.ppc == s.ppc && i in t.kids && t.kids == s.kids[i := t.kids[i]] && Weight(t.kids[i].pc) < Weight(s.kids[i].pc)
  {}

  function ParentWeight(ppc: ParentPc): nat {
    match ppc case Owns => 2 case Waking => 1 case Released => 0
  }

  ghost function Rank(s: State): nat { Total(s.kids) + ParentWeight(s.ppc) }

  lemma LighterLowersRank(s: State, t: State, i: nat)
    requires i in s.kids && i in t.kids && t.kids == s.kids[i := t.kids[i]]
    requires ParentWeight(t.ppc) <= ParentWeight(s.ppc) && Weight(t.kids[i].pc) < Weight(s.kids[i].pc)
    ensures Rank(t) < Rank(s)
  {
    TotalPut(s.kids, i, t.kids[i]);
  }

  lemma WakesLowersRank(s: State, i: nat, j: nat)
    requires Step(s, Wakes(i, j)).Some?
    ensures Rank(Step(s, Wakes(i, j)).value) < Rank(s)
  {
    var r := Put(s, i, s.kids[i].(pc := Gone));
    LighterLowersRank(s, r, i);
    LighterLowersRank(r, Wake(r, j).value, j);
  }

  lemma EndLowersRank(s: State, e: Event, i: nat)
    requires e == GivesUp(i) || e == WakesNone(i) || e == Dies(i, true) || e == Dies(i, false)
    requires Step(s, e).Some?
    ensures Rank(Step(s, e).value) < Rank(s)
  {
    LighterLowersRank(s, Step(s, e).value, i);
  }

  lemma InterruptionCosts(s: State, i: nat)
    requires Step(s, Interrupted(i)).Some?
    ensures Rank(Step(s, Interrupted(i)).value) == Rank(s) + 3
  {
    TotalPut(s.kids, i, s.kids[i].(pc := TryFree));
  }

  lemma ParentLowersRank(s: State, e: Event)
    requires (e.Release? && s.word.waiters) || e.ParentWakes? || e.ParentWakesNone?
    requires Step(s, e).Some?
    ensures Rank(Step(s, e).value) < Rank(s)
  {
    if e.ParentWakes? {
      LighterLowersRank(s, Step(s, e).value, e.woken);
    }
  }

  /** Every step brings the end nearer, but for an interruption, which costs three steps. */
  lemma StepLowersRank(s: State, e: Event)
    requires Running(s) && Step(s, e).Some?
    ensures if e.Interrupted? then Rank(Step(s, e).value) == Rank(s) + 3 else Rank(Step(s, e).value) < Rank(s)
  {
    match e
    case Run(i) =>
      RunLowersWeight(s, i);
      LighterLowersRank(s, Step(s, e).value, i);
    case Dies(i, _) => EndLowersRank(s, e, i);
    case Interrupted(i) => InterruptionCosts(s, i);
    case GivesUp(i) => EndLowersRank(s, e, i);
    case WakesNone(i) => EndLowersRank(s, e, i);
    case Wakes(i, j) => WakesLowersRank(s, i, j);
    case Release => ParentLowersRank(s, e);
    case ParentWakes(j) => ParentLowersRank(s, e);
    case ParentWakesNone => ParentLowersRank(s, e);
  }

  function Interruptions(events: seq<Event>): nat {
    if events == [] then 0 else (if events[0].Interrupted? then 1 else 0) + Interruptions(events[1..])
  }

  lemma {:induction false} RunIsShort(s: State, events: seq<Event>)
    requires Running(s) && Exec(Step, s, events).Some?
    ensures Running(Exec(Step, s, events).value)
    ensures |events| <= Rank(s) + 4 * Interruptions(events)
    decreases |events|
  {
    if events != [] {
      StepKeepsRunning(s, events[0]);
      StepLowersRank(s, events[0]);
      RunIsShort(Step(s, events[0]).value, events[1..]);
    }
  }

  // ---------------------------------------------------------------- nobody is left out, or somebody is

  predicate Waiting(pc: Pc) { pc.Asleep? || pc.TryFree? || pc.MarkWaiters? || pc.Wait? }

  ghost predicate AllHeld(s: State) { forall i | i in s.kids :: i in s.held }

  /** Everybody who has not held the futex waits for it, and the baton is with the parent or with a
      holder, unless all have held it. */
  ghost predicate Kept(s: State) {
    && (forall i | i in s.kids :: s.kids[i].fail == 0 && (i in s.held || Waiting(s.kids[i].pc)))
    && (s.ppc == Waking || AllHeld(s) || (s.held != [] && Last(s) in s.kids && Present(s.kids[Last(s)].pc)))
  }

  /** The ways to miss the baton: FUTEX_WAIT fails for good, FUTEX_WAIT finds a changed word (EAGAIN),
      or a wake-up finds nobody asleep although somebody has not held the futex. */
  ghost predicate Loss(s: State, e: Event) {
    || e.GivesUp?
    || (e.Run? && e.kid in s.kids && s.kids[e.kid].pc.Wait? && s.word != s.kids[e.kid].val)
    || ((e.WakesNone? || e.ParentWakesNone?) && !AllHeld(s))
  }

  ghost predicate LossFree(s: State, events: seq<Event>)
    decreases |events|
  {
    events == [] || (!Loss(s, events[0]) &&
                     (Step(s, events[0]).Some? ==> LossFree(Step(s, events[0]).value, events[1..])))
  }

  /** Child `i` will never hold the futex. */
  ghost predicate LostKid(s: State, i: nat) {
    && i in s.kids && i !in s.held
    && (|| s.kids[i].pc.Again? || s.kids[i].pc.Leaving? || s.kids[i].pc.Gone?
        || (s.ppc == Released && NobodyPresent(s)))
  }

  /** What a child's own step does to the others and to its place in the order: nothing. */
  ghost predicate Moves(s: State, t: State, i: nat) {
    && t.ppc == s.ppc && t.held == s.held && i in s.kids && i in t.kids && t.kids == s.kids[i := t.kids[i]]
    && t.kids[i].fail == s.kids[i].fail && Present(t.kids[i].pc) == Present(s.kids[i].pc)
    && t.kids[i].pc.Asleep? == (s.kids[i].pc.Wait? && s.word == s.kids[i].val)
  }

  lemma RunMoves(s: State, i: nat)
    requires s.word.waiters && i in s.kids && SteadyKid(s, i, s.kids[i]) && KidStep(s, i).Some?
    ensures var t := KidStep(s, i).value;
      && Moves(s, t, i)
      && (Waiting(s.kids[i].pc) ==> Waiting(t.kids[i].pc) || t.kids[i].pc.Again?)
      && (t.kids[i].pc.Again? <==> s.kids[i].pc.Wait? && s.word != s.kids[i].val)
      && (s.kids[i].pc.Again? ==> t.kids[i].pc.Leaving?)
      && !s.kids[i].pc.Leaving? && !s.kids[i].pc.Gone?
  {
    match s.kids[i].pc
    case TryFree =>
    case MarkWaiters =>
    case Wait =>
    case Again =>
    case Holding =>
    case Recover =>
    case LinkNext =>
    case LinkHead =>
    case ClearPending =>
  }

  lemma RunKeepsKept(s: State, i: nat)
    requires Running(s) && Kept(s) && !Loss(s, Run(i)) && i in s.kids && KidStep(s, i).Some?
    ensures Kept(KidStep(s, i).value)
  {
    assert SteadyKid(s, i, s.kids[i]);
    RunMoves(s, i);
    MoveKeepsKept(s, KidStep(s, i).value, i);
  }

  lemma MoveKeepsKept(s: State, t: State, i: nat)
    requires Kept(s) && Moves(s, t, i) && (Waiting(s.kids[i].pc) ==> Waiting(t.kids[i].pc))
    ensures Kept(t)
  {}

  lemma DeathKeepsKept(s: State, i: nat, keep: bool)
    requires Running(s) && Kept(s) && Step(s, Dies(i, keep)).Some?
    ensures Kept(Step(s, Dies(i, keep)).value)
  {
    var t := Step(s, Dies(i, keep)).value;
    assert SteadyKid(s, i, s.kids[i]);
    assert s.kids[i].pc.Exiting? && t.kids[i].pc.WakeNext?;
  }

  lemma WakeKeepsKept(s: State, j: nat)
    requires forall i | i in s.kids :: s.kids[i].fail == 0 && (i in s.held || Waiting(s.kids[i].pc))
    requires Wake(s, j).Some?
    ensures Kept(Wake(s, j).value)
  {
    assert Last(Wake(s, j).value) == j;
  }

  lemma StepKeepsKept(s: State, e: Event)
    requires Running(s) && Kept(s) && Step(s, e).Some? && !Loss(s, e)
    ensures Kept(Step(s, e).value)
  {
    match e
    case Run(i) => RunKeepsKept(s, i);
    case Dies(i, keep) => DeathKeepsKept(s, i, keep);
    case Interrupted(i) => InterruptionKeepsKept(s, i);
    case Wakes(i, j) => WakesKeepsKept(s, i, j);
    case WakesNone(i) =>
    case Release =>
    case ParentWakes(j) => WakeKeepsKept(s.(ppc := Released), j);
    case ParentWakesNone =>
  }

  lemma InterruptionKeepsKept(s: State, i: nat)
    requires Kept(s) && Step(s, Interrupted(i)).Some?
    ensures Kept(Step(s, Interrupted(i)).value)
  {}

  lemma WakesKeepsKept(s: State, i: nat, j: nat)
    requires Running(s) && Kept(s) && Step(s, Wakes(i, j)).Some?
    ensures Kept(Step(s, Wakes(i, j)).value)
  {
    assert i in s.held;
    WakeKeepsKept(Put(s, i, s.kids[i].(pc := Gone)), j);
  }

  lemma LossLoses(s: State, e: Event) returns (i: nat)
    requires Running(s) && Kept(s) && Step(s, e).Some? && Loss(s, e)
    ensures LostKid(Step(s, e).value, i)
  {
    if e.GivesUp? || e.Run? {
      i := e.kid;
    } else {
      i :| i in s.kids && i !in s.held;
    }
  }

  lemma RunKeepsLost(s: State, x: nat, i: nat)
    requires Running(s) && LostKid(s, i) && x in s.kids && KidStep(s, x).Some?
    ensures LostKid(KidStep(s, x).value, i)
  {
    assert SteadyKid(s, x, s.kids[x]);
    RunMoves(s, x);
    MoveKeepsLost(s, KidStep(s, x).value, x, i);
  }

  lemma MoveKeepsLost(s: State, t: State, x: nat, i: nat)
    requires LostKid(s, i) && Moves(s, t, x) && !s.kids[x].pc.Leaving? && !s.kids[x].pc.Gone?
    requires s.kids[x].pc.Again? ==> t.kids[x].pc.Leaving?
    ensures LostKid(t, i)
  {}

  lemma DeathKeepsLost(s: State, x: nat, keep: bool, i: nat)
    requires Inv(s) && LostKid(s, i) && Step(s, Dies(x, keep)).Some?
    ensures LostKid(Step(s, Dies(x, keep)).value, i)
  {
    assert s.kids[x].pc.Leaving? ==> !HasTurn(s, x) && s.word.tid != x;
  }

  lemma StepKeepsLost(s: State, e: Event, i: nat)
    requires Running(s) && LostKid(s, i) && Step(s, e).Some?
    ensures LostKid(Step(s, e).value, i)
  {
    match e
    case Run(x) => RunKeepsLost(s, x, i);
    case Dies(x, keep) => DeathKeepsLost(s, x, keep, i);
    case Interrupted(x) => QuietKeepsLost(s, e, i);
    case GivesUp(x) => QuietKeepsLost(s, e, i);
    case Wakes(x, y) => WakesKeepsLost(s, x, y, i);
    case WakesNone(x) => QuietKeepsLost(s, e, i);
    case ParentWakes(y) =>
    case ParentWakesNone =>
  }

  lemma QuietKeepsLost(s: State, e: Event, i: nat)
    requires LostKid(s, i) && (e.Interrupted? || e.GivesUp? || e.WakesNone?) && Step(s, e).Some?
    ensures LostKid(Step(s, e).value, i)
  {}

  lemma WakesKeepsLost(s: State, x: nat, y: nat, i: nat)
    requires LostKid(s, i) && Step(s, Wakes(x, y)).Some?
    ensures LostKid(Step(s, Wakes(x, y)).value, i)
  {}

  lemma {:induction false} LostForGood(s: State, events: seq<Event>, i: nat)
    requires Running(s) && LostKid(s, i) && Exec(Step, s, events).Some?
    ensures LostKid(Exec(Step, s, events).value, i)
    decreases |events|
  {
    if events != [] {
      StepKeepsRunning(s, events[0]);
      StepKeepsLost(s, events[0], i);
      LostForGood(Step(s, events[0]).value, events[1..], i);
    }
  }

  /** A run without loss keeps the baton; a run with one leaves somebody out. */
  lemma {:induction false} KeptExactlyIfLossFree(s: State, events: seq<Event>)
    requires Running(s) && Kept(s) && Exec(Step, s, events).Some?
    ensures var t := Exec(Step, s, events).value; if LossFree(s, events) then Kept(t) else !AllHeld(t)
    decreases |events|
  {
    if events != [] {
      var t := Step(s, events[0]).value;
      StepKeepsRunning(s, events[0]);
      if Loss(s, events[0]) {
        var i := LossLoses(s, events[0]);
        LostForGood(t, events[1..], i);
      } else {
        StepKeepsKept(s, events[0]);
        KeptExactlyIfLossFree(t, events[1..]);
      }
    }
  }

  /** Nothing more happens by itself; only FUTEX_WAIT could still be interrupted or fail. */
  ghost predicate AtRest(s: State) { forall e :: Step(s, e).Some? ==> e.Interrupted? || e.GivesUp? }

  lemma RestIsTheEnd(s: State)
    requires Running(s) && Kept(s) && AtRest(s)
    ensures s.ppc == Released && AllHeld(s) && forall i | i in s.kids :: s.kids[i].pc.Gone?
  {
    if s.ppc == Waking {
      var e := ParentMoves(s);
    }
    forall i | i in s.kids ensures !Present(s.kids[i].pc) {
      if Present(s.kids[i].pc) {
        var e := PresentMoves(s, i);
      }
    }
  }

  lemma ParentMoves(s: State) returns (e: Event)
    requires s.ppc == Waking
    ensures Step(s, e).Some? && !e.Interrupted? && !e.GivesUp?
  {
    if NoSleeper(s) {
      e := ParentWakesNone;
    } else {
      var j :| j in s.kids && s.kids[j].pc == Asleep;
      e := ParentWakes(j);
    }
  }

  /** The baton is never dropped: whoever is at it can go on. */
  lemma PresentMoves(s: State, i: nat) returns (e: Event)
    requires i in s.kids && Present(s.kids[i].pc)
    ensures Step(s, e).Some? && !e.Interrupted? && !e.GivesUp?
  {
    if s.kids[i].pc == Exiting {
      e := Dies(i, false);
    } else if s.kids[i].pc != WakeNext {
      e := Run(i);
    } else if NoSleeper(s) {
      e := WakesNone(i);
    } else {
      var j :| j in s.kids && s.kids[j].pc == Asleep;
      e := Wakes(i, j);
    }
  }

  // ---------------------------------------------------------------- results

  ghost predicate SleepyRelease(s: State, before: seq<Event>) {
    && Init(s) && Exec(Step, s, before).Some?
    && var r := Exec(Step, s, before).value; r.ppc == Owns && r.kids != map[] && AllAsleep(r)
  }

  /** The baton chain.  All children sleep when the parent releases the futex; from then on anybody may
      be interrupted or give up.  Every run is short: an interruption costs four steps.  When it has
      come to rest, every child has held the futex, once and without counting a failure, and is gone,
      exactly if no FUTEX_WAIT has failed for good or found a changed word and no wake-up has found
      nobody asleep before all had held it. */
  lemma BatonChain(s: State, before: seq<Event>, after: seq<Event>)
    requires SleepyRelease(s, before)
    requires Exec(Step, Exec(Step, s, before).value, [Release] + after).Some?
    ensures var r := Exec(Step, s, before).value;
      var t := Exec(Step, r, [Release] + after).value;
      && |after| <= 12 * |r.kids| + 1 + 4 * Interruptions(after)
      && (AtRest(t) ==>
            && (AllHeld(t) <==> LossFree(r.(ppc := Waking), after))
            && (AllHeld(t) ==> forall i | i in t.kids :: t.kids[i].pc.Gone? && t.kids[i].fail == 0))
  {
    ReachableOverture(s, before);
    var r := Exec(Step, s, before).value;
    AsleepAtRelease(r);
    assert ([Release] + after)[1..] == after;
    var r1 := r.(ppc := Waking);
    assert Kept(r1);
    TotalAsleep(r.kids);
    RunIsShort(r1, after);
    KeptExactlyIfLossFree(r1, after);
    var t := Exec(Step, r1, after).value;
    if AtRest(t) && LossFree(r1, after) {
      RestIsTheEnd(t);
    }
  }

  /** Everybody sleeps, has held the futex, or is at it. */
  ghost predicate Undisturbed(s: State) { forall i | i in s.kids :: i in s.held || s.kids[i].pc.Asleep? }

  /** Without interruptions and give-ups nothing is lost, so nobody is left out. */
  lemma {:induction false} UndisturbedIsLossFree(s: State, events: seq<Event>)
    requires Running(s) && Kept(s) && Undisturbed(s) && (s.kids != map[] && s.ppc == Waking ==> !NoSleeper(s))
    requires forall k | 0 <= k < |events| :: !events[k].Interrupted? && !events[k].GivesUp?
    requires Exec(Step, s, events).Some?
    ensures LossFree(s, events)
    decreases |events|
  {
    if events != [] {
      StepKeepsRunning(s, events[0]);
      StepKeepsUndisturbed(s, events[0]);
      StepKeepsKept(s, events[0]);
      UndisturbedIsLossFree(Step(s, events[0]).value, events[1..]);
    }
  }

  lemma StepKeepsUndisturbed(s: State, e: Event)
    requires Running(s) && Kept(s) && Undisturbed(s) && (s.kids != map[] && s.ppc == Waking ==> !NoSleeper(s))
    requires Step(s, e).Some? && !e.Interrupted? && !e.GivesUp?
    ensures !Loss(s, e) && Undisturbed(Step(s, e).value) && Step(s, e).value.kids.Keys == s.kids.Keys
    ensures Step(s, e).value.ppc == Waking ==> !NoSleeper(Step(s, e).value) || s.kids == map[]
  {
    match e
    case Run(i) =>
      assert i in s.held && s.ppc == Released && SteadyKid(s, i, s.kids[i]);
      RunMoves(s, i);
    case Dies(i, _) => assert i in s.held && s.ppc == Released;
    case Wakes(i, j) => WakesKeepsUndisturbed(s, i, j);
    case WakesNone(i) =>
    case ParentWakes(j) =>
    case ParentWakesNone =>
  }

  lemma WakesKeepsUndisturbed(s: State, i: nat, j: nat)
    requires Undisturbed(s) && Step(s, Wakes(i, j)).Some?
    ensures var t := Step(s, Wakes(i, j)).value; Undisturbed(t) && t.kids.Keys == s.kids.Keys && t.ppc == s.ppc
  {
    assert i in s.held;
  }

  /** So without interruptions and give-ups a run can only stop when all have held the futex. */
  lemma UndisturbedChain(s: State, before: seq<Event>, after: seq<Event>)
    requires SleepyRelease(s, before)
    requires forall k | 0 <= k < |after| :: !after[k].Interrupted? && !after[k].GivesUp?
    requires Exec(Step, Exec(Step, s, before).value, [Release] + after).Some?
    ensures var t := Exec(Step, Exec(Step, s, before).value, [Release] + after).value;
      AtRest(t) ==> AllHeld(t) && forall i | i in t.kids :: t.kids[i].pc.Gone? && t.kids[i].fail == 0
  {
    BatonChain(s, before, after);
    ReachableOverture(s, before);
    var r := Exec(Step, s, before).value;
    AsleepAtRelease(r);
    assert ([Release] + after)[1..] == after;
    UndisturbedIsLossFree(r.(ppc := Waking), after);
  }

  // ---------------------------------------------------------------- an interruption can leave a child out

  /** An interrupted child tries again and gets as far as FUTEX_WAIT. */
  lemma TriesAgain(s: State, j: nat) returns (events: seq<Event>, t: State)
    requires j in s.kids && s.kids[j].pc.Asleep? && s.word.tid > 0
    ensures events == [Interrupted(j), Run(j), Run(j)] && Exec(Step, s, events) == Some(t)
    ensures t.word.tid == s.word.tid && t.held == s.held
    ensures j in t.kids && t.kids[j] == s.kids[j].(pc := Wait, val := t.word) && t.kids == s.kids[j := t.kids[j]]
  {
    var s1 := Put(s, j, s.kids[j].(pc := TryFree));
    events := ThenOne(s, [], s, Interrupted(j), s1);
    var s2 := Put(s1, j, s1.kids[j].(pc := MarkWaiters));
    events := ThenOne(s, events, s1, Run(j), s2);
    var w := s.word.(waiters := true);
    t := Put(s2, j, s2.kids[j].(pc := Wait, val := w)).(word := w);
    events := ThenOne(s, events, s2, Run(j), t);
  }

  /** The holder recovers the futex. */
  lemma TakesWord(s: State, i: nat) returns (events: seq<Event>, t: State)
    requires i in s.kids && s.kids[i].pc.Holding?
    ensures events == [Run(i), Run(i)] && Exec(Step, s, events) == Some(t)
    ensures t.word.tid == i && t.held == s.held && i in t.kids && t.kids == s.kids[i := t.kids[i]]
  {
    var s1 := Put(s, i, s.kids[i].(pc := Recover, val := s.word)).(sawDied := s.sawDied + [s.word.died]);
    events := ThenOne(s, [], s, Run(i), s1);
    t := Put(s1, i, s1.kids[i].(pc := LinkNext)).(word := Word(i, s.word.waiters, false));
    events := ThenOne(s, events, s1, Run(i), t);
  }

  /** The first holder takes the word between MarkWaiters and FUTEX_WAIT of an interrupted child. */
  lemma OvertakenBy(s: State, i: nat, j: nat) returns (events: seq<Event>, t: State)
    requires s.ppc == Waking && i != j && i in s.kids && j in s.kids && s.word.tid == s.parent > 0
    requires s.kids[i].pc.Asleep? && s.kids[j].pc.Asleep? && j !in s.held
    ensures Exec(Step, s, events) == Some(t)
    ensures events == [ParentWakes(i), Interrupted(j), Run(j), Run(j), Run(i), Run(i)]
    ensures j in t.kids && t.kids[j] == s.kids[j].(pc := Wait, val := t.kids[j].val)
    ensures t.kids[j].val.tid == s.parent && t.word.tid == i && j !in t.held
  {
    var s1 := Put(s.(ppc := Released), i, s.kids[i].(pc := Holding)).(held := s.held + [i]);
    events := ThenOne(s, [], s, ParentWakes(i), s1);
    var again, s2 := TriesAgain(s1, j);
    ExecAppend(Step, s, events, again);
    var takes;
    takes, t := TakesWord(s2, i);
    ExecAppend(Step, s, events + again, takes);
    events := events + again + takes;
  }

  /** It then finds another word than the one it expects and than the one it first read. */
  lemma GoesAway(s: State, j: nat) returns (events: seq<Event>, t: State)
    requires j in s.kids && s.kids[j].pc.Wait? && s.word.tid != s.kids[j].val.tid && s.word.tid != j
    requires s.word.tid != s.kids[j].oldval.tid
    ensures events == [Run(j), Run(j), Dies(j, false)] && Exec(Step, s, events) == Some(t)
    ensures t == Put(s, j, s.kids[j].(pc := Gone))
  {
    var s1 := Put(s, j, s.kids[j].(pc := Again));
    events := ThenOne(s, [], s, Run(j), s1);
    var s2 := Put(s1, j, s1.kids[j].(pc := Leaving));
    events := ThenOne(s, events, s1, Run(j), s2);
    t := Put(s2, j, s2.kids[j].(pc := Gone));
    events := ThenOne(s, events, s2, Dies(j, false), t);
  }

  lemma ThenOne(s: State, events: seq<Event>, t: State, e: Event, u: State) returns (more: seq<Event>)
    requires Exec(Step, s, events) == Some(t) && Step(t, e) == Some(u)
    ensures more == events + [e] && Exec(Step, s, more) == Some(u)
  {
    more := events + [e];
    ExecThen(Step, s, events, e);
  }

  /** The run in which child `j` is interrupted and overtaken by child `i`. */
  function Overtaking(i: nat, j: nat): seq<Event> {
    [ParentWakes(i), Interrupted(j), Run(j), Run(j), Run(i), Run(i)] + [Run(j), Run(j), Dies(j, false)]
  }

  lemma OneInterruption(i: nat, j: nat)
    ensures Interruptions(Overtaking(i, j)) == 1
    ensures forall k | 0 <= k < |Overtaking(i, j)| :: !Overtaking(i, j)[k].GivesUp?
  {
    var all := Overtaking(i, j);
    NoInterruption(all[2..]);
    assert all[1..][1..] == all[2..];
  }

  /** One interruption is enough.  Whenever two children or more sleep at the release, there is a run in
      which one of them goes away without having held the futex and without counting a failure. */
  lemma InterruptionLeavesOut(s: State, before: seq<Event>, i: nat, j: nat)
    requires SleepyRelease(s, before) && i != j
    requires var r := Exec(Step, s, before).value; i in r.kids && j in r.kids
    ensures Interruptions(Overtaking(i, j)) == 1
    ensures forall k | 0 <= k < |Overtaking(i, j)| :: !Overtaking(i, j)[k].GivesUp?
    ensures var t := Exec(Step, Exec(Step, s, before).value, [Release] + Overtaking(i, j));
      t.Some? && j in t.value.kids && t.value.kids[j].pc.Gone? && j !in t.value.held && t.value.kids[j].fail == 0
  {
    ReachableOverture(s, before);
    var r := Exec(Step, s, before).value;
    AsleepAtRelease(r);
    assert r.word.tid == r.parent && SteadyKid(r.(ppc := Waking), j, r.kids[j]);
    OneInterruption(i, j);
    var t := LeftOut(r.(ppc := Waking), i, j);
    assert ([Release] + Overtaking(i, j))[1..] == Overtaking(i, j);
  }

  lemma LeftOut(s: State, i: nat, j: nat) returns (t: State)
    requires s.ppc == Waking && i != j && i in s.kids && j in s.kids
    requires s.word.tid == s.parent > 0 && s.parent !in s.kids
    requires s.kids[i].pc.Asleep? && s.kids[j].pc.Asleep? && j !in s.held && s.kids[j].oldval.tid == s.parent
    ensures Exec(Step, s, Overtaking(i, j)) == Some(t)
    ensures j in t.kids && t.kids[j].pc.Gone? && j !in t.held && t.kids[j].fail == s.kids[j].fail
  {
    var first, u := OvertakenBy(s, i, j);
    var rest;
    rest, t := GoesAway(u, j);
    ExecAppend(Step, s, first, rest);
  }

  lemma {:induction false} NoInterruption(events: seq<Event>)
    requires forall k | 0 <= k < |events| :: !events[k].Interrupted?
    ensures Interruptions(events) == 0
  {
    if events != [] {
      NoInterruption(events[1..]);
    }
  }

  // ---------------------------------------------------------------- all children can be asleep

  lemma FallAsleep(s: State, i: nat) returns (events: seq<Event>, t: State)
    requires s.ppc == Owns && s.word.tid == s.parent > 0 && i in s.kids && s.kids[i] == FreshKid
    ensures Exec(Step, s, events) == Some(t)
    ensures i in t.kids && t.kids[i].pc.Asleep? && t.kids == s.kids[i := t.kids[i]]
    ensures t.ppc == Owns && t.parent == s.parent && t.word.tid == t.parent
  {
    var s1 := Put(s, i, s.kids[i].(pc := ReadOld, pending := true));
    events := ThenOne(s, [], s, Run(i), s1);
    var s2 := Put(s1, i, s1.kids[i].(pc := TryFree, oldval := s.word));
    events := ThenOne(s, events, s1, Run(i), s2);
    var s3 := Put(s2, i, s2.kids[i].(pc := MarkWaiters));
    events := ThenOne(s, events, s2, Run(i), s3);
    var w := s.word.(waiters := true);
    var s4 := Put(s3, i, s3.kids[i].(pc := Wait, val := w)).(word := w);
    events := ThenOne(s, events, s3, Run(i), s4);
    t := Put(s4, i, s4.kids[i].(pc := Asleep));
    events := ThenOne(s, events, s4, Run(i), t);
  }

  lemma {:induction false} FallAllAsleep(s: State, awake: set<nat>) returns (events: seq<Event>, t: State)
    requires s.ppc == Owns && s.word.tid == s.parent > 0
    requires forall i | i in awake :: i in s.kids && s.kids[i] == FreshKid
    requires forall i | i in s.kids && i !in awake :: s.kids[i].pc.Asleep?
    ensures Exec(Step, s, events) == Some(t) && t.ppc == Owns && AllAsleep(t) && t.kids.Keys == s.kids.Keys
    decreases |awake|
  {
    if awake == {} {
      events, t := [], s;
    } else {
      var i :| i in awake;
      var first, u := FallAsleep(s, i);
      var rest;
      rest, t := FallAllAsleep(u, awake - {i});
      ExecAppend(Step, s, first, rest);
      events := first + rest;
    }
  }

  /** The hypothesis can be met: every start leads to a state in which all children sleep. */
  lemma EveryoneCanSleep(s: State) returns (before: seq<Event>)
    requires Init(s) && s.kids != map[]
    ensures SleepyRelease(s, before) && Exec(Step, s, before).value.kids.Keys == s.kids.Keys
  {
    var t: State;
    before, t := FallAllAsleep(s, s.kids.Keys);
    var i :| i in s.kids;
    assert i in t.kids;
  }
}
