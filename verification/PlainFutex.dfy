/** futex/plain.c: children sleep on a futex word until the parent changes it and wakes them all.

    Any number of children and of interruptions.  FUTEX_WAIT compares and sleeps in one step;
    FUTEX_WAKE wakes as many sleepers as it is asked for, or all of them if there are fewer.
 */
module PlainFutex {
  import opened Runs
  import opened Counting

  datatype Pc =
    | IncFirst         // atomic_inc(&dumb_barrier[0])
    | Wait             // FUTEX_WAIT, -1
    | Asleep
    | Reread           // EAGAIN: atomic_read(test_futex) == 1 ?
    | IncSecond        // atomic_inc(&dumb_barrier[1])
    | Done

  datatype ParentPc = Creating | AwaitBarrier | SetWord | WakeAll | Finished

  datatype State = State(
    n: nat, word: int, first: nat, second: nat, kids: seq<Pc>, parent: ParentPc, interrupts: nat)

  datatype Event =
    | Run(kid: nat)
    | Interrupted(kid: nat)            // EINTR or ERESTART; the supply of interruptions is finite
    | Fails(kid: nat)                  // FUTEX_WAIT returns any other error
    | Parent
    | Wakes(woken: set<nat>)

  function Init(n: nat, interrupts: nat): State { State(n, -1, 0, 0, [], Creating, interrupts) }

  function KidStep(s: State, i: nat): Option<State>
    requires i < |s.kids|
  {
    match s.kids[i]
    case IncFirst => Some(s.(kids := s.kids[i := Wait], first := s.first + 1))
    case Wait => Some(s.(kids := s.kids[i := if s.word == -1 then Asleep else Reread]))
    case Asleep => None
    case Reread => Some(s.(kids := s.kids[i := if s.word == 1 then IncSecond else Wait]))
    case IncSecond => Some(s.(kids := s.kids[i := Done], second := s.second + 1))
    case Done => None
  }

  function Sleepers(s: State): set<nat> { set i | 0 <= i < |s.kids| && s.kids[i].Asleep? }

  function Awake(s: State, woken: set<nat>): seq<Pc> {
    seq(|s.kids|, i requires 0 <= i < |s.kids| => if i in woken then IncSecond else s.kids[i])
  }

  function ParentStep(s: State): Option<State> {
    match s.parent
    case Creating =>
      if |s.kids| < s.n then Some(s.(kids := s.kids + [IncFirst])) else Some(s.(parent := AwaitBarrier))
    case AwaitBarrier => if s.first == s.n then Some(s.(parent := SetWord)) else None
    case SetWord => Some(s.(parent := WakeAll, word := 1))
    case _ => None
  }

  function Step(s: State, e: Event): Option<State> {
    match e
    case Run(i) => if i < |s.kids| then KidStep(s, i) else None
    case Interrupted(i) =>
      if i < |s.kids| && s.kids[i].Asleep? && s.interrupts > 0
      then Some(s.(kids := s.kids[i := Wait], interrupts := s.interrupts - 1)) else None
    case Fails(i) => if i < |s.kids| && s.kids[i].Wait? then Some(s.(kids := s.kids[i := IncSecond])) else None
    case Parent => ParentStep(s)
    case Wakes(w) =>
      if s.parent.WakeAll? && w <= Sleepers(s) && |w| <= s.n && (|w| == s.n || w == Sleepers(s))
      then Some(s.(parent := Finished, kids := Awake(s, w))) else None
  }

  // ---------------------------------------------------------------- the invariant

  ghost function FirstSet(s: State): set<nat> { set i | 0 <= i < |s.kids| && !s.kids[i].IncFirst? }

  ghost function SecondSet(s: State): set<nat> { set i | 0 <= i < |s.kids| && s.kids[i].Done? }

  predicate WordIsSet(p: ParentPc) { p.WakeAll? || p.Finished? }

  ghost predicate Inv(s: State) {
    && |s.kids| <= s.n
    && (s.parent.Creating? || |s.kids| == s.n)
    && s.word == (if WordIsSet(s.parent) then 1 else -1)
    && s.first == |FirstSet(s)| && s.second == |SecondSet(s)|
    && (forall i | 0 <= i < |s.kids| && s.kids[i].Reread? :: s.word == 1)
    && (s.parent.Finished? ==> forall i | 0 <= i < |s.kids| :: !s.kids[i].Asleep?)
    && (s.parent.SetWord? || WordIsSet(s.parent) ==> s.first == s.n)
  }

  /** One kid changes place. */
  ghost predicate Moves(s: State, t: State, i: nat) {
    && i < |s.kids| == |t.kids| && t.kids == s.kids[i := t.kids[i]]
    && t == s.(kids := t.kids, first := t.first, second := t.second, interrupts := t.interrupts)
    && !s.kids[i].Done? && !t.kids[i].IncFirst?
    && t.first == s.first + (if s.kids[i].IncFirst? then 1 else 0)
    && t.second == s.second + (if t.kids[i].Done? then 1 else 0)
    && (t.kids[i].Reread? ==> s.word != -1)
    && (t.kids[i].Asleep? ==> s.word == -1)
  }

  lemma RunMoves(s: State, i: nat)
    requires i < |s.kids| && KidStep(s, i).Some?
    ensures Moves(s, KidStep(s, i).value, i)
  {
  }

  lemma MoveCounts(s: State, t: State, i: nat)
    requires i < |s.kids| == |t.kids| && t.kids == s.kids[i := t.kids[i]] && !s.kids[i].Done? && !t.kids[i].IncFirst?
    ensures |FirstSet(t)| == |FirstSet(s)| + (if s.kids[i].IncFirst? then 1 else 0)
    ensures |SecondSet(t)| == |SecondSet(s)| + (if t.kids[i].Done? then 1 else 0)
  {
    if s.kids[i].IncFirst? {
      assert FirstSet(t) == FirstSet(s) + {i} && i !in FirstSet(s);
    } else {
      assert FirstSet(t) == FirstSet(s);
    }
    if t.kids[i].Done? {
      assert SecondSet(t) == SecondSet(s) + {i} && i !in SecondSet(s);
    } else {
      assert SecondSet(t) == SecondSet(s);
    }
  }

  lemma MoveKeepsInv(s: State, t: State, i: nat)
    requires Inv(s) && Moves(s, t, i)
    ensures Inv(t)
  {
    MoveCounts(s, t, i);
    SubsetBelow(|t.kids|, FirstSet(t));
  }

  /** FUTEX_WAKE with N reaches everybody who sleeps. */
  lemma WakeReachesAll(s: State, w: set<nat>)
    requires |s.kids| <= s.n && w <= Sleepers(s) && (|w| == s.n || w == Sleepers(s))
    ensures w == Sleepers(s)
  {
    SubsetBelow(|s.kids|, w);
    forall i | i in Sleepers(s) ensures i in w {
    }
  }

  lemma WakeKeepsInv(s: State, w: set<nat>)
    requires Inv(s) && Step(s, Wakes(w)).Some?
    ensures Inv(Step(s, Wakes(w)).value)
  {
    WakeReachesAll(s, w);
    var t := Step(s, Wakes(w)).value;
    assert FirstSet(t) == FirstSet(s) && SecondSet(t) == SecondSet(s);
  }

  lemma ParentKeepsInv(s: State)
    requires Inv(s) && ParentStep(s).Some?
    ensures Inv(ParentStep(s).value)
  {
    var t := ParentStep(s).value;
    assert FirstSet(t) == FirstSet(s) && SecondSet(t) == SecondSet(s);
  }

  lemma StepKeepsInv(s: State, e: Event)
    requires Inv(s) && Step(s, e).Some?
    ensures Inv(Step(s, e).value)
  {
    match e
    case Run(i) => RunMoves(s, i); MoveKeepsInv(s, KidStep(s, i).value, i);
    case Interrupted(i) => MoveKeepsInv(s, Step(s, e).value, i);
    case Fails(i) => MoveKeepsInv(s, Step(s, e).value, i);
    case Parent => ParentKeepsInv(s);
    case Wakes(w) => WakeKeepsInv(s, w);
  }

  // ---------------------------------------------------------------- every run ends

  function Left(pc: Pc): nat {
    match pc
    case IncFirst => 6
    case Wait => 5
    case Asleep => 4
    case Reread => 3
    case IncSecond => 2
    case Done => 0
  }

  ghost function Remaining(s: State): seq<nat> {
    seq(|s.kids|, i requires 0 <= i < |s.kids| => Left(s.kids[i]))
  }

  function ParentLeft(p: ParentPc): nat {
    match p
    case Creating => 4
    case AwaitBarrier => 3
    case SetWord => 2
    case WakeAll => 1
    case Finished => 0
  }

  ghost function Rank(s: State): nat {
    Sum(Remaining(s)) + 2 * s.interrupts + ParentLeft(s.parent)
    + if |s.kids| <= s.n then 7 * (s.n - |s.kids|) else 0
  }

  lemma MoveLowersRank(s: State, t: State, i: nat)
    requires Moves(s, t, i) && Left(t.kids[i]) + 2 * t.interrupts < Left(s.kids[i]) + 2 * s.interrupts
    ensures Rank(t) < Rank(s)
  {
    var r := Left(t.kids[i]);
    SumUpdate(Remaining(s), i, r);
    assert Remaining(t) == Remaining(s)[i := r];
  }

  lemma {:induction false} SumMonotone(a: seq<nat>, b: seq<nat>)
    requires |a| == |b| && forall i | 0 <= i < |a| :: a[i] <= b[i]
    ensures Sum(a) <= Sum(b)
  {
    if a != [] {
      SumMonotone(a[1..], b[1..]);
    }
  }

  lemma StepLowersRank(s: State, e: Event)
    requires Inv(s) && Step(s, e).Some?
    ensures Rank(Step(s, e).value) < Rank(s)
  {
    var t := Step(s, e).value;
    match e
    case Run(i) => RunMoves(s, i); MoveLowersRank(s, t, i);
    case Interrupted(i) => MoveLowersRank(s, t, i);
    case Fails(i) => MoveLowersRank(s, t, i);
    case Parent =>
      if s.parent.Creating? && |s.kids| < s.n {
        SumAppend(Remaining(s), 6);
        assert Remaining(t) == Remaining(s) + [6];
      } else {
        assert Remaining(t) == Remaining(s);
      }
    case Wakes(w) => SumMonotone(Remaining(t), Remaining(s));
  }

  ghost predicate AllDone(s: State) {
    s.parent.Finished? && |s.kids| == s.n && forall i | 0 <= i < |s.kids| :: s.kids[i].Done?
  }

  lemma SomeoneMoves(s: State) returns (e: Event)
    requires Inv(s) && !AllDone(s)
    ensures Step(s, e).Some?
  {
    if i :| 0 <= i < |s.kids| && !s.kids[i].Asleep? && !s.kids[i].Done? {
      e := Run(i);
    } else if s.parent.WakeAll? {
      SubsetBelow(|s.kids|, Sleepers(s));
      e := Wakes(Sleepers(s));
    } else {
      e := Parent;
      if s.parent.AwaitBarrier? {
        CountBelow(s.n, FirstSet(s));
      }
    }
  }

  /** No lost wake-up.  In every interleaving, once the parent has set the word and woken N children,
      no child is asleep and none can fall asleep again; every run is finite and can only stop when
      every child has passed and counted itself exactly once. */
  lemma NoLostWakeup(n: nat, interrupts: nat, events: seq<Event>)
    requires Exec(Step, Init(n, interrupts), events).Some?
    ensures var s := Exec(Step, Init(n, interrupts), events).value;
      && (s.parent.Finished? ==>
            && (forall i | 0 <= i < |s.kids| :: !s.kids[i].Asleep?)
            && (forall e :: Step(s, e).Some? ==> Sleepers(Step(s, e).value) == {}))
      && s.second == |SecondSet(s)|
      && |events| <= Rank(Init(n, interrupts))
      && ((forall e :: Step(s, e) == None) ==> s.second == n && AllDone(s))
  {
    var s0 := Init(n, interrupts);
    assert FirstSet(s0) == {} && SecondSet(s0) == {};
    forall s, e | Inv(s) && Step(s, e).Some?
      ensures Inv(Step(s, e).value) && Rank(Step(s, e).value) < Rank(s) && Step(s, e).value.n == s.n
    {
      StepKeepsInv(s, e);
      StepLowersRank(s, e);
    }
    Invariance(Step, Inv, s0, events);
    RunLength(Step, Inv, Rank, s0, events);
    SizeIsConstant(s0, events);
    var s := Exec(Step, s0, events).value;
    forall e | s.parent.Finished? && Step(s, e).Some? ensures Sleepers(Step(s, e).value) == {} {
      StaysFinished(s, e);
    }
    if !AllDone(s) {
      var e := SomeoneMoves(s);
    } else {
      CountBelow(s.n, SecondSet(s));
    }
  }

  lemma StaysFinished(s: State, e: Event)
    requires Inv(s) && s.parent.Finished? && Step(s, e).Some?
    ensures Sleepers(Step(s, e).value) == {}
  {}

  lemma {:induction false} SizeIsConstant(s: State, events: seq<Event>)
    ensures var t := Exec(Step, s, events); t.Some? ==> t.value.n == s.n
    decreases |events|
  {
    if events != [] && Step(s, events[0]).Some? {
      SizeIsConstant(Step(s, events[0]).value, events[1..]);
    }
  }

  // ---------------------------------------------------------------- nobody gets through early

  predicate Past(pc: Pc) { pc.IncSecond? || pc.Done? }

  /** A child is past the futex only if the word is set or its FUTEX_WAIT has failed, and whoever has
      failed is past it. */
  ghost predicate PastIs(s: State, failed: set<nat>) {
    && (forall i | 0 <= i < |s.kids| && Past(s.kids[i]) :: s.word == 1 || i in failed)
    && (forall i | i in failed :: i < |s.kids| && Past(s.kids[i]))
  }

  function FailedIn(events: seq<Event>): set<nat> {
    if events == [] then {}
    else (if events[0].Fails? then {events[0].kid} else {}) + FailedIn(events[1..])
  }

  lemma StepKeepsPast(s: State, e: Event, failed: set<nat>)
    requires Inv(s) && PastIs(s, failed) && Step(s, e).Some?
    ensures PastIs(Step(s, e).value, if e.Fails? then failed + {e.kid} else failed)
  {
    match e
    case Run(i) =>
    case Interrupted(i) =>
    case Fails(i) =>
    case Parent =>
    case Wakes(w) =>
  }

  lemma {:induction false} RunKeepsPast(s: State, events: seq<Event>, failed: set<nat>)
    requires Inv(s) && PastIs(s, failed) && Exec(Step, s, events).Some?
    ensures Inv(Exec(Step, s, events).value)
    ensures PastIs(Exec(Step, s, events).value, failed + FailedIn(events))
    decreases |events|
  {
    if events == [] {
      assert failed + FailedIn(events) == failed;
    } else {
      var more := if events[0].Fails? then failed + {events[0].kid} else failed;
      StepKeepsInv(s, events[0]);
      StepKeepsPast(s, events[0], failed);
      RunKeepsPast(Step(s, events[0]).value, events[1..], more);
      assert more + FailedIn(events[1..]) == failed + FailedIn(events);
    }
  }

  /** Nobody gets through early.  In every interleaving the word is set only after all children have
      passed the first barrier; until then the children past the futex are exactly those whose
      FUTEX_WAIT has failed with an error that is not retried, however often others are interrupted. */
  lemma NobodyPassesEarly(n: nat, interrupts: nat, events: seq<Event>)
    requires Exec(Step, Init(n, interrupts), events).Some?
    ensures var s := Exec(Step, Init(n, interrupts), events).value;
      && (s.word == 1 ==> |s.kids| == n == s.first && forall i | 0 <= i < |s.kids| :: !s.kids[i].IncFirst?)
      && (s.word != 1 ==> forall i | 0 <= i < |s.kids| :: Past(s.kids[i]) <==> i in FailedIn(events))
      && (s.word != 1 && (forall k | 0 <= k < |events| :: !events[k].Fails?) ==> s.second == 0)
  {
    var s0 := Init(n, interrupts);
    assert FirstSet(s0) == {} && SecondSet(s0) == {};
    RunKeepsPast(s0, events, {});
    assert {} + FailedIn(events) == FailedIn(events);
    SizeIsConstant(s0, events);
    var s := Exec(Step, s0, events).value;
    if s.word == 1 {
      SubsetBelow(|s.kids|, FirstSet(s));
      forall i | 0 <= i < |s.kids| ensures !s.kids[i].IncFirst? {
        assert i in FirstSet(s);
      }
    } else if forall k | 0 <= k < |events| :: !events[k].Fails? {
      NoneFailed(events);
      assert SecondSet(s) == {};
    }
  }

  lemma {:induction false} NoneFailed(events: seq<Event>)
    requires forall k | 0 <= k < |events| :: !events[k].Fails?
    ensures FailedIn(events) == {}
  {
    if events != [] {
      NoneFailed(events[1..]);
    }
  }
}
