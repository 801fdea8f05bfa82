/** futex/pi.c: children of rising priority contend for a priority-inheritance futex that the lowest
    one holds.

    Any number of children.  The kernel is taken as documented in the header of the file: a waiter
    lends its priority to the owner, and FUTEX_UNLOCK_PI gives the futex to the waiter with the
    highest priority.  Children contend while the futex is held.
 */
module PiFutex {
  import opened Runs

  datatype Pc =
    | Contending                   // woken from the wait queue, on the way to FUTEX_LOCK_PI
    | Queued                       // asleep in FUTEX_LOCK_PI
    | Entered                      // in the critical section, priority not yet looked at
    | Checked(ok: bool)
    | Done(ok: bool)

  /** `order` records who came to own the futex. */
  datatype State = State(prioMin: int, kids: seq<Pc>, owner: Option<nat>, order: seq<nat>)

  datatype Event = Lock(kid: nat) | Check(kid: nat) | Unlock(kid: nat)

  /** The lowest child has taken the futex and woken the others. */
  function Init(prioMin: int, n: nat): State {
    State(prioMin, seq(n, i => if i == 0 then Entered else Contending), Some(0), [0])
  }

  /** The static priority of a child. */
  function Priority(s: State, kid: nat): int { s.prioMin + kid }

  /** The waiter with the highest priority. */
  function TopWaiter(kids: seq<Pc>): (w: Option<nat>)
    ensures w.Some? ==> w.value < |kids| && kids[w.value].Queued? && forall i | w.value < i < |kids| :: !kids[i].Queued?
    ensures w.None? ==> forall i | 0 <= i < |kids| :: !kids[i].Queued?
  {
    if kids == [] then None
    else if kids[|kids| - 1].Queued? then Some(|kids| - 1)
    else TopWaiter(kids[..|kids| - 1])
  }

  /** The priority a child runs with: an owner inherits that of its highest waiter. */
  function Effective(s: State, kid: nat): int {
    var w := TopWaiter(s.kids);
    if s.owner == Some(kid) && w.Some? && w.value > kid then Priority(s, w.value) else Priority(s, kid)
  }

  function To(s: State, i: nat, pc: Pc): State
    requires i < |s.kids|
  {
    s.(kids := s.kids[i := pc])
  }

  function Step(s: State, e: Event): Option<State> {
    match e
    case Lock(i) =>
      if i < |s.kids| && s.kids[i].Contending? && s.owner.Some? then Some(To(s, i, Queued)) else None
    case Check(i) =>
      if i < |s.kids| && s.owner == Some(i) && s.kids[i].Entered? then
        Some(To(s, i, Checked(if i == 0 then Effective(s, 0) >= Priority(s, |s.kids| - 1)
                              else Effective(s, i) == Priority(s, i))))
      else None
    case Unlock(i) =>
      if i < |s.kids| && s.owner == Some(i) && s.kids[i].Checked? then
        var t := To(s, i, Done(s.kids[i].ok));
        match TopWaiter(t.kids)
        case None => Some(t.(owner := None))
        case Some(w) => Some(To(t, w, Entered).(owner := Some(w), order := s.order + [w]))
      else None
  }

  // ---------------------------------------------------------------- inheritance

  /** The priority of an owner is the highest among its own and those of all waiters. */
  lemma Inherits(s: State, i: nat)
    requires s.owner == Some(i) && i < |s.kids| && !s.kids[i].Queued?
    ensures Effective(s, i) >= Priority(s, i)
    ensures forall w | 0 <= w < |s.kids| && s.kids[w].Queued? :: Effective(s, i) >= Priority(s, w)
    ensures Effective(s, i) == Priority(s, i) ||
            exists w :: 0 <= w < |s.kids| && s.kids[w].Queued? && Effective(s, i) == Priority(s, w)
    ensures i < |s.kids| - 1 ==> (Effective(s, i) == Priority(s, |s.kids| - 1) <==> s.kids[|s.kids| - 1].Queued?)
    ensures Effective(s, i) == Priority(s, i) <==> forall w | i < w < |s.kids| :: !s.kids[w].Queued?
  {}

  // ---------------------------------------------------------------- hand-off

  /** What child `i` is doing while child `k` owns the futex: child 0 was first, then they come from the
      top down. */
  predicate InOrder(pc: Pc, i: nat, k: nat) {
    if i == k then pc.Entered? || (pc.Checked? && (k > 0 ==> pc.ok))
    else if i == 0 then pc.Done?
    else if k == 0 || i < k then pc.Queued?
    else pc == Done(true)
  }

  ghost predicate OrderIs(order: seq<nat>, n: nat, len: nat) {
    |order| == len && forall j | 0 <= j < len :: order[j] == if j == 0 then 0 else n - j
  }

  /** Child `k` owns the futex; all below it still wait and all above it are done. */
  ghost predicate HandOff(s: State, n: nat, k: nat) {
    && |s.kids| == n >= 2 && k < n && s.owner == Some(k)
    && OrderIs(s.order, n, if k == 0 then 1 else n - k + 1)
    && forall i | 0 <= i < n :: InOrder(s.kids[i], i, k)
  }

  /** Everybody is done. */
  ghost predicate AllDone(s: State, n: nat) {
    && |s.kids| == n >= 2 && s.owner == None && OrderIs(s.order, n, n)
    && forall i | 0 <= i < n :: s.kids[i].Done? && (i > 0 ==> s.kids[i].ok)
  }

  ghost predicate HandingOn(s: State) {
    (exists k: nat :: HandOff(s, |s.kids|, k)) || AllDone(s, |s.kids|)
  }

  lemma CheckKeepsHandOff(s: State, n: nat, k: nat)
    requires HandOff(s, n, k) && s.kids[k].Entered?
    ensures Step(s, Check(k)).Some? && HandOff(Step(s, Check(k)).value, n, k)
    ensures k > 0 ==> Effective(s, k) == Priority(s, k)
    ensures k == 0 ==> Effective(s, 0) == Priority(s, n - 1) && Step(s, Check(0)).value.kids[0] == Checked(true)
  {
    assert InOrder(s.kids[n - 1], n - 1, k);
    Inherits(s, k);
    assert forall w | k < w < n && k > 0 :: !s.kids[w].Queued?;
    var t := Step(s, Check(k)).value;
    assert t.kids[k] == Checked(true);
    forall i | 0 <= i < n ensures InOrder(t.kids[i], i, k) {
      assert i != k ==> t.kids[i] == s.kids[i];
    }
  }

  /** Who is next: the highest child if child 0 lets go, otherwise the one below. */
  lemma NextOwner(s: State, n: nat, k: nat)
    requires HandOff(s, n, k)
    ensures TopWaiter(To(s, k, Done(true)).kids) == TopWaiter(To(s, k, Done(false)).kids) ==
            if k == 0 then Some(n - 1) else if k == 1 then None else Some(k - 1)
  {
    NextWaiter(To(s, k, Done(true)).kids, s.kids, n, k);
    NextWaiter(To(s, k, Done(false)).kids, s.kids, n, k);
  }

  lemma NextWaiter(kids: seq<Pc>, before: seq<Pc>, n: nat, k: nat)
    requires |kids| == |before| == n >= 2 && k < n && kids == before[k := kids[k]] && kids[k].Done?
    requires forall i | 0 <= i < n :: InOrder(before[i], i, k)
    ensures TopWaiter(kids) == if k == 0 then Some(n - 1) else if k == 1 then None else Some(k - 1)
  {
    var w := TopWaiter(kids);
    forall i | 0 <= i < n ensures kids[i].Queued? <==> i > 0 && (k == 0 || i < k) {
      assert i != k ==> kids[i] == before[i];
    }
    if k == 0 {
      assert kids[n - 1].Queued?;
    } else if k > 1 {
      assert kids[k - 1].Queued?;
    }
  }

  lemma UnlockKeepsHandOff(s: State, n: nat, k: nat)
    requires HandOff(s, n, k) && s.kids[k].Checked?
    ensures Step(s, Unlock(k)).Some?
    ensures var t := Step(s, Unlock(k)).value;
      if k == 1 then AllDone(t, n) else HandOff(t, n, if k == 0 then n - 1 else k - 1)
  {
    NextOwner(s, n, k);
    var u := To(s, k, Done(s.kids[k].ok));
    var t := Step(s, Unlock(k)).value;
    forall i | 0 <= i < n && i != k ensures u.kids[i] == s.kids[i] {}
    if k == 1 {
      assert t == u.(owner := None);
    } else {
      var w := if k == 0 then n - 1 else k - 1;
      assert t == To(u, w, Entered).(owner := Some(w), order := s.order + [w]);
      forall i | 0 <= i < n ensures InOrder(t.kids[i], i, w) {
        assert InOrder(s.kids[i], i, k);
      }
    }
  }

  lemma StepKeepsHandOff(s: State, e: Event)
    requires HandingOn(s) && Step(s, e).Some?
    ensures HandingOn(Step(s, e).value) && |Step(s, e).value.kids| == |s.kids|
    ensures !Failed(s.kids[0]) ==> !Failed(Step(s, e).value.kids[0])
  {
    var n := |s.kids|;
    var t := Step(s, e).value;
    if k: nat :| HandOff(s, n, k) {
      match e
      case Check(i) =>
        CheckKeepsHandOff(s, n, k);
        assert HandOff(t, n, k);
      case Unlock(i) =>
        UnlockKeepsHandOff(s, n, k);
        assert k == 1 || HandOff(t, n, if k == 0 then n - 1 else k - 1);
      case Lock(i) =>
    }
  }

  predicate Failed(pc: Pc) { (pc.Checked? || pc.Done?) && !pc.ok }

  /** Hand-off in priority order.  If all other children are queued when child 0 releases the futex, or
      at any time before that, then child 0 has exactly the priority of child N-1, ownership passes to
      N-1, N-2, ... 1, every owner runs with its own priority and passes its check, and the run can
      only stop with all done.  Child 0's own check passes too, unless it had failed already. */
  lemma PriorityOrder(s: State, events: seq<Event>)
    requires BeforeRelease(s) && s.order == [0]
    requires forall i | 1 <= i < |s.kids| :: s.kids[i].Queued?
    requires Exec(Step, s, events).Some?
    ensures Effective(s, 0) == s.prioMin + |s.kids| - 1
    ensures var t := Exec(Step, s, events).value;
      && |t.kids| == |s.kids| && 1 <= |t.order| <= |s.kids|
      && (forall j | 1 <= j < |t.order| :: t.order[j] == |s.kids| - j)
      && (t.owner.Some? ==> t.owner.value == t.order[|t.order| - 1])
      && (t.owner.Some? && t.owner.value > 0 ==> Effective(t, t.owner.value) == s.prioMin + t.owner.value)
      && (forall i | 1 <= i < |t.kids| :: !Failed(t.kids[i]))
      && (!Failed(s.kids[0]) ==> !Failed(t.kids[0]))
      && ((forall e :: Step(t, e) == None) ==> |t.order| == |s.kids| && t.owner == None)
  {
    var n := |s.kids|;
    assert HandOff(s, n, 0);
    Inherits(s, 0);
    HandOffGoesOn(s, events);
    OnTheWay(Exec(Step, s, events).value, n);
  }

  lemma {:induction false} HandOffGoesOn(s: State, events: seq<Event>)
    requires HandingOn(s) && Exec(Step, s, events).Some?
    ensures var t := Exec(Step, s, events).value;
      && HandingOn(t) && |t.kids| == |s.kids| && t.prioMin == s.prioMin
      && (!Failed(s.kids[0]) ==> !Failed(t.kids[0]))
    decreases |events|
  {
    if events != [] {
      StepKeepsHandOff(s, events[0]);
      HandOffGoesOn(Step(s, events[0]).value, events[1..]);
    }
  }

  /** What can be seen of a hand-off at any time. */
  lemma OnTheWay(t: State, n: nat)
    requires HandingOn(t) && n == |t.kids|
    ensures 1 <= |t.order| <= n && forall j | 1 <= j < |t.order| :: t.order[j] == n - j
    ensures t.owner.Some? ==> t.owner.value == t.order[|t.order| - 1]
    ensures t.owner.Some? && t.owner.value > 0 ==> Effective(t, t.owner.value) == Priority(t, t.owner.value)
    ensures forall i | 1 <= i < |t.kids| :: !Failed(t.kids[i])
    ensures (forall e :: Step(t, e) == None) ==> |t.order| == n && t.owner == None
  {
    if k: nat :| HandOff(t, n, k) {
      forall i | 1 <= i < n ensures !Failed(t.kids[i]) {
        assert InOrder(t.kids[i], i, k);
      }
      forall w | k < w < n && k > 0 ensures !t.kids[w].Queued? {
        assert InOrder(t.kids[w], w, k);
      }
      assert InOrder(t.kids[k], k, k);
      Inherits(t, k);
      if t.kids[k].Entered? {
        CheckKeepsHandOff(t, n, k);
      } else {
        UnlockKeepsHandOff(t, n, k);
      }
    }
  }

  /** What a child has found out stays: in any run from any state, a check that has failed has failed for
      good, and one that has passed has passed. */
  lemma {:induction false} VerdictStays(s: State, events: seq<Event>, i: nat)
    requires i < |s.kids| && Exec(Step, s, events).Some?
    requires s.kids[i].Checked? || s.kids[i].Done?
    ensures var t := Exec(Step, s, events).value;
      i < |t.kids| && (t.kids[i].Checked? || t.kids[i].Done?) && t.kids[i].ok == s.kids[i].ok
    decreases |events|
  {
    if events != [] {
      StepKeepsVerdict(s, events[0], i);
      VerdictStays(Step(s, events[0]).value, events[1..], i);
    }
  }

  lemma StepKeepsVerdict(s: State, e: Event, i: nat)
    requires i < |s.kids| && (s.kids[i].Checked? || s.kids[i].Done?) && Step(s, e).Some?
    ensures var t := Step(s, e).value;
      i < |t.kids| && (t.kids[i].Checked? || t.kids[i].Done?) && t.kids[i].ok == s.kids[i].ok
  {
    match e
    case Lock(k) =>
    case Check(k) =>
    case Unlock(k) =>
  }

  // ---------------------------------------------------------------- when the order is certain

  /** Child 0 owns the futex and the others are on their way to it or queued. */
  ghost predicate BeforeRelease(s: State) {
    && |s.kids| >= 2 && s.owner == Some(0) && (s.kids[0].Entered? || s.kids[0].Checked?)
    && forall i | 1 <= i < |s.kids| :: s.kids[i].Contending? || s.kids[i].Queued?
  }

  ghost predicate Started(s: State) {
    && |s.kids| >= 2 && !s.kids[0].Contending? && !s.kids[0].Queued?
    && (s.owner == Some(0) ==> BeforeRelease(s) && s.order == [0])
  }

  lemma StepKeepsStarted(s: State, e: Event)
    requires Started(s) && Step(s, e).Some?
    ensures Started(Step(s, e).value)
  {
  }

  /** Every state the test can be in while child 0 owns the futex. */
  lemma WhileChild0Owns(prioMin: int, n: nat, events: seq<Event>)
    requires n >= 2 && Exec(Step, Init(prioMin, n), events).Some?
    ensures var s := Exec(Step, Init(prioMin, n), events).value;
      s.owner == Some(0) ==> BeforeRelease(s) && s.order == [0]
  {
    forall s, e | Started(s) && Step(s, e).Some? ensures Started(Step(s, e).value) {
      StepKeepsStarted(s, e);
    }
    Invariance(Step, Started, Init(prioMin, n), events);
  }

  /** A child other than the lowest has found itself with an inherited priority. */
  ghost predicate SomeFailed(s: State) { exists i :: 1 <= i < |s.kids| && Failed(s.kids[i]) }

  /** At most child 1 is late; nobody who waits stands above an owner other than child 0. */
  ghost predicate Punctual(s: State) {
    && |s.kids| >= 2 && !s.kids[0].Contending? && !s.kids[0].Queued?
    && (forall i | 2 <= i < |s.kids| :: !s.kids[i].Contending?)
    && (s.owner.Some? ==>
          && s.owner.value < |s.kids| && (s.kids[s.owner.value].Entered? || s.kids[s.owner.value].Checked?)
          && (s.owner.value >= 1 ==> forall w | s.owner.value < w < |s.kids| :: !s.kids[w].Queued?))
    && !SomeFailed(s)
  }

  lemma StepKeepsPunctual(s: State, e: Event)
    requires Punctual(s) && Step(s, e).Some?
    ensures Punctual(Step(s, e).value)
  {}

  /** Steps of those who own the futex, while nobody joins the queue. */
  function DrainStep(s: State, e: Event): Option<State> { if e.Lock? then None else Step(s, e) }

  /** Child 1 is queued or has just got the futex, and a higher child is still on its way. */
  ghost predicate Draining(s: State) {
    && |s.kids| >= 2 && s.owner.Some? && s.owner.value < |s.kids|
    && (s.kids[s.owner.value].Entered? || s.kids[s.owner.value].Checked?)
    && (s.kids[1].Queued? || LowestEntered(s) || SomeFailed(s))
    && (exists r :: 2 <= r < |s.kids| && s.kids[r].Contending?)
  }

  ghost predicate LowestEntered(s: State) { s.owner == Some(1) && |s.kids| >= 2 && s.kids[1].Entered? }

  ghost predicate Drained(s: State) { LowestEntered(s) || SomeFailed(s) }

  ghost function Waiters(s: State): set<nat> { set i | 0 <= i < |s.kids| && s.kids[i].Queued? }

  ghost function DrainRank(s: State): nat {
    2 * |Waiters(s)| +
    if s.owner.Some? && s.owner.value < |s.kids| && s.kids[s.owner.value].Entered? then 1 else 0
  }

  /** The owner looks at its priority and hands on; the queue gets shorter. */
  lemma DrainStepOf(s: State) returns (e: Event)
    requires Draining(s) && !Drained(s)
    ensures DrainStep(s, e).Some? && Draining(DrainStep(s, e).value)
    ensures DrainRank(DrainStep(s, e).value) < DrainRank(s)
  {
    var o := s.owner.value;
    var r :| 2 <= r < |s.kids| && s.kids[r].Contending?;
    if s.kids[o].Entered? {
      e := Check(o);
      var t := DrainStep(s, e).value;
      assert Waiters(t) == Waiters(s);
      assert t.kids[r].Contending?;
    } else {
      e := Unlock(o);
      var u := To(s, o, Done(s.kids[o].ok));
      assert u.kids[1].Queued?;
      var w := TopWaiter(u.kids).value;
      var t := DrainStep(s, e).value;
      assert Waiters(t) == Waiters(s) - {w} && w in Waiters(s);
      assert t.kids[r].Contending?;
    }
  }

  lemma {:induction false} Drain(s: State) returns (events: seq<Event>)
    requires Draining(s)
    ensures var t := Exec(Step, s, events); t.Some? && Draining(t.value) && Drained(t.value)
    decreases DrainRank(s)
  {
    events := [];
    if !Drained(s) {
      var e := DrainStepOf(s);
      var rest := Drain(DrainStep(s, e).value);
      events := [e] + rest;
      assert events[1..] == rest;
    }
  }

  /** A late child of number 2 or more can spoil the order: it joins just when child 1 has the futex. */
  lemma LatecomerSpoils(s: State) returns (events: seq<Event>)
    requires BeforeRelease(s) && exists r :: 2 <= r < |s.kids| && s.kids[r].Contending?
    ensures var t := Exec(Step, s, events); t.Some? && SomeFailed(t.value)
  {
    var r :| 2 <= r < |s.kids| && s.kids[r].Contending?;
    var first: seq<Event> := if s.kids[1].Contending? then [Lock(1)] else [];
    var s1 := if s.kids[1].Contending? then To(s, 1, Queued) else s;
    assert first != [] ==> first[1..] == [];
    assert Exec(Step, s, first) == Some(s1);
    assert s1.kids[r].Contending?;
    var drain := Drain(s1);
    ExecAppend(Step, s, first, drain);
    events := first + drain;
    var s2 := Exec(Step, s1, drain).value;
    if !SomeFailed(s2) {
      var r2 :| 2 <= r2 < |s2.kids| && s2.kids[r2].Contending?;
      var s3 := To(s2, r2, Queued);
      ExecThen(Step, s, events, Lock(r2));
      events := events + [Lock(r2)];
      Inherits(s3, 1);
      assert s3.kids[r2].Queued? && Effective(s3, 1) != Priority(s3, 1);
      ExecThen(Step, s, events, Check(1));
      events := events + [Check(1)];
      assert Failed(Step(s3, Check(1)).value.kids[1]);
    }
  }

  /** No child but child 0 can fail its check, whatever happens from here on, exactly if all children from
      number 2 on are queued before child 0 releases the futex. */
  lemma OrderIsCertainExactlyIf(s: State)
    requires BeforeRelease(s)
    ensures (forall i | 2 <= i < |s.kids| :: s.kids[i].Queued?) <==>
            forall events :: var t := Exec(Step, s, events); t.Some? ==> !SomeFailed(t.value)
  {
    if forall i | 2 <= i < |s.kids| :: s.kids[i].Queued? {
      forall events | Exec(Step, s, events).Some? ensures !SomeFailed(Exec(Step, s, events).value) {
        StaysPunctual(s, events);
      }
    } else {
      var events := LatecomerSpoils(s);
    }
  }

  lemma StaysPunctual(s: State, events: seq<Event>)
    requires Punctual(s)
    ensures var t := Exec(Step, s, events); t.Some? ==> Punctual(t.value)
  {
    forall s, e | Punctual(s) && Step(s, e).Some? ensures Punctual(Step(s, e).value) {
      StepKeepsPunctual(s, e);
    }
    Invariance(Step, Punctual, s, events);
  }

  /** Child 0 has passed its check or is certain to. */
  ghost predicate Lowest(s: State) {
    && |s.kids| >= 2 && !s.kids[0].Contending? && !s.kids[0].Queued? && !Failed(s.kids[0])
    && (s.kids[0].Entered? ==> s.owner == Some(0) && s.kids[|s.kids| - 1].Queued?)
  }

  lemma StepKeepsLowest(s: State, e: Event)
    requires Lowest(s) && Step(s, e).Some?
    ensures Lowest(Step(s, e).value)
  {
    if e == Check(0) {
      Inherits(s, 0);
    }
  }

  lemma StaysLowest(s: State, events: seq<Event>)
    requires Lowest(s)
    ensures var t := Exec(Step, s, events); t.Some? ==> Lowest(t.value)
  {
    forall s, e | Lowest(s) && Step(s, e).Some? ensures Lowest(Step(s, e).value) {
      StepKeepsLowest(s, e);
    }
    Invariance(Step, Lowest, s, events);
  }

  /** If the highest child is late, child 0 can find itself without its priority. */
  lemma LowestCanFail(s: State) returns (events: seq<Event>)
    requires BeforeRelease(s) && !Lowest(s)
    ensures var t := Exec(Step, s, events); t.Some? && AnyFailed(t.value)
  {
    if Failed(s.kids[0]) {
      events := [];
    } else {
      Inherits(s, 0);
      events := [Check(0)];
      assert events[1..] == [];
      assert Failed(Step(s, Check(0)).value.kids[0]);
    }
  }

  ghost predicate AnyFailed(s: State) { exists i :: 0 <= i < |s.kids| && Failed(s.kids[i]) }

  /** No check at all can fail, whatever happens from here on, exactly if all children from number 2 on
      are queued, child 0 has not failed, and the highest child is queued if child 0 has not looked at
      its priority.  The last condition is one of its own only for two children. */
  lemma NoCheckFailsExactlyIf(s: State)
    requires BeforeRelease(s)
    ensures (forall i | 2 <= i < |s.kids| :: s.kids[i].Queued?) && !Failed(s.kids[0])
              && (s.kids[0].Entered? ==> s.kids[|s.kids| - 1].Queued?) <==>
            forall events :: var t := Exec(Step, s, events); t.Some? ==> !AnyFailed(t.value)
  {
    if !Lowest(s) {
      var events := LowestCanFail(s);
    } else if exists r :: 2 <= r < |s.kids| && s.kids[r].Contending? {
      var events := LatecomerSpoils(s);
    } else {
      forall events | Exec(Step, s, events).Some? ensures !AnyFailed(Exec(Step, s, events).value) {
        NobodyFails(s, events);
      }
    }
  }

  lemma NobodyFails(s: State, events: seq<Event>)
    requires Punctual(s) && Lowest(s) && Exec(Step, s, events).Some?
    ensures !AnyFailed(Exec(Step, s, events).value)
  {
    StaysPunctual(s, events);
    StaysLowest(s, events);
  }
}
