/** What process-tree/pthread4.c reports if the restart loses the lock.

    The restart comes after main has announced readiness and before `test-done`.  If it gives the mutex
    back free, the thread that held it is supposed to notice.
 */
module ThreadLockLost {
  import opened Runs
  import opened ThreadLock

  /** A state in which a checkpoint may be taken. */
  ghost predicate AtCheckpoint(s: State) { s.main.Joining? && !s.testDone }

  function Lost(s: State): State { s.(mutex := None) }

  // ---------------------------------------------------------------- the verdict

  predicate Noticed(t: Thread) { t.acquired && t.again }

  function StatusOf(t: Thread): int {
    if !t.pc.Release? && !t.pc.Exited? then -1 else if Noticed(t) then 1 else 0
  }

  function Joined(s: State): nat {
    match s.main case Joining(k) => k case Finished => s.n case _ => 0
  }

  /** Threads report what they have noticed, and main what it has been told, whatever the mutex does. */
  ghost predicate Reporting(s: State) {
    && (forall i | 0 <= i < |s.threads| :: s.threads[i].status == StatusOf(s.threads[i]))
    && s.exitStatus == (if exists i :: 0 <= i < |s.threads| && i < Joined(s) && s.threads[i].status == 1 then 1 else 0)
  }

  ghost predicate Base(s: State) { s.n >= 1 && Barriers(s) && JoinedAll(s) && Reporting(s) }

  lemma RunKeepsReporting(s: State, i: nat)
    requires JoinedAll(s) && Reporting(s) && |s.threads| <= s.n && i < |s.threads| && ThreadStep(s, i).Some?
    ensures Reporting(ThreadStep(s, i).value)
  {
    var t := ThreadStep(s, i).value;
    RunReports(s, i);
    forall j | 0 <= j < |s.threads| && j != i ensures t.threads[j] == s.threads[j] {}
    assert i >= Joined(s);
  }

  lemma RunReports(s: State, i: nat)
    requires i < |s.threads| && ThreadStep(s, i).Some? && s.threads[i].status == StatusOf(s.threads[i])
    ensures var t := ThreadStep(s, i).value;
      && |t.threads| == |s.threads| && t.threads == s.threads[i := t.threads[i]]
      && t.threads[i].status == StatusOf(t.threads[i])
      && t.main == s.main && t.n == s.n && t.exitStatus == s.exitStatus && !s.threads[i].pc.Exited?
  {
    match s.threads[i].pc
    case AtCreated =>
    case InCreated =>
    case Try =>
    case AtReady =>
    case InReady =>
    case AwaitDone =>
    case TryAgain =>
    case Report =>
    case Release =>
  }

  lemma MainKeepsReporting(s: State)
    requires Reporting(s) && JoinedAll(s) && (s.main.Creating? || |s.threads| == s.n) && MainStep(s).Some?
    ensures Reporting(MainStep(s).value)
  {
    match s.main
    case Creating =>
    case MainAtReady =>
    case MainInReady =>
    case SetReady =>
    case Joining(k) =>
      if k < s.n {
        JoinReports(s, k);
      }
  }

  lemma JoinReports(s: State, k: nat)
    requires Reporting(s) && s.main == Joining(k) && k < s.n == |s.threads| && s.threads[k].pc.Exited?
    ensures Reporting(MainStep(s).value)
  {
    var t := MainStep(s).value;
    if i :| 0 <= i < |s.threads| && i < k && s.threads[i].status == 1 {
      assert t.threads[i].status == 1 && i < Joined(t);
    }
    assert s.threads[k].status == StatusOf(s.threads[k]);
    if s.threads[k].status == 1 {
      assert t.threads[k].status == 1 && k < Joined(t);
    }
  }

  lemma StepKeepsBase(s: State, e: Event)
    requires Base(s) && Step(s, e).Some?
    ensures Base(Step(s, e).value) && Step(s, e).value.n == s.n
  {
    var t := Step(s, e).value;
    match e
    case Run(i) =>
      RunAdvances(s, i);
      AdvanceKeepsBarriers(s, t, i);
      AdvanceKeepsJoined(s, t, i);
      RunKeepsReporting(s, i);
    case Main =>
      MainKeepsBarriers(s);
      MainKeepsJoined(s);
      MainKeepsReporting(s);
    case TouchTestDone =>
      assert CreatedSet(t) == CreatedSet(s) && ReadySet(t) == ReadySet(s);
  }

  lemma {:induction false} StaysBase(s: State, events: seq<Event>)
    requires Base(s) && Exec(Step, s, events).Some?
    ensures Base(Exec(Step, s, events).value) && Exec(Step, s, events).value.n == s.n
    decreases |events|
  {
    if events != [] {
      StepKeepsBase(s, events[0]);
      StaysBase(Step(s, events[0]).value, events[1..]);
    }
  }

  lemma InitBase(n: nat)
    requires n >= 1
    ensures Base(Init(n))
  {
    assert CreatedSet(Init(n)) == {} && ReadySet(Init(n)) == {};
  }

  lemma LostKeepsBase(s: State)
    requires Base(s)
    ensures Base(Lost(s))
  {
    assert CreatedSet(Lost(s)) == CreatedSet(s) && ReadySet(Lost(s)) == ReadySet(s);
  }

  /** A run that loses the lock at a checkpoint. */
  ghost predicate LossRun(n: nat, before: seq<Event>, after: seq<Event>) {
    && Exec(Step, Init(n), before).Some? && AtCheckpoint(Exec(Step, Init(n), before).value)
    && Exec(Step, Lost(Exec(Step, Init(n), before).value), after).Some?
  }

  ghost function AfterLoss(n: nat, before: seq<Event>, after: seq<Event>): State
    requires LossRun(n, before, after)
  {
    Exec(Step, Lost(Exec(Step, Init(n), before).value), after).value
  }

  /** Whatever the restart did to the mutex, the program exits with status 1 exactly if some thread had
      the lock before and got it once more, and with status 0 otherwise. */
  lemma ExitStatusTells(n: nat, before: seq<Event>, after: seq<Event>)
    requires n >= 1 && LossRun(n, before, after)
    ensures var t := AfterLoss(n, before, after);
      t.main.Finished? ==>
        && |t.threads| == n
        && t.exitStatus == if exists i :: 0 <= i < |t.threads| && Noticed(t.threads[i]) then 1 else 0
  {
    InitBase(n);
    StaysBase(Init(n), before);
    var r := Exec(Step, Init(n), before).value;
    LostKeepsBase(r);
    StaysBase(Lost(r), after);
    var t := AfterLoss(n, before, after);
    if t.main.Finished? {
      forall i | 0 <= i < |t.threads| ensures t.threads[i].status == 1 <==> Noticed(t.threads[i]) {}
      if i :| 0 <= i < |t.threads| && Noticed(t.threads[i]) {
        assert t.threads[i].status == 1 && i < Joined(t);
      }
    }
  }

  // ---------------------------------------------------------------- one thread alone always notices

  /** The only thread had the lock; it finds the mutex free when it tries again. */
  ghost predicate Alone(s: State) {
    && s.n == |s.threads| == 1 && s.threads[0].acquired && Stage(s.threads[0].pc) >= 4
    && (Stage(s.threads[0].pc) <= 6 ==> s.mutex == None)
    && (Stage(s.threads[0].pc) >= 7 ==> s.threads[0].again)
  }

  lemma StepKeepsAlone(s: State, e: Event)
    requires Alone(s) && !s.main.Creating? && Step(s, e).Some?
    ensures Alone(Step(s, e).value) && !Step(s, e).value.main.Creating?
  {
    match e
    case Run(i) =>
    case Main =>
    case TouchTestDone =>
  }

  lemma {:induction false} StaysAlone(s: State, events: seq<Event>)
    requires Alone(s) && !s.main.Creating? && Exec(Step, s, events).Some?
    ensures Alone(Exec(Step, s, events).value)
    decreases |events|
  {
    if events != [] {
      StepKeepsAlone(s, events[0]);
      StaysAlone(Step(s, events[0]).value, events[1..]);
    }
  }

  /** What a checkpoint finds: all have passed the second barrier, one has the lock, nobody goes on. */
  lemma CheckpointFinds(n: nat, before: seq<Event>) returns (w: nat)
    requires n >= 1 && Exec(Step, Init(n), before).Some? && AtCheckpoint(Exec(Step, Init(n), before).value)
    ensures var r := Exec(Step, Init(n), before).value;
      && r.n == n == |r.threads| && Inv(r) && Waits(r)
      && w < n && forall i | 0 <= i < n :: r.threads[i].acquired <==> i == w
  {
    Reachable(n, before);
    ReachableWaits(n, before);
    HeldUntilTestDone(n, before);
    var r := Exec(Step, Init(n), before).value;
    w := r.mutex.value;
  }

  lemma AloneNotices(before: seq<Event>, after: seq<Event>)
    requires LossRun(1, before, after)
    ensures var t := AfterLoss(1, before, after); t.main.Finished? ==> t.exitStatus == 1
  {
    var r := Exec(Step, Init(1), before).value;
    var w := CheckpointFinds(1, before);
    OpenBarriers(r);
    assert r.threads[0].acquired;
    StaysAlone(Lost(r), after);
    ExitStatusTells(1, before, after);
    LossKeepsBase(1, before, after);
    var t := AfterLoss(1, before, after);
    assert t.main.Finished? ==> Noticed(t.threads[0]);
  }

  lemma LossKeepsBase(n: nat, before: seq<Event>, after: seq<Event>)
    requires n >= 1 && LossRun(n, before, after)
    ensures Base(AfterLoss(n, before, after))
  {
    InitBase(n);
    StaysBase(Init(n), before);
    LostKeepsBase(Exec(Step, Init(n), before).value);
    StaysBase(Lost(Exec(Step, Init(n), before).value), after);
  }

  // ---------------------------------------------------------------- two threads may not

  /** Steps before `test-done`. */
  function CalmStep(s: State, e: Event): Option<State> { if e.TouchTestDone? then None else Step(s, e) }

  ghost predicate Calm(s: State) { Inv(s) && Waits(s) && !s.testDone }

  ghost predicate AllAwait(s: State) {
    s.main.Joining? && |s.threads| == s.n && forall i | 0 <= i < |s.threads| :: s.threads[i].pc.AwaitDone?
  }

  lemma CalmStepKeepsCalm(s: State, e: Event)
    requires Calm(s) && CalmStep(s, e).Some?
    ensures Calm(CalmStep(s, e).value)
  {
    StepKeepsInv(s, e);
    StepKeepsWaits(s, e);
    if e.Run? {
      RunKeepsTestDone(s, e.thread);
    }
  }

  /** Until everybody waits for `test-done`, somebody else can move. */
  lemma SomeoneComes(s: State) returns (e: Event)
    requires s.n >= 1 && Barriers(s) && JoinedAll(s) && Waits(s) && !s.testDone && !AllAwait(s)
    ensures CalmStep(s, e).Some?
  {
    if s.main.Creating? || s.main.MainAtReady? || s.main.SetReady? {
      e := Main;
    } else if i :| 0 <= i < |s.threads| && !PastCreated(s.threads[i].pc) {
      e := Run(i);
    } else if i :| 0 <= i < |s.threads| && !AtLastReady(s.threads[i].pc) {
      FullBarriers(s);
      e := Run(i);
    } else {
      FullBarriers(s);
      e := LastComes(s);
    }
  }

  lemma LastComes(s: State) returns (e: Event)
    requires 1 <= s.n == |s.threads| && s.ready == s.n + 1 && JoinedAll(s) && Waits(s) && !s.testDone && !AllAwait(s)
    requires s.main.MainInReady? || s.main.Joining? || s.main.Finished?
    requires forall i | 0 <= i < |s.threads| :: AtLastReady(s.threads[i].pc)
    ensures CalmStep(s, e).Some?
  {
    if s.main.MainInReady? {
      e := Main;
    } else {
      assert !s.threads[0].pc.Exited?;
      var i :| 0 <= i < |s.threads| && !s.threads[i].pc.AwaitDone?;
      e := Run(i);
    }
  }

  lemma SomeoneComesNearer(s: State) returns (e: Event)
    requires Calm(s) && !AllAwait(s)
    ensures CalmStep(s, e).Some? && Rank(CalmStep(s, e).value) < Rank(s)
  {
    e := SomeoneComes(s);
    StepLowersRank(s, e);
  }

  lemma EverybodyAwaits(n: nat) returns (events: seq<Event>, s: State)
    requires n >= 1
    ensures Exec(Step, Init(n), events) == Some(s) && AllAwait(s) && Calm(s) && s.n == n
  {
    InitBase(n);
    forall s, e | Calm(s) && CalmStep(s, e).Some? ensures Calm(CalmStep(s, e).value) {
      CalmStepKeepsCalm(s, e);
    }
    forall s | Calm(s) && !AllAwait(s)
      ensures exists e :: CalmStep(s, e).Some? && Rank(CalmStep(s, e).value) < Rank(s)
    {
      var e := SomeoneComesNearer(s);
    }
    events := CanReach(CalmStep, Calm, Rank, AllAwait, Init(n));
    Invariance(CalmStep, Calm, Init(n), events);
    CalmRunsAreRuns(Init(n), events);
    s := Exec(Step, Init(n), events).value;
  }

  lemma {:induction false} CalmRunsAreRuns(s: State, events: seq<Event>)
    requires Exec(CalmStep, s, events).Some?
    ensures Exec(Step, s, events) == Exec(CalmStep, s, events) && Exec(Step, s, events).value.n == s.n
    decreases |events|
  {
    if events != [] {
      CalmRunsAreRuns(Step(s, events[0]).value, events[1..]);
    }
  }

  /** A thread that had the lock has tried again in vain. */
  predicate InVain(t: Thread) { Stage(t.pc) >= 5 && (t.acquired ==> Stage(t.pc) >= 7 && !t.again) }

  ghost predicate AllInVain(s: State) {
    s.testDone && !s.main.Creating? && forall i | 0 <= i < |s.threads| :: InVain(s.threads[i])
  }

  ghost predicate Missed(s: State) { Base(s) && AllInVain(s) }

  lemma RunKeepsInVain(s: State, i: nat)
    requires i < |s.threads| && InVain(s.threads[i]) && ThreadStep(s, i).Some?
    ensures var t := ThreadStep(s, i).value;
      && |t.threads| == |s.threads| && t.threads == s.threads[i := t.threads[i]] && InVain(t.threads[i])
      && t.testDone == s.testDone && t.main == s.main
  {
    match s.threads[i].pc
    case AwaitDone =>
    case TryAgain =>
    case Report =>
    case Release =>
  }

  lemma StepKeepsInVain(s: State, e: Event)
    requires AllInVain(s) && Step(s, e).Some?
    ensures AllInVain(Step(s, e).value)
  {
    match e
    case Run(i) =>
      assert InVain(s.threads[i]);
      RunKeepsInVain(s, i);
    case Main =>
  }

  lemma StepKeepsMissed(s: State, e: Event)
    requires Missed(s) && Step(s, e).Some?
    ensures Missed(Step(s, e).value)
  {
    StepKeepsBase(s, e);
    StepKeepsInVain(s, e);
  }

  /** A thread that waits for `test-done` tries again. */
  lemma TriesAgain(s: State, x: nat) returns (t: State)
    requires x < |s.threads| && s.threads[x].pc.AwaitDone? && s.testDone
    ensures Exec(Step, s, [Run(x), Run(x)]) == Some(t)
    ensures t == s.(threads := s.threads[x := s.threads[x].(pc := Report, again := s.mutex == None)], mutex := t.mutex)
    ensures t.mutex == if s.mutex == None then Some(x) else s.mutex
  {
    var u := Put(s, x, s.threads[x].(pc := TryAgain));
    t := ThreadStep(u, x).value;
    assert [Run(x), Run(x)][1..] == [Run(x)] && [Run(x)][1..] == [];
    assert Exec(Step, u, [Run(x)]) == Some(t);
  }

  /** Another thread takes the free mutex first, and the one that had it finds it taken. */
  lemma Overtaken(s: State, w: nat, x: nat) returns (events: seq<Event>, t: State)
    requires AllAwait(s) && s.mutex == None && !s.testDone && w < s.n && x < s.n && w != x
    requires forall i | 0 <= i < s.n :: !s.threads[i].again && (s.threads[i].acquired <==> i == w)
    ensures Exec(Step, s, events) == Some(t) && AllInVain(t)
  {
    var s1 := s.(testDone := true);
    assert [TouchTestDone][1..] == [];
    assert Exec(Step, s, [TouchTestDone]) == Some(s1);
    var s2 := TriesAgain(s1, x);
    t := TriesAgain(s2, w);
    ExecAppend(Step, s, [TouchTestDone], [Run(x), Run(x)]);
    ExecAppend(Step, s, [TouchTestDone] + [Run(x), Run(x)], [Run(w), Run(w)]);
    events := [TouchTestDone] + [Run(x), Run(x)] + [Run(w), Run(w)];
  }

  /** From there the run ends, and nobody has noticed. */
  lemma MissedEnds(s: State) returns (events: seq<Event>, t: State)
    requires Missed(s)
    ensures Exec(Step, s, events) == Some(t) && t.main.Finished? && t.exitStatus == 0
  {
    forall s, e | Missed(s) && Step(s, e).Some? ensures Missed(Step(s, e).value) {
      StepKeepsMissed(s, e);
    }
    forall s | Missed(s) && !s.main.Finished? ensures exists e :: Step(s, e).Some? && Rank(Step(s, e).value) < Rank(s) {
      var e := SomeoneMoves(s);
      StepLowersRank(s, e);
    }
    events := CanReach(Step, Missed, Rank, (s: State) => s.main.Finished?, s);
    Invariance(Step, Missed, s, events);
    t := Exec(Step, s, events).value;
    forall i | 0 <= i < |t.threads| ensures t.threads[i].status == 0 {
      assert t.threads[i].status == StatusOf(t.threads[i]);
    }
  }

  lemma LossCanBeMissed(n: nat) returns (before: seq<Event>, after: seq<Event>)
    requires n >= 2
    ensures LossRun(n, before, after)
    ensures var t := AfterLoss(n, before, after); t.main.Finished? && t.exitStatus == 0
  {
    var r: State;
    before, r := EverybodyAwaits(n);
    var w := CheckpointFinds(n, before);
    InitBase(n);
    StaysBase(Init(n), before);
    LostKeepsBase(r);
    forall i | 0 <= i < n ensures !r.threads[i].again {
      assert Flags(r.threads[i]);
    }
    var first, s := Overtaken(Lost(r), w, if w == 0 then 1 else 0);
    StaysBase(Lost(r), first);
    var rest, t := MissedEnds(s);
    ExecAppend(Step, Lost(r), first, rest);
    after := first + rest;
  }

  /** A restart that loses the lock is certain to be reported, in every run that ends, exactly if there
      is only one thread.  With two or more, another thread can take the mutex before the one that had it
      tries again. */
  lemma CertainlyNoticedExactlyIf(n: nat)
    requires n >= 1
    ensures n == 1 <==>
      forall before, after | LossRun(n, before, after) ::
        AfterLoss(n, before, after).main.Finished? ==> AfterLoss(n, before, after).exitStatus == 1
  {
    if n == 1 {
      forall before, after | LossRun(n, before, after)
        ensures AfterLoss(n, before, after).main.Finished? ==> AfterLoss(n, before, after).exitStatus == 1
      {
        AloneNotices(before, after);
      }
    } else {
      var before, after := LossCanBeMissed(n);
    }
  }
}
