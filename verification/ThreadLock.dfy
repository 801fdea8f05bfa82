/** process-tree/pthread4.c: threads race for an error-checking mutex between two barriers.

    Any number of threads.  One step is one call on the mutex or a barrier, one thread creation, one
    look at `test-done`, or one join.  A barrier is a counter of arrivals; it is used once.
 */
module ThreadLock {
  import opened Runs
  import opened Counting

  datatype Pc =
    | AtCreated | InCreated        // pthread_barrier_wait(&threads_created): arrive, leave
    | Try                          // pthread_mutex_trylock
    | AtReady | InReady            // pthread_barrier_wait(&cr_ready)
    | AwaitDone                    // while (!test_done())
    | TryAgain | Report | Release | Exited

  /** `acquired` is lock_acquired; `again` says that the second trylock returned 0. */
  datatype Thread = Thread(pc: Pc, acquired: bool, again: bool, status: int)

  datatype MainPc = Creating | MainAtReady | MainInReady | SetReady | Joining(next: nat) | Finished

  datatype State = State(
    n: nat, threads: seq<Thread>, main: MainPc, created: nat, ready: nat,
    mutex: Option<nat>, badUnlock: bool, testDone: bool, exitStatus: int)

  datatype Event = Run(thread: nat) | Main | TouchTestDone

  function Init(n: nat): State { State(n, [], Creating, 0, 0, None, false, false, 0) }

  function Put(s: State, i: nat, t: Thread): State
    requires i < |s.threads|
  {
    s.(threads := s.threads[i := t])
  }

  function ThreadStep(s: State, i: nat): Option<State>
    requires i < |s.threads|
  {
    var t := s.threads[i];
    match t.pc
    case AtCreated => Some(Put(s, i, t.(pc := InCreated)).(created := s.created + 1))
    case InCreated => if s.created == s.n then Some(Put(s, i, t.(pc := Try))) else None
    case Try =>
      if s.mutex == None then Some(Put(s, i, t.(pc := AtReady, acquired := true)).(mutex := Some(i)))
      else Some(Put(s, i, t.(pc := AtReady, acquired := false)))           // EBUSY
    case AtReady => Some(Put(s, i, t.(pc := InReady)).(ready := s.ready + 1))
    case InReady => if s.ready == s.n + 1 then Some(Put(s, i, t.(pc := AwaitDone))) else None
    case AwaitDone => if s.testDone then Some(Put(s, i, t.(pc := TryAgain))) else None
    case TryAgain =>
      if s.mutex == None then Some(Put(s, i, t.(pc := Report, again := true)).(mutex := Some(i)))
      else Some(Put(s, i, t.(pc := Report, again := false)))
    case Report =>
      Some(Put(s, i, t.(pc := Release, status := if t.acquired && t.again then 1 else 0)))
    case Release =>
      var s' := Put(s, i, t.(pc := Exited));
      if !(t.acquired || t.again) then Some(s')
      else if s.mutex == Some(i) then Some(s'.(mutex := None))
      else Some(s'.(badUnlock := true))                                    // EPERM
    case Exited => None
  }

  function MainStep(s: State): Option<State> {
    match s.main
    case Creating =>
      if |s.threads| < s.n then Some(s.(threads := s.threads + [Thread(AtCreated, false, false, -1)]))
      else Some(s.(main := MainAtReady))
    case MainAtReady => Some(s.(main := MainInReady, ready := s.ready + 1))
    case MainInReady => if s.ready == s.n + 1 then Some(s.(main := SetReady)) else None
    case SetReady => Some(s.(main := Joining(0)))
    case Joining(i) =>
      if i >= s.n || i >= |s.threads| then Some(s.(main := Finished))
      else if s.threads[i].pc != Exited then None
      else Some(s.(main := Joining(i + 1), exitStatus := if s.threads[i].status != 0 then 1 else s.exitStatus))
    case Finished => None
  }

  function Step(s: State, e: Event): Option<State> {
    match e
    case Run(i) => if i < |s.threads| then ThreadStep(s, i) else None
    case Main => MainStep(s)
    case TouchTestDone => if s.testDone then None else Some(s.(testDone := true))
  }

  // ---------------------------------------------------------------- barriers

  function Stage(pc: Pc): nat {
    match pc
    case AtCreated => 0
    case InCreated => 1
    case Try => 2
    case AtReady => 3
    case InReady => 4
    case AwaitDone => 5
    case TryAgain => 6
    case Report => 7
    case Release => 8
    case Exited => 9
  }

  predicate PastCreated(pc: Pc) { Stage(pc) >= 1 }

  predicate Tried(pc: Pc) { Stage(pc) >= 3 }

  predicate AtLastReady(pc: Pc) { Stage(pc) >= 4 }

  predicate PastReady(pc: Pc) { Stage(pc) >= 5 }

  ghost function CreatedSet(s: State): set<nat> { set i | 0 <= i < |s.threads| && PastCreated(s.threads[i].pc) }

  ghost function ReadySet(s: State): set<nat> { set i | 0 <= i < |s.threads| && AtLastReady(s.threads[i].pc) }

  ghost predicate Barriers(s: State) {
    && |s.threads| <= s.n
    && (s.main.Creating? || |s.threads| == s.n)
    && s.created == |CreatedSet(s)|
    && s.ready == |ReadySet(s)| + (if s.main.Creating? || s.main.MainAtReady? then 0 else 1)
    && (forall i | 0 <= i < |s.threads| && Stage(s.threads[i].pc) >= 2 :: s.created == s.n)
    && (forall i | 0 <= i < |s.threads| && PastReady(s.threads[i].pc) :: s.ready == s.n + 1)
    && (s.main.SetReady? || s.main.Joining? || s.main.Finished? ==> s.ready == s.n + 1)
  }

  /** Nobody can still be on the way to an open barrier. */
  lemma OpenBarriers(s: State)
    requires Barriers(s)
    ensures s.created <= s.n && s.ready <= s.n + 1
    ensures s.main.Creating? || s.main.MainAtReady? ==> s.ready <= s.n
    ensures s.created == s.n ==> |s.threads| == s.n && forall i | 0 <= i < |s.threads| :: PastCreated(s.threads[i].pc)
    ensures s.ready == s.n + 1 ==> |s.threads| == s.n && forall i | 0 <= i < |s.threads| :: AtLastReady(s.threads[i].pc)
  {
    SubsetBelow(|s.threads|, CreatedSet(s));
    SubsetBelow(|s.threads|, ReadySet(s));
    forall i | s.created == s.n && 0 <= i < |s.threads| ensures PastCreated(s.threads[i].pc) {
      assert i in CreatedSet(s);
    }
    forall i | s.ready == s.n + 1 && 0 <= i < |s.threads| ensures AtLastReady(s.threads[i].pc) {
      assert i in ReadySet(s);
    }
  }

  /** A thread's step takes it to the next stage and counts its arrivals. */
  ghost predicate Advances(s: State, t: State, i: nat) {
    && i < |s.threads| == |t.threads| && t.threads == s.threads[i := t.threads[i]]
    && Stage(t.threads[i].pc) == Stage(s.threads[i].pc) + 1
    && t.n == s.n && t.main == s.main && t.exitStatus == s.exitStatus
    && t.created == s.created + (if Stage(s.threads[i].pc) == 0 then 1 else 0)
    && t.ready == s.ready + (if Stage(s.threads[i].pc) == 3 then 1 else 0)
    && (Stage(s.threads[i].pc) == 1 ==> s.created == s.n)
    && (Stage(s.threads[i].pc) == 4 ==> s.ready == s.n + 1)
  }

  lemma RunAdvances(s: State, i: nat)
    requires i < |s.threads| && ThreadStep(s, i).Some?
    ensures Advances(s, ThreadStep(s, i).value, i)
  {
    var t := ThreadStep(s, i).value;
    match s.threads[i].pc
    case AtCreated => assert t.created == s.created + 1;
    case InCreated =>
    case Try =>
    case AtReady => assert t.ready == s.ready + 1;
    case InReady =>
    case AwaitDone =>
    case TryAgain =>
    case Report =>
    case Release =>
  }

  lemma AdvanceCounts(s: State, t: State, i: nat)
    requires Advances(s, t, i)
    ensures |CreatedSet(t)| == |CreatedSet(s)| + (if Stage(s.threads[i].pc) == 0 then 1 else 0)
    ensures |ReadySet(t)| == |ReadySet(s)| + (if Stage(s.threads[i].pc) == 3 then 1 else 0)
  {
    forall j | 0 <= j < |s.threads| && j != i ensures t.threads[j] == s.threads[j] {}
    CreatedCounts(s, t, i);
    ReadyCounts(s, t, i);
  }

  lemma CreatedCounts(s: State, t: State, i: nat)
    requires i < |s.threads| == |t.threads| && Stage(t.threads[i].pc) == Stage(s.threads[i].pc) + 1
    requires forall j | 0 <= j < |s.threads| && j != i :: t.threads[j] == s.threads[j]
    ensures |CreatedSet(t)| == |CreatedSet(s)| + (if Stage(s.threads[i].pc) == 0 then 1 else 0)
  {
    if Stage(s.threads[i].pc) == 0 {
      assert CreatedSet(t) == CreatedSet(s) + {i};
    } else {
      assert CreatedSet(t) == CreatedSet(s);
    }
  }

  lemma ReadyCounts(s: State, t: State, i: nat)
    requires i < |s.threads| == |t.threads| && Stage(t.threads[i].pc) == Stage(s.threads[i].pc) + 1
    requires forall j | 0 <= j < |s.threads| && j != i :: t.threads[j] == s.threads[j]
    ensures |ReadySet(t)| == |ReadySet(s)| + (if Stage(s.threads[i].pc) == 3 then 1 else 0)
  {
    if Stage(s.threads[i].pc) == 3 {
      assert ReadySet(t) == ReadySet(s) + {i};
    } else {
      assert ReadySet(t) == ReadySet(s);
    }
  }

  lemma AdvanceKeepsBarriers(s: State, t: State, i: nat)
    requires Barriers(s) && Advances(s, t, i)
    ensures Barriers(t)
  {
    AdvanceCounts(s, t, i);
    OpenBarriers(s);
  }

  lemma MainKeepsBarriers(s: State)
    requires Barriers(s) && MainStep(s).Some?
    ensures Barriers(MainStep(s).value)
  {
    var t := MainStep(s).value;
    assert CreatedSet(t) == CreatedSet(s) && ReadySet(t) == ReadySet(s);
    OpenBarriers(s);
  }

  // ---------------------------------------------------------------- the mutex

  /** Thread `i` holds the mutex, by its own account. */
  predicate Owns(t: Thread) {
    || (t.acquired && Tried(t.pc) && !t.pc.Exited?)
    || (t.again && (t.pc.Report? || t.pc.Release?))
  }

  ghost predicate Mutex(s: State) {
    && !s.badUnlock
    && (forall i | 0 <= i < |s.threads| && Owns(s.threads[i]) :: s.mutex == Some(i))
    && (s.mutex.Some? ==> s.mutex.value < |s.threads| && Owns(s.threads[s.mutex.value]))
  }

  ghost predicate Flags(t: Thread) {
    && (t.acquired ==> Tried(t.pc) && !t.again)
    && (t.again ==> t.pc.Report? || t.pc.Release? || t.pc.Exited?)
    && t.status == if t.pc.Release? || t.pc.Exited? then 0 else -1
  }

  /** One thread won the first race. */
  ghost predicate Winner(s: State) {
    && (forall i | 0 <= i < |s.threads| :: Flags(s.threads[i]))
    && (forall i, j | 0 <= i < |s.threads| && 0 <= j < |s.threads| && s.threads[i].acquired && s.threads[j].acquired ::
          i == j)
    && ((exists i :: 0 <= i < |s.threads| && Tried(s.threads[i].pc)) ==>
         exists w :: 0 <= w < |s.threads| && s.threads[w].acquired)
    && s.exitStatus == 0
  }

  ghost predicate Inv(s: State) { s.n >= 1 && Barriers(s) && Mutex(s) && Winner(s) && JoinedAll(s) }

  ghost predicate JoinedAll(s: State) {
    && (s.main.Joining? ==>
          s.main.next <= s.n && forall i | 0 <= i < |s.threads| && i < s.main.next :: s.threads[i].pc.Exited?)
    && (s.main.Finished? ==> forall i | 0 <= i < |s.threads| :: s.threads[i].pc.Exited?)
  }

  /** The first race is over before anybody lets go of the mutex. */
  lemma RaceIsClosed(s: State, i: nat, w: nat)
    requires Barriers(s) && Mutex(s) && Winner(s)
    requires i < |s.threads| && s.threads[i].pc.Try? && w < |s.threads| && s.threads[w].acquired
    ensures s.mutex == Some(w)
  {
    OpenBarriers(s);
    assert Flags(s.threads[w]);
  }

  lemma RunKeepsMutex(s: State, i: nat)
    requires Mutex(s) && i < |s.threads| && Flags(s.threads[i]) && ThreadStep(s, i).Some?
    ensures Mutex(ThreadStep(s, i).value) && Flags(ThreadStep(s, i).value.threads[i])
  {
    match s.threads[i].pc
    case AtCreated =>
    case InCreated =>
    case Try =>
    case AtReady =>
    case InReady =>
    case AwaitDone =>
    case TryAgain =>
    case Report =>
    case Release =>
  }

  /** Whoever has won stays the winner, and there is no second one. */
  lemma AdvanceKeepsWinner(s: State, t: State, i: nat)
    requires Barriers(s) && Mutex(s) && Winner(s) && Advances(s, t, i) && Flags(t.threads[i])
    requires if s.threads[i].pc.Try? then t.threads[i].acquired == (s.mutex == None)
             else t.threads[i].acquired == s.threads[i].acquired
    ensures Winner(t)
  {
    if s.threads[i].pc.Try? {
      forall w | 0 <= w < |s.threads| && s.threads[w].acquired ensures s.mutex == Some(w) {
        RaceIsClosed(s, i, w);
      }
      assert Flags(s.threads[i]);
      OpenBarriers(s);
      var w := if s.mutex == None then i else s.mutex.value;
      assert w != i ==> Owns(s.threads[w]) && Flags(s.threads[w]) && !AtLastReady(s.threads[i].pc);
      assert t.threads[w].acquired;
    } else if w :| 0 <= w < |s.threads| && s.threads[w].acquired {
      assert t.threads[w].acquired;
    } else {
      assert forall j | 0 <= j < |s.threads| :: !Tried(s.threads[j].pc);
      assert forall j | 0 <= j < |t.threads| && j != i :: t.threads[j] == s.threads[j];
    }
  }

  lemma RunKeepsInv(s: State, i: nat)
    requires Inv(s) && i < |s.threads| && ThreadStep(s, i).Some?
    ensures Inv(ThreadStep(s, i).value)
  {
    var t := ThreadStep(s, i).value;
    RunAdvances(s, i);
    AdvanceKeepsBarriers(s, t, i);
    assert Flags(s.threads[i]);
    RunKeepsMutex(s, i);
    RunKeepsAcquired(s, i);
    AdvanceKeepsWinner(s, t, i);
    AdvanceKeepsJoined(s, t, i);
  }

  lemma RunKeepsAcquired(s: State, i: nat)
    requires i < |s.threads| && ThreadStep(s, i).Some?
    ensures |ThreadStep(s, i).value.threads| == |s.threads|
    ensures ThreadStep(s, i).value.threads[i].acquired ==
            if s.threads[i].pc.Try? then s.mutex == None else s.threads[i].acquired
  {
  }

  lemma AdvanceKeepsJoined(s: State, t: State, i: nat)
    requires JoinedAll(s) && Advances(s, t, i)
    ensures JoinedAll(t)
  {
  }

  lemma MainKeepsMutex(s: State)
    requires Mutex(s) && MainStep(s).Some?
    ensures Mutex(MainStep(s).value)
  {}

  lemma MainKeepsWinner(s: State)
    requires Winner(s) && MainStep(s).Some?
    requires s.main.Joining? && s.main.next < |s.threads| ==> Flags(s.threads[s.main.next])
    ensures Winner(MainStep(s).value)
  {
    match s.main
    case Creating =>
      if |s.threads| < s.n {
        NewThreadKeepsWinner(s, MainStep(s).value);
      }
    case MainAtReady =>
    case MainInReady =>
    case SetReady =>
    case Joining(i) =>
  }

  lemma NewThreadKeepsWinner(s: State, t: State)
    requires Winner(s) && t.threads == s.threads + [Thread(AtCreated, false, false, -1)] && t.exitStatus == 0
    ensures Winner(t)
  {
    assert forall j | 0 <= j < |s.threads| :: t.threads[j] == s.threads[j];
    if w :| 0 <= w < |s.threads| && s.threads[w].acquired {
      assert t.threads[w].acquired;
    }
  }

  lemma MainKeepsJoined(s: State)
    requires JoinedAll(s) && MainStep(s).Some? && (s.main.Creating? || |s.threads| == s.n)
    ensures JoinedAll(MainStep(s).value)
  {
  }

  lemma MainKeepsInv(s: State)
    requires Inv(s) && MainStep(s).Some?
    ensures Inv(MainStep(s).value)
  {
    MainKeepsBarriers(s);
    MainKeepsMutex(s);
    MainKeepsWinner(s);
    MainKeepsJoined(s);
  }

  lemma StepKeepsInv(s: State, e: Event)
    requires Inv(s) && Step(s, e).Some?
    ensures Inv(Step(s, e).value)
  {
    match e
    case Run(i) => RunKeepsInv(s, i);
    case Main => MainKeepsInv(s);
    case TouchTestDone =>
      assert CreatedSet(s.(testDone := true)) == CreatedSet(s) && ReadySet(s.(testDone := true)) == ReadySet(s);
  }

  lemma Reachable(n: nat, events: seq<Event>)
    requires n >= 1
    ensures var r := Exec(Step, Init(n), events); r.Some? ==> Inv(r.value) && r.value.n == n
  {
    forall s, e | Inv(s) && Step(s, e).Some? ensures Inv(Step(s, e).value) {
      StepKeepsInv(s, e);
    }
    var s := Init(n);
    assert CreatedSet(s) == {} && ReadySet(s) == {};
    Invariance(Step, Inv, s, events);
    forall s, e | Step(s, e).Some? ensures Step(s, e).value.n == s.n {
      StepKeepsSize(s, e);
    }
    Invariance(Step, (t: State) => t.n == n, s, events);
  }

  lemma StepKeepsSize(s: State, e: Event)
    requires Step(s, e).Some?
    ensures Step(s, e).value.n == s.n
  {}

  // ---------------------------------------------------------------- results

  /** In every interleaving: once the second barrier is full, exactly one thread has won the lock, and
      it is the holder until it unlocks; every unlock is by the holder; no thread reports a failure. */
  lemma ExactlyOneHolder(n: nat, events: seq<Event>)
    requires n >= 1 && Exec(Step, Init(n), events).Some?
    ensures var s := Exec(Step, Init(n), events).value;
      && (s.ready == n + 1 ==>
            exists w :: 0 <= w < |s.threads| && s.threads[w].acquired &&
              (!s.threads[w].pc.Exited? ==> s.mutex == Some(w)) &&
              forall i | 0 <= i < |s.threads| && s.threads[i].acquired :: i == w)
      && !s.badUnlock
      && (forall i | 0 <= i < |s.threads| :: s.threads[i].status != 1)
      && (forall i | 0 <= i < |s.threads| && s.threads[i].pc.Release? ::
            s.threads[i].acquired || s.threads[i].again ==> s.mutex == Some(i))
  {
    Reachable(n, events);
    var s := Exec(Step, Init(n), events).value;
    forall i | 0 <= i < |s.threads| ensures s.threads[i].status != 1 {
      assert Flags(s.threads[i]);
    }
    OpenBarriers(s);
    if s.ready == n + 1 {
      assert Tried(s.threads[0].pc);
      var w :| 0 <= w < |s.threads| && s.threads[w].acquired;
      assert Flags(s.threads[w]);
    }
  }

  /** The barriers, in every interleaving: nobody tries for the lock before all threads have been created and
      have come to the first barrier; nobody passes the second one, main included, before all threads have
      tried and main has come there too. */
  lemma BarriersHold(n: nat, events: seq<Event>)
    requires n >= 1 && Exec(Step, Init(n), events).Some?
    ensures var s := Exec(Step, Init(n), events).value;
      && ((exists i :: 0 <= i < |s.threads| && Stage(s.threads[i].pc) >= 2) ==>
            |s.threads| == n && forall j | 0 <= j < |s.threads| :: !s.threads[j].pc.AtCreated?)
      && ((s.main.SetReady? || s.main.Joining? || s.main.Finished? ||
           exists i :: 0 <= i < |s.threads| && Stage(s.threads[i].pc) >= 5) ==>
            && |s.threads| == n && s.ready == n + 1 && !s.main.Creating? && !s.main.MainAtReady?
            && forall j | 0 <= j < |s.threads| :: Stage(s.threads[j].pc) >= 4)
  {
    Reachable(n, events);
    OpenBarriers(Exec(Step, Init(n), events).value);
  }

  /** Nobody goes on to its second attempt before `test-done`. */
  ghost predicate Waits(s: State) {
    !s.testDone ==> forall i | 0 <= i < |s.threads| :: Stage(s.threads[i].pc) <= 5
  }

  lemma StepKeepsWaits(s: State, e: Event)
    requires Waits(s) && Step(s, e).Some?
    ensures Waits(Step(s, e).value)
  {
    match e
    case Run(i) => RunKeepsTestDone(s, i);
    case Main =>
    case TouchTestDone =>
  }

  lemma ReachableWaits(n: nat, events: seq<Event>)
    ensures var r := Exec(Step, Init(n), events); r.Some? ==> Waits(r.value)
  {
    forall s, e | Waits(s) && Step(s, e).Some? ensures Waits(Step(s, e).value) {
      StepKeepsWaits(s, e);
    }
    Invariance(Step, Waits, Init(n), events);
  }

  /** From the moment the second barrier is full until `test-done`, the mutex is held, by the one thread
      that won it; no thread tries again, unlocks or exits before `test-done`. */
  lemma HeldUntilTestDone(n: nat, events: seq<Event>)
    requires n >= 1 && Exec(Step, Init(n), events).Some?
    ensures var s := Exec(Step, Init(n), events).value;
      !s.testDone ==>
        && (forall i | 0 <= i < |s.threads| ::
              && !s.threads[i].pc.TryAgain? && !s.threads[i].pc.Report?
              && !s.threads[i].pc.Release? && !s.threads[i].pc.Exited?)
        && (s.ready == n + 1 ==>
              && s.mutex.Some? && s.mutex.value < |s.threads| == n
              && forall i | 0 <= i < |s.threads| :: s.threads[i].acquired <==> i == s.mutex.value)
  {
    Reachable(n, events);
    ReachableWaits(n, events);
    var s := Exec(Step, Init(n), events).value;
    if s.ready == n + 1 && !s.testDone {
      OpenBarriers(s);
      assert Tried(s.threads[0].pc);
      var w :| 0 <= w < |s.threads| && s.threads[w].acquired;
      assert Flags(s.threads[w]) && Owns(s.threads[w]);
    }
  }

  // ---------------------------------------------------------------- every run ends, and ends well

  ghost function Remaining(s: State): seq<nat> {
    seq(|s.threads|, i requires 0 <= i < |s.threads| => 9 - Stage(s.threads[i].pc))
  }

  function MainLeft(s: State): nat {
    match s.main
    case Creating => s.n + 5
    case MainAtReady => s.n + 4
    case MainInReady => s.n + 3
    case SetReady => s.n + 2
    case Joining(i) => if i <= s.n then s.n + 1 - i else 0
    case Finished => 0
  }

  ghost function Rank(s: State): nat {
    Sum(Remaining(s)) + (if |s.threads| <= s.n then 10 * (s.n - |s.threads|) else 0)
    + MainLeft(s) + (if s.testDone then 0 else 1)
  }

  lemma AdvanceLowersRank(s: State, t: State, i: nat)
    requires Advances(s, t, i) && t.testDone == s.testDone
    ensures Rank(t) < Rank(s)
  {
    var r := 9 - Stage(t.threads[i].pc);
    SumUpdate(Remaining(s), i, r);
    assert Remaining(t) == Remaining(s)[i := r];
  }

  lemma RunKeepsTestDone(s: State, i: nat)
    requires i < |s.threads| && ThreadStep(s, i).Some?
    ensures ThreadStep(s, i).value.testDone == s.testDone
  {
  }

  lemma MainLowersRank(s: State)
    requires Barriers(s) && JoinedAll(s) && MainStep(s).Some?
    ensures Rank(MainStep(s).value) < Rank(s)
  {
    match s.main
    case Creating =>
      if |s.threads| < s.n {
        CreateLowersRank(s, MainStep(s).value);
      } else {
        assert Remaining(MainStep(s).value) == Remaining(s);
      }
    case MainAtReady => assert Remaining(MainStep(s).value) == Remaining(s);
    case MainInReady => assert Remaining(MainStep(s).value) == Remaining(s);
    case SetReady => assert Remaining(MainStep(s).value) == Remaining(s);
    case Joining(i) => assert Remaining(MainStep(s).value) == Remaining(s);
  }

  lemma CreateLowersRank(s: State, t: State)
    requires |s.threads| < s.n && t == s.(threads := s.threads + [Thread(AtCreated, false, false, -1)])
    ensures Rank(t) < Rank(s)
  {
    SumAppend(Remaining(s), 9);
    assert Remaining(t) == Remaining(s) + [9];
  }

  lemma StepLowersRank(s: State, e: Event)
    requires Barriers(s) && JoinedAll(s) && Step(s, e).Some?
    ensures Rank(Step(s, e).value) < Rank(s)
  {
    match e
    case Run(i) =>
      RunAdvances(s, i);
      RunKeepsTestDone(s, i);
      AdvanceLowersRank(s, ThreadStep(s, i).value, i);
    case Main => MainLowersRank(s);
    case TouchTestDone => assert Remaining(s.(testDone := true)) == Remaining(s);
  }

  /** A full set of arrivals opens a barrier. */
  lemma FullBarriers(s: State)
    requires Barriers(s) && |s.threads| == s.n
    ensures (forall i | 0 <= i < |s.threads| :: PastCreated(s.threads[i].pc)) ==> s.created == s.n
    ensures (forall i | 0 <= i < |s.threads| :: AtLastReady(s.threads[i].pc)) ==>
              s.main.Creating? || s.main.MainAtReady? || s.ready == s.n + 1
  {
    if forall i | 0 <= i < |s.threads| :: PastCreated(s.threads[i].pc) {
      CountBelow(s.n, CreatedSet(s));
    }
    if forall i | 0 <= i < |s.threads| :: AtLastReady(s.threads[i].pc) {
      CountBelow(s.n, ReadySet(s));
    }
  }

  /** While main has not finished, something can happen. */
  lemma SomeoneMoves(s: State) returns (e: Event)
    requires Barriers(s) && !s.main.Finished?
    ensures Step(s, e).Some?
  {
    if s.main.Creating? || s.main.MainAtReady? || s.main.SetReady? {
      e := Main;
    } else if !s.testDone {
      e := TouchTestDone;
    } else if i :| 0 <= i < |s.threads| && !PastCreated(s.threads[i].pc) {
      e := Run(i);
    } else if i :| 0 <= i < |s.threads| && !AtLastReady(s.threads[i].pc) {
      FullBarriers(s);
      e := Run(i);
    } else {
      FullBarriers(s);
      if i :| 0 <= i < |s.threads| && !s.threads[i].pc.Exited? {
        e := Run(i);
      } else {
        e := Main;
      }
    }
  }

  /** Every run is finite and can only stop with main finished, exit status 0, every thread gone
      and the mutex free. */
  lemma EveryRunEndsWell(n: nat, events: seq<Event>)
    requires n >= 1 && Exec(Step, Init(n), events).Some?
    ensures |events| <= Rank(Init(n))
    ensures var s := Exec(Step, Init(n), events).value;
      ((forall e :: Step(s, e) == None) ==> s.main.Finished?) &&
      (s.main.Finished? ==>
         && s.exitStatus == 0 && s.mutex == None
         && |s.threads| == n && forall i | 0 <= i < |s.threads| :: s.threads[i].pc.Exited?)
  {
    Reachable(n, events);
    forall s, e | Inv(s) && Step(s, e).Some?
      ensures Inv(Step(s, e).value) && Rank(Step(s, e).value) < Rank(s)
    {
      StepKeepsInv(s, e);
      StepLowersRank(s, e);
    }
    assert CreatedSet(Init(n)) == {} && ReadySet(Init(n)) == {};
    RunLength(Step, Inv, Rank, Init(n), events);
    var s := Exec(Step, Init(n), events).value;
    if !s.main.Finished? {
      var e := SomeoneMoves(s);
    }
  }
}
