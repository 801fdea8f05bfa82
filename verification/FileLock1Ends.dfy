/** Runs of fileio/filelock1.c end. */
module FileLock1Ends {
  import opened Runs
  import opened Counting
  import opened FileLock1

  // ---------------------------------------------------------------- runs are bounded

  /** What is left for a child to do with a list of `m` locks. */
  function Left(m: nat, pc: Pc): nat {
    match pc
    case Locking(i) => 2 * m + 9 + (if i <= m then m - i else 0)
    case NotifyReady => 2 * m + 8
    case AwaitDone => 2 * m + 6
    case Testing(i) => 5 + (if i <= m then 2 * (m - i) else 0)
    case Asking(i) => 4 + (if i <= m then 2 * (m - i) else 0)
    case NotifyTested => 3
    case Pausing => 1
    case Exited => 0
    case Failed => 0
  }

  function LeftOfParent(n: nat, p: ParentPc): nat {
    match p
    case AwaitReady => n + 6
    case Forking => n + 5
    case Ready => n + 4
    case AwaitTested => n + 3
    case Killing(c) => 1 + (if c <= n then n - c else 0)
    case Finished => 0
  }

  ghost function Lefts(s: State): seq<nat> {
    seq(|s.kids|, i requires 0 <= i < |s.kids| => Left(|s.locks|, s.kids[i]))
  }

  /** Children that are not forked yet have everything to do. */
  function LeftToFork(count: nat, m: nat): nat { if count == 0 then 0 else LeftToFork(count - 1, m) + 3 * m + 20 }

  ghost function Rank(s: State): nat {
    Sum(Lefts(s)) + (if |s.kids| <= s.n then LeftToFork(s.n - |s.kids|, |s.locks|) else 0)
    + LeftOfParent(s.n, s.parent) + s.efd1 + s.efd2 + (if s.testDone then 0 else 1)
  }

  /** One child goes on; what it tells its parent is less than what it has done. */
  lemma MoveLowersRank(s: State, t: State, c: nat)
    requires c < |s.kids| && |t.kids| == |s.kids| && t.kids == s.kids[c := t.kids[c]]
    requires t.locks == s.locks && t.n == s.n && t.parent == s.parent && t.testDone == s.testDone
    requires Left(|s.locks|, t.kids[c]) + t.efd1 + t.efd2 < Left(|s.locks|, s.kids[c]) + s.efd1 + s.efd2
    ensures Rank(t) < Rank(s)
  {
    SumUpdate(Lefts(s), c, Left(|s.locks|, t.kids[c]));
    assert Lefts(t) == Lefts(s)[c := Left(|s.locks|, t.kids[c])];
  }

  lemma KidLowersRank(s: State, c: nat)
    requires c < |s.kids| && KidStep(s, c).Some?
    ensures Rank(KidStep(s, c).value) < Rank(s)
  {
    MoveLowersRank(s, KidStep(s, c).value, c);
  }

  lemma ForkLowersRank(s: State)
    requires s.parent.Forking? && |s.kids| < s.n
    ensures Rank(ParentStep(s).value) < Rank(s)
  {
    var t := ParentStep(s).value;
    SumAppend(Lefts(s), Left(|s.locks|, Locking(0)));
    assert Lefts(t) == Lefts(s) + [Left(|s.locks|, Locking(0))];
  }

  lemma StepLowersRank(s: State, e: Event)
    requires Step(s, e).Some?
    ensures Rank(Step(s, e).value) < Rank(s)
  {
    match e
    case Kid(c) => KidLowersRank(s, c);
    case Interrupt(c) => InterruptLowersRank(s, c);
    case Parent =>
      if s.parent.Forking? && |s.kids| < s.n {
        ForkLowersRank(s);
      } else {
        assert Lefts(Step(s, e).value) == Lefts(s);
      }
    case TouchTestDone => assert Lefts(Step(s, e).value) == Lefts(s);
  }

  lemma InterruptLowersRank(s: State, c: nat)
    requires Step(s, Interrupt(c)).Some?
    ensures Rank(Step(s, Interrupt(c)).value) < Rank(s)
  {
    MoveLowersRank(s, Step(s, Interrupt(c)).value, c);
  }

  // ---------------------------------------------------------------- and can only stop at the end

  /** The parent waits for more only if more is to come, and it leaves nobody without a signal. */
  ghost predicate Finishing(s: State) {
    && (s.parent.AwaitTested? ==> s.count < s.n)
    && (s.parent.Killing? ==> forall c | 0 <= c < s.parent.next && c < s.n :: c in s.signalled)
    && (s.parent.Finished? ==> forall c | 0 <= c < s.n :: c in s.signalled)
  }

  lemma StepKeepsFinishing(s: State, e: Event)
    requires Finishing(s) && s.n >= 1 && Step(s, e).Some?
    ensures Finishing(Step(s, e).value)
  {
    match e
    case Kid(c) =>
    case Parent =>
    case TouchTestDone =>
    case Interrupt(c) =>
  }

  ghost predicate Ended(s: State) {
    s.parent.Finished? && |s.kids| == s.n && forall c | 0 <= c < |s.kids| :: s.kids[c].Exited?
  }

  ghost predicate Going(s: State) { Inv(s) && Finishing(s) && s.n >= 1 }

  /** Somebody has not tested yet, and can go on. */
  lemma TesterMoves(s: State) returns (c: nat)
    requires Going(s) && s.parent.AwaitTested? && s.efd2 == 0 && s.testDone
    ensures c < |s.kids| && KidStep(s, c).Some?
  {
    if forall c | 0 <= c < |s.kids| :: Tested(s.kids[c]) {
      Counting.CountBelow(s.n, TestedKids(s));
    }
    c :| 0 <= c < |s.kids| && !Tested(s.kids[c]);
  }

  lemma SomeoneMoves(s: State) returns (e: Event)
    requires Going(s) && !Ended(s)
    ensures Step(s, e).Some?
  {
    if ParentStep(s).Some? {
      e := Parent;
    } else if s.parent.AwaitReady? {
      e := Kid(|s.kids| - 1);
    } else if s.parent.Finished? {
      var c :| 0 <= c < |s.kids| && !s.kids[c].Exited?;
      e := Interrupt(c);
    } else if !s.testDone {
      e := TouchTestDone;
    } else {
      var c := TesterMoves(s);
      e := Kid(c);
    }
  }

  /** Every run of every list is bounded.  If the list is compatible, a run can only stop with the parent
      finished and every child ended by its signal. */
  lemma EveryRunEnds(locks: seq<Entry>, n: nat, events: seq<Event>)
    requires n >= 1 && Exec(Step, Init(locks, n), events).Some?
    ensures |events| <= Rank(Init(locks, n))
    ensures var s := Exec(Step, Init(locks, n), events).value;
      WellFormed(locks, n) && Compatible(locks, n) && (forall e :: Step(s, e) == None) ==> Ended(s)
  {
    RunsAreBounded(Init(locks, n), events);
    if WellFormed(locks, n) && Compatible(locks, n) {
      Reachable(locks, n, events);
      StaysFinishing(Init(locks, n), events);
      var s := Exec(Step, Init(locks, n), events).value;
      if !Ended(s) {
        var e := SomeoneMoves(s);
      }
    }
  }

  lemma {:induction false} RunsAreBounded(s: State, events: seq<Event>)
    requires Exec(Step, s, events).Some?
    ensures |events| <= Rank(s)
    decreases |events|
  {
    if events != [] {
      StepLowersRank(s, events[0]);
      RunsAreBounded(Step(s, events[0]).value, events[1..]);
    }
  }

  lemma {:induction false} StaysFinishing(s: State, events: seq<Event>)
    requires Finishing(s) && s.n >= 1 && Exec(Step, s, events).Some?
    ensures Finishing(Exec(Step, s, events).value) && Exec(Step, s, events).value.n == s.n
    decreases |events|
  {
    if events != [] {
      StepKeepsFinishing(s, events[0]);
      StepKeepsConstants(s, events[0]);
      StaysFinishing(Step(s, events[0]).value, events[1..]);
    }
  }
}
