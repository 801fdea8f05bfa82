/** When the test of fileio/filelock1.c can be trusted: exactly for compatible lock lists. */
module FileLock1Exact {
  import opened Runs
  import opened Counting
  import opened ByteLocks
  import opened FileLock1

  // ---------------------------------------------------------------- all children can start testing

  /** Steps before any test. */
  ghost function SetupStep(s: State, e: Event): Option<State> {
    if e.Interrupt? || (e.Kid? && e.kid < |s.kids| && s.kids[e.kid].Testing?) then None else Step(s, e)
  }

  predicate EarlyPc(s: State, pc: Pc) {
    (pc.Locking? && pc.next <= |s.locks|) || pc.NotifyReady? || pc.AwaitDone? || pc == Testing(0)
  }

  predicate EarlyParent(p: ParentPc) { p.Forking? || p.AwaitReady? || p.Ready? || p.AwaitTested? }

  ghost predicate SetupInv(s: State) {
    && Setup(s) && Exclusive(s.table) && s.efd2 == 0 && EarlyParent(s.parent)
    && forall c | 0 <= c < |s.kids| :: EarlyPc(s, s.kids[c])
  }

  ghost predicate AllTesting(s: State) {
    |s.kids| == s.n && forall c | 0 <= c < |s.kids| :: s.kids[c] == Testing(0)
  }

  lemma KidKeepsSetupInv(s: State, c: nat)
    requires SetupInv(s) && c < |s.kids| && !s.kids[c].Testing? && KidStep(s, c).Some?
    ensures SetupInv(KidStep(s, c).value)
  {
    KidKeepsSetup(s, c);
    if s.kids[c].Locking? && s.kids[c].next < |s.locks| {
      var e := s.locks[s.kids[c].next];
      if !Conflict(s.table, c, e.mode, e.range) {
        LockedKeepsExclusive(s.table, c, e.mode, e.range);
      }
    }
  }

  lemma SetupStepKeepsInv(s: State, e: Event)
    requires SetupInv(s) && SetupStep(s, e).Some?
    ensures SetupInv(SetupStep(s, e).value)
  {
    match e
    case Kid(c) => KidKeepsSetupInv(s, c);
    case Parent =>
      if s.parent.Forking? && |s.kids| < s.n {
        var t := Step(s, e).value;
        assert forall c | 0 <= c < |s.kids| :: t.kids[c] == s.kids[c];
      }
    case TouchTestDone =>
  }

  function KidRank(n: nat, pc: Pc): nat {
    match pc
    case Locking(i) => if i <= n then n - i + 5 else 0
    case NotifyReady => 4
    case AwaitDone => 1
    case _ => 0
  }

  ghost function KidRanks(s: State): seq<nat> {
    seq(|s.kids|, i requires 0 <= i < |s.kids| => KidRank(|s.locks|, s.kids[i]))
  }

  function Product(a: nat, b: nat): nat { a * b }

  lemma ProductStep(a: nat, b: nat)
    ensures Product(a + 1, b) == Product(a, b) + b
  {}

  ghost function SetupRank(s: State): nat {
    Sum(KidRanks(s)) + (if s.testDone then 0 else 1)
    + (if |s.kids| <= s.n then Product(s.n - |s.kids|, |s.locks| + 20) else 0)
    + match s.parent
      case Forking => 3
      case AwaitReady => 5
      case Ready => 2
      case _ => 1
  }

  lemma KidLowersRank(s: State, c: nat)
    requires SetupInv(s) && c < |s.kids| && !s.kids[c].Testing? && KidStep(s, c).Some?
    ensures SetupRank(KidStep(s, c).value) < SetupRank(s)
  {
    var t := KidStep(s, c).value;
    var r := KidRank(|s.locks|, t.kids[c]);
    SumUpdate(KidRanks(s), c, r);
    assert KidRanks(t) == KidRanks(s)[c := r];
  }

  lemma ForkLowersRank(s: State)
    requires SetupInv(s) && s.parent.Forking? && |s.kids| < s.n
    ensures SetupRank(ParentStep(s).value) < SetupRank(s)
  {
    var t := ParentStep(s).value;
    var r := KidRank(|s.locks|, Locking(0));
    SumAppend(KidRanks(s), r);
    assert KidRanks(t) == KidRanks(s) + [r];
    ProductStep(t.n - |t.kids|, |s.locks| + 20);
  }

  lemma SetupAdvances(s: State) returns (e: Event)
    requires SetupInv(s) && !AllTesting(s)
    ensures SetupStep(s, e).Some? && SetupRank(SetupStep(s, e).value) < SetupRank(s)
  {
    if c :| 0 <= c < |s.kids| && LockingStill(s.kids[c]) {
      e := Kid(c);
      KidLowersRank(s, c);
    } else if s.parent.Forking? && |s.kids| < s.n {
      e := Parent;
      ForkLowersRank(s);
    } else if !s.parent.AwaitTested? {
      e := Parent;
      assert KidRanks(Step(s, e).value) == KidRanks(s);
    } else if !s.testDone {
      e := TouchTestDone;
      assert KidRanks(Step(s, e).value) == KidRanks(s);
    } else {
      var c :| 0 <= c < |s.kids| && s.kids[c] != Testing(0);
      e := Kid(c);
      KidLowersRank(s, c);
    }
  }

  lemma {:induction false} SetupRunsAreRuns(s: State, events: seq<Event>)
    requires Exec(SetupStep, s, events).Some?
    ensures Exec(Step, s, events) == Exec(SetupStep, s, events)
    ensures var t := Exec(Step, s, events).value; t.locks == s.locks && t.n == s.n
    decreases |events|
  {
    if events != [] {
      SetupRunsAreRuns(SetupStep(s, events[0]).value, events[1..]);
    }
  }

  lemma ReachTesting(locks: seq<Entry>, n: nat) returns (events: seq<Event>, s: State)
    ensures Exec(Step, Init(locks, n), events) == Some(s)
    ensures AllTesting(s) && Exclusive(s.table) && s.locks == locks && s.n == n
  {
    forall s, e | SetupInv(s) && SetupStep(s, e).Some? ensures SetupInv(SetupStep(s, e).value) {
      SetupStepKeepsInv(s, e);
    }
    forall s | SetupInv(s) && !AllTesting(s)
      ensures exists e :: SetupStep(s, e).Some? && SetupRank(SetupStep(s, e).value) < SetupRank(s)
    {
      var e := SetupAdvances(s);
    }
    events := CanReach(SetupStep, SetupInv, SetupRank, AllTesting, Init(locks, n));
    Invariance(SetupStep, SetupInv, Init(locks, n), events);
    SetupRunsAreRuns(Init(locks, n), events);
    s := Exec(Step, Init(locks, n), events).value;
  }

  // ---------------------------------------------------------------- one child tests while the others rest

  /** Only child `c` has moved: the others are where they were and hold what they held. */
  ghost predicate OnlyMoved(s: State, t: State, c: nat) {
    && t.locks == s.locks && t.n == s.n && |t.kids| == |s.kids|
    && (forall d | 0 <= d < |s.kids| && d != c :: t.kids[d] == s.kids[d])
    && (forall d: nat, b: nat | d != c :: (d, b) in t.table <==> (d, b) in s.table)
    && (forall d: nat, b: nat | d != c && (d, b) in s.table :: t.table[(d, b)] == s.table[(d, b)])
  }

  /** One entry tested: the child fails or moves on, and then has the lock if it may have it. */
  lemma TestOne(s: State, c: nat) returns (events: seq<Event>, t: State)
    requires c < |s.kids| && s.kids[c].Testing? && s.kids[c].next < |s.locks| && Exclusive(s.table)
    ensures Exec(Step, s, events) == Some(t) && Exclusive(t.table) && OnlyMoved(s, t, c)
    ensures t.kids[c].Failed? || t.kids[c] == Testing(s.kids[c].next + 1)
    ensures t.kids[c].Testing? ==> forall b: nat | (c, b) in s.table :: (c, b) in t.table
    ensures var e := s.locks[s.kids[c].next];
      t.kids[c].Testing? && Mine(c, e) ==>
        forall b: nat | e.range.Has(b) :: (c, b) in t.table && t.table[(c, b)] == e.mode
  {
    var e := s.locks[s.kids[c].next];
    FewerKeepsExclusive(s.table, c, e.range);
    if Conflict(s.table, c, e.mode, e.range) {
      events := [Kid(c), Kid(c)];
      var r := KidStep(s, c).value;
      t := KidStep(r, c).value;
      assert events[1..] == [Kid(c)] && [Kid(c)][1..] == [];
      assert Exec(Step, r, [Kid(c)]) == Some(t);
    } else {
      LockedKeepsExclusive(s.table, c, e.mode, e.range);
      events := [Kid(c)];
      t := KidStep(s, c).value;
      assert events[1..] == [];
    }
  }

  /** The entries up to `upto` tested. */
  lemma {:induction false} TestAll(s: State, c: nat, upto: nat) returns (events: seq<Event>, t: State)
    requires c < |s.kids| && s.kids[c].Testing? && s.kids[c].next <= upto <= |s.locks| && Exclusive(s.table)
    ensures Exec(Step, s, events) == Some(t) && Exclusive(t.table) && OnlyMoved(s, t, c)
    ensures t.kids[c].Failed? || t.kids[c] == Testing(upto)
    ensures t.kids[c].Testing? ==> forall b: nat | (c, b) in s.table :: (c, b) in t.table
    ensures t.kids[c].Testing? ==>
      forall i | s.kids[c].next <= i < upto && Mine(c, s.locks[i]) :: HoldsAll(t.table, c, s.locks[i].range)
    ensures t.kids[c].Testing? && s.kids[c].next < upto && Mine(c, s.locks[upto - 1]) ==>
      forall b: nat | s.locks[upto - 1].range.Has(b) :: (c, b) in t.table && t.table[(c, b)] == s.locks[upto - 1].mode
    decreases upto - s.kids[c].next
  {
    if s.kids[c].next == upto {
      events, t := [], s;
    } else {
      var first, r := TestOne(s, c);
      if r.kids[c].Failed? || r.kids[c].next == upto {
        events, t := first, r;
      } else {
        var rest, u := TestAll(r, c, upto);
        ExecAppend(Step, s, first, rest);
        events, t := first + rest, u;
      }
    }
  }

  ghost predicate SomeFailed(s: State) { exists c :: 0 <= c < |s.kids| && s.kids[c].Failed? }

  /** Child `y` cannot get its lock on a byte that child `x` holds, if one of the two is a writer's. */
  lemma SecondFails(s: State, x: nat, y: nat, j: nat, b: nat) returns (events: seq<Event>)
    requires y < |s.kids| && s.kids[y] == Testing(0) && Exclusive(s.table) && x != y && (x, b) in s.table
    requires j < |s.locks| && s.locks[j].range.Has(b) && Mine(y, s.locks[j])
    requires s.table[(x, b)] == Write || s.locks[j].mode == Write
    ensures var r := Exec(Step, s, events); r.Some? && SomeFailed(r.value)
  {
    var rest, t := TestAll(s, y, j + 1);
    events := rest;
    assert (x, b) in t.table && t.table[(x, b)] == s.table[(x, b)];
    assert t.kids[y].Failed?;
  }

  /** Child `x` tests everything up to its lock on `b`, then child `y` does; they cannot both succeed
      if the latter lock or the former is a writer's. */
  lemma OneOfTwoFails(s: State, x: nat, i: nat, y: nat, j: nat, b: nat) returns (events: seq<Event>)
    requires AllTesting(s) && Exclusive(s.table) && x < s.n && y < s.n && x != y
    requires i < |s.locks| && j < |s.locks| && s.locks[i].range.Has(b) && s.locks[j].range.Has(b)
    requires Mine(x, s.locks[i]) && Mine(y, s.locks[j]) && (s.locks[i].mode == Write || s.locks[j].mode == Write)
    ensures var r := Exec(Step, s, events); r.Some? && SomeFailed(r.value)
  {
    var first, r := TestAll(s, x, i + 1);
    if r.kids[x].Failed? {
      events := first;
    } else {
      var rest := SecondFails(r, x, y, j, b);
      ExecAppend(Step, s, first, rest);
      events := first + rest;
    }
  }

  /** Every incompatible list has an interleaving in which a test fails although no lock was lost. */
  lemma IncompatibleFails(locks: seq<Entry>, n: nat) returns (events: seq<Event>)
    requires WellFormed(locks, n) && !Compatible(locks, n)
    ensures var r := Exec(Step, Init(locks, n), events); r.Some? && SomeFailed(r.value)
  {
    var i, j, b: nat :| 0 <= i < |locks| && 0 <= j < |locks| && locks[i].range.Has(b) && locks[j].range.Has(b) &&
      !(if locks[i].child != locks[j].child then locks[i].mode == locks[j].mode == Read
        else n >= 2 ==> locks[i].mode == locks[j].mode);
    var first, s := ReachTesting(locks, n);
    var rest;
    if locks[i].child != locks[j].child {
      rest := OneOfTwoFails(s, locks[i].child, i, locks[j].child, j, b);
    } else {
      var w, r := if locks[i].mode == Write then i else j, if locks[i].mode == Write then j else i;
      var other := if locks[i].child == 0 then 1 else 0;
      rest := OneOfTwoFails(s, locks[i].child, w, other, r, b);
    }
    ExecAppend(Step, Init(locks, n), first, rest);
    events := first + rest;
  }

  /** The test is sound exactly for compatible lists: after a faithful restart no test fails in any
      interleaving if and only if the list is compatible. */
  lemma SoundExactlyIfCompatible(locks: seq<Entry>, n: nat)
    requires WellFormed(locks, n)
    ensures Compatible(locks, n) <==>
      forall events :: var r := Exec(Step, Init(locks, n), events); r.Some? ==> !SomeFailed(r.value)
  {
    if Compatible(locks, n) {
      forall events | Exec(Step, Init(locks, n), events).Some?
        ensures !SomeFailed(Exec(Step, Init(locks, n), events).value)
      {
        Reachable(locks, n, events);
      }
    } else {
      var events := IncompatibleFails(locks, n);
    }
  }

  /** The list in the source, which two children share. */
  const LocksList := [
    Entry(0, Write, Range(0, 17)), Entry(1, Write, Range(18, 16)), Entry(0, Write, Range(35, 27)),
    Entry(1, Write, Range(63, 17)), Entry(0, Read, Range(81, 25)), Entry(1, Read, Range(81, 25))]

  lemma LocksListIsCompatible()
    ensures WellFormed(LocksList, 2) && Compatible(LocksList, 2)
  {
  }
}
