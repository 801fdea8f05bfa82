/** fileio/filelock1.c: children lock parts of a file, and after the restart each tests every lock.

    Any number of children and any list of locks.  One step is one fcntl() call, one event on an
    eventfd, one fork or one signal.  A faithful restart leaves locks, counters and processes as
    they were, so it is no step of its own.  `test-done` appears only once the parent has announced
    readiness (fileio/run-fcntltests.sh).
 */
module FileLock1 {
  import opened Runs
  import opened ByteLocks
  import opened Counting

  datatype Entry = Entry(child: nat, mode: Mode, range: Range)

  datatype Pc =
    | Locking(next: nat)              // the loop over locks_list with set_lock
    | NotifyReady
    | AwaitDone                       // while (!test_done())
    | Testing(next: nat)              // test_lock: F_SETLK
    | Asking(next: nat)               // ... was refused: F_GETLK
    | NotifyTested | Pausing
    | Exited | Failed

  datatype ParentPc = Forking | AwaitReady | Ready | AwaitTested | Killing(next: nat) | Finished

  datatype State = State(
    locks: seq<Entry>, n: nat, table: Table,
    kids: seq<Pc>, signalled: set<nat>,
    parent: ParentPc, efd1: nat, efd2: nat, count: nat, testDone: bool)

  datatype Event = Kid(kid: nat) | Parent | TouchTestDone | Interrupt(kid: nat)

  function Init(locks: seq<Entry>, n: nat): State {
    State(locks, n, map[], [], {}, Forking, 0, 0, 0, false)
  }

  /** What a child expects of an entry: it can have the lock itself. */
  predicate Mine(c: nat, e: Entry) { e.child == c || e.mode == Read }

  function To(s: State, c: nat, pc: Pc): State
    requires c < |s.kids|
  {
    s.(kids := s.kids[c := pc])
  }

  function Fail(s: State, c: nat): State
    requires c < |s.kids|
  {
    To(s, c, Failed).(table := Dropped(s.table, c))
  }

  ghost function KidStep(s: State, c: nat): Option<State>
    requires c < |s.kids|
  {
    match s.kids[c]
    case Locking(i) =>
      if i >= |s.locks| then Some(To(s, c, NotifyReady))
      else
        var e := s.locks[i];
        if e.child != c || Conflict(s.table, c, e.mode, e.range) then Some(To(s, c, Locking(i + 1)))
        else Some(To(s, c, Locking(i + 1)).(table := Locked(s.table, c, e.mode, e.range)))
    case NotifyReady => Some(To(s, c, AwaitDone).(efd1 := s.efd1 + 1))
    case AwaitDone => if s.testDone then Some(To(s, c, Testing(0))) else None
    case Testing(i) =>
      if i >= |s.locks| then Some(To(s, c, NotifyTested))
      else
        var e := s.locks[i];
        if Conflict(s.table, c, e.mode, e.range) then Some(To(s, c, Asking(i)))
        else if Mine(c, e) then
          Some(To(s, c, Testing(i + 1)).(table := Locked(s.table, c, e.mode, e.range)))
        else Some(Fail(s, c))                                   // "is NOT set by peer"
    case Asking(i) =>
      if i < |s.locks| && !Mine(c, s.locks[i]) && Conflict(s.table, c, s.locks[i].mode, s.locks[i].range)
      then Some(To(s, c, Testing(i + 1)))
      else Some(Fail(s, c))                                     // mismatch, or "is NOT set by me"
    case NotifyTested => Some(To(s, c, Pausing).(efd2 := s.efd2 + 1))
    case _ => None
  }

  /** wait_for_events: a read takes the whole counter and blocks while it is zero. */
  ghost function ParentStep(s: State): Option<State> {
    match s.parent
    case Forking =>
      if |s.kids| >= s.n then Some(s.(parent := Ready))
      else Some(s.(parent := AwaitReady, kids := s.kids + [Locking(0)], count := 0))
    case AwaitReady =>
      if s.efd1 == 0 then None
      else Some(s.(efd1 := 0, count := s.count + s.efd1,
                   parent := if s.count + s.efd1 < 1 then AwaitReady else Forking))
    case Ready => Some(s.(parent := AwaitTested, count := 0))
    case AwaitTested =>
      if s.efd2 == 0 then None
      else Some(s.(efd2 := 0, count := s.count + s.efd2,
                   parent := if s.count + s.efd2 < s.n then AwaitTested else Killing(0)))
    case Killing(c) =>
      if c >= s.n then Some(s.(parent := Finished))
      else Some(s.(parent := Killing(c + 1), signalled := s.signalled + {c}))
    case Finished => None
  }

  ghost function Step(s: State, e: Event): Option<State> {
    match e
    case Kid(c) => if c < |s.kids| then KidStep(s, c) else None
    case Parent => ParentStep(s)
    case TouchTestDone =>
      if s.testDone || s.parent.Forking? || s.parent.AwaitReady? || s.parent.Ready? then None
      else Some(s.(testDone := true))
    case Interrupt(c) =>
      if c in s.signalled && c < |s.kids| && !s.kids[c].Failed? && !s.kids[c].Exited?
      then Some(To(s, c, Exited).(table := Dropped(s.table, c))) else None
  }

  // ---------------------------------------------------------------- the condition on the list

  /** Every entry names a child that is forked and at least one byte. */
  ghost predicate WellFormed(locks: seq<Entry>, n: nat) {
    forall i | 0 <= i < |locks| :: locks[i].child < n && locks[i].range.len > 0
  }

  /** Entries of different children that share a byte are read locks; entries of one child that
      share a byte have one mode, unless there is no other child to notice. */
  ghost predicate Compatible(locks: seq<Entry>, n: nat) {
    forall i, j, b: nat | 0 <= i < |locks| && 0 <= j < |locks| && locks[i].range.Has(b) && locks[j].range.Has(b) ::
      if locks[i].child != locks[j].child then locks[i].mode == locks[j].mode == Read
      else n >= 2 ==> locks[i].mode == locks[j].mode
  }

  // ---------------------------------------------------------------- the invariant

  /** Locks are held only with a reason: an entry that the holder may have. */
  ghost predicate Justified(s: State) {
    forall c: nat, b: nat | (c, b) in s.table ::
      && c < |s.kids| <= s.n
      && exists i :: 0 <= i < |s.locks| && s.locks[i].range.Has(b) && s.locks[i].mode == s.table[(c, b)] &&
                     Mine(c, s.locks[i])
  }

  /** How many of its own entries a child has locked. */
  function Done(s: State, pc: Pc): nat {
    match pc
    case Locking(i) => if i <= |s.locks| then i else |s.locks|
    case Exited => 0
    case Failed => 0
    case _ => |s.locks|
  }

  ghost predicate HoldsOwn(s: State) {
    forall c, i | 0 <= c < |s.kids| && 0 <= i < Done(s, s.kids[c]) && s.locks[i].child == c ::
      HoldsAll(s.table, c, s.locks[i].range)
  }

  predicate Tested(pc: Pc) { pc.Pausing? || pc.Exited? }

  predicate LockingStill(pc: Pc) { pc.Locking? || pc.NotifyReady? }

  predicate TestingNow(pc: Pc) { pc.Testing? || pc.Asking? || pc.NotifyTested? }

  ghost function TestedKids(s: State): set<nat> { set c | 0 <= c < |s.kids| && Tested(s.kids[c]) }

  /** The eventfd of the setup: an event is pending only between the last child's notification and
      the parent's read, and all other children have locked what they had to. */
  ghost predicate Setup(s: State) {
    && |s.kids| <= s.n
    && (s.parent.Forking? ==> s.efd1 == 0 && forall c | 0 <= c < |s.kids| :: !LockingStill(s.kids[c]))
    && (s.parent.AwaitReady? ==>
          && s.kids != [] && s.count == 0
          && (forall c | 0 <= c < |s.kids| - 1 :: !LockingStill(s.kids[c]))
          && s.efd1 == if LockingStill(s.kids[|s.kids| - 1]) then 0 else 1)
    && (!s.parent.Forking? && !s.parent.AwaitReady? ==>
          |s.kids| == s.n && forall c | 0 <= c < |s.kids| :: !LockingStill(s.kids[c]))
    && (s.testDone ==> !s.parent.Forking? && !s.parent.AwaitReady? && !s.parent.Ready?)
    && (forall c | 0 <= c < |s.kids| && !LockingStill(s.kids[c]) && !s.kids[c].AwaitDone? :: s.testDone)
  }

  /** Conservation on the second eventfd: what was notified is what was read or is pending.  Signals
      go out, and children end, only when all have been heard of. */
  ghost predicate Conservation(s: State) {
    && |TestedKids(s)| == (if s.parent.AwaitTested? then s.count else 0) + s.efd2
         + (if s.parent.Killing? || s.parent.Finished? then s.n else 0)
    && (s.signalled != {} ==> s.parent.Killing? || s.parent.Finished?)
    && (forall c | 0 <= c < |s.kids| && s.kids[c].Exited? :: s.parent.Killing? || s.parent.Finished?)
  }

  /** The protocol part of the invariant, whatever the list of locks is. */
  ghost predicate Protocol(s: State) { Setup(s) && Conservation(s) }

  lemma KidKeepsSetup(s: State, c: nat)
    requires Setup(s) && c < |s.kids| && KidStep(s, c).Some?
    ensures Setup(KidStep(s, c).value)
  {}

  lemma StepKeepsSetup(s: State, e: Event)
    requires Setup(s) && Conservation(s) && Step(s, e).Some?
    ensures Setup(Step(s, e).value)
  {
    match e
    case Kid(c) => KidKeepsSetup(s, c);
    case Parent =>
      if s.parent.Forking? && |s.kids| < s.n {
        var t := Step(s, e).value;
        assert forall c | 0 <= c < |s.kids| :: t.kids[c] == s.kids[c];
      }
    case TouchTestDone =>
    case Interrupt(c) =>
      var t := Step(s, e).value;
      assert forall d | 0 <= d < |s.kids| && d != c :: t.kids[d] == s.kids[d];
      AllTested(s);
  }

  /** When the first signal goes out, every child has tested every lock. */
  lemma AllTested(s: State)
    requires |s.kids| <= s.n && Conservation(s) && (s.parent.Killing? || s.parent.Finished?)
    ensures |s.kids| == s.n && forall c | 0 <= c < |s.kids| :: Tested(s.kids[c])
    ensures s.efd2 == 0
  {
    SubsetBelow(|s.kids|, TestedKids(s));
    forall c | 0 <= c < |s.kids| ensures Tested(s.kids[c]) {
      assert c in TestedKids(s);
    }
  }

  lemma TestedAfter(s: State, t: State, c: nat)
    requires c < |s.kids| == |t.kids| && t.kids == s.kids[c := t.kids[c]]
    requires Tested(s.kids[c]) ==> Tested(t.kids[c])
    ensures |TestedKids(t)| == |TestedKids(s)| + (if Tested(t.kids[c]) && !Tested(s.kids[c]) then 1 else 0)
  {
    if Tested(t.kids[c]) && !Tested(s.kids[c]) {
      assert TestedKids(t) == TestedKids(s) + {c} && c !in TestedKids(s);
    } else {
      assert TestedKids(t) == TestedKids(s);
    }
  }

  lemma KidKeepsConservation(s: State, c: nat)
    requires |s.kids| <= s.n && Conservation(s) && c < |s.kids| && KidStep(s, c).Some?
    ensures Conservation(KidStep(s, c).value)
  {
    var t := KidStep(s, c).value;
    KidTells(s, c);
    TestedAfter(s, t, c);
    if s.parent.Killing? || s.parent.Finished? {
      AllTested(s);
    }
    TellingKeepsConservation(s, t, c);
  }

  /** A child is heard of exactly when it has tested everything. */
  lemma KidTells(s: State, c: nat)
    requires c < |s.kids| && KidStep(s, c).Some?
    ensures var t := KidStep(s, c).value;
      && |t.kids| == |s.kids| && t.kids == s.kids[c := t.kids[c]] && t.n == s.n && t.parent == s.parent
      && t.count == s.count && t.signalled == s.signalled && !Tested(s.kids[c]) && !t.kids[c].Exited?
      && t.efd2 == s.efd2 + (if Tested(t.kids[c]) then 1 else 0)
  {}

  lemma TellingKeepsConservation(s: State, t: State, c: nat)
    requires Conservation(s) && c < |s.kids| == |t.kids| && t.kids == s.kids[c := t.kids[c]]
    requires t.n == s.n && t.parent == s.parent && t.count == s.count && t.signalled == s.signalled
    requires !t.kids[c].Exited?
    requires t.efd2 == s.efd2 + |TestedKids(t)| - |TestedKids(s)|
    ensures Conservation(t)
  {}

  lemma StepKeepsConservation(s: State, e: Event)
    requires Setup(s) && Conservation(s) && Step(s, e).Some?
    ensures Conservation(Step(s, e).value)
  {
    var t := Step(s, e).value;
    match e
    case Kid(c) => KidKeepsConservation(s, c);
    case Parent =>
      assert TestedKids(t) == TestedKids(s);
      SubsetBelow(|s.kids|, TestedKids(s));
    case TouchTestDone => assert TestedKids(t) == TestedKids(s);
    case Interrupt(c) =>
      AllTested(s);
      assert TestedKids(t) == TestedKids(s);
  }

  // ---------------------------------------------------------------- every verdict is right

  /** No test has failed, and a child asks who holds a lock only if it is not supposed to get it. */
  ghost predicate Faultless(s: State) {
    forall c | 0 <= c < |s.kids| ::
      && !s.kids[c].Failed?
      && (s.kids[c].Asking? ==> s.kids[c].next < |s.locks| && !Mine(c, s.locks[s.kids[c].next]))
  }

  ghost predicate Inv(s: State) {
    && WellFormed(s.locks, s.n) && Compatible(s.locks, s.n)
    && Protocol(s) && Justified(s) && HoldsOwn(s) && Faultless(s)
  }

  /** Nobody stands in the way of a lock one may have. */
  lemma NoConflictOnMine(s: State, c: nat, i: nat)
    requires Compatible(s.locks, s.n) && Justified(s)
    requires c < s.n && i < |s.locks| && Mine(c, s.locks[i])
    ensures !Conflict(s.table, c, s.locks[i].mode, s.locks[i].range)
  {}

  /** The owner of a write lock stands in everyone else's way. */
  lemma ConflictOnOthers(s: State, c: nat, i: nat)
    requires Inv(s) && c < |s.kids| && TestingNow(s.kids[c]) && i < |s.locks| && !Mine(c, s.locks[i])
    ensures Conflict(s.table, c, s.locks[i].mode, s.locks[i].range)
  {
    var e := s.locks[i];
    if s.parent.Killing? || s.parent.Finished? {
      AllTested(s);
    }
    assert e.child < |s.kids| && Done(s, s.kids[e.child]) == |s.locks|;
    assert HoldsAll(s.table, e.child, e.range);
    assert ConflictAt(s.table, c, e.mode, e.range, e.child, e.range.start);
  }

  /** Taking a lock one may have keeps every lock justified and every owner's locks in place. */
  lemma TakingKeepsTable(s: State, c: nat, i: nat, pc: Pc)
    requires Justified(s) && HoldsOwn(s) && c < |s.kids| <= s.n && i < |s.locks| && Mine(c, s.locks[i])
    requires Done(s, pc) <= Done(s, s.kids[c]) || (Done(s, pc) == i + 1 && Done(s, s.kids[c]) == i)
    ensures var t := To(s, c, pc).(table := Locked(s.table, c, s.locks[i].mode, s.locks[i].range));
      Justified(t) && HoldsOwn(t)
  {}

  /** A move that leaves the table alone. */
  lemma MovingKeepsTable(s: State, c: nat, pc: Pc)
    requires Justified(s) && HoldsOwn(s) && c < |s.kids|
    requires Done(s, pc) <= Done(s, s.kids[c]) ||
             (s.kids[c].Locking? && Done(s, pc) <= s.kids[c].next + 1 <= |s.locks| &&
              s.locks[s.kids[c].next].child != c)
    ensures Justified(To(s, c, pc)) && HoldsOwn(To(s, c, pc))
  {}

  ghost predicate TableInv(s: State) { Justified(s) && HoldsOwn(s) && Faultless(s) }

  lemma LockingKeepsTable(s: State, c: nat)
    requires Inv(s) && c < |s.kids| && s.kids[c].Locking?
    ensures TableInv(KidStep(s, c).value)
  {
    var i := s.kids[c].next;
    if i < |s.locks| && s.locks[i].child == c {
      OwnLockKeepsTable(s, c, i);
    } else {
      var pc := if i < |s.locks| then Locking(i + 1) else NotifyReady;
      assert KidStep(s, c).value == To(s, c, pc);
      MovingKeepsTable(s, c, pc);
      NoFault(s, c, pc);
    }
  }

  lemma NoFault(s: State, c: nat, pc: Pc)
    requires Faultless(s) && c < |s.kids| && !pc.Failed? && !pc.Asking?
    ensures forall table :: Faultless(To(s, c, pc).(table := table))
  {}

  lemma OwnLockKeepsTable(s: State, c: nat, i: nat)
    requires Inv(s) && c < |s.kids| && s.kids[c] == Locking(i) && i < |s.locks| && s.locks[i].child == c
    ensures TableInv(KidStep(s, c).value)
  {
    NoConflictOnMine(s, c, i);
    OwnLockStep(s, c, i);
    TakingKeepsTable(s, c, i, Locking(i + 1));
    NoFault(s, c, Locking(i + 1));
  }

  lemma OwnLockStep(s: State, c: nat, i: nat)
    requires c < |s.kids| && s.kids[c] == Locking(i) && i < |s.locks| && s.locks[i].child == c
    requires !Conflict(s.table, c, s.locks[i].mode, s.locks[i].range)
    ensures var e := s.locks[i];
      KidStep(s, c) == Some(To(s, c, Locking(i + 1)).(table := Locked(s.table, c, e.mode, e.range)))
  {}

  lemma TestingKeepsTable(s: State, c: nat)
    requires Inv(s) && c < |s.kids| && s.kids[c].Testing?
    ensures TableInv(KidStep(s, c).value)
  {
    var i := s.kids[c].next;
    if i >= |s.locks| {
      MovingKeepsTable(s, c, NotifyTested);
    } else if Mine(c, s.locks[i]) {
      NoConflictOnMine(s, c, i);
      TakingKeepsTable(s, c, i, Testing(i + 1));
    } else {
      ConflictOnOthers(s, c, i);
      MovingKeepsTable(s, c, Asking(i));
    }
  }

  lemma AskingKeepsTable(s: State, c: nat)
    requires Inv(s) && c < |s.kids| && s.kids[c].Asking?
    ensures TableInv(KidStep(s, c).value)
  {
    var i := s.kids[c].next;
    ConflictOnOthers(s, c, i);
    MovingKeepsTable(s, c, Testing(i + 1));
  }

  /** Steps that change neither the locks nor how many of them a child must hold. */
  lemma OtherKeepsTable(s: State, t: State)
    requires TableInv(s) && t.table == s.table && t.locks == s.locks && t.n == s.n
    requires |s.kids| <= |t.kids| <= t.n
    requires forall c | 0 <= c < |s.kids| :: !t.kids[c].Failed? && (t.kids[c] == s.kids[c] ||
               (!t.kids[c].Asking? && Done(t, t.kids[c]) <= Done(s, s.kids[c])))
    requires forall c | |s.kids| <= c < |t.kids| :: t.kids[c] == Locking(0)
    ensures TableInv(t)
  {}

  lemma DroppingKeepsTable(s: State, c: nat)
    requires TableInv(s) && c < |s.kids|
    ensures TableInv(To(s, c, Exited).(table := Dropped(s.table, c)))
  {}

  lemma KidKeepsTable(s: State, c: nat)
    requires Inv(s) && c < |s.kids| && KidStep(s, c).Some?
    ensures TableInv(KidStep(s, c).value)
  {
    match s.kids[c]
    case Locking(_) => LockingKeepsTable(s, c);
    case Testing(_) => TestingKeepsTable(s, c);
    case Asking(_) => AskingKeepsTable(s, c);
    case NotifyReady => OtherKeepsTable(s, KidStep(s, c).value);
    case AwaitDone => OtherKeepsTable(s, KidStep(s, c).value);
    case NotifyTested => OtherKeepsTable(s, KidStep(s, c).value);
  }

  lemma StepKeepsTable(s: State, e: Event)
    requires Inv(s) && Step(s, e).Some?
    ensures TableInv(Step(s, e).value)
  {
    match e
    case Kid(c) => KidKeepsTable(s, c);
    case Parent => OtherKeepsTable(s, Step(s, e).value);
    case TouchTestDone => OtherKeepsTable(s, Step(s, e).value);
    case Interrupt(c) => DroppingKeepsTable(s, c);
  }

  lemma StepKeepsConstants(s: State, e: Event)
    requires Step(s, e).Some?
    ensures Step(s, e).value.locks == s.locks && Step(s, e).value.n == s.n
  {
  }

  lemma StepKeepsInv(s: State, e: Event)
    requires Inv(s) && Step(s, e).Some?
    ensures Inv(Step(s, e).value)
  {
    StepKeepsSetup(s, e);
    StepKeepsConservation(s, e);
    StepKeepsTable(s, e);
    StepKeepsConstants(s, e);
  }

  lemma Reachable(locks: seq<Entry>, n: nat, events: seq<Event>)
    requires WellFormed(locks, n) && Compatible(locks, n)
    ensures var r := Exec(Step, Init(locks, n), events); r.Some? ==> Inv(r.value)
  {
    forall s, e | Inv(s) && Step(s, e).Some? ensures Inv(Step(s, e).value) {
      StepKeepsInv(s, e);
    }
    assert TestedKids(Init(locks, n)) == {};
    Invariance(Step, Inv, Init(locks, n), events);
  }

  lemma ReachableProtocol(locks: seq<Entry>, n: nat, events: seq<Event>)
    ensures var r := Exec(Step, Init(locks, n), events); r.Some? ==> Protocol(r.value)
  {
    forall s, e | Protocol(s) && Step(s, e).Some? ensures Protocol(Step(s, e).value) {
      StepKeepsSetup(s, e);
      StepKeepsConservation(s, e);
    }
    assert TestedKids(Init(locks, n)) == {};
    Invariance(Step, Protocol, Init(locks, n), events);
  }

  /** Whatever the list and the verdicts: no child gives up its locks on a signal before all children
      have tested all locks; events on the second eventfd are neither lost nor made up. */
  lemma LocksOutliveTests(locks: seq<Entry>, n: nat, events: seq<Event>)
    requires Exec(Step, Init(locks, n), events).Some?
    ensures var s := Exec(Step, Init(locks, n), events).value;
      && ((exists c :: 0 <= c < |s.kids| && s.kids[c].Exited?) ==>
            |s.kids| == s.n && forall c | 0 <= c < |s.kids| :: Tested(s.kids[c]))
      && (s.parent.AwaitTested? ==> |TestedKids(s)| == s.count + s.efd2)
  {
    ReachableProtocol(locks, n, events);
    var s := Exec(Step, Init(locks, n), events).value;
    if exists c :: 0 <= c < |s.kids| && s.kids[c].Exited? {
      AllTested(s);
    }
  }
}
