/** What fileio/filelock1.c has set up at the checkpoint, and what a child finds out about any table of
    locks that a restart may leave behind. */
module FileLock1Verdict {
  import opened Runs
  import opened ByteLocks
  import opened FileLock1

  // ---------------------------------------------------------------- the table at the checkpoint

  /** How a process holds a byte. */
  function Held(t: Table, c: nat, b: nat): Option<Mode> { if (c, b) in t then Some(t[(c, b)]) else None }

  /** The mode of the last of the first `k` entries that gives byte `b` to child `c`. */
  function ModeOf(locks: seq<Entry>, c: nat, b: nat, k: nat): Option<Mode>
    requires k <= |locks|
  {
    if k == 0 then None
    else if locks[k - 1].child == c && locks[k - 1].range.Has(b) then Some(locks[k - 1].mode)
    else ModeOf(locks, c, b, k - 1)
  }

  /** What child `c` holds is what its first `k` entries say. */
  ghost predicate HoldsList(t: Table, locks: seq<Entry>, c: nat, k: nat)
    requires k <= |locks|
  {
    forall b: nat :: Held(t, c, b) == ModeOf(locks, c, b, k)
  }

  ghost predicate Listed(s: State) {
    forall c | 0 <= c < |s.kids| :: HoldsList(s.table, s.locks, c, Done(s, s.kids[c]))
  }

  /** One more entry has been locked, or skipped because it is somebody else's. */
  lemma NextKeepsList(t: Table, u: Table, locks: seq<Entry>, c: nat, i: nat)
    requires i < |locks| && HoldsList(t, locks, c, i)
    requires u == if locks[i].child == c then Locked(t, c, locks[i].mode, locks[i].range) else t
    ensures HoldsList(u, locks, c, i + 1)
  {
    forall b: nat ensures Held(u, c, b) == ModeOf(locks, c, b, i + 1) {
      assert Held(t, c, b) == ModeOf(locks, c, b, i);
    }
  }

  /** What a child holds does not depend on what others lock. */
  lemma OthersKeepList(t: Table, locks: seq<Entry>, c: nat, d: nat, m: Mode, r: Range, k: nat)
    requires c != d && k <= |locks| && HoldsList(t, locks, c, k)
    ensures HoldsList(Locked(t, d, m, r), locks, c, k)
  {
    forall b: nat ensures Held(Locked(t, d, m, r), c, b) == ModeOf(locks, c, b, k) {
      assert Held(t, c, b) == ModeOf(locks, c, b, k);
    }
  }

  /** Child `c` deals with entry `i`. */
  lemma EntryKeepsListed(s: State, t: State, c: nat, i: nat)
    requires Listed(s) && c < |s.kids| && s.kids[c] == Locking(i) && i < |s.locks|
    requires var e := s.locks[i];
      t == To(s, c, Locking(i + 1)).(table := if e.child == c then Locked(s.table, c, e.mode, e.range) else s.table)
    ensures Listed(t)
  {
    var e := s.locks[i];
    forall d | 0 <= d < |t.kids| ensures HoldsList(t.table, t.locks, d, Done(t, t.kids[d])) {
      assert HoldsList(s.table, s.locks, d, Done(s, s.kids[d]));
      if d == c {
        NextKeepsList(s.table, t.table, s.locks, c, i);
      } else if e.child == c {
        OthersKeepList(s.table, s.locks, d, c, e.mode, e.range, Done(s, s.kids[d]));
      }
    }
  }

  lemma KidKeepsListed(s: State, c: nat)
    requires Inv(s) && Listed(s) && !s.testDone && c < |s.kids| && KidStep(s, c).Some?
    ensures Listed(KidStep(s, c).value)
  {
    assert LockingStill(s.kids[c]);
    if s.kids[c].Locking? && s.kids[c].next < |s.locks| {
      var i := s.kids[c].next;
      if s.locks[i].child == c {
        NoConflictOnMine(s, c, i);
        OwnLockStep(s, c, i);
      }
      EntryKeepsListed(s, KidStep(s, c).value, c, i);
    } else {
      SameKeepsListed(s, KidStep(s, c).value);
    }
  }

  lemma SameKeepsListed(s: State, t: State)
    requires Listed(s) && t.table == s.table && t.locks == s.locks && |t.kids| == |s.kids|
    requires forall d | 0 <= d < |s.kids| :: Done(t, t.kids[d]) == Done(s, s.kids[d])
    ensures Listed(t)
  {
    forall d | 0 <= d < |t.kids| ensures HoldsList(t.table, t.locks, d, Done(t, t.kids[d])) {
      assert HoldsList(s.table, s.locks, d, Done(s, s.kids[d]));
    }
  }

  /** A new child holds nothing. */
  lemma ForkKeepsListed(s: State)
    requires Justified(s) && Listed(s) && ParentStep(s).Some?
    ensures Listed(ParentStep(s).value)
  {
    var t := ParentStep(s).value;
    forall d | 0 <= d < |t.kids| ensures HoldsList(t.table, t.locks, d, Done(t, t.kids[d])) {
      if d < |s.kids| {
        assert HoldsList(s.table, s.locks, d, Done(s, s.kids[d]));
      }
    }
  }

  /** Until `test-done` the table follows the list. */
  ghost predicate Following(s: State) { Inv(s) && (!s.testDone ==> Listed(s)) }

  lemma StepKeepsListed(s: State, e: Event)
    requires Inv(s) && Listed(s) && !s.testDone && Step(s, e).Some? && !Step(s, e).value.testDone
    ensures Listed(Step(s, e).value)
  {
    match e
    case Kid(c) => KidKeepsListed(s, c);
    case Parent => ForkKeepsListed(s);
    case Interrupt(c) => AllTested(s);
  }

  lemma StepKeepsFollowing(s: State, e: Event)
    requires Following(s) && Step(s, e).Some?
    ensures Following(Step(s, e).value)
  {
    StepKeepsInv(s, e);
    if !s.testDone && !Step(s, e).value.testDone {
      StepKeepsListed(s, e);
    }
  }

  lemma {:induction false} StaysFollowing(s: State, events: seq<Event>)
    requires Following(s) && Exec(Step, s, events).Some?
    ensures Following(Exec(Step, s, events).value)
    ensures Exec(Step, s, events).value.locks == s.locks && Exec(Step, s, events).value.n == s.n
    decreases |events|
  {
    if events != [] {
      StepKeepsFollowing(s, events[0]);
      StepKeepsConstants(s, events[0]);
      StaysFollowing(Step(s, events[0]).value, events[1..]);
    }
  }

  /** From the moment the parent announces readiness until `test-done`, the table is the list: every child
      holds exactly the bytes of its own entries, in the mode of its last entry for the byte. */
  lemma TableIsList(locks: seq<Entry>, n: nat, events: seq<Event>)
    requires WellFormed(locks, n) && Compatible(locks, n) && Exec(Step, Init(locks, n), events).Some?
    ensures var s := Exec(Step, Init(locks, n), events).value;
      !s.testDone && !s.parent.Forking? && !s.parent.AwaitReady? ==>
        && (forall c: nat, b: nat | c < n :: Held(s.table, c, b) == ModeOf(locks, c, b, |locks|))
        && (forall c: nat, b: nat | c >= n :: Held(s.table, c, b) == None)
  {
    Reachable(locks, n, []);
    assert Exec(Step, Init(locks, n), []) == Some(Init(locks, n));
    StaysFollowing(Init(locks, n), events);
    var s := Exec(Step, Init(locks, n), events).value;
    if !s.testDone && !s.parent.Forking? && !s.parent.AwaitReady? {
      forall c: nat, b: nat | c < n ensures Held(s.table, c, b) == ModeOf(locks, c, b, |locks|) {
        assert s.kids[c].AwaitDone?;
        assert HoldsList(s.table, s.locks, c, Done(s, s.kids[c]));
      }
    }
  }

  // ---------------------------------------------------------------- what a child finds out

  /** Nobody but child `c` has changed its locks. */
  ghost predicate OthersSame(t: Table, u: Table, c: nat) {
    && (forall q: nat, b: nat | q != c :: (q, b) in t <==> (q, b) in u)
    && (forall q: nat, b: nat | q != c && (q, b) in t :: t[(q, b)] == u[(q, b)])
  }

  lemma SameConflicts(t: Table, u: Table, c: nat, m: Mode, r: Range)
    requires OthersSame(t, u, c)
    ensures Conflict(t, c, m, r) <==> Conflict(u, c, m, r)
  {
    if q: nat, b: nat :| ConflictAt(t, c, m, r, q, b) {
      assert ConflictAt(u, c, m, r, q, b);
    }
    if q: nat, b: nat :| ConflictAt(u, c, m, r, q, b) {
      assert ConflictAt(t, c, m, r, q, b);
    }
  }

  /** Entry `e` is in the table as child `c` expects it: in nobody's way if `c` may have the lock, held by
      somebody else if not. */
  ghost predicate AsExpected(t: Table, c: nat, e: Entry) { Mine(c, e) <==> !Conflict(t, c, e.mode, e.range) }

  ghost predicate OnlyKid(events: seq<Event>, c: nat) { forall k | 0 <= k < |events| :: events[k] == Kid(c) }

  /** One entry is tested. */
  lemma TestsOne(s: State, c: nat) returns (events: seq<Event>, t: State)
    requires c < |s.kids| && s.kids[c].Testing? && s.kids[c].next < |s.locks|
    ensures OnlyKid(events, c) && Exec(Step, s, events) == Some(t)
    ensures t.locks == s.locks && |t.kids| == |s.kids| && OthersSame(s.table, t.table, c)
    ensures t.kids[c] == if AsExpected(s.table, c, s.locks[s.kids[c].next]) then Testing(s.kids[c].next + 1) else Failed
  {
    var e := s.locks[s.kids[c].next];
    if Conflict(s.table, c, e.mode, e.range) {
      var r := To(s, c, Asking(s.kids[c].next));
      t := KidStep(r, c).value;
      events := [Kid(c), Kid(c)];
      assert events[1..] == [Kid(c)] && [Kid(c)][1..] == [];
      assert Exec(Step, r, [Kid(c)]) == Some(t);
    } else {
      t := KidStep(s, c).value;
      events := [Kid(c)];
      assert events[1..] == [];
    }
  }

  /** From entry `k` on everything is as expected. */
  ghost predicate RestAsExpected(t: Table, locks: seq<Entry>, c: nat, k: nat) {
    forall i | k <= i < |locks| :: AsExpected(t, c, locks[i])
  }

  /** The rest of the list is tested, or the child fails. */
  lemma {:induction false} TestsRest(s: State, c: nat) returns (events: seq<Event>, t: State)
    requires c < |s.kids| && s.kids[c].Testing? && s.kids[c].next <= |s.locks|
    ensures OnlyKid(events, c) && Exec(Step, s, events) == Some(t) && |t.kids| == |s.kids|
    ensures t.kids[c] == if RestAsExpected(s.table, s.locks, c, s.kids[c].next) then NotifyTested else Failed
    decreases |s.locks| - s.kids[c].next
  {
    var i := s.kids[c].next;
    if i == |s.locks| {
      events, t := [Kid(c)], To(s, c, NotifyTested);
      assert events[1..] == [];
      assert KidStep(s, c) == Some(t);
    } else {
      var first, r := TestsOne(s, c);
      if r.kids[c].Failed? {
        events, t := first, r;
      } else {
        var rest;
        rest, t := TestsRest(r, c);
        ExecAppend(Step, s, first, rest);
        events := first + rest;
        SameExpectations(s.table, r.table, s.locks, c, i + 1);
      }
    }
  }

  lemma SameExpectations(t: Table, u: Table, locks: seq<Entry>, c: nat, k: nat)
    requires OthersSame(t, u, c)
    ensures RestAsExpected(t, locks, c, k) <==> RestAsExpected(u, locks, c, k)
  {
    forall i | k <= i < |locks| ensures AsExpected(t, c, locks[i]) <==> AsExpected(u, c, locks[i]) {
      SameConflicts(t, u, c, locks[i].mode, locks[i].range);
    }
  }

  /** Whatever the table is, and whatever the list: a child that tests it undisturbed passes exactly if
      every entry is in the table as it expects.  So a foreign write lock of which nothing is left is
      noticed, and so is a foreign lock in the way of one's own; a lost lock of one's own is not. */
  lemma PassesExactlyIf(s: State, c: nat) returns (events: seq<Event>, t: State)
    requires c < |s.kids| && s.kids[c] == Testing(0)
    ensures OnlyKid(events, c) && Exec(Step, s, events) == Some(t) && |t.kids| == |s.kids|
    ensures t.kids[c] == NotifyTested || t.kids[c] == Failed
    ensures t.kids[c] == NotifyTested <==> forall i | 0 <= i < |s.locks| :: AsExpected(s.table, c, s.locks[i])
  {
    events, t := TestsRest(s, c);
  }

  /** A child whose own locks are lost, and nobody else's, does not notice it. */
  lemma OwnLossIsMissed(s: State, c: nat) returns (events: seq<Event>, t: State)
    requires c < |s.kids| && s.kids[c] == Testing(0)
    requires forall i | 0 <= i < |s.locks| :: AsExpected(s.table, c, s.locks[i])
    ensures var lost := s.(table := Dropped(s.table, c));
      OnlyKid(events, c) && Exec(Step, lost, events) == Some(t) && |t.kids| == |s.kids| && t.kids[c] == NotifyTested
  {
    var lost := s.(table := Dropped(s.table, c));
    forall i | 0 <= i < |s.locks| ensures AsExpected(lost.table, c, s.locks[i]) {
      assert AsExpected(s.table, c, s.locks[i]);
      SameConflicts(s.table, lost.table, c, s.locks[i].mode, s.locks[i].range);
    }
    events, t := PassesExactlyIf(lost, c);
  }

  /** A child notices that nothing is left of a write lock of somebody else. */
  lemma ForeignLossIsNoticed(s: State, c: nat, i: nat) returns (events: seq<Event>, t: State)
    requires c < |s.kids| && s.kids[c] == Testing(0) && i < |s.locks| && !Mine(c, s.locks[i])
    requires forall q: nat, b: nat | s.locks[i].range.Has(b) && q != c :: (q, b) !in s.table
    ensures OnlyKid(events, c) && Exec(Step, s, events) == Some(t) && |t.kids| == |s.kids| && t.kids[c] == Failed
  {
    assert !Conflict(s.table, c, s.locks[i].mode, s.locks[i].range);
    assert !AsExpected(s.table, c, s.locks[i]);
    events, t := PassesExactlyIf(s, c);
  }

  // ---------------------------------------------------------------- whoever is gone holds nothing

  /** Locks are held by children that are there and have neither failed nor ended. */
  ghost predicate GoneHoldNothing(s: State) {
    forall c: nat, b: nat | (c, b) in s.table :: c < |s.kids| && !s.kids[c].Failed? && !s.kids[c].Exited?
  }

  lemma StepKeepsGone(s: State, e: Event)
    requires GoneHoldNothing(s) && Step(s, e).Some?
    ensures GoneHoldNothing(Step(s, e).value)
  {
    match e
    case Kid(c) => KidKeepsGone(s, c);
    case Parent =>
    case TouchTestDone =>
    case Interrupt(c) =>
  }

  lemma KidKeepsGone(s: State, c: nat)
    requires GoneHoldNothing(s) && c < |s.kids| && KidStep(s, c).Some?
    ensures GoneHoldNothing(KidStep(s, c).value)
  {
    match s.kids[c]
    case Locking(i) =>
    case NotifyReady =>
    case AwaitDone =>
    case Testing(i) =>
    case Asking(i) =>
    case NotifyTested =>
  }

  /** In every run, for any list: a child that has failed or ended has given up its locks. */
  lemma LocksEndWithTheChild(locks: seq<Entry>, n: nat, events: seq<Event>)
    requires Exec(Step, Init(locks, n), events).Some?
    ensures var s := Exec(Step, Init(locks, n), events).value;
      forall c: nat, b: nat | c < |s.kids| && (s.kids[c].Failed? || s.kids[c].Exited?) :: Held(s.table, c, b) == None
  {
    forall s, e | GoneHoldNothing(s) && Step(s, e).Some? ensures GoneHoldNothing(Step(s, e).value) {
      StepKeepsGone(s, e);
    }
    Invariance(Step, GoneHoldNothing, Init(locks, n), events);
  }
}
