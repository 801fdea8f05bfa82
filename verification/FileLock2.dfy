/** fileio/filelock2.c: child 1 holds a write lock, child 2 sleeps in F_SETLKW on the same range.

    One step is one fcntl() call, one event, one fork, one marker access or one signal.  Whoever
    runs the test makes `checkpoint-done` and `test-done`, each once, at any time and in any order;
    fileio/run-fcntltests.sh makes them in that order.
 */
module FileLock2 {
  import opened Runs
  import opened ByteLocks

  datatype Pc1 =
    | NotForked1 | Lock1 | NotifyReady1 | AwaitDone1 | Test1 | Unlock1 | NotifyTested1 | Pausing1 | Exited1 | Failed1

  datatype Pc2 =
    | NotForked2 | NotifyReady2 | Lock2 | CheckDone2 | Test2 | NotifyTested2 | Pausing2 | Exited2 | Failed2

  datatype ParentPc = Fork1 | AwaitReady1 | Fork2 | AwaitReady2 | Ready | AwaitTested | Kill1 | Kill2 | Finished

  datatype State = State(
    range: Range, table: Table, c1: Pc1, c2: Pc2, parent: ParentPc,
    efd1: nat, efd2: nat, count: nat, ckptDone: bool, testDone: bool, signalled: set<nat>)

  datatype Event = Child1 | Child2 | Parent | TouchCkptDone | TouchTestDone | Interrupt(kid: nat)

  function Init(r: Range): State {
    State(r, map[], NotForked1, NotForked2, Fork1, 0, 0, 0, false, false, {})
  }

  ghost function Child1Step(s: State): Option<State> {
    match s.c1
    case Lock1 =>                                   // F_SETLKW
      if Conflict(s.table, 1, Write, s.range) then None
      else Some(s.(c1 := NotifyReady1, table := Locked(s.table, 1, Write, s.range)))
    case NotifyReady1 => Some(s.(c1 := AwaitDone1, efd1 := s.efd1 + 1))
    case AwaitDone1 => if s.testDone then Some(s.(c1 := Test1)) else None
    case Test1 =>                                   // F_SETLK; a conflict ends in an error either way
      if Conflict(s.table, 1, Write, s.range) then Some(s.(c1 := Failed1, table := Dropped(s.table, 1)))
      else Some(s.(c1 := Unlock1, table := Locked(s.table, 1, Write, s.range)))
    case Unlock1 => Some(s.(c1 := NotifyTested1, table := Unlocked(s.table, 1, s.range)))
    case NotifyTested1 => Some(s.(c1 := Pausing1, efd2 := s.efd2 + 1))
    case _ => None
  }

  ghost function Child2Step(s: State): Option<State> {
    match s.c2
    case NotifyReady2 => Some(s.(c2 := Lock2, efd1 := s.efd1 + 1))
    case Lock2 =>
      if Conflict(s.table, 2, Write, s.range) then None
      else Some(s.(c2 := CheckDone2, table := Locked(s.table, 2, Write, s.range)))
    case CheckDone2 =>
      if s.ckptDone then Some(s.(c2 := Test2)) else Some(s.(c2 := Failed2, table := Dropped(s.table, 2)))
    case Test2 =>
      if Conflict(s.table, 2, Write, s.range) then Some(s.(c2 := Failed2, table := Dropped(s.table, 2)))
      else Some(s.(c2 := NotifyTested2, table := Locked(s.table, 2, Write, s.range)))
    case NotifyTested2 => Some(s.(c2 := Pausing2, efd2 := s.efd2 + 1))
    case _ => None
  }

  function ParentStep(s: State): Option<State> {
    match s.parent
    case Fork1 => Some(s.(parent := AwaitReady1, c1 := Lock1))
    case AwaitReady1 => if s.efd1 == 0 then None else Some(s.(parent := Fork2, efd1 := 0))
    case Fork2 => Some(s.(parent := AwaitReady2, c2 := NotifyReady2))
    case AwaitReady2 => if s.efd1 == 0 then None else Some(s.(parent := Ready, efd1 := 0))
    case Ready => Some(s.(parent := AwaitTested, count := 0))
    case AwaitTested =>
      if s.efd2 == 0 then None
      else Some(s.(efd2 := 0, count := s.count + s.efd2,
                   parent := if s.count + s.efd2 < 2 then AwaitTested else Kill1))
    case Kill1 => Some(s.(parent := Kill2, signalled := s.signalled + {1}))
    case Kill2 => Some(s.(parent := Finished, signalled := s.signalled + {2}))
    case Finished => None
  }

  ghost function Step(s: State, e: Event): Option<State> {
    match e
    case Child1 => Child1Step(s)
    case Child2 => Child2Step(s)
    case Parent => ParentStep(s)
    case TouchCkptDone => if s.ckptDone then None else Some(s.(ckptDone := true))
    case TouchTestDone => if s.testDone then None else Some(s.(testDone := true))
    case Interrupt(k) =>
      if k !in s.signalled then None
      else if k == 1 && !s.c1.Failed1? && !s.c1.Exited1? then Some(s.(c1 := Exited1, table := Dropped(s.table, 1)))
      else if k == 2 && !s.c2.Failed2? && !s.c2.Exited2? then Some(s.(c2 := Exited2, table := Dropped(s.table, 2)))
      else None
  }

  // ---------------------------------------------------------------- the invariant

  predicate Holds1(pc: Pc1) { pc.NotifyReady1? || pc.AwaitDone1? || pc.Test1? || pc.Unlock1? }

  predicate Holds2(pc: Pc2) { pc.CheckDone2? || pc.Test2? || pc.NotifyTested2? || pc.Pausing2? }

  /** Child 1 has given up the range. */
  predicate Unlocked1(pc: Pc1) { pc.NotifyTested1? || pc.Pausing1? || pc.Exited1? }

  ghost predicate TableIs(s: State) {
    && (forall p: nat, b: nat :: (p, b) in s.table <==>
          s.range.Has(b) && ((p == 1 && Holds1(s.c1)) || (p == 2 && Holds2(s.c2))))
    && forall p: nat, b: nat | (p, b) in s.table :: s.table[(p, b)] == Write
  }

  /** The parent forks child 2 only after child 1 has the range; one event answers one fork. */
  ghost predicate Forks(s: State) {
    && (s.c1.NotForked1? <==> s.parent.Fork1?)
    && (s.c2.NotForked2? <==> s.parent.Fork1? || s.parent.AwaitReady1? || s.parent.Fork2?)
    && (s.parent.AwaitReady1? ==> s.efd1 == if s.c1.Lock1? || s.c1.NotifyReady1? then 0 else 1)
    && (s.parent.Fork1? || s.parent.Fork2? ==> s.efd1 == 0)
    && (s.parent.AwaitReady2? ==> s.efd1 == if s.c2.NotifyReady2? then 0 else 1)
    && (s.parent.Fork2? || !s.c2.NotForked2? ==> !s.c1.Lock1? && !s.c1.NotifyReady1?)
    && (s.parent.Ready? || s.parent.AwaitTested? || Ending(s.parent) ==> !s.c2.NotifyReady2?)
  }

  predicate Ending(p: ParentPc) { p.Kill1? || p.Kill2? || p.Finished? }

  function Heard(s: State): nat {
    if s.parent.AwaitTested? then s.count else if Ending(s.parent) then 2 else 0
  }

  function Told(s: State): nat {
    (if s.c1.Pausing1? || s.c1.Exited1? then 1 else 0) + (if s.c2.Pausing2? || s.c2.Exited2? then 1 else 0)
  }

  /** What the children have told is what the parent has read or will read. */
  ghost predicate Told2(s: State) {
    && s.efd2 + Heard(s) == Told(s)
    && (s.signalled != {} ==> Ending(s.parent))
    && (s.c1.Exited1? || s.c2.Exited2? ==> Ending(s.parent))
    && (s.parent.AwaitTested? ==> s.count < 2)
    && (s.parent.Kill2? || s.parent.Finished? ==> 1 in s.signalled)
    && (s.parent.Finished? ==> 2 in s.signalled)
  }

  ghost predicate Stages(s: State) { Forks(s) && Told2(s) }

  ghost predicate Order(s: State) {
    && !s.c1.Failed1?
    && (Holds2(s.c2) || s.c2.Exited2? || s.c2.Failed2? ==> Unlocked1(s.c1))
    && (s.c1.Test1? || s.c1.Unlock1? || Unlocked1(s.c1) ==> s.testDone)
  }

  ghost predicate Inv(s: State) { s.range.len > 0 && TableIs(s) && Stages(s) && Order(s) }

  /** A child is in the way of the other exactly while it holds the range. */
  lemma WhoConflicts(s: State)
    requires s.range.len > 0 && TableIs(s)
    ensures Conflict(s.table, 1, Write, s.range) <==> Holds2(s.c2)
    ensures Conflict(s.table, 2, Write, s.range) <==> Holds1(s.c1)
  {
    assert Holds2(s.c2) ==> ConflictAt(s.table, 1, Write, s.range, 2, s.range.start);
    assert Holds1(s.c1) ==> ConflictAt(s.table, 2, Write, s.range, 1, s.range.start);
  }

  lemma Child1KeepsTable(s: State)
    requires s.range.len > 0 && TableIs(s) && Child1Step(s).Some? && !(s.c1.Test1? && Holds2(s.c2))
    ensures TableIs(Child1Step(s).value)
  {
    WhoConflicts(s);
  }

  lemma Child2KeepsTable(s: State)
    requires s.range.len > 0 && TableIs(s) && Child2Step(s).Some?
    ensures TableIs(Child2Step(s).value)
  {
    WhoConflicts(s);
  }

  lemma StepKeepsTable(s: State, e: Event)
    requires s.range.len > 0 && TableIs(s) && Order(s) && Stages(s) && Step(s, e).Some?
    ensures TableIs(Step(s, e).value)
  {
    match e
    case Child1 => Child1KeepsTable(s);
    case Child2 => Child2KeepsTable(s);
    case _ =>
  }

  /** What a step of child 1 does apart from the locks. */
  ghost predicate Moves1(s: State, t: State) {
    && t == s.(c1 := t.c1, table := t.table, efd1 := t.efd1, efd2 := t.efd2)
    && t.efd1 == s.efd1 + (if s.c1.NotifyReady1? then 1 else 0)
    && t.efd2 == s.efd2 + (if s.c1.NotifyTested1? then 1 else 0)
    && !s.c1.NotForked1? && !t.c1.NotForked1? && !t.c1.Lock1? && !t.c1.Exited1?
    && (t.c1.NotifyReady1? <==> s.c1.Lock1?)
    && (t.c1.Pausing1? <==> s.c1.NotifyTested1?)
    && !s.c1.Pausing1? && !s.c1.Exited1?
  }

  ghost predicate Moves2(s: State, t: State) {
    && t == s.(c2 := t.c2, table := t.table, efd1 := t.efd1, efd2 := t.efd2)
    && t.efd1 == s.efd1 + (if s.c2.NotifyReady2? then 1 else 0)
    && t.efd2 == s.efd2 + (if s.c2.NotifyTested2? then 1 else 0)
    && !s.c2.NotForked2? && !t.c2.NotForked2? && !t.c2.NotifyReady2? && !t.c2.Exited2?
    && (t.c2.Pausing2? <==> s.c2.NotifyTested2?)
    && !s.c2.Pausing2? && !s.c2.Exited2?
  }

  lemma Child1Moves(s: State)
    requires Child1Step(s).Some?
    ensures Moves1(s, Child1Step(s).value)
  {
  }

  lemma Child2Moves(s: State)
    requires Child2Step(s).Some?
    ensures Moves2(s, Child2Step(s).value)
  {
  }

  lemma ChildrenKeepForks(s: State, t: State)
    requires Forks(s) && (Moves1(s, t) || Moves2(s, t))
    ensures Forks(t)
  {
  }

  lemma ChildrenKeepTold(s: State, t: State)
    requires Told2(s) && (Moves1(s, t) || Moves2(s, t))
    ensures Told2(t)
  {
  }

  lemma ParentKeepsForks(s: State)
    requires Forks(s) && ParentStep(s).Some?
    ensures Forks(ParentStep(s).value)
  {
  }

  lemma ParentKeepsTold(s: State)
    requires Told2(s) && ParentStep(s).Some? && (Ending(s.parent) ==> !s.c1.NotForked1?)
    requires s.parent.Fork1? ==> s.c1.NotForked1?
    requires s.parent.Fork2? ==> s.c2.NotForked2?
    ensures Told2(ParentStep(s).value)
  {
    match s.parent
    case Fork1 =>
    case AwaitReady1 =>
    case Fork2 =>
    case AwaitReady2 =>
    case Ready =>
    case AwaitTested =>
    case Kill1 =>
    case Kill2 =>
  }

  lemma StepKeepsStages(s: State, e: Event)
    requires Stages(s) && Step(s, e).Some?
    ensures Stages(Step(s, e).value)
  {
    match e
    case Parent =>
      ParentKeepsForks(s);
      ParentKeepsTold(s);
    case Interrupt(k) =>
    case TouchCkptDone =>
    case TouchTestDone =>
    case Child1 =>
      Child1Moves(s);
      ChildrenKeepForks(s, Child1Step(s).value);
      ChildrenKeepTold(s, Child1Step(s).value);
    case Child2 =>
      Child2Moves(s);
      ChildrenKeepForks(s, Child2Step(s).value);
      ChildrenKeepTold(s, Child2Step(s).value);
  }

  lemma StepKeepsOrder(s: State, e: Event)
    requires s.range.len > 0 && TableIs(s) && Stages(s) && Order(s) && Step(s, e).Some?
    ensures Order(Step(s, e).value)
  {
    WhoConflicts(s);
  }

  lemma StepKeepsInv(s: State, e: Event)
    requires Inv(s) && Step(s, e).Some?
    ensures Inv(Step(s, e).value)
  {
    StepKeepsTable(s, e);
    StepKeepsStages(s, e);
    StepKeepsOrder(s, e);
    StepKeepsRange(s, e);
  }

  lemma StepKeepsRange(s: State, e: Event)
    requires Step(s, e).Some?
    ensures Step(s, e).value.range == s.range
  {
    match e
    case Child1 =>
    case Child2 =>
    case Parent =>
    case TouchCkptDone =>
    case TouchTestDone =>
    case Interrupt(k) =>
  }

  lemma Reachable(r: Range, events: seq<Event>)
    requires r.len > 0
    ensures var t := Exec(Step, Init(r), events); t.Some? ==> Inv(t.value)
  {
    forall s, e | Inv(s) && Step(s, e).Some? ensures Inv(Step(s, e).value) {
      StepKeepsInv(s, e);
    }
    Invariance(Step, Inv, Init(r), events);
  }

  // ---------------------------------------------------------------- results

  /** In every run child 2 has the range only after child 1 has given it up, and that is after
      `test-done`; child 1's own test never fails; signals go out only after both have tested. */
  lemma BlockedLockerComesSecond(r: Range, events: seq<Event>)
    requires r.len > 0 && Exec(Step, Init(r), events).Some?
    ensures var s := Exec(Step, Init(r), events).value;
      && !s.c1.Failed1?
      && (Holds2(s.c2) || s.c2.Failed2? ==> Unlocked1(s.c1) && s.testDone)
      && (s.signalled != {} ==> (s.c1.Pausing1? || s.c1.Exited1?) && (s.c2.Pausing2? || s.c2.Exited2?))
  {
    Reachable(r, events);
  }

  /** From the moment the parent announces readiness until `test-done`, child 1 holds the whole range, nobody
      else holds anything, and child 2 sleeps in F_SETLKW or is about to. */
  lemma BlockedAtCheckpoint(r: Range, events: seq<Event>)
    requires r.len > 0 && Exec(Step, Init(r), events).Some?
    ensures var s := Exec(Step, Init(r), events).value;
      !s.testDone && (s.parent.Ready? || s.parent.AwaitTested? || Ending(s.parent)) ==>
        && s.c1.AwaitDone1? && s.c2.Lock2? && Child2Step(s) == None
        && (forall p: nat, b: nat :: (p, b) in s.table <==> p == 1 && r.Has(b))
        && forall b: nat | r.Has(b) :: s.table[(1, b)] == Write
  {
    Reachable(r, events);
    RangeIsConstant(Init(r), events);
    WhoConflicts(Exec(Step, Init(r), events).value);
  }

  lemma {:induction false} RangeIsConstant(s: State, events: seq<Event>)
    requires Exec(Step, s, events).Some?
    ensures Exec(Step, s, events).value.range == s.range
    decreases |events|
  {
    if events != [] {
      StepKeepsRange(s, events[0]);
      RangeIsConstant(Step(s, events[0]).value, events[1..]);
    }
  }

  /** One more step of a run under construction. */
  lemma Then(r: Range, events: seq<Event>, s: State, e: Event, t: State) returns (more: seq<Event>)
    requires Exec(Step, Init(r), events) == Some(s) && Step(s, e) == Some(t)
    ensures more == events + [e] && Exec(Step, Init(r), more) == Some(t)
    ensures Markers(more) == Markers(events) + (if IsMarker(e) then [e] else [])
  {
    more := events + [e];
    MarkersAppend(events, e);
    ExecThen(Step, Init(r), events, e);
  }

  /** Both children are ready: child 1 holds the range, child 2 wants it. */
  lemma BothReady(r: Range) returns (events: seq<Event>, s: State)
    requires r.len > 0
    ensures Exec(Step, Init(r), events) == Some(s)
    ensures s.range == r && s.c1 == AwaitDone1 && s.c2 == Lock2 && !s.ckptDone && !s.testDone
    ensures Markers(events) == []
  {
    var s0 := Init(r);
    var s1 := s0.(parent := AwaitReady1, c1 := Lock1);
    events := Then(r, [], s0, Parent, s1);
    assert !Conflict(s1.table, 1, Write, r);
    var s2 := s1.(c1 := NotifyReady1, table := Locked(s1.table, 1, Write, r));
    events := Then(r, events, s1, Child1, s2);
    var s3 := s2.(c1 := AwaitDone1, efd1 := 1);
    events := Then(r, events, s2, Child1, s3);
    var s4 := s3.(parent := Fork2, efd1 := 0);
    events := Then(r, events, s3, Parent, s4);
    var s5 := s4.(parent := AwaitReady2, c2 := NotifyReady2);
    events := Then(r, events, s4, Parent, s5);
    s := s5.(c2 := Lock2, efd1 := 1);
    events := Then(r, events, s5, Child2, s);
  }

  lemma Child1Passes(s: State) returns (t: State)
    requires s.range.len > 0 && TableIs(s) && s.c1.Test1? && !Holds2(s.c2)
    ensures Child1Step(s) == Some(t) && t == s.(c1 := Unlock1, table := t.table)
  {
    WhoConflicts(s);
    t := Child1Step(s).value;
  }

  /** `test-done` comes first, and child 1 gives up the range. */
  lemma Child1IsDone(r: Range) returns (events: seq<Event>, s: State)
    requires r.len > 0
    ensures Exec(Step, Init(r), events) == Some(s)
    ensures s.range == r && s.c1 == NotifyTested1 && s.c2 == Lock2 && !s.ckptDone
    ensures Markers(events) == [TouchTestDone]
  {
    var s0;
    events, s0 := BothReady(r);
    var s1 := s0.(testDone := true);
    events := Then(r, events, s0, TouchTestDone, s1);
    var s2 := s1.(c1 := Test1);
    events := Then(r, events, s1, Child1, s2);
    Reachable(r, events);
    var s3 := Child1Passes(s2);
    events := Then(r, events, s2, Child1, s3);
    s := s3.(c1 := NotifyTested1, table := Unlocked(s3.table, 1, s3.range));
    events := Then(r, events, s3, Child1, s);
  }

  /** If `test-done` comes first, child 2 can find its checkpoint missing. */
  lemma DisorderFails(r: Range) returns (events: seq<Event>, s: State)
    requires r.len > 0
    ensures Exec(Step, Init(r), events) == Some(s) && s.c2.Failed2? && !s.ckptDone
    ensures Markers(events) == [TouchTestDone]
  {
    var s0;
    events, s0 := Child1IsDone(r);
    Reachable(r, events);
    WhoConflicts(s0);
    var s1 := Child2Step(s0).value;
    events := Then(r, events, s0, Child2, s1);
    s := Child2Step(s1).value;
    events := Then(r, events, s1, Child2, s);
  }

  predicate IsMarker(e: Event) { e.TouchCkptDone? || e.TouchTestDone? }

  /** The markers that a run makes, in the order in which it makes them. */
  function Markers(events: seq<Event>): seq<Event> {
    if events == [] then []
    else (if IsMarker(events[0]) then [events[0]] else []) + Markers(events[1..])
  }

  lemma {:induction false} MarkersAppend(a: seq<Event>, e: Event)
    ensures Markers(a + [e]) == Markers(a) + (if IsMarker(e) then [e] else [])
  {
    if a == [] {
      assert a + [e] == [e] && [e][1..] == [];
    } else {
      var head := if IsMarker(a[0]) then [a[0]] else [];
      var last := if IsMarker(e) then [e] else [];
      MarkersAppend(a[1..], e);
      assert (a + [e])[1..] == a[1..] + [e];
      assert Markers(a + [e]) == head + Markers(a[1..] + [e]) == head + (Markers(a[1..]) + last);
    }
  }

  /** `checkpoint-done` is there, or comes before `test-done`. */
  predicate InOrder(ckptDone: bool, markers: seq<Event>) {
    ckptDone || TouchTestDone !in markers || markers[0] == TouchCkptDone
  }

  /** Nothing fails, and `test-done` is not there without `checkpoint-done`. */
  ghost predicate Sound(s: State) { Inv(s) && !s.c2.Failed2? && (s.testDone ==> s.ckptDone) }

  lemma StepKeepsSound(s: State, e: Event)
    requires Sound(s) && Step(s, e).Some? && (e.TouchTestDone? ==> s.ckptDone)
    ensures Sound(Step(s, e).value)
  {
    StepKeepsInv(s, e);
    WhoConflicts(s);
  }

  /** A run that makes the markers in order does not fail. */
  lemma {:induction false} OrderedRunIsSound(s: State, events: seq<Event>)
    requires Sound(s) && InOrder(s.ckptDone, Markers(events)) && Exec(Step, s, events).Some?
    ensures Sound(Exec(Step, s, events).value)
    decreases |events|
  {
    if events != [] {
      var t := Step(s, events[0]).value;
      StepKeepsSound(s, events[0]);
      OrderedRunIsSound(t, events[1..]);
    }
  }

  lemma AtMostTwo(markers: seq<Event>)
    requires forall i | 0 <= i < |markers| :: IsMarker(markers[i])
    requires forall i, j | 0 <= i < j < |markers| :: markers[i] != markers[j]
    ensures |markers| <= 2
  {
    if |markers| >= 3 {
      OfThreeTwoAreEqual(markers[0], markers[1], markers[2]);
    }
  }

  lemma OfThreeTwoAreEqual(a: Event, b: Event, c: Event)
    requires IsMarker(a) && IsMarker(b) && IsMarker(c)
    ensures a == b || a == c || b == c
  {}

  /** Whatever else happens in a run, no check and no test in it can fail exactly if it makes
      `checkpoint-done` before `test-done`, or makes no `test-done`. */
  lemma SoundExactlyIfOrdered(r: Range, markers: seq<Event>)
    requires r.len > 0 && (forall i | 0 <= i < |markers| :: IsMarker(markers[i]))
    requires forall i, j | 0 <= i < j < |markers| :: markers[i] != markers[j]
    ensures InOrder(false, markers) <==>
      forall events | Markers(events) == markers :: Passes(r, events)
  {
    if InOrder(false, markers) {
      forall events | Markers(events) == markers ensures Passes(r, events) {
        if Exec(Step, Init(r), events).Some? {
          OrderedRunIsSound(Init(r), events);
        }
      }
    } else {
      AtMostTwo(markers);
      var events, s := DisorderFails(r);
      if |markers| == 2 {
        MarkersAppend(events, TouchCkptDone);
        events := Then(r, events, s, TouchCkptDone, s.(ckptDone := true));
      }
      assert markers[0] == TouchTestDone;
      assert Markers(events) == markers && !Passes(r, events);
    }
  }

  ghost predicate Passes(r: Range, events: seq<Event>) {
    var t := Exec(Step, Init(r), events);
    t.Some? ==> !t.value.c1.Failed1? && !t.value.c2.Failed2?
  }
}
