/** What the tests of fileio/filelock2.c find out if a restart leaves the range to both children.

    The states here are any states, as a restart that mixes up the locks may leave them.
 */
module FileLock2Verdict {
  import opened Runs
  import opened ByteLocks
  import opened FileLock2

  ghost predicate Forked(s: State) { !s.parent.Fork1? && !s.parent.AwaitReady1? && !s.parent.Fork2? }

  /** Child 1 waits for its test or has failed it. */
  predicate Untested1(pc: Pc1) { pc.AwaitDone1? || pc.Test1? || pc.Failed1? || pc.Exited1? }

  /** Child 2 holds a byte of the range, or has stopped; as long as it holds it child 1 has not passed. */
  ghost predicate Overtaken(s: State, b: nat) {
    && Forked(s) && s.range.Has(b)
    && (if Holds2(s.c2) then (2, b) in s.table && Untested1(s.c1) else s.c2.Failed2? || s.c2.Exited2?)
  }

  lemma StepKeepsOvertaken(s: State, e: Event, b: nat)
    requires Overtaken(s, b) && Step(s, e).Some?
    ensures Overtaken(Step(s, e).value, b)
  {
    StepKeepsRange(s, e);
    match e
    case Child1 => assert Holds2(s.c2) ==> ConflictAt(s.table, 1, Write, s.range, 2, b);
    case Child2 =>
    case Parent =>
    case TouchCkptDone =>
    case TouchTestDone =>
    case Interrupt(k) =>
  }

  /** If child 2 has got a byte of the range before child 1 has tested it, child 1 does not pass its test in
      any run as long as child 2 holds that byte. */
  lemma Child1Notices(s: State, b: nat, events: seq<Event>)
    requires Forked(s) && s.range.Has(b) && (2, b) in s.table && Holds2(s.c2)
    requires s.c1.AwaitDone1? || s.c1.Test1?
    requires Exec(Step, s, events).Some?
    ensures var t := Exec(Step, s, events).value;
      Holds2(t.c2) ==> !t.c1.Unlock1? && !t.c1.NotifyTested1? && !t.c1.Pausing1?
  {
    forall s, e | Overtaken(s, b) && Step(s, e).Some? ensures Overtaken(Step(s, e).value, b) {
      StepKeepsOvertaken(s, e, b);
    }
    Invariance(Step, s => Overtaken(s, b), s, events);
  }

  /** The test itself: it fails child 1 at once. */
  lemma Child1Fails(s: State, b: nat)
    requires s.c1.Test1? && s.range.Has(b) && (2, b) in s.table
    ensures Step(s, Child1).Some? && Step(s, Child1).value.c1.Failed1?
  {
    assert ConflictAt(s.table, 1, Write, s.range, 2, b);
  }

  predicate Untested2(pc: Pc2) { pc.Lock2? || pc.CheckDone2? || pc.Test2? || pc.Failed2? || pc.Exited2? }

  /** Child 1 still holds a byte of the range; as long as it waits for `test-done` child 2 has not passed. */
  ghost predicate StillHeld(s: State, b: nat) {
    && Forked(s) && s.range.Has(b)
    && (s.c1.AwaitDone1? ==> (1, b) in s.table && Untested2(s.c2))
    && !s.c1.NotForked1? && !s.c1.Lock1? && !s.c1.NotifyReady1?
  }

  lemma StepKeepsStillHeld(s: State, e: Event, b: nat)
    requires StillHeld(s, b) && Step(s, e).Some?
    ensures StillHeld(Step(s, e).value, b)
  {
    StepKeepsRange(s, e);
    match e
    case Child1 =>
    case Child2 => assert s.c1.AwaitDone1? ==> ConflictAt(s.table, 2, Write, s.range, 1, b);
    case Parent =>
    case TouchCkptDone =>
    case TouchTestDone =>
    case Interrupt(k) =>
  }

  /** If a restart lets child 2 go on although child 1 holds a byte of the range, child 2 does not pass its
      test in any run as long as child 1 waits. */
  lemma Child2Notices(s: State, b: nat, events: seq<Event>)
    requires Forked(s) && s.range.Has(b) && (1, b) in s.table && s.c1.AwaitDone1?
    requires s.c2.Lock2? || s.c2.CheckDone2? || s.c2.Test2?
    requires Exec(Step, s, events).Some?
    ensures var t := Exec(Step, s, events).value;
      t.c1.AwaitDone1? ==> !t.c2.NotifyTested2? && !t.c2.Pausing2?
  {
    forall s, e | StillHeld(s, b) && Step(s, e).Some? ensures StillHeld(Step(s, e).value, b) {
      StepKeepsStillHeld(s, e, b);
    }
    Invariance(Step, s => StillHeld(s, b), s, events);
  }
}
