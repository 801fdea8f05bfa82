/** Runs of fileio/filelock2.c end. */
module FileLock2Ends {
  import opened Runs
  import opened ByteLocks
  import opened FileLock2

  function Left1(pc: Pc1): nat {
    match pc
    case NotForked1 => 20
    case Lock1 => 10
    case NotifyReady1 => 8
    case AwaitDone1 => 6
    case Test1 => 5
    case Unlock1 => 4
    case NotifyTested1 => 3
    case Pausing1 => 1
    case _ => 0
  }

  function Left2(pc: Pc2): nat {
    match pc
    case NotForked2 => 20
    case NotifyReady2 => 10
    case Lock2 => 8
    case CheckDone2 => 7
    case Test2 => 6
    case NotifyTested2 => 3
    case Pausing2 => 1
    case _ => 0
  }

  function LeftOfParent(p: ParentPc): nat {
    match p
    case Fork1 => 8
    case AwaitReady1 => 7
    case Fork2 => 6
    case AwaitReady2 => 5
    case Ready => 4
    case AwaitTested => 3
    case Kill1 => 2
    case Kill2 => 1
    case Finished => 0
  }

  function Rank(s: State): nat {
    Left1(s.c1) + Left2(s.c2) + LeftOfParent(s.parent) + s.efd1 + s.efd2
    + (if s.ckptDone then 0 else 1) + (if s.testDone then 0 else 1)
  }

  lemma ParentLowersRank(s: State)
    requires Forks(s) && ParentStep(s).Some?
    ensures Rank(ParentStep(s).value) < Rank(s)
  {}

  lemma StepLowersRank(s: State, e: Event)
    requires Inv(s) && Step(s, e).Some?
    ensures Rank(Step(s, e).value) < Rank(s)
  {
    match e
    case Parent => ParentLowersRank(s);
    case Child1 =>
    case Child2 =>
    case TouchCkptDone =>
    case TouchTestDone =>
    case Interrupt(k) =>
  }

  ghost predicate Ended(s: State) { s.parent.Finished? && s.c1.Exited1? && s.c2.Exited2? }

  /** Child 1 can go on unless it has to wait for `test-done` or for its signal. */
  lemma Child1GoesOn(s: State)
    requires Inv(s) && !s.c1.NotForked1? && !s.c1.Pausing1? && !s.c1.Exited1? && (s.c1.AwaitDone1? ==> s.testDone)
    ensures Child1Step(s).Some?
  {
    WhoConflicts(s);
  }

  /** Child 2 can go on once child 1 has given up the range. */
  lemma Child2GoesOn(s: State)
    requires Sound(s) && !s.c2.NotForked2? && !s.c2.Pausing2? && !s.c2.Exited2? && (s.c2.Lock2? ==> Unlocked1(s.c1))
    ensures Child2Step(s).Some?
  {
    WhoConflicts(s);
  }

  /** As long as nothing has failed and not all has ended, something can happen. */
  lemma SomeoneMoves(s: State) returns (e: Event)
    requires Sound(s) && !Ended(s)
    ensures Step(s, e).Some?
  {
    if !s.testDone {
      e := TouchTestDone;
    } else if s.parent.Finished? {
      e := if s.c1.Exited1? then Interrupt(2) else Interrupt(1);
    } else if ParentStep(s).Some? {
      e := Parent;
    } else if !s.c1.Pausing1? {
      e := Child1;
      Child1GoesOn(s);
    } else {
      e := Child2;
      Child2GoesOn(s);
    }
  }

  lemma RunsAreBounded(r: Range, events: seq<Event>)
    requires r.len > 0 && Exec(Step, Init(r), events).Some?
    ensures |events| <= 50
  {
    forall s, e | Inv(s) && Step(s, e).Some? ensures Inv(Step(s, e).value) && Rank(Step(s, e).value) < Rank(s) {
      StepKeepsInv(s, e);
      StepLowersRank(s, e);
    }
    RunLength(Step, Inv, Rank, Init(r), events);
  }

  /** Every run is bounded.  If it makes `checkpoint-done` before `test-done`, it can only stop with the
      parent finished and both children ended by its signals. */
  lemma EveryRunEnds(r: Range, events: seq<Event>)
    requires r.len > 0 && Exec(Step, Init(r), events).Some?
    ensures |events| <= 50
    ensures var s := Exec(Step, Init(r), events).value;
      InOrder(false, Markers(events)) && (forall e :: Step(s, e) == None) ==> Ended(s)
  {
    RunsAreBounded(r, events);
    if InOrder(false, Markers(events)) {
      OrderedRunIsSound(Init(r), events);
      var s := Exec(Step, Init(r), events).value;
      if !Ended(s) {
        var e := SomeoneMoves(s);
      }
    }
  }
}
