/** How checkpointed and restarted runs of a label program end, without reference to any other run. */
module LabelOutcome {
  import opened Runs
  import opened LabelProgram
  import opened LabelMeaning
  import H = Handshake
  import R = Replay

  /** A process that has ended, with its log file, is the outcome of the program: the first failing label
      decides, and without one all labels have been passed or the code has given up. */
  ghost predicate Outcome<M>(p: Program<M>, w: World<M>) {
    && (forall k: nat | FailsAt(p, k) ::
          && w.proc.opNum == k && w.proc.visits == k + 1
          && w.files.log ==
             LinesTo(p, k) + GapAt(p, k).lines + [Header(k)] + [Fail(k)] + p.closing(MemAt(p, k + 1)))
    && (forall k: nat | GivesUpAt(p, k) ::
          w.proc.opNum == k == w.proc.visits && w.files.log == LinesTo(p, k) + GapAt(p, k).lines)
    && (Succeeds(p) ==>
          var n := p.labels;
          && w.proc.opNum == n == w.proc.visits
          && w.files.log == LinesTo(p, n) + GapAt(p, n).lines + p.closing(GapAt(p, n).mem))
  }

  lemma ExitedIsOutcome<M>(p: Program<M>, w: World<M>)
    requires Coherent(p, w) && w.proc.pc == Exited
    ensures Outcome(p, w)
  {
    assert w.files.log == Meaning(p).lines;
    forall k: nat | FailsAt(p, k)
      ensures Meaning(p) == Ending(
        LinesTo(p, k) + GapAt(p, k).lines + [Header(k)] + [Fail(k)] + p.closing(MemAt(p, k + 1)), k, k + 1)
    {
      MeaningOfFailure(p, k);
    }
    forall k: nat | GivesUpAt(p, k) ensures Meaning(p) == Ending(LinesTo(p, k) + GapAt(p, k).lines, k, k) {
      MeaningOfGivingUp(p, k);
    }
    if Succeeds(p) {
      MeaningOfSuccess(p);
    }
  }

  /** The checkpointed run, in every interleaving, has the outcome of the program when it ends. */
  lemma OriginalOutcome<M(!new)>(p: Program<M>, events: seq<H.Event>)
    requires Exec(H.Step, H.Init(p), events).Some?
    ensures var s := Exec(H.Step, H.Init(p), events).value; s.world.proc.pc == Exited ==> Outcome(p, s.world)
  {
    H.Reachable(p, events);
    var s := Exec(H.Step, H.Init(p), events).value;
    if s.world.proc.pc == Exited {
      ExitedIsOutcome(p, s.world);
    }
  }

  /** So has every restart from every image. */
  lemma ReplayOutcome<M(!new)>(p: Program<M>, original: seq<H.Event>, i: nat, replay: seq<R.Event>)
    requires Exec(H.Step, H.Init(p), original).Some?
    requires i < |Exec(H.Step, H.Init(p), original).value.images|
    requires var s := Exec(H.Step, H.Init(p), original).value;
      i < |s.logs| && Exec(R.Step, R.Restart(p, s.images[i], s.logs[i]), replay).Some?
    ensures var s := Exec(H.Step, H.Init(p), original).value;
      var w := Exec(R.Step, R.Restart(p, s.images[i], s.logs[i]), replay).value.world;
      w.proc.pc == Exited ==> Outcome(p, w)
  {
    R.ReplayIsCoherent(p, original, i, replay);
    var s := Exec(H.Step, H.Init(p), original).value;
    var w := Exec(R.Step, R.Restart(p, s.images[i], s.logs[i]), replay).value.world;
    if w.proc.pc == Exited {
      ExitedIsOutcome(p, w);
    }
  }
}
