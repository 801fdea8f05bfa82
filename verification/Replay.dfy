/** The restart loop of eventfd/run.sh: every image is restarted over its copy of the log, with
    `checkpoint-ready`, `checkpoint-done` and `checkpoint-skip` present. */
module Replay {
  import opened Runs
  import opened LabelProgram
  import H = Handshake

  datatype State<!M> = State(prog: Program<M>, world: World<M>)

  datatype Event = Prog | FlushLog(lines: nat)

  function Restart<M>(p: Program<M>, image: Process<M>, log: seq<Line>): State<M> {
    State(p, World(image, Files(Some(0), Some(0), true, log)))
  }

  function Step<M>(s: State<M>, e: Event): Option<State<M>> {
    match e
    case Prog =>
      if s.world.proc.pc == Exited then None
      else Some(s.(world := ProgramStep(s.prog, s.world)))
    case FlushLog(k) =>
      if k > |s.world.proc.buf| then None else Some(s.(world := Flush(s.world, k)))
  }

  /** With `checkpoint-skip` present the process announces nothing: `checkpoint-ready` stays as it was. */
  ghost predicate Inv<M>(s: State<M>) {
    && s.world.files.skip && s.world.files.ready == Some(0) && s.world.proc.pc != CreateReady
    && Coherent(s.prog, s.world)
  }

  lemma StepKeepsInv<M>(s: State<M>, e: Event)
    requires Inv(s) && Step(s, e).Some?
    ensures Inv(Step(s, e).value)
  {
    match e
    case Prog => StepKeepsCoherent(s.prog, s.world);
    case FlushLog(k) => FlushKeepsCoherent(s.prog, s.world, k);
  }

  lemma {:induction false} RunKeepsInv<M>(s: State<M>, events: seq<Event>)
    requires Inv(s)
    ensures var r := Exec(Step, s, events); r.Some? ==> Inv(r.value) && r.value.prog == s.prog
    decreases |events|
  {
    if events != [] && Step(s, events[0]).Some? {
      StepKeepsInv(s, events[0]);
      RunKeepsInv(Step(s, events[0]).value, events[1..]);
    }
  }

  /** Replay equivalence.  Take any interleaving of program and driver and any image it has saved,
      wherever in do_ckpt the freeze landed and however much of the log was still buffered.  The
      restarted process never waits and announces nothing, comes nearer to its end with every step, and
      when it ends the log file and op_num are those of the undisturbed program, and of the original
      run. */
  lemma ReplayEquivalence<M(!new)>(p: Program<M>, original: seq<H.Event>, i: nat, replay: seq<Event>)
    requires Exec(H.Step, H.Init(p), original).Some?
    requires i < |Exec(H.Step, H.Init(p), original).value.images|
    requires var s := Exec(H.Step, H.Init(p), original).value;
      i < |s.logs| && Exec(Step, Restart(p, s.images[i], s.logs[i]), replay).Some?
    ensures var s := Exec(H.Step, H.Init(p), original).value;
      var w := Exec(Step, Restart(p, s.images[i], s.logs[i]), replay).value.world;
      && w.files.ready == Some(0)
      && (w.proc.pc == Exited ==> w.files.log == Meaning(p).lines && w.proc.opNum == Meaning(p).opNum)
      && (w.proc.pc == Exited && s.world.proc.pc == Exited ==>
            w.files.log == s.world.files.log && w.proc.opNum == s.world.proc.opNum)
      && (w.proc.pc != Exited ==>
            var w' := ProgramStep(p, w);
            w.proc.at <= p.labels && w'.proc.at <= p.labels && ProgramRank(p, w') < ProgramRank(p, w))
  {
    ReplayIsCoherent(p, original, i, replay);
    H.Reachable(p, original);
    var s := Exec(H.Step, H.Init(p), original).value;
    var w := Exec(Step, Restart(p, s.images[i], s.logs[i]), replay).value.world;
    StepKeepsCoherent(p, w);
    StepLowersRank(p, w);
  }

  lemma ReplayIsCoherent<M(!new)>(p: Program<M>, original: seq<H.Event>, i: nat, replay: seq<Event>)
    requires Exec(H.Step, H.Init(p), original).Some?
    requires i < |Exec(H.Step, H.Init(p), original).value.images|
    requires var s := Exec(H.Step, H.Init(p), original).value;
      i < |s.logs| && Exec(Step, Restart(p, s.images[i], s.logs[i]), replay).Some?
    ensures var s := Exec(H.Step, H.Init(p), original).value;
      var r := Exec(Step, Restart(p, s.images[i], s.logs[i]), replay).value;
      Inv(r) && r.prog == p
  {
    H.Reachable(p, original);
    var s := Exec(H.Step, H.Init(p), original).value;
    var r := Restart(p, s.images[i], s.logs[i]);
    assert H.GoodImage(p, i, s.images[i], s.logs[i]);
    MarkersDoNotMatter(p, World(s.images[i], Files(None, None, false, s.logs[i])), r.world.files);
    RunKeepsInv(r, replay);
  }

  /** Image `q` is inside the polling loop of do_ckpt, or has just left it. */
  predicate Polling(q: Pc) { q.PollSkip? || q.PollDone? || q.UnlinkDone? }

  /** `checkpoint-done` goes only if the image was taken in the polling loop, and then once, at that label. */
  ghost predicate DoneIs<M>(image: Process<M>, s: State<M>) {
    && s.world.files.skip
    && (Polling(s.world.proc.pc) ==>
          image.pc != SkipAfterReady && s.world.files.done == Some(0) && s.world.proc.at == image.at)
    && (!Polling(s.world.proc.pc) ==> s.world.files.done == if image.pc == SkipAfterReady then Some(0) else None)
  }

  lemma {:induction false} RunKeepsDone<M>(image: Process<M>, s: State<M>, events: seq<Event>)
    requires DoneIs(image, s) && s.world.proc.pc != CreateReady
    ensures var r := Exec(Step, s, events); r.Some? ==> DoneIs(image, r.value)
    decreases |events|
  {
    if events != [] && Step(s, events[0]).Some? {
      RunKeepsDone(image, Step(s, events[0]).value, events[1..]);
    }
  }

  /** A restarted process takes `checkpoint-done` away exactly if it was frozen in the polling loop, and it
      does so at the label of the image; at later labels do_ckpt returns at once. */
  lemma DoneIsTakenOnce<M>(p: Program<M>, image: Process<M>, log: seq<Line>, replay: seq<Event>)
    requires Awaiting(image.pc) && Exec(Step, Restart(p, image, log), replay).Some?
    ensures var w := Exec(Step, Restart(p, image, log), replay).value.world;
      && (Polling(w.proc.pc) ==> w.proc.at == image.at)
      && w.files.done == if image.pc == SkipAfterReady || Polling(w.proc.pc) then Some(0) else None
  {
    RunKeepsDone(image, Restart(p, image, log), replay);
  }
}
