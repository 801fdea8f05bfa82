/** The label program against the driver of eventfd/run.sh.

    The driver waits for `checkpoint-ready`, freezes the program, copies the log, takes the image,
    removes `checkpoint-ready`, makes `checkpoint-done` and thaws, once per label.  The program may
    run on until the freezer has really stopped it.
 */
module Handshake {
  import opened Runs
  import opened LabelProgram

  datatype Freezer = Thawed | Freezing | Frozen

  datatype DriverPc =
    | WaitReady | WaitFrozen | CopyLog | TakeImage | RemoveReady | TouchDone | Thaw
    | LastDone | WaitExit | Finished

  /** A checkpoint: the image and the copy of the log that goes with it. */
  datatype System<!M> = System(
    prog: Program<M>, world: World<M>, freezer: Freezer,
    dpc: DriverPc, iter: nat, logs: seq<seq<Line>>, images: seq<Process<M>>)

  datatype Event = Prog | FlushLog(lines: nat) | FreezerStops | Drive

  function Init<M>(p: Program<M>): System<M> {
    System(p, Launch(p), Thawed, WaitReady, 0, [], [])
  }

  function DriverStep<M>(s: System<M>): System<M> {
    var f := s.world.files;
    match s.dpc
    case WaitReady =>
      if s.iter >= s.prog.labels then s.(dpc := LastDone)       // the loop runs for I = 0 .. IMAX
      else if f.ready.Some? then s.(dpc := WaitFrozen, freezer := Freezing)
      else s
    case WaitFrozen => if s.freezer == Frozen then s.(dpc := CopyLog) else s
    case CopyLog => s.(dpc := TakeImage, logs := s.logs + [f.log])
    case TakeImage => s.(dpc := RemoveReady, images := s.images + [s.world.proc])
    case RemoveReady => s.(dpc := TouchDone, world := s.world.(files := f.(ready := None)))
    case TouchDone =>
      s.(dpc := Thaw, world := s.world.(files := f.(done := if f.done.Some? then f.done else Some(s.iter))))
    case Thaw => s.(dpc := WaitReady, freezer := Thawed, iter := s.iter + 1)
    case LastDone =>
      if f.done.Some? then s.(dpc := WaitExit)
      else s.(world := s.world.(files := f.(done := Some(s.iter))))
    case WaitExit => if s.world.proc.pc == Exited then s.(dpc := Finished) else s
    case Finished => s
  }

  function Step<M>(s: System<M>, e: Event): Option<System<M>> {
    match e
    case Prog =>
      if s.freezer == Frozen || s.world.proc.pc == Exited then None
      else Some(s.(world := ProgramStep(s.prog, s.world)))
    case FlushLog(k) =>
      if s.freezer == Frozen || k > |s.world.proc.buf| then None
      else Some(s.(world := Flush(s.world, k)))
    case FreezerStops => if s.freezer == Freezing then Some(s.(freezer := Frozen)) else None
    case Drive => if s.dpc == Finished then None else Some(DriverStep(s))
  }

  // ---------------------------------------------------------------- the invariant

  /** The program has announced label `iter` and waits for this iteration's checkpoint. */
  ghost predicate Announced<M>(s: System<M>) {
    var w := s.world;
    w.files.ready == Some(s.iter) && w.files.done == None && w.proc.at == s.iter && Awaiting(w.proc.pc)
  }

  /** The checkpoint of label `k` is done and the program has not yet consumed the marker. */
  ghost predicate Acknowledged<M>(w: World<M>, k: int) {
    && w.files.ready == None && 0 <= k && w.files.done == Some(k) && w.proc.at == k
    && (Awaiting(w.proc.pc) || w.proc.pc == UnlinkDone)
  }

  /** The program is outside do_ckpt's waiting part and has been through it `k` times. */
  ghost predicate Elsewhere<M>(w: World<M>, k: nat) {
    w.files.ready == None && w.proc.visits == k && !Awaiting(w.proc.pc) && w.proc.pc != UnlinkDone
  }

  ghost predicate InStep<M>(s: System<M>) {
    var f := s.world.files;
    && s.iter <= s.prog.labels
    && (s.dpc in {WaitReady, LastDone, WaitExit, Finished} ==> s.freezer == Thawed)
    && (s.dpc in {CopyLog, TakeImage, RemoveReady, TouchDone, Thaw} ==> s.freezer == Frozen)
    && (s.dpc == WaitFrozen ==> s.freezer != Thawed)
    && match s.dpc
       case WaitReady =>
         || (s.iter < s.prog.labels && Announced(s))
         || Acknowledged(s.world, s.iter - 1)
         || (Elsewhere(s.world, s.iter) && f.done == None)
       case WaitFrozen => s.iter < s.prog.labels && Announced(s)
       case CopyLog => s.iter < s.prog.labels && Announced(s)
       case TakeImage => s.iter < s.prog.labels && Announced(s)
       case RemoveReady => s.iter < s.prog.labels && Announced(s)
       case TouchDone =>
         s.iter < s.prog.labels && f.ready == f.done == None && s.world.proc.at == s.iter && Awaiting(s.world.proc.pc)
       case Thaw => s.iter < s.prog.labels && Acknowledged(s.world, s.iter) && Awaiting(s.world.proc.pc)
       case _ =>
         && s.iter == s.prog.labels
         && (Acknowledged(s.world, s.iter - 1) || Elsewhere(s.world, s.iter))
         && (s.dpc == Finished ==> s.world.proc.pc == Exited)
  }

  /** Image and log copy `i` were taken inside do_ckpt of label `i` and belong together. */
  ghost predicate GoodImage<M>(p: Program<M>, i: nat, q: Process<M>, log: seq<Line>) {
    && q.at == i && Awaiting(q.pc)
    && Coherent(p, World(q, Files(None, None, false, log)))
  }

  ghost predicate GoodImages<M>(s: System<M>) {
    && |s.images| == s.iter + (if s.dpc in {RemoveReady, TouchDone, Thaw} then 1 else 0)
    && |s.logs| == s.iter + (if s.dpc in {TakeImage, RemoveReady, TouchDone, Thaw} then 1 else 0)
    && (s.dpc == TakeImage ==> s.logs[s.iter] == s.world.files.log)
    && forall i | 0 <= i < |s.images| :: GoodImage(s.prog, i, s.images[i], s.logs[i])
  }

  ghost predicate Inv<M>(s: System<M>) {
    && !s.world.files.skip
    && Coherent(s.prog, s.world)
    && InStep(s)
    && GoodImages(s)
  }

  lemma ProgKeepsInStep<M>(s: System<M>)
    requires InStep(s) && Counted(s.prog, s.world.proc) && !s.world.files.skip && s.freezer != Frozen
    ensures InStep(s.(world := ProgramStep(s.prog, s.world)))
  {}

  lemma DriveKeepsInStep<M>(s: System<M>)
    requires InStep(s)
    ensures InStep(DriverStep(s))
  {
  }

  lemma DriveKeepsImages<M>(s: System<M>)
    requires GoodImages(s) && Coherent(s.prog, s.world)
    requires s.dpc in {TakeImage, CopyLog} ==> Announced(s)
    ensures GoodImages(DriverStep(s))
  {}

  lemma WorldKeepsImages<M>(s: System<M>, w: World<M>)
    requires GoodImages(s) && s.dpc != TakeImage
    ensures GoodImages(s.(world := w))
  {
  }

  lemma ProgKeepsInv<M>(s: System<M>)
    requires Inv(s) && s.freezer != Frozen
    ensures Inv(s.(world := ProgramStep(s.prog, s.world)))
  {
    StepKeepsCoherent(s.prog, s.world);
    ProgKeepsInStep(s);
    WorldKeepsImages(s, ProgramStep(s.prog, s.world));
  }

  /** Only the markers and the place in the program matter for the handshake, not the log. */
  lemma LogKeepsInv<M>(s: System<M>, w: World<M>)
    requires Inv(s) && s.freezer != Frozen && Coherent(s.prog, w)
    requires w.files == s.world.files.(log := w.files.log)
    requires w.proc == s.world.proc.(buf := w.proc.buf, pos := w.proc.pos)
    ensures Inv(s.(world := w))
  {}

  lemma FlushKeepsInv<M>(s: System<M>, k: nat)
    requires Inv(s) && s.freezer != Frozen && k <= |s.world.proc.buf|
    ensures Inv(s.(world := Flush(s.world, k)))
  {
    FlushKeepsCoherent(s.prog, s.world, k);
    LogKeepsInv(s, Flush(s.world, k));
  }

  lemma DriveKeepsInv<M>(s: System<M>)
    requires Inv(s)
    ensures Inv(DriverStep(s))
  {
    DriveKeepsInStep(s);
    DriveKeepsImages(s);
    MarkersDoNotMatter(s.prog, s.world, DriverStep(s).world.files);
  }

  lemma StepKeepsInv<M>(s: System<M>, e: Event)
    requires Inv(s) && Step(s, e).Some?
    ensures Inv(Step(s, e).value)
  {
    match e
    case Prog => ProgKeepsInv(s);
    case FlushLog(k) => FlushKeepsInv(s, k);
    case FreezerStops => assert GoodImages(s.(freezer := Frozen));
    case Drive => DriveKeepsInv(s);
  }

  lemma InitInv<M>(p: Program<M>)
    ensures Inv(Init(p))
  {}

  lemma {:induction false} ProgramIsFixed<M>(s: System<M>, events: seq<Event>)
    ensures var r := Exec(Step, s, events); r.Some? ==> r.value.prog == s.prog
    decreases |events|
  {
    if events != [] && Step(s, events[0]).Some? {
      ProgramIsFixed(Step(s, events[0]).value, events[1..]);
    }
  }

  lemma Reachable<M(!new)>(p: Program<M>, events: seq<Event>)
    requires Exec(Step, Init(p), events).Some?
    ensures var s := Exec(Step, Init(p), events).value; Inv(s) && s.prog == p
  {
    InitInv(p);
    forall s: System<M>, e | Inv(s) && Step(s, e).Some? ensures Inv(Step(s, e).value) {
      StepKeepsInv(s, e);
    }
    Invariance(Step, Inv, Init(p), events);
    ProgramIsFixed(Init(p), events);
  }

  // ---------------------------------------------------------------- results

  /** Lock step, in every interleaving.  Image `i` is taken inside do_ckpt of label `i`; the
      readiness the driver acts on is that of the label it is about to checkpoint; the marker the
      program removes was made by the iteration that checkpointed the label it is at; and the driver
      waits for the program's end only with `checkpoint-done` in place, and finishes after it. */
  lemma LockStep<M(!new)>(p: Program<M>, events: seq<Event>)
    requires Exec(Step, Init(p), events).Some?
    ensures var s := Exec(Step, Init(p), events).value;
      && (forall i | 0 <= i < |s.images| :: s.images[i].at == i && Awaiting(s.images[i].pc))
      && (s.dpc == WaitReady && s.iter < p.labels && s.world.files.ready.Some? ==>
            && s.world.files.ready == Some(s.iter)
            && s.world.proc.at == s.iter && Awaiting(s.world.proc.pc))
      && (s.world.proc.pc == UnlinkDone ==> s.world.files.done == Some(s.world.proc.at))
      && (s.dpc in {WaitExit, Finished} ==> |s.images| == p.labels)
      && (s.dpc == LastDone && DriverStep(s).dpc == WaitExit ==> s.world.files.done.Some?)
      && (s.dpc == Finished ==> s.world.proc.pc == Exited)
  {
    Reachable(p, events);
  }

  /** The run that was checkpointed writes the log of the undisturbed program. */
  lemma OriginalLog<M(!new)>(p: Program<M>, events: seq<Event>)
    requires Exec(Step, Init(p), events).Some?
    ensures var s := Exec(Step, Init(p), events).value;
      s.world.proc.pc == Exited ==>
        s.world.files.log == Meaning(p).lines && s.world.proc.opNum == Meaning(p).opNum
  {
    Reachable(p, events);
  }

  // ---------------------------------------------------------------- no deadlock

  function Rank<M>(s: System<M>): nat {
    (if s.world.proc.at <= s.prog.labels then ProgramRank(s.prog, s.world) else 0) +
    (if s.iter <= s.prog.labels then 20 * (s.prog.labels - s.iter) else 0) +
    match s.dpc
    case WaitReady => 10
    case WaitFrozen => if s.freezer == Frozen then 8 else 9
    case CopyLog => 7
    case TakeImage => 6
    case RemoveReady => 5
    case TouchDone => 4
    case Thaw => 3
    case LastDone => if s.world.files.done.Some? then 2 else 3
    case WaitExit => 1
    case Finished => 0
  }

  /** The program has ended and the driver has either finished or waits for a label never reached. */
  predicate Quiet<M>(s: System<M>) {
    && s.world.proc.pc == Exited
    && (s.dpc == Finished || (s.dpc == WaitReady && s.iter < s.prog.labels && s.world.files.ready == None))
  }

  lemma ProgLowersRank<M>(s: System<M>)
    requires Inv(s) && Step(s, Prog).Some?
    ensures Rank(Step(s, Prog).value) <= Rank(s)
    ensures s.dpc in {WaitReady, WaitExit} && (s.world.files.ready == None || s.dpc == WaitExit) ==>
              Rank(Step(s, Prog).value) < Rank(s)
  {
    StepKeepsCoherent(s.prog, s.world);
    StepLowersRank(s.prog, s.world);
    if s.dpc == LastDone && s.world.proc.pc == UnlinkDone {
      assert ProgramRank(s.prog, ProgramStep(s.prog, s.world)) + 1 <= ProgramRank(s.prog, s.world);
    }
  }

  lemma DriveLowersRank<M>(s: System<M>)
    requires Inv(s)
    ensures Rank(DriverStep(s)) <= Rank(s)
    ensures || s.dpc in {CopyLog, TakeImage, RemoveReady, TouchDone, Thaw, LastDone}
            || (s.dpc == WaitFrozen && s.freezer == Frozen)
            || (s.dpc == WaitReady && (s.iter >= s.prog.labels || s.world.files.ready.Some?))
            || (s.dpc == WaitExit && s.world.proc.pc == Exited)
            ==> Rank(DriverStep(s)) < Rank(s)
  {
  }

  lemma RankNeverGrows<M>(s: System<M>, e: Event)
    requires Inv(s) && Step(s, e).Some?
    ensures Rank(Step(s, e).value) <= Rank(s)
  {
    match e
    case Prog => ProgLowersRank(s);
    case FlushLog(k) =>
    case FreezerStops =>
    case Drive => DriveLowersRank(s);
  }

  /** Someone can always move on, and that brings the end nearer. */
  lemma SomeoneMoves<M>(s: System<M>) returns (e: Event)
    requires Inv(s) && !Quiet(s)
    ensures Step(s, e).Some? && Rank(Step(s, e).value) < Rank(s)
  {
    if s.freezer == Freezing {
      e := FreezerStops;
    } else if || s.dpc in {WaitFrozen, CopyLog, TakeImage, RemoveReady, TouchDone, Thaw, LastDone}
              || (s.dpc == WaitReady && (s.iter >= s.prog.labels || s.world.files.ready.Some?))
              || (s.dpc == WaitExit && s.world.proc.pc == Exited) {
      e := Drive;
      DriveLowersRank(s);
    } else {
      e := Prog;
      ProgLowersRank(s);
    }
  }

  /** No deadlock.  From every reachable state the run can be brought to its end, no step leads away
      from it, and a run is stuck only there. */
  lemma NoDeadlock<M(!new)>(p: Program<M>, events: seq<Event>) returns (rest: seq<Event>)
    requires Exec(Step, Init(p), events).Some?
    ensures var r := Exec(Step, Init(p), events + rest); r.Some? && Quiet(r.value)
    ensures var s := Exec(Step, Init(p), events).value;
      && (!Quiet(s) ==> exists e :: Step(s, e).Some? && Rank(Step(s, e).value) < Rank(s))
      && (forall e :: Step(s, e).Some? ==> Rank(Step(s, e).value) <= Rank(s))
  {
    Reachable(p, events);
    var s := Exec(Step, Init(p), events).value;
    forall s: System<M>, e | Inv(s) && Step(s, e).Some?
      ensures Inv(Step(s, e).value) && Rank(Step(s, e).value) <= Rank(s)
    {
      StepKeepsInv(s, e);
      RankNeverGrows(s, e);
    }
    forall s: System<M> | Inv(s) && !Quiet(s)
      ensures exists e :: Step(s, e).Some? && Rank(Step(s, e).value) < Rank(s)
    {
      var e := SomeoneMoves(s);
    }
    rest := CanReach(Step, Inv, Rank, Quiet, s);
    ExecAppend(Step, Init(p), events, rest);
  }

  /** All labels are checkpointed exactly when the program reaches do_ckpt at every label; a program
      that gives up earlier leaves the driver waiting after as many images as it made calls. */
  lemma Completes<M(!new)>(p: Program<M>, events: seq<Event>)
    requires Exec(Step, Init(p), events).Some? && Quiet(Exec(Step, Init(p), events).value)
    ensures var s := Exec(Step, Init(p), events).value;
      && |s.images| == Meaning(p).ckpts
      && (s.dpc == Finished <==> Meaning(p).ckpts == p.labels)
  {
    Reachable(p, events);
  }

  /** Actions that all succeed, and code between them that does not give up, reach every label. */
  lemma {:induction false} SuccessReachesAll<M(!new)>(p: Program<M>, k: nat, m: M)
    requires k <= p.labels
    requires forall i: nat, m' :: i < p.labels ==> p.action(i, m').1 >= 0
    requires forall i: nat, m' :: !p.gap(i, m').abort
    ensures var e := EndingFrom(p, k, m); e.ckpts == e.opNum == p.labels
    decreases p.labels - k
  {
    if k < p.labels {
      SuccessReachesAll(p, k + 1, p.action(k, p.gap(k, m).mem).0);
    }
  }
}
