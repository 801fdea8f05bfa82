/** A label program (libcrtest/labels.h) and its `do_ckpt` (libcrtest/common.c), one marker-file
    access per step, with a buffered log file.

    The program text is a parameter: what runs between two labels, what each label's action does
    to memory and returns, and what is logged at `out:`.  Memory is any type `M`.  Checkpoints are
    taken at every label (`ckpt_op_num` is -1).
 */
module LabelProgram {
  import opened Runs
  import opened BufferedFile

  datatype Line = Header(opNum: nat) | Fail(opNum: nat) | Text(text: string) | Hole

  /** Code between two labels: new memory, logged lines, and whether it gave up with `exit`. */
  datatype Gap<M> = Gap(mem: M, lines: seq<Line>, abort: bool)

  datatype Program<!M> = Program(
    labels: nat,
    start: M,
    gap: (nat, M) -> Gap<M>,          // code before label k; for k == labels, before `out:`
    action: (nat, M) -> (M, int),     // label k's action and its result
    closing: M -> seq<Line>)          // what is logged at `out:`

  datatype Pc =
    | InGap | Act
    | SkipBeforeReady | CreateReady                 // set_checkpoint_ready
    | SkipAfterReady                                // do_ckpt's own access(CKPT_DRY_RUN)
    | PollSkip | PollDone                           // test_checkpoint_done
    | UnlinkDone
    | CheckResult | Closing | Exited

  /** A process: what an image holds.  `buf` is the unflushed part of the log, `pos` the file offset.
      `at` is the label in the program text, `opNum` the counter, `visits` the calls of do_ckpt. */
  datatype Process<M> = Process(
    pc: Pc, at: nat, opNum: nat, visits: nat, mem: M, ret: int, buf: seq<Line>, pos: nat)

  /** The directory.  A marker remembers who made it: the label for `ready`, the iteration for `done`. */
  datatype Files = Files(ready: Option<nat>, done: Option<nat>, skip: bool, log: seq<Line>)

  datatype World<M> = World(proc: Process<M>, files: Files)

  function Launch<M>(p: Program<M>): World<M> {
    World(Process(InGap, 0, 0, 0, p.start, 0, [], 0), Files(None, None, false, []))
  }

  /** stdio moves the first `k` buffered lines to the file. */
  function Flush<M>(w: World<M>, k: nat): World<M>
    requires k <= |w.proc.buf|
  {
    var q := w.proc;
    World(q.(buf := q.buf[k..], pos := q.pos + k),
          w.files.(log := WriteAt(w.files.log, q.pos, q.buf[..k], Hole)))
  }

  function FlushAll<M>(w: World<M>): World<M> { Flush(w, |w.proc.buf|) }

  /** The next step of the program. */
  function ProgramStep<M>(p: Program<M>, w: World<M>): World<M> {
    var q, f := w.proc, w.files;
    match q.pc
    case InGap =>
      var g := p.gap(q.at, q.mem);
      var q' := q.(mem := g.mem, buf := q.buf + g.lines);
      if g.abort then FlushAll(w.(proc := q'.(pc := Exited)))
      else if q.at >= p.labels then w.(proc := q'.(pc := Closing))
      else w.(proc := q'.(pc := Act, buf := q'.buf + [Header(q.opNum)]))
    case Act =>
      var (m, r) := p.action(q.at, q.mem);
      w.(proc := q.(pc := SkipBeforeReady, mem := m, ret := r))
    case SkipBeforeReady =>
      if f.skip then w.(proc := q.(pc := SkipAfterReady, visits := q.visits + 1))
      else w.(proc := q.(pc := CreateReady))
    case CreateReady =>
      World(q.(pc := SkipAfterReady, visits := q.visits + 1), f.(ready := Some(q.at)))
    case SkipAfterReady =>
      w.(proc := q.(pc := if f.skip then CheckResult else PollSkip))
    case PollSkip =>
      w.(proc := q.(pc := if f.skip then UnlinkDone else PollDone))
    case PollDone =>
      w.(proc := q.(pc := if f.done.Some? then UnlinkDone else PollSkip))
    case UnlinkDone =>
      World(q.(pc := CheckResult), f.(done := None))
    case CheckResult =>
      if q.ret < 0 then w.(proc := q.(pc := Closing, buf := q.buf + [Fail(q.opNum)]))
      else w.(proc := q.(pc := InGap, at := q.at + 1, opNum := q.opNum + 1))
    case Closing =>
      FlushAll(w.(proc := q.(pc := Exited, buf := q.buf + p.closing(q.mem))))
    case Exited => w
  }

  /** Inside do_ckpt, between announcing readiness and seeing the checkpoint done. */
  predicate Awaiting(pc: Pc) { pc in {SkipAfterReady, PollSkip, PollDone} }

  // ---------------------------------------------------------------- reference meaning

  /** How a run ends: the lines still to come, the final op_num, the number of do_ckpt calls. */
  datatype Ending = Ending(lines: seq<Line>, opNum: nat, ckpts: nat)

  /** The straight-line meaning of the program from just before label `k`; no files, no buffers. */
  function EndingFrom<M>(p: Program<M>, k: nat, m: M): Ending
    decreases p.labels - k, 1
  {
    var g := p.gap(k, m);
    if g.abort then Ending(g.lines, k, k)
    else if k >= p.labels then Ending(g.lines + p.closing(g.mem), k, k)
    else
      var (m', r) := p.action(k, g.mem);
      var e := EndingAfterAction(p, k, m', r);
      e.(lines := g.lines + [Header(k)] + e.lines)
  }

  function EndingAfterAction<M>(p: Program<M>, k: nat, m: M, ret: int): Ending
    requires k < p.labels
    decreases p.labels - k, 0
  {
    if ret < 0 then Ending([Fail(k)] + p.closing(m), k, k + 1)
    else EndingFrom(p, k + 1, m)
  }

  function Meaning<M>(p: Program<M>): Ending { EndingFrom(p, 0, p.start) }

  /** What is left of the meaning for a process in the middle of its run. */
  ghost function Remaining<M>(p: Program<M>, q: Process<M>): Ending
    requires q.pc in {InGap, Closing, Exited} || q.at < p.labels
  {
    match q.pc
    case InGap => EndingFrom(p, q.at, q.mem)
    case Act =>
      var (m, r) := p.action(q.at, q.mem);
      EndingAfterAction(p, q.at, m, r)
    case Closing => Ending(p.closing(q.mem), q.at, q.visits)
    case Exited => Ending([], q.at, q.visits)
    case _ => EndingAfterAction(p, q.at, q.mem, q.ret)
  }

  /** The counters agree with the place in the program text. */
  ghost predicate Counted<M>(p: Program<M>, q: Process<M>) {
    && q.opNum == q.at <= p.labels
    && (q.pc in {InGap, Closing, Exited} || q.at < p.labels)
    && (q.pc in {InGap, Act, SkipBeforeReady, CreateReady} ==> q.visits == q.at)
    && (q.pc in {SkipAfterReady, PollSkip, PollDone, UnlinkDone, CheckResult} ==> q.visits == q.at + 1)
  }

  /** Process and log file belong together: the file ends at the process's offset, and file, buffer
      and what is left to do add up to the meaning of the program. */
  ghost predicate Coherent<M>(p: Program<M>, w: World<M>) {
    var q := w.proc;
    && Counted(p, q)
    && (q.pc == Exited ==> q.buf == [])
    && |w.files.log| == q.pos
    && var e := Remaining(p, q);
       && w.files.log + q.buf + e.lines == Meaning(p).lines
       && e.opNum == Meaning(p).opNum
       && e.ckpts == Meaning(p).ckpts
  }

  lemma MarkersDoNotMatter<M>(p: Program<M>, w: World<M>, f: Files)
    requires Coherent(p, w) && f.log == w.files.log
    ensures Coherent(p, w.(files := f))
  {
  }

  lemma FlushKeepsCoherent<M>(p: Program<M>, w: World<M>, k: nat)
    requires Coherent(p, w) && k <= |w.proc.buf|
    ensures Coherent(p, Flush(w, k))
  {
    var q, v := w.proc, Flush(w, k);
    WriteAtEnd(w.files.log, q.buf[..k], Hole);
    var e := Remaining(p, q);
    Regroup(w.files.log, q.buf, k, e.lines);
    assert Remaining(p, v.proc) == e;
  }

  /** A process that ends: the last lines reach the file. */
  lemma LastFlush<M>(p: Program<M>, w: World<M>)
    requires w.proc.pc == Exited && w.proc.opNum == w.proc.at <= p.labels
    requires |w.files.log| == w.proc.pos
    requires w.files.log + w.proc.buf == Meaning(p).lines
    requires w.proc.at == Meaning(p).opNum && w.proc.visits == Meaning(p).ckpts
    ensures Coherent(p, FlushAll(w))
  {}

  lemma GapKeepsCoherent<M>(p: Program<M>, w: World<M>)
    requires Coherent(p, w) && w.proc.pc == InGap
    ensures Coherent(p, ProgramStep(p, w))
  {
    var q, log := w.proc, w.files.log;
    var e := Remaining(p, q);
    var g := p.gap(q.at, q.mem);
    if g.abort {
      var v := w.(proc := q.(mem := g.mem, buf := q.buf + g.lines, pc := Exited));
      assert log + v.proc.buf == log + q.buf + e.lines;
      LastFlush(p, v);
    } else if q.at >= p.labels {
      assert log + (q.buf + g.lines) + p.closing(g.mem) == log + q.buf + e.lines;
    } else {
      var v := ProgramStep(p, w);
      var e' := Remaining(p, v.proc);
      assert e.lines == g.lines + [Header(q.at)] + e'.lines;
      assert log + v.proc.buf + e'.lines == log + q.buf + e.lines;
    }
  }

  lemma ResultKeepsCoherent<M>(p: Program<M>, w: World<M>)
    requires Coherent(p, w) && w.proc.pc == CheckResult
    ensures Coherent(p, ProgramStep(p, w))
  {
    var q, log := w.proc, w.files.log;
    if q.ret < 0 {
      assert log + (q.buf + [Fail(q.opNum)]) + p.closing(q.mem) == log + q.buf + Remaining(p, q).lines;
    }
  }

  lemma ClosingKeepsCoherent<M>(p: Program<M>, w: World<M>)
    requires Coherent(p, w) && w.proc.pc == Closing
    ensures Coherent(p, ProgramStep(p, w))
  {
    var q, log := w.proc, w.files.log;
    var v := w.(proc := q.(pc := Exited, buf := q.buf + p.closing(q.mem)));
    assert log + v.proc.buf == log + q.buf + Remaining(p, q).lines;
    LastFlush(p, v);
  }

  lemma StepKeepsCoherent<M>(p: Program<M>, w: World<M>)
    requires Coherent(p, w)
    ensures Coherent(p, ProgramStep(p, w))
  {
    match w.proc.pc
    case InGap => GapKeepsCoherent(p, w);
    case CheckResult => ResultKeepsCoherent(p, w);
    case Closing => ClosingKeepsCoherent(p, w);
    case _ =>
  }

  /** Work left for the program; waiting for the checkpoint is not work. */
  function ProgramRank<M>(p: Program<M>, w: World<M>): nat
    requires w.proc.at <= p.labels
  {
    var done := w.files.done.Some?;
    20 * (p.labels - w.proc.at) +
    match w.proc.pc
    case InGap => 12
    case Act => 11
    case SkipBeforeReady => 10
    case CreateReady => 9
    case SkipAfterReady => 8
    case PollSkip => if done || w.files.skip then 6 else 7
    case PollDone => if done then 5 else 7
    case UnlinkDone => 4
    case CheckResult => 3
    case Closing => 2
    case Exited => 0
  }

  /** No step makes more work, and a step makes less unless it polls in vain. */
  lemma StepLowersRank<M>(p: Program<M>, w: World<M>)
    requires Counted(p, w.proc) && Counted(p, ProgramStep(p, w).proc)
    ensures ProgramRank(p, ProgramStep(p, w)) <= ProgramRank(p, w)
    ensures w.proc.pc != Exited && (w.proc.pc in {PollSkip, PollDone} ==> w.files.skip || w.files.done.Some?) ==>
              ProgramRank(p, ProgramStep(p, w)) < ProgramRank(p, w)
  {
  }
}
