/** fileio/fileio1.c under fileio/run-fileio1.sh: a copy, record by record, that is frozen, imaged,
    killed and restarted over a snapshot of the output file, any number of times. */
module FileCopy {
  import opened Runs
  import opened BufferedFile

  datatype Record = Record(id: int, data: string)

  const ZeroRecord := Record(0, "")

  datatype Pc = Read | Write | Sync | Exited

  /** The copying process: `pos` is the position in the source, `buf` the unflushed output, `off` the
      output file's offset. */
  datatype Process = Process(pc: Pc, pos: nat, rec: Record, buf: seq<Record>, off: nat, num: nat)

  /** Where the script is. */
  datatype Phase =
    | Running | Frozen | Imaged | Snapped      // freeze_pid, checkpoint, cp output snap
    | Thawed                                   // thaw: the process goes on
    | Killed | Restored                        // kill -9, cp snap output

  datatype State = State(
    src: seq<Record>, dest: seq<Record>, proc: Option<Process>, phase: Phase,
    image: Option<Process>, snap: seq<Record>)

  datatype Event = Copy | Flush(records: nat) | Script | NextIteration

  const Fresh := Process(Read, 0, ZeroRecord, [], 0, 0)

  /** fopen(destfile, "w") truncates whatever was there. */
  function Init(src: seq<Record>): State { State(src, [], Some(Fresh), Running, None, []) }

  function FlushSome(s: State, q: Process, k: nat): State
    requires k <= |q.buf|
  {
    s.(proc := Some(q.(buf := q.buf[k..], off := q.off + k)),
       dest := WriteAt(s.dest, q.off, q.buf[..k], ZeroRecord))
  }

  function CopyStep(s: State, q: Process): Option<State> {
    match q.pc
    case Read =>
      if q.pos < |s.src| then Some(s.(proc := Some(q.(pc := Write, rec := s.src[q.pos], pos := q.pos + 1))))
      else Some(FlushSome(s, q.(pc := Exited), |q.buf|))
    case Write => Some(s.(proc := Some(q.(pc := Sync, buf := q.buf + [q.rec]))))
    case Sync => Some(FlushSome(s, q.(pc := Read, num := q.num + 1), |q.buf|))
    case Exited => None
  }

  predicate CanRun(s: State) { s.proc.Some? && (s.phase.Running? || s.phase.Thawed?) }

  function ScriptStep(s: State): Option<State> {
    match s.phase
    case Running => if s.proc.Some? && !s.proc.value.pc.Exited? then Some(s.(phase := Frozen)) else None
    case Frozen => Some(s.(phase := Imaged, image := s.proc))
    case Imaged => Some(s.(phase := Snapped, snap := s.dest))
    case Snapped => Some(s.(phase := Thawed))
    case Thawed => Some(s.(phase := Killed, proc := None))          // what was buffered is lost
    case Killed => Some(s.(phase := Restored, dest := s.snap))
    case Restored => Some(s.(phase := Running, proc := s.image))
  }

  function Step(s: State, e: Event): Option<State> {
    match e
    case Copy => if CanRun(s) then CopyStep(s, s.proc.value) else None
    case Flush(k) => if CanRun(s) && k <= |s.proc.value.buf| then Some(FlushSome(s, s.proc.value, k)) else None
    case Script => ScriptStep(s)
    case NextIteration =>
      if s.phase.Running? && s.proc.Some? && s.proc.value.pc.Exited?
      then Some(s.(proc := Some(Fresh), dest := [])) else None
  }

  /** Process and output belong together: output, buffer and the record in hand are what was read. */
  ghost predicate Coherent(src: seq<Record>, q: Process, dest: seq<Record>) {
    && q.pos <= |src| && |dest| == q.off
    && (q.pc.Write? ==> q.pos > 0 && q.rec == src[q.pos - 1])
    && dest + q.buf == src[..if q.pc.Write? then q.pos - 1 else q.pos]
    && q.num == (if q.pc.Write? || q.pc.Sync? then q.pos - 1 else q.pos)
    && (q.pc.Sync? ==> q.pos > 0)
    && (q.pc.Exited? ==> q.pos == |src| && q.buf == [])
    && (if q.pc.Sync? then |q.buf| <= 1 else q.buf == [])
  }

  ghost predicate Inv(s: State) {
    && (s.proc.Some? ==> Coherent(s.src, s.proc.value, s.dest))
    && (s.proc.None? <==> s.phase.Killed? || s.phase.Restored?)
    && (!s.phase.Running? && !s.phase.Frozen? ==> s.image.Some?)
    && (s.phase.Imaged? ==> s.image == s.proc)
    && (s.phase.Snapped? || s.phase.Thawed? || s.phase.Killed? || s.phase.Restored? ==>
          Coherent(s.src, s.image.value, s.snap))
    && (s.phase.Restored? ==> s.dest == s.snap)
  }

  lemma FlushKeepsCoherent(s: State, q: Process, k: nat)
    requires Coherent(s.src, q, s.dest) && k <= |q.buf|
    ensures var t := FlushSome(s, q, k); Coherent(t.src, t.proc.value, t.dest)
  {
    WriteAtEnd(s.dest, q.buf[..k], ZeroRecord);
    assert (s.dest + q.buf[..k]) + q.buf[k..] == s.dest + q.buf;
  }

  /** The last flush leaves nothing behind. */
  lemma FlushAllEmpties(s: State, q: Process)
    requires |s.dest| == q.off
    ensures var t := FlushSome(s, q, |q.buf|); t.dest == s.dest + q.buf && t.proc.value.buf == []
  {}

  lemma CopyKeepsCoherent(s: State, q: Process)
    requires Coherent(s.src, q, s.dest) && CopyStep(s, q).Some?
    ensures var t := CopyStep(s, q).value; t.src == s.src && t.proc.Some? && Coherent(t.src, t.proc.value, t.dest)
  {
    match q.pc
    case Read =>
      if q.pos < |s.src| {
        assert s.src[..q.pos + 1] == s.src[..q.pos] + [s.src[q.pos]];
      } else {
        FlushAllEmpties(s, q.(pc := Exited));
      }
    case Write =>
      assert s.src[..q.pos] == s.src[..q.pos - 1] + [q.rec];
      assert s.dest + (q.buf + [q.rec]) == (s.dest + q.buf) + [q.rec];
    case Sync =>
      FlushKeepsCoherent(s, q, |q.buf|);
      FlushAllEmpties(s, q.(pc := Read, num := q.num + 1));
  }

  /** The process goes on and the script stays where it is. */
  lemma ProcessKeepsInv(s: State, t: State)
    requires Inv(s) && CanRun(s) && t == s.(proc := t.proc, dest := t.dest)
    requires t.proc.Some? && Coherent(t.src, t.proc.value, t.dest)
    ensures Inv(t)
  {}

  lemma ScriptKeepsInv(s: State)
    requires Inv(s) && ScriptStep(s).Some?
    ensures Inv(ScriptStep(s).value)
  {
    match s.phase
    case Running =>
    case Frozen =>
    case Imaged =>
    case Snapped =>
    case Thawed =>
    case Killed =>
    case Restored =>
  }

  lemma StepKeepsInv(s: State, e: Event)
    requires Inv(s) && Step(s, e).Some?
    ensures Inv(Step(s, e).value) && Step(s, e).value.src == s.src
  {
    match e
    case Copy =>
      CopyKeepsCoherent(s, s.proc.value);
      ProcessKeepsInv(s, Step(s, e).value);
    case Flush(k) =>
      FlushKeepsCoherent(s, s.proc.value, k);
      ProcessKeepsInv(s, Step(s, e).value);
    case Script => ScriptKeepsInv(s);
    case NextIteration =>
      assert [] + [] == s.src[..0];
      ProcessKeepsInv(s, Step(s, e).value);
  }

  lemma {:induction false} Reachable(s: State, events: seq<Event>)
    requires Inv(s)
    ensures var r := Exec(Step, s, events); r.Some? ==> Inv(r.value) && r.value.src == s.src
    decreases |events|
  {
    if events != [] {
      var t := Step(s, events[0]);
      if t.Some? {
        StepKeepsInv(s, events[0]);
        Reachable(t.value, events[1..]);
      }
    }
  }

  /** Records still to be dealt with. */
  function Left(s: State): nat {
    if s.proc.None? || s.proc.value.pos > |s.src| then 0
    else 4 * (|s.src| - s.proc.value.pos) + StepsOf(s.proc.value.pc)
  }

  function StepsOf(pc: Pc): nat {
    match pc
    case Read => 1
    case Write => 4
    case Sync => 3
    case Exited => 0
  }

  /** The copy survives.  After any number of rounds of freezing, imaging, going on, being killed and
      being restarted, at any point of the loop and with any part of the output still buffered, a
      process that ends has made the output equal to the source; and until it ends it can go on.  At
      any time the output is the beginning of the source, with every record that has been counted and
      at most one more. */
  lemma CopySurvivesRestart(src: seq<Record>, events: seq<Event>)
    requires Exec(Step, Init(src), events).Some?
    ensures var s := Exec(Step, Init(src), events).value;
      && (s.proc.Some? && s.proc.value.pc.Exited? ==> s.dest == src && s.proc.value.num == |src|)
      && (s.proc.Some? ==> s.dest <= src && s.proc.value.num <= |s.dest| <= s.proc.value.num + 1)
      && (CanRun(s) && !s.proc.value.pc.Exited? ==> Step(s, Copy).Some? && Left(Step(s, Copy).value) < Left(s))
  {
    assert [] + [] == src[..0];
    Reachable(Init(src), events);
    var s := Exec(Step, Init(src), events).value;
    if s.proc.Some? {
      var q := s.proc.value;
      assert s.dest == (s.dest + q.buf)[..|s.dest|];
      assert q.pc.Exited? ==> src[..|src|] == src;
    }
  }
}
