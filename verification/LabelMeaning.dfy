/** What a label program logs, label by label (libcrtest/labels.h).

    The memory at a label is the start value taken through the code and the action of every label before
    it.  The first label whose action returns a negative result ends the program; so does code between
    labels that gives up.
 */
module LabelMeaning {
  import opened LabelProgram

  /** Memory before the code that precedes label `k`. */
  function MemAt<M>(p: Program<M>, k: nat): M
    decreases k, 0
  {
    if k == 0 then p.start else p.action(k - 1, GapAt(p, k - 1).mem).0
  }

  function GapAt<M>(p: Program<M>, k: nat): Gap<M>
    decreases k, 1
  {
    p.gap(k, MemAt(p, k))
  }

  /** What the action of label `k` returns. */
  function ResultAt<M>(p: Program<M>, k: nat): int { p.action(k, GapAt(p, k).mem).1 }

  /** What is logged before the code that precedes label `k`. */
  function LinesTo<M>(p: Program<M>, k: nat): seq<Line> {
    if k == 0 then [] else LinesTo(p, k - 1) + GapAt(p, k - 1).lines + [Header(k - 1)]
  }

  /** All labels before `k` have been passed. */
  ghost predicate Passed<M>(p: Program<M>, k: nat) {
    forall i | 0 <= i < k :: !GapAt(p, i).abort && ResultAt(p, i) >= 0
  }

  ghost predicate FailsAt<M>(p: Program<M>, k: nat) {
    k < p.labels && Passed(p, k) && !GapAt(p, k).abort && ResultAt(p, k) < 0
  }

  ghost predicate GivesUpAt<M>(p: Program<M>, k: nat) { k <= p.labels && Passed(p, k) && GapAt(p, k).abort }

  ghost predicate Succeeds<M>(p: Program<M>) { Passed(p, p.labels) && !GapAt(p, p.labels).abort }

  /** The straight-line meaning, taken apart at label `k`. */
  lemma {:induction false} MeaningFrom<M>(p: Program<M>, k: nat)
    requires k <= p.labels && Passed(p, k)
    ensures var e := EndingFrom(p, k, MemAt(p, k));
      && Meaning(p).lines == LinesTo(p, k) + e.lines
      && Meaning(p).opNum == e.opNum && Meaning(p).ckpts == e.ckpts
  {
    if k == 0 {
      assert [] + Meaning(p).lines == Meaning(p).lines;
    } else {
      MeaningFrom(p, k - 1);
      var g := GapAt(p, k - 1);
      var e, e' := EndingFrom(p, k - 1, MemAt(p, k - 1)), EndingFrom(p, k, MemAt(p, k));
      assert e' == EndingAfterAction(p, k - 1, MemAt(p, k), ResultAt(p, k - 1));
      assert e.lines == g.lines + [Header(k - 1)] + e'.lines;
      assert LinesTo(p, k - 1) + e.lines == LinesTo(p, k) + e'.lines;
    }
  }

  /** If label `k` is the first whose action fails, the program logs all headers up to that of `k`, the
      failure and what it logs at `out:`; it ends with op_num `k` and `k` + 1 calls of do_ckpt. */
  lemma MeaningOfFailure<M>(p: Program<M>, k: nat)
    requires FailsAt(p, k)
    ensures Meaning(p) == Ending(
      LinesTo(p, k) + GapAt(p, k).lines + [Header(k)] + [Fail(k)] + p.closing(MemAt(p, k + 1)), k, k + 1)
  {
    MeaningFrom(p, k);
    var e := EndingFrom(p, k, MemAt(p, k));
    assert e.lines == GapAt(p, k).lines + [Header(k)] + ([Fail(k)] + p.closing(MemAt(p, k + 1)));
  }

  /** Code that gives up before label `k` logs what it has logged so far and nothing more. */
  lemma MeaningOfGivingUp<M>(p: Program<M>, k: nat)
    requires GivesUpAt(p, k)
    ensures Meaning(p) == Ending(LinesTo(p, k) + GapAt(p, k).lines, k, k)
  {
    MeaningFrom(p, k);
  }

  /** If nothing fails, all labels are passed. */
  lemma MeaningOfSuccess<M>(p: Program<M>)
    requires Succeeds(p)
    ensures var n := p.labels;
      Meaning(p) == Ending(LinesTo(p, n) + GapAt(p, n).lines + p.closing(GapAt(p, n).mem), n, n)
  {
    var n := p.labels;
    MeaningFrom(p, n);
    var e := EndingFrom(p, n, MemAt(p, n));
    assert e.lines == GapAt(p, n).lines + p.closing(GapAt(p, n).mem);
  }

  /** These are all the ways in which a program ends, and they exclude each other. */
  lemma OneWayToEnd<M>(p: Program<M>)
    ensures Succeeds(p) <==> !exists k :: FailsAt(p, k) || GivesUpAt(p, k)
    ensures forall j, k | (FailsAt(p, j) || GivesUpAt(p, j)) && (FailsAt(p, k) || GivesUpAt(p, k)) :: j == k
    ensures forall k :: !(FailsAt(p, k) && GivesUpAt(p, k))
  {
    if !Succeeds(p) {
      var k := FirstStop(p, p.labels);
    }
  }

  /** The first label at which a program stops. */
  lemma {:induction false} FirstStop<M>(p: Program<M>, n: nat) returns (k: nat)
    requires n <= p.labels && (!Passed(p, n) || GapAt(p, n).abort)
    ensures FailsAt(p, k) || GivesUpAt(p, k)
    decreases n
  {
    if Passed(p, n) {
      k := n;
    } else if !Passed(p, n - 1) || GapAt(p, n - 1).abort {
      k := FirstStop(p, n - 1);
    } else {
      k := n - 1;
    }
  }

  // ---------------------------------------------------------------- headers and failures in the log

  /** The label that a line is the header of, or the failure of. */
  function LabelOf(l: Line, header: bool): seq<nat> {
    match l
    case Header(k) => if header then [k] else []
    case Fail(k) => if header then [] else [k]
    case _ => []
  }

  function Labels(lines: seq<Line>, header: bool): seq<nat> {
    if lines == [] then [] else LabelOf(lines[0], header) + Labels(lines[1..], header)
  }

  /** The labels whose headers are in a log, in order. */
  function Headers(lines: seq<Line>): seq<nat> { Labels(lines, true) }

  /** The labels whose failures are in a log, in order. */
  function Failures(lines: seq<Line>): seq<nat> { Labels(lines, false) }

  lemma {:induction false} LabelsAppend(a: seq<Line>, b: seq<Line>, header: bool)
    ensures Labels(a + b, header) == Labels(a, header) + Labels(b, header)
  {
    if a == [] {
      assert a + b == b;
    } else {
      LabelsAppend(a[1..], b, header);
      FirstOfTwo(a, b);
      Regroup(LabelOf(a[0], header), Labels(a[1..], header), Labels(b, header));
    }
  }

  lemma FirstOfTwo(a: seq<Line>, b: seq<Line>)
    requires a != []
    ensures (a + b)[0] == a[0] && (a + b)[1..] == a[1..] + b
  {}

  lemma Regroup(a: seq<nat>, b: seq<nat>, c: seq<nat>)
    ensures a + (b + c) == (a + b) + c
  {}

  ghost predicate OnlyText(lines: seq<Line>) { forall i | 0 <= i < |lines| :: lines[i].Text? }

  lemma {:induction false} TextHasNone(lines: seq<Line>, header: bool)
    requires OnlyText(lines)
    ensures Labels(lines, header) == []
  {
    if lines != [] {
      TextHasNone(lines[1..], header);
    }
  }

  lemma OneLine(l: Line, header: bool)
    ensures Labels([l], header) == LabelOf(l, header)
  {
    assert [l][1..] == [];
  }

  /** The program's own lines are no headers and no failures; those come from the labels. */
  ghost predicate OwnLinesAreText<M(!new)>(p: Program<M>) {
    (forall k: nat, m :: OnlyText(p.gap(k, m).lines)) && forall m :: OnlyText(p.closing(m))
  }

  function UpTo(k: nat): seq<nat> { seq(k, i => i) }

  lemma {:induction false} LabelsTo<M(!new)>(p: Program<M>, k: nat, header: bool)
    requires OwnLinesAreText(p)
    ensures Labels(LinesTo(p, k), header) == if header then UpTo(k) else []
  {
    if k > 0 {
      LabelsTo(p, k - 1, header);
      LabelsWithHeader(LinesTo(p, k - 1), GapAt(p, k - 1).lines, k - 1, header);
    }
  }

  lemma LabelsWithHeader(a: seq<Line>, g: seq<Line>, k: nat, header: bool)
    requires OnlyText(g) && Labels(a, header) == if header then UpTo(k) else []
    ensures Labels(a + g + [Header(k)], header) == if header then UpTo(k + 1) else []
  {
    TextHasNone(g, header);
    LabelsAppend(a, g, header);
    OneLine(Header(k), header);
    LabelsAppend(a + g, [Header(k)], header);
    OneMore(k);
  }

  lemma OneMore(k: nat)
    ensures UpTo(k + 1) == UpTo(k) + [k]
  {}

  lemma LabelsBefore<M(!new)>(p: Program<M>, k: nat, header: bool)
    requires OwnLinesAreText(p)
    ensures Labels(LinesTo(p, k) + GapAt(p, k).lines, header) == Labels(LinesTo(p, k), header)
  {
    TextHasNone(GapAt(p, k).lines, header);
    LabelsAppend(LinesTo(p, k), GapAt(p, k).lines, header);
  }

  lemma LabelsOfFailure<M(!new)>(p: Program<M>, k: nat, header: bool)
    requires OwnLinesAreText(p)
    ensures Labels(LinesTo(p, k) + GapAt(p, k).lines + [Header(k)] + [Fail(k)] + p.closing(MemAt(p, k + 1)), header) ==
            if header then UpTo(k + 1) else [k]
  {
    var a, c := LinesTo(p, k + 1), p.closing(MemAt(p, k + 1));
    LabelsTo(p, k + 1, header);
    OneLine(Fail(k), header);
    TextHasNone(c, header);
    LabelsAppend(a, [Fail(k)], header);
    LabelsAppend(a + [Fail(k)], c, header);
  }

  /** The log has the headers of the labels 0 up to the failing one and its failure; without a failing
      action it has no failure, and the headers of all labels that were reached. */
  lemma HeadersOfMeaning<M(!new)>(p: Program<M>, k: nat)
    requires OwnLinesAreText(p)
    ensures FailsAt(p, k) ==> Headers(Meaning(p).lines) == UpTo(k + 1) && Failures(Meaning(p).lines) == [k]
    ensures GivesUpAt(p, k) ==> Headers(Meaning(p).lines) == UpTo(k) && Failures(Meaning(p).lines) == []
    ensures Succeeds(p) ==> Headers(Meaning(p).lines) == UpTo(p.labels) && Failures(Meaning(p).lines) == []
  {
    LabelsOfMeaning(p, k, true);
    LabelsOfMeaning(p, k, false);
  }

  lemma LabelsOfMeaning<M(!new)>(p: Program<M>, k: nat, header: bool)
    requires OwnLinesAreText(p)
    ensures FailsAt(p, k) ==> Labels(Meaning(p).lines, header) == if header then UpTo(k + 1) else [k]
    ensures GivesUpAt(p, k) ==> Labels(Meaning(p).lines, header) == if header then UpTo(k) else []
    ensures Succeeds(p) ==> Labels(Meaning(p).lines, header) == if header then UpTo(p.labels) else []
  {
    if FailsAt(p, k) {
      MeaningOfFailure(p, k);
      LabelsOfFailure(p, k, header);
    }
    if GivesUpAt(p, k) {
      MeaningOfGivingUp(p, k);
      LabelsTo(p, k, header);
      LabelsBefore(p, k, header);
    }
    if Succeeds(p) {
      MeaningOfSuccess(p);
      LabelsOfSuccess(p, header);
    }
  }

  lemma LabelsOfSuccess<M(!new)>(p: Program<M>, header: bool)
    requires OwnLinesAreText(p)
    ensures var n := p.labels;
      Labels(LinesTo(p, n) + GapAt(p, n).lines + p.closing(GapAt(p, n).mem), header) == if header then UpTo(n) else []
  {
    var n := p.labels;
    var c := p.closing(GapAt(p, n).mem);
    LabelsTo(p, n, header);
    LabelsBefore(p, n, header);
    TextHasNone(c, header);
    LabelsAppend(LinesTo(p, n) + GapAt(p, n).lines, c, header);
  }
}
