/** futex/robust.c: a parent gives up a robust futex, the children pass it on by dying with it.

    One step is one access to the shared word, one wait-queue operation of the kernel or one
    assignment to the robust list.  A thread is known by its TID; TIDs are positive and distinct.
    The kernel is taken as documented in the header of the file: FUTEX_WAIT compares and sleeps in
    one step, FUTEX_WAKE wakes at most one sleeper here, the exit walk sets FUTEX_OWNER_DIED in a
    futex that still carries the dead thread's TID and wakes one sleeper.  Whether it also clears
    the TID is left open: both are possible.
 */
module RobustFutex {
  import opened Runs

  /** The futex word: TID, FUTEX_WAITERS and FUTEX_OWNER_DIED. */
  datatype Word = Word(tid: nat, waiters: bool, died: bool)

  const FREE := Word(0, false, false)

  datatype Pc =
    | SetPending | ReadOld | TryFree | MarkWaiters | Wait | Asleep | Again   // acquire_rfutex, the loop
    | Holding | Recover | LinkNext | LinkHead | ClearPending | Exiting       // "holding futex" up to exit
    | Leaving                                                                // exit without the futex
    | WakeNext                                                               // the exit walk wakes one
    | Gone

  /** A child's registers and its robust list: `pending` and `listed` refer to the one futex. */
  datatype Kid = Kid(pc: Pc, oldval: Word, val: Word, pending: bool, listed: bool, fail: nat)

  datatype ParentPc = Owns | Waking | Released

  /** `held` and `sawDied` record who came to hold the futex and whether OWNER_DIED was seen. */
  datatype State = State(
    parent: nat, word: Word, ppc: ParentPc, kids: map<nat, Kid>, held: seq<nat>, sawDied: seq<bool>)

  datatype Event =
    | Run(kid: nat)                          // the kid's next step
    | Interrupted(kid: nat)                  // FUTEX_WAIT returns EINTR or ERESTART
    | GivesUp(kid: nat)                      // FUTEX_WAIT times out or fails otherwise
    | Dies(kid: nat, keepTid: bool)          // the exit walk reaches the futex
    | Wakes(kid: nat, woken: nat)            // ... and wakes a sleeper
    | WakesNone(kid: nat)                    // ... or finds nobody asleep
    | Release                                // the parent's compare-exchange
    | ParentWakes(woken: nat)
    | ParentWakesNone

  const FreshKid := Kid(SetPending, FREE, FREE, false, false, 0)

  ghost predicate Init(s: State) {
    && s.parent > 0 && s.parent !in s.kids && 0 !in s.kids
    && s.word == Word(s.parent, false, false) && s.ppc == Owns
    && (forall i | i in s.kids :: s.kids[i] == FreshKid)
    && s.held == [] && s.sawDied == []
  }

  predicate NoSleeper(s: State) { forall i | i in s.kids :: s.kids[i].pc != Asleep }

  function Put(s: State, i: nat, k: Kid): State { s.(kids := s.kids[i := k]) }

  /** A kid's own next step; sleeping and dying have events of their own. */
  function KidStep(s: State, i: nat): Option<State>
    requires i in s.kids
  {
    var k := s.kids[i];
    match k.pc
    case SetPending => Some(Put(s, i, k.(pc := ReadOld, pending := true)))
    case ReadOld => Some(Put(s, i, k.(pc := TryFree, oldval := s.word)))
    case TryFree =>                                     // val = cmpxchg(0, tid)
      if s.word == FREE then
        Some(Put(s, i, k.(pc := Holding, fail := k.fail + 1)).(word := Word(i, false, false), held := s.held + [i]))
      else Some(Put(s, i, k.(pc := MarkWaiters)))
    case MarkWaiters =>                                 // val = or_and_fetch(FUTEX_WAITERS)
      var w := s.word.(waiters := true);
      Some(Put(s, i, k.(pc := Wait, val := w)).(word := w))
    case Wait =>                                        // FUTEX_WAIT compares and sleeps
      Some(Put(s, i, k.(pc := if s.word == k.val then Asleep else Again)))
    case Again =>                                       // EAGAIN
      Some(Put(s, i, k.(pc := if s.word != k.oldval then Leaving else TryFree)))
    case Holding =>
      Some(Put(s, i, k.(pc := Recover, val := s.word)).(sawDied := s.sawDied + [s.word.died]))
    case Recover =>                                     // set(tid | (val & FUTEX_WAITERS))
      Some(Put(s, i, k.(pc := LinkNext)).(word := Word(i, k.val.waiters, false)))
    case LinkNext => Some(Put(s, i, k.(pc := LinkHead)))
    case LinkHead => Some(Put(s, i, k.(pc := ClearPending, listed := true)))
    case ClearPending => Some(Put(s, i, k.(pc := Exiting, pending := false)))
    case _ => None
  }

  /** FUTEX_WAKE hands the sleeper `j` a successful FUTEX_WAIT. */
  function Wake(s: State, j: nat): Option<State> {
    if j in s.kids && s.kids[j].pc == Asleep
    then Some(Put(s, j, s.kids[j].(pc := Holding)).(held := s.held + [j])) else None
  }

  function Step(s: State, e: Event): Option<State> {
    match e
    case Run(i) => if i in s.kids then KidStep(s, i) else None
    case Interrupted(i) =>
      if i in s.kids && s.kids[i].pc == Asleep then Some(Put(s, i, s.kids[i].(pc := TryFree))) else None
    case GivesUp(i) =>
      if i in s.kids && (s.kids[i].pc.Asleep? || s.kids[i].pc.Wait?)
      then Some(Put(s, i, s.kids[i].(pc := Leaving, fail := s.kids[i].fail + 1))) else None
    case Dies(i, keep) =>
      if i !in s.kids || !(s.kids[i].pc.Exiting? || s.kids[i].pc.Leaving?) then None
      else if (s.kids[i].pending || s.kids[i].listed) && s.word.tid == i then
        Some(Put(s, i, s.kids[i].(pc := WakeNext)).(word := Word(if keep then i else 0, s.word.waiters, true)))
      else Some(Put(s, i, s.kids[i].(pc := Gone)))
    case Wakes(i, j) =>
      if i in s.kids && s.kids[i].pc == WakeNext then Wake(Put(s, i, s.kids[i].(pc := Gone)), j) else None
    case WakesNone(i) =>
      if i in s.kids && s.kids[i].pc == WakeNext && NoSleeper(s)
      then Some(Put(s, i, s.kids[i].(pc := Gone))) else None
    case Release =>
      if s.ppc != Owns then None
      else if s.word == Word(s.parent, false, false) then Some(s.(word := FREE, ppc := Released))
      else Some(s.(ppc := Waking))
    case ParentWakes(j) => if s.ppc == Waking then Wake(s.(ppc := Released), j) else None
    case ParentWakesNone =>
      if s.ppc == Waking && NoSleeper(s) then Some(s.(ppc := Released)) else None
  }

  // ---------------------------------------------------------------- mutual exclusion

  /** Between "holding futex" and exit. */
  predicate Critical(pc: Pc) {
    pc.Holding? || pc.Recover? || pc.LinkNext? || pc.LinkHead? || pc.ClearPending? || pc.Exiting?
  }

  /** After the word has been set to the own TID. */
  predicate Recovered(pc: Pc) { pc.LinkNext? || pc.LinkHead? || pc.ClearPending? || pc.Exiting? }

  /** The right to hold the futex rests with one party at most: the free word, the parent, or a kid
      that holds it or is about to wake a successor. */
  ghost predicate HasTurn(s: State, i: nat) {
    i in s.kids && (Critical(s.kids[i].pc) || s.kids[i].pc == WakeNext)
  }

  ghost predicate OneTurn(s: State) {
    && (forall i, j | HasTurn(s, i) && HasTurn(s, j) :: i == j)
    && (s.word == FREE || s.ppc != Released ==> forall i :: !HasTurn(s, i))
    && (s.ppc != Released ==> s.word.tid == s.parent && !s.word.died)
    && (s.word == FREE ==> s.ppc == Released)
    && (s.word.tid in s.kids ==> HasTurn(s, s.word.tid) || s.kids[s.word.tid].pc == Gone)
  }

  ghost predicate Inv(s: State) {
    s.parent > 0 && s.parent !in s.kids && 0 !in s.kids && OneTurn(s)
  }

  lemma RunKeepsInv(s: State, i: nat)
    requires Inv(s) && i in s.kids && KidStep(s, i).Some?
    ensures Inv(KidStep(s, i).value)
  {
    var t := KidStep(s, i).value;
    assert forall j | j != i :: HasTurn(t, j) == HasTurn(s, j);
    if s.kids[i].pc == TryFree && s.word == FREE {
      assert forall j :: HasTurn(t, j) ==> j == i;
    } else {
      assert HasTurn(t, i) == HasTurn(s, i);
    }
  }

  /** The turn passes to a sleeper when nobody else has it. */
  lemma WakeKeepsInv(s: State, j: nat)
    requires s.parent > 0 && s.parent !in s.kids && 0 !in s.kids
    requires s.ppc == Released && s.word != FREE && (forall i :: !HasTurn(s, i)) && Wake(s, j).Some?
    requires s.word.tid in s.kids ==> s.kids[s.word.tid].pc == Gone
    ensures Inv(Wake(s, j).value)
  {
    assert forall x :: HasTurn(Wake(s, j).value, x) ==> HasTurn(s, x) || x == j;
  }

  lemma StepKeepsInv(s: State, e: Event)
    requires Inv(s) && Step(s, e).Some?
    ensures Inv(Step(s, e).value)
  {
    match e
    case Run(i) => RunKeepsInv(s, i);
    case Wakes(i, j) =>
      assert HasTurn(s, i);
      var r := Put(s, i, s.kids[i].(pc := Gone));
      assert forall x :: HasTurn(r, x) ==> HasTurn(s, x) && x != i;
      WakeKeepsInv(r, j);
    case ParentWakes(j) =>
      var r := s.(ppc := Released);
      assert forall x :: HasTurn(r, x) ==> HasTurn(s, x);
      WakeKeepsInv(r, j);
    case _ =>
      assert forall j :: HasTurn(Step(s, e).value, j) ==> HasTurn(s, j);
  }

  lemma Reachable(s: State, events: seq<Event>)
    requires Init(s)
    ensures var r := Exec(Step, s, events); r.Some? ==> Inv(r.value)
  {
    forall s, e | Inv(s) && Step(s, e).Some? ensures Inv(Step(s, e).value) {
      StepKeepsInv(s, e);
    }
    Invariance(Step, Inv, s, events);
  }

  /** Mutual exclusion, in every interleaving with any number of children, whichever way the
      parent's release goes and however FUTEX_WAIT fails. */
  lemma MutualExclusion(s: State, events: seq<Event>, i: nat, j: nat)
    requires Init(s) && Exec(Step, s, events).Some?
    requires var t := Exec(Step, s, events).value;
      i in t.kids && j in t.kids && Critical(t.kids[i].pc) && Critical(t.kids[j].pc)
    ensures i == j
    ensures Exec(Step, s, events).value.ppc == Released
  {
    Reachable(s, events);
    var t := Exec(Step, s, events).value;
    assert HasTurn(t, i) && HasTurn(t, j);
  }
}
