/** The robust list of futex/robust.c: a circular, singly linked list through the futexes a thread
    holds, and the `list_op_pending` slot.  Every assignment of acquire_rfutex and add_rfutex is a
    method of its own, so a contract speaks about every moment at which the thread may die. */
module RobustList {

  /** A list element: the futex word and its link.  The list head is one too; its word is not used. */
  class Futex {
    var tid: nat
    var died: bool
    var next: Futex

    constructor ()
      ensures next == this && tid == 0 && !died
    {
      tid := 0;
      died := false;
      next := this;
    }
  }

  class RobustListHead {
    const head: Futex
    var pending: Futex?
    ghost var entries: seq<Futex>         // the futexes on the list, the latest first
    ghost const futexes: set<Futex>       // all futexes there are

    ghost function Nth(i: int): Futex
      reads this
      requires -1 <= i <= |entries|
    {
      if 0 <= i < |entries| then entries[i] else head
    }

    /** The links lead from the head through exactly the entries and back to the head. */
    ghost predicate Valid()
      reads this, head, futexes
    {
      && head !in futexes
      && (pending != null ==> pending in futexes)
      && (forall i | 0 <= i < |entries| :: entries[i] in futexes)
      && (forall i, j | 0 <= i < j < |entries| :: entries[i] != entries[j])
      && head.next == Nth(0)
      && forall i | 0 <= i < |entries| :: entries[i].next == Nth(i + 1)
    }

    /** Every futex that carries the TID is on the list or pending, so the kernel will find it. */
    ghost predicate Covered(tid: nat)
      reads this, futexes
    {
      forall f | f in futexes && f.tid == tid :: f in entries || f == pending
    }

    constructor (ghost all: set<Futex>)
      ensures Valid() && entries == [] && pending == null && futexes == all && fresh(head)
    {
      head := new Futex();
      pending := null;
      entries := [];
      futexes := all;
    }

    method SetPending(rf: Futex)
      requires Valid() && rf in futexes
      modifies this`pending
      ensures Valid() && pending == rf
      ensures forall t :: old(pending) == null && old(Covered(t)) ==> Covered(t)
    {
      pending := rf;
    }

    /** atomic_set or a successful compare-exchange: only a pending futex is taken. */
    method TakeWord(rf: Futex, tid: nat)
      requires Valid() && pending == rf && rf in futexes
      modifies rf`tid, rf`died
      ensures Valid() && rf.tid == tid && !rf.died
      ensures forall t :: old(Covered(t)) ==> Covered(t)
    {
      rf.tid := tid;
      rf.died := false;
    }

    /** rf->rlist.next = rlist.list.next */
    method LinkNext(rf: Futex)
      requires Valid() && rf in futexes && rf !in entries
      modifies rf`next
      ensures Valid() && rf.next == head.next
      ensures forall t :: old(Covered(t)) ==> Covered(t)
    {
      rf.next := head.next;
    }

    /** rlist.list.next = &rf->rlist */
    method LinkHead(rf: Futex)
      requires Valid() && rf in futexes && rf !in entries && rf.next == head.next
      modifies head`next, this`entries
      ensures Valid() && entries == [rf] + old(entries)
      ensures forall t :: old(Covered(t)) ==> Covered(t)
    {
      head.next := rf;
      entries := [rf] + entries;
      assert forall i | 1 <= i < |entries| :: entries[i].next == Nth(i + 1) by {
        assert forall i | 1 <= i < |entries| :: entries[i] == old(entries)[i - 1];
      }
    }

    method ClearPending()
      requires Valid() && (pending != null ==> pending in entries)
      modifies this`pending
      ensures Valid() && pending == null
      ensures forall t :: old(Covered(t)) ==> Covered(t)
    {
      pending := null;
    }

    /** The list part of acquire_rfutex followed by add_rfutex, stopped after `steps` assignments. */
    method Acquire(rf: Futex, tid: nat, steps: nat)
      requires Valid() && Covered(tid) && pending == null && rf in futexes && rf !in entries
      modifies this`pending, this`entries, head`next, rf
      ensures Valid() && Covered(tid)
      ensures entries == if steps < 4 then old(entries) else [rf] + old(entries)
      ensures steps >= 2 ==> rf.tid == tid && !rf.died
      ensures steps < 2 ==> rf.tid == old(rf.tid) && rf.died == old(rf.died)
      ensures steps >= 5 ==> pending == null
    {
      if steps >= 1 { SetPending(rf); }
      if steps >= 2 { TakeWord(rf, tid); }
      if steps >= 3 { LinkNext(rf); }
      if steps >= 4 { LinkHead(rf); }
      if steps >= 5 { ClearPending(); }
    }

    method HandleDeath(f: Futex, tid: nat)
      modifies f`tid, f`died
      ensures old(f.tid) == tid ==> f.tid == 0 && f.died
      ensures old(f.tid) != tid ==> f.tid == old(f.tid) && f.died == old(f.died)
    {
      if f.tid == tid {
        f.tid := 0;
        f.died := true;
      }
    }

    /** What the exit walk must do to a futex. */
    twostate predicate Recovered(f: Futex, tid: nat)
      reads f
    {
      if old(f.tid) == tid then f.tid == 0 && f.died else f.tid == old(f.tid) && f.died == old(f.died)
    }

    /** The kernel's walk at exit: every futex on the list, then the pending one. */
    method ExitWalk(tid: nat)
      requires Valid() && tid > 0
      modifies futexes
      ensures forall f | f in futexes ::
        if f in entries || f == pending then Recovered(f, tid)
        else f.tid == old(f.tid) && f.died == old(f.died)
    {
      var e := head.next;
      ghost var n := 0;
      while e != head
        invariant 0 <= n <= |entries| && e == Nth(n)
        invariant Valid()
        invariant forall i | 0 <= i < n :: Recovered(entries[i], tid)
        invariant forall f | f in futexes && f !in entries[..n] :: f.tid == old(f.tid) && f.died == old(f.died)
        decreases |entries| - n
      {
        HandleDeath(e, tid);
        e := e.next;
        n := n + 1;
      }
      if pending != null {
        HandleDeath(pending, tid);
      }
    }

    /** Death coverage.  Whichever of the assignments the thread dies after, and however many
        futexes it has acquired before, the kernel takes its TID out of every futex, marks those
        dead and leaves all others alone. */
    method DieWhileAcquiring(rf: Futex, tid: nat, steps: nat)
      requires Valid() && Covered(tid) && pending == null && rf in futexes && rf !in entries && tid > 0
      modifies this`pending, this`entries, head`next, futexes
      ensures forall f | f in futexes :: f.tid != tid
      ensures forall f | f in futexes && (old(f.tid) == tid || (f == rf && steps >= 2)) :: f.tid == 0 && f.died
      ensures forall f | f in futexes && old(f.tid) != tid && !(f == rf && steps >= 2) ::
        f.tid == old(f.tid) && f.died == old(f.died)
    {
      Acquire(rf, tid, steps);
      ExitWalk(tid);
    }
  }
}
