/** The ring of epoll sets of epoll/cycle.c: how it is built and how it is walked.

    Set i watches set i - 1, and set 0 watches the last one, which also watches the two ends of a pipe.
 */
module EpollRing {

  const WORD := 0x1_0000_0000

  /** Conversion of an int to unsigned int. */
  function Unsigned(x: int): nat { x % WORD }

  /** ~x on a two's complement int. */
  function Complement(x: int): int { -x - 1 }

  /** (unsigned int)(i - 1) % ~(n - 1) */
  function PreviousIndex(i: int, n: int): nat
    requires 1 <= n < WORD / 2
  {
    Unsigned(i - 1) % Unsigned(Complement(n - 1))
  }

  /** The set before set `i` in a ring of `n`. */
  function Predecessor(i: nat, n: nat): nat
    requires i < n
  {
    if i == 0 then n - 1 else i - 1
  }

  lemma ModuloOnce(x: nat, m: nat)
    requires 0 < m && x < 2 * m
    ensures x % m == if x < m then x else x - m
  {}

  /** For every circumference an int can hold, the expression is the predecessor in the ring. */
  lemma PreviousIsPredecessor(i: nat, n: nat)
    requires i < n < WORD / 2
    ensures PreviousIndex(i, n) == Predecessor(i, n)
  {
    assert Unsigned(Complement(n - 1)) == WORD - n;
    ModuloOnce(if i == 0 then WORD - 1 else i - 1, WORD - n);
  }

  datatype Mask = Mask(into: bool, out: bool, edge: bool)

  datatype Event = Timeout | Event(fd: int, into: bool, out: bool)

  datatype Outcome = Ended(last: nat) | TimedOut | Unexpected

  type Watched = map<int, map<int, Mask>>

  /** The kernel's side: which descriptors each epoll set watches, and for what. */
  class Kernel {
    var watch: Watched
    var unused: nat

    ghost predicate Valid() reads this { forall fd | fd in watch :: fd < unused }

    constructor (unused: nat)
      ensures watch == map[] && this.unused == unused && Valid()
    {
      watch := map[];
      this.unused := unused;
    }

    method EpollCreate() returns (fd: int)
      requires Valid()
      modifies this
      ensures Valid() && old(unused) <= unused
      ensures fd < 0 ==> watch == old(watch)
      ensures fd >= 0 ==> old(unused) <= fd < unused && watch == old(watch)[fd := map[]]
    {
      if * {
        fd := -1;
      } else {
        fd := unused;
        unused := unused + 1;
        watch := watch[fd := map[]];
      }
    }

    /** EPOLL_CTL_ADD; the kernel may refuse. */
    method Add(efd: int, fd: int, mask: Mask) returns (ok: bool)
      requires Valid() && efd in watch
      modifies this`watch
      ensures Valid() && (ok ==> fd !in old(watch)[efd])
      ensures watch == if ok then old(watch)[efd := old(watch)[efd][fd := mask]] else old(watch)
    {
      ok := *;
      if fd in watch[efd] {
        ok := false;
      }
      if ok {
        watch := watch[efd := watch[efd][fd := mask]];
      }
    }

    /** An event is about a watched descriptor and was asked for; an epoll set can only become readable. */
    method Wait(efd: int) returns (ev: Event)
      requires efd in watch
      ensures ev.Event? ==> ev.fd in watch[efd] && (ev.into || ev.out)
      ensures ev.Event? ==> (ev.into ==> watch[efd][ev.fd].into) && (ev.out ==> watch[efd][ev.fd].out)
      ensures ev.Event? && ev.fd in watch ==> !ev.out
    {
      ev := Timeout;
      if fd :| fd in watch[efd] {
        var into: bool, out: bool := *, *;
        into := into && watch[efd][fd].into;
        out := out && watch[efd][fd].out && fd !in watch;
        if into || out {
          ev := Event(fd, into, out);
        }
      }
    }
  }

  const RING := Mask(true, true, true)

  const READABLE := Mask(true, false, false)

  const WRITABLE := Mask(false, true, false)

  /** Sets below `k` exist; each of them but the first watches just the one before it. */
  ghost predicate Chain(watch: Watched, efd: seq<int>, k: nat)
    requires k <= |efd|
  {
    && (forall i | 0 <= i < k :: efd[i] in watch)
    && (forall i, j | 0 <= i < j < k :: efd[i] != efd[j])
    && (forall i | 0 < i < k :: watch[efd[i]] == map[efd[i - 1] := RING])
    && (k > 0 ==> watch[efd[0]] == map[])
  }

  /** Set `i` watches the set before it in the ring and nothing else. */
  ghost predicate OneEdge(watch: Watched, efd: seq<int>, i: nat)
    requires i < |efd|
  {
    efd[i] in watch && watch[efd[i]] == map[efd[Predecessor(i, |efd|)] := RING]
  }

  /** The finished ring. */
  ghost predicate Ring(watch: Watched, efd: seq<int>, r: int, w: int) {
    var n := |efd|;
    && n >= 2
    && (forall i | 0 <= i < n - 1 :: OneEdge(watch, efd, i))
    && efd[n - 1] in watch && watch[efd[n - 1]] == map[efd[n - 2] := RING, r := READABLE, w := WRITABLE]
  }

  /** Create the sets, each watching the one before. */
  method MakeChain(kernel: Kernel, efd: array<int>) returns (ok: bool)
    requires kernel.Valid() && efd.Length >= 2
    modifies kernel, efd
    ensures kernel.Valid() && old(kernel.unused) <= kernel.unused
    ensures ok ==> Chain(kernel.watch, efd[..], efd.Length)
    ensures forall fd | fd in kernel.watch :: fd in old(kernel.watch) || old(kernel.unused) <= fd
  {
    for i := 0 to efd.Length
      invariant kernel.Valid() && Chain(kernel.watch, efd[..], i) && old(kernel.unused) <= kernel.unused
      invariant forall fd | fd in kernel.watch :: fd in old(kernel.watch) || old(kernel.unused) <= fd
    {
      efd[i] := kernel.EpollCreate();
      if efd[i] < 0 {
        return false;
      }
      if i == 0 {
        continue;
      }
      ok := kernel.Add(efd[i], efd[i - 1], RING);
      if !ok {
        return;
      }
    }
    ok := true;
  }

  /** Close the ring and put the pipe into the last set. */
  method MakeRing(kernel: Kernel, efd: array<int>, r: int, w: int) returns (ok: bool)
    requires kernel.Valid() && efd.Length >= 2 && r != w && r < kernel.unused && w < kernel.unused
    requires r !in kernel.watch && w !in kernel.watch
    modifies kernel, efd
    ensures ok ==> Ring(kernel.watch, efd[..], r, w) && r !in kernel.watch && w !in kernel.watch
  {
    var n := efd.Length;
    ok := MakeChain(kernel, efd);
    if !ok {
      return;
    }
    ghost var chain := kernel.watch;
    ok := kernel.Add(efd[0], efd[n - 1], RING);
    if !ok {
      return;
    }
    ghost var closed := kernel.watch;
    ok := kernel.Add(efd[n - 1], r, READABLE);
    if !ok {
      return;
    }
    ok := kernel.Add(efd[n - 1], w, WRITABLE);
    if ok {
      ClosedChain(chain, closed, efd[..]);
      WithPipe(chain, closed, kernel.watch, efd[..], r, w);
    }
  }

  lemma ClosedChain(chain: Watched, closed: Watched, efd: seq<int>)
    requires |efd| >= 2 && Chain(chain, efd, |efd|)
    requires closed == chain[efd[0] := chain[efd[0]][efd[|efd| - 1] := RING]]
    ensures forall i | 0 <= i < |efd| :: OneEdge(closed, efd, i)
  {}

  lemma WithPipe(chain: Watched, closed: Watched, watch: Watched, efd: seq<int>, r: int, w: int)
    requires |efd| >= 2 && Chain(chain, efd, |efd|)
    requires forall i | 0 <= i < |efd| :: OneEdge(closed, efd, i)
    requires var last := efd[|efd| - 1];
      last in closed && watch == closed[last := closed[last][r := READABLE][w := WRITABLE]]
    ensures Ring(watch, efd, r, w)
  {
    forall i | 0 <= i < |efd| - 1 ensures OneEdge(watch, efd, i) {
      assert OneEdge(closed, efd, i) && efd[i] != efd[|efd| - 1];
    }
    assert OneEdge(closed, efd, |efd| - 1);
  }

  /** Wait on set `i` for set `j` to become readable.  In the ring it watches nothing else, so no other event
      can come; in whatever the sets watch, it goes on only if set `i` watches set `j` for that. */
  method Await(kernel: Kernel, efd: array<int>, i: nat, j: nat, ghost r: int, ghost w: int) returns (outcome: Outcome)
    requires i < efd.Length - 1 && j == Predecessor(i, efd.Length) && efd[i] in kernel.watch
    ensures outcome.Ended? ==> outcome == Ended(j) && IsEdge(kernel.watch, efd[..], (i, j))
    ensures Ring(kernel.watch, efd[..], r, w) ==> outcome != Unexpected
  {
    ghost var ring := Ring(kernel.watch, efd[..], r, w);
    assert ring ==> OneEdge(kernel.watch, efd[..], i);
    var ev := kernel.Wait(efd[i]);
    if ev.Timeout? {
      return TimedOut;
    }
    assert ring && j < efd.Length - 1 ==> OneEdge(kernel.watch, efd[..], j);
    if ev.fd != efd[j] || !ev.into {
      return Unexpected;
    }
    outcome := Ended(j);
  }

  /** The first `m` pairs of source and target on the long way round. */
  function Route(n: nat, m: nat): seq<(nat, nat)>
    requires m < n
  {
    seq(m, k requires 0 <= k < m => (n - 2 - k, Predecessor(n - 2 - k, n)))
  }

  /** Every pair is an edge of the ring, each target is the next source, and the whole route starts at the
      last set but one and ends at the last set, which holds the pipe. */
  lemma RouteFollowsRing(watch: Watched, efd: seq<int>, r: int, w: int, m: nat)
    requires Ring(watch, efd, r, w) && 0 < m < |efd|
    ensures var route := Route(|efd|, m);
      && (forall k | 0 <= k < m :: IsEdge(watch, efd, route[k]))
      && (forall k | 0 < k < m :: route[k].0 == route[k - 1].1)
      && route[0].0 == |efd| - 2
      && (m == |efd| - 1 ==> route[m - 1].1 == |efd| - 1)
    ensures r != w && r !in efd && w !in efd ==>
              var pipe := watch[efd[|efd| - 1]];
              && r in pipe && pipe[r].into && !pipe[r].out
              && w in pipe && pipe[w].out && !pipe[w].into
  {
    var route := Route(|efd|, m);
    forall k | 0 <= k < m ensures IsEdge(watch, efd, route[k]) {
      SetWatchesPredecessor(watch, efd, r, w, |efd| - 2 - k);
    }
    forall k | 0 < k < m ensures route[k].0 == route[k - 1].1 {
      assert route[k - 1] == (|efd| - 2 - (k - 1), Predecessor(|efd| - 2 - (k - 1), |efd|));
    }
    assert route[m - 1] == (|efd| - 2 - (m - 1), Predecessor(|efd| - 2 - (m - 1), |efd|));
  }

  /** The first set of the pair watches the second, for becoming readable too. */
  ghost predicate IsEdge(watch: Watched, efd: seq<int>, pair: (nat, nat)) {
    && pair.0 < |efd| && pair.1 < |efd| && efd[pair.0] in watch && efd[pair.1] in watch[efd[pair.0]]
    && watch[efd[pair.0]][efd[pair.1]].into
  }

  lemma SetWatchesPredecessor(watch: Watched, efd: seq<int>, r: int, w: int, i: nat)
    requires Ring(watch, efd, r, w) && i < |efd| - 1
    ensures IsEdge(watch, efd, (i, Predecessor(i, |efd|)))
  {
    assert i < |efd| - 1 ==> OneEdge(watch, efd, i);
  }

  /** The walk.  It waits along the route and ends at the last set, or at the first wait without the event.
      Whatever the sets watch, it gets to the end only if every pair of the route is an edge; and in the
      ring an unexpected event never ends it. */
  method Walk(kernel: Kernel, efd: array<int>, ghost r: int, ghost w: int)
    returns (outcome: Outcome, pairs: seq<(nat, nat)>)
    requires 2 <= efd.Length < WORD / 2 && forall i | 0 <= i < efd.Length :: efd[i] in kernel.watch
    ensures 0 < |pairs| < efd.Length && pairs == Route(efd.Length, |pairs|)
    ensures outcome.Ended? ==> outcome.last == efd.Length - 1 && |pairs| == efd.Length - 1
    ensures outcome.Ended? ==> forall k | 0 <= k < |pairs| :: IsEdge(kernel.watch, efd[..], pairs[k])
    ensures Ring(kernel.watch, efd[..], r, w) ==> outcome != Unexpected
  {
    var n := efd.Length;
    var j: nat := n - 1;
    var i := n - 2;
    pairs := [];
    outcome := Ended(j);
    while i > -1
      invariant -1 <= i <= n - 2 && pairs == Route(n, n - 2 - i)
      invariant outcome == Ended(j) && j == if i == n - 2 then n - 1 else Predecessor(i + 1, n)
      invariant forall k | 0 <= k < |pairs| :: IsEdge(kernel.watch, efd[..], pairs[k])
    {
      j := PreviousIndex(i, n);
      PreviousIsPredecessor(i, n);
      pairs := pairs + [(i, j)];
      outcome := Await(kernel, efd, i, j, r, w);
      if !outcome.Ended? {
        return;
      }
      i := i - 1;
    }
  }
}
