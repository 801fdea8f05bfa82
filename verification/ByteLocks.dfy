/** POSIX byte-range locks as a table of bytes: who holds which byte, and how. */
module ByteLocks {

  datatype Mode = Read | Write

  /** The bytes `start` up to `start + len`. */
  datatype Range = Range(start: nat, len: nat) {
    predicate Has(b: nat) { start <= b < start + len }
  }

  /** Keys are pairs of process and byte. */
  type Table = map<(nat, nat), Mode>

  /** Another process holds a byte of the range, and one of the two is a writer. */
  ghost predicate Conflict(t: Table, p: nat, m: Mode, r: Range) {
    exists q: nat, b: nat :: ConflictAt(t, p, m, r, q, b)
  }

  predicate ConflictAt(t: Table, p: nat, m: Mode, r: Range, q: nat, b: nat) {
    r.Has(b) && q != p && (q, b) in t && (m == Write || t[(q, b)] == Write)
  }

  /** The table after F_SETLK has succeeded: a process replaces its own locks on the range. */
  function Locked(t: Table, p: nat, m: Mode, r: Range): (u: Table)
    ensures forall q: nat, b: nat :: (q, b) in u <==> (q, b) in t || (q == p && r.Has(b))
    ensures forall q: nat, b: nat | (q, b) in u :: u[(q, b)] == if q == p && r.Has(b) then m else t[(q, b)]
  {
    var mine := map b | r.start <= b < r.start + r.len :: (p, b) := m;
    t + mine
  }

  /** The table after F_UNLCK on a range. */
  function Unlocked(t: Table, p: nat, r: Range): (u: Table)
    ensures forall q: nat, b: nat :: (q, b) in u <==> (q, b) in t && !(q == p && r.Has(b))
    ensures forall q: nat, b: nat | (q, b) in u :: u[(q, b)] == t[(q, b)]
  {
    map k | k in t && !(k.0 == p && r.Has(k.1)) :: t[k]
  }

  /** The table after process `p` has ended. */
  function Dropped(t: Table, p: nat): (u: Table)
    ensures forall q: nat, b: nat :: (q, b) in u <==> (q, b) in t && q != p
    ensures forall q: nat, b: nat | (q, b) in u :: u[(q, b)] == t[(q, b)]
  {
    map k | k in t && k.0 != p :: t[k]
  }

  ghost predicate HoldsAll(t: Table, p: nat, r: Range) { forall b: nat | r.Has(b) :: (p, b) in t }

  /** What the kernel guarantees: two processes share a byte only as readers. */
  ghost predicate Exclusive(t: Table) {
    forall p: nat, q: nat, b: nat | p != q && (p, b) in t && (q, b) in t :: t[(p, b)] == Read && t[(q, b)] == Read
  }

  lemma LockedKeepsExclusive(t: Table, p: nat, m: Mode, r: Range)
    requires Exclusive(t) && !Conflict(t, p, m, r)
    ensures Exclusive(Locked(t, p, m, r)) && HoldsAll(Locked(t, p, m, r), p, r)
  {
    var u := Locked(t, p, m, r);
    forall a: nat, q: nat, b: nat | a != q && (a, b) in u && (q, b) in u
      ensures u[(a, b)] == Read && u[(q, b)] == Read
    {
      assert !ConflictAt(t, p, m, r, a, b) && !ConflictAt(t, p, m, r, q, b);
    }
  }

  lemma FewerKeepsExclusive(t: Table, p: nat, r: Range)
    requires Exclusive(t)
    ensures Exclusive(Unlocked(t, p, r)) && Exclusive(Dropped(t, p))
  {
  }
}
