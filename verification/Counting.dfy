/** Counting parties. */
module Counting {

  /** Nothing is listed twice. */
  ghost predicate Distinct<T>(s: seq<T>) { forall i, j | 0 <= i < j < |s| :: s[i] != s[j] }

  /** How often a loop counts down from `n`. */
  function AtLeastZero(n: int): nat { if n > 0 then n else 0 }

  /** A set of numbers below `n` has at most `n` members, and all of them if it has `n`. */
  lemma {:induction false} SubsetBelow(n: nat, a: set<nat>)
    requires forall x | x in a :: x < n
    ensures |a| <= n
    ensures |a| == n ==> forall x | 0 <= x < n :: x in a
  {
    if n == 0 {
      assert a == {};
    } else {
      var rest := a - {n - 1};
      SubsetBelow(n - 1, rest);
      assert |a| == |rest| + (if n - 1 in a then 1 else 0) by {
        assert n - 1 !in a ==> rest == a;
      }
      forall x | |a| == n && 0 <= x < n ensures x in a {
        assert x < n - 1 ==> x in rest;
      }
    }
  }

  /** All numbers below `n` are `n` numbers. */
  lemma {:induction false} CountBelow(n: nat, a: set<nat>)
    requires forall x: nat :: x in a <==> x < n
    ensures |a| == n
  {
    if n == 0 {
      assert a == {};
    } else {
      CountBelow(n - 1, a - {n - 1});
    }
  }

  function Sum(ranks: seq<nat>): nat {
    if ranks == [] then 0 else ranks[0] + Sum(ranks[1..])
  }

  lemma {:induction false} SumUpdate(ranks: seq<nat>, i: nat, r: nat)
    requires i < |ranks|
    ensures Sum(ranks[i := r]) == Sum(ranks) - ranks[i] + r
  {
    if i == 0 {
      assert ranks[i := r][1..] == ranks[1..];
    } else {
      assert ranks[i := r][1..] == ranks[1..][i - 1 := r];
      SumUpdate(ranks[1..], i - 1, r);
    }
  }

  lemma {:induction false} SumAppend(ranks: seq<nat>, r: nat)
    ensures Sum(ranks + [r]) == Sum(ranks) + r
  {
    if ranks != [] {
      assert (ranks + [r])[1..] == ranks[1..] + [r];
      SumAppend(ranks[1..], r);
    } else {
      assert ranks + [r] == [r] && [r][1..] == [];
    }
  }
}
