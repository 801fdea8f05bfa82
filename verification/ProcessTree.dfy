/** The process tree of process-tree/ptree1.c: who is forked, and under which id. */
module ProcessTree {
  import opened Counting
  import opened Decimal

  /** The number of the child taken at each level, from the top. */
  type Descent = seq<nat>

  /** The part of the id that tells the way down. */
  function Suffix(p: Descent): string {
    if p == [] then "" else "-" + Str(p[0]) + Suffix(p[1..])
  }

  lemma SuffixStart(p: Descent)
    ensures Suffix(p) == "" <==> p == []
    ensures p != [] ==> Suffix(p)[0] == '-'
  {}

  /** Where the digits end, the number ends. */
  lemma DigitsEnd(a: string, b: string, x: string, y: string)
    requires forall i | 0 <= i < |a| :: a[i] != '-'
    requires forall i | 0 <= i < |b| :: b[i] != '-'
    requires x == "" || x[0] == '-'
    requires y == "" || y[0] == '-'
    requires a + x == b + y
    ensures a == b && x == y
  {
    NotShorter(a, b, x, y);
    NotShorter(b, a, y, x);
    assert a == (a + x)[..|a|] && b == (b + y)[..|a|];
    assert x == (a + x)[|a|..] && y == (b + y)[|a|..];
  }

  lemma NotShorter(a: string, b: string, x: string, y: string)
    requires forall i | 0 <= i < |b| :: b[i] != '-'
    requires x == "" || x[0] == '-'
    requires a + x == b + y
    ensures |b| <= |a|
  {
    if x != "" {
      assert (a + x)[|a|] == '-';
    } else {
      assert |a + x| == |b + y|;
    }
  }

  /** Different ways down give different ids. */
  lemma {:induction false} SuffixInjective(p: Descent, q: Descent)
    requires Suffix(p) == Suffix(q)
    ensures p == q
  {
    SuffixStart(p);
    SuffixStart(q);
    if p != [] {
      var x, y := Suffix(p[1..]), Suffix(q[1..]);
      assert Str(p[0]) + x == Suffix(p)[1..];
      assert Str(q[0]) + y == Suffix(q)[1..];
      SuffixStart(p[1..]);
      SuffixStart(q[1..]);
      DigitsEnd(Str(p[0]), Str(q[0]), x, y);
      StrInjective(p[0], q[0]);
      SuffixInjective(p[1..], q[1..]);
      assert p == [p[0]] + p[1..] && q == [q[0]] + q[1..];
    }
  }

  function Pow(k: nat, n: nat): nat { if n == 0 then 1 else k * Pow(k, n - 1) }

  /** k + k^2 + ... + k^n */
  function Powers(k: nat, n: nat): nat { if n == 0 then 0 else Powers(k, n - 1) + Pow(k, n) }

  lemma {:induction false} PowersByLevel(k: nat, n: nat)
    ensures Powers(k, n + 1) == k * (1 + Powers(k, n))
  {
    if n == 0 {
      assert Pow(k, 1) == k * Pow(k, 0) == k;
    } else {
      PowersByLevel(k, n - 1);
      Distribute(k, 1 + Powers(k, n - 1), Pow(k, n));
    }
  }

  lemma Distribute(k: nat, a: nat, b: nat)
    ensures k * (a + b) == k * a + k * b
  {}

  /** A way down of at most `levels` steps among `k` children. */
  predicate Allowed(p: Descent, k: nat, levels: nat) { |p| <= levels && forall i | 0 <= i < |p| :: p[i] < k }

  /** How many levels are below a process that was forked at this depth. */
  function LevelsBelow(depth: int, maxDepth: int): nat { if depth < maxDepth then maxDepth - depth else 0 }

  /** sprintf(buf, "%s-%d", parent, i) */
  method FormatId(buf: array<char>, parent: string, i: nat)
    requires |parent| + |Str(i)| + 2 <= buf.Length
    modifies buf
    ensures buf[..|parent| + |Str(i)| + 2] == parent + "-" + Str(i) + "\0"
  {
    var text := parent + "-" + Str(i) + "\0";
    for n := 0 to |text|
      invariant buf[..n] == text[..n]
    {
      buf[n] := text[n];
    }
    assert text[..|text|] == text;
  }

  /** The string in the buffer, as the forked child has it. */
  method CopyId(buf: array<char>, parent: string, i: nat) returns (id: string)
    requires |parent| + |Str(i)| + 2 <= buf.Length
    requires buf[..|parent| + |Str(i)| + 2] == parent + "-" + Str(i) + "\0"
    ensures id == parent + "-" + Str(i)
  {
    id := buf[..|parent| + |Str(i)| + 1];
    assert id == buf[..|parent| + |Str(i)| + 2][..|parent| + |Str(i)| + 1];
  }

  /** An int in decimal fits into the 14 characters that the allocation leaves for it. */
  lemma NumberFits(i: nat)
    requires i < 0x8000_0000
    ensures |Str(i)| <= 10
  {
    assert Pow10(10) == 10_000_000_000 by {
      assert Pow10(5) == 100_000;
    }
    StrLength(i, 10);
  }

  /** The ways down through child `i`. */
  function Through(i: nat, below: seq<Descent>): seq<Descent> {
    seq(|below|, j requires 0 <= j < |below| => [i] + below[j])
  }

  /** The ids of a list of processes below `parent`. */
  ghost predicate Named(parent: string, ids: seq<string>, paths: seq<Descent>) {
    |ids| == |paths| && forall j | 0 <= j < |ids| :: ids[j] == parent + Suffix(paths[j])
  }

  /** Every way down from a process, with at most `levels` steps, exactly once. */
  ghost predicate AllWays(paths: seq<Descent>, k: nat, levels: nat) {
    Distinct(paths) && forall p :: p in paths <==> Allowed(p, k, levels)
  }

  /** Every way down that starts with one of the first `i` children. */
  ghost predicate WaysUpTo(paths: seq<Descent>, i: nat, k: nat, levels: nat) {
    Distinct(paths) && forall p :: p in paths <==> p != [] && p[0] < i && Allowed(p, k, levels + 1)
  }

  lemma OneMoreChild(paths: seq<Descent>, i: nat, below: seq<Descent>, k: nat, levels: nat)
    requires i < k && WaysUpTo(paths, i, k, levels) && AllWays(below, k, levels)
    ensures WaysUpTo(paths + Through(i, below), i + 1, k, levels)
  {
    var mine := Through(i, below);
    forall p ensures p in mine <==> p != [] && p[0] == i && Allowed(p, k, levels + 1) {
      if p in mine {
        var j :| 0 <= j < |mine| && mine[j] == p;
        assert below[j] in below;
      }
      if p != [] && p[0] == i && Allowed(p, k, levels + 1) {
        assert Allowed(p[1..], k, levels);
        var j :| 0 <= j < |below| && below[j] == p[1..];
        assert mine[j] == [i] + p[1..] == p;
      }
    }
    forall a, b | 0 <= a < b < |mine| ensures mine[a] != mine[b] {
      assert mine[a][1..] == below[a] && mine[b][1..] == below[b];
    }
    var all := paths + mine;
    forall a, b | 0 <= a < |paths| && 0 <= b < |mine| ensures paths[a] != mine[b] {
      assert paths[a] in paths && mine[b] in mine;
    }
    assert Distinct(all);
    forall p ensures p in all <==> p != [] && p[0] < i + 1 && Allowed(p, k, levels + 1) {
      assert p in all <==> p in paths || p in mine;
    }
  }

  lemma SelfAndBelow(below: seq<Descent>, k: nat, levels: nat)
    requires WaysUpTo(below, k, k, levels)
    ensures AllWays([[]] + below, k, levels + 1)
  {
    forall p ensures p in [[]] + below <==> Allowed(p, k, levels + 1) {
      assert p in [[]] + below <==> p == [] || p in below;
    }
    assert [] !in below;
  }

  /** The size of `i` subtrees. */
  function Times(i: nat, size: nat): nat { if i == 0 then 0 else Times(i - 1, size) + size }

  lemma {:induction false} TimesIsProduct(i: nat, size: nat)
    ensures Times(i, size) == i * size
  {
    if i > 0 {
      TimesIsProduct(i - 1, size);
    }
  }

  lemma SubtreesTogether(k: nat, levels: nat)
    ensures Times(k, 1 + Powers(k, levels)) == Powers(k, levels + 1)
  {
    TimesIsProduct(k, 1 + Powers(k, levels));
    PowersByLevel(k, levels);
  }

  lemma NamedTogether(parent: string, ids: seq<string>, paths: seq<Descent>, more: seq<string>, ways: seq<Descent>)
    requires Named(parent, ids, paths) && Named(parent, more, ways)
    ensures Named(parent, ids + more, paths + ways)
  {}

  lemma NamedThrough(parent: string, i: nat, ids: seq<string>, below: seq<Descent>)
    requires Named(parent + "-" + Str(i), ids, below)
    ensures Named(parent, ids, Through(i, below))
  {
    var paths := Through(i, below);
    forall j | 0 <= j < |ids| ensures ids[j] == parent + Suffix(paths[j]) {
      IdThrough(parent, i, below[j]);
    }
  }

  lemma IdThrough(parent: string, i: nat, p: Descent)
    ensures parent + "-" + Str(i) + Suffix(p) == parent + Suffix([i] + p)
  {
    assert ([i] + p)[1..] == p;
    SameId(parent, "-", Str(i), Suffix(p));
  }

  lemma SameId(a: string, b: string, c: string, d: string)
    ensures a + b + c + d == a + (b + c + d)
  {}

  /** The processes that a process with id `parent` forks, and their descendants.  Each child has its own
      copy of the buffer that its parent writes the next id into. */
  method CreateChildren(depth: int, maxDepth: int, numChildren: int, parent: string)
    returns (ids: seq<string>, ghost paths: seq<Descent>)
    requires numChildren < 0x8000_0000
    ensures |ids| == Powers(AtLeastZero(numChildren), LevelsBelow(depth, maxDepth) + 1)
    ensures Named(parent, ids, paths)
    ensures WaysUpTo(paths, AtLeastZero(numChildren), AtLeastZero(numChildren), LevelsBelow(depth, maxDepth))
    decreases LevelsBelow(depth, maxDepth), 1
  {
    var childId := new char[|parent| + 16];
    ghost var k, levels := AtLeastZero(numChildren), LevelsBelow(depth, maxDepth);
    ids, paths := [], [];
    var i := 0;
    while i < numChildren
      invariant 0 <= i <= k && Named(parent, ids, paths) && WaysUpTo(paths, i, k, levels)
      invariant |ids| == Times(i, 1 + Powers(k, levels))
    {
      NumberFits(i);
      FormatId(childId, parent, i);
      var own := CopyId(childId, parent, i);
      var more, below := DoChild(depth, maxDepth, numChildren, own);
      NamedThrough(parent, i, more, below);
      OneMoreChild(paths, i, below, k, levels);
      NamedTogether(parent, ids, paths, more, Through(i, below));
      ids, paths := ids + more, paths + Through(i, below);
      i := i + 1;
    }
    SubtreesTogether(k, levels);
  }

  /** A forked process and its descendants. */
  method DoChild(depth: int, maxDepth: int, numChildren: int, id: string)
    returns (ids: seq<string>, ghost paths: seq<Descent>)
    requires numChildren < 0x8000_0000
    ensures |ids| == 1 + Powers(AtLeastZero(numChildren), LevelsBelow(depth, maxDepth))
    ensures Named(id, ids, paths)
    ensures AllWays(paths, AtLeastZero(numChildren), LevelsBelow(depth, maxDepth))
    decreases LevelsBelow(depth, maxDepth), 0
  {
    ids, paths := [id], [[]];
    if depth < maxDepth {
      var more, below := CreateChildren(depth + 1, maxDepth, numChildren, id);
      SelfAndBelow(below, AtLeastZero(numChildren), LevelsBelow(depth + 1, maxDepth));
      ids, paths := ids + more, paths + below;
    }
  }

  lemma DistinctIds(parent: string, ids: seq<string>, paths: seq<Descent>)
    requires Named(parent, ids, paths) && Distinct(paths)
    ensures Distinct(ids)
  {
    forall i, j | 0 <= i < j < |ids| ensures ids[i] != ids[j] {
      if ids[i] == ids[j] {
        assert Suffix(paths[i]) == ids[i][|parent|..] == ids[j][|parent|..] == Suffix(paths[j]);
        SuffixInjective(paths[i], paths[j]);
      }
    }
  }

  lemma IdIsThere(parent: string, ids: seq<string>, paths: seq<Descent>, p: Descent)
    requires Named(parent, ids, paths)
    ensures parent + Suffix(p) in ids <==> p in paths
  {
    if j :| 0 <= j < |ids| && ids[j] == parent + Suffix(p) {
      assert Suffix(paths[j]) == ids[j][|parent|..] == Suffix(p);
      SuffixInjective(paths[j], p);
    }
    if j :| 0 <= j < |paths| && paths[j] == p {
      assert ids[j] == parent + Suffix(p);
    }
  }

  /** The private file of a process. */
  function DataFile(id: string): string { "data.d/ptree1-" + id + ".data" }

  lemma DataFileInjective(a: string, b: string)
    requires DataFile(a) == DataFile(b)
    ensures a == b
  {
    var n := |"data.d/ptree1-"|;
    assert a == DataFile(a)[n..n + |a|];
    assert b == DataFile(b)[n..n + |b|];
  }

  /** The whole tree: k + k^2 + ... + k^D descendants, each with a private file that no other one has, and
      none with the id of the main process.  A depth below one still gives the first level. */
  method Run(maxDepth: int, numChildren: int) returns (ids: seq<string>)
    requires numChildren < 0x8000_0000
    ensures |ids| == Powers(AtLeastZero(numChildren), if maxDepth >= 1 then maxDepth else 1)
    ensures forall i, j | 0 <= i < j < |ids| :: ids[i] != ids[j] && DataFile(ids[i]) != DataFile(ids[j])
    ensures "0" !in ids
    ensures forall p: Descent :: "0" + Suffix(p) in ids <==>
      p != [] && Allowed(p, AtLeastZero(numChildren), if maxDepth >= 1 then maxDepth else 1)
  {
    ghost var paths;
    ids, paths := CreateChildren(1, maxDepth, numChildren, "0");
    DistinctIds("0", ids, paths);
    forall i, j | 0 <= i < j < |ids| ensures DataFile(ids[i]) != DataFile(ids[j]) {
      if DataFile(ids[i]) == DataFile(ids[j]) {
        DataFileInjective(ids[i], ids[j]);
      }
    }
    forall j | 0 <= j < |ids| ensures ids[j] != "0" {
      assert paths[j] in paths;
      SuffixStart(paths[j]);
    }
    forall p: Descent ensures "0" + Suffix(p) in ids <==> p in paths {
      IdIsThere("0", ids, paths, p);
    }
  }
}
