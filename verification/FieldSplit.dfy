/** Cutting a line of /proc/mounts into fields, in place, as fieldnumber() does. */
module FieldSplit {

  predicate Blank(c: char) { c == ' ' || c == '\t' }

  /** The string that starts a buffer: everything before the first NUL. */
  function CString(b: seq<char>): string {
    if b == [] || b[0] == '\0' then [] else [b[0]] + CString(b[1..])
  }

  lemma {:induction false} CStringIs(b: seq<char>, k: nat)
    requires k < |b| && b[k] == '\0' && forall i | 0 <= i < k :: b[i] != '\0'
    ensures CString(b) == b[..k]
  {
    if k > 0 {
      assert b[1..][..k - 1] == b[1..k];
      CStringIs(b[1..], k - 1);
    }
  }

  lemma {:induction false} CStringEnds(b: seq<char>)
    requires '\0' in b
    ensures var k := |CString(b)|; k < |b| && CString(b) == b[..k] && b[k] == '\0' && '\0' !in b[..k]
  {
    if b[0] != '\0' {
      CStringEnds(b[1..]);
    }
  }

  /** A line cut at every blank; two blanks in a row have an empty field between them. */
  function Split(line: string): (fields: seq<string>)
    ensures fields != []
  {
    if line == "" then [""]
    else
      var n := |line| - 1;
      var before := Split(line[..n]);
      if Blank(line[n]) then before + [""]
      else before[|before| - 1 := before[|before| - 1] + [line[n]]]
  }

  /** Where field `k` starts in the line. */
  function Offset(fields: seq<string>, k: nat): nat
    requires k <= |fields|
  {
    if k == 0 then 0 else Offset(fields, k - 1) + |fields[k - 1]| + 1
  }

  lemma {:induction false} OffsetOfPrefix(fields: seq<string>, more: seq<string>, k: nat)
    requires k <= |fields| <= |more| && forall i | 0 <= i < k :: fields[i] == more[i]
    ensures Offset(fields, k) == Offset(more, k)
  {
    if k > 0 {
      OffsetOfPrefix(fields, more, k - 1);
    }
  }

  /** The last field is what follows the last blank. */
  lemma {:induction false} LastField(line: string)
    ensures var fields := Split(line);
      var k := |fields| - 1;
      Offset(fields, k) + |fields[k]| == |line| && line[Offset(fields, k)..] == fields[k]
  {
    if line != "" {
      var n := |line| - 1;
      LastField(line[..n]);
      var before, fields := Split(line[..n]), Split(line);
      OffsetOfPrefix(before, fields, |before| - 1);
    }
  }

  /** What one more character does to the fields. */
  lemma NextSplit(line: string, c: nat)
    requires c < |line|
    ensures var before, after := Split(line[..c]), Split(line[..c + 1]);
      && |after| == |before| + (if Blank(line[c]) then 1 else 0)
      && (forall k: nat | k < |before| :: Offset(after, k) == Offset(before, k))
      && (Blank(line[c]) ==> Offset(after, |before|) == c + 1)
  {
    assert line[..c + 1][..c] == line[..c];
    var before, after := Split(line[..c]), Split(line[..c + 1]);
    forall k: nat | k < |before| ensures Offset(after, k) == Offset(before, k) {
      OffsetOfPrefix(before, after, k);
    }
    LastField(line[..c + 1]);
  }

  /** What follows a blank does not change the fields before it. */
  lemma {:induction false} SplitAtBlank(line: string, c: nat)
    requires c < |line| && Blank(line[c])
    ensures |Split(line[..c])| < |Split(line)| && Split(line[..c]) == Split(line)[..|Split(line[..c])|]
    decreases |line|
  {
    var n := |line| - 1;
    if c < n {
      SplitAtBlank(line[..n], c);
      assert line[..n][..c] == line[..c];
    }
  }

  /** Splitting loses nothing: the fields hold no blank, each is found in the line at its offset, and a
      blank stands before every field but the first. */
  lemma {:induction false} SplitMeans(line: string, k: nat)
    requires k < |Split(line)|
    ensures FieldAt(line, Offset(Split(line), k), Split(line)[k])
  {
    if line != "" {
      var n := |line| - 1;
      var before, fields := Split(line[..n]), Split(line);
      NextSplit(line, n);
      assert line[..n + 1] == line;
      if k < |before| {
        SplitMeans(line[..n], k);
        StillFieldAt(line, k);
      } else {
        LastField(line);
      }
    }
  }

  lemma StillFieldAt(line: string, k: nat)
    requires line != "" && k < |Split(line[..|line| - 1])|
    requires var before := Split(line[..|line| - 1]);
      FieldAt(line[..|line| - 1], Offset(before, k), before[k])
    ensures k < |Split(line)|
    ensures FieldAt(line, Offset(Split(line[..|line| - 1]), k), Split(line)[k])
  {
    var n := |line| - 1;
    var before := Split(line[..n]);
    LastField(line[..n]);
    FieldInMore(line[..n], Offset(before, k), before[k], line[n]);
    assert line == line[..n] + [line[n]];
  }

  lemma FieldInMore(line: string, s: nat, field: string, c: char)
    requires FieldAt(line, s, field)
    ensures FieldAt(line + [c], s, field)
    ensures s + |field| == |line| && !Blank(c) ==> FieldAt(line + [c], s, field + [c])
  {}

  /** `field` holds no blank, stands in the line at `s`, and a blank or nothing stands before it. */
  ghost predicate FieldAt(line: string, s: nat, field: string) {
    && s + |field| <= |line|
    && (forall i | 0 <= i < |field| :: line[s + i] == field[i] && !Blank(field[i]))
    && (s > 0 ==> Blank(line[s - 1]))
  }

  /** The buffer `b` with field `n` cut out of its string, at `start`; as it was if `start` is -1.  Only a
      field with a blank after it can be cut out. */
  ghost predicate Cut(b: seq<char>, u: seq<char>, n: int, start: int) {
    var fields := Split(CString(b));
    if 0 <= n && n + 1 < |fields| then
      var end := Offset(fields, n) + |fields[n]|;
      && start == Offset(fields, n) && end < |b| && u == b[end := '\0']
      && CString(u[start..]) == fields[n] && Split(CString(u)) == fields[..n + 1]
    else
      start == -1 && u == b
  }

  /** fieldnumber(): the start of field `n`, or -1 for NULL.  The field is a string of its own now, and
      the line ends with it.  NULL means that the line has no blank after a field `n`. */
  method FieldNumber(buf: array<char>, n: int) returns (start: int)
    requires '\0' in buf[..]
    modifies buf
    ensures '\0' in buf[..]
    ensures Cut(old(buf[..]), buf[..], n, start)
  {
    ghost var b := buf[..];
    CStringEnds(b);
    ghost var line := CString(b);
    var i, c, s := 0, 0, 0;
    while buf[c] != '\0'
      invariant c <= |line| && i + 1 == |Split(line[..c])|
      invariant n >= 0 ==> i <= n
      invariant i == n ==> s == Offset(Split(line[..c]), n)
      invariant buf[..] == b
      decreases |line| - c
    {
      assert buf[c] == b[c] == line[c];
      NextSplit(line, c);
      if buf[c] == ' ' || buf[c] == '\t' {
        if i == n {
          CutHere(b, line, n, c);
          buf[c] := '\0';
          assert buf[..] == b[c := '\0'];
          return s;
        }
        i := i + 1;
        if i == n {
          s := c + 1;
        }
      }
      c := c + 1;
    }
    assert c == |line| && line[..c] == line;
    start := -1;
  }

  /** A NUL over the blank at `c` makes field `n` a string. */
  lemma CutHere(b: seq<char>, line: string, n: nat, c: nat)
    requires |line| < |b| && line == b[..|line|] && '\0' !in line && c < |line| && Blank(line[c])
    requires n + 1 == |Split(line[..c])|
    ensures var fields := Split(line);
      && n + 1 < |fields| && fields[..n + 1] == Split(line[..c])
      && Offset(fields, n) == Offset(Split(line[..c]), n) && Offset(fields, n) + |fields[n]| == c
      && CString(b[c := '\0']) == line[..c] && CString(b[c := '\0'][Offset(fields, n)..]) == fields[n]
  {
    var cut, fields, before := b[c := '\0'], Split(line), Split(line[..c]);
    SplitAtBlank(line, c);
    LastField(line[..c]);
    OffsetOfPrefix(before, fields, n);
    CStringIs(cut, c);
    var s := Offset(fields, n);
    assert cut[s..][..c - s] == line[..c][s..];
    CStringIs(cut[s..], c - s);
  }

  /** In buffer `b` the string at `start` is field `k`; NULL stands for a field with no blank after it. */
  ghost predicate Yields(b: seq<char>, start: int, fields: seq<string>, k: nat) {
    if k + 1 < |fields| then 0 <= start <= |b| && CString(b[start..]) == fields[k] else start == -1
  }

  /** The three calls of freezer_mountpoint(), the last field first.  They find what splitting the line
      as it was finds, and no call spoils a field returned before. */
  method MountFields(buf: array<char>) returns (options: int, fstype: int, mountpoint: int)
    requires '\0' in buf[..]
    modifies buf
    ensures var fields := Split(CString(old(buf[..])));
      && Yields(buf[..], options, fields, 3)
      && Yields(buf[..], fstype, fields, 2)
      && Yields(buf[..], mountpoint, fields, 1)
  {
    ghost var b0 := buf[..];
    options := FieldNumber(buf, 3);
    ghost var b1 := buf[..];
    fstype := FieldNumber(buf, 2);
    ghost var b2 := buf[..];
    mountpoint := FieldNumber(buf, 1);
    FirstCall(b0, b1, b2, buf[..], options, fstype, mountpoint);
    SecondCall(b0, b1, b2, buf[..], options, fstype, mountpoint);
    ThirdCall(b0, b1, b2, buf[..], options, fstype, mountpoint);
  }

  /** Cutting a field changes nothing from the next field on. */
  lemma LaterStays(b: seq<char>, u: seq<char>, n: nat, start: int, s: nat)
    requires Cut(b, u, n, start) && s <= |b|
    requires n + 1 < |Split(CString(b))| ==> Offset(Split(CString(b)), n + 1) <= s
    ensures |u| == |b| && u[s..] == b[s..]
  {}

  /** After a cut the next call sees the same fields up to the one cut out. */
  lemma NextCall(b: seq<char>, u: seq<char>, n: nat, start: int)
    requires Cut(b, u, n, start)
    ensures var fields, left := Split(CString(b)), Split(CString(u));
      && |left| == (if n + 1 < |fields| then n + 1 else |fields|) && left == fields[..|left|]
      && forall k: nat | k <= |left| :: Offset(left, k) == Offset(fields, k)
  {
    var fields, left := Split(CString(b)), Split(CString(u));
    forall k: nat | k <= |left| ensures Offset(left, k) == Offset(fields, k) {
      OffsetOfPrefix(left, fields, k);
    }
  }

  lemma FirstCall(b0: seq<char>, b1: seq<char>, b2: seq<char>, b3: seq<char>, o: int, f: int, m: int)
    requires Cut(b0, b1, 3, o) && Cut(b1, b2, 2, f) && Cut(b2, b3, 1, m)
    ensures Yields(b3, o, Split(CString(b0)), 3)
  {
    if |Split(CString(b0))| > 4 {
      NextCall(b0, b1, 3, o);
      NextCall(b1, b2, 2, f);
      LaterStays(b1, b2, 2, f, o);
      assert Offset(Split(CString(b0)), 2) <= Offset(Split(CString(b0)), 3);
      LaterStays(b2, b3, 1, m, o);
    }
  }

  lemma SecondCall(b0: seq<char>, b1: seq<char>, b2: seq<char>, b3: seq<char>, o: int, f: int, m: int)
    requires Cut(b0, b1, 3, o) && Cut(b1, b2, 2, f) && Cut(b2, b3, 1, m)
    ensures Yields(b3, f, Split(CString(b0)), 2)
  {
    NextCall(b0, b1, 3, o);
    if |Split(CString(b0))| > 3 {
      NextCall(b1, b2, 2, f);
      LaterStays(b2, b3, 1, m, f);
    }
  }

  lemma ThirdCall(b0: seq<char>, b1: seq<char>, b2: seq<char>, b3: seq<char>, o: int, f: int, m: int)
    requires Cut(b0, b1, 3, o) && Cut(b1, b2, 2, f) && Cut(b2, b3, 1, m)
    ensures Yields(b3, m, Split(CString(b0)), 1)
  {}
}
