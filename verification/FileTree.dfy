/** A tree of directories and files, as the scripts under fs/ see it.

    Paths are sequences of names.  A directory can be removed only when it is empty, made only where
    its parent is, and a file opened with O_EXCL must be new; callers have to meet these conditions.
 */
module FileTree {

  type Path = seq<string>

  datatype Node = Dir | File(content: string)

  type Tree = map<Path, Node>

  function Parent(p: Path): Path
    requires p != []
  {
    p[..|p| - 1]
  }

  /** `p` is somewhere inside directory `d`. */
  predicate Below(d: Path, p: Path) { |d| < |p| && p[..|d|] == d }

  predicate IsDir(t: Tree, p: Path) { p in t && t[p].Dir? }

  predicate IsFile(t: Tree, p: Path) { p in t && t[p].File? }

  /** Everything is in a directory that exists. */
  ghost predicate WellFormed(t: Tree) {
    IsDir(t, []) && forall p | p in t && p != [] :: IsDir(t, Parent(p))
  }

  /** All prefixes of an existing path are directories. */
  lemma {:induction false} PrefixIsDir(t: Tree, p: Path, k: nat)
    requires WellFormed(t) && p in t && k < |p|
    ensures IsDir(t, p[..k])
    decreases |p|
  {
    assert IsDir(t, Parent(p));
    if k < |p| - 1 {
      assert Parent(p)[..k] == p[..k];
      PrefixIsDir(t, Parent(p), k);
    }
  }

  /** Every listed directory comes after its parent, unless that is `d` itself. */
  ghost predicate ParentsFirst(d: Path, s: seq<Path>) {
    forall i | 0 <= i < |s| :: s[i] != [] && (Parent(s[i]) == d || Parent(s[i]) in s[..i])
  }

  /** The names found in directory `d`. */
  ghost predicate Names(t: Tree, d: Path, dirs: seq<string>, files: seq<string>) {
    && (forall i, j | 0 <= i < j < |dirs| :: dirs[i] != dirs[j])
    && (forall i, j | 0 <= i < j < |files| :: files[i] != files[j])
    && (forall x :: x in dirs <==> IsDir(t, d + [x]))
    && (forall x :: x in files <==> IsFile(t, d + [x]))
  }

  /** "%s contents of %s\n" */
  function Expected(tag: string, p: Path): string { tag + " contents of " + Text(p) + "\n" }

  function Text(p: Path): string {
    if p == [] then "" else Text(p[..|p| - 1]) + "/" + p[|p| - 1]
  }

  /** For a file /tree/1 and the tag "new": the text as the scripts print it. */
  lemma ExpectedText()
    ensures Expected("new", ["tree", "1"]) == "new contents of /tree/1\n"
  {
    var p: Path := ["tree", "1"];
    assert p[..1] == ["tree"] && p[..1][..0] == [];
    assert Text(p[..1]) == "" + "/" + "tree";
  }

  /** The tag can be told from the text. */
  lemma TagIsTold(a: string, b: string, p: Path)
    requires Expected(a, p) == Expected(b, p)
    ensures a == b
  {
    var rest := " contents of " + Text(p) + "\n";
    assert Expected(a, p) == a + rest && Expected(b, p) == b + rest;
    assert a == (a + rest)[..|a|] && b == (b + rest)[..|b|];
  }

  /** A name as a file system has it. */
  predicate ProperName(x: string) { x != "" && '/' !in x }

  /** What stands before and after the last slash. */
  lemma LastSlash(a: string, x: string, b: string, y: string)
    requires a + "/" + x == b + "/" + y && '/' !in x && '/' !in y
    ensures a == b && x == y
  {
    NotBefore(a, x, b, y);
    NotBefore(b, y, a, x);
    assert a == (a + "/" + x)[..|a|] && b == (b + "/" + y)[..|a|];
    assert x == (a + "/" + x)[|a| + 1..] && y == (b + "/" + y)[|a| + 1..];
  }

  lemma NotBefore(a: string, x: string, b: string, y: string)
    requires a + "/" + x == b + "/" + y && '/' !in x
    ensures |b| <= |a|
  {
    var t := a + "/" + x;
    assert t[|b|] == (b + "/" + y)[|b|] == '/';
    assert forall k | |a| < k < |t| :: t[k] == x[k - |a| - 1];
  }

  /** The path can be told from its text. */
  lemma {:induction false} PathIsTold(p: Path, q: Path)
    requires Text(p) == Text(q)
    requires (forall i | 0 <= i < |p| :: ProperName(p[i])) && forall i | 0 <= i < |q| :: ProperName(q[i])
    ensures p == q
  {
    if p != [] && q != [] {
      var m, n := |p| - 1, |q| - 1;
      LastSlash(Text(p[..m]), p[m], Text(q[..n]), q[n]);
      PathIsTold(p[..m], q[..n]);
      assert p == p[..m] + [p[m]] && q == q[..n] + [q[n]];
    }
  }

  /** Different files of a tree have different texts. */
  lemma FileIsTold(tag: string, p: Path, q: Path)
    requires Expected(tag, p) == Expected(tag, q)
    requires (forall i | 0 <= i < |p| :: ProperName(p[i])) && forall i | 0 <= i < |q| :: ProperName(q[i])
    ensures p == q
  {
    var before := tag + " contents of ";
    assert Expected(tag, p) == before + Text(p) + "\n" && Expected(tag, q) == before + Text(q) + "\n";
    assert |Text(p)| == |Text(q)|;
    assert Text(p) == (before + Text(p) + "\n")[|before|..|before| + |Text(p)|];
    assert Text(q) == (before + Text(q) + "\n")[|before|..|before| + |Text(p)|];
    PathIsTold(p, q);
  }

  /** The tree as before, except that every file inside `d` has the text expected for the tag. */
  ghost predicate Renewed(t: Tree, u: Tree, d: Path, tag: string) {
    && u.Keys == t.Keys
    && forall p | p in t :: u[p] == if t[p].File? && Below(d, p) then File(Expected(tag, p)) else t[p]
  }

  class FileSystem {
    var nodes: Tree

    constructor ()
      ensures nodes == map[[] := Dir]
    {
      nodes := map[[] := Dir];
    }

    /** One directory as os.walk() lists it, in any order. */
    method List(d: Path) returns (dirs: seq<string>, files: seq<string>)
      ensures Names(nodes, d, dirs, files)
    {
      var dirSet := set p | p in nodes && |p| == |d| + 1 && p[..|d|] == d && nodes[p].Dir? :: p[|d|];
      var fileSet := set p | p in nodes && |p| == |d| + 1 && p[..|d|] == d && nodes[p].File? :: p[|d|];
      dirs := AnyOrder(dirSet);
      files := AnyOrder(fileSet);
      forall x ensures x in dirSet <==> IsDir(nodes, d + [x]) {
        assert (d + [x])[..|d|] == d && (d + [x])[|d|] == x;
        if x in dirSet {
          var p :| p in nodes && |p| == |d| + 1 && p[..|d|] == d && nodes[p].Dir? && p[|d|] == x;
          assert p == d + [x];
        }
      }
      forall x ensures x in fileSet <==> IsFile(nodes, d + [x]) {
        assert (d + [x])[..|d|] == d && (d + [x])[|d|] == x;
        if x in fileSet {
          var p :| p in nodes && |p| == |d| + 1 && p[..|d|] == d && nodes[p].File? && p[|d|] == x;
          assert p == d + [x];
        }
      }
    }

    method Unlink(p: Path)
      requires IsFile(nodes, p)
      modifies this
      ensures nodes == old(nodes) - {p}
    {
      nodes := nodes - {p};
    }

    method Rmdir(p: Path)
      requires IsDir(nodes, p) && forall q | q in nodes :: !Below(p, q)
      modifies this
      ensures nodes == old(nodes) - {p}
    {
      nodes := nodes - {p};
    }

    method Mkdir(p: Path)
      requires p != [] && p !in nodes && IsDir(nodes, Parent(p))
      modifies this
      ensures nodes == old(nodes)[p := Dir]
    {
      nodes := nodes[p := Dir];
    }

    /** open(p, O_CREAT|O_EXCL|O_WRONLY), write, close */
    method CreateExclusive(p: Path, content: string)
      requires p != [] && p !in nodes && IsDir(nodes, Parent(p))
      modifies this
      ensures nodes == old(nodes)[p := File(content)]
    {
      nodes := nodes[p := File(content)];
    }

    /** open(p, O_WRONLY|O_TRUNC), write, close */
    method Rewrite(p: Path, content: string)
      requires IsFile(nodes, p)
      modifies this
      ensures nodes == old(nodes)[p := File(content)]
    {
      nodes := nodes[p := File(content)];
    }
  }

  method AnyOrder(names: set<string>) returns (s: seq<string>)
    ensures forall x :: x in s <==> x in names
    ensures forall i, j | 0 <= i < j < |s| :: s[i] != s[j]
  {
    s := [];
    var rest := names;
    while rest != {}
      invariant rest <= names
      invariant forall x :: x in s <==> x in names && x !in rest
      invariant forall i, j | 0 <= i < j < |s| :: s[i] != s[j]
      decreases rest
    {
      var x :| x in rest;
      assert x !in s;
      s := s + [x];
      rest := rest - {x};
    }
  }
}
