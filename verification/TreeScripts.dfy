/** fs/fill_tree.py and fs/check_tree.py. */
module TreeScripts {
  import opened FileTree
  import HoldTree

  /** All the files in `d` have the text expected for the tag, and so have those inside the first `k`
      listed directories; nothing else has changed. */
  ghost predicate PartlyFilled(t: Tree, u: Tree, d: Path, dirs: seq<string>, k: nat, tag: string)
    requires k <= |dirs|
  {
    && u.Keys == t.Keys
    && forall p | p in t :: u[p] == if t[p].File? && Reached(d, dirs[..k], p) then File(Expected(tag, p)) else t[p]
  }

  /** `p` is in `d` itself or inside one of the directories of `d` named in `seen`. */
  predicate Reached(d: Path, seen: seq<string>, p: Path) { Below(d, p) && (|p| == |d| + 1 || p[|d|] in seen) }

  method FillFiles(fs: FileSystem, d: Path, names: seq<string>, tag: string)
    requires forall x :: x in names <==> IsFile(fs.nodes, d + [x])
    modifies fs
    ensures PartlyFilled(old(fs.nodes), fs.nodes, d, [], 0, tag)
  {
    ghost var t := fs.nodes;
    for k := 0 to |names|
      invariant fs.nodes.Keys == t.Keys
      invariant forall p | p in t ::
        fs.nodes[p] == if |p| == |d| + 1 && p[..|d|] == d && p[|d|] in names[..k] then File(Expected(tag, p)) else t[p]
    {
      var f := d + [names[k]];
      assert IsFile(t, f);
      fs.Rewrite(f, Expected(tag, f));
      OneMoreName(d, names, k);
    }
    forall p | p in t && |p| == |d| + 1 && p[..|d|] == d ensures p[|d|] in names <==> t[p].File? {
      assert p == d + [p[|d|]];
    }
  }

  lemma OneMoreName(d: Path, names: seq<string>, k: nat)
    requires k < |names|
    ensures forall p: Path | |p| == |d| + 1 && p[..|d|] == d ::
      p[|d|] in names[..k + 1] <==> p[|d|] in names[..k] || p == d + [names[k]]
  {
    forall p: Path | |p| == |d| + 1 && p[..|d|] == d
      ensures p[|d|] in names[..k + 1] <==> p[|d|] in names[..k] || p == d + [names[k]]
    {
      assert p == d + [p[|d|]];
    }
  }

  /** Every file anywhere inside `d` gets the text for the tag. */
  method FillDir(fs: FileSystem, d: Path, tag: string, ghost depth: nat)
    requires WellFormed(fs.nodes) && IsDir(fs.nodes, d) && forall p | p in fs.nodes :: |p| <= depth
    modifies fs
    ensures Renewed(old(fs.nodes), fs.nodes, d, tag)
    decreases depth - |d|, 1
  {
    ghost var t := fs.nodes;
    var dirs, files := fs.List(d);
    FillFiles(fs, d, files, tag);
    assert PartlyFilled(t, fs.nodes, d, dirs, 0, tag);
    for k := 0 to |dirs|
      invariant PartlyFilled(t, fs.nodes, d, dirs, k, tag)
    {
      ghost var u := fs.nodes;
      StillThere(t, u, d, dirs, k, tag);
      FillDir(fs, d + [dirs[k]], tag, depth);
      OneMoreFilled(t, u, fs.nodes, d, dirs, k, tag);
    }
    FilledAll(t, fs.nodes, d, dirs, tag);
  }

  lemma StillThere(t: Tree, u: Tree, d: Path, dirs: seq<string>, k: nat, tag: string)
    requires WellFormed(t) && k < |dirs| && PartlyFilled(t, u, d, dirs, k, tag) && IsDir(t, d + [dirs[k]])
    ensures WellFormed(u) && IsDir(u, d + [dirs[k]])
  {}

  lemma OneMoreFilled(t: Tree, u: Tree, v: Tree, d: Path, dirs: seq<string>, k: nat, tag: string)
    requires k < |dirs| && PartlyFilled(t, u, d, dirs, k, tag) && Renewed(u, v, d + [dirs[k]], tag)
    ensures PartlyFilled(t, v, d, dirs, k + 1, tag)
  {}

  /** Everything inside `d` is in it or inside one of its directories. */
  lemma ReachedAll(t: Tree, d: Path, dirs: seq<string>, p: Path)
    requires WellFormed(t) && p in t && forall x :: x in dirs <==> IsDir(t, d + [x])
    ensures Reached(d, dirs, p) <==> Below(d, p)
  {
    if Below(d, p) && |p| > |d| + 1 {
      PrefixIsDir(t, p, |d| + 1);
      assert p[..|d| + 1] == d + [p[|d|]];
    }
  }

  lemma FilledAll(t: Tree, u: Tree, d: Path, dirs: seq<string>, tag: string)
    requires WellFormed(t) && PartlyFilled(t, u, d, dirs, |dirs|, tag) && forall x :: x in dirs <==> IsDir(t, d + [x])
    ensures Renewed(t, u, d, tag)
  {
    assert dirs[..|dirs|] == dirs;
    forall p | p in t ensures u[p] == if t[p].File? && Below(d, p) then File(Expected(tag, p)) else t[p] {
      ReachedAll(t, d, dirs, p);
    }
  }

  method Fill(fs: FileSystem, root: Path, tag: string)
    requires WellFormed(fs.nodes) && IsDir(fs.nodes, root)
    modifies fs
    ensures Renewed(old(fs.nodes), fs.nodes, root, tag) && WellFormed(fs.nodes)
  {
    ghost var t := fs.nodes;
    FillDir(fs, root, tag, HoldTree.Deepest(t));
    HoldTree.RenewedIsWellFormed(t, fs.nodes, root, tag);
  }

  /** What read() returns of `content` from an offset on. */
  function Read(content: string, offset: nat, count: nat): string
    requires offset <= |content|
  {
    if offset + count <= |content| then content[offset..offset + count] else content[offset..]
  }

  /** Read as many bytes as are expected and then two more.  The two reads are enough: the file passes
      exactly if its whole content is the expected one. */
  method CheckFile(content: string, expected: string) returns (ok: bool)
    ensures ok <==> content == expected
  {
    var contents := Read(content, 0, |expected|);
    if Read(content, |contents|, 2) != "" {
      assert |contents| < |content|;
      return false;
    }
    assert contents == content;
    ok := expected == contents;
  }

  /** All the files among those reached have the expected content. */
  ghost predicate GoodUpTo(t: Tree, d: Path, seen: seq<string>, tag: string) {
    forall p | IsFile(t, p) && Reached(d, seen, p) :: t[p].content == Expected(tag, p)
  }

  ghost predicate Good(t: Tree, d: Path, tag: string) {
    forall p | IsFile(t, p) && Below(d, p) :: t[p].content == Expected(tag, p)
  }

  method CheckFiles(fs: FileSystem, d: Path, names: seq<string>, tag: string) returns (ok: bool)
    requires forall x :: x in names <==> IsFile(fs.nodes, d + [x])
    ensures ok <==> GoodUpTo(fs.nodes, d, [], tag)
  {
    for k := 0 to |names|
      invariant forall i | 0 <= i < k :: fs.nodes[d + [names[i]]].content == Expected(tag, d + [names[i]])
    {
      var f := d + [names[k]];
      assert IsFile(fs.nodes, f) && Reached(d, [], f);
      ok := CheckFile(fs.nodes[f].content, Expected(tag, f));
      if !ok {
        return;
      }
    }
    forall p | IsFile(fs.nodes, p) && Reached(d, [], p) ensures fs.nodes[p].content == Expected(tag, p) {
      assert p == d + [p[|d|]];
    }
    ok := true;
  }

  /** The walk stops at the first file that differs; it says yes exactly if no file inside `d` differs. */
  method CheckDir(fs: FileSystem, d: Path, tag: string, ghost depth: nat) returns (ok: bool)
    requires WellFormed(fs.nodes) && IsDir(fs.nodes, d) && forall p | p in fs.nodes :: |p| <= depth
    ensures ok <==> Good(fs.nodes, d, tag)
    decreases depth - |d|
  {
    var dirs, files := fs.List(d);
    ok := CheckFiles(fs, d, files, tag);
    if !ok {
      return;
    }
    assert dirs[..0] == [];
    for k := 0 to |dirs|
      invariant GoodUpTo(fs.nodes, d, dirs[..k], tag)
    {
      ok := CheckDir(fs, d + [dirs[k]], tag, depth);
      GoodOneMore(fs.nodes, d, dirs, k, tag);
      if !ok {
        return;
      }
    }
    assert dirs[..|dirs|] == dirs;
    forall p | IsFile(fs.nodes, p) && Below(d, p) ensures fs.nodes[p].content == Expected(tag, p) {
      ReachedAll(fs.nodes, d, dirs, p);
    }
    ok := true;
  }

  lemma GoodOneMore(t: Tree, d: Path, dirs: seq<string>, k: nat, tag: string)
    requires k < |dirs| && GoodUpTo(t, d, dirs[..k], tag)
    ensures GoodUpTo(t, d, dirs[..k + 1], tag) <==> Good(t, d + [dirs[k]], tag)
    ensures !Good(t, d + [dirs[k]], tag) ==> !Good(t, d, tag)
  {}

  method Check(fs: FileSystem, root: Path, tag: string) returns (ok: bool)
    requires WellFormed(fs.nodes) && IsDir(fs.nodes, root)
    ensures ok <==> forall p | IsFile(fs.nodes, p) && Below(root, p) :: fs.nodes[p].content == Expected(tag, p)
  {
    ok := CheckDir(fs, root, tag, HoldTree.Deepest(fs.nodes));
  }

  ghost predicate NoFiles(t: Tree, root: Path) { forall p | p in t && Below(root, p) :: !t[p].File? }

  /** A tree with the texts of one tag passes the check for another one only if it has no files. */
  lemma GoodExactlyIf(u: Tree, root: Path, a: string, b: string)
    requires Good(u, root, a)
    ensures Good(u, root, b) <==> a == b || NoFiles(u, root)
  {
    if Good(u, root, b) && !NoFiles(u, root) {
      var p :| p in u && Below(root, p) && u[p].File?;
      assert IsFile(u, p);
      TagIsTold(a, b, p);
    }
  }

  /** fill_tree.py with one tag, then check_tree.py with another: it accepts exactly if the tags are the
      same or there is no file to look at. */
  method FillThenCheck(fs: FileSystem, root: Path, a: string, b: string) returns (ok: bool)
    requires WellFormed(fs.nodes) && IsDir(fs.nodes, root)
    modifies fs
    ensures ok <==> a == b || NoFiles(old(fs.nodes), root)
    ensures Renewed(old(fs.nodes), fs.nodes, root, a)
  {
    ghost var t := fs.nodes;
    Fill(fs, root, a);
    ok := Check(fs, root, b);
    RenewedIsGood(t, fs.nodes, root, a);
    GoodExactlyIf(fs.nodes, root, a, b);
  }

  lemma RenewedIsGood(t: Tree, u: Tree, root: Path, tag: string)
    requires Renewed(t, u, root, tag)
    ensures Good(u, root, tag) && (NoFiles(u, root) <==> NoFiles(t, root))
  {}
}
