/** fs/hold_unlinked_tree.py: open everything in a tree, unlink it, and build the tree anew. */
module HoldTree {
  import opened Counting
  import opened FileTree

  ghost predicate Kind(t: Tree, p: Path, dir: bool) { p in t && t[p].Dir? == dir }

  /** All files, or all directories, inside `d`. */
  ghost predicate AllBelow(t: Tree, d: Path, dir: bool, s: seq<Path>) {
    Distinct(s) && forall p :: p in s <==> Kind(t, p, dir) && Below(d, p)
  }

  /** Those directly in `d` and those inside its first `k` subdirectories. */
  ghost predicate BelowUpTo(t: Tree, d: Path, dirs: seq<string>, k: nat, dir: bool, s: seq<Path>)
    requires k <= |dirs|
  {
    && Distinct(s)
    && forall p :: p in s <==> Kind(t, p, dir) && Below(d, p) && (|p| == |d| + 1 || p[|d|] in dirs[..k])
  }

  ghost function SetOf(s: seq<Path>): set<Path> { set p | p in s }

  /** One more subdirectory has been visited. */
  lemma VisitOne(t: Tree, d: Path, dirs: seq<string>, k: nat, dir: bool, s: seq<Path>, c: seq<Path>)
    requires k < |dirs| && BelowUpTo(t, d, dirs, k, dir, s) && AllBelow(t, d + [dirs[k]], dir, c)
    requires forall i, j | 0 <= i < j < |dirs| :: dirs[i] != dirs[j]
    ensures BelowUpTo(t, d, dirs, k + 1, dir, s + c)
  {
    forall p ensures Below(d + [dirs[k]], p) <==> Below(d, p) && |p| > |d| + 1 && p[|d|] == dirs[k] {
      BelowChild(d, dirs[k], p);
    }
    forall p ensures p in s + c <==> Kind(t, p, dir) && Below(d, p) && (|p| == |d| + 1 || p[|d|] in dirs[..k + 1]) {
      assert p in s + c <==> p in s || p in c;
    }
    forall i, j | 0 <= i < |s| && 0 <= j < |c| ensures s[i] != c[j] {
      assert s[i] in s && c[j] in c;
      assert dirs[k] !in dirs[..k];
    }
    assert Distinct(s + c);
  }

  lemma BelowChild(d: Path, x: string, p: Path)
    ensures Below(d + [x], p) <==> Below(d, p) && |p| > |d| + 1 && p[|d|] == x
  {
    if |p| > |d| + 1 {
      assert p[..|d| + 1] == p[..|d|] + [p[|d|]];
    }
  }

  /** When all subdirectories have been visited, nothing is left out. */
  lemma VisitedAll(t: Tree, d: Path, dirs: seq<string>, dir: bool, s: seq<Path>)
    requires WellFormed(t) && BelowUpTo(t, d, dirs, |dirs|, dir, s)
    requires forall x :: x in dirs <==> IsDir(t, d + [x])
    ensures AllBelow(t, d, dir, s)
  {
    forall p | Kind(t, p, dir) && Below(d, p) ensures p in s {
      if |p| > |d| + 1 {
        PrefixIsDir(t, p, |d| + 1);
        assert p[..|d| + 1] == d + [p[|d|]];
        assert dirs[..|dirs|] == dirs;
      }
    }
  }

  /** Parents stay first when a visited directory's own list is added. */
  lemma AppendKeepsParentsFirst(d: Path, e: Path, s: seq<Path>, c: seq<Path>)
    requires ParentsFirst(d, s) && ParentsFirst(e, c) && e in s
    ensures ParentsFirst(d, s + c)
  {
    forall i | 0 <= i < |s + c|
      ensures (s + c)[i] != [] && (Parent((s + c)[i]) == d || Parent((s + c)[i]) in (s + c)[..i])
    {
      if i < |s| {
        assert (s + c)[..i] == s[..i];
      } else {
        assert (s + c)[..i] == s + c[..i - |s|];
      }
    }
  }

  /** Files can go without leaving anything without a parent. */
  lemma WithoutFiles(t: Tree, s: set<Path>)
    requires WellFormed(t) && forall p | p in s :: IsFile(t, p)
    ensures WellFormed(t - s)
  {}

  class HoldScript {
    const fs: FileSystem
    var mkdirs: seq<Path>
    var mkfiles: seq<Path>
    var openFds: seq<(Path, Node)>          // what each descriptor was opened on

    constructor (fs: FileSystem)
      ensures this.fs == fs && mkdirs == [] && mkfiles == [] && openFds == []
    {
      this.fs := fs;
      mkdirs, mkfiles, openFds := [], [], [];
    }

    /** The files of one directory: open, unlink, record. */
    method HoldFiles(d: Path, names: seq<string>)
      requires forall i | 0 <= i < |names| :: IsFile(fs.nodes, d + [names[i]])
      requires forall i, j | 0 <= i < j < |names| :: names[i] != names[j]
      modifies this, fs
      ensures mkdirs == old(mkdirs) && mkfiles == old(mkfiles) + Joined(d, names)
      ensures fs.nodes == old(fs.nodes) - SetOf(Joined(d, names))
      ensures old(openFds) <= openFds && Holds(old(fs.nodes), openFds, Joined(d, names))
    {
      ghost var t := fs.nodes;
      ghost var done: seq<Path> := [];
      for k := 0 to |names|
        invariant done == Joined(d, names[..k])
        invariant mkfiles == old(mkfiles) + done && mkdirs == old(mkdirs)
        invariant fs.nodes == t - SetOf(done)
        invariant old(openFds) <= openFds && Holds(t, openFds, done)
      {
        var f := d + [names[k]];
        assert f !in SetOf(done) by {
          forall i | 0 <= i < k ensures d + [names[i]] != f {
            assert (d + [names[i]])[|d|] == names[i] && f[|d|] == names[k];
          }
        }
        openFds := openFds + [(f, fs.nodes[f])];
        assert openFds[|openFds| - 1] == (f, t[f]);
        fs.Unlink(f);
        mkfiles := mkfiles + [f];
        assert SetOf(done + [f]) == SetOf(done) + {f};
        done := done + [f];
        assert names[..k + 1] == names[..k] + [names[k]];
      }
      assert names[..|names|] == names;
    }

    /** The subdirectories of one directory: open, record. */
    method NoteDirs(d: Path, names: seq<string>)
      requires forall i | 0 <= i < |names| :: IsDir(fs.nodes, d + [names[i]])
      modifies this
      ensures mkfiles == old(mkfiles) && mkdirs == old(mkdirs) + Joined(d, names)
      ensures old(openFds) <= openFds && Holds(fs.nodes, openFds, Joined(d, names))
    {
      for k := 0 to |names|
        invariant mkfiles == old(mkfiles) && mkdirs == old(mkdirs) + Joined(d, names[..k])
        invariant old(openFds) <= openFds && Holds(fs.nodes, openFds, Joined(d, names[..k]))
      {
        var e := d + [names[k]];
        openFds := openFds + [(e, fs.nodes[e])];
        assert openFds[|openFds| - 1] == (e, fs.nodes[e]);
        mkdirs := mkdirs + [e];
        assert names[..k + 1] == names[..k] + [names[k]];
        assert Joined(d, names[..k + 1]) == Joined(d, names[..k]) + [e];
        HoldsMore(fs.nodes, fs.nodes, openFds, Joined(d, names[..k]), [e]);
      }
      assert names[..|names|] == names;
    }

    /** The top-down walk from directory `d`: every file is held and unlinked, every directory held
        and recorded after its parent. */
    method HoldDir(d: Path, ghost depth: nat) returns (ghost files: seq<Path>, ghost dirs: seq<Path>)
      requires WellFormed(fs.nodes) && IsDir(fs.nodes, d) && forall p | p in fs.nodes :: |p| <= depth
      modifies this, fs
      ensures AllBelow(old(fs.nodes), d, false, files) && AllBelow(old(fs.nodes), d, true, dirs)
      ensures ParentsFirst(d, dirs)
      ensures mkfiles == old(mkfiles) + files && mkdirs == old(mkdirs) + dirs
      ensures fs.nodes == old(fs.nodes) - SetOf(files)
      ensures old(openFds) <= openFds && Holds(old(fs.nodes), openFds, files) && Holds(old(fs.nodes), openFds, dirs)
      decreases depth - |d|, 1
    {
      ghost var t := fs.nodes;
      var dnames, fnames := fs.List(d);
      HoldFiles(d, fnames);
      ghost var fds, now := openFds, fs.nodes;
      DirectOnes(t, d, dnames, fnames);
      DirectDirsRemain(t, d, dnames, fnames);
      NoteDirs(d, dnames);
      StartVisiting(t, d, dnames, fnames, now, fds, openFds);
      files, dirs := HoldSubdirs(d, dnames, depth, t, Joined(d, fnames), Joined(d, dnames), old(mkfiles), old(mkdirs));
      VisitedAll(t, d, dnames, false, files);
      VisitedAll(t, d, dnames, true, dirs);
    }

    /** os.walk() going down into the subdirectories it has listed. */
    method HoldSubdirs(d: Path, dnames: seq<string>, ghost depth: nat, ghost t: Tree,
                       ghost files0: seq<Path>, ghost dirs0: seq<Path>, ghost f: seq<Path>, ghost g: seq<Path>)
      returns (ghost files: seq<Path>, ghost dirs: seq<Path>)
      requires WellFormed(t) && (forall p | p in t :: |p| <= depth)
      requires forall i, j | 0 <= i < j < |dnames| :: dnames[i] != dnames[j]
      requires Visiting(t, d, dnames, 0, files0, dirs0, fs.nodes, openFds)
      requires mkfiles == f + files0 && mkdirs == g + dirs0
      modifies this, fs
      ensures Visiting(t, d, dnames, |dnames|, files, dirs, fs.nodes, openFds)
      ensures mkfiles == f + files && mkdirs == g + dirs
      ensures old(openFds) <= openFds
      decreases depth - |d|, 0
    {
      files, dirs := files0, dirs0;
      for k := 0 to |dnames|
        invariant Visiting(t, d, dnames, k, files, dirs, fs.nodes, openFds)
        invariant mkfiles == f + files && mkdirs == g + dirs
        invariant old(openFds) <= openFds
      {
        ghost var now, fds := fs.nodes, openFds;
        ChildIsThere(t, d, dnames, k, files, dirs, now, openFds);
        var moreFiles, moreDirs := HoldDir(d + [dnames[k]], depth);
        AfterChild(t, d, dnames, k, files, dirs, now, fds, moreFiles, moreDirs, fs.nodes, openFds);
        Regroup(f, files, moreFiles);
        Regroup(g, dirs, moreDirs);
        files, dirs := files + moreFiles, dirs + moreDirs;
      }
    }

    /** The bottom-up walk from `d`: every directory inside it is removed, each when it is empty. */
    method RemoveBelow(d: Path, ghost depth: nat)
      requires WellFormed(fs.nodes) && IsDir(fs.nodes, d) && forall p | p in fs.nodes :: |p| <= depth
      requires forall p | p in fs.nodes && Below(d, p) :: fs.nodes[p].Dir?
      modifies fs
      ensures fs.nodes == old(fs.nodes) - Inside(old(fs.nodes), d)
      decreases depth - |d|, 1
    {
      ghost var t := fs.nodes;
      var dnames, fnames := fs.List(d);
      RemoveDeep(d, dnames, depth);
      DeepAll(t, d, dnames);
      RemoveEmpty(d, dnames, t);
    }

    /** os.walk() visits the subdirectories first. */
    method RemoveDeep(d: Path, dnames: seq<string>, ghost depth: nat)
      requires WellFormed(fs.nodes) && forall p | p in fs.nodes :: |p| <= depth
      requires forall p | p in fs.nodes && Below(d, p) :: fs.nodes[p].Dir?
      requires forall i | 0 <= i < |dnames| :: IsDir(fs.nodes, d + [dnames[i]])
      requires forall i, j | 0 <= i < j < |dnames| :: dnames[i] != dnames[j]
      modifies fs
      ensures fs.nodes == old(fs.nodes) - Deep(old(fs.nodes), d, dnames, |dnames|)
      decreases depth - |d|, 0
    {
      ghost var t := fs.nodes;
      NothingDeepYet(t, d, dnames);
      for k := 0 to |dnames|
        invariant fs.nodes == t - Deep(t, d, dnames, k)
      {
        DeepIsClosed(t, d, dnames, k);
        ChildStays(t, d, dnames, k);
        RemoveBelow(d + [dnames[k]], depth);
        DeepGrows(t, d, dnames, k);
      }
    }

    /** Then it removes them. */
    method RemoveEmpty(d: Path, dnames: seq<string>, ghost t: Tree)
      requires fs.nodes == t - Deep(t, d, dnames, |dnames|)
      requires forall i | 0 <= i < |dnames| :: IsDir(t, d + [dnames[i]])
      requires forall i, j | 0 <= i < j < |dnames| :: dnames[i] != dnames[j]
      modifies fs
      ensures fs.nodes == t - (Deep(t, d, dnames, |dnames|) + SetOf(Joined(d, dnames)))
    {
      ghost var u := fs.nodes;
      assert SetOf(Joined(d, dnames[..0])) == {};
      for k := 0 to |dnames|
        invariant fs.nodes == u - SetOf(Joined(d, dnames[..k]))
      {
        EmptyAndThere(t, d, dnames, k);
        fs.Rmdir(d + [dnames[k]]);
        OneMore(d, dnames, k);
      }
      assert dnames[..|dnames|] == dnames;
    }

    /** Make the recorded directories, in the order in which they were recorded. */
    method MakeDirs(s: seq<Path>)
      requires Distinct(s) && forall i | 0 <= i < |s| :: s[i] !in fs.nodes
      requires forall i | 0 <= i < |s| :: s[i] != [] && (IsDir(fs.nodes, Parent(s[i])) || Parent(s[i]) in s[..i])
      modifies fs
      ensures Built(old(fs.nodes), fs.nodes, s)
    {
      ghost var u := fs.nodes;
      for k := 0 to |s|
        invariant Built(u, fs.nodes, s[..k])
      {
        ParentIsBuilt(u, fs.nodes, s, k);
        fs.Mkdir(s[k]);
        assert s[..k + 1] == s[..k] + [s[k]];
      }
      assert s[..|s|] == s;
    }

    /** Make the recorded files with new contents. */
    method MakeFiles(s: seq<Path>)
      requires Distinct(s) && forall i | 0 <= i < |s| :: s[i] !in fs.nodes
      requires forall i | 0 <= i < |s| :: s[i] != [] && IsDir(fs.nodes, Parent(s[i]))
      modifies fs
      ensures Written(old(fs.nodes), fs.nodes, s)
    {
      ghost var u := fs.nodes;
      for k := 0 to |s|
        invariant Written(u, fs.nodes, s[..k])
      {
        assert s[k] !in s[..k];
        fs.CreateExclusive(s[k], Expected("new", s[k]));
        assert s[..k + 1] == s[..k] + [s[k]];
      }
      assert s[..|s|] == s;
    }

    /** Hold everything below `root`, then remove it and `root` itself, each directory when it is empty. */
    method Uproot(root: Path) returns (ghost files: seq<Path>, ghost dirs: seq<Path>)
      requires WellFormed(fs.nodes) && IsDir(fs.nodes, root)
      requires mkdirs == [] && mkfiles == []
      modifies this, fs
      ensures AllBelow(old(fs.nodes), root, false, files) && AllBelow(old(fs.nodes), root, true, dirs)
      ensures ParentsFirst(root, dirs) && mkfiles == files && mkdirs == [root] + dirs
      ensures fs.nodes == old(fs.nodes) - Inside(old(fs.nodes), root) - {root}
      ensures forall p | p in old(fs.nodes) && Below(root, p) :: (p, old(fs.nodes)[p]) in openFds
    {
      ghost var t := fs.nodes;
      ghost var depth := Deepest(t);
      mkdirs := [root];
      files, dirs := HoldDir(root, depth);
      HeldAll(t, root, files, dirs, openFds);
      OnlyDirsLeft(t, root, files);
      RemoveBelow(root, depth);
      NothingLeft(t, root, files);
      fs.Rmdir(root);
    }

    /** Make the tree again from the two lists. */
    method Remake(root: Path, ghost t: Tree, ghost files: seq<Path>, ghost dirs: seq<Path>)
      requires WellFormed(t) && root != [] && IsDir(t, root) && fs.nodes == t - Inside(t, root) - {root}
      requires AllBelow(t, root, false, files) && AllBelow(t, root, true, dirs)
      requires ParentsFirst(root, dirs) && mkfiles == files && mkdirs == [root] + dirs
      modifies fs
      ensures Renewed(t, fs.nodes, root, "new")
    {
      ghost var u := fs.nodes;
      CanMakeDirs(t, root, dirs, u);
      MakeDirs(mkdirs);
      CanMakeFiles(t, root, files, dirs, u, fs.nodes);
      ghost var v := fs.nodes;
      MakeFiles(mkfiles);
      RemadeIsRenewed(t, root, files, dirs, u, v, fs.nodes);
    }

    /** The whole script.  No directory is removed before it is empty, nothing is left of the tree,
        every descriptor still refers to what was there; with `-n` the tree has the same directories
        and files again, each made in a directory that exists, and every file has the new contents. */
    method Run(root: Path, remake: bool)
      requires WellFormed(fs.nodes) && root != [] && IsDir(fs.nodes, root)
      requires mkdirs == [] && mkfiles == []
      modifies this, fs
      ensures remake ==> Renewed(old(fs.nodes), fs.nodes, root, "new")
      ensures !remake ==> fs.nodes == old(fs.nodes) - Inside(old(fs.nodes), root) - {root}
      ensures WellFormed(fs.nodes)
      ensures forall p | p in old(fs.nodes) && Below(root, p) :: (p, old(fs.nodes)[p]) in openFds
    {
      ghost var t := fs.nodes;
      var files, dirs := Uproot(root);
      UprootedIsWellFormed(t, root);
      if remake {
        Remake(root, t, files, dirs);
        RenewedIsWellFormed(t, fs.nodes, root, "new");
      }
    }
  }

  ghost predicate Built(u: Tree, nodes: Tree, s: seq<Path>) {
    && nodes.Keys == u.Keys + SetOf(s)
    && (forall p | p in u && p !in s :: nodes[p] == u[p])
    && (forall p | p in s :: nodes[p] == Dir)
  }

  ghost predicate Written(u: Tree, nodes: Tree, s: seq<Path>) {
    && nodes.Keys == u.Keys + SetOf(s)
    && (forall p | p in u && p !in s :: nodes[p] == u[p])
    && (forall p | p in s :: nodes[p] == File(Expected("new", p)))
  }

  lemma ParentIsBuilt(u: Tree, nodes: Tree, s: seq<Path>, k: nat)
    requires k < |s| && Built(u, nodes, s[..k]) && Distinct(s) && s[k] !in u && s[k] != []
    requires forall i | 0 <= i < |s| :: s[i] !in u
    requires IsDir(u, Parent(s[k])) || Parent(s[k]) in s[..k]
    ensures s[k] !in nodes && IsDir(nodes, Parent(s[k]))
  {}

  /** No path is longer than this. */
  ghost function Deepest(t: Tree): (depth: nat)
    ensures forall p | p in t :: |p| <= depth
    decreases |t|
  {
    if t == map[] then 0
    else
      var p :| p in t;
      var rest := Deepest(t - {p});
      assert forall q | q in t && q != p :: q in t - {p};
      if |p| > rest then |p| else rest
  }

  lemma HeldAll(t: Tree, root: Path, files: seq<Path>, dirs: seq<Path>, fds: seq<(Path, Node)>)
    requires AllBelow(t, root, false, files) && AllBelow(t, root, true, dirs)
    requires Holds(t, fds, files) && Holds(t, fds, dirs)
    ensures forall p | p in t && Below(root, p) :: (p, t[p]) in fds
  {}

  lemma OnlyDirsLeft(t: Tree, root: Path, files: seq<Path>)
    requires WellFormed(t) && IsDir(t, root) && AllBelow(t, root, false, files)
    ensures var u := t - SetOf(files);
      WellFormed(u) && IsDir(u, root) && forall p | p in u && Below(root, p) :: u[p].Dir?
  {}

  lemma NothingLeft(t: Tree, root: Path, files: seq<Path>)
    requires IsDir(t, root) && AllBelow(t, root, false, files)
    ensures var u := t - SetOf(files);
      var v := u - Inside(u, root);
      && v == t - Inside(t, root)
      && IsDir(v, root) && forall q | q in v :: !Below(root, q)
  {}

  lemma UprootedIsWellFormed(t: Tree, root: Path)
    requires WellFormed(t) && root != []
    ensures WellFormed(t - Inside(t, root) - {root})
  {}

  lemma CanMakeDirs(t: Tree, root: Path, dirs: seq<Path>, u: Tree)
    requires WellFormed(t) && root != [] && IsDir(t, root) && u == t - Inside(t, root) - {root}
    requires AllBelow(t, root, true, dirs) && ParentsFirst(root, dirs)
    ensures var s := [root] + dirs;
      && Distinct(s) && (forall i | 0 <= i < |s| :: s[i] !in u)
      && forall i | 0 <= i < |s| :: s[i] != [] && (IsDir(u, Parent(s[i])) || Parent(s[i]) in s[..i])
  {
    var s := [root] + dirs;
    forall i | 0 <= i < |s| ensures s[i] !in u && s[i] != [] && (IsDir(u, Parent(s[i])) || Parent(s[i]) in s[..i]) {
      if i == 0 {
        ParentOfRootStays(t, root);
      } else {
        CanMakeDir(t, root, dirs, i - 1);
        assert s[..i] == [root] + dirs[..i - 1];
      }
    }
    RootAndDirsDiffer(t, root, dirs);
  }

  lemma ParentOfRootStays(t: Tree, root: Path)
    requires WellFormed(t) && root != [] && root in t
    ensures IsDir(t - Inside(t, root) - {root}, Parent(root))
  {
    assert IsDir(t, Parent(root));
  }

  lemma CanMakeDir(t: Tree, root: Path, dirs: seq<Path>, i: nat)
    requires AllBelow(t, root, true, dirs) && ParentsFirst(root, dirs) && i < |dirs|
    ensures dirs[i] !in t - Inside(t, root) - {root} && dirs[i] != [] && Parent(dirs[i]) in [root] + dirs[..i]
  {
    assert dirs[i] in dirs;
    assert root in [root] + dirs[..i];
  }

  lemma RootAndDirsDiffer(t: Tree, root: Path, dirs: seq<Path>)
    requires AllBelow(t, root, true, dirs)
    ensures Distinct([root] + dirs)
  {
    var s := [root] + dirs;
    forall i, j | 0 <= i < j < |s| ensures s[i] != s[j] {
      assert s[j] == dirs[j - 1] && dirs[j - 1] in dirs;
    }
  }

  lemma CanMakeFiles(t: Tree, root: Path, files: seq<Path>, dirs: seq<Path>, u: Tree, v: Tree)
    requires WellFormed(t) && root != [] && u == t - Inside(t, root) - {root}
    requires AllBelow(t, root, false, files) && AllBelow(t, root, true, dirs) && Built(u, v, [root] + dirs)
    ensures forall i | 0 <= i < |files| :: files[i] !in v && files[i] != [] && IsDir(v, Parent(files[i]))
  {
    forall i | 0 <= i < |files| ensures files[i] !in v && files[i] != [] && IsDir(v, Parent(files[i])) {
      var p := files[i];
      assert p in files && Kind(t, p, false) && Below(root, p);
      assert p !in [root] + dirs;
      assert IsDir(t, Parent(p));
      if |p| == |root| + 1 {
        assert Parent(p) == root && root in [root] + dirs;
      } else {
        assert Parent(p)[..|root|] == root && Kind(t, Parent(p), true);
        assert Parent(p) in [root] + dirs;
      }
    }
  }

  lemma RemadeIsRenewed(t: Tree, root: Path, files: seq<Path>, dirs: seq<Path>, u: Tree, v: Tree, w: Tree)
    requires WellFormed(t) && IsDir(t, root) && u == t - Inside(t, root) - {root}
    requires AllBelow(t, root, false, files) && AllBelow(t, root, true, dirs)
    requires Built(u, v, [root] + dirs) && Written(v, w, files)
    ensures Renewed(t, w, root, "new")
  {
    forall p ensures RemadeAt(t, w, root, p) {
      Remade(t, root, files, dirs, u, v, w, p);
    }
    RemadeEverywhere(t, w, root);
  }

  lemma RemadeEverywhere(t: Tree, w: Tree, root: Path)
    requires forall p :: RemadeAt(t, w, root, p)
    ensures Renewed(t, w, root, "new")
  {
    forall p ensures p in w.Keys <==> p in t.Keys {
      assert RemadeAt(t, w, root, p);
    }
    forall p | p in t ensures w[p] == if t[p].File? && Below(root, p) then File(Expected("new", p)) else t[p] {
      assert RemadeAt(t, w, root, p);
    }
  }

  lemma Remade(t: Tree, root: Path, files: seq<Path>, dirs: seq<Path>, u: Tree, v: Tree, w: Tree, p: Path)
    requires IsDir(t, root) && u == t - Inside(t, root) - {root}
    requires AllBelow(t, root, false, files) && AllBelow(t, root, true, dirs)
    requires Built(u, v, [root] + dirs) && Written(v, w, files)
    ensures RemadeAt(t, w, root, p)
  {
    if p !in t || (p != root && !Below(root, p)) {
      RemadeOther(t, root, files, dirs, u, v, w, p);
    } else if t[p].Dir? {
      RemadeDir(t, root, files, dirs, u, v, w, p);
    } else {
      RemadeFile(t, root, files, dirs, u, v, w, p);
    }
  }

  ghost predicate RemadeAt(t: Tree, w: Tree, root: Path, p: Path) {
    && (p in w <==> p in t)
    && (p in t ==> w[p] == if t[p].File? && Below(root, p) then File(Expected("new", p)) else t[p])
  }

  lemma RemadeDir(t: Tree, root: Path, files: seq<Path>, dirs: seq<Path>, u: Tree, v: Tree, w: Tree, p: Path)
    requires AllBelow(t, root, false, files) && AllBelow(t, root, true, dirs)
    requires Built(u, v, [root] + dirs) && Written(v, w, files)
    requires Kind(t, p, true) && (p == root || Below(root, p))
    ensures RemadeAt(t, w, root, p)
  {
    assert p in [root] + dirs;
    assert p !in files;
  }

  lemma RemadeFile(t: Tree, root: Path, files: seq<Path>, dirs: seq<Path>, u: Tree, v: Tree, w: Tree, p: Path)
    requires AllBelow(t, root, false, files) && Written(v, w, files)
    requires Kind(t, p, false) && Below(root, p)
    ensures RemadeAt(t, w, root, p)
  {
    assert p in files;
  }

  lemma RemadeOther(t: Tree, root: Path, files: seq<Path>, dirs: seq<Path>, u: Tree, v: Tree, w: Tree, p: Path)
    requires u == t - Inside(t, root) - {root} && IsDir(t, root)
    requires AllBelow(t, root, false, files) && AllBelow(t, root, true, dirs)
    requires Built(u, v, [root] + dirs) && Written(v, w, files)
    requires p !in t || (p != root && !Below(root, p))
    ensures RemadeAt(t, w, root, p)
  {
    assert p !in files && p !in dirs && p != root;
    assert p !in [root] + dirs;
    assert p in u <==> p in t;
  }

  /** New contents change nothing in the shape of a tree. */
  lemma RenewedIsWellFormed(t: Tree, u: Tree, d: Path, tag: string)
    requires WellFormed(t) && Renewed(t, u, d, tag)
    ensures WellFormed(u)
  {}

  /** Everything inside `d`. */
  ghost function Inside(t: Tree, d: Path): set<Path> { set p | p in t && Below(d, p) }

  /** Everything inside the first `k` subdirectories. */
  ghost function Deep(t: Tree, d: Path, dnames: seq<string>, k: nat): set<Path>
    requires k <= |dnames|
  {
    set p | p in t && Below(d, p) && |p| > |d| + 1 && p[|d|] in dnames[..k]
  }

  lemma NothingDeepYet(t: Tree, d: Path, dnames: seq<string>)
    ensures t - Deep(t, d, dnames, 0) == t
  {
  }

  lemma DeepIsClosed(t: Tree, d: Path, dnames: seq<string>, k: nat)
    requires WellFormed(t) && k <= |dnames|
    ensures WellFormed(t - Deep(t, d, dnames, k))
  {}

  lemma ChildStays(t: Tree, d: Path, dnames: seq<string>, k: nat)
    requires k < |dnames| && IsDir(t, d + [dnames[k]])
    ensures IsDir(t - Deep(t, d, dnames, k), d + [dnames[k]])
    ensures forall p | Below(d + [dnames[k]], p) :: Below(d, p)
  {}

  lemma DeepGrows(t: Tree, d: Path, dnames: seq<string>, k: nat)
    requires k < |dnames| && forall i, j | 0 <= i < j < |dnames| :: dnames[i] != dnames[j]
    ensures var u := t - Deep(t, d, dnames, k);
      u - Inside(u, d + [dnames[k]]) == t - Deep(t, d, dnames, k + 1)
  {}

  /** Everything inside `d` is directly in it or deep in one of its subdirectories. */
  lemma DeepAll(t: Tree, d: Path, dnames: seq<string>)
    requires WellFormed(t) && (forall x :: x in dnames <==> IsDir(t, d + [x]))
    requires forall p | p in t && Below(d, p) :: t[p].Dir?
    ensures Inside(t, d) == Deep(t, d, dnames, |dnames|) + SetOf(Joined(d, dnames))
  {
    assert dnames[..|dnames|] == dnames;
    forall p | p in Inside(t, d) ensures p in Deep(t, d, dnames, |dnames|) + SetOf(Joined(d, dnames)) {
      assert p[..|d| + 1] == d + [p[|d|]];
      if |p| > |d| + 1 {
        PrefixIsDir(t, p, |d| + 1);
      } else {
        assert p == d + [p[|d|]] && IsDir(t, p) && p[|d|] in dnames;
        var i :| 0 <= i < |dnames| && dnames[i] == p[|d|];
        assert Joined(d, dnames)[i] == p;
      }
    }
    forall p | p in Joined(d, dnames) ensures p in Inside(t, d) {
      var i :| 0 <= i < |dnames| && p == d + [dnames[i]];
      assert dnames[i] in dnames;
    }
  }

  /** A subdirectory whose contents are gone is still there, and empty. */
  lemma EmptyAndThere(t: Tree, d: Path, dnames: seq<string>, k: nat)
    requires k < |dnames| && (forall i, j | 0 <= i < j < |dnames| :: dnames[i] != dnames[j])
    requires IsDir(t, d + [dnames[k]])
    ensures var u := t - Deep(t, d, dnames, |dnames|) - SetOf(Joined(d, dnames[..k]));
      IsDir(u, d + [dnames[k]]) && forall q | q in u :: !Below(d + [dnames[k]], q)
  {
    var e := d + [dnames[k]];
    forall p | p in Joined(d, dnames[..k]) ensures p != e {
      var i :| 0 <= i < k && p == d + [dnames[i]];
      assert p[|d|] == dnames[i] && e[|d|] == dnames[k];
    }
    forall q | q in t && Below(e, q) ensures q in Deep(t, d, dnames, |dnames|) {
      assert q[..|d|] == q[..|d| + 1][..|d|] && q[|d|] == q[..|d| + 1][|d|];
      assert dnames[..|dnames|] == dnames;
    }
  }

  lemma OneMore(d: Path, dnames: seq<string>, k: nat)
    requires k < |dnames|
    ensures SetOf(Joined(d, dnames[..k + 1])) == SetOf(Joined(d, dnames[..k])) + {d + [dnames[k]]}
  {
    assert dnames[..k + 1] == dnames[..k] + [dnames[k]];
    assert Joined(d, dnames[..k + 1]) == Joined(d, dnames[..k]) + [d + [dnames[k]]];
  }

  /** The walk of directory `d` has come back from its first `k` subdirectories. */
  ghost predicate Visiting(t: Tree, d: Path, dnames: seq<string>, k: nat, files: seq<Path>, dirs: seq<Path>,
                           nodes: Tree, fds: seq<(Path, Node)>)
    requires k <= |dnames|
  {
    && BelowUpTo(t, d, dnames, k, false, files) && BelowUpTo(t, d, dnames, k, true, dirs)
    && ParentsFirst(d, dirs) && Joined(d, dnames) <= dirs
    && nodes == t - SetOf(files) && Holds(t, fds, files) && Holds(t, fds, dirs)
  }

  lemma ChildIsThere(t: Tree, d: Path, dnames: seq<string>, k: nat, files: seq<Path>, dirs: seq<Path>,
                     nodes: Tree, fds: seq<(Path, Node)>)
    requires WellFormed(t) && k < |dnames| && Visiting(t, d, dnames, k, files, dirs, nodes, fds)
    ensures WellFormed(nodes) && IsDir(nodes, d + [dnames[k]])
  {
    WithoutFiles(t, SetOf(files));
    assert Joined(d, dnames)[k] == d + [dnames[k]];
    assert d + [dnames[k]] in dirs;
  }

  lemma AfterChild(t: Tree, d: Path, dnames: seq<string>, k: nat, files: seq<Path>, dirs: seq<Path>, now: Tree,
                   before: seq<(Path, Node)>, moreFiles: seq<Path>, moreDirs: seq<Path>, nodes: Tree,
                   fds: seq<(Path, Node)>)
    requires k < |dnames| && Visiting(t, d, dnames, k, files, dirs, now, before) && before <= fds
    requires forall i, j | 0 <= i < j < |dnames| :: dnames[i] != dnames[j]
    requires AllBelow(now, d + [dnames[k]], false, moreFiles) && AllBelow(now, d + [dnames[k]], true, moreDirs)
    requires ParentsFirst(d + [dnames[k]], moreDirs) && nodes == now - SetOf(moreFiles)
    requires Holds(now, fds, moreFiles) && Holds(now, fds, moreDirs)
    ensures Visiting(t, d, dnames, k + 1, files + moreFiles, dirs + moreDirs, nodes, fds)
  {
    SameBelow(t, d, dnames, k, files, moreFiles, moreDirs);
    VisitOne(t, d, dnames, k, false, files, moreFiles);
    VisitOne(t, d, dnames, k, true, dirs, moreDirs);
    AfterChildInOrder(d, dnames, k, dirs, moreDirs);
    MinusBoth(t, files, moreFiles);
    AfterChildHolds(t, now, before, fds, files, moreFiles);
    AfterChildHolds(t, now, before, fds, dirs, moreDirs);
  }

  lemma AfterChildInOrder(d: Path, dnames: seq<string>, k: nat, dirs: seq<Path>, moreDirs: seq<Path>)
    requires k < |dnames| && ParentsFirst(d, dirs) && Joined(d, dnames) <= dirs
    requires ParentsFirst(d + [dnames[k]], moreDirs)
    ensures ParentsFirst(d, dirs + moreDirs) && Joined(d, dnames) <= dirs + moreDirs
  {
    assert Joined(d, dnames)[k] == d + [dnames[k]];
    assert dirs[k] == d + [dnames[k]];
    AppendKeepsParentsFirst(d, d + [dnames[k]], dirs, moreDirs);
  }

  lemma MinusBoth(t: Tree, a: seq<Path>, b: seq<Path>)
    ensures t - SetOf(a) - SetOf(b) == t - SetOf(a + b)
  {
  }

  lemma AfterChildHolds(t: Tree, now: Tree, before: seq<(Path, Node)>, fds: seq<(Path, Node)>,
                        s: seq<Path>, c: seq<Path>)
    requires Holds(t, before, s) && before <= fds && Holds(now, fds, c)
    requires forall p | p in now :: p in t && now[p] == t[p]
    ensures Holds(t, fds, s + c)
  {}

  ghost function Joined(d: Path, names: seq<string>): seq<Path> {
    seq(|names|, i requires 0 <= i < |names| => d + [names[i]])
  }

  /** There is a descriptor on each of these, opened on what was there at first. */
  ghost predicate Holds(t: Tree, fds: seq<(Path, Node)>, s: seq<Path>) {
    forall p | p in s :: p in t && (p, t[p]) in fds
  }

  /** What a directory's listing amounts to. */
  lemma DirectOnes(t: Tree, d: Path, dnames: seq<string>, fnames: seq<string>)
    requires Names(t, d, dnames, fnames)
    ensures BelowUpTo(t, d, dnames, 0, false, Joined(d, fnames))
    ensures BelowUpTo(t, d, dnames, 0, true, Joined(d, dnames))
    ensures ParentsFirst(d, Joined(d, dnames))
  {
    DirectKind(t, d, dnames, fnames, false);
    DirectKind(t, d, dnames, dnames, true);
    forall i | 0 <= i < |dnames| ensures Parent(Joined(d, dnames)[i]) == d {
      assert (d + [dnames[i]])[..|d|] == d;
    }
  }

  lemma DirectKind(t: Tree, d: Path, dnames: seq<string>, names: seq<string>, dir: bool)
    requires forall i, j | 0 <= i < j < |names| :: names[i] != names[j]
    requires forall x :: x in names <==> Kind(t, d + [x], dir)
    ensures BelowUpTo(t, d, dnames, 0, dir, Joined(d, names))
  {
    var s := Joined(d, names);
    forall i, j | 0 <= i < j < |s| ensures s[i] != s[j] {
      assert s[i][|d|] == names[i] && s[j][|d|] == names[j];
    }
    forall p ensures p in s <==> Kind(t, p, dir) && Below(d, p) && |p| == |d| + 1 {
      if Kind(t, p, dir) && Below(d, p) && |p| == |d| + 1 {
        assert p == d + [p[|d|]];
        var i :| 0 <= i < |names| && names[i] == p[|d|];
        assert s[i] == p;
      }
      if p in s {
        var i :| 0 <= i < |s| && s[i] == p;
        assert p == d + [names[i]] && names[i] in names;
      }
    }
  }

  /** What is found inside a subdirectory is not changed by what was unlinked elsewhere. */
  lemma SameBelow(t: Tree, d: Path, dnames: seq<string>, k: nat,
                  files: seq<Path>, moreFiles: seq<Path>, moreDirs: seq<Path>)
    requires k < |dnames| && BelowUpTo(t, d, dnames, k, false, files)
    requires forall i, j | 0 <= i < j < |dnames| :: dnames[i] != dnames[j]
    requires AllBelow(t - SetOf(files), d + [dnames[k]], false, moreFiles)
    requires AllBelow(t - SetOf(files), d + [dnames[k]], true, moreDirs)
    ensures AllBelow(t, d + [dnames[k]], false, moreFiles) && AllBelow(t, d + [dnames[k]], true, moreDirs)
  {}

  lemma Regroup(a: seq<Path>, b: seq<Path>, c: seq<Path>)
    ensures (a + b) + c == a + (b + c)
  {
  }

  lemma HoldsLonger(t: Tree, before: seq<(Path, Node)>, fds: seq<(Path, Node)>, s: seq<Path>)
    requires Holds(t, before, s) && before <= fds
    ensures Holds(t, fds, s)
  {}

  lemma DirectDirsRemain(t: Tree, d: Path, dnames: seq<string>, fnames: seq<string>)
    requires Names(t, d, dnames, fnames)
    ensures forall i | 0 <= i < |dnames| :: IsDir(t - SetOf(Joined(d, fnames)), d + [dnames[i]])
  {}

  lemma StartVisiting(t: Tree, d: Path, dnames: seq<string>, fnames: seq<string>, now: Tree,
                      before: seq<(Path, Node)>, fds: seq<(Path, Node)>)
    requires Names(t, d, dnames, fnames) && now == t - SetOf(Joined(d, fnames))
    requires Holds(t, before, Joined(d, fnames)) && before <= fds && Holds(now, fds, Joined(d, dnames))
    ensures Visiting(t, d, dnames, 0, Joined(d, fnames), Joined(d, dnames), now, fds)
  {
    DirectOnes(t, d, dnames, fnames);
    HoldsLonger(t, before, fds, Joined(d, fnames));
    HoldsMore(t, now, fds, [], Joined(d, dnames));
    assert [] + Joined(d, dnames) == Joined(d, dnames);
  }

  lemma HoldsMore(t: Tree, now: Tree, fds: seq<(Path, Node)>, s: seq<Path>, c: seq<Path>)
    requires Holds(t, fds, s) && Holds(now, fds, c) && forall p | p in now :: p in t && now[p] == t[p]
    ensures Holds(t, fds, s + c)
  {
  }
}
