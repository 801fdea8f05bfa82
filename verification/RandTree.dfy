/** fs/rand_tree.py: a random tree whose entries are numbered from one in every directory.

    The name of a new entry is the number of entries its directory has, plus one.
 */
module RandTree {
  import opened Counting
  import opened FileTree
  import opened Decimal
  import opened Runs

  /** The names of the entries of directory `d`. */
  ghost function Children(t: Tree, d: Path): set<string> {
    set p | p in t && |p| == |d| + 1 && p[..|d|] == d :: p[|d|]
  }

  lemma ChildIff(t: Tree, d: Path, x: string)
    ensures x in Children(t, d) <==> d + [x] in t
  {
    assert (d + [x])[..|d|] == d && (d + [x])[|d|] == x;
    if x in Children(t, d) {
      var p :| p in t && |p| == |d| + 1 && p[..|d|] == d && p[|d|] == x;
      assert p == d + [x];
    }
  }

  /** str(n) */
  function Name(n: nat): string { Str(n) }

  /** The names from `a` + 1 up to `b`. */
  ghost function Numbers(a: nat, b: nat): set<string> {
    if b <= a then {} else Numbers(a, b - 1) + {Name(b)}
  }

  /** No name is a number beyond the number of names. */
  ghost predicate Clean(names: set<string>) { forall m | m > |names| :: Name(m) !in names }

  /** The names there were first, and after them the numbers from their count on. */
  ghost predicate Numbered(names: set<string>, base: set<string>) {
    Clean(base) && |base| <= |names| && names == base + Numbers(|base|, |names|)
  }

  lemma {:induction false} NumberIsFresh(a: nat, n: nat, m: nat)
    requires n < m
    ensures Name(m) !in Numbers(a, n)
    decreases n
  {
    if a < n {
      NumberIsFresh(a, n - 1, m);
      if Name(m) == Name(n) {
        StrInjective(m, n);
      }
    }
  }

  lemma NextIsFresh(names: set<string>, base: set<string>)
    requires Numbered(names, base)
    ensures Name(|names| + 1) !in names
    ensures |names + {Name(|names| + 1)}| == |names| + 1
    ensures Numbered(names + {Name(|names| + 1)}, base)
  {
    NumberIsFresh(|base|, |names|, |names| + 1);
  }

  /** The names in a directory after `j` more entries; None if one of them was there already. */
  ghost function Grow(names: set<string>, j: nat): Option<set<string>>
    decreases j
  {
    if j == 0 then Some(names)
    else if Name(|names| + 1) in names then None
    else Grow(names + {Name(|names| + 1)}, j - 1)
  }

  /** No number of new entries ever meets an old name exactly if no old name is a number beyond the
      number of old names.  An empty directory is such a one. */
  lemma NeverClashesExactlyIf(names: set<string>)
    ensures (forall j :: Grow(names, j).Some?) <==> Clean(names)
  {
    if Clean(names) {
      forall j: nat ensures Grow(names, j).Some? {
        CleanGrows(names, j);
      }
    } else {
      var m: nat :| m > |names| && Name(m) in names;
      MeetsTheNumber(names, m);
      assert Grow(names, m - |names|).None?;
    }
  }

  lemma CleanStaysClean(names: set<string>)
    requires Clean(names)
    ensures Clean(names + {Name(|names| + 1)})
  {
    var next := names + {Name(|names| + 1)};
    assert |next| == |names| + 1;
    forall m | m > |next| ensures Name(m) !in next {
      if Name(m) == Name(|names| + 1) {
        StrInjective(m, |names| + 1);
      }
    }
  }

  lemma {:induction false} CleanGrows(names: set<string>, j: nat)
    requires Clean(names)
    ensures Grow(names, j).Some?
    decreases j
  {
    if j > 0 {
      CleanStaysClean(names);
      CleanGrows(names + {Name(|names| + 1)}, j - 1);
    }
  }

  lemma {:induction false} MeetsTheNumber(names: set<string>, m: nat)
    requires m > |names| && Name(m) in names
    ensures Grow(names, m - |names|).None?
    decreases m - |names|
  {
    var next := Name(|names| + 1);
    if next !in names {
      assert m != |names| + 1;
      assert |names + {next}| == |names| + 1;
      MeetsTheNumber(names + {next}, m);
    }
  }

  /** How many distinct entries a list has. */
  lemma {:induction false} CountDistinct<T>(s: seq<T>)
    requires Distinct(s)
    ensures |set x | x in s| == |s|
  {
    if s == [] {
      assert (set x | x in s) == {};
    } else {
      var n := |s| - 1;
      CountDistinct(s[..n]);
      assert (set x | x in s) == (set x | x in s[..n]) + {s[n]};
      assert s[n] !in s[..n];
    }
  }

  /** What the script has made of `t0` by now: the directories it made are those of the list after the
      root; the entries of each directory of the list are numbered. */
  ghost predicate Grown(t0: Tree, t: Tree, root: Path, dirs: seq<Path>, tag: string) {
    Shape(t0, t, root, dirs, tag) && AllNumbered(t, dirs, Children(t0, root))
  }

  ghost predicate Shape(t0: Tree, t: Tree, root: Path, dirs: seq<Path>, tag: string) {
    && |dirs| > 0 && dirs[0] == root && Distinct(dirs)
    && (forall i | 0 <= i < |dirs| :: IsDir(t, dirs[i]))
    && Kept(t0, t)
    && (forall p | p in t && p !in t0 :: MadeHere(t, root, dirs, tag, p))
    && (forall i | 0 < i < |dirs| :: dirs[i] !in t0)
  }

  /** Below the root a directory starts empty; the root starts with the names `base`. */
  ghost predicate AllNumbered(t: Tree, dirs: seq<Path>, base: set<string>) {
    forall i | 0 <= i < |dirs| :: Numbered(Children(t, dirs[i]), if i == 0 then base else {})
  }

  ghost predicate Kept(t0: Tree, t: Tree) { forall p | p in t0 :: p in t && t[p] == t0[p] }

  ghost predicate MadeHere(t: Tree, root: Path, dirs: seq<Path>, tag: string, p: Path)
    requires p in t
  {
    Below(root, p) && (if t[p].Dir? then p in dirs else t[p] == File(Expected(tag, p)))
  }

  lemma AddedChild(t: Tree, d: Path, x: string, node: Node)
    requires WellFormed(t) && IsDir(t, d) && d + [x] !in t
    ensures var u := t[d + [x] := node];
      && WellFormed(u)
      && Children(u, d) == Children(t, d) + {x}
      && Children(u, d + [x]) == {}
      && forall e | e != d && e != d + [x] :: Children(u, e) == Children(t, e)
  {}

  /** The path of the next entry of `d`. */
  ghost function Next(t: Tree, d: Path): Path { d + [Name(|Children(t, d)| + 1)] }

  lemma NextChild(t: Tree, d: Path, base: set<string>)
    requires Numbered(Children(t, d), base)
    ensures Next(t, d) !in t
  {
    NextIsFresh(Children(t, d), base);
    ChildIff(t, d, Name(|Children(t, d)| + 1));
  }

  lemma StillNumbered(t: Tree, dirs: seq<Path>, base: set<string>, k: nat, node: Node)
    requires WellFormed(t) && AllNumbered(t, dirs, base) && k < |dirs| && IsDir(t, dirs[k]) && Distinct(dirs)
    requires forall i | 0 <= i < |dirs| :: dirs[i] in t
    ensures Next(t, dirs[k]) !in t
    ensures var u := t[Next(t, dirs[k]) := node];
      WellFormed(u) && Children(u, Next(t, dirs[k])) == {} && AllNumbered(u, dirs, base)
  {
    var start := if k == 0 then base else {};
    var names := Children(t, dirs[k]);
    NextChild(t, dirs[k], start);
    AddedChild(t, dirs[k], Name(|names| + 1), node);
    var u := t[Next(t, dirs[k]) := node];
    forall i | 0 <= i < |dirs| ensures Numbered(Children(u, dirs[i]), if i == 0 then base else {}) {
      if i == k {
        NextIsFresh(names, start);
      } else {
        assert Children(u, dirs[i]) == Children(t, dirs[i]);
      }
    }
  }

  lemma InsideRoot(t0: Tree, t: Tree, root: Path, dirs: seq<Path>, tag: string, k: nat, x: string)
    requires Shape(t0, t, root, dirs, tag) && k < |dirs|
    ensures Below(root, dirs[k] + [x])
  {}

  lemma ShapeByFile(t0: Tree, t: Tree, root: Path, dirs: seq<Path>, tag: string, q: Path)
    requires Shape(t0, t, root, dirs, tag) && q !in t && Below(root, q)
    ensures Shape(t0, t[q := File(Expected(tag, q))], root, dirs, tag)
  {}

  lemma ShapeByDir(t0: Tree, t: Tree, root: Path, dirs: seq<Path>, tag: string, q: Path)
    requires Shape(t0, t, root, dirs, tag) && q !in t && Below(root, q)
    ensures Shape(t0, t[q := Dir], root, dirs + [q], tag)
  {}

  lemma GrownByFile(t0: Tree, t: Tree, root: Path, dirs: seq<Path>, tag: string, k: nat)
    requires WellFormed(t) && Grown(t0, t, root, dirs, tag) && k < |dirs|
    ensures var q := Next(t, dirs[k]);
      var u := t[q := File(Expected(tag, q))];
      q !in t && WellFormed(u) && Grown(t0, u, root, dirs, tag)
  {
    var q := Next(t, dirs[k]);
    StillNumbered(t, dirs, Children(t0, root), k, File(Expected(tag, q)));
    InsideRoot(t0, t, root, dirs, tag, k, Name(|Children(t, dirs[k])| + 1));
    ShapeByFile(t0, t, root, dirs, tag, q);
  }

  lemma GrownByDir(t0: Tree, t: Tree, root: Path, dirs: seq<Path>, tag: string, k: nat)
    requires WellFormed(t) && Grown(t0, t, root, dirs, tag) && k < |dirs|
    ensures var q := Next(t, dirs[k]);
      q !in t && WellFormed(t[q := Dir]) && Grown(t0, t[q := Dir], root, dirs + [q], tag)
  {
    var q := Next(t, dirs[k]);
    StillNumbered(t, dirs, Children(t0, root), k, Dir);
    InsideRoot(t0, t, root, dirs, tag, k, Name(|Children(t, dirs[k])| + 1));
    ShapeByDir(t0, t, root, dirs, tag, q);
    OneMoreNumbered(t[q := Dir], dirs, q, Children(t0, root));
  }

  lemma OneMoreNumbered(u: Tree, dirs: seq<Path>, q: Path, base: set<string>)
    requires AllNumbered(u, dirs, base) && dirs != [] && Children(u, q) == {}
    ensures AllNumbered(u, dirs + [q], base)
  {}

  lemma GrownAtFirst(t: Tree, root: Path, tag: string)
    requires IsDir(t, root) && Clean(Children(t, root))
    ensures Grown(t, t, root, [root], tag)
  {}

  ghost function NewDirs(t0: Tree, t: Tree): set<Path> { set p | p in t && p !in t0 && t[p].Dir? }

  ghost function NewFiles(t0: Tree, t: Tree): set<Path> { set p | p in t && p !in t0 && t[p].File? }

  lemma CountMade(t0: Tree, t: Tree, root: Path, dirs: seq<Path>, tag: string)
    requires Shape(t0, t, root, dirs, tag) && IsDir(t0, root)
    ensures |NewDirs(t0, t)| == |dirs| - 1
    ensures |t| == |t0| + |NewDirs(t0, t)| + |NewFiles(t0, t)|
  {
    CountDirs(t0, t, root, dirs, tag);
    assert t.Keys == t0.Keys + NewDirs(t0, t) + NewFiles(t0, t);
    assert t0.Keys !! NewDirs(t0, t) !! NewFiles(t0, t);
  }

  lemma CountDirs(t0: Tree, t: Tree, root: Path, dirs: seq<Path>, tag: string)
    requires Shape(t0, t, root, dirs, tag) && IsDir(t0, root)
    ensures |NewDirs(t0, t)| == |dirs| - 1
  {
    CountDistinct(dirs);
    forall p ensures p in dirs <==> p in NewDirs(t0, t) + {root} {
      assert p in NewDirs(t0, t) ==> MadeHere(t, root, dirs, tag, p);
    }
    assert (set p | p in dirs) == NewDirs(t0, t) + {root};
  }

  class RandScript {
    const fs: FileSystem
    var allDirPaths: seq<Path>

    constructor (fs: FileSystem)
      ensures this.fs == fs && allDirPaths == []
    {
      this.fs := fs;
      allDirPaths := [];
    }

    /** str(len(listdir(d)) + 1) */
    method NextName(d: Path) returns (x: string)
      ensures x == Name(|Children(fs.nodes, d)| + 1)
    {
      var dirs, files := fs.List(d);
      x := Str(|dirs| + |files| + 1);
      ghost var names := dirs + files;
      forall i, j | 0 <= i < j < |names| ensures names[i] != names[j] {
        assert i < |dirs| ==> names[i] in dirs;
        assert j >= |dirs| ==> names[j] in files;
      }
      CountDistinct(names);
      forall y ensures y in names <==> y in Children(fs.nodes, d) {
        ChildIff(fs.nodes, d, y);
      }
      assert (set y | y in names) == Children(fs.nodes, d);
    }

    /** The directory is put on the list before it is made; making it fails if the name is taken. */
    method RandomDir() returns (ghost k: nat, ok: bool)
      requires allDirPaths != [] && forall i | 0 <= i < |allDirPaths| :: IsDir(fs.nodes, allDirPaths[i])
      modifies this, fs
      ensures k < |old(allDirPaths)|
      ensures var d := old(allDirPaths)[k];
        var q := Next(old(fs.nodes), d);
        && allDirPaths == old(allDirPaths) + [q]
        && ok == (q !in old(fs.nodes))
        && fs.nodes == if ok then old(fs.nodes)[q := Dir] else old(fs.nodes)
    {
      var choice: nat :| choice < |allDirPaths|;
      k := choice;
      var parent := allDirPaths[choice];
      var name := NextName(parent);
      var dpath := parent + [name];
      assert Parent(dpath) == parent;
      allDirPaths := allDirPaths + [dpath];
      ok := dpath !in fs.nodes;
      if ok {
        fs.Mkdir(dpath);
      }
    }

    /** Opening a name that is taken fails for a directory and empties a file. */
    method RandomFile(tag: string) returns (ghost k: nat, ok: bool)
      requires allDirPaths != [] && forall i | 0 <= i < |allDirPaths| :: IsDir(fs.nodes, allDirPaths[i])
      modifies fs
      ensures k < |allDirPaths|
      ensures var q := Next(old(fs.nodes), allDirPaths[k]);
        && ok == !IsDir(old(fs.nodes), q)
        && fs.nodes == if ok then old(fs.nodes)[q := File(Expected(tag, q))] else old(fs.nodes)
    {
      var choice: nat :| choice < |allDirPaths|;
      k := choice;
      var parent := allDirPaths[choice];
      var name := NextName(parent);
      var f := parent + [name];
      assert Parent(f) == parent;
      ok := !(f in fs.nodes && fs.nodes[f].Dir?);
      if ok && f in fs.nodes {
        fs.Rewrite(f, Expected(tag, f));
      } else if ok {
        fs.CreateExclusive(f, Expected(tag, f));
      }
    }

    method MakeDirs(root: Path, count: int, tag: string, ghost t0: Tree) returns (ok: bool)
      requires WellFormed(fs.nodes) && allDirPaths == [root] && IsDir(fs.nodes, root) && t0 == fs.nodes
      modifies this, fs
      ensures ok ==> allDirPaths != [] && forall i | 0 <= i < |allDirPaths| :: IsDir(fs.nodes, allDirPaths[i])
      ensures Clean(Children(t0, root)) ==>
                && ok && Grown(t0, fs.nodes, root, allDirPaths, tag) && WellFormed(fs.nodes)
                && |allDirPaths| == 1 + AtLeastZero(count) && |fs.nodes| == |t0| + AtLeastZero(count)
    {
      ghost var clean := Clean(Children(t0, root));
      if clean {
        GrownAtFirst(t0, root, tag);
      }
      var nDirs := count;
      while nDirs > 0
        invariant allDirPaths != [] && forall i | 0 <= i < |allDirPaths| :: IsDir(fs.nodes, allDirPaths[i])
        invariant nDirs <= count && (count <= 0 ==> nDirs == count) && (count > 0 ==> nDirs >= 0)
        invariant clean ==> Grown(t0, fs.nodes, root, allDirPaths, tag) && WellFormed(fs.nodes)
        invariant clean ==> |allDirPaths| == 1 + count - nDirs && |fs.nodes| == |t0| + count - nDirs
      {
        ghost var t, dirs := fs.nodes, allDirPaths;
        ghost var k;
        k, ok := RandomDir();
        if clean {
          GrownByDir(t0, t, root, dirs, tag, k);
        }
        if !ok {
          return;
        }
        nDirs := nDirs - 1;
      }
      ok := true;
    }

    method MakeFiles(root: Path, count: int, tag: string, ghost t0: Tree, ghost size: nat) returns (ok: bool)
      requires allDirPaths != [] && forall i | 0 <= i < |allDirPaths| :: IsDir(fs.nodes, allDirPaths[i])
      requires Clean(Children(t0, root)) ==>
                 WellFormed(fs.nodes) && Grown(t0, fs.nodes, root, allDirPaths, tag) && |fs.nodes| == size
      modifies fs
      ensures Clean(Children(t0, root)) ==>
                && ok && Grown(t0, fs.nodes, root, allDirPaths, tag) && WellFormed(fs.nodes)
                && |fs.nodes| == size + AtLeastZero(count)
    {
      ghost var clean := Clean(Children(t0, root));
      var nFiles := count;
      while nFiles > 0
        invariant forall i | 0 <= i < |allDirPaths| :: IsDir(fs.nodes, allDirPaths[i])
        invariant nFiles <= count && (count <= 0 ==> nFiles == count) && (count > 0 ==> nFiles >= 0)
        invariant clean ==> WellFormed(fs.nodes) && Grown(t0, fs.nodes, root, allDirPaths, tag)
        invariant clean ==> |fs.nodes| == size + count - nFiles
      {
        ghost var t := fs.nodes;
        ghost var k;
        k, ok := RandomFile(tag);
        if clean {
          GrownByFile(t0, t, root, allDirPaths, tag, k);
        }
        if !ok {
          return;
        }
        nFiles := nFiles - 1;
      }
      ok := true;
    }

    /** Whatever is chosen, a run from a root whose names are no numbers beyond their count makes
        exactly as many new directories and new files as asked for.  It leaves what was there as it
        was, numbers the new entries of every directory without a gap, and gives each file its text. */
    method Run(root: Path, nDirs: int, nFiles: int, tag: string) returns (ok: bool)
      requires WellFormed(fs.nodes) && IsDir(fs.nodes, root) && allDirPaths == []
      modifies this, fs
      ensures Clean(Children(old(fs.nodes), root)) ==>
                && ok && WellFormed(fs.nodes) && Grown(old(fs.nodes), fs.nodes, root, allDirPaths, tag)
                && |NewDirs(old(fs.nodes), fs.nodes)| == AtLeastZero(nDirs)
                && |NewFiles(old(fs.nodes), fs.nodes)| == AtLeastZero(nFiles)
    {
      ghost var t0 := fs.nodes;
      allDirPaths := [root];
      ok := MakeDirs(root, nDirs, tag, t0);
      if ok {
        ok := MakeFiles(root, nFiles, tag, t0, |fs.nodes|);
        if Clean(Children(t0, root)) {
          CountMade(t0, fs.nodes, root, allDirPaths, tag);
        }
      }
    }
  }
}
