/** fs/tree.sh: the four scripts of fs/ in the order in which the test calls them. */
module TreeTest {
  import opened Counting
  import opened FileTree
  import HoldTree
  import RandTree
  import TreeScripts

  /** What was made in an empty directory passes the check for the tag it was made with. */
  lemma MadeIsGood(t0: Tree, t: Tree, root: Path, dirs: seq<Path>, tag: string)
    requires RandTree.Grown(t0, t, root, dirs, tag) && forall p | p in t0 :: !Below(root, p)
    ensures TreeScripts.Good(t, root, tag)
  {
    forall p | IsFile(t, p) && Below(root, p) ensures t[p].content == Expected(tag, p) {
      assert RandTree.MadeHere(t, root, dirs, tag, p);
    }
  }

  lemma NoNamesYet(t: Tree, root: Path)
    requires forall p | p in t :: !Below(root, p)
    ensures RandTree.Children(t, root) == {} && RandTree.Clean({})
  {}

  /** rand_tree.py and then check_tree.py */
  method MakeAndCheck(fs: FileSystem, root: Path, nDirs: int, nFiles: int) returns (ok: bool)
    requires WellFormed(fs.nodes) && IsDir(fs.nodes, root) && forall p | p in fs.nodes :: !Below(root, p)
    modifies fs
    ensures ok && WellFormed(fs.nodes) && IsDir(fs.nodes, root)
    ensures |RandTree.NewDirs(old(fs.nodes), fs.nodes)| == AtLeastZero(nDirs)
    ensures |RandTree.NewFiles(old(fs.nodes), fs.nodes)| == AtLeastZero(nFiles)
    ensures nFiles > 0 ==> !TreeScripts.NoFiles(fs.nodes, root)
  {
    ghost var t0 := fs.nodes;
    NoNamesYet(t0, root);
    var rand := new RandTree.RandScript(fs);
    ok := rand.Run(root, nDirs, nFiles, "original");
    MadeIsGood(t0, fs.nodes, root, rand.allDirPaths, "original");
    var good := TreeScripts.Check(fs, root, "original");
    ok := ok && good;
    if nFiles > 0 {
      SomeFile(t0, fs.nodes, root, rand.allDirPaths, "original");
    }
  }

  lemma SomeFile(t0: Tree, t: Tree, root: Path, dirs: seq<Path>, tag: string)
    requires RandTree.Grown(t0, t, root, dirs, tag) && |RandTree.NewFiles(t0, t)| > 0
    ensures !TreeScripts.NoFiles(t, root)
  {
    var p :| p in RandTree.NewFiles(t0, t);
    assert RandTree.MadeHere(t, root, dirs, tag, p);
  }

  /** fill_tree.py and then check_tree.py */
  method FillAndCheck(fs: FileSystem, root: Path, tag: string) returns (ok: bool)
    requires WellFormed(fs.nodes) && IsDir(fs.nodes, root)
    modifies fs
    ensures ok && WellFormed(fs.nodes) && IsDir(fs.nodes, root) && Renewed(old(fs.nodes), fs.nodes, root, tag)
  {
    TreeScripts.Fill(fs, root, tag);
    ok := TreeScripts.Check(fs, root, tag);
  }

  /** hold_unlinked_tree.py -n and then check_tree.py */
  method HoldAndCheck(fs: FileSystem, root: Path) returns (ok: bool, held: seq<(Path, Node)>)
    requires WellFormed(fs.nodes) && root != [] && IsDir(fs.nodes, root)
    modifies fs
    ensures ok && Renewed(old(fs.nodes), fs.nodes, root, "new")
    ensures forall p | p in old(fs.nodes) && Below(root, p) :: (p, old(fs.nodes)[p]) in held
  {
    var hold := new HoldTree.HoldScript(fs);
    hold.Run(root, true);
    held := hold.openFds;
    ok := TreeScripts.Check(fs, root, "new");
  }

  /** Every check of the test passes whatever rand_tree.py chose.  Afterwards the directories and files
      are those that it made, the held descriptors still give the contents before the last script, and
      if there is a file, a check for any other tag than "new" would fail. */
  method TreeSh(fs: FileSystem, root: Path, nDirs: int, nFiles: int)
    returns (ok: bool, ghost made: Tree, held: seq<(Path, Node)>)
    requires WellFormed(fs.nodes) && root != [] && IsDir(fs.nodes, root)
    requires forall p | p in fs.nodes :: !Below(root, p)
    modifies fs
    ensures ok
    ensures |RandTree.NewDirs(old(fs.nodes), made)| == AtLeastZero(nDirs)
    ensures |RandTree.NewFiles(old(fs.nodes), made)| == AtLeastZero(nFiles)
    ensures Renewed(made, fs.nodes, root, "new")
    ensures nFiles > 0 ==> forall tag :: TreeScripts.Good(fs.nodes, root, tag) <==> tag == "new"
    ensures forall p | IsFile(made, p) && Below(root, p) :: (p, File(Expected("original", p))) in held
  {
    var ok1 := MakeAndCheck(fs, root, nDirs, nFiles);
    made := fs.nodes;
    var ok2 := FillAndCheck(fs, root, "dummy");
    ghost var dummy := fs.nodes;
    TreeScripts.Fill(fs, root, "original");
    ghost var refilled := fs.nodes;
    var ok3;
    ok3, held := HoldAndCheck(fs, root);
    ok := ok1 && ok2 && ok3;
    Renewals(made, dummy, refilled, fs.nodes, root);
    TreeScripts.RenewedIsGood(made, fs.nodes, root, "new");
    if nFiles > 0 {
      forall tag ensures TreeScripts.Good(fs.nodes, root, tag) <==> tag == "new" {
        TreeScripts.GoodExactlyIf(fs.nodes, root, "new", tag);
      }
    }
  }

  lemma Renewals(t: Tree, u: Tree, v: Tree, w: Tree, d: Path)
    requires Renewed(t, u, d, "dummy") && Renewed(u, v, d, "original") && Renewed(v, w, d, "new")
    ensures Renewed(t, w, d, "new") && Renewed(t, v, d, "original")
  {}
}
