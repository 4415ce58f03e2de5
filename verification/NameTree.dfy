/** The directories of a volume form a tree: every inode is entered in at most one record,
    the root in none, so at most one list of names leads to it. */
module NameTree {
  import opened Bytes
  import opened FreeList
  import opened BlockMap
  import opened FileView
  import opened Entries
  import opened Directory
  import opened Paths

  /** Record `k` of directory `d` leads to inode `i`. */
  ghost predicate Links(s: State, d: nat, k: nat, i: nat) {
    IsDirectory(s, d) && k < MAX_ENTRIES && Inum(FileBytes(s, d), k) == i != 0
  }

  ghost predicate Tree(s: State) {
    && (forall d: nat, k: nat, e: nat, j: nat, i: nat | Links(s, d, k, i) && Links(s, e, j, i) :: d == e && k == j)
    && (forall d: nat, k: nat :: !Links(s, d, k, s.sb.root))
  }

  /** No directory holds two records of one name. */
  ghost predicate AllUnique(s: State) {
    forall d: nat | IsDirectory(s, d) :: UniqueNames(FileBytes(s, d))
  }

  lemma FindLinks(s: State, d: nat, name: seq<byte>)
    requires Find(s, d, name) != 0
    ensures var k := FindFrom(FileBytes(s, d), 0, MAX_ENTRIES, name);
            Links(s, d, k, Find(s, d, name)) && EntName(FileBytes(s, d), k) == name
  {
  }

  /** Block 0 is no inode. */
  lemma ZeroIsNoInode(s: State)
    requires NameSpace(s)
    ensures !IsRoot(s, 0) && s.sb.root != 0
  {
  }

  lemma WalkSnoc(s: State, e: nat, ws: seq<seq<byte>>, z: seq<byte>)
    requires !IsRoot(s, 0)
    ensures Walk(s, e, ws + [z]) == Find(s, Walk(s, e, ws), z)
  {
    WalkAppend(s, e, ws, [z]);
    assert [z][1..] == [];
  }

  /** Lists of names that lead from the root to one inode are the same. */
  lemma {:induction false} OnePath(s: State, xs: seq<seq<byte>>, ys: seq<seq<byte>>)
    requires Tree(s) && !IsRoot(s, 0) && s.sb.root != 0
    requires Walk(s, s.sb.root, xs) == Walk(s, s.sb.root, ys) != 0
    ensures xs == ys
    decreases |xs|
  {
    hide Find, FileBytes;
    if xs == [] && ys == [] {
    } else if xs == [] {
      LastStep(s, ys);
    } else if ys == [] {
      LastStep(s, xs);
    } else {
      LastStep(s, xs);
      LastStep(s, ys);
      OnePath(s, xs[..|xs| - 1], ys[..|ys| - 1]);
    }
  }

  /** The last name of a walk is that of the record that leads where the walk ends. */
  lemma LastStep(s: State, xs: seq<seq<byte>>)
    requires !IsRoot(s, 0) && xs != [] && Walk(s, s.sb.root, xs) != 0
    ensures var front, name := xs[..|xs| - 1], xs[|xs| - 1];
            && xs == front + [name] && Walk(s, s.sb.root, front) != 0
            && var d := Walk(s, s.sb.root, front);
               var k := FindFrom(FileBytes(s, d), 0, MAX_ENTRIES, name);
               Links(s, d, k, Walk(s, s.sb.root, xs)) && EntName(FileBytes(s, d), k) == name
  {
    var front, name := xs[..|xs| - 1], xs[|xs| - 1];
    assert xs == front + [name];
    WalkSnoc(s, s.sb.root, front, name);
    FindLinks(s, Walk(s, s.sb.root, front), name);
  }

  /** Two absolute paths that resolve to the same inode have the same components. */
  lemma PathsAreUnique(s: State, p: seq<byte>, q: seq<byte>)
    requires NameSpace(s) && Tree(s) && Resolve(s, p) == Resolve(s, q) != 0
    ensures Components(p) == Components(q)
  {
    ZeroIsNoInode(s);
    OnePath(s, Components(p), Components(q));
  }

  /** Directories that show the same bytes form the same tree. */
  lemma SameDirectoriesTree(s: State, s': State)
    requires s'.sb.root == s.sb.root
    requires forall d: nat :: IsDirectory(s', d) <==> IsDirectory(s, d)
    requires forall d: nat | IsDirectory(s, d) :: FileBytes(s', d) == FileBytes(s, d)
    ensures Tree(s) ==> Tree(s')
    ensures AllUnique(s) ==> AllUnique(s')
  {
    assert forall d: nat, k: nat, i: nat :: Links(s', d, k, i) <==> Links(s, d, k, i);
  }

  lemma SameTree(s: State, s': State)
    requires SameFiles(s, s')
    ensures Tree(s) ==> Tree(s')
    ensures AllUnique(s) ==> AllUnique(s')
  {
    SameDirectoriesTree(s, s');
  }
}
