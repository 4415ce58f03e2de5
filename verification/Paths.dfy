/** Path names and what they resolve to (src/disque/dir.c:160-271), as a fold over the
    components of a path, on an unchanging volume. */
module Paths {
  import opened Bytes
  import opened FreeList
  import opened BlockMap
  import opened Allocate
  import opened FileView
  import opened Entries
  import opened Directory
  import opened Growth

  const SLASH: byte := 47

  // ----------------------------------------------------------------- components

  /** The length of the leading name: up to the first slash, or the whole path. */
  function NameLength(p: seq<byte>): (n: nat)
    ensures n <= |p|
    ensures forall k | 0 <= k < n :: p[k] != SLASH
    ensures n < |p| ==> p[n] == SLASH
  {
    if p == [] || p[0] == SLASH then 0 else 1 + NameLength(p[1..])
  }

  /** The non-empty names of a path, in order. */
  function Components(p: seq<byte>): seq<seq<byte>>
    decreases |p|
  {
    if p == [] then []
    else if p[0] == SLASH then Components(p[1..])
    else [p[..NameLength(p)]] + Components(p[NameLength(p)..])
  }

  lemma {:induction false} NameLengthIs(p: seq<byte>, n: nat)
    requires n <= |p| && (forall k | 0 <= k < n :: p[k] != SLASH) && (n < |p| ==> p[n] == SLASH)
    ensures NameLength(p) == n
  {
    if n == 0 {
    } else {
      NameLengthIs(p[1..], n - 1);
    }
  }

  /** A slash separates: it can be repeated, or end the path, without consequence. */
  lemma {:induction false} ComponentsSplit(a: seq<byte>, b: seq<byte>)
    ensures Components(a + [SLASH] + b) == Components(a) + Components(b)
    decreases |a|
  {
    var p := a + [SLASH] + b;
    if a == [] {
      assert p == [SLASH] + b && p[1..] == b;
    } else if a[0] == SLASH {
      assert p[1..] == a[1..] + [SLASH] + b;
      ComponentsSplit(a[1..], b);
    } else {
      var n := NameLength(a);
      NameLengthIs(p, n);
      ComponentsSplit(a[n..], b);
      FirstComponent(a, n, a[..n], a[n..]);
      FirstComponent(p, n, a[..n], a[n..] + [SLASH] + b);
    }
  }

  lemma FirstComponent(p: seq<byte>, n: nat, name: seq<byte>, rest: seq<byte>)
    requires p != [] && p[0] != SLASH && n == NameLength(p) && p == name + rest && |name| == n
    ensures Components(p) == [name] + Components(rest)
  {
    assert p[..n] == name && p[n..] == rest;
  }

  /** Repeated and trailing slashes do not matter. */
  lemma SlashesDoNotMatter(a: seq<byte>, b: seq<byte>)
    ensures Components(a + [SLASH] + [SLASH] + b) == Components(a + [SLASH] + b)
    ensures Components(a + [SLASH]) == Components(a)
  {
    ComponentsSplit(a, b);
    ComponentsSplit(a, [SLASH] + b);
    assert a + [SLASH] + ([SLASH] + b) == a + [SLASH] + [SLASH] + b;
    ComponentsSplit([], b);
    assert [] + [SLASH] + b == [SLASH] + b;
    ComponentsSplit(a, []);
    assert a + [SLASH] + [] == a + [SLASH];
  }

  // ------------------------------------------------------------------ resolution

  /** One step of the walk: the entry of that name; 0 outside directories. */
  ghost function Find(s: State, d: nat, name: seq<byte>): nat {
    if IsDirectory(s, d) then Lookup(FileBytes(s, d), name) else 0
  }

  ghost function Walk(s: State, d: nat, names: seq<seq<byte>>): nat
    decreases |names|
  {
    if names == [] then d
    else
      var next := Find(s, d, names[0]);
      if next == 0 then 0 else Walk(s, next, names[1..])
  }

  /** What an absolute path resolves to; 0 for none and for relative paths. */
  ghost function Resolve(s: State, p: seq<byte>): nat {
    if p == [] || p[0] != SLASH then 0 else Walk(s, s.sb.root, Components(p))
  }

  lemma {:induction false} WalkAppend(s: State, d: nat, xs: seq<seq<byte>>, ys: seq<seq<byte>>)
    ensures Walk(s, d, xs + ys) == if xs != [] && Walk(s, d, xs) == 0 then 0 else Walk(s, Walk(s, d, xs), ys)
    decreases |xs|
  {
    if xs == [] {
      assert xs + ys == ys;
    } else {
      assert (xs + ys)[0] == xs[0] && (xs + ys)[1..] == xs[1..] + ys;
      var next := Find(s, d, xs[0]);
      if next != 0 {
        WalkAppend(s, next, xs[1..], ys);
        if xs[1..] == [] {
          assert Walk(s, next, xs[1..]) == next;
        }
      }
    }
  }

  /** The position after the last slash. */
  function LastSlash(p: seq<byte>): (n: nat)
    requires p != [] && p[0] == SLASH
    ensures 0 < n <= |p| && p[n - 1] == SLASH
    ensures forall k | n <= k < |p| :: p[k] != SLASH
  {
    if p[|p| - 1] == SLASH then |p| else LastSlash(p[..|p| - 1])
  }

  /** The path up to its last slash. */
  function DirName(p: seq<byte>): (d: seq<byte>)
    requires p != [] && p[0] == SLASH
    ensures d != [] && d[0] == d[|d| - 1] == SLASH && d <= p
  {
    p[..LastSlash(p)]
  }

  /** What comes behind its last slash. */
  function BaseName(p: seq<byte>): (b: seq<byte>)
    requires p != [] && p[0] == SLASH
    ensures p == DirName(p) + b && forall k | 0 <= k < |b| :: b[k] != SLASH
  {
    p[LastSlash(p)..]
  }

  /** The directory a path's last name is to be found in; 0 if there is none. */
  ghost function ParentOf(s: State, p: seq<byte>): nat {
    if p == [] || p[0] != SLASH || !IsDirectory(s, Resolve(s, DirName(p))) then 0 else Resolve(s, DirName(p))
  }

  lemma OneComponent(b: seq<byte>)
    requires forall k | 0 <= k < |b| :: b[k] != SLASH
    ensures Components(b) == if b == [] then [] else [b]
  {
    if b != [] {
      NameLengthIs(b, |b|);
      assert b[..|b|] == b && b[|b|..] == [];
    }
  }

  lemma ComponentsOfBase(p: seq<byte>)
    requires p != [] && p[0] == SLASH
    ensures Components(p) == Components(DirName(p)) + if BaseName(p) == [] then [] else [BaseName(p)]
  {
    hide Components;
    var n := LastSlash(p);
    var a, b := p[..n - 1], p[n..];
    assert p == a + [SLASH] + b && p[..n] == a + [SLASH];
    ComponentsSplit(a, b);
    SlashesDoNotMatter(a, b);
    OneComponent(b);
  }

  /** Looking the last name up in the directory that `dinumber_of_path` returns gives what
      the whole path resolves to. */
  lemma ParentThenLookup(s: State, p: seq<byte>)
    requires p != [] && p[0] == SLASH && BaseName(p) != [] && Resolve(s, DirName(p)) != 0
    ensures Resolve(s, p) == Find(s, Resolve(s, DirName(p)), BaseName(p))
  {
    ComponentsOfBase(p);
    var xs := Components(DirName(p));
    WalkAppend(s, s.sb.root, xs, [BaseName(p)]);
    var d := Resolve(s, DirName(p));
    assert Walk(s, d, [BaseName(p)]) == Find(s, d, BaseName(p)) by {
      assert [BaseName(p)][1..] == [];
    }
  }

  // ------------------------------------------------------------------ name spaces

  /** The volume's root is a directory; every directory is tidy, has a block in every place
      below its size and nowhere else, and all its entries lead to inodes. */
  ghost predicate NameSpace(s: State) {
    && Inv(s) && IsDirectory(s, s.sb.root) && AllCompact(s)
    && (forall d: nat | IsDirectory(s, d) :: Tidy(s, d) && EntriesLead(s, FileBytes(s, d)))
  }

  /** Every record in use of directory contents `a` names an inode of `s`. */
  ghost predicate EntriesLead(s: State, a: seq<byte>) {
    |a| == CAPACITY && forall k: nat | k < MAX_ENTRIES && Inum(a, k) != 0 :: IsRoot(s, Inum(a, k))
  }

  /** The parent is the directory that the path up to its last slash resolves to; there is
      none exactly if that is no directory or the path is relative. */
  lemma ParentIs(s: State, p: seq<byte>)
    requires NameSpace(s)
    ensures ParentOf(s, p) != 0 <==> p != [] && p[0] == SLASH && IsDirectory(s, Resolve(s, DirName(p)))
    ensures ParentOf(s, p) != 0 ==> ParentOf(s, p) == Resolve(s, DirName(p))
  {
  }

  /** What a path resolves to, by its last slash: without names the root; with a trailing
      slash what it resolves to without; otherwise its last name looked up in the directory
      before it, and nothing where that leads nowhere. */
  lemma ResolveByNames(s: State, p: seq<byte>)
    requires NameSpace(s)
    ensures p == [] || p[0] != SLASH ==> Resolve(s, p) == 0
    ensures p == [SLASH] ==> Resolve(s, p) == s.sb.root
    ensures |p| > 1 && p[0] == p[|p| - 1] == SLASH ==> Resolve(s, p) == Resolve(s, p[..|p| - 1])
    ensures p != [] && p[0] == SLASH && BaseName(p) != [] ==>
              var d := Resolve(s, DirName(p));
              Resolve(s, p) == if IsDirectory(s, d) then Lookup(FileBytes(s, d), BaseName(p)) else 0
  {
    OnlySlash(s);
    hide NameSpace, Components, Lookup, Walk;
    if |p| > 1 && p[0] == p[|p| - 1] == SLASH {
      SlashesDoNotMatter(p[..|p| - 1], []);
      assert p == p[..|p| - 1] + [SLASH];
    }
    if p != [] && p[0] == SLASH && BaseName(p) != [] {
      LastName(s, p);
    }
  }

  lemma OnlySlash(s: State)
    ensures Resolve(s, [SLASH]) == s.sb.root
  {
    var p := [SLASH];
    assert p[0] == SLASH && Components(p) == Components(p[1..]) && p[1..] == [];
  }

  lemma LastName(s: State, p: seq<byte>)
    requires NameSpace(s) && p != [] && p[0] == SLASH && BaseName(p) != []
    ensures Resolve(s, p) == Find(s, Resolve(s, DirName(p)), BaseName(p))
  {
    assert !IsRoot(s, 0);
    hide NameSpace, Components;
    ComponentsOfBase(p);
    var xs := Components(DirName(p));
    WalkAppend(s, s.sb.root, xs, [BaseName(p)]);
    assert [BaseName(p)][1..] == [];
  }

  lemma FindLeads(s: State, d: nat, name: seq<byte>)
    requires NameSpace(s)
    ensures Find(s, d, name) != 0 ==> IsRoot(s, Find(s, d, name))
  {
  }

  /** `s'` shows the same files as `s`: nothing but directories may have grown. */
  ghost predicate SameFiles(s: State, s': State) {
    && |s'.blocks| == |s'.owner| == |s.owner| == |s.blocks|
    && s'.sb.root == s.sb.root
    && (forall j: nat :: IsRoot(s', j) <==> IsRoot(s, j))
    && (forall j: nat | IsRoot(s, j) ::
          s'.blocks[j][2] == s.blocks[j][2] && Taille(s, j) <= Taille(s', j) && FileBytes(s', j) == FileBytes(s, j))
    && (forall j: nat | IsRoot(s, j) && !IsDirectory(s, j) :: Taille(s', j) == Taille(s, j))
    && (forall j: nat, p: Place | IsRoot(s, j) && !IsDirectory(s, j) :: Present(s', j, p) <==> Present(s, j, p))
  }

  /** Every inode of `s` is there with the bytes it had, and at most one more. */
  ghost predicate Spared(s: State, s': State) {
    && |s'.blocks| == |s'.owner| == |s.owner| == |s.blocks|
    && s'.sb.root == s.sb.root
    && (forall j: nat | IsRoot(s, j) ::
          IsRoot(s', j) && s'.blocks[j][2] == s.blocks[j][2] && FileBytes(s', j) == FileBytes(s, j))
    && (forall j: nat, k: nat | IsRoot(s', j) && !IsRoot(s, j) && IsRoot(s', k) && !IsRoot(s, k) :: j == k)
  }

  /** The same for all files but inode `i`, none having come. */
  ghost predicate AllBut(s: State, s': State, i: nat) {
    && |s'.blocks| == |s'.owner| == |s.owner| == |s.blocks|
    && s'.sb.root == s.sb.root
    && (forall j: nat :: IsRoot(s', j) <==> IsRoot(s, j))
    && (forall j: nat | IsRoot(s, j) :: s'.blocks[j][2] == s.blocks[j][2])
    && (forall j: nat | IsRoot(s, j) && j != i :: FileBytes(s', j) == FileBytes(s, j))
  }

  lemma SameAllBut(s: State, s1: State, s2: State, i: nat)
    requires SameFiles(s, s1) && OnlyFile(s1, s2, i)
    ensures AllBut(s, s2, i)
  {
  }

  lemma SameSpared(s: State, s': State)
    requires SameFiles(s, s')
    ensures Spared(s, s')
  {
  }

  lemma OnlyFileSame(s: State, s': State, d: nat)
    requires OnlyFile(s, s', d) && IsDirectory(s, d) && FileBytes(s', d) == FileBytes(s, d)
    ensures SameFiles(s, s')
  {
  }

  lemma SameFilesTransitive(s: State, s1: State, s2: State)
    requires SameFiles(s, s1) && SameFiles(s1, s2)
    ensures SameFiles(s, s2)
  {
  }

  lemma SameFind(s: State, s': State, d: nat, name: seq<byte>)
    requires SameFiles(s, s')
    ensures Find(s', d, name) == Find(s, d, name) && (IsDirectory(s', d) <==> IsDirectory(s, d))
  {
  }

  lemma {:induction false} SameWalk(s: State, s': State, d: nat, names: seq<seq<byte>>)
    requires SameFiles(s, s')
    ensures Walk(s', d, names) == Walk(s, d, names)
    decreases |names|
  {
    if names == [] {
    } else {
      SameFind(s, s', d, names[0]);
      SameWalk(s, s', Find(s, d, names[0]), names[1..]);
    }
  }

  lemma TidyGrows(s: State, s': State, d: nat)
    requires Inv(s') && IsRoot(s', d) && Tidy(s, d)
    requires Taille(s, d) <= Taille(s', d) && FileBytes(s', d) == FileBytes(s, d)
    ensures Tidy(s', d)
  {
  }

  lemma SameNameSpace(s: State, s': State)
    requires NameSpace(s) && SameFiles(s, s') && Inv(s') && AllCompact(s')
    ensures NameSpace(s')
  {
    forall d: nat | IsDirectory(s', d) ensures Tidy(s', d) && EntriesLead(s', FileBytes(s', d)) {
      TidyGrows(s, s', d);
    }
  }

  lemma {:induction false} WalkRoots(s: State, d: nat, names: seq<seq<byte>>)
    requires NameSpace(s) && IsRoot(s, d)
    ensures Walk(s, d, names) == 0 || IsRoot(s, Walk(s, d, names))
    decreases |names|
  {
    if names == [] {
    } else {
      var next := Find(s, d, names[0]);
      if next != 0 {
        FindLeads(s, d, names[0]);
        WalkRoots(s, next, names[1..]);
      }
    }
  }
}
