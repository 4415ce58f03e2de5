/** What creating, unlinking and writing a file mean for every path of the volume
    (src/disque/file.c:19-59). */
module NameChanges {
  import opened Bytes
  import opened Codec
  import opened FreeList
  import opened BlockMap
  import opened Allocate
  import opened FileView
  import opened Entries
  import opened Directory
  import opened Growth
  import opened Paths
  import opened NameTree

  /** `s'` is `s` with a new empty file, inode `i`, entered in directory `d`, `n` records of
      which were searched for a free one. */
  ghost predicate FileCreated(s: State, s': State, d: nat, name: seq<byte>, kind: FileType, i: nat, n: nat) {
    && |s'.blocks| == |s'.owner| == |s.owner| == |s.blocks| && s'.sb.root == s.sb.root
    && 0 < i < 65536 && !IsRoot(s, i) && (forall j: nat :: IsRoot(s', j) <==> IsRoot(s, j) || j == i)
    && (forall j: nat | IsRoot(s, j) :: s'.blocks[j][2] == s.blocks[j][2] && Taille(s, j) <= Taille(s', j))
    && (forall j: nat | IsRoot(s, j) && j != d :: FileBytes(s', j) == FileBytes(s, j))
    && s'.blocks[i][2] == TypeCode(kind) && (forall p | 0 <= p < CAPACITY :: FileBytes(s', i)[p] == 0)
    && IsDirectory(s, d) && CName(name) && n <= MAX_ENTRIES && UsedWithin(FileBytes(s, d), n)
    && FreeFrom(FileBytes(s, d), 0, n) < MAX_ENTRIES
    && FileBytes(s', d) == Added(FileBytes(s, d), n, i, name)
  }

  lemma EmptyLookup(a: seq<byte>, m: seq<byte>)
    requires |a| == CAPACITY && forall p | 0 <= p < CAPACITY :: a[p] == 0
    ensures Lookup(a, m) == 0 && UsedWithin(a, 0)
  {
    assert forall k: nat | k < MAX_ENTRIES :: Inum(a, k) == 0;
    assert forall j: nat | j < MAX_ENTRIES :: !Names(a, j, m);
  }

  /** The record the new file got comes before any older one of that name. */
  ghost predicate NewFirst(s: State, d: nat, name: seq<byte>, n: nat)
  {
    n <= MAX_ENTRIES && FreeFrom(FileBytes(s, d), 0, n) < FindFrom(FileBytes(s, d), 0, MAX_ENTRIES, Stored(name))
  }

  lemma CreatedFindNew(s: State, s': State, d: nat, name: seq<byte>, kind: FileType, i: nat, n: nat, m: seq<byte>)
    requires FileCreated(s, s', d, name, kind, i, n)
    ensures Find(s', i, m) == 0
  {
    EmptyLookup(FileBytes(s', i), m);
  }

  lemma CreatedFindHere(s: State, s': State, d: nat, name: seq<byte>, kind: FileType, i: nat, n: nat, m: seq<byte>)
    requires FileCreated(s, s', d, name, kind, i, n)
    ensures Find(s', d, m) == if m == Stored(name) && NewFirst(s, d, name, n) then i else Find(s, d, m)
  {
    hide Lookup, Added, FileBytes, FindFrom, FreeFrom, Stored;
    LookupAdded(FileBytes(s, d), n, i, name, m);
  }

  /** One step of a walk after the creation. */
  lemma CreatedFind(s: State, s': State, d: nat, name: seq<byte>, kind: FileType, i: nat, n: nat, e: nat, m: seq<byte>)
    requires FileCreated(s, s', d, name, kind, i, n)
    ensures e == i ==> Find(s', e, m) == 0
    ensures e != i ==>
              Find(s', e, m) == if e == d && m == Stored(name) && NewFirst(s, d, name, n) then i else Find(s, e, m)
  {
    hide Lookup, NewFirst, Stored;
    if e == i {
      CreatedFindNew(s, s', d, name, kind, i, n, m);
    } else if e == d {
      CreatedFindHere(s, s', d, name, kind, i, n, m);
    } else if IsRoot(s, e) {
      assert FileBytes(s', e) == FileBytes(s, e);
    }
  }

  /** What a path with components `names` resolves to after a file has been created under
      the path `path`. */
  ghost function AfterCreation(s: State, path: seq<seq<byte>>, first: bool, i: nat, names: seq<seq<byte>>): nat {
    if !first || !(path <= names) then Walk(s, s.sb.root, names) else if path == names then i else 0
  }

  /** Exactly what every walk from the root gives after the creation. */
  lemma {:induction false} CreatedWalk(s: State, s': State, dir: seq<seq<byte>>, d: nat, name: seq<byte>,
                                       kind: FileType, i: nat, n: nat, names: seq<seq<byte>>)
    requires NameSpace(s) && Tree(s) && FileCreated(s, s', d, name, kind, i, n) && Walk(s, s.sb.root, dir) == d
    ensures Walk(s', s.sb.root, names) == AfterCreation(s, dir + [Stored(name)], NewFirst(s, d, name, n), i, names)
    decreases |names|
  {
    hide NameSpace, Tree, FileCreated, FileBytes, Find;
    CreatedRoots(s, s', d, name, kind, i, n);
    if names == [] {
    } else {
      var front, last := names[..|names| - 1], names[|names| - 1];
      assert names == front + [last];
      CreatedWalk(s, s', dir, d, name, kind, i, n, front);
      WalkSnoc(s, s.sb.root, front, last);
      WalkSnoc(s', s.sb.root, front, last);
      CreatedStep(s, s', dir, d, name, kind, i, n, front, last);
    }
  }

  lemma CreatedRoots(s: State, s': State, d: nat, name: seq<byte>, kind: FileType, i: nat, n: nat)
    requires NameSpace(s) && FileCreated(s, s', d, name, kind, i, n)
    ensures !IsRoot(s, 0) && !IsRoot(s', 0) && s.sb.root != 0 && i != 0 && s'.sb.root == s.sb.root
    ensures n <= MAX_ENTRIES && d != 0
  {
  }

  lemma CreatedStep(s: State, s': State, dir: seq<seq<byte>>, d: nat, name: seq<byte>, kind: FileType,
                    i: nat, n: nat, front: seq<seq<byte>>, last: seq<byte>)
    requires NameSpace(s) && Tree(s) && FileCreated(s, s', d, name, kind, i, n) && Walk(s, s.sb.root, dir) == d
    requires s.sb.root != 0 && d != 0 && !IsRoot(s, 0)
    ensures var path, first := dir + [Stored(name)], NewFirst(s, d, name, n);
            Find(s', AfterCreation(s, path, first, i, front), last) ==
              if path <= front && first then 0
              else if front == dir && last == Stored(name) && first then i
              else Find(s, Walk(s, s.sb.root, front), last)
  {
    hide NameSpace, Tree, FileCreated, FileBytes, Find;
    var path, first := dir + [Stored(name)], NewFirst(s, d, name, n);
    var e := AfterCreation(s, path, first, i, front);
    CreatedFind(s, s', d, name, kind, i, n, e, last);
    if path <= front && first {
      FindNone(s, s', d, name, kind, i, n, last);
    } else {
      NotNew(s, s', d, name, kind, i, n, front);
      if e == d {
        OnePath(s, front, dir);
      }
    }
  }

  lemma FindNone(s: State, s': State, d: nat, name: seq<byte>, kind: FileType, i: nat, n: nat, m: seq<byte>)
    requires NameSpace(s) && FileCreated(s, s', d, name, kind, i, n)
    ensures Find(s', 0, m) == 0 && Find(s', i, m) == 0
  {
    CreatedFind(s, s', d, name, kind, i, n, i, m);
  }

  lemma NotNew(s: State, s': State, d: nat, name: seq<byte>, kind: FileType, i: nat, n: nat, names: seq<seq<byte>>)
    requires NameSpace(s) && FileCreated(s, s', d, name, kind, i, n)
    ensures Walk(s, s.sb.root, names) != i
  {
    WalkRoots(s, s.sb.root, names);
  }

  /** The components of a path that names a file to be created or unlinked. */
  lemma ParentComponents(s: State, p: seq<byte>)
    requires p != [] && p[0] == SLASH && BaseName(p) != []
    ensures Components(p) == Components(DirName(p)) + [BaseName(p)]
    ensures Resolve(s, DirName(p)) == Walk(s, s.sb.root, Components(DirName(p)))
  {
    ComponentsOfBase(p);
  }

  /** Create, then resolve. The new path leads to the new inode, every other path exactly
      where it led before, and every other file has the bytes it had. */
  lemma CreateThenResolve(s: State, s': State, p: seq<byte>, kind: FileType, i: nat, n: nat, q: seq<byte>)
    requires NameSpace(s) && Tree(s) && p != [] && p[0] == SLASH && BaseName(p) != [] && |BaseName(p)| < ENTRYMAXLENGTH
    requires Resolve(s, DirName(p)) != 0 && Resolve(s, p) == 0
    requires FileCreated(s, s', Resolve(s, DirName(p)), BaseName(p), kind, i, n)
    ensures Resolve(s', p) == i
    ensures Resolve(s', q) == if q != [] && q[0] == SLASH && Components(q) == Components(p) then i else Resolve(s, q)
    ensures forall j: nat | IsRoot(s, j) && j != Resolve(s, DirName(p)) :: FileBytes(s', j) == FileBytes(s, j)
  {
    var d := Resolve(s, DirName(p));
    ParentThenLookup(s, p);
    NowFirst(s, d, BaseName(p), n);
    DuplicateCreation(s, s', p, kind, i, n, p);
    DuplicateCreation(s, s', p, kind, i, n, q);
    if Components(p) <= Components(q) && Components(q) != Components(p) {
      BehindNothing(s, Components(p), Components(q));
    }
  }

  lemma NowFirst(s: State, d: nat, name: seq<byte>, n: nat)
    requires IsDirectory(s, d) && Find(s, d, name) == 0 && |name| < ENTRYMAXLENGTH && n <= MAX_ENTRIES
    requires FreeFrom(FileBytes(s, d), 0, n) < MAX_ENTRIES
    ensures NewFirst(s, d, name, n)
  {
  }

  /** Nothing lies behind a path that leads nowhere. */
  lemma BehindNothing(s: State, xs: seq<seq<byte>>, ys: seq<seq<byte>>)
    requires xs <= ys && xs != [] && Walk(s, s.sb.root, xs) == 0
    ensures Walk(s, s.sb.root, ys) == 0
  {
    WalkAppend(s, s.sb.root, xs, ys[|xs|..]);
    assert ys == xs + ys[|xs|..];
  }

  /** The source does not reject an existing name. If the record it uses comes before the
      older one, the path leads to the new inode and all that lay behind the old one is out
      of reach; otherwise it is the new file that no path leads to. */
  lemma DuplicateCreation(s: State, s': State, p: seq<byte>, kind: FileType, i: nat, n: nat, q: seq<byte>)
    requires NameSpace(s) && Tree(s) && p != [] && p[0] == SLASH && BaseName(p) != [] && |BaseName(p)| < ENTRYMAXLENGTH
    requires FileCreated(s, s', Resolve(s, DirName(p)), BaseName(p), kind, i, n)
    ensures Resolve(s', q) ==
            if q == [] || q[0] != SLASH then 0
            else AfterCreation(s, Components(p), NewFirst(s, Resolve(s, DirName(p)), BaseName(p), n), i, Components(q))
  {
    var d := Resolve(s, DirName(p));
    ParentComponents(s, p);
    CreatedWalk(s, s', Components(DirName(p)), d, BaseName(p), kind, i, n, Components(q));
  }

  lemma {:induction false} NoEmptyName(p: seq<byte>, k: nat)
    requires k < |Components(p)|
    ensures Components(p)[k] != []
    decreases |p|
  {
    if p[0] == SLASH {
      NoEmptyName(p[1..], k);
    } else if k == 0 {
    } else {
      NoEmptyName(p[NameLength(p)..], k - 1);
    }
  }

  lemma NotNameless(dir: seq<seq<byte>>, q: seq<byte>)
    ensures !(dir + [[]] <= Components(q))
  {
    var path := dir + [[]];
    assert path[|dir|] == [];
    if path <= Components(q) {
      NoEmptyName(q, |dir|);
      assert false;
    }
  }

  /** A path that ends with a slash is not rejected either: the file gets the empty name,
      and no path leads to it. */
  lemma NamelessCreation(s: State, s': State, p: seq<byte>, kind: FileType, i: nat, n: nat, q: seq<byte>)
    requires NameSpace(s) && Tree(s) && p != [] && p[0] == SLASH && BaseName(p) == []
    requires FileCreated(s, s', Resolve(s, DirName(p)), BaseName(p), kind, i, n)
    ensures Resolve(s', q) == Resolve(s, q) != i
  {
    var d, dir := Resolve(s, DirName(p)), Components(DirName(p));
    CreatedWalk(s, s', dir, d, [], kind, i, n, Components(q));
    NotNameless(dir, q);
    NotNew(s, s', d, [], kind, i, n, Components(q));
  }

  // ------------------------------------------------------- what a creation keeps

  lemma CreatedLinks(s: State, s': State, d: nat, name: seq<byte>, kind: FileType, i: nat, n: nat,
                     e: nat, k: nat, j: nat)
    requires FileCreated(s, s', d, name, kind, i, n) && Links(s', e, k, j)
    ensures Links(s, e, k, j) || (e == d && k == FreeFrom(FileBytes(s, d), 0, n) && j == i)
  {
    if e == i {
      EmptyLookup(FileBytes(s', i), []);
      NothingLinked(FileBytes(s', i), k);
    } else if e == d {
      AddedSets(FileBytes(s, d), n, i, name);
    }
  }

  lemma NothingLinked(a: seq<byte>, k: nat)
    requires |a| == CAPACITY && (forall p | 0 <= p < CAPACITY :: a[p] == 0) && k < MAX_ENTRIES
    ensures Inum(a, k) == 0
  {
  }

  /** A creation hangs one more leaf into the tree. */
  lemma CreatedTree(s: State, s': State, d: nat, name: seq<byte>, kind: FileType, i: nat, n: nat)
    requires NameSpace(s) && Tree(s) && FileCreated(s, s', d, name, kind, i, n)
    ensures Tree(s')
  {
    forall e: nat, k: nat, e': nat, k': nat, j: nat | Links(s', e, k, j) && Links(s', e', k', j)
      ensures e == e' && k == k'
    {
      CreatedLinks(s, s', d, name, kind, i, n, e, k, j);
      CreatedLinks(s, s', d, name, kind, i, n, e', k', j);
      OldLinks(s, e, k, j);
      OldLinks(s, e', k', j);
    }
    forall e: nat, k: nat ensures !Links(s', e, k, s'.sb.root) {
      if Links(s', e, k, s'.sb.root) {
        CreatedLinks(s, s', d, name, kind, i, n, e, k, s.sb.root);
      }
    }
  }

  lemma OldLinks(s: State, e: nat, k: nat, j: nat)
    requires NameSpace(s)
    ensures Links(s, e, k, j) ==> IsRoot(s, j)
  {
  }

  /** Names stay unique when the name was not there before. */
  lemma CreatedUnique(s: State, s': State, d: nat, name: seq<byte>, kind: FileType, i: nat, n: nat)
    requires AllUnique(s) && FileCreated(s, s', d, name, kind, i, n) && Find(s, d, Stored(name)) == 0
    ensures AllUnique(s')
  {
    forall e: nat | IsDirectory(s', e) ensures UniqueNames(FileBytes(s', e)) {
      if e == i {
        forall k: nat | k < MAX_ENTRIES ensures Inum(FileBytes(s', i), k) == 0 {
          NothingLinked(FileBytes(s', i), k);
        }
      } else if e == d {
        AddedSets(FileBytes(s, d), n, i, name);
        SetKeepsUnique(FileBytes(s, d), FileBytes(s', d), FreeFrom(FileBytes(s, d), 0, n), i, Stored(name));
      }
    }
  }

  lemma CreatedTidy(s: State, s': State, d: nat, name: seq<byte>, kind: FileType, i: nat, n: nat, e: nat)
    requires NameSpace(s) && Inv(s') && FileCreated(s, s', d, name, kind, i, n) && IsRoot(s', e)
    requires n <= Whole(Taille(s', d)) && FreeFrom(FileBytes(s, d), 0, n) < Whole(Taille(s', d))
    requires IsDirectory(s', e)
    ensures Tidy(s', e)
  {
    if e == i {
      EmptyLookup(FileBytes(s', i), []);
    } else if e == d {
      WholeBound(Taille(s', d), 0);
      AddKeepsShape(FileBytes(s, d), n, Whole(Taille(s', d)), i, name);
    } else {
      TidyGrows(s, s', e);
    }
  }

  lemma CreatedLeads(s: State, s': State, d: nat, name: seq<byte>, kind: FileType, i: nat, n: nat, e: nat)
    requires NameSpace(s) && FileCreated(s, s', d, name, kind, i, n) && IsDirectory(s', e)
    ensures EntriesLead(s', FileBytes(s', e))
  {
    if e == i {
      EmptyLookup(FileBytes(s', i), []);
    } else if e == d {
      AddedSets(FileBytes(s, d), n, i, name);
    }
  }

  lemma CreatedNameSpace(s: State, s': State, d: nat, name: seq<byte>, kind: FileType, i: nat, n: nat)
    requires NameSpace(s) && Inv(s') && AllCompact(s') && FileCreated(s, s', d, name, kind, i, n)
    requires n <= Whole(Taille(s', d)) && FreeFrom(FileBytes(s, d), 0, n) < Whole(Taille(s', d))
    ensures NameSpace(s')
  {
    forall e: nat | IsDirectory(s', e) ensures Tidy(s', e) && EntriesLead(s', FileBytes(s', e)) {
      CreatedTidy(s, s', d, name, kind, i, n, e);
      CreatedLeads(s, s', d, name, kind, i, n, e);
    }
  }

  // ------------------------------------------------------------------- unlinking

  /** `s'` is `s` with the first entry for `name` in directory `d` cleared. */
  ghost predicate FileUnlinked(s: State, s': State, d: nat, name: seq<byte>) {
    && |s'.blocks| == |s'.owner| == |s.owner| == |s.blocks| && s'.sb.root == s.sb.root
    && (forall j: nat :: IsRoot(s', j) <==> IsRoot(s, j))
    && (forall j: nat | IsRoot(s, j) :: s'.blocks[j][2] == s.blocks[j][2] && Taille(s, j) <= Taille(s', j))
    && (forall j: nat | IsRoot(s, j) && j != d :: FileBytes(s', j) == FileBytes(s, j))
    && IsDirectory(s, d) && Lookup(FileBytes(s, d), name) != 0
    && FindFrom(FileBytes(s, d), 0, MAX_ENTRIES, name) < MAX_ENTRIES
    && FileBytes(s', d) == Cleared(FileBytes(s, d), FindFrom(FileBytes(s, d), 0, MAX_ENTRIES, name))
  }

  lemma UnlinkedFind(s: State, s': State, d: nat, name: seq<byte>, e: nat, m: seq<byte>)
    requires FileUnlinked(s, s', d, name)
    ensures Find(s', e, m) == if e == d && m == name then SecondOf(FileBytes(s, d), name) else Find(s, e, m)
  {
    if e == d {
      ClearedSets(FileBytes(s, d), FindFrom(FileBytes(s, d), 0, MAX_ENTRIES, name));
      LookupCleared(FileBytes(s, d), FileBytes(s', d), name, m);
    }
  }

  /** What a path with components `names` resolves to after the path `path` has been
      unlinked: what lies behind it is looked for under the second record of its name. */
  ghost function AfterUnlinking(s: State, s': State, path: seq<seq<byte>>, second: nat, names: seq<seq<byte>>): nat {
    if path <= names then Walk(s', second, names[|path|..]) else Walk(s, s.sb.root, names)
  }

  /** Exactly what every walk from the root gives after the unlinking. */
  lemma {:induction false} UnlinkedWalk(s: State, s': State, dir: seq<seq<byte>>, d: nat, name: seq<byte>,
                                        names: seq<seq<byte>>)
    requires NameSpace(s) && Tree(s) && FileUnlinked(s, s', d, name) && Walk(s, s.sb.root, dir) == d
    ensures Walk(s', s.sb.root, names)
         == AfterUnlinking(s, s', dir + [name], SecondOf(FileBytes(s, d), name), names)
    decreases |names|
  {
    hide NameSpace, Tree, FileUnlinked, FileBytes, Find, SecondOf;
    UnlinkedRoots(s, s', d, name);
    if names == [] {
    } else {
      var path, front, last := dir + [name], names[..|names| - 1], names[|names| - 1];
      assert names == front + [last];
      UnlinkedWalk(s, s', dir, d, name, front);
      WalkSnoc(s, s.sb.root, front, last);
      WalkSnoc(s', s.sb.root, front, last);
      var e := AfterUnlinking(s, s', path, SecondOf(FileBytes(s, d), name), front);
      if path <= front {
        assert names[|path|..] == front[|path|..] + [last];
        WalkSnoc(s', SecondOf(FileBytes(s, d), name), front[|path|..], last);
      } else {
        UnlinkedFind(s, s', d, name, e, last);
        if e == d {
          OnePath(s, front, dir);
        }
        if path == names {
          assert front == dir && names[|path|..] == [];
        } else {
          assert !(path <= names);
        }
      }
    }
  }

  lemma UnlinkedRoots(s: State, s': State, d: nat, name: seq<byte>)
    requires NameSpace(s) && FileUnlinked(s, s', d, name)
    ensures !IsRoot(s, 0) && !IsRoot(s', 0) && s.sb.root != 0 && s'.sb.root == s.sb.root && d != 0
  {
  }

  lemma {:induction false} WalkNowhere(s: State, names: seq<seq<byte>>)
    requires !IsRoot(s, 0)
    ensures Walk(s, 0, names) == 0
  {
  }

  /** Unlink, then resolve. The path leads to the second file of that name, so nowhere
      exactly if the directory held the name once; then exactly the paths through it are
      gone. No inode is freed. */
  lemma UnlinkThenResolve(s: State, s': State, p: seq<byte>, q: seq<byte>)
    requires NameSpace(s) && Tree(s) && p != [] && p[0] == SLASH && BaseName(p) != []
    requires FileUnlinked(s, s', Resolve(s, DirName(p)), BaseName(p))
    ensures Resolve(s', p) == SecondOf(FileBytes(s, Resolve(s, DirName(p))), BaseName(p))
    ensures Resolve(s', p) == 0 <==> Once(FileBytes(s, Resolve(s, DirName(p))), BaseName(p))
    ensures Resolve(s', p) == 0 ==>
              Resolve(s', q) == if q != [] && q[0] == SLASH && Components(p) <= Components(q) then 0 else Resolve(s, q)
    ensures Resolve(s', p) != 0 && !(Components(p) <= Components(q)) ==> Resolve(s', q) == Resolve(s, q)
    ensures forall j: nat | IsRoot(s, j) :: IsRoot(s', j)
    ensures forall j: nat | IsRoot(s, j) && j != Resolve(s, DirName(p)) :: FileBytes(s', j) == FileBytes(s, j)
  {
    var d := Resolve(s, DirName(p));
    ParentComponents(s, p);
    SecondOrOnce(FileBytes(s, d), BaseName(p));
    UnlinkedRoots(s, s', d, BaseName(p));
    UnlinkedWalk(s, s', Components(DirName(p)), d, BaseName(p), Components(p));
    UnlinkedWalk(s, s', Components(DirName(p)), d, BaseName(p), Components(q));
    if Components(p) <= Components(q) {
      WalkNowhere(s', Components(q)[|Components(p)|..]);
    }
  }

  // ---------------------------------------------------- what an unlinking keeps

  lemma UnlinkedLinks(s: State, s': State, d: nat, name: seq<byte>, e: nat, k: nat, j: nat)
    requires FileUnlinked(s, s', d, name) && Links(s', e, k, j)
    ensures Links(s, e, k, j)
  {
    if e == d {
      ClearedSets(FileBytes(s, d), FindFrom(FileBytes(s, d), 0, MAX_ENTRIES, name));
    }
  }

  lemma UnlinkedTree(s: State, s': State, d: nat, name: seq<byte>)
    requires FileUnlinked(s, s', d, name)
    ensures Tree(s) ==> Tree(s')
    ensures AllUnique(s) ==> AllUnique(s')
  {
    forall e: nat, k: nat, j: nat | Links(s', e, k, j) ensures Links(s, e, k, j) {
      UnlinkedLinks(s, s', d, name, e, k, j);
    }
    if AllUnique(s) {
      forall e: nat | IsDirectory(s', e) ensures UniqueNames(FileBytes(s', e)) {
        if e == d {
          ClearKeepsShape(FileBytes(s, d), MAX_ENTRIES, FindFrom(FileBytes(s, d), 0, MAX_ENTRIES, name));
        }
      }
    }
  }

  lemma UnlinkedNameSpace(s: State, s': State, d: nat, name: seq<byte>)
    requires NameSpace(s) && Inv(s') && AllCompact(s') && FileUnlinked(s, s', d, name)
    ensures NameSpace(s')
  {
    forall e: nat | IsDirectory(s', e) ensures Tidy(s', e) && EntriesLead(s', FileBytes(s', e)) {
      if e == d {
        var k := FindFrom(FileBytes(s, d), 0, MAX_ENTRIES, name);
        ClearedSets(FileBytes(s, d), k);
        WholeBound(Taille(s', d), 0);
        ClearKeepsShape(FileBytes(s, d), Whole(Taille(s, d)), k);
      } else {
        TidyGrows(s, s', e);
      }
    }
  }

  // --------------------------------------------------------------------- writing

  /** Writing a file that is no directory changes no path and keeps the name space. */
  lemma WritingNames(s: State, s': State, i: nat, q: seq<byte>)
    requires NameSpace(s) && Inv(s') && OnlyFile(s, s', i) && !IsDirectory(s, i)
    ensures NameSpace(s') && Resolve(s', q) == Resolve(s, q)
    ensures Tree(s) ==> Tree(s')
    ensures AllUnique(s) ==> AllUnique(s')
  {
    CompactKept(s, s', i);
    WritingKeeps(s, s', i);
    SameDirectoriesTree(s, s');
    WritingWalk(s, s', i, s.sb.root, Components(q));
  }

  lemma WritingKeeps(s: State, s': State, i: nat)
    requires NameSpace(s) && Inv(s') && OnlyFile(s, s', i) && !IsDirectory(s, i) && AllCompact(s')
    ensures NameSpace(s')
    ensures forall d: nat :: IsDirectory(s', d) <==> IsDirectory(s, d)
    ensures forall d: nat | IsDirectory(s, d) :: FileBytes(s', d) == FileBytes(s, d)
  {
  }

  lemma {:induction false} WritingWalk(s: State, s': State, i: nat, d: nat, names: seq<seq<byte>>)
    requires OnlyFile(s, s', i) && !IsDirectory(s, i)
    ensures Walk(s', d, names) == Walk(s, d, names)
    decreases |names|
  {
    if names == [] {
    } else {
      assert Find(s', d, names[0]) == Find(s, d, names[0]);
      WritingWalk(s, s', i, Find(s, d, names[0]), names[1..]);
    }
  }
}
