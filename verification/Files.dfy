/** Walking paths and creating, unlinking and opening files (src/disque/dir.c:194-271 and
    src/disque/file.c:19-80). `alive` false means the process stopped during a
    search: exactly when a search gets to the end of a directory, which makes it longer, and
    the block for that cannot be had. */
module Files {
  import opened Bytes
  import opened Codec
  import opened FreeList
  import opened BlockMap
  import opened Allocate
  import opened Filesystem
  import opened FileView
  import opened Ifile
  import opened Entries
  import opened Directory
  import opened Growth
  import opened Space
  import opened Paths
  import opened NameTree
  import opened NameChanges
  import opened Searches
  import Lifecycle

  /** Every component fits the buffer the source copies it into. */
  predicate ShortNames(p: seq<byte>) {
    forall k | 0 <= k < |Components(p)| :: |Components(p)[k]| < ENTRYMAXLENGTH
  }

  /** The walk has reached `cur` with `p[i..]` still to resolve and ledger `l`. */
  ghost predicate Walking(s: State, now: State, l: Ledger, cur: nat, p: seq<byte>, i: nat) {
    && i <= |p| && NameSpace(now) && Kept(s, now, l) && IsRoot(now, cur)
    && Walk(s, cur, Components(p[i..])) == Resolve(s, p)
    && WalkRoom(s, l, cur, Components(p[i..])) == PathRoom(s, p)
  }

  lemma WalkStart(s: State, p: seq<byte>)
    requires NameSpace(s) && p != [] && p[0] == SLASH
    ensures Walking(s, s, Start(s), s.sb.root, p, 0)
  {
    assert p[0..] == p;
    StartKept(s);
  }

  lemma WalkEnd(s: State, now: State, l: Ledger, cur: nat, p: seq<byte>, i: nat)
    requires Walking(s, now, l, cur, p, i) && i == |p|
    ensures NameSpace(now) && Kept(s, now, l) && IsRoot(now, cur) && cur == Resolve(s, p) && PathRoom(s, p) == Some(l)
  {
    assert p[i..] == [];
  }

  lemma SlashStep(s: State, now: State, l: Ledger, cur: nat, p: seq<byte>, i: nat)
    requires Walking(s, now, l, cur, p, i) && i < |p| && p[i] == SLASH
    ensures Walking(s, now, l, cur, p, i + 1)
  {
    assert p[i..][1..] == p[i + 1..];
  }

  /** What is left to do after one name. */
  ghost predicate NameLeft(s: State, p: seq<byte>, l: Ledger, next: nat, i: nat)
    requires i <= |p|
  {
    if next == 0 then Resolve(s, p) == 0 && PathRoom(s, p) == Some(l)
    else
      && Walk(s, next, Components(p[i..])) == Resolve(s, p)
      && WalkRoom(s, l, next, Components(p[i..])) == PathRoom(s, p)
  }

  /** The first name of the rest of a path. */
  lemma NameFirst(p: seq<byte>, i: nat)
    requires i < |p| && p[i] != SLASH
    ensures var lg := NameLength(p[i..]);
            && 0 < lg && i + lg <= |p| && (i + lg < |p| ==> p[i + lg] == SLASH)
            && Components(p[i..]) == [p[i..i + lg]] + Components(p[i + lg..])
  {
    var rest := p[i..];
    var lg := NameLength(rest);
    assert rest[..lg] == p[i..i + lg] && rest[lg..] == p[i + lg..];
  }

  lemma NameStep(s: State, p: seq<byte>, i: nat, cur: nat, l: Ledger)
    requires i < |p| && p[i] != SLASH
    requires Walk(s, cur, Components(p[i..])) == Resolve(s, p)
    requires WalkRoom(s, l, cur, Components(p[i..])) == PathRoom(s, p)
    ensures var lg := NameLength(p[i..]);
            && 0 < lg && i + lg <= |p| && (i + lg < |p| ==> p[i + lg] == SLASH)
            && var l' := Look(s, l, cur, p[i..i + lg]);
               if l'.None? then PathRoom(s, p).None?
               else NameLeft(s, p, l'.value, Find(s, cur, p[i..i + lg]), i + lg)
  {
    hide Components, Look, Find, Resolve, PathRoom;
    NameFirst(p, i);
    var names := Components(p[i..]);
    assert names[1..] == Components(p[i + NameLength(p[i..])..]);
  }

  /** `inumber_of_path`. */
  method InumberOfPath(v: Volume, pathname: seq<byte>) returns (icurrent: nat, alive: bool)
    requires NameSpace(v.View()) && ShortNames(pathname)
    modifies v, v.blocks
    ensures v.Valid()
    ensures alive <==> PathRoom(old(v.View()), pathname).Some?
    ensures alive ==> NameSpace(v.View()) && Kept(old(v.View()), v.View(), PathRoom(old(v.View()), pathname).value)
    ensures SameFiles(old(v.View()), v.View())
    ensures alive ==> icurrent == Resolve(old(v.View()), pathname)
    ensures alive && icurrent != 0 ==> IsRoot(v.View(), icurrent)
  {
    hide NameSpace, Kept, PathRoom, Resolve;
    ghost var s := v.View();
    SpaceValid(v);
    if pathname == [] || pathname[0] != SLASH {
      RelativePath(s, pathname);
      KeptSame(s, s, Start(s));
      return 0, true;
    }
    icurrent := v.sb.root;
    var i := 0;
    WalkStart(s, pathname);
    ghost var l := Start(s);
    while i < |pathname|
      invariant Walking(s, v.View(), l, icurrent, pathname, i)
      decreases |pathname| - i
    {
      icurrent, i, alive, l := WalkTurn(v, s, l, icurrent, pathname, i);
      KeptSame(s, v.View(), l);
      if !alive || icurrent == 0 {
        return 0, alive;
      }
    }
    WalkEnd(s, v.View(), l, icurrent, pathname, i);
    KeptSame(s, v.View(), l);
    return icurrent, true;
  }

  lemma SpaceValid(v: Volume)
    requires NameSpace(v.View())
    ensures v.Valid()
  {
  }

  lemma KeptSame(s: State, now: State, l: Ledger)
    ensures Kept(s, now, l) ==> SameFiles(s, now)
  {
  }

  lemma RelativePath(s: State, p: seq<byte>)
    requires NameSpace(s) && (p == [] || p[0] != SLASH)
    ensures Resolve(s, p) == 0 && PathRoom(s, p) == Some(Start(s)) && Kept(s, s, Start(s))
    ensures ParentOf(s, p) == 0 && ParentRoom(s, p) == Some(Start(s))
  {
    StartKept(s);
  }

  /** One turn of the loop: a name if one starts here, then the slash behind it. */
  method WalkTurn(v: Volume, ghost s: State, ghost l: Ledger, icurrent: nat, p: seq<byte>, i: nat)
    returns (next: nat, i': nat, alive: bool, ghost l': Ledger)
    requires Walking(s, v.View(), l, icurrent, p, i) && i < |p|
    modifies v, v.blocks
    ensures v.Valid() && i < i' <= |p|
    ensures !alive ==> PathRoom(s, p).None? && SameFiles(s, v.View())
    ensures alive && next == 0 ==>
              NameSpace(v.View()) && Kept(s, v.View(), l') && Resolve(s, p) == 0 && PathRoom(s, p) == Some(l')
    ensures alive && next != 0 ==> Walking(s, v.View(), l', next, p, i')
  {
    hide NameSpace, Kept, PathRoom, Resolve, Walk, WalkRoom;
    SpaceValid(v);
    next, i', alive, l' := icurrent, i, true, l;
    if p[i] != SLASH {
      next, i', alive, l' := WalkName(v, s, l, icurrent, p, i);
      if !alive || next == 0 || i' == |p| {
        return;
      }
    }
    SlashStep(s, v.View(), l', next, p, i');
    i' := i' + 1;
  }

  /** One name of the path: its length, the copy, the lookup. */
  method WalkName(v: Volume, ghost s: State, ghost l: Ledger, icurrent: nat, p: seq<byte>, i: nat)
    returns (next: nat, i': nat, alive: bool, ghost l': Ledger)
    requires Walking(s, v.View(), l, icurrent, p, i) && i < |p| && p[i] != SLASH
    modifies v, v.blocks
    ensures v.Valid() && i < i' <= |p| && (i' < |p| ==> p[i'] == SLASH)
    ensures !alive ==> PathRoom(s, p).None? && SameFiles(s, v.View())
    ensures alive && next == 0 ==>
              NameSpace(v.View()) && Kept(s, v.View(), l') && Resolve(s, p) == 0 && PathRoom(s, p) == Some(l')
    ensures alive && next != 0 ==> Walking(s, v.View(), l', next, p, i')
  {
    hide NameSpace, Kept, PathRoom, Resolve, Walk, WalkRoom, Look, Find;
    NameStep(s, p, i, icurrent, l);
    var lg := NameLength(p[i..]);
    i' := i + lg;
    next, alive, l' := LookupStep(v, icurrent, p[i..i'], s, l);
  }

  /** One lookup on a volume that shows the same files as `s`. */
  method LookupStep(v: Volume, d: nat, name: seq<byte>, ghost s: State, ghost l: Ledger)
    returns (next: nat, alive: bool, ghost l': Ledger)
    requires NameSpace(v.View()) && Kept(s, v.View(), l) && IsRoot(v.View(), d)
    modifies v, v.blocks
    ensures v.Valid()
    ensures alive <==> Look(s, l, d, name).Some?
    ensures alive ==> l' == Look(s, l, d, name).value && NameSpace(v.View()) && Kept(s, v.View(), l')
    ensures alive ==> next == Find(s, d, name) && (next != 0 ==> IsRoot(v.View(), next))
    ensures SameFiles(s, v.View())
  {
    hide NameSpace, Costs, LookupNeeds, OnlyFile, Look, Find, Kept, LookupIn, FindFrom, FileBytes;
    ghost var s1 := v.View();
    SpaceValid(v);
    l' := l;
    next, alive := InumberOfBasename(v, d, name);
    ghost var s2 := v.View();
    if IsDirectory(s1, d) {
      LookupMeans(s, s1, l, s2, d, name, next, alive);
    } else {
      LookupNothing(s, s1, l, d, name);
    }
    if alive {
      l' := Look(s, l, d, name).value;
    }
  }

  lemma LookupNothing(s: State, s1: State, l: Ledger, d: nat, name: seq<byte>)
    requires NameSpace(s1) && Kept(s, s1, l) && !IsDirectory(s1, d)
    ensures Look(s, l, d, name) == Some(l) && Find(s, d, name) == 0 && SameFiles(s, s1)
  {
    SameFind(s, s1, d, name);
  }

  lemma LookupMeans(s: State, s1: State, l: Ledger, s2: State, d: nat, name: seq<byte>, next: nat, alive: bool)
    requires NameSpace(s1) && Kept(s, s1, l) && IsDirectory(s1, d) && Inv(s2) && OnlyFile(s1, s2, d)
    requires var a := FileBytes(s1, d);
             var size := Taille(s1, d);
             && Whole(size) <= MAX_ENTRIES
             && Costs(s1, d, LookupNeeds(FindFrom(a, 0, Whole(size), name), size), s2, alive)
             && (alive ==> next == LookupIn(a, Whole(size), name)) && FileBytes(s2, d) == a
    ensures SameFiles(s, s2)
    ensures alive <==> Look(s, l, d, name).Some?
    ensures alive ==> NameSpace(s2) && Kept(s, s2, Look(s, l, d, name).value) && next == Find(s, d, name)
    ensures alive && next != 0 ==> IsRoot(s2, next)
  {
    hide Costs, LookupNeeds, Look, LookupIn, FindFrom, OnlyFile, SearchGrows;
    SameFind(s, s1, d, name);
    OnlyFileSame(s1, s2, d);
    SameFilesTransitive(s, s1, s2);
    SearchAccounts(s, s1, l, d, name, s2, alive);
    if alive {
      StillSame(s, s1, l, s2, Look(s, l, d, name).value, d);
      LookupBound(FileBytes(s1, d), Whole(Taille(s1, d)), name);
      FindLeads(s1, d, name);
      SameFind(s1, s2, d, name);
    }
  }

  /** A search keeps the files, and the ledger keeps the accounts. */
  lemma StillSame(s: State, s1: State, l: Ledger, s2: State, l2: Ledger, d: nat)
    requires NameSpace(s1) && Kept(s, s1, l) && Inv(s2) && OnlyFile(s1, s2, d) && FileBytes(s2, d) == FileBytes(s1, d)
    requires IsDirectory(s1, d)
    requires Accounts(s, s2, l2) && AllCompact(s2)
    ensures NameSpace(s2) && Kept(s, s2, l2) && SameFiles(s1, s2)
  {
    OnlyFileSame(s1, s2, d);
    SameFilesTransitive(s, s1, s2);
    SameNameSpace(s1, s2);
  }

  lemma ShortDirName(p: seq<byte>)
    requires p != [] && p[0] == SLASH && ShortNames(p)
    ensures ShortNames(DirName(p)) && |BaseName(p)| < ENTRYMAXLENGTH
  {
    ComponentsOfBase(p);
    var xs := Components(DirName(p));
    forall k | 0 <= k < |xs| ensures |xs[k]| < ENTRYMAXLENGTH {
      assert Components(p)[k] == xs[k];
    }
    if BaseName(p) != [] {
      assert Components(p)[|xs|] == BaseName(p);
    }
  }

  /** `dinumber_of_path`. */
  method DinumberOfPath(v: Volume, pathname: seq<byte>) returns (idir: nat, basename: seq<byte>, alive: bool)
    requires NameSpace(v.View()) && ShortNames(pathname)
    modifies v, v.blocks
    ensures v.Valid()
    ensures alive <==> ParentRoom(old(v.View()), pathname).Some?
    ensures alive ==> NameSpace(v.View()) && Kept(old(v.View()), v.View(), ParentRoom(old(v.View()), pathname).value)
    ensures SameFiles(old(v.View()), v.View())
    ensures alive ==>
              idir == if pathname != [] && pathname[0] == SLASH
                         && IsDirectory(old(v.View()), Resolve(old(v.View()), DirName(pathname)))
                      then Resolve(old(v.View()), DirName(pathname)) else 0
    ensures alive && idir != 0 ==> IsDirectory(v.View(), idir) && pathname != [] && pathname[0] == SLASH
    ensures alive && idir != 0 ==> basename == BaseName(pathname) && |basename| < ENTRYMAXLENGTH
  {
    hide NameSpace, PathRoom, Resolve;
    SpaceValid(v);
    if pathname == [] || pathname[0] != SLASH {
      RelativePath(v.View(), pathname);
      return 0, [], true;
    }
    ghost var s := v.View();
    ShortDirName(pathname);
    var n := LastSlash(pathname);
    basename := pathname[n..];
    idir, alive := InumberOfPath(v, pathname[..n]);
    if !alive || idir == 0 {
      return 0, basename, alive;
    }
    var inode := v.ReadInode(idir);
    if inode.kind != Directory {
      idir := 0;
    }
  }

  // -------------------------------------------------------------- file operations

  lemma ZeroBytes(s: State, i: nat)
    requires forall g: nat :: Vbloc(s, i, g) == 0
    ensures forall p | 0 <= p < CAPACITY :: FileBytes(s, i)[p] == 0
  {
    forall p: nat | p < CAPACITY ensures FileBytes(s, i)[p] == 0 {
      FileBytesAt(s, i, p);
    }
  }

  /** A new inode changes no file. */
  lemma CreatedSame(s0: State, s: State, l: Ledger, kind: FileType, s1: State, i: nat)
    requires NameSpace(s) && Kept(s0, s, l) && Lifecycle.Created(s, kind, s1, i) && i != 0
    ensures l.free > 0 && Accounts(s0, s1, Ledger(l.free - 1, l.grown)) && AllCompact(s1)
    ensures forall j: nat | IsRoot(s, j) ::
              && IsRoot(s1, j) && FileBytes(s1, j) == FileBytes(s, j) && Taille(s1, j) == Taille(s, j)
              && s1.blocks[j][2] == s.blocks[j][2]
  {
    hide AllCompact;
    CompactCreated(s, kind, s1, i);
    forall j: nat | IsRoot(s, j)
      ensures IsRoot(s1, j) && FileBytes(s1, j) == FileBytes(s, j) && Taille(s1, j) == Taille(s, j)
      ensures s1.blocks[j][2] == s.blocks[j][2]
    {
      SameBlocksSameBytes(s, s1, j);
    }
  }

  /** From a new inode and a new entry to a new file. */
  lemma CreationMeans(s: State, kind: FileType, s1: State, i: nat, s2: State, d: nat, name: seq<byte>)
    requires NameSpace(s) && Lifecycle.Created(s, kind, s1, i) && i != 0
    requires forall j: nat | IsRoot(s, j) :: FileBytes(s1, j) == FileBytes(s, j) && Taille(s1, j) == Taille(s, j)
    requires IsDirectory(s, d) && CName(name) && Inv(s2) && AllCompact(s2) && OnlyFile(s1, s2, d)
    requires var n := Whole(Taille(s1, d));
             && 20 * n <= CAPACITY && FreeFrom(FileBytes(s1, d), 0, n) < Whole(Taille(s2, d)) <= MAX_ENTRIES
             && i < 65536 && FileBytes(s2, d) == Added(FileBytes(s1, d), n, i, name)
    ensures FileCreated(s, s2, d, name, kind, i, Whole(Taille(s, d))) && NameSpace(s2)
  {
    var n := Whole(Taille(s1, d));
    ZeroBytes(s1, i);
    CreatedNameSpace(s, s2, d, name, kind, i, n);
  }

  /** `create_file`. `inumber` and `searched` describe the new file. */
  method CreateFile(v: Volume, pathname: seq<byte>, kind: FileType)
    returns (status: int, alive: bool, ghost inumber: nat, ghost searched: nat)
    requires NameSpace(v.View()) && ShortNames(pathname) && CName(pathname)
    modifies v, v.blocks
    ensures v.Valid()
    ensures alive <==> CreateRoom(old(v.View()), pathname).Some?
    ensures alive ==> NameSpace(v.View())
    ensures alive ==> Accounts(old(v.View()), v.View(), CreateRoom(old(v.View()), pathname).value)
    ensures alive ==>
              (status == RETURN_FAILURE <==>
                 || pathname == [] || pathname[0] != SLASH
                 || !IsDirectory(old(v.View()), Resolve(old(v.View()), DirName(pathname)))
                 || ParentRoom(old(v.View()), pathname).value.free == 0)
    ensures alive && status == RETURN_FAILURE ==> SameFiles(old(v.View()), v.View())
    ensures !alive ==> Spared(old(v.View()), v.View())
    ensures alive && status != RETURN_FAILURE ==>
              && status == RETURN_SUCCESS && pathname != [] && pathname[0] == SLASH
              && FileCreated(old(v.View()), v.View(), Resolve(old(v.View()), DirName(pathname)), BaseName(pathname),
                             kind, inumber, searched)
  {
    hide NameSpace, FileCreated, ParentOf, ParentRoom, Enter, SameFiles, Resolve;
    ghost var s0 := v.View();
    ParentIs(s0, pathname);
    inumber, searched := 0, 0;
    var idir, basename;
    idir, basename, alive := DinumberOfPath(v, pathname);
    SameSpared(s0, v.View());
    if !alive || idir == 0 {
      return RETURN_FAILURE, alive, inumber, searched;
    }
    CNameSuffix(pathname, LastSlash(pathname));
    status, alive, inumber, searched := LinkNew(v, idir, basename, kind, s0, ParentRoom(s0, pathname).value);
  }

  lemma CNameSuffix(p: seq<byte>, n: nat)
    requires CName(p) && n <= |p|
    ensures CName(p[n..])
  {
  }

  /** The ledger after a new inode has been entered in directory `d`. */
  ghost function LinkRoom(s: State, l: Ledger, d: nat): Option<Ledger> {
    if l.free == 0 then Some(l) else Enter(s, Ledger(l.free - 1, l.grown), d)
  }

  /** A new inode, entered in directory `idir`. */
  method LinkNew(v: Volume, idir: nat, basename: seq<byte>, kind: FileType, ghost s0: State, ghost l: Ledger)
    returns (status: int, alive: bool, ghost inumber: nat, ghost searched: nat)
    requires NameSpace(v.View()) && Kept(s0, v.View(), l) && IsDirectory(v.View(), idir) && CName(basename)
    modifies v, v.blocks
    ensures v.Valid()
    ensures alive <==> LinkRoom(s0, l, idir).Some?
    ensures alive ==> NameSpace(v.View()) && Accounts(s0, v.View(), LinkRoom(s0, l, idir).value)
    ensures alive ==> (status == RETURN_FAILURE <==> l.free == 0)
    ensures alive && status == RETURN_FAILURE ==> SameFiles(s0, v.View())
    ensures !alive ==> Spared(s0, v.View())
    ensures alive && status != RETURN_FAILURE ==>
              status == RETURN_SUCCESS && FileCreated(s0, v.View(), idir, basename, kind, inumber, searched)
  {
    hide NameSpace, FileCreated, Enter, SameFiles, Accounts, Lifecycle.Created, FileBytes, AllCompact;
    ghost var s := v.View();
    inumber, searched := 0, 0;
    NewInode(s, kind);
    var i := v.CreateInode(kind);
    ghost var s1 := v.View();
    CreationFails(s0, s, l, kind, s1, i);
    if i == 0 {
      return RETURN_FAILURE, true, inumber, searched;
    }
    CreatedSame(s0, s, l, kind, s1, i);
    status, alive := EnterNew(v, idir, i, basename, kind, s0, s, Ledger(l.free - 1, l.grown));
    inumber, searched := i, Whole(Taille(s, idir));
  }

  lemma NewInode(s: State, kind: FileType)
    requires NameSpace(s)
    ensures Inv(s) && Inv(Lifecycle.Create(s, kind).0)
    ensures Lifecycle.Created(s, kind, Lifecycle.Create(s, kind).0, Lifecycle.Create(s, kind).1)
  {
    Lifecycle.CreateKeeps(s, kind);
    Lifecycle.CreateCorrect(s, kind);
  }

  lemma CreationFails(s0: State, s: State, l: Ledger, kind: FileType, s1: State, i: nat)
    requires NameSpace(s) && Kept(s0, s, l) && Lifecycle.Created(s, kind, s1, i)
    ensures i == 0 <==> l.free == 0
    ensures i == 0 ==> s1 == s && SameFiles(s0, s1) && Accounts(s0, s1, l)
    ensures i < 65536
  {
    FreeCount(s);
  }

  /** The entry for the new inode. */
  method EnterNew(v: Volume, idir: nat, i: nat, basename: seq<byte>, kind: FileType,
                  ghost s0: State, ghost s: State, ghost l: Ledger)
    returns (status: int, alive: bool)
    requires v.Valid() && NameSpace(s) && SameFiles(s0, s) && IsDirectory(s, idir) && CName(basename)
    requires Lifecycle.Created(s, kind, v.View(), i) && 0 < i < 65536
    requires Accounts(s0, v.View(), l) && AllCompact(v.View())
    requires forall j: nat | IsRoot(s, j) ::
               && IsRoot(v.View(), j) && FileBytes(v.View(), j) == FileBytes(s, j)
               && Taille(v.View(), j) == Taille(s, j)
               && v.View().blocks[j][2] == s.blocks[j][2]
    modifies v, v.blocks
    ensures v.Valid()
    ensures alive <==> Enter(s0, l, idir).Some?
    ensures alive ==> NameSpace(v.View()) && Accounts(s0, v.View(), Enter(s0, l, idir).value)
    ensures alive ==> status == RETURN_SUCCESS
    ensures !alive ==> Spared(s0, v.View())
    ensures alive ==> FileCreated(s0, v.View(), idir, basename, kind, i, Whole(Taille(s, idir)))
  {
    hide NameSpace, FileCreated, Enter, Accounts, Costs, AddNeeds, OnlyFile, Inv, AllCompact;
    hide FileBytes, FreeFrom, Added;
    ghost var s1 := v.View();
    SameDirectory(s0, s, idir);
    status, alive := AddEntry(v, idir, i, basename);
    EnterAccounts(s0, s1, l, idir, v.View(), alive);
    if !alive {
      StoppedEntering(s0, s, kind, s1, i, v.View(), idir);
    } else {
      CreationMeans(s, kind, s1, i, v.View(), idir, basename);
      CreatedFromSame(s0, s, v.View(), idir, basename, kind, i, Whole(Taille(s, idir)));
    }
  }

  /** When entering the new inode stops, all that is left of it is the inode. */
  lemma StoppedEntering(s0: State, s: State, kind: FileType, s1: State, i: nat, s2: State, d: nat)
    requires SameFiles(s0, s) && Lifecycle.Created(s, kind, s1, i) && 0 < i && IsDirectory(s, d) && AllCompact(s1)
    requires forall j: nat | IsRoot(s, j) ::
               && IsRoot(s1, j) && FileBytes(s1, j) == FileBytes(s, j) && s1.blocks[j][2] == s.blocks[j][2]
    requires var a, size := FileBytes(s1, d), Taille(s1, d);
             && 20 * Whole(size) <= CAPACITY
             && var k := FreeFrom(a, 0, Whole(size));
                && Costs(s1, d, AddNeeds(k, size), s2, false)
                && (size == 0 || !Room(s1, d, ScanNeeds(k, size)) ==> FileBytes(s2, d) == a)
    requires OnlyFile(s1, s2, d)
    ensures Spared(s0, s2)
  {
    hide FreeFrom, FileBytes, AddNeeds, ScanNeeds, Compact, Room, Taille, Vbloc, FBlock, Present;
    var size := Taille(s1, d);
    assert IsDirectory(s1, d);
    StopsInScan(s1, d, FreeFrom(FileBytes(s1, d), 0, Whole(size)));
    assert FileBytes(s2, d) == FileBytes(s1, d);
  }

  lemma SameDirectory(s0: State, s: State, d: nat)
    requires SameFiles(s0, s) && IsDirectory(s, d)
    ensures IsDirectory(s0, d) && FileBytes(s0, d) == FileBytes(s, d)
    ensures forall j: nat :: IsRoot(s0, j) <==> IsRoot(s, j)
  {
  }

  /** The searches before a creation change nothing it depends on. */
  lemma CreatedFromSame(s0: State, s: State, s': State, d: nat, name: seq<byte>, kind: FileType, i: nat, n: nat)
    requires SameFiles(s0, s) && FileCreated(s, s', d, name, kind, i, n)
    ensures FileCreated(s0, s', d, name, kind, i, n)
  {
    SameFind(s0, s, d, name);
  }

  lemma UnlinkMeans(s0: State, s: State, s': State, d: nat, name: seq<byte>)
    requires NameSpace(s) && SameFiles(s0, s) && IsDirectory(s, d) && Inv(s') && AllCompact(s') && OnlyFile(s, s', d)
    requires var n := Whole(Taille(s, d)); var a := FileBytes(s, d);
             && n <= MAX_ENTRIES && FindFrom(a, 0, n, name) < n
             && FileBytes(s', d) == Cleared(a, FindFrom(a, 0, n, name))
    ensures FileUnlinked(s0, s', d, name) && NameSpace(s') && Find(s0, d, name) != 0
  {
    var n, a := Whole(Taille(s, d)), FileBytes(s, d);
    LookupBound(a, n, name);
    FindIs(a, 0, MAX_ENTRIES, name, FindFrom(a, 0, n, name));
    UnlinkedNameSpace(s, s', d, name);
    SameFind(s0, s, d, name);
  }

  lemma NothingToUnlink(s0: State, s: State, s': State, d: nat, name: seq<byte>)
    requires NameSpace(s) && SameFiles(s0, s) && IsDirectory(s, d) && Inv(s') && AllCompact(s') && OnlyFile(s, s', d)
    requires var n := Whole(Taille(s, d)); var a := FileBytes(s, d);
             n <= MAX_ENTRIES && FindFrom(a, 0, n, name) == n && FileBytes(s', d) == a
    ensures Find(s0, d, name) == 0 && SameFiles(s0, s') && NameSpace(s')
  {
    LookupBound(FileBytes(s, d), Whole(Taille(s, d)), name);
    OnlyFileSame(s, s', d);
    SameFilesTransitive(s0, s, s');
    SameNameSpace(s, s');
    SameFind(s0, s, d, name);
  }

  lemma StoppedUnlinking(s0: State, s: State, s': State, d: nat, name: seq<byte>)
    requires NameSpace(s) && SameFiles(s0, s) && IsDirectory(s, d) && OnlyFile(s, s', d)
    requires var a, size := FileBytes(s, d), Taille(s, d);
             && Whole(size) <= MAX_ENTRIES
             && var k := FindFrom(a, 0, Whole(size), name);
                && Costs(s, d, DeleteNeeds(k, size), s', false)
                && (!Room(s, d, ScanNeeds(k, size)) ==> FileBytes(s', d) == a)
    ensures SameFiles(s0, s')
  {
    hide FindFrom, FileBytes, DeleteNeeds, ScanNeeds, Compact, Room, Taille;
    StopsInScan(s, d, FindFrom(FileBytes(s, d), 0, Whole(Taille(s, d)), name));
    OnlyFileSame(s, s', d);
    SameFilesTransitive(s0, s, s');
  }

  /** `delete_file`: unlinks; the inode stays. Success is the number of bytes written. */
  method DeleteFile(v: Volume, pathname: seq<byte>) returns (status: int, alive: bool)
    requires NameSpace(v.View()) && ShortNames(pathname)
    modifies v, v.blocks
    ensures v.Valid()
    ensures alive <==> UnlinkRoom(old(v.View()), pathname).Some?
    ensures alive ==> NameSpace(v.View())
    ensures alive ==> Accounts(old(v.View()), v.View(), UnlinkRoom(old(v.View()), pathname).value)
    ensures alive ==>
              (status == RETURN_FAILURE <==>
                 || pathname == [] || pathname[0] != SLASH
                 || !IsDirectory(old(v.View()), Resolve(old(v.View()), DirName(pathname)))
                 || Find(old(v.View()), Resolve(old(v.View()), DirName(pathname)), BaseName(pathname)) == 0)
    ensures !alive || status == RETURN_FAILURE ==> SameFiles(old(v.View()), v.View())
    ensures alive && status != RETURN_FAILURE ==>
              && status == ENTRY_SIZE && pathname != [] && pathname[0] == SLASH
              && FileUnlinked(old(v.View()), v.View(), Resolve(old(v.View()), DirName(pathname)), BaseName(pathname))
  {
    hide NameSpace, FileUnlinked, ParentOf, ParentRoom, Look, SameFiles, Find, Resolve;
    ghost var s0 := v.View();
    ParentIs(s0, pathname);
    var idir, basename;
    idir, basename, alive := DinumberOfPath(v, pathname);
    if !alive || idir == 0 {
      return RETURN_FAILURE, alive;
    }
    status, alive := Unlink(v, idir, basename, s0, ParentRoom(s0, pathname).value);
  }

  /** Clearing the entry for a name in directory `idir`. */
  method Unlink(v: Volume, idir: nat, basename: seq<byte>, ghost s0: State, ghost l: Ledger)
    returns (status: int, alive: bool)
    requires NameSpace(v.View()) && Kept(s0, v.View(), l) && IsDirectory(v.View(), idir)
    modifies v, v.blocks
    ensures v.Valid()
    ensures alive <==> Look(s0, l, idir, basename).Some?
    ensures alive ==> NameSpace(v.View()) && Accounts(s0, v.View(), Look(s0, l, idir, basename).value)
    ensures alive ==> (status == RETURN_FAILURE <==> Find(s0, idir, basename) == 0)
    ensures !alive || status == RETURN_FAILURE ==> SameFiles(s0, v.View())
    ensures alive && status != RETURN_FAILURE ==> status == ENTRY_SIZE && FileUnlinked(s0, v.View(), idir, basename)
  {
    hide NameSpace, FileUnlinked, Look, Find, SameFiles, Accounts, Costs, DeleteNeeds, OnlyFile, Inv;
    hide FileBytes, FindFrom, Cleared;
    ghost var s := v.View();
    SpaceValid(v);
    SameDirectory(s0, s, idir);
    status, alive := DelEntry(v, idir, basename);
    SearchAccounts(s0, s, l, idir, basename, v.View(), alive);
    if !alive {
      StoppedUnlinking(s0, s, v.View(), idir, basename);
    } else {
      if status == RETURN_FAILURE {
        NothingToUnlink(s0, s, v.View(), idir, basename);
      } else {
        UnlinkMeans(s0, s, v.View(), idir, basename);
      }
    }
  }

  /** `open_file`. */
  method OpenFile(v: Volume, pathname: seq<byte>) returns (fd: FileDesc?, status: int, alive: bool)
    requires NameSpace(v.View()) && ShortNames(pathname)
    modifies v, v.blocks
    ensures v.Valid()
    ensures alive <==> PathRoom(old(v.View()), pathname).Some?
    ensures alive ==> NameSpace(v.View()) && Kept(old(v.View()), v.View(), PathRoom(old(v.View()), pathname).value)
    ensures SameFiles(old(v.View()), v.View())
    ensures alive ==> (status == RETURN_FAILURE <==> Resolve(old(v.View()), pathname) == 0)
    ensures alive && status == RETURN_FAILURE ==> fd == null
    ensures alive && status != RETURN_FAILURE ==>
              && status == RETURN_SUCCESS && fd != null && fresh(fd) && fresh(fd.buffer) && fd.vol == v
              && fd.inoeud == Resolve(old(v.View()), pathname) && fd.Open() && !fd.closed && fd.cursor == 0
              && !fd.modified && fd.size == Taille(v.View(), fd.inoeud)
              && fd.Contents() == FileBytes(old(v.View()), fd.inoeud)
  {
    hide NameSpace, PathRoom, Resolve;
    var inumber;
    fd := null;
    inumber, alive := InumberOfPath(v, pathname);
    if !alive || inumber == 0 {
      return null, RETURN_FAILURE, alive;
    }
    fd := new FileDesc.OpenIfile(v, inumber);
    return fd, RETURN_SUCCESS, true;
  }

  // -------------------------------------------------------------- enough room

  /** In a directory at any depth a new name is taken whenever there is room for a search
      for each name of the path and one more. The path then leads to the new file, every
      other one where it led before. */
  method CreateWithRoom(v: Volume, pathname: seq<byte>, kind: FileType)
    returns (status: int, alive: bool, ghost inumber: nat)
    requires NameSpace(v.View()) && Tree(v.View()) && ShortNames(pathname) && CName(pathname)
    requires pathname != [] && pathname[0] == SLASH && BaseName(pathname) != []
    requires IsDirectory(v.View(), Resolve(v.View(), DirName(pathname))) && Resolve(v.View(), pathname) == 0
    requires 3 * |Components(pathname)| + 3 < v.View().sb.nbFree
    requires forall e: nat | IsDirectory(v.View(), e) :: Taille(v.View(), e) + |Components(pathname)| < MAX_FBLOC
    modifies v, v.blocks
    ensures alive && status == RETURN_SUCCESS
    ensures NameSpace(v.View()) && Tree(v.View()) && inumber != 0 && Resolve(v.View(), pathname) == inumber
    ensures IsRoot(v.View(), inumber) && v.View().blocks[inumber][2] == TypeCode(kind)
    ensures forall p | 0 <= p < CAPACITY :: FileBytes(v.View(), inumber)[p] == 0
    ensures forall q | Components(q) != Components(pathname) ::
              Resolve(v.View(), q) == Resolve(old(v.View()), q)
  {
    hide NameSpace, Tree, FileCreated, Components, FileBytes, Resolve, CreateRoom, ParentRoom, Accounts;
    ghost var s, n := v.View(), 0;
    CreateFits(s, pathname);
    status, alive, inumber, n := CreateFile(v, pathname, kind);
    NewThere(s, v.View(), pathname, kind, inumber, n);
  }

  lemma NewThere(s: State, s': State, p: seq<byte>, kind: FileType, i: nat, n: nat)
    requires NameSpace(s) && Tree(s) && ShortNames(p) && p != [] && p[0] == SLASH && BaseName(p) != []
    requires IsDirectory(s, Resolve(s, DirName(p))) && Resolve(s, p) == 0
    requires FileCreated(s, s', Resolve(s, DirName(p)), BaseName(p), kind, i, n)
    ensures Tree(s') && i != 0 && IsRoot(s', i) && s'.blocks[i][2] == TypeCode(kind) && Resolve(s', p) == i
    ensures forall b | 0 <= b < CAPACITY :: FileBytes(s', i)[b] == 0
    ensures forall q | Components(q) != Components(p) :: Resolve(s', q) == Resolve(s, q)
  {
    ShortDirName(p);
    ZeroIsNoInode(s);
    CreatedTree(s, s', Resolve(s, DirName(p)), BaseName(p), kind, i, n);
    CreateThenResolve(s, s', p, kind, i, n, p);
    hide NameSpace, Tree, Components, Resolve, FileBytes;
    forall q | Components(q) != Components(p) ensures Resolve(s', q) == Resolve(s, q) {
      CreateThenResolve(s, s', p, kind, i, n, q);
    }
  }

  /** With the same room a path that leads somewhere is unlinked, whatever its depth; where
      names are unique it leads nowhere then, and exactly the paths through it are gone. */
  method DeleteWithRoom(v: Volume, pathname: seq<byte>) returns (status: int, alive: bool)
    requires NameSpace(v.View()) && Tree(v.View()) && AllUnique(v.View()) && ShortNames(pathname)
    requires pathname != [] && pathname[0] == SLASH && BaseName(pathname) != [] && Resolve(v.View(), pathname) != 0
    requires 3 * |Components(pathname)| + 3 < v.View().sb.nbFree
    requires forall e: nat | IsDirectory(v.View(), e) :: Taille(v.View(), e) + |Components(pathname)| < MAX_FBLOC
    modifies v, v.blocks
    ensures alive && status == ENTRY_SIZE
    ensures NameSpace(v.View()) && Tree(v.View()) && AllUnique(v.View())
    ensures forall q :: Resolve(v.View(), q) == if q != [] && q[0] == SLASH && Components(pathname) <= Components(q)
                                                then 0 else Resolve(old(v.View()), q)
    ensures forall j: nat | IsRoot(old(v.View()), j) :: IsRoot(v.View(), j)
  {
    hide NameSpace, Tree, AllUnique, FileUnlinked, Components, Resolve, UnlinkRoom, Accounts, Find;
    ghost var s := v.View();
    UnlinkFits(s, pathname);
    FoundThere(s, pathname);
    status, alive := DeleteFile(v, pathname);
    OldGone(s, v.View(), pathname);
  }

  /** A path that leads somewhere names a record of the directory it goes through last. */
  lemma FoundThere(s: State, p: seq<byte>)
    requires NameSpace(s) && p != [] && p[0] == SLASH && BaseName(p) != [] && Resolve(s, p) != 0
    ensures IsDirectory(s, Resolve(s, DirName(p))) && Find(s, Resolve(s, DirName(p)), BaseName(p)) != 0
  {
    hide NameSpace;
    ZeroIsNoInode(s);
    ParentComponents(s, p);
    WalkSnoc(s, s.sb.root, Components(DirName(p)), BaseName(p));
  }

  lemma OldGone(s: State, s': State, p: seq<byte>)
    requires NameSpace(s) && Tree(s) && AllUnique(s) && p != [] && p[0] == SLASH && BaseName(p) != []
    requires FileUnlinked(s, s', Resolve(s, DirName(p)), BaseName(p))
    ensures Tree(s') && AllUnique(s')
    ensures forall q :: Resolve(s', q) == if q != [] && q[0] == SLASH && Components(p) <= Components(q)
                                          then 0 else Resolve(s, q)
    ensures forall j: nat | IsRoot(s, j) :: IsRoot(s', j)
  {
    hide NameSpace, Tree, Components, Resolve, FileBytes, Once, UniqueNames;
    var d := Resolve(s, DirName(p));
    UnlinkedTree(s, s', d, BaseName(p));
    UniqueOnce(FileBytes(s, d), BaseName(p));
    UnlinkThenResolve(s, s', p, p);
    hide AllUnique, FileUnlinked;
    forall q ensures Resolve(s', q) == if q != [] && q[0] == SLASH && Components(p) <= Components(q)
                                       then 0 else Resolve(s, q)
    {
      UnlinkThenResolve(s, s', p, q);
    }
  }

  // ----------------------------------------------------------------- a new volume

  /** `s'` is `s` with `root` recorded in the superblock. */
  ghost predicate Rooted(s: State, i: nat, s': State) {
    && 0 < |s.blocks| == |s.owner| && SuperValid(s.sb.(root := i))
    && s' == State(s.blocks[0 := EncodeSuper(s.sb.(root := i))], s.sb.(root := i), s.owner, s.runs)
  }

  lemma RootedFree(s: State, i: nat, s': State)
    requires FreeInv(s) && Rooted(s, i, s')
    ensures FreeInv(s')
  {
    forall b: nat | Has(s.runs, b) && b < |s.blocks| ensures s'.blocks[b] == s.blocks[b] {
      ChainHas(s.blocks, s.runs, b);
    }
    ChainFrame(s.blocks, s'.blocks, s.runs);
  }

  lemma RootedMap(s: State, i: nat, s': State, j: nat, g: nat)
    requires TreeInv(s) && Rooted(s, i, s') && s.owner[0].Superblock? && IsRoot(s, j)
    ensures Vbloc(s', j, g) == Vbloc(s, j, g) && Taille(s', j) == Taille(s, j)
  {
    Lifecycle.SameWalk(s, s', j, g);
  }

  lemma RootedInv(s: State, i: nat, s': State)
    requires Inv(s) && Rooted(s, i, s')
    ensures Inv(s')
  {
    RootedFree(s, i, s');
    SamePointers(s, s');
    forall j: nat, g: nat | IsRoot(s', j) && Vbloc(s', j, g) != 0 ensures g < Taille(s', j) {
      RootedMap(s, i, s', j, g);
    }
    forall j: nat | IsRoot(s', j) ensures Taille(s', j) <= MAX_FBLOC {
      assert IsRoot(s, j);
    }
  }

  lemma RootedCompact(s: State, i: nat, s': State)
    requires TreeInv(s) && TreeInv(s') && Rooted(s, i, s') && s.owner[0].Superblock? && IsRoot(s, i)
    requires Taille(s, i) == 0 && (forall p: Place :: !Present(s, i, p))
    ensures Compact(s', i) && Taille(s', i) == 0
  {
    forall p: Place ensures !Present(s', i, p) {
      Lifecycle.SamePresent(s, s', i, p);
    }
    RootedMap(s, i, s', i, 0);
    CompactEmpty(s', i);
  }

  lemma RootedEmpty(s: State, i: nat, s': State)
    requires TreeInv(s) && Rooted(s, i, s') && s.owner[0].Superblock? && IsRoot(s, i)
    requires forall g: nat :: Vbloc(s, i, g) == 0
    ensures Lookup(FileBytes(s', i), []) == 0 && UsedWithin(FileBytes(s', i), 0)
  {
    forall g: nat ensures Vbloc(s', i, g) == 0 {
      RootedMap(s, i, s', i, g);
    }
    ZeroBytes(s', i);
    EmptyLookup(FileBytes(s', i), []);
  }

  /** A volume whose only inode is an empty directory is a name space once that inode is
      the root. */
  lemma RootedNameSpace(s: State, i: nat, s': State)
    requires Inv(s) && IsRoot(s, i) && (forall j: nat :: IsRoot(s, j) ==> j == i)
    requires s.blocks[i][2] == TypeCode(Directory) && Taille(s, i) == 0
    requires (forall g: nat :: Vbloc(s, i, g) == 0) && (forall p: Place :: !Present(s, i, p))
    requires Rooted(s, i, s')
    ensures NameSpace(s') && Tree(s') && AllUnique(s') && Taille(s', i) == 0
  {
    RootedInv(s, i, s');
    RootedCompact(s, i, s');
    RootedEmpty(s, i, s');
    assert forall j: nat :: IsRoot(s', j) <==> IsRoot(s, j);
    OnlyDirectory(s', i);
  }

  /** A volume with one inode, an empty directory. */
  lemma OnlyDirectory(s: State, i: nat)
    requires Inv(s) && s.sb.root == i && IsDirectory(s, i) && (forall j: nat :: IsRoot(s, j) ==> j == i)
    requires Compact(s, i) && Taille(s, i) == 0 && UsedWithin(FileBytes(s, i), 0)
    ensures NameSpace(s) && Tree(s) && AllUnique(s)
  {
    hide Inv, Compact, FileBytes;
    assert forall k: nat | k < MAX_ENTRIES :: Inum(FileBytes(s, i), k) == 0;
    assert UsedWithin(FileBytes(s, i), Whole(0));
    assert forall d: nat, k: nat, j: nat :: !Links(s, d, k, j);
  }

  lemma FormatIs(blocks: seq<Block>, name: seq<byte>)
    requires 2 <= |blocks| <= 65535
    requires |name| < SUPER_SZ_NAME && forall k | 0 <= k < |name| :: name[k] != 0
    ensures var s := Lifecycle.Format(blocks, name);
            && Inv(s) && (forall j: nat :: !IsRoot(s, j)) && FreeSet(s.runs) != {}
            && s.sb.nbFree == |blocks| - 1 && |s.blocks| == |s.owner| == |blocks|
            && s.sb.name == name && s.sb.serial == 0x00112233
  {
    var s := Lifecycle.Format(blocks, name);
    Lifecycle.FormatCorrect(blocks, name);
    assert s.sb.nbFree == |blocks| - 1 && forall j: nat :: !IsRoot(s, j);
    hide TreeInv, TailleInv, Settled, Chain;
    FreeCount(s);
  }

  /** The first inode of a formatted volume. */
  lemma FirstInode(blocks: seq<Block>, name: seq<byte>, s: State, s1: State, i: nat)
    requires 2 <= |blocks| <= 65535
    requires |name| < SUPER_SZ_NAME && forall k | 0 <= k < |name| :: name[k] != 0
    requires s == Lifecycle.Format(blocks, name) && FreeInv(s) && (s1, i) == Lifecycle.Create(s, Directory)
    ensures Inv(s1) && IsRoot(s1, i) && i < 65536 && (forall j: nat :: IsRoot(s1, j) ==> j == i)
    ensures s1.blocks[i][2] == TypeCode(Directory) && Taille(s1, i) == 0 && s1.sb.nbFree == |blocks| - 2
    ensures 0 < |s1.blocks| == |s1.owner| && SuperValid(s1.sb.(root := i))
    ensures s1.sb.name == name && s1.sb.serial == 0x00112233
    ensures (forall g: nat :: Vbloc(s1, i, g) == 0) && (forall p: Place :: !Present(s1, i, p))
  {
    hide Vbloc, FBlock, Present, TreeInv, TailleInv, Settled, Chain, Lifecycle.Format, Lifecycle.Create;
    FormatIs(blocks, name);
    Lifecycle.CreateKeeps(s, Directory);
    Lifecycle.CreateCorrect(s, Directory);
    forall j: nat | IsRoot(s1, j) ensures j == i {
      assert !IsRoot(s, j);
    }
  }

  /** Formatting a volume and giving it a root directory (src/disque/mknfs.c:62-68). */
  method MakeFilesystem(disk: array<Block>, name: seq<byte>) returns (v: Volume)
    requires 2 <= disk.Length <= 65535
    requires |name| < SUPER_SZ_NAME && forall k | 0 <= k < |name| :: name[k] != 0
    modifies disk
    ensures v.blocks == disk && fresh(v)
    ensures NameSpace(v.View()) && Tree(v.View()) && AllUnique(v.View())
    ensures v.View().sb.name == name && v.View().sb.serial == 0x00112233
    ensures v.View().sb.nbFree == disk.Length - 2 && Taille(v.View(), v.View().sb.root) == 0
  {
    hide NameSpace, Tree, AllUnique, Lifecycle.Format, FreeInv, TreeInv, Settled, TailleInv, Taille;
    v := new Volume.InitSuper(disk, name);
    ghost var s := v.View();
    var i := v.CreateInode(Directory);
    ghost var s1 := v.View();
    FirstInode(old(disk[..]), name, s, s1, i);
    v.SetRoot(i);
    RootedNameSpace(s1, i, v.View());
  }

  /** A new volume of four blocks takes its first file. */
  method FirstFile(disk: array<Block>, volume: seq<byte>, pathname: seq<byte>, kind: FileType)
    returns (v: Volume, status: int, alive: bool, ghost inumber: nat)
    requires 4 <= disk.Length <= 65535
    requires |volume| < SUPER_SZ_NAME && forall k | 0 <= k < |volume| :: volume[k] != 0
    requires pathname != [] && pathname[0] == SLASH && BaseName(pathname) != [] && Components(DirName(pathname)) == []
    requires ShortNames(pathname) && CName(pathname)
    modifies disk
    ensures alive && status == RETURN_SUCCESS
    ensures NameSpace(v.View()) && inumber != 0 && Resolve(v.View(), pathname) == inumber
  {
    hide NameSpace, Tree, AllUnique, FileCreated;
    v := MakeFilesystem(disk, volume);
    ghost var s, n := v.View(), 0;
    FirstReady(s, pathname);
    status, alive, inumber, n := CreateFile(v, pathname, kind);
    FirstThere(s, v.View(), pathname, kind, inumber, n);
  }

  lemma FirstReady(s: State, p: seq<byte>)
    requires NameSpace(s) && s.sb.nbFree >= 2 && Taille(s, s.sb.root) == 0
    requires p != [] && p[0] == SLASH && BaseName(p) != [] && Components(DirName(p)) == []
    ensures ParentOf(s, p) != 0 && CreateRoom(s, p).Some? && ParentRoom(s, p).value.free > 0
  {
    ZeroIsNoInode(s);
    FirstFits(s, p);
  }

  lemma FirstThere(s: State, s': State, p: seq<byte>, kind: FileType, i: nat, n: nat)
    requires NameSpace(s) && Tree(s) && Taille(s, s.sb.root) == 0 && ShortNames(p)
    requires p != [] && p[0] == SLASH && BaseName(p) != [] && Components(DirName(p)) == []
    requires FileCreated(s, s', ParentOf(s, p), BaseName(p), kind, i, n)
    ensures i != 0 && Resolve(s', p) == i
  {
    ShortDirName(p);
    ZeroIsNoInode(s);
    var root := s.sb.root;
    assert UsedWithin(FileBytes(s, root), Whole(0));
    LookupBound(FileBytes(s, root), 0, BaseName(p));
    ParentThenLookup(s, p);
    CreateThenResolve(s, s', p, kind, i, n, p);
  }
}
