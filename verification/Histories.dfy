/** Whole runs of searches, creations, unlinkings and writing: what every path leads to and
    every file holds at the end (src/disque/file.c:19-80). */
module Histories {
  import opened Bytes
  import opened Codec
  import opened FreeList
  import opened BlockMap
  import opened Allocate
  import opened Filesystem
  import opened FileView
  import opened Ifile
  import opened Entries
  import opened Directory
  import opened Space
  import opened Paths
  import opened NameTree
  import opened NameChanges
  import opened Searches
  import opened Files

  datatype Change =
    | Search
    | Creation(path: seq<byte>, kind: FileType, i: nat, searched: nat)
    | Unlinking(path: seq<byte>)
    | Writing(i: nat)

  ghost predicate Step(s: State, c: Change, s': State) {
    && NameSpace(s')
    && match c
       case Search => SameFiles(s, s')
       case Creation(p, kind, i, n) =>
         && p != [] && p[0] == SLASH && |BaseName(p)| < ENTRYMAXLENGTH
         && FileCreated(s, s', Resolve(s, DirName(p)), BaseName(p), kind, i, n)
       case Unlinking(p) => p != [] && p[0] == SLASH && FileUnlinked(s, s', Resolve(s, DirName(p)), BaseName(p))
       case Writing(i) => OnlyFile(s, s', i) && IsRoot(s, i) && !IsDirectory(s, i)
  }

  /** The changes `cs` lead through the states `ss`. */
  ghost predicate Ran(ss: seq<State>, cs: seq<Change>) {
    |ss| == |cs| + 1 && forall k | 0 <= k < |cs| :: Step(ss[k], cs[k], ss[k + 1])
  }

  /** The list of names a change enters or clears. */
  function EntryPath(p: seq<byte>): seq<seq<byte>>
    requires p != [] && p[0] == SLASH
  {
    Components(DirName(p)) + [BaseName(p)]
  }

  /** The change is made to a name on the way along path `q`. */
  predicate Touches(c: Change, q: seq<byte>) {
    && (c.Creation? || c.Unlinking?) && c.path != [] && c.path[0] == SLASH
    && EntryPath(c.path) <= Components(q)
  }

  lemma ParentWalk(s: State, p: seq<byte>)
    requires p != [] && p[0] == SLASH
    ensures Walk(s, s.sb.root, Components(DirName(p))) == Resolve(s, DirName(p))
  {
  }

  /** One change keeps the name space and its tree, and every path it does not touch. */
  lemma StepResolves(s: State, c: Change, s': State, q: seq<byte>)
    requires NameSpace(s) && Tree(s) && Step(s, c, s')
    ensures NameSpace(s') && Tree(s')
    ensures !Touches(c, q) ==> Resolve(s', q) == Resolve(s, q)
  {
    hide NameSpace, Tree, SameFiles, OnlyFile, FileCreated, FileUnlinked, Components, FileBytes;
    ZeroIsNoInode(s);
    match c
    case Search =>
      SameTree(s, s');
      SameResolve(s, s', q);
    case Creation(p, kind, i, n) =>
      CreationResolves(s, s', p, kind, i, n, q);
    case Unlinking(p) =>
      UnlinkingResolves(s, s', p, q);
    case Writing(i) =>
      SpaceInv(s');
      WritingNames(s, s', i, q);
  }

  lemma SpaceInv(s: State)
    requires NameSpace(s)
    ensures Inv(s)
  {
  }

  lemma SameResolve(s: State, s': State, q: seq<byte>)
    requires SameFiles(s, s')
    ensures Resolve(s', q) == Resolve(s, q)
  {
    SameWalk(s, s', s.sb.root, Components(q));
  }

  lemma CreationResolves(s: State, s': State, p: seq<byte>, kind: FileType, i: nat, n: nat, q: seq<byte>)
    requires NameSpace(s) && Tree(s) && !IsRoot(s, 0) && Step(s, Creation(p, kind, i, n), s')
    ensures Tree(s')
    ensures !(EntryPath(p) <= Components(q)) ==> Resolve(s', q) == Resolve(s, q)
  {
    hide NameSpace, Tree, Components, FileBytes;
    var d, name := Resolve(s, DirName(p)), BaseName(p);
    ParentWalk(s, p);
    CreatedTree(s, s', d, name, kind, i, n);
    CreatedWalk(s, s', Components(DirName(p)), d, name, kind, i, n, Components(q));
  }

  lemma UnlinkingResolves(s: State, s': State, p: seq<byte>, q: seq<byte>)
    requires NameSpace(s) && Tree(s) && !IsRoot(s, 0) && Step(s, Unlinking(p), s')
    ensures Tree(s')
    ensures !(EntryPath(p) <= Components(q)) ==> Resolve(s', q) == Resolve(s, q)
  {
    hide NameSpace, Tree, Components, FileBytes;
    var d, name := Resolve(s, DirName(p)), BaseName(p);
    ParentWalk(s, p);
    UnlinkedTree(s, s', d, name);
    UnlinkedWalk(s, s', Components(DirName(p)), d, name, Components(q));
  }

  /** One change keeps the bytes of every file that is neither a directory nor written. */
  lemma StepBytes(s: State, c: Change, s': State, j: nat)
    requires Step(s, c, s') && IsRoot(s, j) && !IsDirectory(s, j) && c != Writing(j)
    ensures IsRoot(s', j) && !IsDirectory(s', j) && FileBytes(s', j) == FileBytes(s, j)
  {
    hide NameSpace, FileBytes, Resolve, BaseName;
  }

  /** Every run keeps the name space and its tree; every path whose names the run has not
      touched leads where it led at the start, and nowhere if it led nowhere. */
  lemma {:induction false} RunResolves(ss: seq<State>, cs: seq<Change>, q: seq<byte>)
    requires Ran(ss, cs) && NameSpace(ss[0]) && Tree(ss[0])
    ensures NameSpace(ss[|cs|]) && Tree(ss[|cs|])
    ensures (forall c | c in cs :: !Touches(c, q)) ==> Resolve(ss[|cs|], q) == Resolve(ss[0], q)
  {
    hide NameSpace, Tree, Step, Touches, Resolve;
    if cs == [] {
    } else {
      var n := |cs| - 1;
      RunResolves(ss[..|cs|], cs[..n], q);
      StepResolves(ss[n], cs[n], ss[n + 1], q);
      assert forall c | c in cs[..n] :: c in cs;
    }
  }

  /** Every run keeps every file that is no directory and that it has not written; none of
      them is taken for another. */
  lemma {:induction false} RunBytes(ss: seq<State>, cs: seq<Change>, j: nat)
    requires Ran(ss, cs) && IsRoot(ss[0], j) && !IsDirectory(ss[0], j) && Writing(j) !in cs
    ensures IsRoot(ss[|cs|], j) && !IsDirectory(ss[|cs|], j) && FileBytes(ss[|cs|], j) == FileBytes(ss[0], j)
  {
    hide Step, IsRoot, IsDirectory, FileBytes;
    if cs == [] {
    } else {
      var n := |cs| - 1;
      RunBytes(ss[..|cs|], cs[..n], j);
      StepBytes(ss[n], cs[n], ss[n + 1], j);
    }
  }

  /** A file stays what it was under its path until the path is touched or the file is
      written. */
  lemma FileSurvives(ss: seq<State>, cs: seq<Change>, q: seq<byte>)
    requires Ran(ss, cs) && NameSpace(ss[0]) && Tree(ss[0])
    requires Resolve(ss[0], q) != 0 && !IsDirectory(ss[0], Resolve(ss[0], q))
    requires (forall c | c in cs :: !Touches(c, q)) && Writing(Resolve(ss[0], q)) !in cs
    ensures Resolve(ss[|cs|], q) == Resolve(ss[0], q)
    ensures FileBytes(ss[|cs|], Resolve(ss[|cs|], q)) == FileBytes(ss[0], Resolve(ss[0], q))
  {
    RunResolves(ss, cs, q);
    WalkRoots(ss[0], ss[0].sb.root, Components(q));
    RunBytes(ss, cs, Resolve(ss[0], q));
  }

  /** Names stay unique as long as only paths that lead nowhere are created. */
  lemma {:induction false} RunUnique(ss: seq<State>, cs: seq<Change>)
    requires Ran(ss, cs) && NameSpace(ss[0]) && AllUnique(ss[0])
    requires forall k | 0 <= k < |cs| && cs[k].Creation? ::
               cs[k].path != [] && cs[k].path[0] == SLASH
               && Find(ss[k], Resolve(ss[k], DirName(cs[k].path)), BaseName(cs[k].path)) == 0
    ensures AllUnique(ss[|cs|])
  {
    hide NameSpace, AllUnique, Step, Find, Resolve;
    if cs == [] {
    } else {
      var n := |cs| - 1;
      RunUnique(ss[..|cs|], cs[..n]);
      StepUnique(ss[n], cs[n], ss[n + 1]);
    }
  }

  lemma StepUnique(s: State, c: Change, s': State)
    requires AllUnique(s) && Step(s, c, s')
    requires c.Creation? ==>
               c.path != [] && c.path[0] == SLASH && Find(s, Resolve(s, DirName(c.path)), BaseName(c.path)) == 0
    ensures AllUnique(s')
  {
    hide NameSpace, AllUnique, FileBytes, FileCreated, FileUnlinked, Find, Resolve;
    match c
    case Search => SameTree(s, s');
    case Creation(p, kind, i, n) => CreatedUnique(s, s', Resolve(s, DirName(p)), BaseName(p), kind, i, n);
    case Unlinking(p) => UnlinkedTree(s, s', Resolve(s, DirName(p)), BaseName(p));
    case Writing(i) => WritingUnique(s, s', i);
  }

  lemma WritingUnique(s: State, s': State, i: nat)
    requires AllUnique(s) && OnlyFile(s, s', i) && !IsDirectory(s, i)
    ensures AllUnique(s')
  {
    hide FileBytes, UniqueNames;
    SameDirectoriesTree(s, s');
  }

  // --------------------------------------------------------------- the operations

  /** What a program does with files: create one, remove a name, or open a file, work on it
      and leave it, unless it turns out to be a directory. */
  datatype Command =
    | CreateCmd(path: seq<byte>, kind: FileType)
    | DeleteCmd(path: seq<byte>)
    | UseCmd(path: seq<byte>, work: seq<Cmd>)

  predicate Proper(cmd: Command) {
    && ShortNames(cmd.path) && (cmd.CreateCmd? ==> CName(cmd.path))
    && (cmd.UseCmd? ==> forall k | 0 <= k < |cmd.work| && cmd.work[k].ReadCmd? :: cmd.work[k].n > 0)
  }

  lemma OneStep(s: State, c: Change, s': State)
    requires Step(s, c, s')
    ensures Ran([s, s'], [c])
  {
  }

  lemma RanJoin(ss: seq<State>, cs: seq<Change>, ss': seq<State>, cs': seq<Change>)
    requires Ran(ss, cs) && Ran(ss', cs') && ss[|cs|] == ss'[0]
    ensures Ran(ss + ss'[1..], cs + cs') && (ss + ss'[1..])[0] == ss[0] && (ss + ss'[1..])[|cs + cs'|] == ss'[|cs'|]
  {
    hide Step;
    var both, changes := ss + ss'[1..], cs + cs';
    forall k | 0 <= k < |changes| ensures Step(both[k], changes[k], both[k + 1]) {
      if k >= |cs| {
        assert both[k + 1] == ss'[k - |cs| + 1];
        assert both[k] == ss'[k - |cs|];
      }
    }
  }

  /** The file as a descriptor just opened shows it. */
  ghost function Opened(s: State, i: nat): FlatFile {
    FlatFile(FileBytes(s, i), 0, Taille(s, i), false, false)
  }

  /** The changes a command makes, from the first of the states `ss` on: a creation unless
      there is no directory for it or no block, an unlinking of a name that is there, work
      on a file that is there and no directory; otherwise it only searches. */
  ghost predicate Performed(cmd: Command, ss: seq<State>, cs: seq<Change>, answers: seq<seq<byte>>) {
    && Ran(ss, cs)
    && match cmd
       case CreateCmd(p, kind) =>
         && ParentRoom(ss[0], p).Some?
         && if ParentOf(ss[0], p) == 0 || ParentRoom(ss[0], p).value.free == 0 then cs == [Search]
            else |cs| == 1 && cs[0].Creation? && cs[0].path == p && cs[0].kind == kind
       case DeleteCmd(p) =>
         var d := ParentOf(ss[0], p);
         cs == [if d == 0 || Find(ss[0], d, BaseName(p)) == 0 then Search else Unlinking(p)]
       case UseCmd(p, work) =>
         var i := Resolve(ss[0], p);
         if i == 0 || IsDirectory(ss[0], i) then cs == [Search]
         else
           && cs == [Search, Writing(i)]
           && FileBytes(ss[2], i) == NextAll(Opened(ss[0], i), work + [CloseCmd]).bytes
           && answers == AnswerAll(Opened(ss[0], i), work + [CloseCmd])
  }

  /** The file blocks that working on file `i` and closing it needs. */
  ghost function WorkNeeds(s: State, i: nat, work: seq<Cmd>): set<nat> {
    NeedsAll(Opened(s, i), work + [CloseCmd])
  }

  /** They can be had when `free` blocks are left. */
  ghost predicate WorkFits(s: State, free: nat, i: nat, work: seq<Cmd>) {
    && (forall f | f in WorkNeeds(s, i, work) :: f < MAX_FBLOC)
    && |Absent(s, i, WorkNeeds(s, i, work))| <= free
  }

  /** A command can be finished: there is room for its searches and then for what it
      enters, or for the work it does. */
  ghost predicate Finishes(cmd: Command, s: State) {
    match cmd
    case CreateCmd(p, kind) => CreateRoom(s, p).Some?
    case DeleteCmd(p) => UnlinkRoom(s, p).Some?
    case UseCmd(p, work) =>
      && PathRoom(s, p).Some?
      && var i := Resolve(s, p);
         i == 0 || IsDirectory(s, i) || WorkFits(s, PathRoom(s, p).value.free, i, work)
  }

  /** What a command that cannot be finished may leave: a creation at most one inode more,
      an unlinking everything as it was, work on a file everything but that file. */
  ghost predicate Stopped(cmd: Command, s: State, s': State) {
    match cmd
    case CreateCmd(p, kind) => Spared(s, s')
    case DeleteCmd(p) => SameFiles(s, s')
    case UseCmd(p, work) =>
      if PathRoom(s, p).None? then SameFiles(s, s')
      else Resolve(s, p) != 0 && !IsDirectory(s, Resolve(s, p)) && AllBut(s, s', Resolve(s, p))
  }

  /** A creation that can be finished in a directory that is there, with a block for the
      inode, makes a path that led nowhere lead to the new file. */
  lemma CreationFound(s: State, p: seq<byte>, kind: FileType, ss: seq<State>, cs: seq<Change>, answers: seq<seq<byte>>)
    requires NameSpace(s) && Tree(s) && Performed(CreateCmd(p, kind), ss, cs, answers) && ss[0] == s
    requires ShortNames(p) && p != [] && p[0] == SLASH && BaseName(p) != []
    requires IsDirectory(s, Resolve(s, DirName(p))) && Resolve(s, p) == 0
    requires 3 * |Components(p)| < s.sb.nbFree
    requires forall e: nat | IsDirectory(s, e) :: Taille(s, e) + |Components(p)| <= MAX_FBLOC
    ensures |ss| == 2 && Resolve(ss[1], p) != 0 && IsRoot(ss[1], Resolve(ss[1], p))
    ensures ss[1].blocks[Resolve(ss[1], p)][2] == TypeCode(kind)
  {
    hide NameSpace, Tree, Components, FileCreated, Resolve, ParentRoom, ParentOf, Taille;
    ParentIs(s, p);
    ParentFits(s, p);
    assert Step(ss[0], cs[0], ss[1]);
    NewThere(s, ss[1], p, kind, cs[0].i, cs[0].searched);
  }

  /** An unlinking makes a path that led somewhere lead nowhere, where names are unique. */
  lemma UnlinkingGone(s: State, p: seq<byte>, ss: seq<State>, cs: seq<Change>, answers: seq<seq<byte>>)
    requires NameSpace(s) && Tree(s) && AllUnique(s) && Performed(DeleteCmd(p), ss, cs, answers) && ss[0] == s
    requires p != [] && p[0] == SLASH && BaseName(p) != [] && Resolve(s, p) != 0
    ensures |ss| == 2 && Resolve(ss[1], p) == 0
  {
    hide NameSpace, Tree, AllUnique, FileUnlinked, Resolve, ParentOf, Components, Find;
    ParentIs(s, p);
    FoundThere(s, p);
    assert Step(ss[0], cs[0], ss[1]);
    OldGone(s, ss[1], p);
  }

  /** Bytes written at any place of a file, by a command that opens it for that, are in it
      afterwards, and the rest is as it was. */
  lemma WritingDone(s: State, p: seq<byte>, c: nat, bytes: seq<byte>, ss: seq<State>, cs: seq<Change>,
                    answers: seq<seq<byte>>)
    requires Performed(UseCmd(p, [SeekCmd(c), WriteCmd(bytes)]), ss, cs, answers) && ss[0] == s
    requires Resolve(s, p) != 0 && !IsDirectory(s, Resolve(s, p)) && c + |bytes| <= CAPACITY
    ensures |ss| == 3
    ensures FileBytes(ss[2], Resolve(s, p)) == Splice(FileBytes(s, Resolve(s, p)), c, bytes)
  {
    hide Resolve, FileBytes, Step;
    var f := Opened(s, Resolve(s, p));
    var work := [SeekCmd(c), WriteCmd(bytes)];
    AllTwo(f, SeekCmd(c), WriteCmd(bytes));
    assert (work + [CloseCmd])[..2] == work;
  }

  /** A command that reads answers what the file holds at that place. */
  lemma ReadingDone(s: State, p: seq<byte>, c: nat, n: nat, ss: seq<State>, cs: seq<Change>, answers: seq<seq<byte>>)
    requires Performed(UseCmd(p, [SeekCmd(c), ReadCmd(n)]), ss, cs, answers) && ss[0] == s
    requires Resolve(s, p) != 0 && !IsDirectory(s, Resolve(s, p))
    requires c + n <= 512 * Taille(s, Resolve(s, p)) && c + n <= CAPACITY
    ensures |answers| == 3 && answers[1] == FileBytes(s, Resolve(s, p))[c..c + n]
    ensures FileBytes(ss[2], Resolve(s, p)) == FileBytes(s, Resolve(s, p))
  {
    hide Resolve, FileBytes, Step, Taille;
    var f := Opened(s, Resolve(s, p));
    var work := [SeekCmd(c), ReadCmd(n)];
    AllTwo(f, SeekCmd(c), ReadCmd(n));
    assert (work + [CloseCmd])[..2] == work;
    assert Readable(c, n, f.size) == n;
  }

  /** Commands that can certainly be finished: with room for a search for each name of the
      path and one more, and for the work its blocks and twelve tables. */
  lemma RoomFinishes(cmd: Command, s: State)
    requires forall e: nat | IsDirectory(s, e) :: Taille(s, e) + |Components(cmd.path)| < MAX_FBLOC
    requires 3 * |Components(cmd.path)| + 3 < s.sb.nbFree
    requires cmd.UseCmd? ==>
               var fs := WorkNeeds(s, Resolve(s, cmd.path), cmd.work);
               && (forall f | f in fs :: f < MAX_FBLOC)
               && 3 * |Components(cmd.path)| + |fs| + 12 <= s.sb.nbFree
    ensures Finishes(cmd, s)
  {
    hide Taille, WorkNeeds, CreateRoom, UnlinkRoom, Absent;
    match cmd
    case CreateCmd(p, kind) => CreateFits(s, p);
    case DeleteCmd(p) => UnlinkFits(s, p);
    case UseCmd(p, work) =>
      ResolveFits(s, p);
      AbsentBound(s, Resolve(s, p), WorkNeeds(s, Resolve(s, p), work));
  }

  /** One command makes the changes it should, exactly when it can be finished. */
  method Do(v: Volume, cmd: Command)
    returns (alive: bool, answers: seq<seq<byte>>, ghost ss: seq<State>, ghost cs: seq<Change>)
    requires NameSpace(v.View()) && Proper(cmd)
    modifies v, v.blocks
    ensures v.Valid()
    ensures alive ==> NameSpace(v.View()) && Ran(ss, cs) && ss[0] == old(v.View()) && ss[|cs|] == v.View()
    ensures alive <==> Finishes(cmd, old(v.View()))
    ensures alive ==> Performed(cmd, ss, cs, answers)
    ensures !alive ==> Stopped(cmd, old(v.View()), v.View())
  {
    hide NameSpace, FileCreated, FileUnlinked, SameFiles, ParentOf, ParentRoom, CreateRoom, UnlinkRoom, Accounts, Find;
    hide Spared, AllBut, WorkFits, Resolve, PathRoom;
    ghost var s := v.View();
    ghost var c := Search;
    answers := [];
    ParentIs(s, cmd.path);
    match cmd
    case CreateCmd(p, kind) =>
      var status;
      ghost var i, n;
      status, alive, i, n := CreateFile(v, p, kind);
      if status == RETURN_SUCCESS {
        c := Creation(p, kind, i, n);
        ShortBase(p);
      }
      ss, cs := [s, v.View()], [c];
      RoomBefore(s, p);
      if alive {
        OneStep(s, c, v.View());
      }
    case DeleteCmd(p) =>
      var status;
      status, alive := DeleteFile(v, p);
      if status != RETURN_FAILURE {
        c := Unlinking(p);
      }
      ss, cs := [s, v.View()], [c];
      if alive {
        OneStep(s, c, v.View());
      }
    case UseCmd(p, work) =>
      alive, answers, ss, cs := Use(v, p, work);
  }

  lemma RoomBefore(s: State, p: seq<byte>)
    ensures CreateRoom(s, p).Some? ==> ParentRoom(s, p).Some?
  {
  }

  lemma ShortBase(p: seq<byte>)
    ensures ShortNames(p) && p != [] && p[0] == SLASH ==> |BaseName(p)| < ENTRYMAXLENGTH
  {
    if ShortNames(p) && p != [] && p[0] == SLASH {
      ShortDirName(p);
    }
  }

  /** Open a file, work on it and leave it: the process stops exactly when there is no room
      for the searches or for the blocks the work needs. */
  method Use(v: Volume, p: seq<byte>, work: seq<Cmd>)
    returns (alive: bool, answers: seq<seq<byte>>, ghost ss: seq<State>, ghost cs: seq<Change>)
    requires NameSpace(v.View()) && Proper(UseCmd(p, work))
    modifies v, v.blocks
    ensures v.Valid()
    ensures alive ==> NameSpace(v.View()) && Ran(ss, cs) && ss[0] == old(v.View()) && ss[|cs|] == v.View()
    ensures alive <==> Finishes(UseCmd(p, work), old(v.View()))
    ensures alive ==> Performed(UseCmd(p, work), ss, cs, answers)
    ensures !alive ==> Stopped(UseCmd(p, work), old(v.View()), v.View())
  {
    hide NameSpace, SameFiles, PathRoom, Resolve, Accounts, Inv, WorkFits, AllBut, Opened, Costs, OnlyFile;
    ghost var s := v.View();
    answers := [];
    var fd, status;
    fd, status, alive := OpenFile(v, p);
    ghost var s1 := v.View();
    ss, cs := [s, s1], [Search];
    if !alive {
      return;
    }
    OneStep(s, Search, s1);
    if fd == null {
      return;
    }
    SameKind(s, s1, fd.inoeud);
    var kind := KindOf(v, fd.inoeud);
    if kind == Directory {
      return;
    }
    alive, answers := Work(fd, work);
    WorkRoom(s, s1, PathRoom(s, p).value, fd.inoeud, work, v.View(), alive);
    if alive {
      Worked(s1, v.View(), fd.inoeud);
      OneStep(s1, Writing(fd.inoeud), v.View());
      RanJoin(ss, cs, [s1, v.View()], [Writing(fd.inoeud)]);
      ss, cs := ss + [s1, v.View()][1..], cs + [Writing(fd.inoeud)];
    }
  }

  /** A search leaves a file that is no directory as it was, and what is left of the free
      blocks is in the ledger. */
  lemma WorkRoom(s: State, s1: State, l: Ledger, i: nat, work: seq<Cmd>, s2: State, ok: bool)
    requires Kept(s, s1, l) && IsRoot(s, i) && !IsDirectory(s, i) && OnlyFile(s1, s2, i)
    requires Costs(s1, i, WorkNeeds(s1, i, work), s2, ok)
    ensures Opened(s1, i) == Opened(s, i)
    ensures ok <==> WorkFits(s, l.free, i, work)
    ensures AllBut(s, s2, i)
  {
    hide FileBytes, NeedsAll, Taille, Present;
    SameAllBut(s, s1, s2, i);
    var fs := WorkNeeds(s, i, work);
    assert Absent(s1, i, fs) == Absent(s, i, fs);
  }

  lemma SameKind(s: State, s1: State, i: nat)
    requires SameFiles(s, s1)
    ensures IsDirectory(s1, i) <==> IsDirectory(s, i)
    ensures IsRoot(s, i) ==> FileBytes(s1, i) == FileBytes(s, i)
    ensures IsRoot(s1, i) <==> IsRoot(s, i)
  {
  }

  /** Work on an open file and close it. */
  method Work(fd: FileDesc, work: seq<Cmd>) returns (alive: bool, answers: seq<seq<byte>>)
    requires fd.Open() && !fd.closed && !fd.modified && fd.cursor == 0 && fd.size == Taille(fd.vol.View(), fd.inoeud)
    requires fd.Contents() == FileBytes(fd.vol.View(), fd.inoeud)
    requires forall k | 0 <= k < |work| && work[k].ReadCmd? :: work[k].n > 0
    modifies fd`cursor, fd`modified, fd`closed, fd.buffer, fd.vol, fd.vol.blocks
    ensures fd.vol.Valid() && OnlyFile(old(fd.vol.View()), fd.vol.View(), fd.inoeud)
    ensures Costs(old(fd.vol.View()), fd.inoeud, WorkNeeds(old(fd.vol.View()), fd.inoeud, work), fd.vol.View(), alive)
    ensures alive ==>
              var f := Opened(old(fd.vol.View()), fd.inoeud);
              && FileBytes(fd.vol.View(), fd.inoeud) == NextAll(f, work + [CloseCmd]).bytes
              && answers == AnswerAll(f, work + [CloseCmd])
  {
    hide Inv, Costs, NeedsAll, AnswerAll, OnlyFile, FileBytes, Overlaid;
    ghost var f := Opened(fd.vol.View(), fd.inoeud);
    var cmds := work + [CloseCmd];
    answers, alive := PerformAll(fd, cmds);
    assert cmds[..|cmds| - 1] == work;
    assert NextAll(f, cmds) == Next(NextAll(f, work), CloseCmd);
  }

  lemma Worked(s: State, s': State, i: nat)
    requires NameSpace(s) && Inv(s') && OnlyFile(s, s', i) && IsRoot(s, i) && !IsDirectory(s, i)
    ensures NameSpace(s') && Step(s, Writing(i), s')
  {
    WritingNames(s, s', i, []);
  }

  datatype Trace = Trace(ss: seq<State>, cs: seq<Change>)

  /** One after the other the commands lead from `s` to `s'`, each by the changes it should
      make. */
  ghost predicate Chained(s: State, cmds: seq<Command>, traces: seq<Trace>, answers: seq<seq<seq<byte>>>, s': State)
    decreases |cmds|
  {
    && |traces| == |answers| == |cmds|
    && if cmds == [] then s' == s
       else
         var n := |cmds| - 1;
         var t := traces[n];
         && Performed(cmds[n], t.ss, t.cs, answers[n]) && t.ss[|t.cs|] == s'
         && Chained(s, cmds[..n], traces[..n], answers[..n], t.ss[0])
  }

  /** The traces of several commands as one. */
  function Joined(s: State, traces: seq<Trace>): Trace
    decreases |traces|
  {
    if traces == [] || traces[|traces| - 1].ss == [] then Trace([s], [])
    else
      var n := |traces| - 1;
      var before := Joined(s, traces[..n]);
      Trace(before.ss + traces[n].ss[1..], before.cs + traces[n].cs)
  }

  /** A session is a run, so the theorems on runs hold of it. */
  lemma {:induction false} SessionRan(s: State, cmds: seq<Command>, traces: seq<Trace>, answers: seq<seq<seq<byte>>>,
                                      s': State)
    requires Chained(s, cmds, traces, answers, s')
    ensures var t := Joined(s, traces); Ran(t.ss, t.cs) && t.ss[0] == s && t.ss[|t.cs|] == s'
    decreases |cmds|
  {
    hide Step;
    if cmds == [] {
    } else {
      var n := |cmds| - 1;
      SessionRan(s, cmds[..n], traces[..n], answers[..n], traces[n].ss[0]);
      var before := Joined(s, traces[..n]);
      RanJoin(before.ss, before.cs, traces[n].ss, traces[n].cs);
    }
  }

  lemma ChainedNext(s: State, cmds: seq<Command>, traces: seq<Trace>, answers: seq<seq<seq<byte>>>, s1: State,
                    cmd: Command, t: Trace, more: seq<seq<byte>>, s': State)
    requires Chained(s, cmds, traces, answers, s1)
    requires Performed(cmd, t.ss, t.cs, more) && t.ss[0] == s1 && t.ss[|t.cs|] == s'
    ensures Chained(s, cmds + [cmd], traces + [t], answers + [more], s')
  {
    hide Step;
    assert (cmds + [cmd])[..|cmds|] == cmds && (traces + [t])[..|cmds|] == traces;
    assert (answers + [more])[..|cmds|] == answers;
  }

  /** A whole session does what its commands should. It stops exactly at a command that
      cannot be finished, in the state `before` that the commands in front of it have led
      to, and then leaves what that command may leave. */
  method Session(v: Volume, cmds: seq<Command>)
    returns (alive: bool, answers: seq<seq<seq<byte>>>, ghost traces: seq<Trace>, ghost before: State)
    requires NameSpace(v.View()) && Tree(v.View()) && forall k | 0 <= k < |cmds| :: Proper(cmds[k])
    modifies v, v.blocks
    ensures v.Valid()
    ensures NameSpace(before) && Tree(before)
    ensures |traces| <= |cmds| && Chained(old(v.View()), cmds[..|traces|], traces, answers, before)
    ensures alive ==> |traces| == |cmds| && before == v.View()
    ensures !alive ==>
              && |traces| < |cmds| && !Finishes(cmds[|traces|], before)
              && Stopped(cmds[|traces|], before, v.View())
  {
    hide NameSpace, Tree, Step, Proper, Touches, Resolve, Performed, Finishes, Stopped;
    SpaceValid(v);
    ghost var s := v.View();
    answers, traces, before := [], [], s;
    var k := 0;
    while k < |cmds|
      invariant 0 <= k <= |cmds| && NameSpace(before) && Tree(before) && v.Valid()
      invariant before == v.View() && Chained(s, cmds[..k], traces, answers, before)
    {
      var more;
      ghost var ss, cs;
      alive, more, ss, cs := Do(v, cmds[k]);
      if !alive {
        return;
      }
      ChainedNext(s, cmds[..k], traces, answers, before, cmds[k], Trace(ss, cs), more, v.View());
      assert cmds[..k + 1] == cmds[..k] + [cmds[k]];
      answers, traces, before := answers + [more], traces + [Trace(ss, cs)], v.View();
      RunResolves(ss, cs, []);
      k := k + 1;
    }
    alive := true;
  }
}
