/** Directories (src/disque/dir.c:26-193): the scans, and adding, deleting and looking up
    an entry, on top of file descriptors. `alive` false means the process stopped because
    the volume or the directory was full. */
module Directory {
  import opened Bytes
  import opened Codec
  import opened FreeList
  import opened BlockMap
  import opened Allocate
  import opened Filesystem
  import opened FileView
  import opened Ifile
  import opened Entries
  import opened Space

  const RETURN_FAILURE: int := -1
  const RETURN_SUCCESS: int := 0

  predicate IsDirectory(s: State, d: nat) {
    IsRoot(s, d) && d < |s.blocks| && s.blocks[d][2] == TypeCode(Directory)
  }

  /** The records in use lie within the recorded size. */
  ghost predicate Tidy(s: State, d: nat) {
    Taille(s, d) <= MAX_FBLOC && UsedWithin(FileBytes(s, d), Whole(Taille(s, d)))
  }

  // ---------------------------------------------------------------- what it takes

  /** How far a scan of a directory of `size` blocks has read when it stops at record `k`,
      or at the end. */
  function ScanEnd(k: nat, size: nat): nat {
    if k < Whole(size) then 20 * k + 20 else size * 512
  }

  /** The file blocks a scan needs: those entered behind the first. */
  ghost function ScanNeeds(k: nat, size: nat): set<nat> {
    Crossed(0, ScanEnd(k, size), false)
  }

  /** Seeking from `c` to record `k`, writing it and closing. */
  ghost function WriteNeeds(c: nat, k: nat): set<nat> {
    Entered(c, 20 * k, false) + Crossed(20 * k, 20, true) + Held(20 * k + 20, true)
  }

  /** Seeking from `c` to record `k` and reading it. */
  ghost function ReadNeeds(c: nat, k: nat): set<nat> {
    Entered(c, 20 * k, false) + Crossed(20 * k, 20, false)
  }

  ghost function AddNeeds(k: nat, size: nat): set<nat> {
    ScanNeeds(k, size) + WriteNeeds(ScanEnd(k, size), k)
  }

  ghost function DeleteNeeds(k: nat, size: nat): set<nat> {
    ScanNeeds(k, size) + if k == Whole(size) then {} else WriteNeeds(ScanEnd(k, size), k)
  }

  ghost function LookupNeeds(k: nat, size: nat): set<nat> {
    ScanNeeds(k, size) + if k == Whole(size) then {} else ReadNeeds(ScanEnd(k, size), k)
  }

  // ------------------------------------------------------------------------ scans

  /** The descriptor has read `k` records of `a0` since it was put at the start. */
  ghost predicate Scanned(fd: FileDesc, s0: State, a0: seq<byte>, k: nat)
    reads fd, fd.buffer, fd.vol, fd.vol.blocks
  {
    && fd.Open() && !fd.closed && !fd.modified && fd.cursor == 20 * k && k <= Whole(fd.size)
    && fd.Contents() == a0
    && OnlyFile(s0, fd.vol.View(), fd.inoeud)
    && Costs(s0, fd.inoeud, Crossed(0, 20 * k, false), fd.vol.View(), true)
  }

  lemma RecordOrRest(k: nat, size: nat)
    requires k <= Whole(size)
    ensures 20 * k + Readable(20 * k, 20, size) == ScanEnd(k, size)
  {
  }

  lemma NextNeeds(s0: State, i: nat, k: nat, size: nat, s1: State, s2: State, ok: bool)
    requires k <= Whole(size)
    ensures 20 * k + Readable(20 * k, 20, size) == ScanEnd(k, size)
    ensures Costs(s0, i, Crossed(0, 20 * k, false), s1, true)
            && Costs(s1, i, Crossed(20 * k, Readable(20 * k, 20, size), false), s2, ok) ==>
              Costs(s0, i, ScanNeeds(k, size), s2, ok)
  {
    hide Costs, Crossed;
    RecordOrRest(k, size);
    var r := Readable(20 * k, 20, size);
    InTwo(s0, i, Crossed(0, 20 * k, false), s1, true, Crossed(20 * k, r, false), s2, ok);
    CrossedSplit(0, 20 * k, r, false);
  }

  /** A scan that cannot get past record `k` cannot get past a later one. */
  lemma ScanStopped(s0: State, i: nat, k: nat, last: nat, size: nat, s': State)
    requires k <= last <= Whole(size)
    ensures Costs(s0, i, ScanNeeds(k, size), s', false) ==> Costs(s0, i, ScanNeeds(last, size), s', false)
  {
    CrossedMonotone(0, ScanEnd(k, size), ScanEnd(last, size), false);
    if Room(s0, i, ScanNeeds(last, size)) {
      RoomLess(s0, i, ScanNeeds(k, size), ScanNeeds(last, size));
    }
  }

  /** One turn of a scanning loop: the next record, or the end. */
  method NextRecord(fd: FileDesc, ghost s0: State, ghost a0: seq<byte>, k: nat)
    returns (more: bool, number: nat, name: seq<byte>, alive: bool)
    requires |a0| == CAPACITY && Scanned(fd, s0, a0, k)
    modifies fd`cursor, fd.buffer, fd.vol, fd.vol.blocks
    ensures Costs(s0, fd.inoeud, ScanNeeds(k, fd.size), fd.vol.View(), alive)
    ensures alive ==> more == (k < Whole(fd.size))
    ensures alive && more ==> Scanned(fd, s0, a0, k + 1) && number == Inum(a0, k) && name == EntName(a0, k)
    ensures alive ==> fd.Open() && fd.Contents() == a0 && fd.cursor == ScanEnd(k, fd.size)
    ensures !alive ==> FileBytes(fd.vol.View(), fd.inoeud) == a0
    ensures fd.vol.Valid() && OnlyFile(s0, fd.vol.View(), fd.inoeud)
  {
    hide Costs, Inv, OnlyFile, Overlaid, Crossed;
    var entry;
    more, entry, alive := NextBytes(fd, s0, a0, k);
    number, name := 0, [];
    if alive && more {
      number, name := Parse(entry, a0, k);
    }
  }

  /** The bytes of the next record, if there is one. */
  method NextBytes(fd: FileDesc, ghost s0: State, ghost a0: seq<byte>, k: nat)
    returns (more: bool, entry: seq<byte>, alive: bool)
    requires |a0| == CAPACITY && Scanned(fd, s0, a0, k)
    modifies fd`cursor, fd.buffer, fd.vol, fd.vol.blocks
    ensures Costs(s0, fd.inoeud, ScanNeeds(k, fd.size), fd.vol.View(), alive)
    ensures alive ==> more == (k < Whole(fd.size)) && fd.Open() && fd.Contents() == a0
    ensures alive ==> fd.cursor == ScanEnd(k, fd.size)
    ensures alive && more ==> |entry| == ENTRY_SIZE && entry == a0[20 * k..20 * k + 20]
    ensures !alive ==> FileBytes(fd.vol.View(), fd.inoeud) == a0
    ensures fd.vol.Valid() && OnlyFile(s0, fd.vol.View(), fd.inoeud)
  {
    hide Costs, Inv, OnlyFile, Overlaid, Crossed;
    ghost var s1 := fd.vol.View();
    var r;
    r, entry, alive := fd.ReadIfile(ENTRY_SIZE);
    OnlyFileTransitive(s0, s1, fd.vol.View(), fd.inoeud);
    NextNeeds(s0, fd.inoeud, k, fd.size, s1, fd.vol.View(), alive);
    more := r != READ_EOF;
  }

  /** The two fields of a record just read. */
  method Parse(entry: seq<byte>, ghost a: seq<byte>, ghost k: nat) returns (number: nat, name: seq<byte>)
    requires |entry| == ENTRY_SIZE && 20 * k + 20 <= |a| && entry == a[20 * k..20 * k + 20]
    ensures number == Inum(a, k) && name == EntName(a, k)
  {
    RecordIs(a, k, entry);
    number, name := Number(entry, 0), CString(entry, 4, 20);
  }

  /** `find_entry`: the first record of that name, or RETURN_FAILURE. */
  method FindEntry(fd: FileDesc, name: seq<byte>) returns (ientry: int, alive: bool)
    requires fd.Open() && !fd.closed && !fd.modified && fd.cursor == 0
    modifies fd`cursor, fd.buffer, fd.vol, fd.vol.blocks
    ensures var k := FindFrom(old(fd.Contents()), 0, Whole(fd.size), name);
            && Costs(old(fd.vol.View()), fd.inoeud, ScanNeeds(k, fd.size), fd.vol.View(), alive)
            && (alive ==> ientry == (if k == Whole(fd.size) then RETURN_FAILURE else k)
                          && fd.cursor == ScanEnd(k, fd.size))
    ensures alive ==> fd.Open() && fd.Contents() == old(fd.Contents())
    ensures !alive ==> FileBytes(fd.vol.View(), fd.inoeud) == old(fd.Contents())
    ensures fd.vol.Valid() && OnlyFile(old(fd.vol.View()), fd.vol.View(), fd.inoeud)
  {
    hide Costs, Inv, OnlyFile, Overlaid, Crossed;
    ghost var s0, a0 := fd.vol.View(), fd.Contents();
    CostsStart(s0, fd.inoeud, 0, false);
    OnlyFileItself(s0, fd.inoeud);
    var k := 0;
    while true
      invariant k <= Whole(fd.size) && Scanned(fd, s0, a0, k)
      invariant FindFrom(a0, 0, Whole(fd.size), name) == FindFrom(a0, k, Whole(fd.size), name)
      decreases Whole(fd.size) - k
    {
      var more, number, found;
      more, number, found, alive := NextRecord(fd, s0, a0, k);
      ScanStopped(s0, fd.inoeud, k, FindFrom(a0, 0, Whole(fd.size), name), fd.size, fd.vol.View());
      if !alive {
        return RETURN_FAILURE, false;
      }
      if !more {
        return RETURN_FAILURE, true;
      }
      if number != 0 && found == name {
        return k, true;
      }
      k := k + 1;
    }
  }

  /** `new_entry`: the first free record, or the number of records. */
  method NewEntry(fd: FileDesc) returns (ientry: nat, alive: bool)
    requires fd.Open() && !fd.closed && !fd.modified && fd.cursor == 0
    modifies fd`cursor, fd.buffer, fd.vol, fd.vol.blocks
    ensures var k := FreeFrom(old(fd.Contents()), 0, Whole(fd.size));
            && Costs(old(fd.vol.View()), fd.inoeud, ScanNeeds(k, fd.size), fd.vol.View(), alive)
            && (alive ==> ientry == k && fd.cursor == ScanEnd(k, fd.size))
    ensures alive ==> fd.Open() && fd.Contents() == old(fd.Contents())
    ensures !alive ==> FileBytes(fd.vol.View(), fd.inoeud) == old(fd.Contents())
    ensures fd.vol.Valid() && OnlyFile(old(fd.vol.View()), fd.vol.View(), fd.inoeud)
  {
    hide Costs, Inv, OnlyFile, Overlaid, Crossed;
    ghost var s0, a0 := fd.vol.View(), fd.Contents();
    CostsStart(s0, fd.inoeud, 0, false);
    OnlyFileItself(s0, fd.inoeud);
    ientry := 0;
    while true
      invariant ientry <= Whole(fd.size) && Scanned(fd, s0, a0, ientry)
      invariant FreeFrom(a0, 0, Whole(fd.size)) == FreeFrom(a0, ientry, Whole(fd.size))
      decreases Whole(fd.size) - ientry
    {
      var more, number, found;
      more, number, found, alive := NextRecord(fd, s0, a0, ientry);
      ScanStopped(s0, fd.inoeud, ientry, FreeFrom(a0, 0, Whole(fd.size)), fd.size, fd.vol.View());
      if !alive || !more || number == 0 {
        return;
      }
      ientry := ientry + 1;
    }
  }

  /** Record `k` lies in the block of position `c`, and so does the place behind it. */
  predicate OneBlock(c: nat, k: nat) {
    c / 512 == 20 * k / 512 == (20 * k + 20) / 512
  }

  /** Seek to record `k`, write it, and close. */
  method WriteRecord(fd: FileDesc, k: nat, entry: seq<byte>) returns (nbyte: int, alive: bool)
    requires fd.Open() && !fd.closed && !fd.modified && |entry| == ENTRY_SIZE
    modifies fd`cursor, fd`modified, fd`closed, fd.buffer, fd.vol, fd.vol.blocks
    ensures Costs(old(fd.vol.View()), fd.inoeud, WriteNeeds(old(fd.cursor), k), fd.vol.View(), alive)
    ensures alive ==> nbyte == ENTRY_SIZE && 20 * k + 20 < CAPACITY
    ensures alive ==> FileBytes(fd.vol.View(), fd.inoeud) == Splice(old(fd.Contents()), 20 * k, entry)
    ensures !alive && OneBlock(old(fd.cursor), k) ==>
              FileBytes(fd.vol.View(), fd.inoeud) == FileBytes(old(fd.vol.View()), fd.inoeud)
    ensures fd.vol.Valid() && OnlyFile(old(fd.vol.View()), fd.vol.View(), fd.inoeud)
  {
    hide Costs, Inv, OnlyFile, Overlaid, Crossed, Entered;
    ghost var s0, c := fd.vol.View(), fd.cursor;
    nbyte := 0;
    var sought := fd.Seek2Ifile(20 * k);
    ghost var s1 := fd.vol.View();
    alive := false;
    if sought {
      nbyte, alive := PutRecord(fd, entry);
      OnlyFileTransitive(s0, s1, fd.vol.View(), fd.inoeud);
    }
    InTwo(s0, fd.inoeud, Entered(c, 20 * k, false), s1, sought,
          Crossed(20 * k, 20, true) + Held(20 * k + 20, true), fd.vol.View(), alive);
    assert WriteNeeds(c, k) == Entered(c, 20 * k, false) + (Crossed(20 * k, 20, true) + Held(20 * k + 20, true));
  }

  /** Write a record where the cursor is, and close. */
  method PutRecord(fd: FileDesc, entry: seq<byte>) returns (nbyte: int, alive: bool)
    requires fd.Open() && !fd.closed && |entry| == ENTRY_SIZE
    modifies fd`cursor, fd`modified, fd`closed, fd.buffer, fd.vol, fd.vol.blocks
    ensures Costs(old(fd.vol.View()), fd.inoeud, Crossed(old(fd.cursor), 20, true) + Held(old(fd.cursor) + 20, true),
                  fd.vol.View(), alive)
    ensures alive ==> nbyte == ENTRY_SIZE && old(fd.cursor) + 20 < CAPACITY
    ensures alive ==> FileBytes(fd.vol.View(), fd.inoeud) == Splice(old(fd.Contents()), old(fd.cursor), entry)
    ensures !alive && old(fd.cursor) / 512 == (old(fd.cursor) + 20) / 512 ==>
              FileBytes(fd.vol.View(), fd.inoeud) == FileBytes(old(fd.vol.View()), fd.inoeud)
    ensures fd.vol.Valid() && OnlyFile(old(fd.vol.View()), fd.vol.View(), fd.inoeud)
  {
    hide Costs, Inv, OnlyFile, Overlaid, Crossed;
    ghost var s0, c := fd.vol.View(), fd.cursor;
    var written;
    nbyte, written := fd.WriteIfile(entry);
    ghost var s1 := fd.vol.View();
    alive := false;
    if written {
      alive := fd.CloseIfile();
      OnlyFileTransitive(s0, s1, fd.vol.View(), fd.inoeud);
    }
    InTwo(s0, fd.inoeud, Crossed(c, 20, true), s1, written, Held(c + 20, true), fd.vol.View(), alive);
  }

  lemma WholeBound(taille: nat, k: nat)
    ensures 20 * k + 20 <= taille * 512 <==> k < Whole(taille)
    ensures taille <= MAX_FBLOC ==> Whole(taille) <= MAX_ENTRIES
  {
  }

  /** The block holding the end of a record written is covered by the size. */
  lemma WrittenCovered(s: State, i: nat, fs: set<nat>, s': State, k: nat)
    requires Costs(s, i, fs, s', true) && (20 * k + 20) / 512 in fs
    requires OnlyFile(s, s', i) && IsRoot(s, i) && Inv(s')
    ensures 20 * k + 20 < Taille(s', i) * 512 && Taille(s', i) <= MAX_FBLOC
  {
    assert IsRoot(s', i);
  }

  lemma ScanRoom(s: State, i: nat, fs: set<nat>, s': State, ok: bool)
    ensures Costs(s, i, fs, s', ok) ==> (ok <==> Room(s, i, fs))
  {
  }

  /** What `read_inode` tells of the type. */
  method KindOf(v: Volume, i: nat) returns (kind: FileType)
    requires v.Valid() && IsRoot(v.View(), i)
    ensures kind == Directory <==> IsDirectory(v.View(), i)
  {
    var inode := v.ReadInode(i);
    kind := inode.kind;
  }

  lemma EndNeeded(c: nat, k: nat, size: nat)
    ensures (20 * k + 20) / 512 in WriteNeeds(c, k) && (20 * k + 20) / 512 in AddNeeds(k, size)
  {
  }

  /** `add_entry`. It gets to the end exactly when there is room for the blocks the scan and
      the record need. */
  method AddEntry(v: Volume, idir: nat, inumber: nat, basename: seq<byte>) returns (status: int, alive: bool)
    requires v.Valid() && IsRoot(v.View(), idir) && inumber < 65536
    modifies v, v.blocks
    ensures v.Valid() && OnlyFile(old(v.View()), v.View(), idir)
    ensures !IsDirectory(old(v.View()), idir) ==> alive && status == RETURN_FAILURE && v.View() == old(v.View())
    ensures IsDirectory(old(v.View()), idir) ==>
              var a := FileBytes(old(v.View()), idir);
              var size := Taille(old(v.View()), idir);
              && 20 * Whole(size) <= CAPACITY
              && Costs(old(v.View()), idir, AddNeeds(FreeFrom(a, 0, Whole(size)), size), v.View(), alive)
              && (alive ==>
                    && status == RETURN_SUCCESS
                    && FreeFrom(a, 0, Whole(size)) < Whole(Taille(v.View(), idir)) <= MAX_ENTRIES
                    && FileBytes(v.View(), idir) == Added(a, Whole(size), inumber, basename))
              && (!alive && (size == 0 || !Room(old(v.View()), idir, ScanNeeds(FreeFrom(a, 0, Whole(size)), size))) ==>
                    FileBytes(v.View(), idir) == a)
  {
    hide Costs, Inv, OnlyFile, Overlaid, Crossed, WriteNeeds, ScanNeeds;
    ghost var s0 := v.View();
    OnlyFileItself(s0, idir);
    var kind := KindOf(v, idir);
    if kind != Directory {
      return RETURN_FAILURE, true;
    }
    var fd := new FileDesc.OpenIfile(v, idir);
    WholeBound(fd.size, 0);
    var ientry, found;
    ientry, found := NewEntry(fd);
    ghost var s1 := v.View();
    ghost var k := FreeFrom(FileBytes(s0, idir), 0, Whole(fd.size));
    alive, status := false, RETURN_FAILURE;
    ScanRoom(s0, idir, ScanNeeds(k, fd.size), s1, found);
    if found {
      fd.DiskShows();
      WholeBound(fd.size, ientry);
      status, alive := AddRecord(fd, ientry, EntryBytes(inumber, basename));
      OnlyFileTransitive(s0, s1, v.View(), idir);
    }
    InTwo(s0, idir, ScanNeeds(k, fd.size), s1, found, WriteNeeds(ScanEnd(k, fd.size), k), v.View(), alive);
  }

  /** The end of `add_entry`. */
  method AddRecord(fd: FileDesc, k: nat, entry: seq<byte>) returns (status: int, alive: bool)
    requires fd.Open() && !fd.closed && !fd.modified && |entry| == ENTRY_SIZE
    modifies fd`cursor, fd`modified, fd`closed, fd.buffer, fd.vol, fd.vol.blocks
    ensures Costs(old(fd.vol.View()), fd.inoeud, WriteNeeds(old(fd.cursor), k), fd.vol.View(), alive)
    ensures alive ==> status == RETURN_SUCCESS && 20 * k + 20 < CAPACITY
    ensures alive ==> FileBytes(fd.vol.View(), fd.inoeud) == Splice(old(fd.Contents()), 20 * k, entry)
    ensures alive ==> k < Whole(Taille(fd.vol.View(), fd.inoeud)) <= MAX_ENTRIES
    ensures !alive && OneBlock(old(fd.cursor), k) ==>
              FileBytes(fd.vol.View(), fd.inoeud) == FileBytes(old(fd.vol.View()), fd.inoeud)
    ensures fd.vol.Valid() && OnlyFile(old(fd.vol.View()), fd.vol.View(), fd.inoeud)
  {
    hide Costs, Inv, OnlyFile, Overlaid, Crossed, WriteNeeds;
    ghost var s0, c := fd.vol.View(), fd.cursor;
    var nbyte;
    nbyte, alive := WriteRecord(fd, k, entry);
    if alive {
      EndNeeded(c, k, 0);
      WrittenCovered(s0, fd.inoeud, WriteNeeds(c, k), fd.vol.View(), k);
      WholeBound(Taille(fd.vol.View(), fd.inoeud), k);
    }
    status := if nbyte == ENTRY_SIZE then RETURN_SUCCESS else RETURN_FAILURE;
  }

  /** `del_entry`: on success the source returns the number of bytes it wrote. */
  method DelEntry(v: Volume, idir: nat, basename: seq<byte>) returns (status: int, alive: bool)
    requires v.Valid() && IsRoot(v.View(), idir)
    modifies v, v.blocks
    ensures v.Valid() && OnlyFile(old(v.View()), v.View(), idir)
    ensures !IsDirectory(old(v.View()), idir) ==> alive && status == RETURN_FAILURE && v.View() == old(v.View())
    ensures IsDirectory(old(v.View()), idir) ==>
              var a := FileBytes(old(v.View()), idir);
              var size := Taille(old(v.View()), idir);
              && Whole(size) <= MAX_ENTRIES
              && var k := FindFrom(a, 0, Whole(size), basename);
                 && Costs(old(v.View()), idir, DeleteNeeds(k, size), v.View(), alive)
                 && (alive ==>
                       && status == (if k == Whole(size) then RETURN_FAILURE else ENTRY_SIZE)
                       && FileBytes(v.View(), idir) == if k == Whole(size) then a else Cleared(a, k))
                 && (!alive && !Room(old(v.View()), idir, ScanNeeds(k, size)) ==> FileBytes(v.View(), idir) == a)
  {
    hide Costs, Inv, OnlyFile, Overlaid, Crossed, WriteNeeds, ScanNeeds;
    ghost var s0 := v.View();
    OnlyFileItself(s0, idir);
    var kind := KindOf(v, idir);
    if kind != Directory {
      return RETURN_FAILURE, true;
    }
    var fd := new FileDesc.OpenIfile(v, idir);
    WholeBound(fd.size, 0);
    var found;
    status, found := FindEntry(fd, basename);
    ghost var s1 := v.View();
    ghost var k := FindFrom(FileBytes(s0, idir), 0, Whole(fd.size), basename);
    alive := false;
    ScanRoom(s0, idir, ScanNeeds(k, fd.size), s1, found);
    if found {
      status, alive := ClearFound(fd, status);
      OnlyFileTransitive(s0, s1, v.View(), idir);
    }
    InTwo(s0, idir, ScanNeeds(k, fd.size), s1, found,
          if k == Whole(fd.size) then {} else WriteNeeds(ScanEnd(k, fd.size), k), v.View(), alive);
  }

  /** The end of `del_entry`, when the search has answered `found`. */
  method ClearFound(fd: FileDesc, found: int) returns (status: int, alive: bool)
    requires fd.Open() && !fd.closed && !fd.modified && (found == RETURN_FAILURE || 0 <= found < Whole(fd.size))
    modifies fd`cursor, fd`modified, fd`closed, fd.buffer, fd.vol, fd.vol.blocks
    ensures fd.vol.Valid() && OnlyFile(old(fd.vol.View()), fd.vol.View(), fd.inoeud)
    ensures Costs(old(fd.vol.View()), fd.inoeud,
                  if found == RETURN_FAILURE then {} else WriteNeeds(old(fd.cursor), found),
                  fd.vol.View(), alive)
    ensures alive ==> status == (if found == RETURN_FAILURE then RETURN_FAILURE else ENTRY_SIZE)
    ensures alive && found == RETURN_FAILURE ==> FileBytes(fd.vol.View(), fd.inoeud) == old(fd.Contents())
    ensures found != RETURN_FAILURE ==> 20 * found + 20 <= CAPACITY
    ensures alive && found != RETURN_FAILURE ==>
              FileBytes(fd.vol.View(), fd.inoeud) == Cleared(old(fd.Contents()), found)
  {
    hide Costs, Inv, OnlyFile, Overlaid, Crossed, WriteNeeds;
    status := RETURN_FAILURE;
    if found == RETURN_FAILURE {
      alive := fd.CloseIfile();
    } else {
      WholeBound(fd.size, found);
      status, alive := WriteRecord(fd, found, NullEntry());
    }
  }

  /** Seek to record `k`, read its inumber, and close. */
  method ReadRecord(fd: FileDesc, k: nat) returns (number: nat, alive: bool)
    requires fd.Open() && !fd.closed && !fd.modified && k < Whole(fd.size)
    modifies fd`cursor, fd`closed, fd.buffer, fd.vol, fd.vol.blocks
    ensures Costs(old(fd.vol.View()), fd.inoeud, ReadNeeds(old(fd.cursor), k), fd.vol.View(), alive)
    ensures alive ==> 20 * k + 20 <= CAPACITY && number == Inum(old(fd.Contents()), k)
    ensures FileBytes(fd.vol.View(), fd.inoeud) == old(fd.Contents())
    ensures fd.vol.Valid() && OnlyFile(old(fd.vol.View()), fd.vol.View(), fd.inoeud)
  {
    hide Costs, Inv, OnlyFile, Overlaid, Crossed, Entered;
    ghost var s0, c := fd.vol.View(), fd.cursor;
    WholeBound(fd.size, k);
    var sought := fd.Seek2Ifile(20 * k);
    ghost var s1 := fd.vol.View();
    number, alive := 0, false;
    if sought {
      number, alive := GetRecord(fd, k);
      OnlyFileTransitive(s0, s1, fd.vol.View(), fd.inoeud);
    }
    InTwo(s0, fd.inoeud, Entered(c, 20 * k, false), s1, sought, Crossed(20 * k, 20, false), fd.vol.View(), alive);
  }

  /** Read the record where the cursor is, and close. */
  method GetRecord(fd: FileDesc, ghost k: nat) returns (number: nat, alive: bool)
    requires fd.Open() && !fd.closed && !fd.modified && fd.cursor == 20 * k && k < Whole(fd.size)
    modifies fd`cursor, fd`closed, fd.buffer, fd.vol, fd.vol.blocks
    ensures Costs(old(fd.vol.View()), fd.inoeud, Crossed(20 * k, 20, false), fd.vol.View(), alive)
    ensures alive ==> 20 * k + 20 <= CAPACITY && number == Inum(old(fd.Contents()), k)
    ensures FileBytes(fd.vol.View(), fd.inoeud) == old(fd.Contents())
    ensures fd.vol.Valid() && OnlyFile(old(fd.vol.View()), fd.vol.View(), fd.inoeud)
  {
    hide Costs, Inv, OnlyFile, Overlaid, Crossed;
    ghost var s0, a0 := fd.vol.View(), fd.Contents();
    WholeBound(fd.size, k);
    var r, entry, got;
    r, entry, got := fd.ReadIfile(ENTRY_SIZE);
    ghost var s1 := fd.vol.View();
    number, alive := 0, false;
    if got {
      fd.DiskShows();
      var name;
      number, name := Parse(entry, a0, k);
      alive := fd.CloseIfile();
      OnlyFileTransitive(s0, s1, fd.vol.View(), fd.inoeud);
    }
    InTwo(s0, fd.inoeud, Crossed(20 * k, 20, false), s1, got, {}, fd.vol.View(), alive);
    assert Crossed(20 * k, 20, false) + {} == Crossed(20 * k, 20, false);
  }

  /** `inumber_of_basename`: 0 for an absent name or for something not a directory. The
      contents are as before even where the search has grown the directory. */
  method InumberOfBasename(v: Volume, idir: nat, basename: seq<byte>) returns (inumber: nat, alive: bool)
    requires v.Valid() && IsRoot(v.View(), idir)
    modifies v, v.blocks
    ensures v.Valid() && OnlyFile(old(v.View()), v.View(), idir)
    ensures !IsDirectory(old(v.View()), idir) ==> alive && inumber == 0 && v.View() == old(v.View())
    ensures IsDirectory(old(v.View()), idir) ==>
              var a := FileBytes(old(v.View()), idir);
              var size := Taille(old(v.View()), idir);
              && Whole(size) <= MAX_ENTRIES
              && Costs(old(v.View()), idir, LookupNeeds(FindFrom(a, 0, Whole(size), basename), size), v.View(), alive)
              && (alive ==> inumber == LookupIn(a, Whole(size), basename))
              && FileBytes(v.View(), idir) == a
  {
    hide Costs, Inv, OnlyFile, Overlaid, Crossed, ReadNeeds, ScanNeeds;
    ghost var s0 := v.View();
    OnlyFileItself(s0, idir);
    var kind := KindOf(v, idir);
    if kind != Directory {
      return 0, true;
    }
    var fd := new FileDesc.OpenIfile(v, idir);
    WholeBound(fd.size, 0);
    var status, found;
    status, found := FindEntry(fd, basename);
    ghost var s1 := v.View();
    ghost var k := FindFrom(FileBytes(s0, idir), 0, Whole(fd.size), basename);
    inumber, alive := 0, false;
    if found {
      inumber, alive := ReadFound(fd, status);
      OnlyFileTransitive(s0, s1, v.View(), idir);
    }
    InTwo(s0, idir, ScanNeeds(k, fd.size), s1, found,
          if k == Whole(fd.size) then {} else ReadNeeds(ScanEnd(k, fd.size), k), v.View(), alive);
  }

  /** The end of `inumber_of_basename`, when the search has answered `found`. */
  method ReadFound(fd: FileDesc, found: int) returns (inumber: nat, alive: bool)
    requires fd.Open() && !fd.closed && !fd.modified && (found == RETURN_FAILURE || 0 <= found < Whole(fd.size))
    modifies fd`cursor, fd`closed, fd.buffer, fd.vol, fd.vol.blocks
    ensures fd.vol.Valid() && OnlyFile(old(fd.vol.View()), fd.vol.View(), fd.inoeud)
    ensures Costs(old(fd.vol.View()), fd.inoeud,
                  if found == RETURN_FAILURE then {} else ReadNeeds(old(fd.cursor), found),
                  fd.vol.View(), alive)
    ensures found != RETURN_FAILURE ==> 20 * found + 20 <= CAPACITY
    ensures alive ==> inumber == if found == RETURN_FAILURE then 0 else Inum(old(fd.Contents()), found)
    ensures FileBytes(fd.vol.View(), fd.inoeud) == old(fd.Contents())
  {
    hide Costs, Inv, OnlyFile, Crossed, ReadNeeds;
    if found == RETURN_FAILURE {
      OnlyFileItself(fd.vol.View(), fd.inoeud);
      CostsNothing(fd.vol.View(), fd.inoeud);
      OverlaidClean(fd.vol.View(), fd.inoeud, fd.cursor / 512, fd.buffer[..]);
      return 0, true;
    }
    WholeBound(fd.size, found);
    inumber, alive := ReadRecord(fd, found);
  }
}
