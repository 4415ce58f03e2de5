/** The source is unfinished: in the places below it does something else than the rest of
    the model, which follows the repaired code. Each slip of the file system is modelled as
    it is written, with the exact condition under which it does no harm and an input that
    meets it and does harm. What calls `new_bloc` on a full volume is composed with
    `new_bloc` as written; elsewhere the other slips are taken as repaired. */
module AsWritten {
  import opened Bytes
  import opened Codec
  import opened FreeList
  import opened BlockMap
  import opened Allocate
  import opened Lifecycle
  import opened Delete
  import Partition

  // ---------------------------------------------------------------------- new_bloc

  /** The list on the disk is well formed, and the superblock counts it right. */
  ghost predicate Listed(blocks: seq<Block>, sb: Super, r: Runs) {
    Chain(blocks, r) && sb.firstFree == HeadOf(r) && sb.nbFree == Total(r)
  }

  /** `new_bloc`, lines 240-259: in a run of one it answers the new head of the list; in a
      longer run it writes the old length into the next header. */
  ghost function NewBlocAsWritten(s: State): (seq<Block>, Super, nat)
    requires FreeInv(s)
  {
    if s.sb.nbFree == 0 then (s.blocks, s.sb, 0)
    else
      var run := DecodeFree(s.blocks[s.sb.firstFree]).value;
      if run.count == 1 then
        var sb := s.sb.(nbFree := s.sb.nbFree - 1, firstFree := run.next);
        (s.blocks[0 := EncodeSuper(sb)], sb, sb.firstFree)
      else
        var sb := s.sb.(nbFree := s.sb.nbFree - 1, firstFree := s.sb.firstFree + 1);
        (s.blocks[0 := EncodeSuper(sb)][sb.firstFree := EncodeFree(run)], sb, sb.firstFree - 1)
  }

  /** What `new_bloc` is for: 0 only when nothing is free, otherwise a block that was free
      and is no longer on a list that is still right. */
  ghost predicate NewBlocRight(s: State)
    requires FreeInv(s)
  {
    var (blocks, sb, b) := NewBlocAsWritten(s);
    && (b == 0 <==> s.sb.nbFree == 0)
    && exists r :: Listed(blocks, sb, r) && (b != 0 ==> Has(s.runs, b) && !Has(r, b))
  }

  /** A list is determined by its head. */
  lemma {:induction false} ChainUnique(blocks: seq<Block>, r: Runs, q: Runs)
    requires Chain(blocks, r) && Chain(blocks, q) && HeadOf(r) == HeadOf(q)
    ensures r == q
    decreases r
  {
    if r.End? {
    } else {
      ChainUnique(blocks, r.rest, q.rest);
    }
  }

  lemma LongRunWrong(s: State, r: Runs)
    requires FreeInv(s) && s.runs.Run? && s.runs.len > 1
    ensures var (blocks, sb, b) := NewBlocAsWritten(s); !Listed(blocks, sb, r)
  {
    var (blocks, sb, b) := NewBlocAsWritten(s);
    FreeRoundTrip(FreeRun(s.runs.len, HeadOf(s.runs.rest)));
    if Listed(blocks, sb, r) {
      assert blocks[r.start] == EncodeFree(FreeRun(s.runs.len, HeadOf(s.runs.rest)));
      forall k: nat | Has(s.runs.rest, k) && k < |blocks| ensures blocks[k] == s.blocks[k] {
        ChainHas(s.blocks, s.runs.rest, k);
      }
      ChainFrame(s.blocks, blocks, s.runs.rest);
      ChainUnique(blocks, r.rest, s.runs.rest);
    }
  }

  lemma ShortRunWrong(s: State, r: Runs)
    requires FreeInv(s) && s.runs.Run? && s.runs.len == 1
    ensures var (blocks, sb, b) := NewBlocAsWritten(s);
            b == 0 || !Listed(blocks, sb, r) || Has(r, b)
  {
  }

  /** As written, `new_bloc` does its job exactly when there is nothing to do. */
  lemma NewBlocAsWrittenIff(s: State)
    requires FreeInv(s)
    ensures NewBlocRight(s) <==> s.sb.nbFree == 0
  {
    if s.sb.nbFree == 0 {
      assert Listed(s.blocks, s.sb, s.runs);
    } else if NewBlocRight(s) {
      var (blocks, sb, b) := NewBlocAsWritten(s);
      var r :| Listed(blocks, sb, r) && (b != 0 ==> Has(s.runs, b) && !Has(r, b));
      if s.runs.len == 1 {
        ShortRunWrong(s, r);
      } else {
        LongRunWrong(s, r);
      }
    }
  }

  /** The first allocation on a new volume of three blocks already spoils the list. */
  lemma NewBlocOnFreshVolume()
    ensures FreeInv(Format([ZERO, ZERO, ZERO], [])) && !NewBlocRight(Format([ZERO, ZERO, ZERO], []))
  {
    FormatCorrect([ZERO, ZERO, ZERO], []);
    NewBlocAsWrittenIff(Format([ZERO, ZERO, ZERO], []));
  }

  // --------------------------------------------------------------- read_super_bloc

  function Signed(b: byte): int {
    if b < 128 then b as int else b as int - 256
  }

  /** Lines 105-115: high bytes are read through a signed `char`; the serial number is
      compared modulo 2^32. */
  function ReadSuperAsWritten(b: Block): (int, int, int, int) {
    ((Signed(b[2]) * 16777216 + Signed(b[3]) * 65536 + Signed(b[4]) * 256 + b[5] as int) % 0x1_0000_0000,
     Signed(b[6]) * 256 + b[7] as int, Signed(b[8]) * 256 + b[9] as int, Signed(b[10]) * 256 + b[11] as int)
  }

  /** A superblock is read back right exactly when the three block numbers are below 32768
      and the middle bytes of the serial number below 128. */
  lemma ReadSuperAsWrittenIff(sb: Super)
    requires SuperValid(sb)
    ensures ReadSuperAsWritten(EncodeSuper(sb)) == (sb.serial, sb.root, sb.nbFree, sb.firstFree) <==>
            sb.root < 32768 && sb.nbFree < 32768 && sb.firstFree < 32768
            && sb.serial / 65536 % 256 < 128 && sb.serial / 256 % 256 < 128
  {
    EncodedSuperAt(sb);
    var b := EncodeSuper(sb);
    SignedField(b[6], b[7]);
    SignedField(b[8], b[9]);
    SignedField(b[10], b[11]);
    SerialBytes(sb.serial, b[2], b[3], b[4], b[5]);
  }

  lemma SerialBytes(serial: nat, a: byte, b: byte, c: byte, d: byte)
    requires serial / 65536 == a as int * 256 + b as int && serial % 65536 == c as int * 256 + d as int
    ensures (Signed(a) * 16777216 + Signed(b) * 65536 + Signed(c) * 256 + d as int) % 0x1_0000_0000 == serial
            <==> serial / 65536 % 256 < 128 && serial / 256 % 256 < 128
  {
    SignedSerial(a, b, c, d);
    assert serial == 65536 * (serial / 65536) + serial % 65536;
    TwoBytes(a, b);
    TwoBytes(c, d);
    MiddleByte(serial, serial / 65536, serial % 65536);
  }

  lemma TwoBytes(a: byte, b: byte)
    ensures (a as int * 256 + b as int) % 256 == b as int && (a as int * 256 + b as int) / 256 == a as int
  {
  }

  lemma MiddleByte(n: nat, hi: nat, lo: nat)
    requires n == 65536 * hi + lo && lo < 65536
    ensures n / 256 % 256 == lo / 256
  {
    assert n / 256 == 256 * hi + lo / 256;
  }

  lemma SignedField(hi: byte, lo: byte)
    ensures Signed(hi) * 256 + lo as int == hi as int * 256 + lo as int <==> hi as int * 256 + lo as int < 32768
  {
  }

  lemma SignedSerial(a: byte, b: byte, c: byte, d: byte)
    ensures (Signed(a) * 16777216 + Signed(b) * 65536 + Signed(c) * 256 + d as int) % 0x1_0000_0000
            == a as int * 16777216 + b as int * 65536 + c as int * 256 + d as int
            <==> b < 128 && c < 128
  {
  }

  /** A volume of 40001 sectors, which the partition table takes, is formatted with 40000
      free blocks and mounted with -25536. */
  lemma ReadSuperExample()
    ensures var v := Partition.Vol(0, 1, 40001, Partition.Base); Partition.Step([], Partition.Create(v)) == [v]
    ensures var s := Format(seq(40001, k => ZERO), []);
            s.sb.nbFree == 40000 && ReadSuperAsWritten(s.blocks[0]).2 == -25536
  {
    var s := Format(seq(40001, k => ZERO), []);
    EncodedSuperAt(s.sb);
    assert U16(s.blocks[0], 8) == 40000;
  }

  // ------------------------------------------------------------ a full volume

  /** Where `new_bloc` as written sends its user: to the new head of the list, which is 0
      when the last block has been taken, or to the block taken. */
  lemma NewBlocAnswers(s: State)
    requires FreeInv(s)
    ensures var (blocks, sb, b) := NewBlocAsWritten(s);
            && |blocks| == |s.blocks| && b < |blocks| && SuperValid(sb) && blocks[0] == EncodeSuper(sb)
            && (b == 0 <==> s.sb.nbFree <= 1)
  {
    if s.runs.Run? {
      FreeRoundTrip(FreeRun(s.runs.len, HeadOf(s.runs.rest)));
      if s.runs.rest.Run? {
        assert Chain(s.blocks, s.runs.rest);
        assert Has(s.runs.rest, s.runs.rest.start);
        ChainHas(s.blocks, s.runs.rest, s.runs.rest.start);
        assert Total(s.runs.rest) == s.runs.rest.len + Total(s.runs.rest.rest) >= 1;
      }
    }
  }

  /** `create_inode`, lines 383-385, writes the inode wherever `new_bloc` says. */
  ghost function CreateAsWritten(s: State, kind: FileType): (seq<Block>, Super)
    requires FreeInv(s)
  {
    NewBlocAnswers(s);
    var (blocks, sb, b) := NewBlocAsWritten(s);
    (blocks[b := EncodeInode(EmptyInode(kind))], sb)
  }

  /** The superblock survives exactly when more than one block was free. */
  lemma CreateAsWrittenIff(s: State, kind: FileType)
    requires FreeInv(s)
    ensures var (blocks, sb) := CreateAsWritten(s, kind);
            |blocks| > 0 && (DecodeSuper(blocks[0]) == Some(sb) <==> s.sb.nbFree > 1)
  {
    NewBlocAnswers(s);
    EmptyInodeAt(kind);
    SuperRoundTrip(NewBlocAsWritten(s).1);
  }

  /** The first inode of a volume of two blocks replaces its superblock. */
  lemma CreateAsWrittenExample()
    ensures var s := Format([ZERO, ZERO], []);
            && FreeInv(s) && s.sb.nbFree == 1 && |CreateAsWritten(s, Directory).0| > 0
            && DecodeSuper(CreateAsWritten(s, Directory).0[0]) != Some(CreateAsWritten(s, Directory).1)
  {
    FormatCorrect([ZERO, ZERO], []);
    CreateAsWrittenIff(Format([ZERO, ZERO], []), Directory);
  }

  /** `clean_bloc` of a block just allocated, block 0 included. */
  ghost function CleanAsWritten(s: State): (seq<Block>, Super)
    requires FreeInv(s)
  {
    NewBlocAnswers(s);
    var (blocks, sb, b) := NewBlocAsWritten(s);
    (blocks[b := ZERO], sb)
  }

  lemma CleanAsWrittenIff(s: State)
    requires FreeInv(s)
    ensures var (blocks, sb) := CleanAsWritten(s);
            |blocks| > 0 && (DecodeSuper(blocks[0]) == Some(sb) <==> s.sb.nbFree > 1)
  {
    NewBlocAnswers(s);
    SuperRoundTrip(NewBlocAsWritten(s).1);
  }

  lemma CleanAsWrittenExample()
    ensures var s := Format([ZERO, ZERO], []);
            && FreeInv(s) && s.sb.nbFree == 1 && |CleanAsWritten(s).0| > 0
            && DecodeSuper(CleanAsWritten(s).0[0]) != Some(CleanAsWritten(s).1)
  {
    FormatCorrect([ZERO, ZERO], []);
    CleanAsWrittenIff(Format([ZERO, ZERO], []));
  }

  /** `flush_ifile`, line 136 of src/disque/ifile.c: the buffer goes wherever the allocation
      says, 0 included. The allocation itself is taken as repaired. */
  ghost function FlushAsWritten(s: State, i: nat, f: nat, buffer: Block): (seq<Block>, Super)
    requires Inv(s) && IsRoot(s, i)
  {
    AllocCorrect(s, i, f);
    var (s1, b) := Alloc(s, i, f);
    (s1.blocks[b := buffer], s1.sb)
  }

  /** The superblock survives exactly when the file block exists and can be paid for, or the
      buffer happens to be the superblock. */
  lemma FlushAsWrittenIff(s: State, i: nat, f: nat, buffer: Block)
    requires Inv(s) && IsRoot(s, i)
    ensures var (blocks, sb) := FlushAsWritten(s, i, f, buffer);
            |blocks| > 0 && (DecodeSuper(blocks[0]) == Some(sb) <==>
                               (f < MAX_FBLOC && Missing(s, i, f) <= s.sb.nbFree) || DecodeSuper(buffer) == Some(sb))
  {
    AllocCorrect(s, i, f);
    var (s1, b) := Alloc(s, i, f);
    SuperRoundTrip(s1.sb);
  }

  /** A formatted volume of two blocks with an inode, which leaves none free. */
  ghost function TakenVolume(): State {
    FormatCorrect([ZERO, ZERO], []);
    Create(Format([ZERO, ZERO], []), Normal).0
  }

  lemma TakenVolumeIs()
    ensures Inv(TakenVolume()) && IsRoot(TakenVolume(), 1) && TakenVolume().sb.nbFree == 0
    ensures Missing(TakenVolume(), 1, 0) == 1
  {
    FormatCorrect([ZERO, ZERO], []);
    CreateKeeps(Format([ZERO, ZERO], []), Normal);
    CreateCorrect(Format([ZERO, ZERO], []), Normal);
    FreeCount(Format([ZERO, ZERO], []));
    assert 1 in FreeSet(Format([ZERO, ZERO], []).runs);
  }

  /** There, one character written and flushed replaces the superblock. */
  lemma FlushAsWrittenExample()
    ensures Inv(TakenVolume()) && IsRoot(TakenVolume(), 1)
    ensures var (blocks, sb) := FlushAsWritten(TakenVolume(), 1, 0, ZERO[0 := 65]);
            |blocks| > 0 && DecodeSuper(blocks[0]) != Some(sb)
  {
    TakenVolumeIs();
    FlushAsWrittenIff(TakenVolume(), 1, 0, ZERO[0 := 65]);
    assert U16(ZERO[0 := 65], 0) == 65 * 256;
  }

  // ---------------------------------------------------- the three index ranges

  /** Lines 547-559: a data block entered in an existing indirect table does not raise the
      size. `new_bloc` is taken as repaired. */
  ghost function AllocIndirectAsWritten(s: State, i: nat, f: nat, t: nat): (State, nat)
    requires Inv(s) && IsRoot(s, i) && NB_BLOCS <= f < 2 * NB_BLOCS && t == Slot(s, i, NB_BLOCS) && t != 0
    requires Vbloc(s, i, f) == 0
  {
    IndirectWalk(s, i, f);
    Grow(s, t, f % 10)
  }

  /** The size still covers the file exactly when it already covered the new block. */
  lemma AllocIndirectAsWrittenIff(s: State, i: nat, f: nat, t: nat)
    requires Inv(s) && IsRoot(s, i) && NB_BLOCS <= f < 2 * NB_BLOCS && t == Slot(s, i, NB_BLOCS) && t != 0
    requires Vbloc(s, i, f) == 0 && s.sb.nbFree > 0
    ensures TailleInv(AllocIndirectAsWritten(s, i, f, t).0) <==> f < Taille(s, i)
  {
    IndirectWalk(s, i, f);
    EnsureCorrect(s, t, f % 10);
    var (s2, b) := Ensure(s, t, f % 10);
    assert ParentOK(s, t);
    LastStep(s, i, f, t, s2, b);
    if f < Taille(s, i) {
      AllocAttachedHere(s, i, f, t, s2, b);
      SizeUnraised(s, i, f, s2, b, Bump(s2, i, f));
    } else {
      assert IsRoot(s2, i) && Taille(s2, i) == Taille(s, i);
    }
  }

  lemma AllocAttachedHere(s: State, i: nat, f: nat, t: nat, s2: State, b: nat)
    requires Inv(s) && IsRoot(s, i) && NB_BLOCS <= f < 2 * NB_BLOCS && t == Slot(s, i, NB_BLOCS) && t != 0
    requires Vbloc(s, i, f) == 0 && Ensured(s, t, f % 10, s2, b) && b != 0
    ensures Grown(s, i, f, s2, b)
  {
    IndirectWalk(s, i, f);
    EnsureCorrect(s, i, NB_BLOCS);
    TableIndirect(s, i, f, s, t);
    AllocAttached(s, i, f, s, t, s2, b);
  }

  lemma SizeUnraised(s: State, i: nat, f: nat, s2: State, b: nat, s3: State)
    requires Inv(s) && IsRoot(s, i) && f < MAX_FBLOC && f < Taille(s, i)
    requires Grown(s, i, f, s2, b) && s3 == Bump(s2, i, f)
    ensures TailleInv(s2)
  {
    AllocBumped(s, i, f, s2, b, s3);
    AllocatedInv(s, i, f, s3, b);
    BumpCorrect(s2, i, f);
    forall j: nat, g: nat | IsRoot(s2, j) && Vbloc(s2, j, g) != 0 ensures g < Taille(s2, j) {
      ViewKept(s2, s3, j, g);
    }
  }

  /** A formatted volume of six blocks with an inode and block 10 of its file. */
  ghost function SparseVolume(): (State, nat) {
    var disk := seq(6, k => ZERO);
    FormatCorrect(disk, []);
    CreateKeeps(Format(disk, []), Normal);
    CreateCorrect(Format(disk, []), Normal);
    var (s, i) := Create(Format(disk, []), Normal);
    if IsRoot(s, i) then (Alloc(s, i, NB_BLOCS).0, i) else (s, i)
  }

  lemma SparseVolumeIs()
    ensures var (s, i) := SparseVolume();
            && Inv(s) && IsRoot(s, i) && Taille(s, i) == 11 && s.sb.nbFree == 2 && i != 0
            && Vbloc(s, i, 10) != 0 && (forall g: nat | g != 10 :: Vbloc(s, i, g) == 0)
            && Slot(s, i, NB_BLOCS) != 0 && !NoTables(s, i)
  {
    var disk := seq(6, k => ZERO);
    FormatCorrect(disk, []);
    CreateKeeps(Format(disk, []), Normal);
    CreateCorrect(Format(disk, []), Normal);
    FreeCount(Format(disk, []));
    var (s, i) := Create(Format(disk, []), Normal);
    SparseAlloc(s, i);
  }

  lemma SparseAlloc(s: State, i: nat)
    requires Inv(s) && IsRoot(s, i) && Taille(s, i) == 0 && s.sb.nbFree == 4 && i != 0
    requires (forall g: nat :: Vbloc(s, i, g) == 0) && (forall p: Place :: !Present(s, i, p))
    ensures var s' := Alloc(s, i, NB_BLOCS).0;
            && Inv(s') && IsRoot(s', i) && Taille(s', i) == 11 && s'.sb.nbFree == 2
            && Vbloc(s', i, 10) != 0 && (forall g: nat | g != 10 :: Vbloc(s', i, g) == 0)
            && Slot(s', i, NB_BLOCS) != 0 && !NoTables(s', i)
  {
    AllocCorrect(s, i, NB_BLOCS);
    var (s', b) := Alloc(s, i, NB_BLOCS);
    AllocatedInv(s, i, NB_BLOCS, s', b);
    assert !Present(s, i, IndirectTable);
    forall g: nat | g != 10 ensures Vbloc(s', i, g) == 0 {
      OthersKept(s, i, NB_BLOCS, s', b, i, g);
    }
  }

  /** There, block 11 is entered beyond the size. */
  lemma AllocIndirectAsWrittenExample()
    ensures var (s, i) := SparseVolume();
            && Inv(s) && IsRoot(s, i) && Slot(s, i, NB_BLOCS) != 0 && Vbloc(s, i, 11) == 0
            && !TailleInv(AllocIndirectAsWritten(s, i, 11, Slot(s, i, NB_BLOCS)).0)
  {
    SparseVolumeIs();
    var (s, i) := SparseVolume();
    AllocIndirectAsWrittenIff(s, i, 11, Slot(s, i, NB_BLOCS));
  }

  /** Line 593 shifts the high byte of a table entry the wrong way. */
  function EntryAsWritten(table: Block, k: nat): nat
    requires k < NB_BLOCS
  {
    table[2 * k] as nat / 256 + table[2 * k + 1] as nat
  }

  lemma EntryAsWrittenIff(table: Block, k: nat)
    requires k < NB_BLOCS
    ensures EntryAsWritten(table, k) == U16(table, 2 * k) <==> U16(table, 2 * k) < 256
  {
  }

  /** On a volume of more than 256 blocks, an entry that leads to block 256 is read as null. */
  lemma EntryAsWrittenExample()
    ensures EntryAsWritten(Put16(ZERO, 0, 256), 0) == 0 && U16(Put16(ZERO, 0, 256), 0) == 256
  {
    Put16At(ZERO, 0, 256);
  }

  /** Line 615 tests one byte, at an index not scaled to entries. */
  predicate MissingAsWritten(table: Block, k: nat)
    requires k < NB_BLOCS
  {
    table[k] as nat * 256 + table[k] as nat == 0
  }

  /** The entries of a table all lead to blocks below 256, as on the disk of 256 sectors. */
  predicate SmallEntries(table: Block) {
    forall j: nat | j < NB_BLOCS :: U16(table, 2 * j) < 256
  }

  /** The test looks at the high byte of entry `k / 2` for even `k` and at its low byte for
      odd `k`. So with small entries an even entry is always taken for missing, which is
      right exactly when it is; an odd one is taken for missing when entry `(k - 1) / 2`
      is, which is right exactly when both are there or both missing. */
  lemma MissingAsWrittenIff(table: Block, k: nat)
    requires k < NB_BLOCS && SmallEntries(table)
    ensures k % 2 == 0 ==>
              (MissingAsWritten(table, k) == (U16(table, 2 * k) == 0) <==> U16(table, 2 * k) == 0)
    ensures k % 2 == 1 ==>
              (MissingAsWritten(table, k) == (U16(table, 2 * k) == 0) <==>
                (U16(table, 2 * k) == 0) == (U16(table, 2 * ((k - 1) / 2)) == 0))
  {
    TestedEntry(table, k);
    assert U16(table, 2 * (k / 2)) < 256;
  }

  lemma TestedEntry(table: Block, k: nat)
    requires k < NB_BLOCS
    ensures table[k] == if k % 2 == 0 then U16(table, 2 * (k / 2)) / 256 else U16(table, 2 * (k / 2)) % 256
  {
  }

  /** For tables whose entries may be larger: the byte tested must be zero just when the
      entry is. */
  lemma MissingByteIff(table: Block, k: nat)
    requires k < NB_BLOCS
    ensures MissingAsWritten(table, k) == (U16(table, 2 * k) == 0) <==>
            (U16(table, 2 * k) == 0) ==
            if k % 2 == 0 then U16(table, 2 * (k / 2)) < 256 else U16(table, 2 * (k / 2)) % 256 == 0
  {
    TestedEntry(table, k);
  }

  /** With blocks 1 to 10 entered in order, entry 2 is there and taken for missing. With
      the first alone, entry 1 is missing and taken to be there: the file cannot grow. */
  lemma MissingAsWrittenExample()
    ensures var table := PutFields(ZERO, 0, [1, 2, 3, 4, 5, 6, 7, 8, 9, 10]);
            U16(table, 4) != 0 && MissingAsWritten(table, 2)
    ensures var table := Put16(ZERO, 0, 5); U16(table, 2) == 0 && !MissingAsWritten(table, 1)
  {
    var vals := [1, 2, 3, 4, 5, 6, 7, 8, 9, 10];
    PutFieldsAt(ZERO, 0, vals);
    var table := PutFields(ZERO, 0, vals);
    assert U16(table, 2 * 1) == vals[1] && U16(table, 2 * 2) == vals[2];
    Put16At(ZERO, 0, 5);
  }

  // ---------------------------------------------------------------------- deletion

  /** `delete_ifile` frees every file block below the size, holes as block 0, and then the
      inode; the tables are forgotten. */
  ghost function IfileFreed(s: State, i: nat): set<nat> {
    (set f: nat | f < Taille(s, i) :: Vbloc(s, i, f)) + {i}
  }

  ghost function TreeSet(s: State, i: nat): set<nat> {
    set x: nat | x < |s.owner| && InTree(s, i, x)
  }

  ghost predicate NoHoles(s: State, i: nat) {
    forall f: nat | f < Taille(s, i) :: Vbloc(s, i, f) != 0
  }

  predicate NoTables(s: State, i: nat) {
    Ptr(s, i, 27) == 0 && Ptr(s, i, 29) == 0
  }

  /** It gives back the file's blocks exactly when the file has neither holes nor tables. */
  lemma DeleteIfileAsWrittenIff(s: State, i: nat)
    requires Inv(s) && IsRoot(s, i)
    ensures IfileFreed(s, i) == TreeSet(s, i) <==> NoHoles(s, i) && NoTables(s, i)
  {
    if IfileFreed(s, i) == TreeSet(s, i) {
      NothingForgotten(s, i);
    }
    if NoHoles(s, i) && NoTables(s, i) {
      AllFreed(s, i);
    }
  }

  lemma NothingForgotten(s: State, i: nat)
    requires Inv(s) && IsRoot(s, i) && IfileFreed(s, i) == TreeSet(s, i)
    ensures NoHoles(s, i) && NoTables(s, i)
  {
    forall f: nat | f < Taille(s, i) ensures Vbloc(s, i, f) != 0 {
      assert Vbloc(s, i, f) in TreeSet(s, i);
    }
    assert SlotOK(s, i, NB_BLOCS) && SlotOK(s, i, NB_BLOCS + 1);
    forall t: nat | t < |s.owner| && s.owner[t].Owned? && s.owner[t].parent == i && !s.owner[t].level.Data?
      ensures false
    {
      assert RootOf(s.owner, t) == i;
      assert t in TreeSet(s, i);
      if t != i {
        var f: nat :| f < Taille(s, i) && Vbloc(s, i, f) == t;
        VblocLocated(s, i, f);
      }
    }
  }

  lemma AllFreed(s: State, i: nat)
    requires Inv(s) && IsRoot(s, i) && NoHoles(s, i) && NoTables(s, i)
    ensures IfileFreed(s, i) == TreeSet(s, i)
  {
    forall x: nat ensures x in IfileFreed(s, i) <==> x in TreeSet(s, i) {
      if x in IfileFreed(s, i) && x != i {
        var f: nat :| f < Taille(s, i) && Vbloc(s, i, f) == x;
        VblocLocated(s, i, f);
        assert ParentOK(s, x);
        assert RootOf(s.owner, x) == i;
      }
      if x in TreeSet(s, i) && x != i {
        TreeMember(s, i, x);
        assert ParentOK(s, x);
        assert IsData(s, x);
        DataMapped(s, x);
        var (j, f) := Locate(s, x);
        assert j == i && f < Taille(s, i) && Vbloc(s, i, f) == x;
      }
    }
  }

  /** A file with a hole and a table: block 0 is freed and the table is not. */
  lemma DeleteIfileAsWrittenExample()
    ensures var (s, i) := SparseVolume();
            Inv(s) && IsRoot(s, i) && 0 in IfileFreed(s, i) && IfileFreed(s, i) != TreeSet(s, i)
  {
    SparseVolumeIs();
    var (s, i) := SparseVolume();
    DeleteIfileAsWrittenIff(s, i);
    assert Vbloc(s, i, 0) == 0;
  }

  /** What `delete_inode`, lines 434-473, frees: a table is read into a null buffer, which
      stops the program before the inode is freed (none); without tables, the direct blocks
      and the inode. */
  ghost function DeleteInodeAsWritten(s: State, i: nat): Option<seq<nat>>
    requires |s.blocks| == |s.owner| && IsRoot(s, i)
  {
    if NoTables(s, i) then Some(Slots(s, i, NB_BLOCS) + [i]) else None
  }

  /** It does its job exactly when there are no tables; freeing the direct blocks and the
      inode would not do for other files, either. */
  lemma DeleteInodeAsWrittenIff(s: State, i: nat)
    requires TreeInv(s) && IsRoot(s, i)
    ensures DeleteInodeAsWritten(s, i) == Some(TreeList(s, i)) <==> NoTables(s, i)
    ensures Slots(s, i, NB_BLOCS) + [i] == TreeList(s, i) <==> NoTables(s, i)
  {
    assert SlotOK(s, i, NB_BLOCS) && SlotOK(s, i, NB_BLOCS + 1);
    var a := Slots(s, i, NB_BLOCS);
    var b := TableList(s, Slot(s, i, NB_BLOCS));
    var c := DoubleList(s, Slot(s, i, NB_BLOCS + 1));
    assert |TreeList(s, i)| == |a| + |b| + |c| + 1;
    assert NoTables(s, i) <==> |b| + |c| == 0;
    if NoTables(s, i) {
      assert a + b + c == a;
    }
  }

  lemma DeleteInodeAsWrittenExample()
    ensures var (s, i) := SparseVolume(); TreeInv(s) && IsRoot(s, i) && DeleteInodeAsWritten(s, i) == None
  {
    SparseVolumeIs();
  }

  /** `free_bloc_array`, lines 423-432: the index runs over ten bytes, two at a time, so
      over the first five entries of the table. */
  function ArrayAsWritten(table: Block, k: nat): seq<nat>
    requires k <= NB_BLOCS / 2
  {
    if k == 0 then []
    else ArrayAsWritten(table, k - 1) + if U16(table, 2 * (k - 1)) == 0 then [] else [U16(table, 2 * (k - 1))]
  }

  /** It frees the entries of a table exactly when the last five are null. */
  lemma ArrayAsWrittenIff(s: State, t: nat)
    requires t < |s.blocks| == |s.owner| && Arity(s.owner[t]) == NB_BLOCS
    ensures ArrayAsWritten(s.blocks[t], NB_BLOCS / 2) == Slots(s, t, NB_BLOCS) <==>
            forall k: nat | NB_BLOCS / 2 <= k < NB_BLOCS :: U16(s.blocks[t], 2 * k) == 0
  {
    FirstEntries(s, t, NB_BLOCS / 2);
    LastEntries(s, t, NB_BLOCS / 2, NB_BLOCS);
  }

  lemma {:induction false} FirstEntries(s: State, t: nat, k: nat)
    requires t < |s.blocks| == |s.owner| && Arity(s.owner[t]) == NB_BLOCS && k <= NB_BLOCS / 2
    ensures ArrayAsWritten(s.blocks[t], k) == Slots(s, t, k)
  {
    if k == 0 {
    } else {
      FirstEntries(s, t, k - 1);
    }
  }

  /** Further entries make the list longer, unless they are null. */
  lemma {:induction false} LastEntries(s: State, t: nat, k: nat, n: nat)
    requires t < |s.blocks| == |s.owner| && Arity(s.owner[t]) == NB_BLOCS && k <= n <= NB_BLOCS
    ensures |Slots(s, t, k)| <= |Slots(s, t, n)|
    ensures Slots(s, t, k) == Slots(s, t, n) <==> forall j: nat | k <= j < n :: U16(s.blocks[t], 2 * j) == 0
    decreases n
  {
    if n == k {
    } else {
      LastEntries(s, t, k, n - 1);
      assert Slot(s, t, n - 1) == U16(s.blocks[t], 2 * (n - 1));
    }
  }

  /** Of a table with ten entries the last five stay allocated. */
  lemma ArrayAsWrittenExample()
    ensures var table := PutFields(ZERO, 0, [11, 12, 13, 14, 15, 16, 17, 18, 19, 20]);
            ArrayAsWritten(table, 5) == [11, 12, 13, 14, 15] && U16(table, 2 * 5) == 16
  {
    var vals := [11, 12, 13, 14, 15, 16, 17, 18, 19, 20];
    PutFieldsAt(ZERO, 0, vals);
    var table := PutFields(ZERO, 0, vals);
    forall k: nat | k < 6 ensures U16(table, 2 * k) == vals[k] {
    }
    assert ArrayAsWritten(table, 1) == [11];
    assert ArrayAsWritten(table, 2) == [11, 12];
    assert ArrayAsWritten(table, 3) == [11, 12, 13];
    assert ArrayAsWritten(table, 4) == [11, 12, 13, 14];
  }
}
