/** Whole runs of the block layer: what holds after any sequence of operations on a
    freshly formatted volume, and what a file's life gives back. */
module Runs {
  import opened Bytes
  import opened Codec
  import opened FreeList
  import opened BlockMap
  import opened Allocate
  import opened Lifecycle
  import opened Delete

  datatype Op =
    | CreateOp(kind: FileType)
    | AllocateOp(inumber: nat, fbloc: nat)
    | StoreOp(inumber: nat, fbloc: nat, data: Block)
    | DeleteOp(inumber: nat)

  /** One operation. On a block that is not an inode the source stops on its magic
      assertion and the volume stays as it is. */
  ghost function Step(s: State, op: Op): State
    requires Inv(s)
  {
    match op
    case CreateOp(kind) => Create(s, kind).0
    case AllocateOp(i, f) => if IsRoot(s, i) then Alloc(s, i, f).0 else s
    case StoreOp(i, f, data) => StoreAt(s, i, f, data)
    case DeleteOp(i) => if IsRoot(s, i) then DeleteInode(s, i) else s
  }

  ghost function StoreAt(s: State, i: nat, f: nat, data: Block): State
    requires Inv(s)
  {
    if IsRoot(s, i) && Vbloc(s, i, f) != 0 then
      VblocLocated(s, i, f);
      Store(s, Vbloc(s, i, f), data)
    else s
  }

  lemma StoreAtKeeps(s: State, i: nat, f: nat, data: Block)
    requires Inv(s)
    ensures Inv(StoreAt(s, i, f, data))
    ensures StoreAt(s, i, f, data).owner == s.owner && StoreAt(s, i, f, data).sb == s.sb
    ensures forall j: nat, g: nat | IsRoot(s, j) :: Vbloc(StoreAt(s, i, f, data), j, g) == Vbloc(s, j, g)
    ensures forall j: nat, g: nat | IsRoot(s, j) && Vbloc(s, i, f) != 0 && IsRoot(s, i) ::
              FBlock(StoreAt(s, i, f, data), j, g) == if j == i && g == f then data else FBlock(s, j, g)
  {
    if IsRoot(s, i) && Vbloc(s, i, f) != 0 {
      VblocLocated(s, i, f);
      StoreInv(s, Vbloc(s, i, f), data);
      StoreCorrect(s, Vbloc(s, i, f), data);
    }
  }

  lemma AllocKeeps(s: State, i: nat, f: nat)
    requires Inv(s) && IsRoot(s, i)
    ensures Inv(Alloc(s, i, f).0)
  {
    AllocCorrect(s, i, f);
    AllocatedInv(s, i, f, Alloc(s, i, f).0, Alloc(s, i, f).1);
  }

  lemma StepKeeps(s: State, op: Op)
    requires Inv(s)
    ensures Inv(Step(s, op))
  {
    match op
    case CreateOp(kind) => CreateKeeps(s, kind);
    case AllocateOp(i, f) => if IsRoot(s, i) { AllocKeeps(s, i, f); }
    case StoreOp(i, f, data) => StoreAtKeeps(s, i, f, data);
    case DeleteOp(i) => if IsRoot(s, i) { DeleteKeeps(s, i); }
  }

  ghost function Execute(s: State, ops: seq<Op>): (r: State)
    requires Inv(s)
    ensures Inv(r)
    decreases |ops|
  {
    if ops == [] then s
    else
      StepKeeps(s, ops[0]);
      Execute(Step(s, ops[0]), ops[1..])
  }

  // ------------------------------------------------------------- the partition

  /** Reached from an inode as file block `f`. */
  ghost predicate Mapped(s: State, b: nat) {
    b != 0 && exists i: nat, f: nat :: IsRoot(s, i) && Vbloc(s, i, f) == b
  }

  ghost predicate TableOf(s: State, i: nat, b: nat) {
    && IsRoot(s, i) && b != 0
    && (Ptr(s, i, 27) == b || Ptr(s, i, 29) == b
        || (Ptr(s, i, 29) != 0 && exists k: nat | k < NB_BLOCS :: SecondEntry(s, i, k) == b))
  }

  function SecondEntry(s: State, i: nat, k: nat): nat {
    Ptr(s, Ptr(s, i, 29), 2 * k)
  }

  /** Reached from an inode as a table of pointers. */
  ghost predicate ReachedAsTable(s: State, b: nat) {
    exists i: nat :: TableOf(s, i, b)
  }

  /** In how many ways block `b` is in use, the free list counting as a use. */
  ghost function Uses(s: State, b: nat): nat {
    (if b == 0 then 1 else 0) + (if Has(s.runs, b) then 1 else 0) + (if IsRoot(s, b) then 1 else 0)
    + (if ReachedAsTable(s, b) then 1 else 0) + (if Mapped(s, b) then 1 else 0)
  }

  lemma MappedIsData(s: State, b: nat)
    requires TreeInv(s)
    ensures Mapped(s, b) <==> IsData(s, b)
  {
    if IsData(s, b) {
      DataMapped(s, b);
      var (i, f) := Locate(s, b);
      assert IsRoot(s, i) && Vbloc(s, i, f) == b;
    }
    if Mapped(s, b) {
      var i: nat, f: nat :| IsRoot(s, i) && Vbloc(s, i, f) == b;
      VblocLocated(s, i, f);
    }
  }

  ghost predicate IsTable(s: State, b: nat) {
    b < |s.owner| && s.owner[b].Owned? && !s.owner[b].level.Data?
  }

  lemma TableOfIsTable(s: State, i: nat, b: nat)
    requires TreeInv(s) && TableOf(s, i, b)
    ensures IsTable(s, b)
  {
    assert SlotOK(s, i, NB_BLOCS) && SlotOK(s, i, NB_BLOCS + 1);
    var d := Slot(s, i, NB_BLOCS + 1);
    if Ptr(s, i, 27) != b && d != b {
      var k: nat :| k < NB_BLOCS && SecondEntry(s, i, k) == b;
      assert SlotOK(s, d, k);
    }
  }

  lemma TableIsTable(s: State, b: nat)
    requires TreeInv(s)
    ensures ReachedAsTable(s, b) <==> IsTable(s, b)
  {
    if ReachedAsTable(s, b) {
      var i: nat :| TableOf(s, i, b);
      TableOfIsTable(s, i, b);
    }
    if IsTable(s, b) {
      assert ParentOK(s, b);
      var p := s.owner[b].parent;
      if s.owner[b].level.Second? {
        assert ParentOK(s, p);
        var i := s.owner[p].parent;
        assert SecondEntry(s, i, s.owner[b].slot) == b;
        assert TableOf(s, i, b);
      } else {
        assert TableOf(s, p, b);
      }
    }
  }

  /** The block in a place of inode `i`, 0 for none. */
  function BlockIn(s: State, i: nat, p: Place): nat {
    match p
    case Datum(f) => Vbloc(s, i, f)
    case IndirectTable => Ptr(s, i, 27)
    case DoubleTable => Ptr(s, i, 29)
    case SecondTable(k) => if k < NB_BLOCS && Ptr(s, i, 29) != 0 then SecondEntry(s, i, k) else 0
  }

  /** The inode and the place a block of a tree belongs to. */
  ghost function PlaceOf(s: State, b: nat): (nat, Place)
    requires TreeInv(s) && b < |s.owner| && s.owner[b].Owned?
  {
    assert ParentOK(s, b);
    var p := s.owner[b].parent;
    if s.owner[b].level.Data? then (Locate(s, b).0, Datum(Locate(s, b).1))
    else if s.owner[b].level.Indirect? then (p, IndirectTable)
    else if s.owner[b].level.Double? then (p, DoubleTable)
    else
      assert ParentOK(s, p);
      (s.owner[p].parent, SecondTable(s.owner[b].slot))
  }

  lemma PlaceFound(s: State, i: nat, p: Place)
    requires TreeInv(s) && IsRoot(s, i) && BlockIn(s, i, p) != 0
    ensures var b := BlockIn(s, i, p); b < |s.owner| && s.owner[b].Owned? && PlaceOf(s, b) == (i, p)
  {
    match p
    case Datum(f) => VblocLocated(s, i, f);
    case IndirectTable => assert SlotOK(s, i, NB_BLOCS);
    case DoubleTable => assert SlotOK(s, i, NB_BLOCS + 1);
    case SecondTable(k) =>
      assert SlotOK(s, i, NB_BLOCS + 1);
      assert SlotOK(s, Slot(s, i, NB_BLOCS + 1), k);
  }

  /** Block `b` is in one place of one inode only. */
  ghost predicate InOnePlace(s: State, b: nat) {
    forall i: nat, p: Place, j: nat, q: Place
      | IsRoot(s, i) && IsRoot(s, j) && BlockIn(s, i, p) == BlockIn(s, j, q) == b != 0 :: i == j && p == q
  }

  lemma OnePlace(s: State, b: nat)
    requires TreeInv(s)
    ensures InOnePlace(s, b)
  {
    forall i: nat, p: Place, j: nat, q: Place
      | IsRoot(s, i) && IsRoot(s, j) && BlockIn(s, i, p) == BlockIn(s, j, q) == b != 0
      ensures i == j && p == q
    {
      PlaceFound(s, i, p);
      PlaceFound(s, j, q);
    }
  }

  /** After any run on a formatted volume, every block has exactly one use: superblock,
      met when walking the free list, inode, table reached from an inode, or data block
      reached from an inode; and a table or data block is reached in one way only, over all
      inodes. Nothing is shared and nothing is lost. */
  lemma OwnershipPartition(blocks: seq<Block>, name: seq<byte>, ops: seq<Op>, b: nat)
    requires 2 <= |blocks| <= 65535
    requires |name| < SUPER_SZ_NAME && forall k | 0 <= k < |name| :: name[k] != 0
    requires b < |blocks|
    ensures Inv(Format(blocks, name)) && |Execute(Format(blocks, name), ops).blocks| == |blocks|
    ensures Uses(Execute(Format(blocks, name), ops), b) == 1
    ensures InOnePlace(Execute(Format(blocks, name), ops), b)
  {
    FormatCorrect(blocks, name);
    ExecuteSize(Format(blocks, name), ops);
    PartitionOf(Execute(Format(blocks, name), ops), b);
    OnePlace(Execute(Format(blocks, name), ops), b);
  }

  lemma {:induction false} ExecuteSize(s: State, ops: seq<Op>)
    requires Inv(s)
    ensures |Execute(s, ops).blocks| == |s.blocks|
    decreases |ops|
  {
    if ops == [] {
    } else {
      StepKeeps(s, ops[0]);
      StepSize(s, ops[0]);
      ExecuteSize(Step(s, ops[0]), ops[1..]);
    }
  }

  lemma StepSize(s: State, op: Op)
    requires Inv(s)
    ensures |Step(s, op).blocks| == |s.blocks|
  {
    match op
    case CreateOp(kind) => CreateCorrect(s, kind);
    case AllocateOp(i, f) => if IsRoot(s, i) { AllocCorrect(s, i, f); }
    case StoreOp(i, f, data) => StoreAtKeeps(s, i, f, data);
    case DeleteOp(i) => if IsRoot(s, i) { DeletePruned(s, i); }
  }

  lemma PartitionOf(s: State, b: nat)
    requires Inv(s) && b < |s.blocks|
    ensures Uses(s, b) == 1
  {
    MappedIsData(s, b);
    TableIsTable(s, b);
    assert ParentOK(s, b);
    assert Has(s.runs, b) <==> s.owner[b].Unused?;
  }

  /** After any run the superblock in memory is the one on the disk, it counts the free
      blocks right, and every header met on the list carries the magic that
      `read_free_bloc` asserts. */
  lemma FreeListAfterRun(blocks: seq<Block>, name: seq<byte>, ops: seq<Op>, at: nat)
    requires 2 <= |blocks| <= 65535
    requires |name| < SUPER_SZ_NAME && forall k | 0 <= k < |name| :: name[k] != 0
    ensures Inv(Format(blocks, name))
    ensures var s := Execute(Format(blocks, name), ops);
            && DecodeSuper(s.blocks[0]) == Some(s.sb)
            && s.sb.nbFree == |FreeSet(s.runs)|
            && (s.sb.nbFree != 0 ==> s.sb.firstFree in Heads(s.runs))
            && (at in Heads(s.runs) ==> at < |s.blocks| && U16(s.blocks[at], 0) == FREE_MAGIC)
  {
    FormatCorrect(blocks, name);
    var s := Execute(Format(blocks, name), ops);
    SuperRoundTrip(s.sb);
    FreeCount(s);
    if at in Heads(s.runs) {
      FreeMagicHolds(s.blocks, s.runs, at);
    }
  }

  // -------------------------------------------------------- the life of one file

  /** Allocating file block `fbloc`, and filling it if `data` is given. */
  datatype Use = Use(fbloc: nat, data: Option<Block>)

  ghost function Apply(s: State, i: nat, u: Use): State
    requires Inv(s) && IsRoot(s, i)
  {
    AllocKeeps(s, i, u.fbloc);
    var s1 := Alloc(s, i, u.fbloc).0;
    if u.data.Some? then StoreAt(s1, i, u.fbloc, u.data.value) else s1
  }

  /** Blocks in use stay as they are; new ones hang under `i`. */
  ghost predicate OnlyUnder(before: seq<Owner>, after: seq<Owner>, i: nat) {
    && |before| == |after|
    && (forall k: nat | k < |before| && !before[k].Unused? :: after[k] == before[k])
    && (forall k: nat | k < |before| && before[k].Unused? && !after[k].Unused? :: RootOf(after, k) == i)
  }

  lemma ApplyCorrect(s: State, i: nat, u: Use)
    requires Inv(s) && IsRoot(s, i)
    ensures Inv(Apply(s, i, u)) && OnlyUnder(s.owner, Apply(s, i, u).owner, i) && IsRoot(Apply(s, i, u), i)
    ensures forall j: nat, g: nat | IsRoot(s, j) && j != i :: FBlock(Apply(s, i, u), j, g) == FBlock(s, j, g)
  {
    AllocKeeps(s, i, u.fbloc);
    AllocCorrect(s, i, u.fbloc);
    var (s1, b) := Alloc(s, i, u.fbloc);
    if u.data.Some? {
      StoreAtKeeps(s1, i, u.fbloc, u.data.value);
    }
    forall j: nat, g: nat | IsRoot(s, j) && j != i ensures FBlock(Apply(s, i, u), j, g) == FBlock(s, j, g) {
      ViewKept(s, s1, j, g);
    }
  }

  ghost function ApplyAll(s: State, i: nat, us: seq<Use>): State
    requires Inv(s) && IsRoot(s, i)
    decreases |us|
  {
    if us == [] then s
    else
      ApplyCorrect(s, i, us[0]);
      ApplyAll(Apply(s, i, us[0]), i, us[1..])
  }

  lemma OnlyUnderTransitive(s: State, s1: State, s2: State, i: nat)
    requires TreeInv(s1) && OnlyUnder(s.owner, s1.owner, i) && OnlyUnder(s1.owner, s2.owner, i)
    ensures OnlyUnder(s.owner, s2.owner, i)
  {
    forall k: nat | k < |s.owner| && s.owner[k].Unused? && !s2.owner[k].Unused?
      ensures RootOf(s2.owner, k) == i
    {
      if !s1.owner[k].Unused? {
        RootStays(s1, s2.owner, k);
      }
    }
  }

  lemma RootStays(s: State, after: seq<Owner>, k: nat)
    requires TreeInv(s) && k < |s.owner| == |after| && !s.owner[k].Unused?
    requires forall x: nat | x < |s.owner| && !s.owner[x].Unused? :: after[x] == s.owner[x]
    ensures RootOf(after, k) == RootOf(s.owner, k)
    ensures RootOf(s.owner, k) < |s.owner| && !s.owner[RootOf(s.owner, k)].Unused?
  {
    assert ParentOK(s, k);
    assert ParentOK(s, Up(s.owner, k));
    assert ParentOK(s, Up(s.owner, Up(s.owner, k)));
  }

  lemma {:induction false} ApplyAllCorrect(s: State, i: nat, us: seq<Use>)
    requires Inv(s) && IsRoot(s, i)
    ensures Inv(ApplyAll(s, i, us)) && OnlyUnder(s.owner, ApplyAll(s, i, us).owner, i) && IsRoot(ApplyAll(s, i, us), i)
    ensures forall j: nat, g: nat | IsRoot(s, j) && j != i :: FBlock(ApplyAll(s, i, us), j, g) == FBlock(s, j, g)
    decreases |us|
  {
    if us == [] {
    } else {
      ApplyCorrect(s, i, us[0]);
      var s1 := Apply(s, i, us[0]);
      ApplyAllCorrect(s1, i, us[1..]);
      OnlyUnderTransitive(s, s1, ApplyAll(s1, i, us[1..]), i);
    }
  }

  /** Creating a file, allocating and filling any of its blocks, sparse or not, and
      deleting it gives back exactly the blocks that were free before, and every other
      file reads as it did. */
  lemma LifeConserves(s: State, kind: FileType, us: seq<Use>)
    requires Inv(s) && FreeSet(s.runs) != {}
    ensures Inv(Create(s, kind).0) && IsRoot(Create(s, kind).0, Create(s, kind).1)
    ensures var (s1, i) := Create(s, kind);
            var s2 := ApplyAll(s1, i, us);
            Inv(s2) && IsRoot(s2, i)
    ensures var (s1, i) := Create(s, kind);
            var s3 := DeleteInode(ApplyAll(s1, i, us), i);
            && Inv(s3) && s3.owner == s.owner
            && FreeSet(s3.runs) == FreeSet(s.runs) && s3.sb.nbFree == s.sb.nbFree
            && forall j: nat, g: nat | IsRoot(s, j) :: FBlock(s3, j, g) == FBlock(s, j, g)
  {
    hide Vbloc, FBlock, Present, TreeList, Create, DeleteInode, ApplyAll;
    CreateKeeps(s, kind);
    CreateCorrect(s, kind);
    var (s1, i) := Create(s, kind);
    ApplyAllCorrect(s1, i, us);
    var s2 := ApplyAll(s1, i, us);
    DeletePruned(s2, i);
    DeleteKeeps(s2, i);
    DeleteCorrect(s2, i);
    LifeOwners(s, i, s1, s2, DeleteInode(s2, i));
    SameOwnersSameFree(s, DeleteInode(s2, i));
  }

  lemma LifeOwners(s: State, i: nat, s1: State, s2: State, s3: State)
    requires TreeInv(s) && i < |s.owner| && s.owner[i].Unused? && s1.owner == s.owner[i := Root]
    requires OnlyUnder(s1.owner, s2.owner, i) && IsRoot(s2, i) && Pruned(s2, i, s3)
    ensures s3.owner == s.owner
  {
    forall k: nat | k < |s.owner| ensures s3.owner[k] == s.owner[k] {
      if !s.owner[k].Unused? {
        RootStays(s, s2.owner, k);
      } else if k == i {
        assert RootOf(s2.owner, i) == i;
      }
    }
    assert s3.owner == s.owner;
  }

  lemma SameOwnersSameFree(s: State, s': State)
    requires FreeInv(s) && FreeInv(s') && s'.owner == s.owner
    ensures s'.sb.nbFree == s.sb.nbFree && FreeSet(s'.runs) == FreeSet(s.runs)
  {
    FreeCount(s);
    FreeCount(s');
  }
}
