/** Formatting a volume, creating and deleting inodes, writing data blocks, and what any
    run of these operations keeps (src/disque/filesystem.c:126-162, 365-473). */
module Lifecycle {
  import opened Bytes
  import opened Codec
  import opened FreeList
  import opened BlockMap
  import opened Allocate

  // ------------------------------------------------------------------ formatting

  const DEFAULT_SERIAL: nat := 0x00112233

  /** `init_super`: one run holding every block but the superblock. */
  ghost function Format(blocks: seq<Block>, name: seq<byte>): State
    requires 2 <= |blocks| <= 65535
    requires |name| < SUPER_SZ_NAME && forall k | 0 <= k < |name| :: name[k] != 0
  {
    var n := |blocks|;
    var sb := Super(DEFAULT_SERIAL, 0, n - 1, 1, name);
    State(blocks[0 := EncodeSuper(sb)][1 := EncodeFree(FreeRun(n - 1, 0))], sb,
          seq(n, k => if k == 0 then Superblock else Unused), Run(1, n - 1, End))
  }

  lemma FormatCorrect(blocks: seq<Block>, name: seq<byte>)
    requires 2 <= |blocks| <= 65535
    requires |name| < SUPER_SZ_NAME && forall k | 0 <= k < |name| :: name[k] != 0
    ensures Inv(Format(blocks, name))
    ensures forall b :: b in FreeSet(Format(blocks, name).runs) <==> 1 <= b < |blocks|
    ensures DecodeSuper(Format(blocks, name).blocks[0]) == Some(Super(0x00112233, 0, |blocks| - 1, 1, name))
    ensures DecodeFree(Format(blocks, name).blocks[1]) == Some(FreeRun(|blocks| - 1, 0))
  {
    SuperRoundTrip(Super(DEFAULT_SERIAL, 0, |blocks| - 1, 1, name));
    var s := Format(blocks, name);
    FreeRoundTrip(FreeRun(|blocks| - 1, 0));
    assert s.blocks[s.runs.start] == EncodeFree(FreeRun(|blocks| - 1, 0));
    assert Chain(s.blocks, End) && Chain(s.blocks, s.runs);
    assert Total(s.runs) == |blocks| - 1;
    forall b: nat | b < |s.owner| ensures ParentOK(s, b) && (Has(s.runs, b) <==> s.owner[b].Unused?) {
      assert !Has(End, b);
    }
  }

  // -------------------------------------------------------------------- creation

  function EmptyInode(kind: FileType): Inode {
    Inode(kind, 0, [0, 0, 0, 0, 0, 0, 0, 0, 0, 0], 0, 0)
  }

  /** `create_inode`; 0 when the volume is full. */
  ghost function Create(s: State, kind: FileType): (State, nat)
    requires FreeInv(s)
  {
    var (s1, b) := NewBloc(s);
    if b == 0 then (s, 0)
    else (State(s1.blocks[b := EncodeInode(EmptyInode(kind))], s1.sb, s1.owner[b := Root], s1.runs), b)
  }

  /** `s'` is `s` with a new, empty inode in block `b`. */
  ghost predicate CreateShape(s: State, kind: FileType, b: nat, s': State) {
    && |s.blocks| == |s.owner| && 0 < b < |s.owner| && s.owner[b].Unused? && s.owner[0].Superblock?
    && |s'.blocks| == |s.blocks| && s'.owner == s.owner[b := Root]
    && (forall k: nat | 0 < k < |s.owner| && !s.owner[k].Unused? :: s'.blocks[k] == s.blocks[k])
    && IsInode(s'.blocks[b]) && s'.blocks[b][2] == TypeCode(kind) && U16(s'.blocks[b], 3) == 0
    && (forall c: nat | c < Arity(Root) :: U16(s'.blocks[b], Offset(Root, c)) == 0)
  }

  lemma EmptyInodeAt(kind: FileType)
    ensures var b := EncodeInode(EmptyInode(kind));
            && IsInode(b) && b[2] == TypeCode(kind) && U16(b, 3) == 0
            && (forall c: nat | c < Arity(Root) :: U16(b, Offset(Root, c)) == 0)
  {
    var n := EmptyInode(kind);
    EncodedInodeAt(n);
    forall c: nat | c < Arity(Root) ensures U16(EncodeInode(n), Offset(Root, c)) == 0 {
      if c < NB_BLOCS {
        assert n.direct[c] == 0;
      }
    }
  }

  lemma CreateTree(s: State, kind: FileType, b: nat, s': State)
    requires TreeInv(s) && CreateShape(s, kind, b, s')
    ensures TreeInv(s')
  {
    forall k: nat, c: nat | k < |s'.owner| && c < Arity(s'.owner[k]) ensures SlotOK(s', k, c) {
      if k != b {
        assert SlotOK(s, k, c);
      } else {
        assert U16(s'.blocks[b], Offset(Root, c)) == 0;
      }
    }
    forall p: nat | p < |s'.owner| ensures ParentOK(s', p) {
      if p != b {
        assert ParentOK(s, p);
      }
    }
  }

  /** The other inodes' maps and contents are untouched; the new file is all holes. */
  lemma CreateViews(s: State, kind: FileType, b: nat, s': State, j: nat, g: nat)
    requires TreeInv(s) && CreateShape(s, kind, b, s')
    ensures IsRoot(s', j) <==> IsRoot(s, j) || j == b
    ensures IsRoot(s, j) ==> Vbloc(s', j, g) == Vbloc(s, j, g) && FBlock(s', j, g) == FBlock(s, j, g)
    ensures IsRoot(s, j) ==> s'.blocks[j] == s.blocks[j]
    ensures Vbloc(s', b, g) == 0
  {
    if g < NB_BLOCS {
      assert U16(s'.blocks[b], Offset(Root, g)) == 0;
    }
    assert U16(s'.blocks[b], Offset(Root, NB_BLOCS)) == 0;
    assert U16(s'.blocks[b], Offset(Root, NB_BLOCS + 1)) == 0;
    if IsRoot(s, j) {
      SameWalk(s, s', j, g);
      VblocLocated(s, j, g);
    }
  }

  /** A walk only reads blocks that are in use. */
  lemma SameWalk(s: State, s': State, j: nat, g: nat)
    requires TreeInv(s) && IsRoot(s, j) && |s'.blocks| == |s.blocks|
    requires forall k: nat | k < |s.owner| && s.owner[k].Root? :: s'.blocks[k] == s.blocks[k]
    requires forall k: nat | k < |s.owner| && s.owner[k].Owned? && !s.owner[k].level.Data? ::
               s'.blocks[k] == s.blocks[k]
    ensures Vbloc(s', j, g) == Vbloc(s, j, g)
  {
    if NB_BLOCS <= g < 2 * NB_BLOCS {
      IndirectWalk(s, j, g);
    } else if 2 * NB_BLOCS <= g < MAX_FBLOC {
      DoubleWalk(s, j, g);
    }
  }

  /** What a client sees of `create_inode`. */
  ghost predicate Created(s: State, kind: FileType, s': State, b: nat) {
    && (b == 0 <==> FreeSet(s.runs) == {})
    && (b == 0 ==> s' == s)
    && (b != 0 ==>
          && b in FreeSet(s.runs) && FreeSet(s'.runs) == FreeSet(s.runs) - {b}
          && s'.sb == s.sb.(nbFree := s'.sb.nbFree, firstFree := s'.sb.firstFree)
          && s'.sb.nbFree == s.sb.nbFree - 1
          && b < |s.owner| == |s.blocks| == |s'.blocks| && s'.owner == s.owner[b := Root]
          && s'.blocks[b][2] == TypeCode(kind) && Taille(s', b) == 0
          && (forall g: nat :: Vbloc(s', b, g) == 0)
          && (forall j: nat, g: nat | IsRoot(s, j) ::
                Vbloc(s', j, g) == Vbloc(s, j, g) && FBlock(s', j, g) == FBlock(s, j, g))
          && (forall j: nat | IsRoot(s, j) :: s'.blocks[j] == s.blocks[j])
          && (forall p: Place :: !Present(s', b, p))
          && (forall j: nat, p: Place | IsRoot(s, j) :: Present(s', j, p) <==> Present(s, j, p)))
  }

  /** Whether a place has its block depends only on inodes and tables. */
  lemma SamePresent(s: State, s': State, j: nat, p: Place)
    requires TreeInv(s) && IsRoot(s, j) && |s'.blocks| == |s.blocks|
    requires forall k: nat | k < |s.owner| && s.owner[k].Root? :: s'.blocks[k] == s.blocks[k]
    requires forall k: nat | k < |s.owner| && s.owner[k].Owned? && !s.owner[k].level.Data? ::
               s'.blocks[k] == s.blocks[k]
    ensures Present(s', j, p) <==> Present(s, j, p)
  {
    match p
    case Datum(f) => SameWalk(s, s', j, f);
    case IndirectTable =>
    case DoubleTable =>
    case SecondTable(k) => assert SlotOK(s, j, NB_BLOCS + 1);
  }

  lemma CreatedPresent(s: State, kind: FileType, b: nat, s': State)
    requires TreeInv(s) && CreateShape(s, kind, b, s')
    ensures forall p: Place :: !Present(s', b, p)
    ensures forall j: nat, p: Place | IsRoot(s, j) :: Present(s', j, p) <==> Present(s, j, p)
  {
    forall p: Place ensures !Present(s', b, p) {
      NothingPresent(s, kind, b, s', p);
    }
    forall j: nat, p: Place | IsRoot(s, j) ensures Present(s', j, p) <==> Present(s, j, p) {
      SamePresent(s, s', j, p);
    }
  }

  lemma NothingPresent(s: State, kind: FileType, b: nat, s': State, p: Place)
    requires TreeInv(s) && CreateShape(s, kind, b, s')
    ensures !Present(s', b, p)
  {
    assert U16(s'.blocks[b], Offset(Root, NB_BLOCS)) == 0;
    assert U16(s'.blocks[b], Offset(Root, NB_BLOCS + 1)) == 0;
    if p.Datum? {
      CreateViews(s, kind, b, s', b, p.fbloc);
    }
  }

  lemma CreatedInv(s: State, kind: FileType, b: nat, s': State)
    requires Inv(s) && CreateShape(s, kind, b, s') && Core(s')
    ensures Inv(s')
  {
    forall j: nat | IsRoot(s', j) ensures Taille(s', j) <= MAX_FBLOC {
      CreateViews(s, kind, b, s', j, 0);
    }
    forall j: nat, g: nat | IsRoot(s', j) && Vbloc(s', j, g) != 0 ensures g < Taille(s', j) {
      CreateViews(s, kind, b, s', j, g);
    }
  }

  lemma CreatedCore(s: State, kind: FileType, s1: State, b: nat, s': State)
    requires Core(s) && CreateShape(s, kind, b, s')
    requires FreeInv(s1) && s1.owner == s.owner[b := Reserved] && s'.sb == s1.sb && s'.runs == s1.runs
    requires |s1.blocks| == |s.blocks|
    requires forall k: nat | k < |s.owner| && k != b :: s'.blocks[k] == s1.blocks[k]
    ensures Core(s')
  {
    FreeInvFrame(s1, s');
    CreateTree(s, kind, b, s');
  }

  lemma CreatedViews(s: State, kind: FileType, b: nat, s': State)
    requires TreeInv(s) && CreateShape(s, kind, b, s')
    ensures forall g: nat :: Vbloc(s', b, g) == 0
    ensures forall j: nat, g: nat | IsRoot(s, j) ::
              Vbloc(s', j, g) == Vbloc(s, j, g) && FBlock(s', j, g) == FBlock(s, j, g)
    ensures forall j: nat | IsRoot(s, j) :: s'.blocks[j] == s.blocks[j]
  {
    forall g: nat ensures Vbloc(s', b, g) == 0 {
      CreateViews(s, kind, b, s', b, g);
    }
    forall j: nat, g: nat | IsRoot(s, j)
      ensures Vbloc(s', j, g) == Vbloc(s, j, g) && FBlock(s', j, g) == FBlock(s, j, g)
    {
      CreateViews(s, kind, b, s', j, g);
    }
    forall j: nat | IsRoot(s, j) ensures s'.blocks[j] == s.blocks[j] {
      CreateViews(s, kind, b, s', j, 0);
    }
  }

  lemma CreateShaped(s: State, kind: FileType, s1: State, b: nat)
    requires 0 < |s.owner| && s.owner[0].Superblock? && Taken(s, b, s1) && s.owner[b].Unused?
    ensures CreateShape(s, kind, b,
                        State(s1.blocks[b := EncodeInode(EmptyInode(kind))], s1.sb, s1.owner[b := Root], s1.runs))
  {
    EmptyInodeAt(kind);
  }

  lemma CreateKeeps(s: State, kind: FileType)
    requires Core(s)
    ensures Core(Create(s, kind).0)
    ensures Inv(s) ==> Inv(Create(s, kind).0)
  {
    NewBlocCorrect(s);
    var (s1, b) := NewBloc(s);
    if b != 0 {
      CreateShaped(s, kind, s1, b);
      CreatedCore(s, kind, s1, b, Create(s, kind).0);
      if Inv(s) {
        CreatedInv(s, kind, b, Create(s, kind).0);
      }
    }
  }

  /** `create_inode` fails exactly when nothing is free; otherwise it turns one free block
      into an inode whose file is all holes, and no other file notices. */
  lemma CreateCorrect(s: State, kind: FileType)
    requires Core(s)
    ensures Created(s, kind, Create(s, kind).0, Create(s, kind).1)
  {
    NewBlocCorrect(s);
    var (s1, b) := NewBloc(s);
    if b != 0 {
      CreateShaped(s, kind, s1, b);
      CreatedFrom(s, kind, s1, b, Create(s, kind).0);
    }
  }

  lemma CreatedFrom(s: State, kind: FileType, s1: State, b: nat, s': State)
    requires TreeInv(s) && CreateShape(s, kind, b, s')
    requires Taken(s, b, s1) && s'.sb == s1.sb && s'.runs == s1.runs
    ensures b != 0 && Created(s, kind, s', b)
  {
    hide Vbloc, FBlock, Present;
    CreatedViews(s, kind, b, s');
    CreatedPresent(s, kind, b, s');
    TakenSet(s, b, s1);
  }

  lemma TakenSet(s: State, b: nat, s1: State)
    requires Taken(s, b, s1)
    ensures b in FreeSet(s.runs) && FreeSet(s1.runs) == FreeSet(s.runs) - {b}
  {
  }

  // ------------------------------------------------------------------ data blocks

  /** `write_bloc` on a mapped data block. */
  ghost function Store(s: State, b: nat, data: Block): State
    requires b < |s.blocks|
  {
    s.(blocks := s.blocks[b := data])
  }

  /** Exactly one file block changes its contents. */
  lemma StoreCorrect(s: State, b: nat, data: Block)
    requires Core(s) && IsData(s, b)
    ensures var s' := Store(s, b, data); var (i, f) := Locate(s, b);
            && Core(s') && s'.owner == s.owner && s'.sb == s.sb
            && (forall j: nat, g: nat | IsRoot(s, j) :: Vbloc(s', j, g) == Vbloc(s, j, g))
            && (forall j: nat, g: nat | IsRoot(s, j) ::
                  FBlock(s', j, g) == if j == i && g == f then data else FBlock(s, j, g))
            && (forall j: nat | IsRoot(s, j) :: s'.blocks[j] == s.blocks[j])
  {
    var s' := Store(s, b, data);
    FreeInvFrame(s, s');
    SamePointers(s, s');
    DataMapped(s, b);
    var (i, f) := Locate(s, b);
    forall j: nat, g: nat | IsRoot(s, j)
      ensures Vbloc(s', j, g) == Vbloc(s, j, g)
      ensures FBlock(s', j, g) == if j == i && g == f then data else FBlock(s, j, g)
    {
      SameWalk(s, s', j, g);
      VblocLocated(s, j, g);
    }
  }

  lemma StorePresent(s: State, b: nat, data: Block)
    requires TreeInv(s) && IsData(s, b)
    ensures forall j: nat, p: Place | IsRoot(s, j) :: Present(Store(s, b, data), j, p) <==> Present(s, j, p)
  {
    forall j: nat, p: Place | IsRoot(s, j) ensures Present(Store(s, b, data), j, p) <==> Present(s, j, p) {
      SamePresent(s, Store(s, b, data), j, p);
    }
  }

  lemma StoreInv(s: State, b: nat, data: Block)
    requires Inv(s) && IsData(s, b)
    ensures Inv(Store(s, b, data))
  {
    StoreCorrect(s, b, data);
    var s' := Store(s, b, data);
    forall j: nat, g: nat | IsRoot(s', j) && Vbloc(s', j, g) != 0 ensures g < Taille(s', j) {
      assert Vbloc(s', j, g) == Vbloc(s, j, g);
    }
    forall j: nat | IsRoot(s', j) ensures Taille(s', j) <= MAX_FBLOC {
      assert IsRoot(s, j);
    }
  }
}
