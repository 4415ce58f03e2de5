/** The map from file blocks to volume blocks (src/disque/filesystem.c:486-645): ten direct
    blocks, one table of ten, and one table of ten tables of ten. */
module BlockMap {
  import opened Bytes
  import opened Codec
  import opened FreeList

  const MAX_FBLOC: nat := 120

  // ------------------------------------------------------- the tree of pointers

  /** How many pointers a block of this kind holds. */
  function Arity(o: Owner): nat {
    if o.Root? then NB_BLOCS + 2
    else if o.Owned? && !o.level.Data? then NB_BLOCS
    else 0
  }

  /** Byte offset of pointer number `c`. */
  function Offset(o: Owner, c: nat): nat {
    if !o.Root? then 2 * c else if c < NB_BLOCS then 5 + 2 * c else 7 + 2 * c
  }

  function ChildLevel(o: Owner, c: nat): Level {
    if o.Root? then (if c < NB_BLOCS then Data else if c == NB_BLOCS then Indirect else Double)
    else if o.Owned? && o.level.Double? then Second
    else Data
  }

  /** What pointer `c` of block `b`, owned as `o`, must lead to. */
  function Child(o: Owner, b: nat, c: nat): Owner {
    Owned(ChildLevel(o, c), b, c)
  }

  function Slot(s: State, b: nat, c: nat): nat
    requires b < |s.blocks| == |s.owner| && c < Arity(s.owner[b])
  {
    U16(s.blocks[b], Offset(s.owner[b], c))
  }

  ghost predicate SlotOK(s: State, b: nat, c: nat)
    requires b < |s.blocks| == |s.owner| && c < Arity(s.owner[b])
  {
    var p := Slot(s, b, c);
    p == 0 || (p < |s.owner| && s.owner[p] == Child(s.owner[b], b, c))
  }

  ghost predicate ParentOK(s: State, p: nat)
    requires p < |s.blocks| == |s.owner|
  {
    var o := s.owner[p];
    o.Owned? ==>
      && p != 0 && o.parent < |s.owner| && o.slot < Arity(s.owner[o.parent])
      && o == Child(s.owner[o.parent], o.parent, o.slot)
      && Slot(s, o.parent, o.slot) == p
  }

  /** Pointers and ownership agree in both directions. */
  ghost predicate TreeInv(s: State) {
    && |s.blocks| == |s.owner|
    && (forall b: nat | b < |s.owner| && s.owner[b].Root? :: IsInode(s.blocks[b]))
    && (forall b: nat, c: nat | b < |s.owner| && c < Arity(s.owner[b]) :: SlotOK(s, b, c))
    && (forall p: nat | p < |s.owner| :: ParentOK(s, p))
  }

  predicate IsRoot(s: State, i: nat) {
    i < |s.owner| && s.owner[i].Root?
  }

  predicate IsData(s: State, b: nat) {
    b < |s.owner| && s.owner[b].Owned? && s.owner[b].level.Data?
  }

  // -------------------------------------------------------------- reading the map

  function Ptr(s: State, b: nat, off: nat): nat {
    if b < |s.blocks| && off <= 510 then U16(s.blocks[b], off) else 0
  }

  /** `vbloc_of_fbloc`: the volume block of file block `f`, 0 for a hole. */
  function Vbloc(s: State, i: nat, f: nat): nat {
    if f < NB_BLOCS then Ptr(s, i, 5 + 2 * f)
    else if f < 2 * NB_BLOCS then
      var t := Ptr(s, i, 27);
      if t == 0 then 0 else Ptr(s, t, 2 * (f - NB_BLOCS))
    else if f < MAX_FBLOC then
      var t := Ptr(s, i, 29);
      if t == 0 then 0
      else
        var u := Ptr(s, t, 2 * (f / 10 - 2));
        if u == 0 then 0 else Ptr(s, u, 2 * (f % 10))
    else 0
  }

  /** The contents of file block `f`: a hole reads as zeros. */
  function FBlock(s: State, i: nat, f: nat): Block {
    var b := Vbloc(s, i, f);
    if b == 0 || |s.blocks| <= b then ZERO else s.blocks[b]
  }

  /** The blocks on the way from an inode to one of its file blocks. */
  datatype Place = Datum(fbloc: nat) | IndirectTable | DoubleTable | SecondTable(k: nat)

  /** The places on the way to file block `f`. */
  function Way(f: nat): set<Place> {
    if f < NB_BLOCS then {Datum(f)}
    else if f < 2 * NB_BLOCS then {Datum(f), IndirectTable}
    else {Datum(f), DoubleTable, SecondTable(f / 10 - 2)}
  }

  /** Whether a place of inode `i` has its block. */
  predicate Present(s: State, i: nat, p: Place) {
    match p
    case Datum(f) => Vbloc(s, i, f) != 0
    case IndirectTable => Ptr(s, i, 27) != 0
    case DoubleTable => Ptr(s, i, 29) != 0
    case SecondTable(k) => k < NB_BLOCS && Ptr(s, i, 29) != 0 && Ptr(s, Ptr(s, i, 29), 2 * k) != 0
  }

  function Taille(s: State, i: nat): nat {
    Ptr(s, i, 3)
  }

  /** One step towards the inode; inodes and unowned blocks stay where they are. */
  function Up(owner: seq<Owner>, b: nat): nat {
    if b < |owner| && owner[b].Owned? then owner[b].parent else b
  }

  /** The inode whose tree `b` hangs in: the trees are at most three pointers deep. */
  function RootOf(owner: seq<Owner>, b: nat): nat {
    Up(owner, Up(owner, Up(owner, b)))
  }

  /** The inode and file block a data block belongs to, found by climbing to the root. */
  ghost function Locate(s: State, b: nat): (nat, nat)
    requires TreeInv(s) && IsData(s, b)
  {
    assert ParentOK(s, b);
    var p := s.owner[b].parent;
    assert ParentOK(s, p);
    if s.owner[p].Root? then (p, s.owner[b].slot)
    else if s.owner[p].level.Indirect? then (s.owner[p].parent, NB_BLOCS + s.owner[b].slot)
    else
      assert ParentOK(s, s.owner[p].parent);
      (s.owner[s.owner[p].parent].parent, 2 * NB_BLOCS + 10 * s.owner[p].slot + s.owner[b].slot)
  }

  /** Every mapped block is a data block, and climbing from it gives back inode and index. */
  lemma VblocLocated(s: State, i: nat, f: nat)
    requires TreeInv(s) && IsRoot(s, i)
    ensures Vbloc(s, i, f) != 0 ==>
              && f < MAX_FBLOC
              && IsData(s, Vbloc(s, i, f))
              && Locate(s, Vbloc(s, i, f)) == (i, f)
  {
    if f < NB_BLOCS {
      assert SlotOK(s, i, f);
    } else if f < 2 * NB_BLOCS {
      assert SlotOK(s, i, NB_BLOCS);
      var t := Slot(s, i, NB_BLOCS);
      if t != 0 {
        assert SlotOK(s, t, f - NB_BLOCS);
      }
    } else if f < MAX_FBLOC {
      assert SlotOK(s, i, NB_BLOCS + 1);
      var t := Slot(s, i, NB_BLOCS + 1);
      if t != 0 {
        var k := f / 10 - 2;
        assert SlotOK(s, t, k);
        var u := Slot(s, t, k);
        if u != 0 {
          assert SlotOK(s, u, f % 10);
        }
      }
    }
  }

  /** Every data block is mapped, by exactly the inode and index found by climbing. */
  lemma DataMapped(s: State, b: nat)
    requires TreeInv(s) && IsData(s, b)
    ensures var (i, f) := Locate(s, b); IsRoot(s, i) && f < MAX_FBLOC && Vbloc(s, i, f) == b && b != 0
  {
    assert ParentOK(s, b);
    var p := s.owner[b].parent;
    assert ParentOK(s, p);
    if s.owner[p].Owned? {
      assert ParentOK(s, s.owner[p].parent);
    }
  }

  /** No block serves two places: the map is injective over all inodes and indices. */
  lemma MapInjective(s: State, i: nat, f: nat, j: nat, g: nat)
    requires TreeInv(s) && IsRoot(s, i) && IsRoot(s, j)
    requires Vbloc(s, i, f) == Vbloc(s, j, g) != 0
    ensures i == j && f == g
  {
    VblocLocated(s, i, f);
    VblocLocated(s, j, g);
  }

  // --------------------------------------------------------- storing one pointer

  function SetPointer(n: Inode, c: nat, v: nat): Inode
    requires InodeValid(n) && c < NB_BLOCS + 2
  {
    if c < NB_BLOCS then n.(direct := n.direct[c := v])
    else if c == NB_BLOCS then n.(indirect := v)
    else n.(double := v)
  }

  /** The block with pointer `c` set: inodes are re-encoded, tables patched. */
  function WithPointer(b: Block, o: Owner, c: nat, v: nat): Block
    requires c < Arity(o) && v < 65536 && (o.Root? ==> IsInode(b))
  {
    if o.Root? then EncodeInode(SetPointer(InodeOf(b), c, v)) else Put16(b, 2 * c, v)
  }

  lemma WithPointerAt(b: Block, o: Owner, c: nat, v: nat)
    requires c < Arity(o) && v < 65536 && (o.Root? ==> IsInode(b))
    ensures forall k: nat | k < Arity(o) ::
              U16(WithPointer(b, o, c, v), Offset(o, k)) == if k == c then v else U16(b, Offset(o, k))
    ensures o.Root? ==> IsInode(WithPointer(b, o, c, v))
    ensures o.Root? ==> WithPointer(b, o, c, v)[2] == b[2] && U16(WithPointer(b, o, c, v), 3) == U16(b, 3)
  {
    if o.Root? {
      var n := SetPointer(InodeOf(b), c, v);
      EncodedInodeAt(n);
      forall k: nat | k < Arity(o)
        ensures U16(WithPointer(b, o, c, v), Offset(o, k)) == if k == c then v else U16(b, Offset(o, k))
      {
        if k < NB_BLOCS {
          assert n.direct[k] == if k == c then v else InodeOf(b).direct[k];
        }
      }
    } else {
      Put16At(b, 2 * c, v);
    }
  }

  /** The block with the file size raised to at least `f + 1`. */
  function WithTaille(b: Block, f: nat): Block
    requires IsInode(b) && f < MAX_FBLOC
  {
    var n := InodeOf(b);
    EncodeInode(if n.taille <= f then n.(taille := f + 1) else n)
  }

  lemma WithTailleAt(b: Block, f: nat)
    requires IsInode(b) && f < MAX_FBLOC
    ensures IsInode(WithTaille(b, f)) && WithTaille(b, f)[2] == b[2]
    ensures U16(WithTaille(b, f), 3) == if U16(b, 3) <= f then f + 1 else U16(b, 3)
    ensures forall k: nat | k < Arity(Root) :: U16(WithTaille(b, f), Offset(Root, k)) == U16(b, Offset(Root, k))
  {
    var n := InodeOf(b);
    var n' := if n.taille <= f then n.(taille := f + 1) else n;
    EncodedInodeAt(n');
    forall k: nat | k < Arity(Root)
      ensures U16(WithTaille(b, f), Offset(Root, k)) == U16(b, Offset(Root, k))
    {
      if k < NB_BLOCS {
        assert n'.direct[k] == U16(b, 5 + 2 * k);
      }
    }
  }
}
