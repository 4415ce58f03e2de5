/** `allocate_vbloc_of_fbloc` (src/disque/filesystem.c:492-645): what it keeps, what it
    maps, and that it never disturbs another block of any file. */
module Allocate {
  import opened Bytes
  import opened Codec
  import opened FreeList
  import opened BlockMap

  /** No block is left between the free list and its user; only block 0 is the superblock. */
  ghost predicate Settled(s: State) {
    forall b: nat | 0 < b < |s.owner| :: !s.owner[b].Reserved? && !s.owner[b].Superblock?
  }

  ghost predicate Core(s: State) {
    FreeInv(s) && TreeInv(s) && Settled(s)
  }

  /** The recorded size covers every mapped block. */
  ghost predicate TailleInv(s: State) {
    forall i: nat, f: nat | IsRoot(s, i) && Vbloc(s, i, f) != 0 :: f < Taille(s, i)
  }

  ghost predicate Inv(s: State) {
    && Core(s) && TailleInv(s)
    && forall i: nat | IsRoot(s, i) :: Taille(s, i) <= MAX_FBLOC
  }

  // ---------------------------------------------------------- attaching one block

  /** Take a free block, clear it, and record it in pointer `c` of block `p`. */
  ghost function Grow(s: State, p: nat, c: nat): (State, nat)
    requires FreeInv(s) && p < |s.owner| && c < Arity(s.owner[p])
    requires s.owner[p].Root? ==> IsInode(s.blocks[p])
  {
    var (s1, b) := NewBloc(s);
    if b == 0 then (s, 0) else (Attach(s, p, c, s1, b), b)
  }

  /** `s1` with block `b`, just taken from the free list of `s`, hung from pointer `c` of `p`. */
  ghost function Attach(s: State, p: nat, c: nat, s1: State, b: nat): State
    requires |s.blocks| == |s.owner| == |s1.blocks| == |s1.owner| && p < |s.owner| && b < |s.owner| <= 65535
    requires c < Arity(s.owner[p]) && (s.owner[p].Root? ==> IsInode(s.blocks[p]))
  {
    State(s1.blocks[b := ZERO][p := WithPointer(s.blocks[p], s.owner[p], c, b)],
          s1.sb, s1.owner[b := Child(s.owner[p], p, c)], s1.runs)
  }

  /** What attaching `b` leaves, described without the encoders. */
  ghost predicate GrowShape(s: State, p: nat, c: nat, b: nat, s': State)
    requires |s.blocks| == |s.owner| && p < |s.owner| && c < Arity(s.owner[p])
  {
    var o := s.owner[p];
    && 0 < b < |s.owner| && s.owner[b].Unused?
    && |s'.blocks| == |s.blocks|
    && s'.owner == s.owner[b := Child(o, p, c)]
    && s'.blocks[b] == ZERO
    && (forall k: nat | 0 < k < |s.blocks| && k != p && !s.owner[k].Unused? :: s'.blocks[k] == s.blocks[k])
    && (forall k: nat | k < Arity(o) ::
          U16(s'.blocks[p], Offset(o, k)) == if k == c then b else U16(s.blocks[p], Offset(o, k)))
    && (o.Root? ==> IsInode(s'.blocks[p]) && s'.blocks[p][2] == s.blocks[p][2]
                    && U16(s'.blocks[p], 3) == U16(s.blocks[p], 3))
  }

  lemma GrowTree(s: State, p: nat, c: nat, b: nat, s': State)
    requires TreeInv(s) && 0 < |s.owner| && s.owner[0].Superblock?
    requires p < |s.owner| && c < Arity(s.owner[p]) && Slot(s, p, c) == 0
    requires GrowShape(s, p, c, b, s')
    ensures TreeInv(s')
  {
    forall k: nat, d: nat | k < |s'.owner| && d < Arity(s'.owner[k]) ensures SlotOK(s', k, d) {
      if k != b {
        assert SlotOK(s, k, d);
      }
    }
    forall q: nat | q < |s'.owner| ensures ParentOK(s', q) {
      if q != b {
        assert ParentOK(s, q);
      }
    }
  }

  /** `s'` has every block of `s` in its place, with the same contents where a file can see
      them; blocks new to the trees are empty. */
  ghost predicate Extends(s: State, s': State) {
    && |s'.blocks| == |s'.owner| == |s.owner| == |s.blocks|
    && (forall b: nat | b < |s.owner| && !s.owner[b].Unused? :: s'.owner[b] == s.owner[b])
    && (forall b: nat | b < |s.owner| && s.owner[b].Unused? && !s'.owner[b].Unused? ::
          s'.owner[b].Owned? && (s'.owner[b].level.Data? ==> s'.blocks[b] == ZERO))
    && (forall b: nat | IsData(s, b) :: s'.blocks[b] == s.blocks[b])
    && (forall b: nat | IsRoot(s, b) :: s'.blocks[b][2] == s.blocks[b][2] && Taille(s, b) <= Taille(s', b))
    && s'.sb == s.sb.(nbFree := s'.sb.nbFree, firstFree := s'.sb.firstFree)
  }

  /** Every block new to the trees of `s'` hangs under inode `i`. */
  ghost predicate NewUnder(s: State, s': State, i: nat)
    requires |s.owner| == |s'.owner|
  {
    forall k: nat | k < |s.owner| && s.owner[k].Unused? && !s'.owner[k].Unused? :: RootOf(s'.owner, k) == i
  }

  /** A table of this kind lies on the way to file block `f`. */
  predicate LevelOnWay(o: Owner, f: nat) {
    o.Owned? &&
    (match o.level
     case Data => true
     case Indirect => NB_BLOCS <= f < 2 * NB_BLOCS
     case Double => 2 * NB_BLOCS <= f
     case Second => 2 * NB_BLOCS <= f && o.slot == f / 10 - 2)
  }

  /** Every table new to the trees of `s'` lies on the way to file block `f`. */
  ghost predicate NewOnWay(s: State, s': State, f: nat)
    requires |s.owner| == |s'.owner|
  {
    forall k: nat | k < |s.owner| && s.owner[k].Unused? && !s'.owner[k].Unused? :: LevelOnWay(s'.owner[k], f)
  }

  lemma ExtendsTransitive(s: State, s1: State, s2: State)
    requires Extends(s, s1) && Extends(s1, s2)
    ensures Extends(s, s2)
  {
    forall b: nat | b < |s.owner| && s.owner[b].Unused? && !s2.owner[b].Unused?
      ensures s2.owner[b].Owned? && (s2.owner[b].level.Data? ==> s2.blocks[b] == ZERO)
    {
      if !s1.owner[b].Unused? {
        assert IsData(s1, b) <==> s1.owner[b].level.Data?;
      }
    }
    forall b: nat | IsData(s, b) ensures s2.blocks[b] == s.blocks[b] {
      assert IsData(s1, b);
    }
    forall b: nat | IsRoot(s, b) ensures s2.blocks[b][2] == s.blocks[b][2] && Taille(s, b) <= Taille(s2, b) {
      assert IsRoot(s1, b);
    }
  }

  lemma GrowExtends(s: State, p: nat, c: nat, b: nat, s': State)
    requires |s.blocks| == |s.owner| && p < |s.owner| && c < Arity(s.owner[p])
    requires GrowShape(s, p, c, b, s') && 0 < |s.owner| && s.owner[0].Superblock?
    requires s'.sb == s.sb.(nbFree := s'.sb.nbFree, firstFree := s'.sb.firstFree)
    ensures Extends(s, s')
    ensures forall k: nat | IsRoot(s, k) :: Taille(s', k) == Taille(s, k)
  {
    forall k: nat | IsRoot(s, k) ensures s'.blocks[k][2] == s.blocks[k][2] && Taille(s', k) == Taille(s, k) {
    }
  }

  lemma AttachShape(s: State, p: nat, c: nat, s1: State, b: nat)
    requires |s.blocks| == |s.owner| <= 65535 && p < |s.owner| && c < Arity(s.owner[p])
    requires s.owner[p].Root? ==> IsInode(s.blocks[p])
    requires 0 < |s.owner| && s.owner[0].Superblock?
    requires Taken(s, b, s1) && s.owner[b].Unused?
    ensures GrowShape(s, p, c, b, Attach(s, p, c, s1, b))
    ensures forall k: nat | k < |s.owner| && k != b && k != p :: Attach(s, p, c, s1, b).blocks[k] == s1.blocks[k]
  {
    WithPointerAt(s.blocks[p], s.owner[p], c, b);
  }

  lemma AttachFree(s: State, p: nat, c: nat, s1: State, b: nat, s': State)
    requires |s.blocks| == |s.owner| && 0 < p < |s.owner| && c < Arity(s.owner[p])
    requires 0 < b < |s.owner| && s1.owner == s.owner[b := Reserved]
    requires FreeInv(s1)
    requires |s'.blocks| == |s1.blocks| && s'.sb == s1.sb && s'.runs == s1.runs
    requires s'.owner == s.owner[b := Child(s.owner[p], p, c)]
    requires forall k: nat | k < |s.owner| && k != b && k != p :: s'.blocks[k] == s1.blocks[k]
    ensures FreeInv(s')
  {
    FreeInvFrame(s1, s');
  }

  lemma GrowSettled(s: State, p: nat, c: nat, b: nat, s': State)
    requires Settled(s) && p < |s.owner| && b < |s.owner| && s'.owner == s.owner[b := Child(s.owner[p], p, c)]
    ensures Settled(s')
  {
  }

  lemma AttachKeeps(s: State, p: nat, c: nat, s1: State, b: nat, s': State)
    requires TreeInv(s) && Settled(s) && 0 < p < |s.owner| && c < Arity(s.owner[p]) && Slot(s, p, c) == 0
    requires s.owner[0].Superblock? && GrowShape(s, p, c, b, s')
    requires FreeInv(s1) && s1.owner == s.owner[b := Reserved]
    requires |s'.blocks| == |s1.blocks| && s'.sb == s1.sb && s'.runs == s1.runs
    requires forall k: nat | k < |s.owner| && k != b && k != p :: s'.blocks[k] == s1.blocks[k]
    ensures Core(s')
  {
    AttachFree(s, p, c, s1, b, s');
    GrowTree(s, p, c, b, s');
    GrowSettled(s, p, c, b, s');
  }

  lemma GrowKeeps(s: State, p: nat, c: nat)
    requires Core(s) && p < |s.owner| && c < Arity(s.owner[p]) && Slot(s, p, c) == 0
    ensures Core(Grow(s, p, c).0)
  {
    NewBlocCorrect(s);
    var (s1, b) := NewBloc(s);
    if b != 0 {
      AttachShape(s, p, c, s1, b);
      AttachKeeps(s, p, c, s1, b, Attach(s, p, c, s1, b));
    }
  }

  /** The effect of `Grow` on the counts and on everything else on the volume. */
  lemma GrowCorrect(s: State, p: nat, c: nat)
    requires Core(s) && p < |s.owner| && c < Arity(s.owner[p]) && Slot(s, p, c) == 0
    ensures var (s', b) := Grow(s, p, c);
            && Extends(s, s')
            && (b == 0 <==> s.sb.nbFree == 0)
            && (b == 0 ==> s' == s)
            && (b != 0 ==> GrowShape(s, p, c, b, s') && s'.sb.nbFree == s.sb.nbFree - 1)
            && (forall k: nat | IsRoot(s, k) :: Taille(s', k) == Taille(s, k))
  {
    NewBlocCorrect(s);
    FreeCount(s);
    var (s1, b) := NewBloc(s);
    if b != 0 {
      AttachShape(s, p, c, s1, b);
      GrowExtends(s, p, c, b, Attach(s, p, c, s1, b));
    }
  }

  /** Follow pointer `c`, attaching a new block first if there is none. */
  ghost function Ensure(s: State, p: nat, c: nat): (State, nat)
    requires Core(s) && p < |s.owner| && c < Arity(s.owner[p])
  {
    if Slot(s, p, c) != 0 then (s, Slot(s, p, c)) else Grow(s, p, c)
  }

  /** What following or attaching one pointer guarantees. */
  ghost predicate Ensured(s: State, p: nat, c: nat, s': State, b: nat) {
    && |s.blocks| == |s.owner| && p < |s.owner| && c < Arity(s.owner[p])
    && Core(s') && Extends(s, s')
    && (b == 0 <==> Slot(s, p, c) == 0 && s.sb.nbFree == 0)
    && (b == 0 ==> s' == s)
    && (b != 0 ==> b < |s'.owner| && s'.owner[b] == Child(s.owner[p], p, c) && Slot(s', p, c) == b)
    && (b != 0 && Slot(s, p, c) == 0 ==> s'.blocks[b] == ZERO)
    && s'.sb.nbFree == s.sb.nbFree - (if Slot(s, p, c) == 0 && b != 0 then 1 else 0)
    && (Slot(s, p, c) != 0 ==> s' == s)
    && (forall k: nat | IsRoot(s, k) :: Taille(s', k) == Taille(s, k))
    && (forall k: nat | k < |s.owner| && s.owner[k].Unused? && !s'.owner[k].Unused? :: k == b)
  }

  lemma EnsureCorrect(s: State, p: nat, c: nat)
    requires Core(s) && p < |s.owner| && c < Arity(s.owner[p])
    ensures Ensured(s, p, c, Ensure(s, p, c).0, Ensure(s, p, c).1)
  {
    if Slot(s, p, c) == 0 {
      GrowKeeps(s, p, c);
      GrowCorrect(s, p, c);
    } else {
      assert SlotOK(s, p, c);
    }
  }

  // ------------------------------------------------------- what a reader can see

  lemma LocateKept(s: State, s': State, b: nat)
    requires TreeInv(s) && TreeInv(s') && Extends(s, s') && IsData(s, b)
    ensures IsData(s', b) && Locate(s', b) == Locate(s, b)
  {
    assert ParentOK(s, b);
    var p := s.owner[b].parent;
    assert ParentOK(s, p);
    if s.owner[p].Owned? {
      assert ParentOK(s, s.owner[p].parent);
    }
  }

  /** Extending the trees keeps every mapping and the contents of every file block. */
  lemma ViewKept(s: State, s': State, j: nat, g: nat)
    requires TreeInv(s) && TreeInv(s') && Extends(s, s') && IsRoot(s, j)
    ensures IsRoot(s', j)
    ensures Vbloc(s, j, g) != 0 ==> Vbloc(s', j, g) == Vbloc(s, j, g)
    ensures FBlock(s', j, g) == FBlock(s, j, g)
    ensures Vbloc(s, j, g) == 0 && Vbloc(s', j, g) != 0 ==>
              var b := Vbloc(s', j, g); IsData(s', b) && s.owner[b].Unused?
  {
    VblocLocated(s, j, g);
    VblocLocated(s', j, g);
    if Vbloc(s, j, g) != 0 {
      LocateKept(s, s', Vbloc(s, j, g));
      DataMapped(s', Vbloc(s, j, g));
    } else if Vbloc(s', j, g) != 0 {
      var b := Vbloc(s', j, g);
      if !s.owner[b].Unused? {
        LocateKept(s, s', b);
        DataMapped(s, b);
      }
    }
  }

  // --------------------------------------------------------------- raising the size

  ghost function Bump(s: State, i: nat, f: nat): State
    requires IsRoot(s, i) && i < |s.blocks| && IsInode(s.blocks[i]) && f < MAX_FBLOC
  {
    s.(blocks := s.blocks[i := WithTaille(s.blocks[i], f)])
  }

  lemma BumpCorrect(s: State, i: nat, f: nat)
    requires Core(s) && IsRoot(s, i) && f < MAX_FBLOC
    ensures var s' := Bump(s, i, f);
            && Core(s') && Extends(s, s') && s'.owner == s.owner && s'.sb == s.sb
            && Taille(s', i) == (if Taille(s, i) <= f then f + 1 else Taille(s, i))
            && (forall j: nat | IsRoot(s, j) && j != i :: Taille(s', j) == Taille(s, j))
            && (forall b: nat | b < |s.owner| && b != i :: s'.blocks[b] == s.blocks[b])
  {
    var s' := Bump(s, i, f);
    WithTailleAt(s.blocks[i], f);
    FreeInvFrame(s, s');
    SamePointers(s, s');
  }

  lemma SamePointers(s: State, s': State)
    requires TreeInv(s) && |s'.blocks| == |s.blocks| && s'.owner == s.owner
    requires forall b: nat | b < |s.owner| && s.owner[b].Root? :: IsInode(s'.blocks[b])
    requires forall b: nat, c: nat | b < |s.owner| && c < Arity(s.owner[b]) :: Slot(s', b, c) == Slot(s, b, c)
    ensures TreeInv(s')
  {
    forall b: nat, c: nat | b < |s.owner| && c < Arity(s.owner[b]) ensures SlotOK(s', b, c) {
      assert SlotOK(s, b, c);
    }
    forall p: nat | p < |s.owner| ensures ParentOK(s', p) {
      assert ParentOK(s, p);
    }
  }

  // ------------------------------------------------------------- the three ranges

  /** The block holding the last pointer on the way to file block `f`, and the state after
      attaching the tables missing on that way; 0 when the volume is full. */
  ghost function Table(s: State, i: nat, f: nat): (State, nat)
    requires Core(s) && IsRoot(s, i) && f < MAX_FBLOC
  {
    if f < NB_BLOCS then (s, i)
    else if f < 2 * NB_BLOCS then Ensure(s, i, NB_BLOCS)
    else
      var (s1, t) := Ensure(s, i, NB_BLOCS + 1);
      DoubleEnsured(s, i);
      if t == 0 then (s1, 0) else Ensure(s1, t, f / 10 - 2)
  }

  /** The little needed to enter the double table. */
  lemma DoubleEnsured(s: State, i: nat)
    requires Core(s) && IsRoot(s, i)
    ensures Core(Ensure(s, i, NB_BLOCS + 1).0)
    ensures |Ensure(s, i, NB_BLOCS + 1).0.owner| == |s.owner|
    ensures var (s', t) := Ensure(s, i, NB_BLOCS + 1);
            t != 0 ==> t < |s'.owner| && s'.owner[t] == Owned(Double, i, NB_BLOCS + 1)
  {
    EnsureCorrect(s, i, NB_BLOCS + 1);
  }

  lemma DoubleThere(s: State, i: nat)
    requires TreeInv(s) && IsRoot(s, i)
    ensures var t := Slot(s, i, NB_BLOCS + 1);
            t != 0 ==> t < |s.owner| && s.owner[t] == Owned(Double, i, NB_BLOCS + 1)
  {
    assert SlotOK(s, i, NB_BLOCS + 1);
  }

  /** How many blocks are missing on the way to file block `f`, itself included. */
  function Missing(s: State, i: nat, f: nat): nat {
    var last := if Vbloc(s, i, f) == 0 then 1 else 0;
    if f < NB_BLOCS then last
    else if f < 2 * NB_BLOCS then (if Ptr(s, i, 27) == 0 then 2 else last)
    else
      var t := Ptr(s, i, 29);
      if t == 0 then 3 else if Ptr(s, t, 2 * (f / 10 - 2)) == 0 then 2 else last
  }

  /** The walk to a doubly indirect block, one table at a time. */
  lemma DoubleWalk(s: State, i: nat, f: nat)
    requires TreeInv(s) && IsRoot(s, i) && 2 * NB_BLOCS <= f < MAX_FBLOC
    ensures var t := Slot(s, i, NB_BLOCS + 1);
            && (t == 0 ==> Vbloc(s, i, f) == 0 && Missing(s, i, f) == 3)
            && (t != 0 ==>
                  && t < |s.owner| && s.owner[t] == Owned(Double, i, NB_BLOCS + 1)
                  && var u := Slot(s, t, f / 10 - 2);
                     && (u == 0 ==> Vbloc(s, i, f) == 0 && Missing(s, i, f) == 2)
                     && (u != 0 ==>
                           && u < |s.owner| && s.owner[u] == Owned(Second, t, f / 10 - 2)
                           && Vbloc(s, i, f) == Slot(s, u, f % 10)
                           && Missing(s, i, f) == if Vbloc(s, i, f) == 0 then 1 else 0))
  {
    assert SlotOK(s, i, NB_BLOCS + 1);
    var t := Slot(s, i, NB_BLOCS + 1);
    if t != 0 {
      assert SlotOK(s, t, f / 10 - 2);
    }
  }

  /** `t` is the block whose pointer `f % 10` is for file block `f` of inode `i`. */
  ghost predicate LastTable(s: State, i: nat, f: nat, t: nat) {
    && t < |s.owner|
    && if f < NB_BLOCS then t == i
       else if f < 2 * NB_BLOCS then s.owner[t] == Owned(Indirect, i, NB_BLOCS)
       else
         && s.owner[t].Owned? && s.owner[t].level.Second? && s.owner[t].slot == f / 10 - 2
         && s.owner[t].parent < |s.owner| && s.owner[s.owner[t].parent] == Owned(Double, i, NB_BLOCS + 1)
  }

  lemma LastTableView(s: State, i: nat, f: nat, t: nat)
    requires TreeInv(s) && IsRoot(s, i) && f < MAX_FBLOC && LastTable(s, i, f, t)
    ensures f % 10 < Arity(s.owner[t]) && ChildLevel(s.owner[t], f % 10) == Data
    ensures Vbloc(s, i, f) == Slot(s, t, f % 10)
    ensures Missing(s, i, f) == if Vbloc(s, i, f) == 0 then 1 else 0
  {
    if f >= NB_BLOCS {
      assert ParentOK(s, t);
      if f >= 2 * NB_BLOCS {
        assert ParentOK(s, s.owner[t].parent);
        DoubleWalk(s, i, f);
      } else {
        IndirectWalk(s, i, f);
      }
    }
  }

  /** What walking to the last table does: only tables are attached. */
  ghost predicate Walked(s: State, i: nat, f: nat, s': State, t: nat) {
    && Core(s') && Extends(s, s') && NewUnder(s, s', i) && NewOnWay(s, s', f)
    && (t != 0 ==> LastTable(s', i, f, t))
    && (t == 0 ==> s'.sb.nbFree == 0 && Vbloc(s', i, f) == 0 && Missing(s', i, f) > 0)
    && s.sb.nbFree - s'.sb.nbFree == Missing(s, i, f) - Missing(s', i, f)
    && (forall k: nat | IsRoot(s, k) :: Taille(s', k) == Taille(s, k))
    && (forall k: nat | IsData(s', k) :: !s.owner[k].Unused?)
  }

  lemma IndirectWalk(s: State, i: nat, f: nat)
    requires TreeInv(s) && IsRoot(s, i) && NB_BLOCS <= f < 2 * NB_BLOCS
    ensures var t := Slot(s, i, NB_BLOCS);
            && (t == 0 ==> Vbloc(s, i, f) == 0 && Missing(s, i, f) == 2)
            && (t != 0 ==>
                  && t < |s.owner| && s.owner[t] == Owned(Indirect, i, NB_BLOCS)
                  && Vbloc(s, i, f) == Slot(s, t, f % 10)
                  && Missing(s, i, f) == if Vbloc(s, i, f) == 0 then 1 else 0)
  {
    assert SlotOK(s, i, NB_BLOCS);
  }

  lemma TableIndirect(s: State, i: nat, f: nat, s': State, t: nat)
    requires TreeInv(s) && IsRoot(s, i) && NB_BLOCS <= f < 2 * NB_BLOCS
    requires Ensured(s, i, NB_BLOCS, s', t)
    ensures Walked(s, i, f, s', t)
  {
    IndirectWalk(s, i, f);
    IndirectWalk(s', i, f);
    if t != 0 && Slot(s, i, NB_BLOCS) == 0 {
      assert Slot(s', t, f % 10) == 0;
    }
  }

  /** The block holding the pointer to file block `f`, 0 if a table on the way is missing. */
  function LastPtr(s: State, i: nat, f: nat): nat {
    if f < NB_BLOCS then i
    else if f < 2 * NB_BLOCS then Ptr(s, i, 27)
    else
      var t := Ptr(s, i, 29);
      if t == 0 then 0 else Ptr(s, t, 2 * (f / 10 - 2))
  }

  lemma LastPtrTable(s: State, i: nat, f: nat)
    requires TreeInv(s) && IsRoot(s, i) && f < MAX_FBLOC
    ensures LastPtr(s, i, f) == 0 && NB_BLOCS <= f ==> Vbloc(s, i, f) == 0
    ensures LastPtr(s, i, f) != 0 || f < NB_BLOCS ==> LastTable(s, i, f, LastPtr(s, i, f))
  {
    if f >= 2 * NB_BLOCS {
      DoubleWalk(s, i, f);
    } else if f >= NB_BLOCS {
      IndirectWalk(s, i, f);
    }
  }

  lemma DoubleLast(s: State, i: nat, f: nat, s1: State, t: nat, s2: State, u: nat)
    requires IsRoot(s, i) && 2 * NB_BLOCS <= f < MAX_FBLOC
    requires Ensured(s, i, NB_BLOCS + 1, s1, t) && t != 0
    requires Ensured(s1, t, f / 10 - 2, s2, u)
    ensures t < |s2.owner| && s2.owner[t] == s1.owner[t] == Owned(Double, i, NB_BLOCS + 1)
    ensures IsRoot(s1, i) && IsRoot(s2, i)
    ensures Slot(s1, i, NB_BLOCS + 1) == t && Slot(s2, i, NB_BLOCS + 1) == t
    ensures u != 0 ==> LastTable(s2, i, f, u)
  {
    assert ParentOK(s2, t);
  }

  lemma DoubleCounts(s: State, i: nat, f: nat, s1: State, t: nat, s2: State, u: nat)
    requires TreeInv(s) && IsRoot(s, i) && 2 * NB_BLOCS <= f < MAX_FBLOC
    requires Ensured(s, i, NB_BLOCS + 1, s1, t) && t != 0
    requires Ensured(s1, t, f / 10 - 2, s2, u)
    ensures u == 0 ==> s2.sb.nbFree == 0 && Vbloc(s2, i, f) == 0 && Missing(s2, i, f) > 0
    ensures s.sb.nbFree - s2.sb.nbFree == Missing(s, i, f) - Missing(s2, i, f)
  {
    var k := f / 10 - 2;
    DoubleLast(s, i, f, s1, t, s2, u);
    DoubleWalk(s, i, f);
    DoubleWalk(s1, i, f);
    DoubleWalk(s2, i, f);
    assert Slot(s, i, NB_BLOCS + 1) == 0 ==> Slot(s1, t, k) == 0;
    if u != 0 && Slot(s1, t, k) == 0 {
      assert Slot(s2, u, f % 10) == 0;
    }
  }

  lemma DoubleFrame(s: State, i: nat, f: nat, s1: State, t: nat, s2: State, u: nat)
    requires IsRoot(s, i) && 2 * NB_BLOCS <= f < MAX_FBLOC
    requires Ensured(s, i, NB_BLOCS + 1, s1, t) && t != 0
    requires Ensured(s1, t, f / 10 - 2, s2, u)
    ensures Extends(s, s2) && NewUnder(s, s2, i) && NewOnWay(s, s2, f)
    ensures forall k: nat | IsRoot(s, k) :: Taille(s2, k) == Taille(s, k)
    ensures forall k: nat | IsData(s2, k) :: !s.owner[k].Unused?
  {
    hide Core, Slot, Arity;
    ExtendsTransitive(s, s1, s2);
  }

  lemma TableDouble(s: State, i: nat, f: nat, s1: State, t: nat, s2: State, u: nat)
    requires TreeInv(s) && IsRoot(s, i) && 2 * NB_BLOCS <= f < MAX_FBLOC
    requires Ensured(s, i, NB_BLOCS + 1, s1, t) && t != 0
    requires Ensured(s1, t, f / 10 - 2, s2, u)
    ensures Walked(s, i, f, s2, u)
  {
    DoubleFrame(s, i, f, s1, t, s2, u);
    DoubleLast(s, i, f, s1, t, s2, u);
    DoubleCounts(s, i, f, s1, t, s2, u);
  }

  lemma TableDeep(s: State, i: nat, f: nat)
    requires Core(s) && IsRoot(s, i) && 2 * NB_BLOCS <= f < MAX_FBLOC
    ensures Walked(s, i, f, Table(s, i, f).0, Table(s, i, f).1)
  {
    EnsureCorrect(s, i, NB_BLOCS + 1);
    var (s1, t) := Ensure(s, i, NB_BLOCS + 1);
    if t != 0 {
      TableDeeper(s, i, f, s1, t);
    } else {
      DoubleWalk(s, i, f);
    }
  }

  lemma TableDeeper(s: State, i: nat, f: nat, s1: State, t: nat)
    requires TreeInv(s) && IsRoot(s, i) && 2 * NB_BLOCS <= f < MAX_FBLOC
    requires Ensured(s, i, NB_BLOCS + 1, s1, t) && t != 0
    ensures Walked(s, i, f, Ensure(s1, t, f / 10 - 2).0, Ensure(s1, t, f / 10 - 2).1)
  {
    EnsureCorrect(s1, t, f / 10 - 2);
    TableDouble(s, i, f, s1, t, Ensure(s1, t, f / 10 - 2).0, Ensure(s1, t, f / 10 - 2).1);
  }

  lemma TableCorrect(s: State, i: nat, f: nat)
    requires Core(s) && IsRoot(s, i) && f < MAX_FBLOC
    ensures Walked(s, i, f, Table(s, i, f).0, Table(s, i, f).1)
  {
    if NB_BLOCS <= f < 2 * NB_BLOCS {
      EnsureCorrect(s, i, NB_BLOCS);
      TableIndirect(s, i, f, Table(s, i, f).0, Table(s, i, f).1);
    } else if 2 * NB_BLOCS <= f {
      TableDeep(s, i, f);
    }
  }

  // -------------------------------------------------------------- the whole operation

  /** `allocate_vbloc_of_fbloc`: attach what is missing on the way to file block `f`, the
      data block last; then raise the size. 0 when `f` is out of range or the volume is
      full, keeping whatever tables were already attached. */
  ghost function Alloc(s: State, i: nat, f: nat): (State, nat)
    requires Core(s) && IsRoot(s, i)
  {
    if f >= MAX_FBLOC then (s, 0)
    else
      TableCorrect(s, i, f);
      var (s1, t) := Table(s, i, f);
      if t == 0 then (s1, 0)
      else
        LastTableView(s1, i, f, t);
        var found := Slot(s1, t, f % 10);
        if found != 0 then (s1, found) else LastGrow(s1, i, f, t)
  }

  /** The data block itself, hung from table `t`, then the size. */
  ghost function LastGrow(s: State, i: nat, f: nat, t: nat): (State, nat)
    requires Core(s) && IsRoot(s, i) && f < MAX_FBLOC && t < |s.owner|
    requires f % 10 < Arity(s.owner[t]) && Slot(s, t, f % 10) == 0
  {
    var (s2, b) := Grow(s, t, f % 10);
    GrowKeepsInode(s, t, f % 10, i);
    if b == 0 then (s, 0) else (Bump(s2, i, f), b)
  }

  lemma GrowKeepsInode(s: State, t: nat, c: nat, i: nat)
    requires Core(s) && t < |s.owner| && c < Arity(s.owner[t]) && Slot(s, t, c) == 0 && IsRoot(s, i)
    ensures IsRoot(Grow(s, t, c).0, i) && i < |Grow(s, t, c).0.blocks| && IsInode(Grow(s, t, c).0.blocks[i])
  {
    GrowKeeps(s, t, c);
    GrowCorrect(s, t, c);
  }

  /** Everything a caller may rely on. */
  ghost predicate Allocated(s: State, i: nat, f: nat, s': State, b: nat) {
    && Core(s') && Extends(s, s') && NewUnder(s, s', i) && NewOnWay(s, s', f)
    && Vbloc(s', i, f) == b
    && (b == 0 <==> f >= MAX_FBLOC || s.sb.nbFree < Missing(s, i, f))
    && (f < MAX_FBLOC ==> s'.sb.nbFree == if b == 0 then 0 else s.sb.nbFree - Missing(s, i, f))
    && (f >= MAX_FBLOC ==> s' == s)
    && (b != 0 ==> IsData(s', b))
    && (forall k: nat | IsData(s', k) && s.owner[k].Unused? :: k == b)
    && (forall j: nat | IsRoot(s, j) && (j != i || b == 0 || Vbloc(s, i, f) != 0) :: Taille(s', j) == Taille(s, j))
    && (b != 0 && Vbloc(s, i, f) == 0 ==> Taille(s', i) == if Taille(s, i) <= f then f + 1 else Taille(s, i))
  }

  /** Attaching the data block itself. */
  lemma LastStep(s1: State, i: nat, f: nat, t: nat, s2: State, b: nat)
    requires TreeInv(s1) && IsRoot(s1, i) && f < MAX_FBLOC && LastTable(s1, i, f, t)
    requires Ensured(s1, t, f % 10, s2, b) && b != 0
    ensures Vbloc(s2, i, f) == b && IsData(s2, b)
    ensures s1.sb.nbFree - s2.sb.nbFree == Missing(s1, i, f)
  {
    LastTableView(s1, i, f, t);
    if f >= 2 * NB_BLOCS {
      assert ParentOK(s1, t);
    }
    assert LastTable(s2, i, f, t);
    LastTableView(s2, i, f, t);
  }

  lemma AllocFound(s: State, i: nat, f: nat, s1: State, t: nat)
    requires TreeInv(s) && IsRoot(s, i) && f < MAX_FBLOC
    requires Walked(s, i, f, s1, t)
    requires t == 0 || Vbloc(s1, i, f) != 0 || s1.sb.nbFree == 0
    ensures Allocated(s, i, f, s1, if t == 0 then 0 else Vbloc(s1, i, f))
  {
    ViewKept(s, s1, i, f);
    VblocLocated(s1, i, f);
    if t != 0 {
      LastTableView(s1, i, f, t);
    }
  }

  /** The state between attaching the data block and raising the size. */
  ghost predicate Grown(s: State, i: nat, f: nat, s2: State, b: nat) {
    && Core(s2) && Extends(s, s2) && NewUnder(s, s2, i) && NewOnWay(s, s2, f)
    && b != 0 && Vbloc(s, i, f) == 0 && Vbloc(s2, i, f) == b && IsData(s2, b)
    && s.sb.nbFree - s2.sb.nbFree == Missing(s, i, f)
    && (forall k: nat | IsData(s2, k) && s.owner[k].Unused? :: k == b)
    && (forall j: nat | IsRoot(s, j) :: Taille(s2, j) == Taille(s, j))
  }

  lemma AttachedUnder(s: State, i: nat, f: nat, s1: State, t: nat, s2: State, b: nat)
    requires TreeInv(s) && IsRoot(s, i) && f < MAX_FBLOC
    requires Walked(s, i, f, s1, t) && t != 0
    requires Ensured(s1, t, f % 10, s2, b)
    ensures NewUnder(s, s2, i) && NewOnWay(s, s2, f)
  {
    assert IsRoot(s1, i) && IsRoot(s2, i);
    forall k: nat | k < |s.owner| && s.owner[k].Unused? && !s2.owner[k].Unused?
      ensures RootOf(s2.owner, k) == i && LevelOnWay(s2.owner[k], f)
    {
      if k == b {
        LastTableView(s1, i, f, t);
        assert LastTable(s2, i, f, t);
      } else {
        RootKept(s1, s2, k);
      }
    }
  }

  lemma RootKept(s: State, s': State, k: nat)
    requires TreeInv(s) && Extends(s, s') && k < |s.owner| && !s.owner[k].Unused?
    ensures RootOf(s'.owner, k) == RootOf(s.owner, k)
  {
    assert ParentOK(s, k);
    assert ParentOK(s, Up(s.owner, k));
    assert ParentOK(s, Up(s.owner, Up(s.owner, k)));
  }

  lemma AllocAttached(s: State, i: nat, f: nat, s1: State, t: nat, s2: State, b: nat)
    requires TreeInv(s) && IsRoot(s, i) && f < MAX_FBLOC
    requires Walked(s, i, f, s1, t) && t != 0 && Vbloc(s1, i, f) == 0
    requires Ensured(s1, t, f % 10, s2, b) && b != 0
    ensures Grown(s, i, f, s2, b)
  {
    AttachedUnder(s, i, f, s1, t, s2, b);
    LastTableView(s1, i, f, t);
    LastStep(s1, i, f, t, s2, b);
    ViewKept(s, s1, i, f);
    ExtendsTransitive(s, s1, s2);
  }

  lemma AllocBumped(s: State, i: nat, f: nat, s2: State, b: nat, s3: State)
    requires TreeInv(s) && IsRoot(s, i) && f < MAX_FBLOC
    requires Grown(s, i, f, s2, b) && s2.sb.nbFree >= 0 && s3 == Bump(s2, i, f)
    ensures Allocated(s, i, f, s3, b)
  {
    BumpCorrect(s2, i, f);
    ViewKept(s2, s3, i, f);
    ExtendsTransitive(s, s2, s3);
  }

  lemma AllocCorrect(s: State, i: nat, f: nat)
    requires Core(s) && IsRoot(s, i)
    ensures Allocated(s, i, f, Alloc(s, i, f).0, Alloc(s, i, f).1)
  {
    if f < MAX_FBLOC {
      TableCorrect(s, i, f);
      var (s1, t) := Table(s, i, f);
      if t != 0 {
        LastTableView(s1, i, f, t);
        EnsureCorrect(s1, t, f % 10);
        var (s2, b) := Ensure(s1, t, f % 10);
        if Vbloc(s1, i, f) == 0 && b != 0 {
          AllocAttached(s, i, f, s1, t, s2, b);
          AllocBumped(s, i, f, s2, b, Bump(s2, i, f));
        } else {
          AllocFound(s, i, f, s1, t);
        }
      } else {
        AllocFound(s, i, f, s1, t);
      }
    }
  }

  /** Allocation keeps every other entry of every map: only (i, f) can change, from 0. */
  lemma OthersKept(s: State, i: nat, f: nat, s': State, b: nat, j: nat, g: nat)
    requires TreeInv(s) && Allocated(s, i, f, s', b) && IsRoot(s, i) && IsRoot(s, j)
    requires j != i || g != f
    ensures Vbloc(s', j, g) == Vbloc(s, j, g)
  {
    ViewKept(s, s', j, g);
    if Vbloc(s', j, g) != Vbloc(s, j, g) {
      MapInjective(s', i, f, j, g);
    }
  }

  lemma RootsKept(s: State, s': State, j: nat)
    requires Extends(s, s')
    ensures IsRoot(s', j) <==> IsRoot(s, j)
  {
  }

  lemma AllocatedInv(s: State, i: nat, f: nat, s': State, b: nat)
    requires Inv(s) && IsRoot(s, i) && Allocated(s, i, f, s', b)
    ensures Inv(s')
  {
    ViewKept(s, s', i, f);
    forall j: nat | IsRoot(s', j) ensures Taille(s', j) <= MAX_FBLOC {
      RootsKept(s, s', j);
    }
    forall j: nat, g: nat | IsRoot(s', j) && Vbloc(s', j, g) != 0 ensures g < Taille(s', j) {
      RootsKept(s, s', j);
      ViewKept(s, s', j, g);
      if j != i || g != f {
        OthersKept(s, i, f, s', b, j, g);
      }
    }
  }

  /** What a client of the block map sees of one allocation. */
  ghost predicate MapRefined(s: State, i: nat, f: nat, s': State, b: nat) {
    && Vbloc(s', i, f) == b
    && (b == 0 <==> f >= MAX_FBLOC || s.sb.nbFree < Missing(s, i, f))
    && (Vbloc(s, i, f) != 0 ==> b == Vbloc(s, i, f) && s'.sb.nbFree == s.sb.nbFree)
    && (Vbloc(s, i, f) == 0 && b != 0 ==> b in FreeSet(s.runs) && b < |s'.blocks| && s'.blocks[b] == ZERO)
    && (forall j: nat :: IsRoot(s', j) <==> IsRoot(s, j))
    && (forall j: nat, g: nat | IsRoot(s, j) && (j != i || g != f) :: Vbloc(s', j, g) == Vbloc(s, j, g))
    && (forall j: nat, g: nat | IsRoot(s, j) :: FBlock(s', j, g) == FBlock(s, j, g))
  }

  lemma AllocatedRefines(s: State, i: nat, f: nat, s': State, b: nat)
    requires Core(s) && IsRoot(s, i) && Allocated(s, i, f, s', b)
    ensures MapRefined(s, i, f, s', b)
  {
    ViewKept(s, s', i, f);
    forall j: nat ensures IsRoot(s', j) <==> IsRoot(s, j) {
      RootsKept(s, s', j);
    }
    forall j: nat, g: nat | IsRoot(s, j)
      ensures FBlock(s', j, g) == FBlock(s, j, g)
      ensures j != i || g != f ==> Vbloc(s', j, g) == Vbloc(s, j, g)
    {
      ViewKept(s, s', j, g);
      if j != i || g != f {
        OthersKept(s, i, f, s', b, j, g);
      }
    }
  }

  /** The block map refines a finite partial function from (inode, file block) to blocks:
      allocation fails exactly when the index is out of range or too few blocks are free,
      maps exactly the block asked for, hands it out filled with zeros if it is new, and
      leaves every other entry and the contents of every file block as they were. */
  lemma BlockMapRefinement(s: State, i: nat, f: nat)
    requires Inv(s) && IsRoot(s, i)
    ensures Inv(Alloc(s, i, f).0)
    ensures MapRefined(s, i, f, Alloc(s, i, f).0, Alloc(s, i, f).1)
  {
    AllocCorrect(s, i, f);
    var (s', b) := Alloc(s, i, f);
    AllocatedInv(s, i, f, s', b);
    AllocatedRefines(s, i, f, s', b);
  }
}
