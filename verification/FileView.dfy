/** What a file looks like from above the block map: 120 blocks of bytes, zero where nothing
    was ever written, and what one descriptor may do to the rest of the volume. */
module FileView {
  import opened Bytes
  import opened FreeList
  import opened BlockMap
  import opened Allocate
  import opened Space
  import Lifecycle

  const CAPACITY: nat := 61440 // 120 blocks of 512 bytes

  /** File block `g` of inode `i`, block `k` replaced by `buffer`. */
  ghost function BlockAt(s: State, i: nat, k: nat, buffer: Block, g: nat): Block {
    if g == k then buffer else FBlock(s, i, g)
  }

  ghost function ByteAt(s: State, i: nat, k: nat, buffer: Block, p: nat): byte {
    BlockAt(s, i, k, buffer, p / 512)[p % 512]
  }

  ghost predicate BytesAre(s: State, i: nat, k: nat, buffer: Block, r: seq<byte>) {
    && |r| == CAPACITY
    && forall p: nat {:trigger ByteAt(s, i, k, buffer, p)} | p < CAPACITY :: r[p] == ByteAt(s, i, k, buffer, p)
  }

  lemma BytesExist(s: State, i: nat, k: nat, buffer: Block)
    ensures exists r :: BytesAre(s, i, k, buffer, r)
  {
    var r := seq(CAPACITY, p requires 0 <= p < CAPACITY => ByteAt(s, i, k, buffer, p));
    assert BytesAre(s, i, k, buffer, r);
  }

  /** The bytes of a file with block `k` replaced by a buffer not yet written back. */
  ghost function Overlaid(s: State, i: nat, k: nat, buffer: Block): (r: seq<byte>)
    ensures |r| == CAPACITY
  {
    BytesExist(s, i, k, buffer);
    var r :| BytesAre(s, i, k, buffer, r);
    r
  }

  lemma OverlaidAt(s: State, i: nat, k: nat, buffer: Block, p: nat)
    requires p < CAPACITY
    ensures Overlaid(s, i, k, buffer)[p] == if p / 512 == k then buffer[p % 512] else FBlock(s, i, p / 512)[p % 512]
  {
    assert Overlaid(s, i, k, buffer)[p] == ByteAt(s, i, k, buffer, p);
  }

  /** The bytes of inode `i` on the volume. */
  ghost function FileBytes(s: State, i: nat): (r: seq<byte>)
    ensures |r| == CAPACITY
  {
    Overlaid(s, i, 0, FBlock(s, i, 0))
  }

  lemma FileBytesAt(s: State, i: nat, p: nat)
    requires p < CAPACITY
    ensures FileBytes(s, i)[p] == FBlock(s, i, p / 512)[p % 512]
  {
    OverlaidAt(s, i, 0, FBlock(s, i, 0), p);
  }

  /** Contents that agree at every position are the same. */
  lemma SameOverlaid(s: State, i: nat, k: nat, buffer: Block, s': State, k': nat, buffer': Block)
    requires forall g: nat | g < MAX_FBLOC :: BlockAt(s, i, k, buffer, g) == BlockAt(s', i, k', buffer', g)
    ensures Overlaid(s, i, k, buffer) == Overlaid(s', i, k', buffer')
  {
    var a, b := Overlaid(s, i, k, buffer), Overlaid(s', i, k', buffer');
    forall p: nat | p < CAPACITY ensures a[p] == b[p] {
      OverlaidAt(s, i, k, buffer, p);
      OverlaidAt(s', i, k', buffer', p);
      assert BlockAt(s, i, k, buffer, p / 512) == BlockAt(s', i, k', buffer', p / 512);
    }
  }

  lemma OverlaidClean(s: State, i: nat, k: nat, buffer: Block)
    requires buffer == FBlock(s, i, k)
    ensures Overlaid(s, i, k, buffer) == FileBytes(s, i)
  {
    SameOverlaid(s, i, k, buffer, s, 0, FBlock(s, i, 0));
  }

  /** Only inode `i` may have changed from `s` to `s'`; no inode came or went, and no block
      was given back. */
  ghost predicate OnlyFile(s: State, s': State, i: nat) {
    && |s'.blocks| == |s'.owner| == |s.owner| == |s.blocks|
    && s'.sb.root == s.sb.root && s'.sb.nbFree <= s.sb.nbFree
    && (forall j: nat :: IsRoot(s', j) <==> IsRoot(s, j))
    && (forall j: nat | IsRoot(s, j) :: s'.blocks[j][2] == s.blocks[j][2] && Taille(s, j) <= Taille(s', j))
    && (forall j: nat | IsRoot(s, j) && j != i :: FileBytes(s', j) == FileBytes(s, j) && Taille(s', j) == Taille(s, j))
    && (forall j: nat, p: Place | IsRoot(s, j) && j != i :: Present(s', j, p) <==> Present(s, j, p))
  }

  lemma OnlyFileItself(s: State, i: nat)
    requires Inv(s)
    ensures OnlyFile(s, s, i)
  {
  }

  lemma OnlyFileTransitive(s: State, s1: State, s2: State, i: nat)
    requires OnlyFile(s, s1, i) && OnlyFile(s1, s2, i)
    ensures OnlyFile(s, s2, i)
  {
  }

  lemma SameBlocksSameBytes(s: State, s': State, i: nat)
    requires forall g: nat :: FBlock(s', i, g) == FBlock(s, i, g)
    ensures FileBytes(s', i) == FileBytes(s, i)
    ensures forall k: nat, buffer :: Overlaid(s', i, k, buffer) == Overlaid(s, i, k, buffer)
  {
    SameOverlaid(s', i, 0, FBlock(s', i, 0), s, 0, FBlock(s, i, 0));
    forall k: nat, buffer: Block ensures Overlaid(s', i, k, buffer) == Overlaid(s, i, k, buffer) {
      SameOverlaid(s', i, k, buffer, s, k, buffer);
    }
  }

  /** Allocation is invisible in the contents of every file. */
  lemma AllocInvisible(s: State, i: nat, f: nat, s': State, b: nat)
    requires Inv(s) && IsRoot(s, i) && Allocated(s, i, f, s', b)
    ensures Inv(s') && OnlyFile(s, s', i) && FileBytes(s', i) == FileBytes(s, i)
    ensures forall g: nat :: FBlock(s', i, g) == FBlock(s, i, g)
    ensures Costs(s, i, {f}, s', b != 0)
    ensures b != 0 ==> f < Taille(s', i)
  {
    AllocSpent(s, i, f, s', b);
    AllocatedInv(s, i, f, s', b);
    AllocatedRefines(s, i, f, s', b);
    forall j: nat | IsRoot(s, j) ensures FileBytes(s', j) == FileBytes(s, j) {
      SameBlocksSameBytes(s, s', j);
    }
  }

  /** Writing block `f` of file `i` back puts the buffer into the contents. */
  lemma StoreVisible(s: State, i: nat, f: nat, data: Block)
    requires Inv(s) && IsRoot(s, i) && Vbloc(s, i, f) != 0
    ensures Vbloc(s, i, f) < |s.blocks|
    ensures var s' := Lifecycle.Store(s, Vbloc(s, i, f), data);
            && Inv(s') && OnlyFile(s, s', i)
            && FileBytes(s', i) == Overlaid(s, i, f, data) && FBlock(s', i, f) == data
            && (forall g: nat :: Vbloc(s', i, g) == Vbloc(s, i, g))
            && (forall p: Place :: Present(s', i, p) <==> Present(s, i, p))
            && Taille(s', i) == Taille(s, i) && s'.sb == s.sb
  {
    VblocLocated(s, i, f);
    var b := Vbloc(s, i, f);
    Lifecycle.StorePresent(s, b, data);
    Lifecycle.StoreInv(s, b, data);
    Lifecycle.StoreCorrect(s, b, data);
    var s' := Lifecycle.Store(s, b, data);
    forall j: nat | IsRoot(s, j) && j != i ensures FileBytes(s', j) == FileBytes(s, j) {
      SameBlocksSameBytes(s, s', j);
    }
    SameOverlaid(s', i, 0, FBlock(s', i, 0), s, f, data);
  }

  /** Writing a buffer back: the state after, and whether a block could be had. */
  ghost function WriteBack(s: State, i: nat, f: nat, buffer: Block): (State, bool)
    requires Inv(s) && IsRoot(s, i)
  {
    AllocCorrect(s, i, f);
    var (s1, b) := Alloc(s, i, f);
    if b == 0 then (s1, false) else (Lifecycle.Store(s1, b, buffer), true)
  }

  ghost predicate WrittenBack(s: State, i: nat, f: nat, buffer: Block, s': State, ok: bool) {
    && Inv(s') && IsRoot(s', i) && OnlyFile(s, s', i)
    && (ok ==> FileBytes(s', i) == Overlaid(s, i, f, buffer) && FBlock(s', i, f) == buffer && Vbloc(s', i, f) != 0)
    && (!ok ==> FileBytes(s', i) == FileBytes(s, i))
    && Costs(s, i, {f}, s', ok)
  }

  /** Writing back succeeds exactly when the places missing on the way to the block can be
      paid for; the disk then shows the buffer. */
  lemma WriteBackCorrect(s: State, i: nat, f: nat, buffer: Block)
    requires Inv(s) && IsRoot(s, i)
    ensures WrittenBack(s, i, f, buffer, WriteBack(s, i, f, buffer).0, WriteBack(s, i, f, buffer).1)
  {
    AllocCorrect(s, i, f);
    var (s1, b) := Alloc(s, i, f);
    WrittenBackFrom(s, i, f, buffer, s1, b);
  }

  lemma WrittenBackFrom(s: State, i: nat, f: nat, buffer: Block, s1: State, b: nat)
    requires Inv(s) && IsRoot(s, i) && Allocated(s, i, f, s1, b)
    ensures b != 0 ==> b < |s1.blocks| && WrittenBack(s, i, f, buffer, Lifecycle.Store(s1, b, buffer), true)
    ensures b == 0 ==> WrittenBack(s, i, f, buffer, s1, false)
  {
    AllocInvisible(s, i, f, s1, b);
    if b != 0 {
      StoreVisible(s1, i, f, buffer);
      var s2 := Lifecycle.Store(s1, b, buffer);
      OnlyFileTransitive(s, s1, s2, i);
      SameBlocksSameBytes(s, s1, i);
      assert Spent(s, i, {f}, s2);
    }
  }

  /** What bringing a block into the buffer relies on. */
  ghost predicate Loadable(s: State, i: nat, f: nat, s': State, b: nat) {
    && Inv(s') && IsRoot(s', i) && OnlyFile(s, s', i) && FileBytes(s', i) == FileBytes(s, i)
    && (b != 0 ==> f < MAX_FBLOC && b < |s'.blocks| && Vbloc(s', i, f) == b && FBlock(s', i, f) == s'.blocks[b])
    && Costs(s, i, {f}, s', b != 0)
  }

  lemma AllocLoadable(s: State, i: nat, f: nat)
    requires Inv(s) && IsRoot(s, i)
    ensures Loadable(s, i, f, Alloc(s, i, f).0, Alloc(s, i, f).1)
  {
    AllocCorrect(s, i, f);
    AllocatedLoadable(s, i, f, Alloc(s, i, f).0, Alloc(s, i, f).1);
  }

  lemma AllocatedLoadable(s: State, i: nat, f: nat, s': State, b: nat)
    requires Inv(s) && IsRoot(s, i) && Allocated(s, i, f, s', b)
    ensures Loadable(s, i, f, s', b)
  {
    AllocInvisible(s, i, f, s', b);
  }

  // ------------------------------------------------- the blocks a movement touches

  /** The file blocks had when the cursor goes from `c` to `t`: none within a block;
      otherwise the one entered, and the one left if it must be written back. */
  ghost function Entered(c: nat, t: nat, modified: bool): set<nat> {
    Passed(c / 512, t / 512, modified)
  }

  /** From block `from` to block `to`. */
  function Passed(from: nat, to: nat, modified: bool): set<nat> {
    if from == to then {} else if modified then {from, to} else {to}
  }

  /** The same for `n` steps of one byte. */
  ghost function Crossed(c: nat, n: nat, modified: bool): set<nat> {
    if n == 0 then {} else Crossed(c, n - 1, modified) + Entered(c + n - 1, c + n, modified)
  }

  /** The file blocks from `lo` to `hi`. */
  ghost function Blocks(lo: nat, hi: nat): (fs: set<nat>)
    ensures forall f :: f in fs <==> lo <= f <= hi
  {
    if hi < lo then {} else Interval(lo, hi - lo + 1)
  }

  /** The block to be written back before the descriptor can be left. */
  ghost function Held(c: nat, modified: bool): set<nat> {
    if modified then {c / 512} else {}
  }

  lemma CostsStart(s: State, i: nat, c: nat, modified: bool)
    ensures Costs(s, i, Crossed(c, 0, modified), s, true)
  {
    CostsNothing(s, i);
  }

  /** One step more succeeds exactly when there is room for the longer stretch. */
  lemma CostsStep(s: State, i: nat, c: nat, k: nat, modified: bool, s1: State, s2: State, ok: bool)
    ensures Costs(s, i, Crossed(c, k, modified), s1, true)
            && Costs(s1, i, Entered(c + k, c + k + 1, modified), s2, ok) ==>
              Costs(s, i, Crossed(c, k + 1, modified), s2, ok)
  {
    InTwo(s, i, Crossed(c, k, modified), s1, true, Entered(c + k, c + k + 1, modified), s2, ok);
  }

  /** None within a block; otherwise all from the first entered, or left, to the last. */
  lemma {:induction false} CrossedAre(c: nat, n: nat, modified: bool)
    ensures Crossed(c, n, modified) == Stretch(c / 512, (c + n) / 512, modified)
  {
    hide Stretch, Passed;
    if n == 0 {
      StretchNone(c / 512, modified);
    } else {
      CrossedAre(c, n - 1, modified);
      BlocksInOrder(c, n - 1);
      StretchStep(c / 512, (c + n - 1) / 512, (c + n) / 512, modified);
    }
  }

  lemma BlocksInOrder(c: nat, n: nat)
    ensures c / 512 <= (c + n) / 512 <= (c + n + 1) / 512 <= (c + n) / 512 + 1
  {
  }

  lemma StretchNone(lo: nat, modified: bool)
    ensures Stretch(lo, lo, modified) == {}
  {
  }

  ghost function Stretch(lo: nat, hi: nat, modified: bool): set<nat> {
    if lo == hi then {} else Blocks(if modified then lo else lo + 1, hi)
  }

  lemma StretchStep(lo: nat, mid: nat, hi: nat, modified: bool)
    requires lo <= mid <= hi <= mid + 1
    ensures Stretch(lo, hi, modified)
         == Stretch(lo, mid, modified) + Passed(mid, hi, modified)
  {
  }

  /** A stretch is two stretches one after the other. */
  lemma {:induction false} CrossedSplit(c: nat, m: nat, n: nat, modified: bool)
    ensures Crossed(c, m + n, modified) == Crossed(c, m, modified) + Crossed(c + m, n, modified)
    decreases n
  {
    if n == 0 {
    } else {
      CrossedSplit(c, m, n - 1, modified);
    }
  }

  lemma CrossedMonotone(c: nat, k: nat, n: nat, modified: bool)
    requires k <= n
    ensures Crossed(c, k, modified) <= Crossed(c, n, modified)
  {
    CrossedSplit(c, k, n - k, modified);
  }
}
