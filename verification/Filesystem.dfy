/** The mounted volume as the source keeps it: an array of blocks updated in place and the
    superblock `super_courant` in memory (src/disque/filesystem.c). Each method is proved
    to take the state where the specification functions say. */
module Filesystem {
  import opened Bytes
  import opened Codec
  import opened FreeList
  import opened BlockMap
  import opened Allocate
  import Lifecycle
  import Delete

  // ------------------------------------------------------------------- buffers

  /** One big-endian field of a buffer. */
  method PutWord(buf: array<byte>, off: nat, v: nat)
    requires buf.Length == SECTOR_SIZE && off <= 510 && v < 65536
    modifies buf
    ensures buf[..] == Put16(old(buf[..]), off, v)
  {
    buf[off] := v / 256;
    buf[off + 1] := v % 256;
  }

  /** Consecutive fields, as the loop over `bloc_direct` writes them. */
  method PutWords(buf: array<byte>, off: nat, vals: seq<nat>)
    requires buf.Length == SECTOR_SIZE && off + 2 * |vals| <= SECTOR_SIZE && Fields16(vals)
    modifies buf
    ensures buf[..] == PutFields(old(buf[..]), off, vals)
  {
    for i := 0 to |vals|
      invariant buf[..] == PutFields(old(buf[..]), off, vals[..i])
    {
      assert vals[..i + 1][..i] == vals[..i];
      PutWord(buf, off + 2 * i, vals[i]);
    }
    assert vals[..|vals|] == vals;
  }

  method InodeBuffer(n: Inode) returns (r: Block)
    requires InodeValid(n)
    ensures r == EncodeInode(n)
  {
    var buf := new byte[SECTOR_SIZE](i => 0);
    assert buf[..] == ZERO;
    PutWords(buf, 0, [INODE_MAGIC]);
    buf[2] := TypeCode(n.kind);
    PutWords(buf, 3, [n.taille] + n.direct);
    PutWords(buf, 27, [n.indirect, n.double]);
    r := buf[..];
  }

  method SuperBuffer(sb: Super) returns (r: Block)
    requires SuperValid(sb)
    ensures r == EncodeSuper(sb)
  {
    var buf := new byte[SECTOR_SIZE](i => 0);
    assert buf[..] == ZERO;
    PutWords(buf, 0, SuperFields(sb));
    ghost var fields: Block := buf[..];
    var i := 0;
    while i < |sb.name|
      invariant 0 <= i <= |sb.name|
      invariant forall k | 0 <= k < SECTOR_SIZE ::
                  buf[k] == if 12 <= k < 12 + i then sb.name[k - 12] else fields[k]
    {
      buf[12 + i] := sb.name[i];
      i := i + 1;
    }
    r := buf[..];
    assert r == PutName(fields, sb.name);
  }

  method FreeBuffer(run: FreeRun) returns (r: Block)
    requires run.count < 65536 && run.next < 65536
    ensures r == EncodeFree(run)
  {
    var buf := new byte[SECTOR_SIZE](i => 0);
    assert buf[..] == ZERO;
    PutWords(buf, 0, [FREE_MAGIC, run.count, run.next]);
    r := buf[..];
  }

  lemma UpdatesCommute(q: seq<Block>, i: nat, x: Block, j: nat, y: Block)
    requires i < |q| && j < |q| && i != j
    ensures q[i := x][j := y] == q[j := y][i := x]
  {
  }

  // -------------------------------------------------------------------- volumes

  class Volume {
    const blocks: array<Block>
    var sb: Super
    ghost var owner: seq<Owner>
    ghost var runs: Runs

    ghost function View(): State
      reads this, blocks
    {
      State(blocks[..], sb, owner, runs)
    }

    ghost predicate Valid()
      reads this, blocks
    {
      Inv(View())
    }

    /** `init_super` on the blocks of a volume. */
    constructor InitSuper(disk: array<Block>, name: seq<byte>)
      requires 2 <= disk.Length <= 65535
      requires |name| < SUPER_SZ_NAME && forall k | 0 <= k < |name| :: name[k] != 0
      modifies disk
      ensures blocks == disk
      ensures View() == Lifecycle.Format(old(disk[..]), name)
      ensures Valid()
    {
      var n := disk.Length;
      blocks := disk;
      sb := Super(Lifecycle.DEFAULT_SERIAL, 0, n - 1, 1, name);
      owner := seq(n, k => if k == 0 then Superblock else Unused);
      runs := Run(1, n - 1, End);
      new;
      var s := SuperBuffer(sb);
      blocks[0] := s;
      var f := FreeBuffer(FreeRun(n - 1, 0));
      blocks[1] := f;
      Lifecycle.FormatCorrect(old(disk[..]), name);
      assert View() == Lifecycle.Format(old(disk[..]), name);
    }

    /** `save_super`. */
    method SaveSuper()
      requires blocks.Length >= 1 && SuperValid(sb)
      modifies blocks
      ensures blocks[..] == old(blocks[..])[0 := EncodeSuper(sb)]
    {
      var s := SuperBuffer(sb);
      blocks[0] := s;
    }

    /** Recording the root directory, as mknfs does after creating it. */
    method SetRoot(i: nat)
      requires FreeInv(View()) && i < 65536
      modifies this, blocks
      ensures var sb1 := old(sb).(root := i);
              View() == State(old(blocks[..])[0 := EncodeSuper(sb1)], sb1, old(owner), old(runs))
    {
      sb := sb.(root := i);
      SaveSuper();
    }

    method CleanBloc(b: nat)
      requires b < blocks.Length
      modifies blocks
      ensures blocks[..] == old(blocks[..])[b := ZERO]
    {
      blocks[b] := ZERO;
    }

    /** `new_bloc`; the block returned is `Reserved` until its user records it. */
    method NewBloc() returns (b: nat)
      requires FreeInv(View())
      modifies this, blocks
      ensures (View(), b) == FreeList.NewBloc(old(View()))
    {
      ghost var s := View();
      if sb.nbFree == 0 {
        return 0;
      }
      b := sb.firstFree;
      assert Has(runs, b);
      var run := DecodeFree(blocks[b]).value;
      sb := sb.(nbFree := sb.nbFree - 1);
      owner := owner[b := Reserved];
      if run.count == 1 {
        sb := sb.(firstFree := run.next);
        SaveSuper();
        runs := runs.rest;
      } else {
        sb := sb.(firstFree := b + 1);
        SaveSuper();
        var f := FreeBuffer(FreeRun(run.count - 1, run.next));
        blocks[b + 1] := f;
        runs := Run(b + 1, run.count - 1, runs.rest);
      }
    }

    /** `free_bloc`. */
    method FreeBloc(b: nat)
      requires FreeInv(View()) && 0 < b < blocks.Length && !owner[b].Unused?
      modifies this, blocks
      ensures View() == FreeList.FreeBloc(old(View()), b)
    {
      FreeCountStrict(View(), b);
      var f := FreeBuffer(FreeRun(1, sb.firstFree));
      sb := sb.(firstFree := b, nbFree := sb.nbFree + 1);
      SaveSuper();
      CleanBloc(b);
      blocks[b] := f;
      owner := owner[b := Unused];
      runs := Run(b, 1, runs);
    }

    method ReadInode(i: nat) returns (n: Inode)
      requires TreeInv(View()) && IsRoot(View(), i)
      ensures n == InodeOf(blocks[i])
    {
      n := DecodeInode(blocks[i]).value;
    }

    method WriteInode(i: nat, n: Inode)
      requires i < blocks.Length && InodeValid(n)
      modifies blocks
      ensures blocks[..] == old(blocks[..])[i := EncodeInode(n)]
    {
      var buf := InodeBuffer(n);
      blocks[i] := buf;
    }

    /** `create_inode`; nothing is written when no block could be had. */
    method CreateInode(kind: FileType) returns (i: nat)
      requires Core(View())
      modifies this, blocks
      ensures (View(), i) == Lifecycle.Create(old(View()), kind)
    {
      i := NewBloc();
      if i != 0 {
        WriteInode(i, Lifecycle.EmptyInode(kind));
        owner := owner[i := Root];
      }
    }

    /** New block for pointer `c` of inode `i` (lines 506-512, 532-536, 574-576). */
    method GrowInode(i: nat, c: nat) returns (b: nat)
      requires FreeInv(View()) && IsRoot(View(), i) && IsInode(blocks[i]) && c < Arity(Root)
      modifies this, blocks
      ensures (View(), b) == Grow(old(View()), i, c)
    {
      ghost var s := View();
      NewBlocTakes(s);
      var inode := DecodeInode(blocks[i]).value;
      b := NewBloc();
      if b != 0 {
        UpdatesCommute(blocks[..], i, EncodeInode(SetPointer(inode, c, b)), b, ZERO);
        WriteInode(i, SetPointer(inode, c, b));
        CleanBloc(b);
        owner := owner[b := Child(s.owner[i], i, c)];
      }
    }

    /** New block for entry `k` of table `t` (lines 549-553, 598-602, 618-626). */
    method GrowTable(t: nat, k: nat) returns (b: nat)
      requires FreeInv(View()) && t < blocks.Length && !owner[t].Root? && k < Arity(owner[t])
      modifies this, blocks
      ensures (View(), b) == Grow(old(View()), t, k)
    {
      ghost var s := View();
      NewBlocTakes(s);
      var table := blocks[t];
      b := NewBloc();
      if b != 0 {
        UpdatesCommute(blocks[..], t, Put16(table, 2 * k, b), b, ZERO);
        blocks[t] := Put16(table, 2 * k, b);
        CleanBloc(b);
        owner := owner[b := Child(s.owner[t], t, k)];
      }
    }

    method RaiseTaille(i: nat, f: nat)
      requires IsRoot(View(), i) && i < blocks.Length && IsInode(blocks[i]) && f < MAX_FBLOC
      modifies blocks
      ensures View() == Bump(old(View()), i, f)
    {
      var inode := DecodeInode(blocks[i]).value;
      if inode.taille <= f {
        inode := inode.(taille := f + 1);
      }
      WriteInode(i, inode);
    }

    /** A table hanging from an inode, created if it is missing and `doAllocate` is set. */
    method TableOfInode(i: nat, c: nat, doAllocate: bool) returns (t: nat)
      requires Core(View()) && IsRoot(View(), i) && NB_BLOCS <= c < Arity(Root)
      modifies this, blocks
      ensures doAllocate ==> (View(), t) == Ensure(old(View()), i, c)
      ensures !doAllocate ==> View() == old(View()) && t == Slot(View(), i, c)
    {
      var inode := ReadInode(i);
      t := if c == NB_BLOCS then inode.indirect else inode.double;
      if t == 0 && doAllocate {
        t := GrowInode(i, c);
      }
    }

    /** A table entered in a table, created if it is missing and `doAllocate` is set. */
    method TableOfTable(t: nat, k: nat, doAllocate: bool) returns (u: nat)
      requires Core(View()) && t < blocks.Length && !owner[t].Root? && k < Arity(owner[t])
      modifies this, blocks
      ensures doAllocate ==> (View(), u) == Ensure(old(View()), t, k)
      ensures !doAllocate ==> View() == old(View()) && u == Slot(View(), t, k)
    {
      u := U16(blocks[t], k * 2);
      if u == 0 && doAllocate {
        u := GrowTable(t, k);
      }
    }

    /** The second-level table for file block `f`. */
    method SecondTableOf(i: nat, f: nat, doAllocate: bool) returns (t: nat)
      requires Core(View()) && IsRoot(View(), i) && 2 * NB_BLOCS <= f < MAX_FBLOC
      modifies this, blocks
      ensures doAllocate ==> (View(), t) == Table(old(View()), i, f)
      ensures !doAllocate ==> View() == old(View()) && t == LastPtr(View(), i, f)
    {
      if doAllocate {
        DoubleEnsured(View(), i);
      } else {
        DoubleThere(View(), i);
      }
      t := TableOfInode(i, NB_BLOCS + 1, doAllocate);
      if t != 0 {
        t := SecondEntryOf(t, i, f, doAllocate);
      }
    }

    /** The entry of the double table `d` for file block `f`. */
    method SecondEntryOf(d: nat, ghost i: nat, f: nat, doAllocate: bool) returns (u: nat)
      requires Core(View()) && d < blocks.Length && owner[d] == Owned(Double, i, NB_BLOCS + 1)
      requires 2 * NB_BLOCS <= f < MAX_FBLOC
      modifies this, blocks
      ensures doAllocate ==> (View(), u) == Ensure(old(View()), d, f / 10 - 2)
      ensures !doAllocate ==> View() == old(View()) && u == Ptr(View(), d, 2 * (f / 10 - 2))
    {
      var idx1 := (f - NB_BLOCS) / 10 - 1;
      assert idx1 == f / 10 - 2;
      u := TableOfTable(d, idx1, doAllocate);
    }

    /** The table that holds the pointer to file block `f`: the inode itself, the indirect
        table, or a second-level table; 0 if there is none. */
    method LastTableOf(i: nat, f: nat, doAllocate: bool) returns (t: nat)
      requires Core(View()) && IsRoot(View(), i) && f < MAX_FBLOC
      modifies this, blocks
      ensures doAllocate ==> (View(), t) == Table(old(View()), i, f)
      ensures !doAllocate ==> View() == old(View()) && t == LastPtr(View(), i, f)
    {
      if f < NB_BLOCS {
        t := i;
      } else if f < 2 * NB_BLOCS {
        t := TableOfInode(i, NB_BLOCS, doAllocate);
      } else {
        t := SecondTableOf(i, f, doAllocate);
      }
    }

    /** `aux_vbloc_of_fbloc`. */
    method AuxVblocOfFbloc(i: nat, f: nat, doAllocate: bool) returns (b: nat)
      requires Core(View()) && IsRoot(View(), i)
      modifies this, blocks
      ensures !doAllocate ==> View() == old(View()) && b == Vbloc(View(), i, f)
      ensures doAllocate ==> (View(), b) == Alloc(old(View()), i, f)
    {
      if f >= MAX_FBLOC {
        return 0;
      }
      ghost var s := View();
      var t := LastTableOf(i, f, doAllocate);
      if doAllocate {
        TableCorrect(s, i, f);
      } else {
        LastPtrTable(s, i, f);
      }
      if t == 0 {
        return 0;
      }
      LastTableView(View(), i, f, t);
      b := EntryOf(i, t, f);
      if b == 0 && doAllocate {
        b := LastAllocation(i, f, t);
      }
    }

    /** Pointer number `f` of the inode, or the entry of a table at the index the source
        computes for the range of `f`. */
    method EntryOf(i: nat, t: nat, f: nat) returns (b: nat)
      requires TreeInv(View()) && IsRoot(View(), i) && f < MAX_FBLOC && LastTable(View(), i, f, t)
      requires f % 10 < Arity(owner[t])
      ensures b == Slot(View(), t, f % 10)
    {
      assert f < NB_BLOCS ==> f % 10 == f;
      if f < NB_BLOCS {
        var inode := ReadInode(i);
        b := inode.direct[f];
      } else if f < 2 * NB_BLOCS {
        b := U16(blocks[t], (f - NB_BLOCS) * 2);
      } else {
        var idx1 := (f - NB_BLOCS) / 10 - 1;
        var idx2 := (f - NB_BLOCS * 2) - idx1 * 10;
        b := U16(blocks[t], idx2 * 2);
      }
    }

    /** The data block itself, then the size. */
    method LastAllocation(i: nat, f: nat, t: nat) returns (b: nat)
      requires Core(View()) && IsRoot(View(), i) && f < MAX_FBLOC && t < blocks.Length
      requires f < NB_BLOCS ==> t == i
      requires NB_BLOCS <= f ==> !owner[t].Root?
      requires f % 10 < Arity(owner[t]) && Slot(View(), t, f % 10) == 0
      modifies this, blocks
      ensures (View(), b) == LastGrow(old(View()), i, f, t)
    {
      ghost var s := View();
      var c := f % 10;
      GrowKeepsInode(s, t, c, i);
      if f < NB_BLOCS {
        b := GrowInode(t, c);
      } else {
        b := GrowTable(t, c);
      }
      assert (View(), b) == Grow(s, t, c);
      if b != 0 {
        RaiseTaille(i, f);
      }
    }

    /** `vbloc_of_fbloc`. */
    method VblocOfFbloc(i: nat, f: nat) returns (b: nat)
      requires Core(View()) && IsRoot(View(), i)
      modifies this, blocks
      ensures View() == old(View()) && b == Vbloc(View(), i, f)
    {
      b := AuxVblocOfFbloc(i, f, false);
    }

    /** `allocate_vbloc_of_fbloc`; Allocate.BlockMapRefinement says what that means. */
    method AllocateVblocOfFbloc(i: nat, f: nat) returns (b: nat)
      requires Core(View()) && IsRoot(View(), i)
      modifies this, blocks
      ensures (View(), b) == Alloc(old(View()), i, f)
    {
      b := AuxVblocOfFbloc(i, f, true);
    }

    /** The first `k` entries of table `t` are freed too, `l` having been freed since `s`. */
    ghost predicate Freeing(s: State, l: seq<nat>, t: nat, k: nat)
      reads this, blocks
    {
      && |s.blocks| == |s.owner| && t < |s.owner| && k <= Arity(s.owner[t])
      && Delete.CanFree(s, l + Delete.Slots(s, t, k))
      && View() == Delete.FreeAll(s, l + Delete.Slots(s, t, k))
    }

    /** `buffer` is table `t` as it was in `s`, and its entries can be freed after `l`. */
    static ghost predicate TableToFree(buffer: Block, t: nat, s: State, l: seq<nat>) {
      && |s.blocks| == |s.owner| && t < |s.owner| && buffer == s.blocks[t]
      && s.owner[t].Owned? && Arity(s.owner[t]) == NB_BLOCS
      && Delete.CanFree(s, l + Delete.Slots(s, t, NB_BLOCS))
    }

    /** `free_bloc_array` on the contents of table `t`, read before anything is freed. `l`
        is what was freed since state `s`. */
    method FreeBlocArray(buffer: Block, t: nat, ghost s: State, ghost l: seq<nat>)
      requires TableToFree(buffer, t, s, l)
      requires Delete.CanFree(s, l) && View() == Delete.FreeAll(s, l)
      modifies this, blocks
      ensures Freeing(s, l, t, NB_BLOCS)
    {
      hide Delete.CanFree, Delete.FreeAll, Delete.Slots;
      Delete.NoSlots(s, t);
      assert l + Delete.Slots(s, t, 0) == l;
      assert Freeing(s, l, t, 0);
      for k := 0 to NB_BLOCS
        invariant Freeing(s, l, t, k)
      {
        FreeEntry(buffer, t, k, s, l);
      }
    }

    method FreeEntry(buffer: Block, t: nat, k: nat, ghost s: State, ghost l: seq<nat>)
      requires k < NB_BLOCS && TableToFree(buffer, t, s, l) && Freeing(s, l, t, k)
      modifies this, blocks
      ensures Freeing(s, l, t, k + 1)
    {
      Delete.SlotStep(s, l, t, k);
      var b := U16(buffer, 2 * k);
      if b != 0 {
        FreeBloc(b);
      }
    }

    /** A table with its entries; the table is freed too, which the source forgets. */
    method FreeTable(t: nat, ghost s: State, ghost l: seq<nat>)
      requires |s.blocks| == |s.owner| && 0 < t < |s.owner|
      requires s.owner[t].Owned? && Arity(s.owner[t]) == NB_BLOCS
      requires Delete.CanFree(s, l + Delete.TableList(s, t))
      requires Delete.CanFree(s, l) && View() == Delete.FreeAll(s, l)
      modifies this, blocks
      ensures View() == Delete.FreeAll(s, l + Delete.TableList(s, t))
    {
      ghost var entries := Delete.Slots(s, t, NB_BLOCS);
      Delete.NotFreedYet(s, l, Delete.TableList(s, t), t);
      Delete.CanFreeLe(s, l + entries, l + Delete.TableList(s, t));
      FreeBlocArray(blocks[t], t, s, l);
      Delete.Assoc(l, entries, [t]);
      Delete.FreeAllSnoc(s, l + entries, t);
      FreeBloc(t);
    }

    /** The second-level tables entered in the double table `d`, then `d`. */
    method FreeDouble(d: nat, ghost s: State, ghost l: seq<nat>)
      requires TreeInv(s) && 0 < d < |s.owner| && s.owner[d].Owned? && s.owner[d].level.Double?
      requires Delete.CanFree(s, l + Delete.DoubleList(s, d))
      requires Delete.CanFree(s, l) && View() == Delete.FreeAll(s, l)
      modifies this, blocks
      ensures View() == Delete.FreeAll(s, l + Delete.DoubleList(s, d))
    {
      Delete.NotFreedYet(s, l, Delete.DoubleList(s, d), d);
      Delete.CanFreeLe(s, l + Delete.SecondLists(s, d, NB_BLOCS), l + Delete.DoubleList(s, d));
      var lvl1 := blocks[d];
      assert l + Delete.SecondLists(s, d, 0) == l;
      for k := 0 to NB_BLOCS
        invariant Delete.CanFree(s, l + Delete.SecondLists(s, d, k))
        invariant View() == Delete.FreeAll(s, l + Delete.SecondLists(s, d, k))
      {
        Delete.SecondStep(s, l, d, k);
        assert SlotOK(s, d, k);
        var u := U16(lvl1, 2 * k);
        if u != 0 {
          FreeTable(u, s, l + Delete.SecondLists(s, d, k));
        }
      }
      Delete.Assoc(l, Delete.SecondLists(s, d, NB_BLOCS), [d]);
      Delete.FreeAllSnoc(s, l + Delete.SecondLists(s, d, NB_BLOCS), d);
      FreeBloc(d);
    }

    /** The direct blocks of inode `i`. */
    method FreeDirect(inode: Inode, i: nat, ghost s: State)
      requires TreeInv(s) && IsRoot(s, i) && inode == InodeOf(s.blocks[i])
      requires Delete.CanFree(s, Delete.Slots(s, i, NB_BLOCS)) && View() == s
      modifies this, blocks
      ensures View() == Delete.FreeAll(s, Delete.Slots(s, i, NB_BLOCS))
    {
      hide Delete.CanFree, Delete.FreeAll, Delete.Slots, FreeInv;
      Delete.NothingFreed(s, i);
      for k := 0 to NB_BLOCS
        invariant Delete.CanFree(s, Delete.Slots(s, i, k))
        invariant View() == Delete.FreeAll(s, Delete.Slots(s, i, k))
      {
        Delete.SlotsPrefix(s, i, k + 1, NB_BLOCS);
        Delete.CanFreeLe(s, Delete.Slots(s, i, k + 1), Delete.Slots(s, i, NB_BLOCS));
        assert inode.direct[k] == Slot(s, i, k);
        Delete.SlotsStep(s, i, k);
        if inode.direct[k] != 0 {
          Delete.FreeAllSnoc(s, Delete.Slots(s, i, k), inode.direct[k]);
          FreeBloc(inode.direct[k]);
        }
      }
    }

    /** `delete_inode`. */
    method DeleteInode(i: nat)
      requires Core(View()) && IsRoot(View(), i)
      modifies this, blocks
      ensures View() == Delete.DeleteInode(old(View()), i)
    {
      hide Delete.CanFree, Delete.Slots, Delete.SecondLists;
      ghost var s := View();
      Delete.TreeCanFree(s, i);
      var inode := ReadInode(i);
      assert SlotOK(s, i, NB_BLOCS) && SlotOK(s, i, NB_BLOCS + 1);
      ghost var all := Delete.TreeList(s, i);
      ghost var l := Delete.Slots(s, i, NB_BLOCS);
      Delete.CanFreeLe(s, l, all);
      FreeDirect(inode, i, s);
      ghost var l1 := l + Delete.TableList(s, inode.indirect);
      Delete.CanFreeLe(s, l1, all);
      if inode.indirect != 0 {
        FreeTable(inode.indirect, s, l);
      } else {
        assert l1 == l;
      }
      ghost var l2 := l1 + Delete.DoubleList(s, inode.double);
      Delete.CanFreeLe(s, l2, all);
      if inode.double != 0 {
        FreeDouble(inode.double, s, l1);
      } else {
        assert l2 == l1;
      }
      Delete.FreeAllSnoc(s, l2, i);
      FreeBloc(i);
    }
  }
}
