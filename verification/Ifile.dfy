/** File descriptors (src/disque/ifile.c): a cursor and a one-block buffer written back
    when the cursor leaves the block. The promise is a flat array of bytes and a cursor. */
module Ifile {
  import opened Bytes
  import opened Codec
  import opened FreeList
  import opened BlockMap
  import opened Allocate
  import opened Filesystem
  import opened FileView
  import opened Space

  const READ_EOF: int := -1

  /** `bytes` written over `a` from position `c` on. */
  function Splice(a: seq<byte>, c: nat, bytes: seq<byte>): (r: seq<byte>)
    requires c + |bytes| <= |a|
    ensures |r| == |a|
    ensures forall p | 0 <= p < |a| :: r[p] == if c <= p < c + |bytes| then bytes[p - c] else a[p]
  {
    a[..c] + bytes + a[c + |bytes|..]
  }

  /** Changing one byte of the buffer changes that byte of the contents. */
  lemma OverlaidByte(s: State, i: nat, c: nat, buffer: Block, x: byte)
    requires c < CAPACITY
    ensures Overlaid(s, i, c / 512, buffer[c % 512 := x]) == Overlaid(s, i, c / 512, buffer)[c := x]
  {
    var a := Overlaid(s, i, c / 512, buffer[c % 512 := x]);
    var b := Overlaid(s, i, c / 512, buffer)[c := x];
    forall p: nat | p < CAPACITY ensures a[p] == b[p] {
      OverlaidAt(s, i, c / 512, buffer[c % 512 := x], p);
      OverlaidAt(s, i, c / 512, buffer, p);
      if p / 512 == c / 512 && p % 512 == c % 512 {
        assert p == 512 * (p / 512) + p % 512 == c;
      }
    }
  }

  lemma SpliceSnoc(a: seq<byte>, c: nat, bytes: seq<byte>, k: nat)
    requires k < |bytes| && c + k < |a|
    ensures Splice(a, c, bytes[..k])[c + k := bytes[k]] == Splice(a, c, bytes[..k + 1])
  {
  }

  lemma SliceSnoc(a: seq<byte>, c: nat, k: nat)
    requires c + k < |a|
    ensures a[c..c + k] + [a[c + k]] == a[c..c + k + 1]
  {
  }

  /** How many of `n` bytes can be read at position `c` of a file opened with `size`. */
  function Readable(c: nat, n: nat, size: nat): (r: nat)
    ensures r <= n && (r > 0 ==> c + r <= size * 512) && (r < n ==> c + r >= size * 512)
  {
    if size * 512 <= c then 0 else if c + n <= size * 512 then n else size * 512 - c
  }

  /** What a write that stops has left of file `i`: what was on the disk, or the bytes
      written up to some place. */
  ghost predicate HalfWritten(s: State, s': State, i: nat, c: nat, a: seq<byte>, bytes: seq<byte>) {
    || FileBytes(s', i) == FileBytes(s, i)
    || exists k: nat {:trigger bytes[..k]} ::
         k <= |bytes| && c + k <= |a| && FileBytes(s', i) == Splice(a, c, bytes[..k])
  }

  lemma SameBlockBefore(c: nat, i: nat)
    ensures c / 512 == (c + i + 1) / 512 ==> c / 512 == (c + i) / 512 == (c + i + 1) / 512
    ensures c + i < 512 ==> c / 512 == (c + i) / 512
  {
  }

  /** An open file to its user: an array of bytes, a cursor, the size at opening in blocks,
      whether anything was written, and whether it was closed. */
  datatype FlatFile = FlatFile(bytes: seq<byte>, cursor: nat, size: nat, modified: bool, closed: bool)

  class FileDesc {
    const vol: Volume
    const buffer: array<byte>
    var inoeud: nat
    var cursor: nat
    var size: nat
    var kind: FileType
    var modified: bool
    var closed: bool

    /** The buffer holds the block under the cursor; if it differs from the disk, the
        descriptor knows it. Past the first block the disk has room for it already. */
    ghost predicate Open()
      reads this, buffer, vol, vol.blocks
    {
      && buffer.Length == SECTOR_SIZE
      && vol.Valid() && IsRoot(vol.View(), inoeud)
      && cursor < CAPACITY && size <= MAX_FBLOC
      && (!modified ==> buffer[..] == FBlock(vol.View(), inoeud, cursor / 512))
      && (cursor >= SECTOR_SIZE ==> Vbloc(vol.View(), inoeud, cursor / 512) != 0)
    }

    /** The file as its user sees it: the disk overlaid by the buffer. */
    ghost function Contents(): (r: seq<byte>)
      requires buffer.Length == SECTOR_SIZE
      reads this, buffer, vol, vol.blocks
      ensures |r| == CAPACITY
    {
      Overlaid(vol.View(), inoeud, cursor / 512, buffer[..])
    }

    /** What the descriptor stands for. */
    ghost function Flat(): FlatFile
      requires buffer.Length == SECTOR_SIZE
      reads this, buffer, vol, vol.blocks
    {
      FlatFile(Contents(), cursor, size, modified, closed)
    }

    /** `open_ifile` and `iopen_ifile`. */
    constructor OpenIfile(v: Volume, i: nat)
      requires v.Valid() && IsRoot(v.View(), i)
      modifies v, v.blocks
      ensures vol == v && inoeud == i && fresh(buffer)
      ensures vol.View() == old(v.View())
      ensures Open() && !closed && !modified && cursor == 0
      ensures size == Taille(vol.View(), i) && TypeCode(kind) == vol.View().blocks[i][2]
      ensures Contents() == FileBytes(vol.View(), i)
    {
      vol := v;
      inoeud := i;
      cursor := 0;
      modified := false;
      closed := false;
      var inode := v.ReadInode(i);
      size := inode.taille;
      kind := inode.kind;
      buffer := new byte[SECTOR_SIZE](k => 0);
      new;
      var first := vol.VblocOfFbloc(i, 0);
      if first != 0 {
        VblocLocated(vol.View(), i, 0);
        FillBuffer(vol.blocks[first]);
      } else {
        assert buffer[..] == ZERO;
      }
      OverlaidClean(vol.View(), i, 0, buffer[..]);
    }

    /** What a descriptor that has written nothing shows is on the disk. */
    lemma DiskShows()
      requires Open()
      ensures !modified ==> FileBytes(vol.View(), inoeud) == Contents()
    {
      if !modified {
        OverlaidClean(vol.View(), inoeud, cursor / 512, buffer[..]);
      }
    }

    /** `flush_ifile`. Stops the process (`alive` false) exactly when no block can be had
        for the buffer; the source would then write it over the superblock. */
    method FlushIfile() returns (alive: bool)
      requires Open()
      modifies vol, vol.blocks
      ensures closed || !modified ==> alive && vol.View() == old(vol.View())
      ensures !closed ==> Costs(old(vol.View()), inoeud, Held(cursor, modified), vol.View(), alive)
      ensures alive ==> Open() && Contents() == old(Contents())
      ensures alive && !closed ==> FileBytes(vol.View(), inoeud) == old(Contents())
      ensures vol.Valid() && OnlyFile(old(vol.View()), vol.View(), inoeud)
      ensures !alive ==> FileBytes(vol.View(), inoeud) == FileBytes(old(vol.View()), inoeud)
      ensures old(cursor) >= SECTOR_SIZE ==> alive
    {
      if closed {
        return true;
      }
      ghost var s := vol.View();
      alive := true;
      var f := cursor / 512;
      if modified {
        WriteBackCorrect(s, inoeud, f, buffer[..]);
        alive := WriteBuffer(f);
        FlushReady(s, inoeud, cursor);
        if alive {
          OverlaidClean(vol.View(), inoeud, f, buffer[..]);
        }
      } else {
        CostsNothing(s, inoeud);
        OverlaidClean(s, inoeud, f, buffer[..]);
      }
    }

    method WriteBuffer(f: nat) returns (ok: bool)
      requires vol.Valid() && IsRoot(vol.View(), inoeud) && buffer.Length == SECTOR_SIZE
      modifies vol, vol.blocks
      ensures (vol.View(), ok) == WriteBack(old(vol.View()), inoeud, f, buffer[..])
    {
      AllocCorrect(vol.View(), inoeud, f);
      var b := vol.AllocateVblocOfFbloc(inoeud, f);
      ok := b != 0;
      if ok {
        vol.blocks[b] := buffer[..];
      }
    }

    /** `seek_ifile`. When the cursor leaves its block the buffer is written back and the
        next block is allocated, even for a read; the process stops exactly when there is
        no room for both. */
    method SeekIfile(offset: int) returns (alive: bool)
      requires Open() && 0 <= cursor + offset
      modifies this`cursor, buffer, vol, vol.blocks
      ensures closed ==> alive && cursor == old(cursor) && vol.View() == old(vol.View())
      ensures closed ==> buffer[..] == old(buffer[..])
      ensures !closed ==>
                Costs(old(vol.View()), inoeud, Entered(old(cursor), old(cursor) + offset, modified), vol.View(), alive)
      ensures alive && !closed ==> Open() && cursor == old(cursor) + offset && Contents() == old(Contents())
      ensures vol.Valid() && OnlyFile(old(vol.View()), vol.View(), inoeud)
      ensures alive || FileBytes(vol.View(), inoeud) == FileBytes(old(vol.View()), inoeud)
              || FileBytes(vol.View(), inoeud) == old(Contents())
      ensures !alive && old(cursor) >= SECTOR_SIZE ==> FileBytes(vol.View(), inoeud) == old(Contents())
      ensures !alive && !modified ==> FileBytes(vol.View(), inoeud) == old(Contents())
      ensures (old(cursor) + offset) / 512 == old(cursor) / 512 ==> alive && vol.View() == old(vol.View())
    {
      hide Costs, Inv, OnlyFile, Overlaid;
      OnlyFileItself(vol.View(), inoeud);
      DiskShows();
      if closed {
        return true;
      }
      var target := cursor + offset;
      if target / 512 != cursor / 512 {
        alive := MoveTo(target);
      } else {
        CostsNothing(vol.View(), inoeud);
        alive := true;
        cursor := target;
      }
    }

    /** Leaving the block: flush, then bring in the other one. */
    method MoveTo(target: nat) returns (alive: bool)
      requires Open() && !closed && target / 512 != cursor / 512
      modifies this`cursor, buffer, vol, vol.blocks
      ensures Costs(old(vol.View()), inoeud, Entered(old(cursor), target, modified), vol.View(), alive)
      ensures alive ==> Open() && cursor == target && Contents() == old(Contents())
      ensures vol.Valid() && OnlyFile(old(vol.View()), vol.View(), inoeud)
      ensures alive || FileBytes(vol.View(), inoeud) == FileBytes(old(vol.View()), inoeud)
              || FileBytes(vol.View(), inoeud) == old(Contents())
      ensures !alive && old(cursor) >= SECTOR_SIZE ==> FileBytes(vol.View(), inoeud) == old(Contents())
    {
      hide Costs, Inv, OnlyFile, Overlaid;
      ghost var s0, c0 := vol.View(), cursor;
      var first := FlushIfile();
      ghost var s1 := vol.View();
      alive := first;
      if first {
        alive := LoadBlock(target);
        OnlyFileTransitive(s0, s1, vol.View(), inoeud);
      }
      InTwo(s0, inoeud, Held(c0, modified), s1, first, {target / 512}, vol.View(), alive);
      assert Entered(c0, target, modified) == Held(c0, modified) + {target / 512};
    }

    method FillBuffer(data: Block)
      requires buffer.Length == SECTOR_SIZE
      modifies buffer
      ensures buffer[..] == data
    {
      forall k | 0 <= k < SECTOR_SIZE {
        buffer[k] := data[k];
      }
    }

    /** Bring the block of position `target` into the buffer and move there. */
    method LoadBlock(target: nat) returns (alive: bool)
      requires vol.Valid() && IsRoot(vol.View(), inoeud) && buffer.Length == SECTOR_SIZE && size <= MAX_FBLOC
      modifies this`cursor, buffer, vol, vol.blocks
      ensures vol.Valid() && OnlyFile(old(vol.View()), vol.View(), inoeud)
      ensures FileBytes(vol.View(), inoeud) == FileBytes(old(vol.View()), inoeud)
      ensures Costs(old(vol.View()), inoeud, {target / 512}, vol.View(), alive)
      ensures alive ==> Open() && cursor == target && Contents() == FileBytes(vol.View(), inoeud)
    {
      var f := target / 512;
      AllocLoadable(vol.View(), inoeud, f);
      var b := vol.AllocateVblocOfFbloc(inoeud, f);
      alive := b != 0;
      if alive {
        FillBuffer(vol.blocks[b]);
        cursor := target;
        OverlaidClean(vol.View(), inoeud, f, buffer[..]);
      }
    }

    /** `seek2_ifile`. */
    method Seek2Ifile(position: nat) returns (alive: bool)
      requires Open()
      modifies this`cursor, buffer, vol, vol.blocks
      ensures closed ==> alive && cursor == old(cursor) && vol.View() == old(vol.View())
      ensures closed ==> buffer[..] == old(buffer[..])
      ensures !closed ==> Costs(old(vol.View()), inoeud, Entered(old(cursor), position, modified), vol.View(), alive)
      ensures alive && !closed ==> Open() && cursor == position && Contents() == old(Contents())
      ensures vol.Valid() && OnlyFile(old(vol.View()), vol.View(), inoeud)
      ensures alive || FileBytes(vol.View(), inoeud) == FileBytes(old(vol.View()), inoeud)
              || FileBytes(vol.View(), inoeud) == old(Contents())
      ensures !alive && !modified ==> FileBytes(vol.View(), inoeud) == old(Contents())
      ensures position / 512 == old(cursor) / 512 ==> alive && vol.View() == old(vol.View())
    {
      if closed {
        return true;
      }
      alive := SeekIfile(position - cursor);
    }

    /** `close_ifile`: afterwards the disk alone holds the contents. */
    method CloseIfile() returns (alive: bool)
      requires Open()
      modifies this`closed, vol, vol.blocks
      ensures closed || !alive
      ensures alive ==> Open() && Contents() == old(Contents())
      ensures alive && !old(closed) ==> FileBytes(vol.View(), inoeud) == old(Contents())
      ensures old(closed) ==> alive && vol.View() == old(vol.View())
      ensures !old(closed) ==> Costs(old(vol.View()), inoeud, Held(cursor, modified), vol.View(), alive)
      ensures vol.Valid() && OnlyFile(old(vol.View()), vol.View(), inoeud)
      ensures !alive ==> FileBytes(vol.View(), inoeud) == FileBytes(old(vol.View()), inoeud)
    {
      if closed {
        return true;
      }
      alive := FlushIfile();
      closed := alive;
    }

    /** `readc_ifile`: the byte under the cursor, or READ_EOF from the size found at opening. */
    method ReadcIfile() returns (value: int, alive: bool)
      requires Open()
      modifies this`cursor, buffer, vol, vol.blocks
      ensures closed || old(cursor) >= size * SECTOR_SIZE ==>
                && alive && value == READ_EOF && cursor == old(cursor)
                && vol.View() == old(vol.View()) && buffer[..] == old(buffer[..])
      ensures !closed && old(cursor) < size * SECTOR_SIZE ==>
                && value == old(Contents())[old(cursor)] && (alive ==> cursor == old(cursor) + 1)
                && Costs(old(vol.View()), inoeud, Entered(old(cursor), old(cursor) + 1, modified), vol.View(), alive)
      ensures alive ==> Open() && Contents() == old(Contents())
      ensures vol.Valid() && OnlyFile(old(vol.View()), vol.View(), inoeud)
      ensures alive || FileBytes(vol.View(), inoeud) == FileBytes(old(vol.View()), inoeud)
              || FileBytes(vol.View(), inoeud) == old(Contents())
      ensures !alive && !modified ==> FileBytes(vol.View(), inoeud) == old(Contents())
    {
      hide Costs, OnlyFile, Overlaid;
      OnlyFileItself(vol.View(), inoeud);
      if closed || cursor >= size * SECTOR_SIZE {
        return READ_EOF, true;
      }
      value := buffer[cursor % 512];
      OverlaidAt(vol.View(), inoeud, cursor / 512, buffer[..], cursor);
      alive := SeekIfile(1);
    }

    /** `writec_ifile`. */
    method WritecIfile(c: byte) returns (alive: bool)
      requires Open()
      modifies this`cursor, this`modified, buffer, vol, vol.blocks
      ensures closed ==> alive && cursor == old(cursor) && vol.View() == old(vol.View())
      ensures closed ==> buffer[..] == old(buffer[..])
      ensures modified == (old(modified) || !closed)
      ensures !closed ==> Costs(old(vol.View()), inoeud, Entered(old(cursor), old(cursor) + 1, true), vol.View(), alive)
      ensures alive && !closed ==>
                Open() && cursor == old(cursor) + 1 && Contents() == old(Contents())[old(cursor) := c]
      ensures vol.Valid() && OnlyFile(old(vol.View()), vol.View(), inoeud)
      ensures !alive && old(cursor) >= SECTOR_SIZE ==>
                FileBytes(vol.View(), inoeud) == old(Contents())[old(cursor) := c]
      ensures alive || FileBytes(vol.View(), inoeud) == FileBytes(old(vol.View()), inoeud)
              || FileBytes(vol.View(), inoeud) == old(Contents())[old(cursor) := c]
      ensures (old(cursor) + 1) / 512 == old(cursor) / 512 ==> alive && vol.View() == old(vol.View())
    {
      hide Costs, Inv, OnlyFile, Overlaid;
      OnlyFileItself(vol.View(), inoeud);
      if closed {
        return true;
      }
      OverlaidByte(vol.View(), inoeud, cursor, buffer[..], c);
      buffer[cursor % 512] := c;
      modified := true;
      assert buffer[..] == old(buffer[..])[old(cursor) % 512 := c];
      alive := SeekIfile(1);
    }

    /** `i` bytes have been written since the descriptor stood at `c0` with contents `a0`. */
    ghost predicate Written(s0: State, c0: nat, a0: seq<byte>, bytes: seq<byte>, i: nat)
      reads this, buffer, vol, vol.blocks
    {
      && Open() && !closed && i <= |bytes| && cursor == c0 + i && |a0| == CAPACITY
      && OnlyFile(s0, vol.View(), inoeud)
      && Contents() == Splice(a0, c0, bytes[..i]) && (i > 0 ==> modified)
      && (c0 / 512 == (c0 + i) / 512 ==> vol.View() == s0)
      && Costs(s0, inoeud, Crossed(c0, i, true), vol.View(), true)
    }

    method WriteStep(ghost s0: State, ghost c0: nat, ghost a0: seq<byte>, bytes: seq<byte>, i: nat)
      returns (alive: bool)
      requires i < |bytes| && Written(s0, c0, a0, bytes, i)
      modifies this`cursor, this`modified, buffer, vol, vol.blocks
      ensures alive ==> Written(s0, c0, a0, bytes, i + 1)
      ensures Costs(s0, inoeud, Crossed(c0, i + 1, true), vol.View(), alive)
      ensures vol.Valid() && OnlyFile(s0, vol.View(), inoeud)
      ensures !alive && c0 + i >= SECTOR_SIZE ==>
                c0 + i < CAPACITY && FileBytes(vol.View(), inoeud) == Splice(a0, c0, bytes[..i + 1])
      ensures !alive ==> HalfWritten(s0, vol.View(), inoeud, c0, a0, bytes)
      ensures c0 / 512 == (c0 + i + 1) / 512 ==> alive
    {
      hide Costs, Inv, OnlyFile, Overlaid;
      SpliceSnoc(a0, c0, bytes, i);
      ghost var s1 := vol.View();
      alive := WritecIfile(bytes[i]);
      OnlyFileTransitive(s0, s1, vol.View(), inoeud);
      CostsStep(s0, inoeud, c0, i, true, s1, vol.View(), alive);
      SameBlockBefore(c0, i);
    }

    /** The loop of `write_ifile`. */
    method WriteBytes(bytes: seq<byte>) returns (alive: bool)
      requires Open() && !closed
      modifies this`cursor, this`modified, buffer, vol, vol.blocks
      ensures Costs(old(vol.View()), inoeud, Crossed(old(cursor), |bytes|, true), vol.View(), alive)
      ensures alive ==> Written(old(vol.View()), old(cursor), old(Contents()), bytes, |bytes|)
      ensures vol.Valid() && OnlyFile(old(vol.View()), vol.View(), inoeud)
      ensures bytes != [] && old(cursor) + |bytes| == CAPACITY
              && Room(old(vol.View()), inoeud, Crossed(old(cursor), |bytes| - 1, true)) ==>
                !alive && FileBytes(vol.View(), inoeud) == Splice(old(Contents()), old(cursor), bytes)
      ensures !alive ==> HalfWritten(old(vol.View()), vol.View(), inoeud, old(cursor), old(Contents()), bytes)
      ensures old(cursor) / 512 == (old(cursor) + |bytes|) / 512 ==> alive
    {
      hide Costs, Inv, OnlyFile, Overlaid, Crossed, Room, HalfWritten;
      ghost var s0, c0, a0 := vol.View(), cursor, Contents();
      CostsStart(s0, inoeud, c0, true);
      OnlyFileItself(s0, inoeud);
      assert Splice(a0, c0, []) == a0;
      var i := 0;
      while i < |bytes|
        invariant 0 <= i <= |bytes| && Written(s0, c0, a0, bytes, i)
      {
        alive := WriteStep(s0, c0, a0, bytes, i);
        if !alive {
          StoppedAt(s0, inoeud, c0, i, |bytes|, true, vol.View());
          if i + 1 < |bytes| {
            StoppedAt(s0, inoeud, c0, i, |bytes| - 1, true, vol.View());
          } else {
            assert bytes[..i + 1] == bytes;
          }
          return false;
        }
        i := i + 1;
      }
      return true;
    }

    /** `write_ifile`; -1 stands for the process stopping, which it does exactly when there
        is no room for the blocks crossed. A file written to its very last byte is on the
        disk, but the process has stopped on the seek past it. */
    method WriteIfile(bytes: seq<byte>) returns (r: int, alive: bool)
      requires Open()
      modifies this`cursor, this`modified, buffer, vol, vol.blocks
      ensures !closed ==> Costs(old(vol.View()), inoeud, Crossed(old(cursor), |bytes|, true), vol.View(), alive)
      ensures alive ==> Open() && r == |bytes|
      ensures alive && !closed ==> cursor == old(cursor) + |bytes|
      ensures alive ==> modified == (old(modified) || (!closed && bytes != []))
      ensures alive && !closed ==> Contents() == Splice(old(Contents()), old(cursor), bytes)
      ensures closed ==> alive && cursor == old(cursor) && vol.View() == old(vol.View())
      ensures closed ==> buffer[..] == old(buffer[..])
      ensures vol.Valid() && OnlyFile(old(vol.View()), vol.View(), inoeud)
      ensures !closed && bytes != [] && old(cursor) + |bytes| == CAPACITY
              && Room(old(vol.View()), inoeud, Crossed(old(cursor), |bytes| - 1, true)) ==>
                !alive && FileBytes(vol.View(), inoeud) == Splice(old(Contents()), old(cursor), bytes)
      ensures !alive ==> HalfWritten(old(vol.View()), vol.View(), inoeud, old(cursor), old(Contents()), bytes)
      ensures old(cursor) / 512 == (old(cursor) + |bytes|) / 512 ==> alive && vol.View() == old(vol.View())
    {
      hide Costs, Overlaid, HalfWritten;
      if closed {
        return |bytes|, true;
      }
      if bytes == [] {
        CostsNothing(vol.View(), inoeud);
        assert Splice(Contents(), cursor, bytes) == Contents();
        return 0, true;
      }
      alive := WriteBytes(bytes);
      assert bytes[..|bytes|] == bytes;
      return if alive then |bytes| else -1, alive;
    }

    /** `i` bytes, `data`, have been read since the descriptor stood at `c0`. */
    ghost predicate ReadSoFar(s0: State, c0: nat, a0: seq<byte>, data: seq<byte>, i: nat)
      reads this, buffer, vol, vol.blocks
    {
      && Open() && cursor == c0 + i && |data| == i && |a0| == CAPACITY
      && (i > 0 ==> !closed && cursor <= size * SECTOR_SIZE)
      && OnlyFile(s0, vol.View(), inoeud)
      && Contents() == a0 && data == a0[c0..c0 + i]
      && Costs(s0, inoeud, Crossed(c0, i, modified), vol.View(), true)
    }

    method ReadStep(ghost s0: State, ghost c0: nat, ghost a0: seq<byte>, data: seq<byte>, i: nat)
      returns (more: bool, data': seq<byte>, alive: bool)
      requires ReadSoFar(s0, c0, a0, data, i)
      modifies this`cursor, buffer, vol, vol.blocks
      ensures more == (!closed && c0 + i < size * SECTOR_SIZE)
      ensures !more ==> alive && data' == data && ReadSoFar(s0, c0, a0, data, i)
      ensures more ==> Costs(s0, inoeud, Crossed(c0, i + 1, modified), vol.View(), alive)
      ensures alive && more ==> ReadSoFar(s0, c0, a0, data', i + 1)
      ensures !alive && !modified ==> FileBytes(vol.View(), inoeud) == a0
      ensures vol.Valid() && OnlyFile(s0, vol.View(), inoeud)
    {
      hide Costs, Inv, OnlyFile, Overlaid;
      SliceSnoc(a0, c0, i);
      ghost var s1 := vol.View();
      var c: int;
      c, alive := ReadcIfile();
      OnlyFileTransitive(s0, s1, vol.View(), inoeud);
      more, data' := c != READ_EOF, data;
      if more {
        CostsStep(s0, inoeud, c0, i, modified, s1, vol.View(), alive);
        data' := data + [c];
      }
    }

    /** The loop of `read_ifile`; `r` bytes are there to be read. */
    method ReadBytes(nbyte: nat, ghost r: nat) returns (data: seq<byte>, alive: bool)
      requires Open() && r == if closed then 0 else Readable(cursor, nbyte, size)
      modifies this`cursor, buffer, vol, vol.blocks
      ensures Costs(old(vol.View()), inoeud, Crossed(old(cursor), r, modified), vol.View(), alive)
      ensures alive ==> ReadSoFar(old(vol.View()), old(cursor), old(Contents()), data, r)
      ensures !alive && !modified ==> FileBytes(vol.View(), inoeud) == old(Contents())
      ensures vol.Valid() && OnlyFile(old(vol.View()), vol.View(), inoeud)
    {
      hide Costs, Inv, OnlyFile, Overlaid, Crossed;
      ghost var s0, c0, a0 := vol.View(), cursor, Contents();
      CostsStart(s0, inoeud, c0, modified);
      OnlyFileItself(s0, inoeud);
      data := [];
      var i := 0;
      while i < nbyte
        invariant 0 <= i <= r && ReadSoFar(s0, c0, a0, data, i)
      {
        var more;
        more, data, alive := ReadStep(s0, c0, a0, data, i);
        StoppedAt(s0, inoeud, c0, i, r, modified, vol.View());
        if !alive || !more {
          return;
        }
        i := i + 1;
      }
      return data, true;
    }

    /** `read_ifile`: the bytes read, and their number, or READ_EOF if the end was met. */
    method ReadIfile(nbyte: nat) returns (r: int, data: seq<byte>, alive: bool)
      requires Open() && nbyte > 0
      modifies this`cursor, buffer, vol, vol.blocks
      ensures !closed ==>
                Costs(old(vol.View()), inoeud, Crossed(old(cursor), Readable(old(cursor), nbyte, size), modified),
                      vol.View(), alive)
      ensures alive && !closed ==> |data| == Readable(old(cursor), nbyte, size)
      ensures closed ==> alive && vol.View() == old(vol.View()) && data == []
      ensures alive ==> Open() && Contents() == old(Contents())
      ensures alive ==> cursor == old(cursor) + |data| && data == old(Contents())[old(cursor)..cursor]
      ensures alive ==> r == if |data| == nbyte then nbyte else READ_EOF
      ensures !alive && !modified ==> FileBytes(vol.View(), inoeud) == old(Contents())
      ensures vol.Valid() && OnlyFile(old(vol.View()), vol.View(), inoeud)
    {
      hide Costs, Inv, OnlyFile, Overlaid;
      if closed {
        OnlyFileItself(vol.View(), inoeud);
        return READ_EOF, [], true;
      }
      data, alive := ReadBytes(nbyte, Readable(cursor, nbyte, size));
      return if |data| == nbyte then nbyte else READ_EOF, data, alive;
    }
  }

  /** Block 0 apart, the block under the cursor is mapped, so it can be written back. */
  lemma FlushReady(s: State, i: nat, c: nat)
    requires TreeInv(s) && IsRoot(s, i) && (c >= SECTOR_SIZE ==> Vbloc(s, i, c / 512) != 0)
    ensures c >= SECTOR_SIZE ==> Room(s, i, {c / 512})
  {
    if c >= SECTOR_SIZE {
      RoomMapped(s, i, c / 512);
    }
  }

  /** If one more byte is too many then so are `n`. */
  lemma StoppedAt(s: State, i: nat, c: nat, k: nat, n: nat, modified: bool, s': State)
    ensures k < n && Costs(s, i, Crossed(c, k + 1, modified), s', false) ==>
              !Room(s, i, Crossed(c, n, modified)) && Costs(s, i, Crossed(c, n, modified), s', false)
  {
    if k < n && Room(s, i, Crossed(c, n, modified)) {
      CrossedMonotone(c, k + 1, n, modified);
      RoomLess(s, i, Crossed(c, k + 1, modified), Crossed(c, n, modified));
    }
  }

  /** What was never mapped reads as zeros, and everything mapped lies below the size. */
  lemma ZeroBeyondTaille(s: State, i: nat, p: nat)
    requires Inv(s) && IsRoot(s, i) && Taille(s, i) * SECTOR_SIZE <= p < CAPACITY
    ensures FileBytes(s, i)[p] == 0
  {
    assert Vbloc(s, i, p / 512) == 0;
    FileBytesAt(s, i, p);
  }

  /** Writing `n` bytes from the start and closing touches every block up to the last. */
  lemma WholeTouched(n: nat)
    ensures Crossed(0, n, true) + Held(n, true) == Blocks(0, n / 512)
    ensures Crossed(0, n, false) <= Blocks(0, n / 512)
  {
    CrossedAre(0, n, true);
    CrossedAre(0, n, false);
  }

  /** Write to a file just opened, and close it. */
  method WriteOut(w: FileDesc, bytes: seq<byte>) returns (alive: bool)
    requires w.Open() && !w.closed && w.cursor == 0 && bytes != []
    modifies w`cursor, w`modified, w`closed, w.buffer, w.vol, w.vol.blocks
    ensures w.vol.Valid() && OnlyFile(old(w.vol.View()), w.vol.View(), w.inoeud)
    ensures Costs(old(w.vol.View()), w.inoeud, Crossed(0, |bytes|, true) + Held(|bytes|, true), w.vol.View(), alive)
    ensures alive ==>
              |bytes| < CAPACITY && FileBytes(w.vol.View(), w.inoeud) == Splice(old(w.Contents()), 0, bytes)
  {
    hide Costs, Inv, OnlyFile, Overlaid, Crossed, Held, HalfWritten, Room;
    ghost var s1 := w.vol.View();
    var r, first;
    r, first := w.WriteIfile(bytes);
    ghost var s2 := w.vol.View();
    alive := first;
    if first {
      alive := w.CloseIfile();
      OnlyFileTransitive(s1, s2, w.vol.View(), w.inoeud);
    }
    InTwo(s1, w.inoeud, Crossed(0, |bytes|, true), s2, first, Held(|bytes|, true), w.vol.View(), alive);
  }

  /** Open, write from the start, close. */
  method WriteWhole(v: Volume, i: nat, bytes: seq<byte>) returns (alive: bool)
    requires v.Valid() && IsRoot(v.View(), i) && bytes != []
    modifies v, v.blocks
    ensures v.Valid() && OnlyFile(old(v.View()), v.View(), i)
    ensures Costs(old(v.View()), i, Blocks(0, |bytes| / 512), v.View(), alive)
    ensures alive ==> |bytes| < CAPACITY && FileBytes(v.View(), i) == Splice(FileBytes(old(v.View()), i), 0, bytes)
  {
    hide Costs, Inv, OnlyFile, Overlaid, Crossed, Held;
    var w := new FileDesc.OpenIfile(v, i);
    alive := WriteOut(w, bytes);
    WholeTouched(|bytes|);
  }

  /** Open and read from the start. */
  method ReadWhole(v: Volume, i: nat, n: nat) returns (data: seq<byte>, alive: bool)
    requires v.Valid() && IsRoot(v.View(), i) && 0 < n <= Taille(v.View(), i) * SECTOR_SIZE
    modifies v, v.blocks
    ensures v.Valid() && OnlyFile(old(v.View()), v.View(), i)
    ensures Costs(old(v.View()), i, Crossed(0, n, false), v.View(), alive)
    ensures alive ==> n <= CAPACITY && data == FileBytes(old(v.View()), i)[..n]
    ensures alive ==> FileBytes(v.View(), i) == FileBytes(old(v.View()), i)
  {
    hide Costs, Inv, OnlyFile, Overlaid;
    var d := new FileDesc.OpenIfile(v, i);
    ghost var s0 := v.View();
    var r, first;
    r, data, first := d.ReadIfile(n);
    ghost var s1 := v.View();
    alive := first;
    if first {
      alive := d.CloseIfile();
      OnlyFileTransitive(s0, s1, v.View(), i);
    }
    InTwo(s0, i, Crossed(0, n, false), s1, first, {}, v.View(), alive);
    assert Crossed(0, n, false) + {} == Crossed(0, n, false);
  }

  /** The promise of the layer: bytes written to a file, once it is closed and opened
      again, are read back exactly; the rest of the file is as it was, and everything from
      the recorded size on is zero. The process gets to the end exactly when there is room
      for the blocks the bytes lie in, the one behind their end included. */
  method WriteCloseReopenRead(v: Volume, i: nat, bytes: seq<byte>) returns (data: seq<byte>, alive: bool)
    requires v.Valid() && IsRoot(v.View(), i) && bytes != []
    modifies v, v.blocks
    ensures v.Valid() && OnlyFile(old(v.View()), v.View(), i)
    ensures alive <==> Room(old(v.View()), i, Blocks(0, |bytes| / 512))
    ensures alive ==> data == bytes && |bytes| < CAPACITY
    ensures alive ==> FileBytes(v.View(), i) == Splice(FileBytes(old(v.View()), i), 0, bytes)
    ensures alive ==> |bytes| < Taille(v.View(), i) * SECTOR_SIZE
    ensures forall p | Taille(v.View(), i) * SECTOR_SIZE <= p < CAPACITY :: FileBytes(v.View(), i)[p] == 0
  {
    data := [];
    ghost var s0 := v.View();
    alive := WriteWhole(v, i, bytes);
    if alive {
      ghost var s1 := v.View();
      WholeTouched(|bytes|);
      RoomAgain(s0, i, Blocks(0, |bytes| / 512), s1, Crossed(0, |bytes|, false));
      assert |bytes| / 512 in Blocks(0, |bytes| / 512);
      data, alive := ReadWhole(v, i, |bytes|);
      OnlyFileTransitive(s0, s1, v.View(), i);
      assert Splice(FileBytes(s0, i), 0, bytes)[..|bytes|] == bytes;
    }
    forall p | Taille(v.View(), i) * SECTOR_SIZE <= p < CAPACITY ensures FileBytes(v.View(), i)[p] == 0 {
      ZeroBeyondTaille(v.View(), i, p);
    }
  }

  /** How much room writing and reading back may need at most: the blocks themselves and
      twelve tables. */
  lemma WholeBound(s: State, i: nat, n: nat)
    requires n < CAPACITY && s.sb.nbFree >= n / 512 + 13
    ensures Room(s, i, Blocks(0, n / 512))
  {
    AbsentBound(s, i, Blocks(0, n / 512));
  }

  // ------------------------------------------------------------- whole sequences

  datatype Cmd =
    | SeekCmd(position: nat)
    | ReadcCmd
    | WritecCmd(c: byte)
    | ReadCmd(n: nat)
    | WriteCmd(bytes: seq<byte>)
    | FlushCmd
    | CloseCmd

  /** What an operation does to an array of bytes and a cursor; nothing once closed. */
  function Next(f: FlatFile, cmd: Cmd): FlatFile {
    if f.closed then f
    else
      match cmd
      case SeekCmd(position) => f.(cursor := position)
      case ReadcCmd => if f.cursor >= f.size * 512 then f else f.(cursor := f.cursor + 1)
      case WritecCmd(c) => Put(f, [c])
      case ReadCmd(n) => f.(cursor := f.cursor + Readable(f.cursor, n, f.size))
      case WriteCmd(bytes) => Put(f, bytes)
      case FlushCmd => f
      case CloseCmd => f.(closed := true)
  }

  function Put(f: FlatFile, bytes: seq<byte>): FlatFile {
    if f.cursor + |bytes| > |f.bytes| then f
    else f.(bytes := Splice(f.bytes, f.cursor, bytes), cursor := f.cursor + |bytes|,
            modified := f.modified || bytes != [])
  }

  /** The bytes an operation answers. */
  function Answer(f: FlatFile, cmd: Cmd): seq<byte> {
    if f.closed then []
    else
      match cmd
      case ReadcCmd => if f.cursor >= f.size * 512 || f.cursor >= |f.bytes| then [] else [f.bytes[f.cursor]]
      case ReadCmd(n) =>
        var r := Readable(f.cursor, n, f.size);
        if f.cursor + r > |f.bytes| then [] else f.bytes[f.cursor..f.cursor + r]
      case _ => []
  }

  /** The file blocks an operation needs. */
  ghost function Needs(f: FlatFile, cmd: Cmd): set<nat> {
    if f.closed then {}
    else
      match cmd
      case SeekCmd(position) => Entered(f.cursor, position, f.modified)
      case ReadcCmd => if f.cursor >= f.size * 512 then {} else Entered(f.cursor, f.cursor + 1, f.modified)
      case WritecCmd(c) => Entered(f.cursor, f.cursor + 1, true)
      case ReadCmd(n) => Crossed(f.cursor, Readable(f.cursor, n, f.size), f.modified)
      case WriteCmd(bytes) => Crossed(f.cursor, |bytes|, true)
      case FlushCmd => Held(f.cursor, f.modified)
      case CloseCmd => Held(f.cursor, f.modified)
  }

  /** No byte of `c..c + n` is written, and the file is not closed. */
  predicate Passes(f: FlatFile, cmd: Cmd, c: nat, n: nat) {
    match cmd
    case WritecCmd(x) => f.cursor < c || c + n <= f.cursor
    case WriteCmd(bytes) => f.cursor + |bytes| <= c || c + n <= f.cursor
    case CloseCmd => false
    case _ => true
  }

  lemma PassedNext(f: FlatFile, cmd: Cmd, c: nat, n: nat)
    requires !f.closed && c + n <= |f.bytes| && Passes(f, cmd, c, n)
    ensures var g := Next(f, cmd);
            !g.closed && g.size == f.size && |g.bytes| == |f.bytes| && g.bytes[c..c + n] == f.bytes[c..c + n]
  {
  }

  lemma {:induction false} PassedKeep(f: FlatFile, cmds: seq<Cmd>, c: nat, n: nat)
    requires !f.closed && c + n <= |f.bytes|
    requires forall k | 0 <= k < |cmds| :: Passes(NextAll(f, cmds[..k]), cmds[k], c, n)
    ensures var g := NextAll(f, cmds);
            !g.closed && g.size == f.size && |g.bytes| == |f.bytes| && g.bytes[c..c + n] == f.bytes[c..c + n]
    decreases |cmds|
  {
    if cmds == [] {
    } else {
      hide Next, Passes;
      var before := cmds[..|cmds| - 1];
      forall k | 0 <= k < |before| ensures Passes(NextAll(f, before[..k]), before[k], c, n) {
        assert before[..k] == cmds[..k];
      }
      PassedKeep(f, before, c, n);
      PassedNext(NextAll(f, before), cmds[|cmds| - 1], c, n);
    }
  }

  lemma {:induction false} AllJoin(f: FlatFile, cmds: seq<Cmd>, more: seq<Cmd>)
    ensures NextAll(f, cmds + more) == NextAll(NextAll(f, cmds), more)
    ensures AnswerAll(f, cmds + more) == AnswerAll(f, cmds) + AnswerAll(NextAll(f, cmds), more)
    decreases |more|
  {
    if more == [] {
      assert cmds + more == cmds;
    } else {
      var n := |more| - 1;
      assert (cmds + more)[..|cmds + more| - 1] == cmds + more[..n];
      AllJoin(f, cmds, more[..n]);
    }
  }

  lemma AllTwo(f: FlatFile, a: Cmd, b: Cmd)
    ensures NextAll(f, [a, b]) == Next(Next(f, a), b)
    ensures AnswerAll(f, [a, b]) == [Answer(f, a), Answer(Next(f, a), b)]
  {
    hide Next, Answer;
    assert [a, b][..1] == [a] && [a][..0] == [];
    assert NextAll(f, [a]) == Next(f, a) && AnswerAll(f, [a]) == [Answer(f, a)];
  }

  /** What is read at a place is what was written there last: after `bytes` have been
      written at `c`, and whatever has been done elsewhere since, reading there answers
      them, if they lie within the size found at opening. */
  lemma ReadBack(f: FlatFile, c: nat, bytes: seq<byte>, between: seq<Cmd>)
    requires !f.closed && c + |bytes| <= |f.bytes| && c + |bytes| <= f.size * 512
    requires var g := NextAll(f, [SeekCmd(c), WriteCmd(bytes)]);
             forall k | 0 <= k < |between| :: Passes(NextAll(g, between[..k]), between[k], c, |bytes|)
    ensures var answers := AnswerAll(f, [SeekCmd(c), WriteCmd(bytes)] + between + [SeekCmd(c), ReadCmd(|bytes|)]);
            |answers| > 0 && answers[|answers| - 1] == bytes
  {
    hide NextAll, AnswerAll;
    var write, read := [SeekCmd(c), WriteCmd(bytes)], [SeekCmd(c), ReadCmd(|bytes|)];
    AllTwo(f, SeekCmd(c), WriteCmd(bytes));
    var g := NextAll(f, write);
    assert g.bytes[c..c + |bytes|] == bytes;
    PassedKeep(g, between, c, |bytes|);
    var h := NextAll(g, between);
    AllJoin(f, write, between);
    AllJoin(f, write + between, read);
    AllTwo(h, SeekCmd(c), ReadCmd(|bytes|));
    assert Readable(c, |bytes|, h.size) == |bytes|;
  }

  lemma ReadableJoin(c: nat, m: nat, n: nat, size: nat)
    ensures Readable(c, m + n, size) == Readable(c, m, size) + Readable(c + Readable(c, m, size), n, size)
    ensures Readable(c, 1, size) == if c >= size * 512 then 0 else 1
  {
  }

  /** The answer of a read is that piece of the file. */
  lemma AnswerIs(f: FlatFile, n: nat)
    requires !f.closed && f.size * 512 <= |f.bytes|
    ensures var r := Readable(f.cursor, n, f.size);
            && |Answer(f, ReadCmd(n))| == r
            && (r > 0 ==> f.cursor + r <= |f.bytes| && Answer(f, ReadCmd(n)) == f.bytes[f.cursor..f.cursor + r])
  {
  }

  lemma ReadsMove(f: FlatFile, m: nat, n: nat)
    ensures Next(Next(f, ReadCmd(m)), ReadCmd(n)) == Next(f, ReadCmd(m + n))
    ensures !f.closed ==> Next(f, ReadCmd(m)) == f.(cursor := f.cursor + Readable(f.cursor, m, f.size))
  {
    ReadableJoin(f.cursor, m, n, f.size);
    hide Readable;
  }

  /** Reading on is reading at once. */
  lemma ReadsJoin(f: FlatFile, m: nat, n: nat)
    requires f.size * 512 <= |f.bytes|
    ensures Answer(f, ReadCmd(m + n)) == Answer(f, ReadCmd(m)) + Answer(Next(f, ReadCmd(m)), ReadCmd(n))
    ensures Next(Next(f, ReadCmd(m)), ReadCmd(n)) == Next(f, ReadCmd(m + n))
  {
    ReadsMove(f, m, n);
    if !f.closed {
      var c, r := f.cursor, Readable(f.cursor, m, f.size);
      var r' := Readable(c + r, n, f.size);
      ReadableJoin(c, m, n, f.size);
      AnswerIs(f, m);
      AnswerIs(Next(f, ReadCmd(m)), n);
      AnswerIs(f, m + n);
      hide Next, Answer, Readable;
      if r + r' > 0 {
        SlicesJoin(f.bytes, c, r, r');
      }
    }
  }

  lemma SlicesJoin(a: seq<byte>, c: nat, r: nat, r': nat)
    requires c + r + r' <= |a|
    ensures a[c..c + r] + a[c + r..c + r + r'] == a[c..c + r + r']
  {
  }

  lemma ReadcIsRead(f: FlatFile)
    requires f.size * 512 <= |f.bytes|
    ensures Answer(f, ReadcCmd) == Answer(f, ReadCmd(1)) && Next(f, ReadcCmd) == Next(f, ReadCmd(1))
  {
    ReadableJoin(f.cursor, 0, 1, f.size);
  }

  /** Writing on is writing at once. */
  lemma WritesJoin(f: FlatFile, xs: seq<byte>, ys: seq<byte>)
    requires f.cursor + |xs| + |ys| <= |f.bytes|
    ensures Next(Next(f, WriteCmd(xs)), WriteCmd(ys)) == Next(f, WriteCmd(xs + ys))
    ensures |xs| == 1 ==> Next(f, WritecCmd(xs[0])) == Next(f, WriteCmd(xs))
  {
    assert Splice(Splice(f.bytes, f.cursor, xs), f.cursor + |xs|, ys) == Splice(f.bytes, f.cursor, xs + ys);
    assert |xs| == 1 ==> xs == [xs[0]];
  }

  /** What one operation may do: it succeeds exactly when there is room for what it needs,
      the flat file then moves on as it should and the answer is the right one, and once
      the descriptor is closed the disk alone shows the file. */
  twostate predicate Does(fd: FileDesc, cmd: Cmd, answer: seq<byte>, alive: bool)
    requires fd.buffer.Length == SECTOR_SIZE
    reads fd, fd.buffer, fd.vol, fd.vol.blocks
  {
    && fd.vol.Valid() && fd.inoeud == old(fd.inoeud)
    && OnlyFile(old(fd.vol.View()), fd.vol.View(), fd.inoeud)
    && Costs(old(fd.vol.View()), fd.inoeud, Needs(old(fd.Flat()), cmd), fd.vol.View(), alive)
    && (alive ==> fd.Open() && fd.Flat() == Next(old(fd.Flat()), cmd) && answer == Answer(old(fd.Flat()), cmd))
    && (alive && fd.closed && !old(fd.closed) ==> FileBytes(fd.vol.View(), fd.inoeud) == fd.Contents())
    && (alive && cmd.FlushCmd? && !fd.closed ==> FileBytes(fd.vol.View(), fd.inoeud) == fd.Contents())
    && (old(fd.closed) ==> alive && fd.vol.View() == old(fd.vol.View()) && fd.Flat() == old(fd.Flat()))
  }

  method PerformMove(fd: FileDesc, cmd: Cmd) returns (answer: seq<byte>, alive: bool)
    requires fd.Open() && (cmd.SeekCmd? || cmd.FlushCmd? || cmd.CloseCmd?)
    modifies fd`cursor, fd`closed, fd.buffer, fd.vol, fd.vol.blocks
    ensures Does(fd, cmd, answer, alive)
  {
    hide Costs, Inv, OnlyFile, Overlaid;
    answer := [];
    CostsNothing(fd.vol.View(), fd.inoeud);
    OnlyFileItself(fd.vol.View(), fd.inoeud);
    if cmd.SeekCmd? {
      alive := fd.Seek2Ifile(cmd.position);
    } else if cmd.FlushCmd? {
      alive := fd.FlushIfile();
    } else {
      alive := fd.CloseIfile();
    }
  }

  method PerformReadc(fd: FileDesc) returns (answer: seq<byte>, alive: bool)
    requires fd.Open()
    modifies fd`cursor, fd.buffer, fd.vol, fd.vol.blocks
    ensures Does(fd, ReadcCmd, answer, alive)
  {
    hide Costs, Inv, OnlyFile, Overlaid;
    CostsNothing(fd.vol.View(), fd.inoeud);
    OnlyFileItself(fd.vol.View(), fd.inoeud);
    var r;
    r, alive := fd.ReadcIfile();
    answer := if r == READ_EOF then [] else [r];
  }

  method PerformRead(fd: FileDesc, n: nat) returns (answer: seq<byte>, alive: bool)
    requires fd.Open() && n > 0
    modifies fd`cursor, fd.buffer, fd.vol, fd.vol.blocks
    ensures Does(fd, ReadCmd(n), answer, alive)
  {
    hide Costs, Inv, OnlyFile, Overlaid;
    CostsNothing(fd.vol.View(), fd.inoeud);
    OnlyFileItself(fd.vol.View(), fd.inoeud);
    var r;
    r, answer, alive := fd.ReadIfile(n);
  }

  method PerformWritec(fd: FileDesc, c: byte) returns (answer: seq<byte>, alive: bool)
    requires fd.Open()
    modifies fd`cursor, fd`modified, fd.buffer, fd.vol, fd.vol.blocks
    ensures Does(fd, WritecCmd(c), answer, alive)
  {
    hide Costs, Inv, OnlyFile, Overlaid;
    answer := [];
    CostsNothing(fd.vol.View(), fd.inoeud);
    OnlyFileItself(fd.vol.View(), fd.inoeud);
    alive := fd.WritecIfile(c);
  }

  method PerformWrite(fd: FileDesc, bytes: seq<byte>) returns (answer: seq<byte>, alive: bool)
    requires fd.Open()
    modifies fd`cursor, fd`modified, fd.buffer, fd.vol, fd.vol.blocks
    ensures Does(fd, WriteCmd(bytes), answer, alive)
  {
    hide Costs, Inv, OnlyFile, Overlaid;
    answer := [];
    CostsNothing(fd.vol.View(), fd.inoeud);
    OnlyFileItself(fd.vol.View(), fd.inoeud);
    var r;
    r, alive := fd.WriteIfile(bytes);
  }

  /** One operation. */
  method Perform(fd: FileDesc, cmd: Cmd) returns (answer: seq<byte>, alive: bool)
    requires fd.Open() && (cmd.ReadCmd? ==> cmd.n > 0)
    modifies fd`cursor, fd`modified, fd`closed, fd.buffer, fd.vol, fd.vol.blocks
    ensures Does(fd, cmd, answer, alive)
  {
    hide *;
    match cmd {
      case ReadcCmd => answer, alive := PerformReadc(fd);
      case ReadCmd(n) => answer, alive := PerformRead(fd, n);
      case WritecCmd(c) => answer, alive := PerformWritec(fd, c);
      case WriteCmd(bytes) => answer, alive := PerformWrite(fd, bytes);
      case SeekCmd(position) => answer, alive := PerformMove(fd, cmd);
      case FlushCmd => answer, alive := PerformMove(fd, cmd);
      case CloseCmd => answer, alive := PerformMove(fd, cmd);
    }
  }

  function NextAll(f: FlatFile, cmds: seq<Cmd>): FlatFile
    decreases |cmds|
  {
    if cmds == [] then f else Next(NextAll(f, cmds[..|cmds| - 1]), cmds[|cmds| - 1])
  }

  function AnswerAll(f: FlatFile, cmds: seq<Cmd>): seq<seq<byte>>
    decreases |cmds|
  {
    if cmds == [] then []
    else
      var before := cmds[..|cmds| - 1];
      AnswerAll(f, before) + [Answer(NextAll(f, before), cmds[|cmds| - 1])]
  }

  ghost function NeedsAll(f: FlatFile, cmds: seq<Cmd>): set<nat>
    decreases |cmds|
  {
    if cmds == [] then {}
    else
      var before := cmds[..|cmds| - 1];
      NeedsAll(f, before) + Needs(NextAll(f, before), cmds[|cmds| - 1])
  }

  lemma {:induction false} NeedsPrefix(f: FlatFile, cmds: seq<Cmd>, k: nat)
    requires k <= |cmds|
    ensures NeedsAll(f, cmds[..k]) <= NeedsAll(f, cmds)
    decreases |cmds|
  {
    if k == |cmds| {
      assert cmds[..k] == cmds;
    } else {
      assert cmds[..|cmds| - 1][..k] == cmds[..k];
      NeedsPrefix(f, cmds[..|cmds| - 1], k);
    }
  }

  /** The first `k` operations of a sequence have been performed since state `s0`. */
  ghost predicate DoneSoFar(fd: FileDesc, s0: State, f0: FlatFile, cmds: seq<Cmd>, k: nat, answers: seq<seq<byte>>)
    reads fd, fd.buffer, fd.vol, fd.vol.blocks
  {
    && k <= |cmds| && fd.Open() && OnlyFile(s0, fd.vol.View(), fd.inoeud)
    && Costs(s0, fd.inoeud, NeedsAll(f0, cmds[..k]), fd.vol.View(), true)
    && fd.Flat() == NextAll(f0, cmds[..k]) && answers == AnswerAll(f0, cmds[..k])
    && (fd.closed && !f0.closed ==> FileBytes(fd.vol.View(), fd.inoeud) == fd.Contents())
  }

  lemma CostsNext(s0: State, i: nat, f0: FlatFile, cmds: seq<Cmd>, k: nat, s1: State, s2: State, ok: bool)
    requires k < |cmds|
    ensures NextAll(f0, cmds[..k + 1]) == Next(NextAll(f0, cmds[..k]), cmds[k])
    ensures AnswerAll(f0, cmds[..k + 1]) == AnswerAll(f0, cmds[..k]) + [Answer(NextAll(f0, cmds[..k]), cmds[k])]
    ensures Costs(s0, i, NeedsAll(f0, cmds[..k]), s1, true)
            && Costs(s1, i, Needs(NextAll(f0, cmds[..k]), cmds[k]), s2, ok) ==>
              Costs(s0, i, NeedsAll(f0, cmds[..k + 1]), s2, ok) && (!ok ==> Costs(s0, i, NeedsAll(f0, cmds), s2, false))
  {
    assert cmds[..k + 1][..k] == cmds[..k];
    InTwo(s0, i, NeedsAll(f0, cmds[..k]), s1, true, Needs(NextAll(f0, cmds[..k]), cmds[k]), s2, ok);
    NeedsPrefix(f0, cmds, k + 1);
    if Room(s0, i, NeedsAll(f0, cmds)) {
      RoomLess(s0, i, NeedsAll(f0, cmds[..k + 1]), NeedsAll(f0, cmds));
    }
  }

  method PerformNext(fd: FileDesc, ghost s0: State, ghost f0: FlatFile, cmds: seq<Cmd>, k: nat, answers: seq<seq<byte>>)
    returns (answers': seq<seq<byte>>, alive: bool)
    requires k < |cmds| && DoneSoFar(fd, s0, f0, cmds, k, answers) && (cmds[k].ReadCmd? ==> cmds[k].n > 0)
    modifies fd`cursor, fd`modified, fd`closed, fd.buffer, fd.vol, fd.vol.blocks
    ensures fd.vol.Valid() && OnlyFile(s0, fd.vol.View(), fd.inoeud)
    ensures alive ==> DoneSoFar(fd, s0, f0, cmds, k + 1, answers')
    ensures !alive ==> Costs(s0, fd.inoeud, NeedsAll(f0, cmds), fd.vol.View(), false)
  {
    hide Costs, Inv, OnlyFile, Overlaid, Needs, Next, Answer;
    ghost var s1 := fd.vol.View();
    var answer;
    answer, alive := Perform(fd, cmds[k]);
    answers' := answers + [answer];
    CostsNext(s0, fd.inoeud, f0, cmds, k, s1, fd.vol.View(), alive);
    OnlyFileTransitive(s0, s1, fd.vol.View(), fd.inoeud);
  }

  /** The promise of a descriptor, over any sequence of operations: it behaves like an
      array of bytes with a cursor, answers what that would answer, leaves every other file
      alone, gets to the end exactly when there is room for the file blocks it needs, and
      once closed has put the array on the disk. */
  method PerformAll(fd: FileDesc, cmds: seq<Cmd>) returns (answers: seq<seq<byte>>, alive: bool)
    requires fd.Open() && forall k | 0 <= k < |cmds| && cmds[k].ReadCmd? :: cmds[k].n > 0
    modifies fd`cursor, fd`modified, fd`closed, fd.buffer, fd.vol, fd.vol.blocks
    ensures fd.vol.Valid() && OnlyFile(old(fd.vol.View()), fd.vol.View(), fd.inoeud)
    ensures Costs(old(fd.vol.View()), fd.inoeud, NeedsAll(old(fd.Flat()), cmds), fd.vol.View(), alive)
    ensures alive ==> fd.Open() && fd.Flat() == NextAll(old(fd.Flat()), cmds)
    ensures alive ==> answers == AnswerAll(old(fd.Flat()), cmds)
    ensures alive && fd.closed && !old(fd.closed) ==> FileBytes(fd.vol.View(), fd.inoeud) == fd.Contents()
  {
    hide Costs, Inv, OnlyFile, Overlaid, Needs, Next, Answer;
    ghost var s0, f0 := fd.vol.View(), fd.Flat();
    CostsNothing(s0, fd.inoeud);
    OnlyFileItself(s0, fd.inoeud);
    answers := [];
    var k := 0;
    while k < |cmds|
      invariant 0 <= k <= |cmds| && DoneSoFar(fd, s0, f0, cmds, k, answers)
    {
      answers, alive := PerformNext(fd, s0, f0, cmds, k, answers);
      if !alive {
        return;
      }
      k := k + 1;
    }
    assert cmds[..|cmds|] == cmds;
    return answers, true;
  }
}
