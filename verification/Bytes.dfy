/** Sectors as sequences of 512 bytes, and the big-endian 16-bit fields that every
    on-disk structure of the volume is made of. */
module Bytes {

  type byte = x: int | 0 <= x < 256

  const SECTOR_SIZE: nat := 512

  type Block = s: seq<byte> | |s| == 512 witness seq(512, i => 0)

  function ZeroBlock(): Block {
    seq(512, i => 0)
  }

  const ZERO: Block := ZeroBlock()

  datatype Option<+T> = None | Some(value: T)

  /** The 16-bit field at byte offset `off`, most significant byte first. */
  function U16(b: Block, off: nat): (v: nat)
    requires off <= 510
    ensures v < 65536
  {
    b[off] as int * 256 + b[off + 1] as int
  }

  /** The block with the 16-bit field at `off` replaced. */
  function Put16(b: Block, off: nat, v: nat): Block
    requires off <= 510 && v < 65536
  {
    b[off := v / 256][off + 1 := v % 256]
  }

  lemma Put16At(b: Block, off: nat, v: nat)
    requires off <= 510 && v < 65536
    ensures U16(Put16(b, off, v), off) == v
    ensures Put16(b, off, v)[off..off + 2] == [v / 256, v % 256]
    ensures forall k | 0 <= k < 512 && k != off && k != off + 1 :: Put16(b, off, v)[k] == b[k]
    ensures forall o: nat | o <= 510 && (o + 1 < off || off + 1 < o) :: U16(Put16(b, off, v), o) == U16(b, o)
  {
  }

  predicate Fields16(vals: seq<nat>) {
    forall j | 0 <= j < |vals| :: vals[j] < 65536
  }

  /** The block with consecutive 16-bit fields written from `off` on. */
  function PutFields(b: Block, off: nat, vals: seq<nat>): Block
    requires off + 2 * |vals| <= 512 && Fields16(vals)
    decreases |vals|
  {
    if vals == [] then b
    else
      var n := |vals| - 1;
      Put16(PutFields(b, off, vals[..n]), off + 2 * n, vals[n])
  }

  lemma {:induction false} PutFieldsAt(b: Block, off: nat, vals: seq<nat>)
    requires off + 2 * |vals| <= 512 && Fields16(vals)
    ensures forall j: nat | j < |vals| :: U16(PutFields(b, off, vals), off + 2 * j) == vals[j]
    ensures forall k | 0 <= k < 512 && (k < off || off + 2 * |vals| <= k) :: PutFields(b, off, vals)[k] == b[k]
    decreases |vals|
  {
    if vals == [] {
    } else {
      var n := |vals| - 1;
      PutFieldsAt(b, off, vals[..n]);
      Put16At(PutFields(b, off, vals[..n]), off + 2 * n, vals[n]);
    }
  }
}
