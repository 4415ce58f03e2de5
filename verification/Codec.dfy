/** The on-disk records of a volume (src/disque/filesystem.c): free-run headers, the
    superblock and inodes. A decoder answers None where the source stops on an assertion
    or on `exit`. */
module Codec {
  import opened Bytes

  const FREE_MAGIC: nat := 0xDCBA
  const SUPER_MAGIC: nat := 0xABCD
  const INODE_MAGIC: nat := 0xCAFE
  const NB_BLOCS: nat := 10
  const SUPER_SZ_NAME: nat := 32

  // ---------------------------------------------------------------- free runs

  datatype FreeRun = FreeRun(count: nat, next: nat)

  function EncodeFree(r: FreeRun): Block
    requires r.count < 65536 && r.next < 65536
  {
    PutFields(ZERO, 0, [FREE_MAGIC, r.count, r.next])
  }

  function DecodeFree(b: Block): Option<FreeRun> {
    if U16(b, 0) == FREE_MAGIC then Some(FreeRun(U16(b, 2), U16(b, 4))) else None
  }

  lemma FreeRoundTrip(r: FreeRun)
    requires r.count < 65536 && r.next < 65536
    ensures DecodeFree(EncodeFree(r)) == Some(r)
    ensures U16(EncodeFree(r), 0) == 0xDCBA && U16(EncodeFree(r), 2) == r.count && U16(EncodeFree(r), 4) == r.next
  {
    var vals := [FREE_MAGIC, r.count, r.next];
    PutFieldsAt(ZERO, 0, vals);
    assert vals[0] == FREE_MAGIC && vals[1] == r.count && vals[2] == r.next;
  }

  // --------------------------------------------------------------- superblock

  /** `name` is the C string without its terminator. */
  datatype Super = Super(serial: nat, root: nat, nbFree: nat, firstFree: nat, name: seq<byte>)

  predicate SuperValid(sb: Super) {
    && sb.serial < 0x1_0000_0000
    && sb.root < 65536 && sb.nbFree < 65536 && sb.firstFree < 65536
    && |sb.name| < SUPER_SZ_NAME
    && forall k | 0 <= k < |sb.name| :: sb.name[k] != 0
  }

  function PutName(b: Block, name: seq<byte>): (r: Block)
    requires |name| < SUPER_SZ_NAME
    ensures forall k | 0 <= k < 512 :: r[k] == if 12 <= k < 12 + |name| then name[k - 12] else b[k]
  {
    b[..12] + name + b[12 + |name|..]
  }

  function SuperFields(sb: Super): (r: seq<nat>)
    requires SuperValid(sb)
    ensures Fields16(r)
  {
    [SUPER_MAGIC, sb.serial / 65536, sb.serial % 65536, sb.root, sb.nbFree, sb.firstFree]
  }

  function EncodeSuper(sb: Super): Block
    requires SuperValid(sb)
  {
    PutName(PutFields(ZERO, 0, SuperFields(sb)), sb.name)
  }

  /** The bytes of `b` from `k` up to the first zero, at most up to `end`. */
  function CString(b: seq<byte>, k: nat, end: nat): (r: seq<byte>)
    requires k <= end <= |b|
    ensures |r| <= end - k && b[k..k + |r|] == r
    ensures forall j | 0 <= j < |r| :: r[j] != 0
    ensures k + |r| < end ==> b[k + |r|] == 0
    decreases end - k
  {
    if k == end || b[k] == 0 then [] else [b[k]] + CString(b, k + 1, end)
  }

  lemma {:induction false} CStringIs(b: seq<byte>, k: nat, end: nat, name: seq<byte>)
    requires k + |name| <= end <= |b|
    requires b[k..k + |name|] == name
    requires forall j | 0 <= j < |name| :: name[j] != 0
    requires k + |name| < end ==> b[k + |name|] == 0
    ensures CString(b, k, end) == name
    decreases |name|
  {
    if name == [] {
    } else {
      assert b[k] == b[k..k + |name|][0];
      assert b[k + 1..k + 1 + |name[1..]|] == b[k..k + |name|][1..];
      CStringIs(b, k + 1, end, name[1..]);
    }
  }

  function DecodeSuper(b: Block): Option<Super> {
    if U16(b, 0) == SUPER_MAGIC then
      Some(Super(U16(b, 2) * 65536 + U16(b, 4), U16(b, 6), U16(b, 8), U16(b, 10), CString(b, 12, 12 + SUPER_SZ_NAME)))
    else None
  }

  /** Every number of an encoded superblock, read back at its byte offset. */
  lemma EncodedSuperAt(sb: Super)
    requires SuperValid(sb)
    ensures var b := EncodeSuper(sb);
            && U16(b, 0) == 0xABCD
            && U16(b, 2) == sb.serial / 65536 && U16(b, 4) == sb.serial % 65536
            && U16(b, 6) == sb.root && U16(b, 8) == sb.nbFree && U16(b, 10) == sb.firstFree
  {
    var vals := SuperFields(sb);
    var fields := PutFields(ZERO, 0, vals);
    PutFieldsAt(ZERO, 0, vals);
    var b := EncodeSuper(sb);
    forall o: nat | o <= 10 ensures U16(b, o) == U16(fields, o) {
    }
    assert vals[0] == SUPER_MAGIC && vals[1] == sb.serial / 65536 && vals[2] == sb.serial % 65536;
    assert vals[3] == sb.root && vals[4] == sb.nbFree && vals[5] == sb.firstFree;
  }

  /** The name stands from byte 12 on, with zeros behind it. */
  lemma EncodedNameAt(sb: Super)
    requires SuperValid(sb)
    ensures CString(EncodeSuper(sb), 12, 12 + SUPER_SZ_NAME) == sb.name
    ensures EncodeSuper(sb)[12..12 + |sb.name|] == sb.name
    ensures forall k | 12 + |sb.name| <= k < 512 :: EncodeSuper(sb)[k] == 0
  {
    PutFieldsAt(ZERO, 0, SuperFields(sb));
    CStringIs(EncodeSuper(sb), 12, 12 + SUPER_SZ_NAME, sb.name);
  }

  lemma SuperRoundTrip(sb: Super)
    requires SuperValid(sb)
    ensures DecodeSuper(EncodeSuper(sb)) == Some(sb)
  {
    hide EncodeSuper, CString;
    EncodedSuperAt(sb);
    EncodedNameAt(sb);
  }

  // ------------------------------------------------------------------- inodes

  datatype FileType = Normal | Directory | Link | Special

  function TypeCode(t: FileType): (c: byte)
    ensures c < 4
  {
    match t case Normal => 0 case Directory => 1 case Link => 2 case Special => 3
  }

  function TypeOfCode(c: byte): (t: Option<FileType>)
    ensures t.Some? <==> c < 4
    ensures t.Some? ==> TypeCode(t.value) == c
  {
    if c == 0 then Some(Normal) else if c == 1 then Some(Directory)
    else if c == 2 then Some(Link) else if c == 3 then Some(Special) else None
  }

  datatype Inode = Inode(kind: FileType, taille: nat, direct: seq<nat>, indirect: nat, double: nat)

  predicate InodeValid(n: Inode) {
    && n.taille < 65536 && n.indirect < 65536 && n.double < 65536
    && |n.direct| == NB_BLOCS
    && forall k | 0 <= k < NB_BLOCS :: n.direct[k] < 65536
  }

  /** Byte 0: magic; byte 2: type; from byte 3: size and direct table; from byte 27 the
      two indirection tables. */
  function EncodeInode(n: Inode): Block
    requires InodeValid(n)
  {
    var b := PutFields(ZERO, 0, [INODE_MAGIC])[2 := TypeCode(n.kind)];
    PutFields(PutFields(b, 3, [n.taille] + n.direct), 27, [n.indirect, n.double])
  }

  predicate IsInode(b: Block) {
    U16(b, 0) == INODE_MAGIC && b[2] < 4
  }

  function DirectOf(b: Block): (d: seq<nat>)
    ensures |d| == NB_BLOCS
    ensures forall k: nat | k < NB_BLOCS :: d[k] == U16(b, 5 + 2 * k)
  {
    [U16(b, 5), U16(b, 7), U16(b, 9), U16(b, 11), U16(b, 13),
     U16(b, 15), U16(b, 17), U16(b, 19), U16(b, 21), U16(b, 23)]
  }

  function InodeOf(b: Block): (n: Inode)
    requires IsInode(b)
    ensures InodeValid(n)
  {
    Inode(TypeOfCode(b[2]).value, U16(b, 3), DirectOf(b), U16(b, 27), U16(b, 29))
  }

  function DecodeInode(b: Block): Option<Inode> {
    if IsInode(b) then Some(InodeOf(b)) else None
  }

  /** Every field of an encoded inode, read back at its byte offset. */
  lemma EncodedInodeAt(n: Inode)
    requires InodeValid(n)
    ensures IsInode(EncodeInode(n))
    ensures U16(EncodeInode(n), 0) == 0xCAFE && EncodeInode(n)[2] == TypeCode(n.kind)
    ensures TypeCode(n.kind) == match n.kind case Normal => 0 case Directory => 1 case Link => 2 case Special => 3
    ensures U16(EncodeInode(n), 3) == n.taille
    ensures forall k: nat | k < NB_BLOCS :: U16(EncodeInode(n), 5 + 2 * k) == n.direct[k]
    ensures U16(EncodeInode(n), 27) == n.indirect
    ensures U16(EncodeInode(n), 29) == n.double
  {
    var b0 := PutFields(ZERO, 0, [INODE_MAGIC]);
    var b1 := b0[2 := TypeCode(n.kind)];
    var vals := [n.taille] + n.direct;
    var b2 := PutFields(b1, 3, vals);
    var b3 := PutFields(b2, 27, [n.indirect, n.double]);
    PutFieldsAt(ZERO, 0, [INODE_MAGIC]);
    PutFieldsAt(b1, 3, vals);
    PutFieldsAt(b2, 27, [n.indirect, n.double]);
    assert [INODE_MAGIC][0] == INODE_MAGIC && vals[0] == n.taille;
    assert [n.indirect, n.double][0] == n.indirect && [n.indirect, n.double][1] == n.double;
    forall k: nat | k < NB_BLOCS ensures U16(b3, 5 + 2 * k) == n.direct[k] {
      assert vals[k + 1] == n.direct[k];
    }
  }

  lemma InodeRoundTrip(n: Inode)
    requires InodeValid(n)
    ensures DecodeInode(EncodeInode(n)) == Some(n)
  {
    EncodedInodeAt(n);
    assert InodeOf(EncodeInode(n)).direct == n.direct;
  }
}
