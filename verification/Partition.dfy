/** Volumes on the disk: coordinates of blocks (src/disque/volume.c:133-206), the partition
    record in sector (0,0) (lines 11-48 and 88-127), and the partition table with its
    guarded creation and removal (src/disque/mkvol.c:20-70, src/disque/rvol.c:15-22). */
module Partition {
  import opened Bytes

  const HDA_MAXSECTOR: nat := 16
  const MAX_VOLUME: nat := 8
  const MBR_MAGIC: nat := 0xB0B0

  datatype VolType = Base | Annexe | Other

  datatype Vol = Vol(startCyl: nat, startSec: nat, nsector: nat, kind: VolType)

  // ------------------------------------------------------------------- coordinates

  /** Sectors of the disk in the order of their cylinders. */
  function Linear(cyl: nat, sec: nat): nat {
    16 * cyl + sec
  }

  function Start(v: Vol): nat {
    Linear(v.startCyl, v.startSec)
  }

  /** The sectors of a volume, by their place on the disk. */
  predicate Holds(v: Vol, place: int) {
    Start(v) <= place < Start(v) + v.nsector
  }

  function Coord(v: Vol, bloc: nat): (nat, nat) {
    (v.startCyl + (v.startSec + bloc) / 16, (v.startSec + bloc) % 16)
  }

  /** `convert_bloc`: None for an unknown volume and for a block past its end. */
  function ConvertBloc(vols: seq<Vol>, nvol: nat, bloc: nat): Option<(nat, nat)> {
    if nvol < |vols| && bloc < vols[nvol].nsector then Some(Coord(vols[nvol], bloc)) else None
  }

  /** `convert_cyl_sec` on one volume. */
  function BlocOf(v: Vol, cyl: nat, sec: nat): Option<nat> {
    if cyl < v.startCyl then None
    else
      var blc := (cyl - v.startCyl + 1) * 16 - v.startSec - (16 - sec);
      if 0 <= blc < v.nsector then Some(blc) else None
  }

  function ConvertCylSec(vols: seq<Vol>, nvol: nat, cyl: nat, sec: nat): Option<nat> {
    if |vols| <= nvol then None else BlocOf(vols[nvol], cyl, sec)
  }

  /** Block numbers and sector coordinates of a volume correspond one to one: a block goes
      to the sector that many places from the start, which comes back as that block, and a
      sector is refused exactly when it is not one of the volume's. */
  lemma MutualInverses(vols: seq<Vol>, nvol: nat, bloc: nat, cyl: nat, sec: nat)
    requires sec < 16
    ensures ConvertBloc(vols, nvol, bloc).Some? <==> nvol < |vols| && bloc < vols[nvol].nsector
    ensures ConvertBloc(vols, nvol, bloc).Some? ==>
              var (c, s) := ConvertBloc(vols, nvol, bloc).value;
              && s < 16 && 16 * c + s == 16 * vols[nvol].startCyl + vols[nvol].startSec + bloc
              && Linear(c, s) == Start(vols[nvol]) + bloc && ConvertCylSec(vols, nvol, c, s) == Some(bloc)
    ensures ConvertCylSec(vols, nvol, cyl, sec).Some? <==> nvol < |vols| && Holds(vols[nvol], Linear(cyl, sec))
    ensures ConvertCylSec(vols, nvol, cyl, sec).Some? ==>
              ConvertBloc(vols, nvol, ConvertCylSec(vols, nvol, cyl, sec).value) == Some((cyl, sec))
  {
    if nvol < |vols| {
      var v := vols[nvol];
      var (c, s) := Coord(v, bloc);
      assert 16 * ((v.startSec + bloc) / 16) + s == v.startSec + bloc;
      if Holds(v, Linear(cyl, sec)) {
        var b := Linear(cyl, sec) - Start(v);
        assert v.startSec + b == 16 * (cyl - v.startCyl) + sec;
      }
    }
  }

  // ----------------------------------------------------------------- disjointness

  /** No sector belongs to both. */
  ghost predicate Disjoint(v: Vol, w: Vol) {
    forall place: nat :: !(Holds(v, place) && Holds(w, place))
  }

  /** The place of the last sector, if there is one. */
  function Last(v: Vol): int {
    Start(v) + v.nsector - 1
  }

  /** What `chck_possible` asks of one volume: neither end of the new one lies in it, and
      it does not lie inside the new one. */
  predicate Apart(v: Vol, w: Vol) {
    !Holds(w, Start(v)) && !Holds(w, Last(v)) && !Holds(v, Start(w))
  }

  /** Looking at the ends, and for containment, is enough. */
  lemma EndsDecide(v: Vol, w: Vol)
    requires v.nsector > 0 && w.nsector > 0
    ensures Apart(v, w) <==> Disjoint(v, w)
    ensures Disjoint(v, w) <==> Disjoint(w, v)
    ensures var a, b := 16 * v.startCyl + v.startSec, 16 * w.startCyl + w.startSec;
            Disjoint(v, w) <==> a + v.nsector <= b || b + w.nsector <= a
  {
    if Disjoint(v, w) {
      assert !(Holds(v, Start(v)) && Holds(w, Start(v)));
      assert !(Holds(v, Last(v)) && Holds(w, Last(v)));
      assert !(Holds(v, Start(w)) && Holds(w, Start(w)));
    }
  }

  /** Different blocks of disjoint volumes, or of one volume, lie in different sectors. */
  lemma Isolation(vols: seq<Vol>, n: nat, b: nat, m: nat, c: nat)
    requires n < |vols| && b < vols[n].nsector && m < |vols| && c < vols[m].nsector
    requires n != m ==> Disjoint(vols[n], vols[m])
    ensures Coord(vols[n], b) == Coord(vols[m], c) <==> n == m && b == c
  {
    MutualInverses(vols, n, b, 0, 0);
    MutualInverses(vols, m, c, 0, 0);
    assert Holds(vols[n], Start(vols[n]) + b) && Holds(vols[m], Start(vols[m]) + c);
  }

  // ------------------------------------------------------------------- the record

  function TypeCode(k: VolType): (c: byte)
    ensures c < 3
  {
    match k case Base => 0 case Annexe => 1 case Other => 2
  }

  function TypeOf(c: byte): (k: Option<VolType>)
    ensures k.Some? <==> c < 3
    ensures k.Some? ==> TypeCode(k.value) == c
  {
    if c == 0 then Some(Base) else if c == 1 then Some(Annexe) else if c == 2 then Some(Other) else None
  }

  function Low(n: nat): byte {
    n % 256
  }

  /** Five bytes for one volume; numbers too large lose their high bits. */
  function PutVol(b: Block, off: nat, v: Vol, code: byte): Block
    requires off + 5 <= 512
  {
    var start := b[off := Low(v.startCyl)][off + 1 := Low(v.startSec)];
    start[off + 2 := Low(v.nsector / 256)][off + 3 := Low(v.nsector)][off + 4 := code]
  }

  function PutVols(b: Block, vols: seq<Vol>, code: VolType -> byte): Block
    requires |vols| <= MAX_VOLUME
    decreases |vols|
  {
    if vols == [] then b
    else
      var n := |vols| - 1;
      PutVol(PutVols(b, vols[..n], code), 3 + 5 * n, vols[n], code(vols[n].kind))
  }

  /** `save_mbr`: magic, number of volumes, volumes. */
  function EncodeMbr(vols: seq<Vol>, code: VolType -> byte): Block
    requires |vols| <= MAX_VOLUME
  {
    PutVols(Put16(ZERO, 0, MBR_MAGIC)[2 := |vols|], vols, code)
  }

  function GetVol(b: Block, off: nat): Option<Vol>
    requires off + 5 <= 512
  {
    var kind := TypeOf(b[off + 4]);
    if kind.None? then None else Some(Vol(b[off], b[off + 1], U16(b, off + 2), kind.value))
  }

  function GetVols(b: Block, n: nat): Option<seq<Vol>>
    requires n <= MAX_VOLUME
  {
    if n == 0 then Some([])
    else
      var before := GetVols(b, n - 1);
      var last := GetVol(b, 3 + 5 * (n - 1));
      if before.None? || last.None? then None else Some(before.value + [last.value])
  }

  /** `init_mbr_s`; None where the source would run past its table of eight or leave a type
      unset. It does not look at the magic. */
  function DecodeMbr(b: Block): Option<seq<Vol>> {
    if b[2] > MAX_VOLUME then None else GetVols(b, b[2])
  }

  predicate Fits(v: Vol) {
    v.startCyl < 256 && v.startSec < 256 && v.nsector < 65536
  }

  /** What is read back for a volume written with type code `code`. */
  function Truncated(v: Vol, code: byte): Option<Vol> {
    var kind := TypeOf(code);
    if kind.None? then None
    else Some(Vol(v.startCyl % 256, v.startSec % 256, v.nsector % 65536, kind.value))
  }

  lemma TruncatedIs(v: Vol, code: byte)
    ensures Truncated(v, code) == Some(v) <==> Fits(v) && TypeOf(code) == Some(v.kind)
  {
  }

  lemma PutVolAt(b: Block, off: nat, v: Vol, code: byte)
    requires off + 5 <= 512
    ensures GetVol(PutVol(b, off, v, code), off) == Truncated(v, code)
    ensures forall o: nat | o + 5 <= off :: GetVol(PutVol(b, off, v, code), o) == GetVol(b, o)
    ensures forall k | 0 <= k < off :: PutVol(b, off, v, code)[k] == b[k]
  {
    assert Low(v.nsector / 256) * 256 + Low(v.nsector) == v.nsector % 65536;
  }

  lemma {:induction false} PutVolsAt(b: Block, vols: seq<Vol>, code: VolType -> byte, i: nat)
    requires |vols| <= MAX_VOLUME
    ensures forall k | 0 <= k < 3 :: PutVols(b, vols, code)[k] == b[k]
    ensures i < |vols| ==> GetVol(PutVols(b, vols, code), 3 + 5 * i) == Truncated(vols[i], code(vols[i].kind))
    decreases |vols|
  {
    hide PutVol, GetVol, Truncated;
    if vols == [] {
    } else {
      var n := |vols| - 1;
      PutVolsAt(b, vols[..n], code, i);
      PutVolAt(PutVols(b, vols[..n], code), 3 + 5 * n, vols[n], code(vols[n].kind));
    }
  }

  lemma {:induction false} GetVolsAre(b: Block, vols: seq<Vol>, got: seq<Option<Vol>>, n: nat)
    requires n <= |vols| == |got| && |vols| <= MAX_VOLUME
    requires forall i | 0 <= i < n :: GetVol(b, 3 + 5 * i) == got[i]
    ensures GetVols(b, n) == Some(vols[..n]) <==> forall i | 0 <= i < n :: got[i] == Some(vols[i])
  {
    if n == 0 {
    } else {
      GetVolsAre(b, vols, got, n - 1);
      assert vols[..n] == vols[..n - 1] + [vols[n - 1]];
      if GetVols(b, n) == Some(vols[..n]) {
        var before := GetVols(b, n - 1);
        assert before.value == (before.value + [GetVol(b, 3 + 5 * (n - 1)).value])[..n - 1];
        assert vols[..n][..n - 1] == vols[..n - 1];
        assert GetVol(b, 3 + 5 * (n - 1)).value == vols[..n][n - 1];
      }
    }
  }

  lemma EncodedVols(vols: seq<Vol>, code: VolType -> byte, got: seq<Option<Vol>>)
    requires |vols| == |got| <= MAX_VOLUME
    requires forall i | 0 <= i < |vols| :: got[i] == Truncated(vols[i], code(vols[i].kind))
    ensures DecodeMbr(EncodeMbr(vols, code)) == Some(vols) <==> forall i | 0 <= i < |vols| :: got[i] == Some(vols[i])
  {
    var head := Put16(ZERO, 0, MBR_MAGIC)[2 := |vols|];
    var b := EncodeMbr(vols, code);
    PutVolsAt(head, vols, code, 0);
    forall i: nat | i < |vols| ensures GetVol(b, 3 + 5 * i) == got[i] {
      PutVolsAt(head, vols, code, i);
    }
    GetVolsAre(b, vols, got, |vols|);
    assert vols[..|vols|] == vols;
  }

  lemma PutVolBytes(b: Block, off: nat, v: Vol, code: byte)
    requires off + 5 <= 512
    ensures PutVol(b, off, v, code)[off..off + 5] ==
            [v.startCyl % 256, v.startSec % 256, v.nsector / 256 % 256, v.nsector % 256, code]
    ensures forall k | 0 <= k < 512 && (k < off || off + 5 <= k) :: PutVol(b, off, v, code)[k] == b[k]
  {
  }

  lemma {:induction false} PutVolsBytes(b: Block, vols: seq<Vol>, code: VolType -> byte, i: nat)
    requires |vols| <= MAX_VOLUME
    ensures i < |vols| ==>
              PutVols(b, vols, code)[3 + 5 * i..8 + 5 * i] ==
              [vols[i].startCyl % 256, vols[i].startSec % 256, vols[i].nsector / 256 % 256, vols[i].nsector % 256,
               code(vols[i].kind)]
    ensures forall k | 0 <= k < 512 && (k < 3 || 3 + 5 * |vols| <= k) :: PutVols(b, vols, code)[k] == b[k]
    decreases |vols|
  {
    hide PutVol;
    if vols == [] {
    } else {
      var n := |vols| - 1;
      var before := PutVols(b, vols[..n], code);
      PutVolsBytes(b, vols[..n], code, i);
      PutVolBytes(before, 3 + 5 * n, vols[n], code(vols[n].kind));
      assert i < n ==> PutVols(b, vols, code)[3 + 5 * i..8 + 5 * i] == before[3 + 5 * i..8 + 5 * i];
    }
  }

  /** Every byte of the record: the magic in bytes 0 and 1, the number of volumes in byte 2,
      then five bytes for each volume, and zeros. */
  lemma MbrBytes(vols: seq<Vol>, i: nat)
    requires |vols| <= MAX_VOLUME
    ensures var b := EncodeMbr(vols, TypeCode);
            && b[0] == 0xB0 && b[1] == 0xB0 && b[2] == |vols|
            && (forall k | 3 + 5 * |vols| <= k < 512 :: b[k] == 0)
            && (i < |vols| ==>
                  b[3 + 5 * i..8 + 5 * i] ==
                  [vols[i].startCyl % 256, vols[i].startSec % 256, vols[i].nsector / 256 % 256, vols[i].nsector % 256,
                   match vols[i].kind case Base => 0 case Annexe => 1 case Other => 2])
  {
    PutVolsBytes(Put16(ZERO, 0, MBR_MAGIC)[2 := |vols|], vols, TypeCode, i);
  }

  lemma {:induction false} GetVolsRead(b: Block, n: nat)
    requires n <= MAX_VOLUME
    ensures GetVols(b, n).Some? <==> forall i: nat | i < n :: b[7 + 5 * i] < 3
    ensures GetVols(b, n).Some? ==>
              && |GetVols(b, n).value| == n
              && forall i: nat | i < n ::
                   var v := GetVols(b, n).value[i];
                   && v.startCyl == b[3 + 5 * i] && v.startSec == b[4 + 5 * i]
                   && v.nsector == 256 * b[5 + 5 * i] as int + b[6 + 5 * i] as int
                   && (v.kind.Base? <==> b[7 + 5 * i] == 0) && (v.kind.Annexe? <==> b[7 + 5 * i] == 1)
  {
    if n == 0 {
    } else {
      GetVolsRead(b, n - 1);
    }
  }

  /** What is read from any record: as many volumes as byte 2 says, each from its five bytes,
      exactly when these are at most eight of known types. */
  lemma MbrRead(b: Block)
    ensures DecodeMbr(b).Some? <==> b[2] <= MAX_VOLUME && forall i: nat | i < b[2] :: b[7 + 5 * i] < 3
    ensures DecodeMbr(b).Some? ==>
              && |DecodeMbr(b).value| == b[2]
              && forall i: nat | i < b[2] ::
                   var v := DecodeMbr(b).value[i];
                   && v.startCyl == b[3 + 5 * i] && v.startSec == b[4 + 5 * i]
                   && v.nsector == 256 * b[5 + 5 * i] as int + b[6 + 5 * i] as int
                   && (v.kind.Base? <==> b[7 + 5 * i] == 0) && (v.kind.Annexe? <==> b[7 + 5 * i] == 1)
  {
    if b[2] <= MAX_VOLUME {
      GetVolsRead(b, b[2]);
    }
  }

  /** A table comes back exactly when every volume fits its five bytes and its type code
      stands for its type. */
  lemma RoundTripIff(vols: seq<Vol>, code: VolType -> byte)
    requires |vols| <= MAX_VOLUME
    ensures DecodeMbr(EncodeMbr(vols, code)) == Some(vols) <==>
            forall i | 0 <= i < |vols| :: Fits(vols[i]) && TypeOf(code(vols[i].kind)) == Some(vols[i].kind)
  {
    var got := seq(|vols|, i requires 0 <= i < |vols| => Truncated(vols[i], code(vols[i].kind)));
    EncodedVols(vols, code, got);
    forall i | 0 <= i < |vols|
      ensures got[i] == Some(vols[i]) <==> Fits(vols[i]) && TypeOf(code(vols[i].kind)) == Some(vols[i].kind)
    {
      TruncatedIs(vols[i], code(vols[i].kind));
    }
  }

  /** With the repaired codes every table of volumes that fit comes back. */
  lemma MbrRoundTrip(vols: seq<Vol>)
    requires |vols| <= MAX_VOLUME && forall i | 0 <= i < |vols| :: Fits(vols[i])
    ensures DecodeMbr(EncodeMbr(vols, TypeCode)) == Some(vols)
  {
    RoundTripIff(vols, TypeCode);
  }

  // ---------------------------------------------------------- runs on the table

  datatype Op = Create(v: Vol) | Remove(k: nat)

  /** Guarded creation appends; removal closes the gap. */
  function Step(vols: seq<Vol>, op: Op): seq<Vol> {
    match op
    case Create(v) => if |vols| < MAX_VOLUME && v.nsector > 0 && Possible(vols, v) then vols + [v] else vols
    case Remove(k) => if k < |vols| then vols[..k] + vols[k + 1..] else vols
  }

  predicate Possible(vols: seq<Vol>, v: Vol) {
    forall i | 0 <= i < |vols| :: Apart(v, vols[i])
  }

  function Execute(vols: seq<Vol>, ops: seq<Op>): seq<Vol>
    decreases |ops|
  {
    if ops == [] then vols else Execute(Step(vols, ops[0]), ops[1..])
  }

  ghost predicate Sane(vols: seq<Vol>) {
    && |vols| <= MAX_VOLUME
    && (forall i | 0 <= i < |vols| :: vols[i].nsector > 0)
    && (forall i, j | 0 <= i < j < |vols| :: Disjoint(vols[i], vols[j]))
  }

  /** A volume is created exactly when the table has room, its size is not 0 and no sector
      it asks for belongs to another; then it is the last one. */
  lemma CreationIs(vols: seq<Vol>, v: Vol)
    requires Sane(vols)
    ensures Step(vols, Create(v)) ==
            if |vols| < MAX_VOLUME && v.nsector > 0 && forall i | 0 <= i < |vols| :: Disjoint(v, vols[i])
            then vols + [v] else vols
  {
    forall i | 0 <= i < |vols| ensures v.nsector > 0 ==> (Apart(v, vols[i]) <==> Disjoint(v, vols[i])) {
      if v.nsector > 0 {
        EndsDecide(v, vols[i]);
      }
    }
    hide Apart, Disjoint;
  }

  /** A removal takes out that volume alone. */
  lemma RemovalIs(vols: seq<Vol>, k: nat)
    ensures k < |vols| ==>
              && |Step(vols, Remove(k))| == |vols| - 1
              && forall i | 0 <= i < |vols| - 1 :: Step(vols, Remove(k))[i] == vols[if i < k then i else i + 1]
    ensures k >= |vols| ==> Step(vols, Remove(k)) == vols
  {
  }

  lemma StepSane(vols: seq<Vol>, op: Op)
    requires Sane(vols)
    ensures Sane(Step(vols, op))
  {
    if op.Create? {
      var after := Step(vols, op);
      forall i, j | 0 <= i < j < |after| ensures Disjoint(after[i], after[j]) {
        if j == |vols| {
          EndsDecide(op.v, vols[i]);
        }
      }
    }
  }

  /** Any sequence of guarded creations and removals keeps at most eight volumes, pairwise
      without a common sector. */
  lemma {:induction false} TableRuns(vols: seq<Vol>, ops: seq<Op>)
    requires Sane(vols)
    ensures Sane(Execute(vols, ops))
    decreases |ops|
  {
    if ops == [] {
    } else {
      StepSane(vols, ops[0]);
      TableRuns(Step(vols, ops[0]), ops[1..]);
    }
  }

  /** The same positions among one operation more. */
  function Later(made: seq<nat>): (r: seq<nat>)
    ensures |r| == |made| && forall i | 0 <= i < |r| :: r[i] == made[i] + 1
  {
    seq(|made|, i requires 0 <= i < |made| => made[i] + 1)
  }

  /** `left` is what operations have left of `vols`: those at `from`, in the order they had,
      and behind them those created by the operations at `made`, in the order of these. */
  ghost predicate Survivors(vols: seq<Vol>, ops: seq<Op>, left: seq<Vol>, from: seq<nat>, made: seq<nat>) {
    && |left| == |from| + |made|
    && (forall i | 0 <= i < |from| :: from[i] < |vols| && left[i] == vols[from[i]])
    && (forall i, j | 0 <= i < j < |from| :: from[i] < from[j])
    && (forall i | 0 <= i < |made| :: made[i] < |ops| && ops[made[i]] == Create(left[|from| + i]))
    && (forall i, j | 0 <= i < j < |made| :: made[i] < made[j])
  }

  lemma SurvivorsOfRemoval(vols: seq<Vol>, k: nat, ops: seq<Op>, left: seq<Vol>, from: seq<nat>, made: seq<nat>)
    returns (all: seq<nat>)
    requires k < |vols| && Survivors(vols[..k] + vols[k + 1..], ops, left, from, made)
    ensures Survivors(vols, [Remove(k)] + ops, left, all, Later(made))
  {
    all := seq(|from|, i requires 0 <= i < |from| => if k <= from[i] then from[i] + 1 else from[i]);
  }

  /** A volume created that is still there is the first of those created. */
  lemma CreationLeft(vols: seq<Vol>, v: Vol, ops: seq<Op>, left: seq<Vol>, from: seq<nat>, made: seq<nat>)
    requires Survivors(vols + [v], ops, left, from, made) && from != [] && from[|from| - 1] == |vols|
    ensures Survivors(vols, [Create(v)] + ops, left, from[..|from| - 1], [0] + Later(made))
  {
    var n := |from| - 1;
    var first := [0] + Later(made);
    assert left[n] == v;
    forall i | 0 <= i < |first|
      ensures first[i] < 1 + |ops| && ([Create(v)] + ops)[first[i]] == Create(left[n + i])
    {
      if i > 0 {
        assert ops[made[i - 1]] == Create(left[|from| + (i - 1)]);
      }
    }
    forall i | 0 <= i < n ensures from[i] < |vols| {
      assert from[i] < from[n];
    }
  }

  lemma CreationGone(vols: seq<Vol>, v: Vol, ops: seq<Op>, left: seq<Vol>, from: seq<nat>, made: seq<nat>)
    requires Survivors(vols + [v], ops, left, from, made) && (from == [] || from[|from| - 1] != |vols|)
    ensures Survivors(vols, [Create(v)] + ops, left, from, Later(made))
  {
    forall i | 0 <= i < |from| ensures from[i] < |vols| {
      assert i < |from| - 1 ==> from[i] < from[|from| - 1];
    }
  }

  lemma SurvivorsOfNothing(vols: seq<Vol>, op: Op, ops: seq<Op>, left: seq<Vol>, from: seq<nat>, made: seq<nat>)
    requires Survivors(vols, ops, left, from, made)
    ensures Survivors(vols, [op] + ops, left, from, Later(made))
  {
  }

  /** After any run of creations and removals the volumes that are left of those there were
      are the same volumes in the same order, in front of those created, which are in the
      order of their creation. */
  lemma {:induction false} SurvivorsInOrder(vols: seq<Vol>, ops: seq<Op>) returns (from: seq<nat>, made: seq<nat>)
    ensures Survivors(vols, ops, Execute(vols, ops), from, made)
    decreases |ops|
  {
    if ops == [] {
      from, made := seq(|vols|, i => i), [];
    } else {
      hide Survivors;
      var op, rest := ops[0], ops[1..];
      var next := Step(vols, op);
      var later;
      from, later := SurvivorsInOrder(next, rest);
      assert ops == [op] + rest;
      var left := Execute(next, rest);
      made := Later(later);
      if next == vols {
        SurvivorsOfNothing(vols, op, rest, left, from, later);
      } else if op.Remove? {
        from := SurvivorsOfRemoval(vols, op.k, rest, left, from, later);
      } else {
        if from != [] && from[|from| - 1] == |vols| {
          CreationLeft(vols, op.v, rest, left, from, later);
          from, made := from[..|from| - 1], [0] + made;
        } else {
          CreationGone(vols, op.v, rest, left, from, later);
        }
      }
    }
  }
}
