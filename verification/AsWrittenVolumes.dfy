/** The slips of the volume layer (src/disque/volume.c, mkvol.c, rvol.c) as they are
    written, each with the exact condition under which it does no harm. */
module AsWrittenVolumes {
  import opened Bytes
  import opened Partition
  import opened Disk

  // -------------------------------------------------------------- convert_cyl_sec

  /** Lines 197-205: any sector number below that of the start is refused, the place just
      past the end is accepted, and there is no lower bound. A caller that computes sector
      -1 passes the largest unsigned number instead, which the test on line 197 lets pass
      and the sum turns back into -1. */
  function ConvertAsWritten(v: Vol, cyl: nat, sec: int): int {
    if cyl < v.startCyl || 0 <= sec < v.startSec then -1
    else
      var blc := (cyl - v.startCyl + 1) * 16 - v.startSec - (16 - sec);
      if blc <= v.nsector then blc else -1
  }

  /** The same as an answer or none; for a sector number it is never below -1. */
  function BlocOfAsWritten(v: Vol, cyl: nat, sec: nat): Option<nat> {
    var blc := ConvertAsWritten(v, cyl, sec);
    if blc < 0 then None else Some(blc)
  }

  /** The sector of a block, and the sector past the last block, come back as written
      exactly when the block's sector number is not below that of the start. */
  lemma BlocOfAsWrittenIff(v: Vol, bloc: nat)
    requires bloc <= v.nsector && v.startSec < 16
    ensures var (cyl, sec) := Coord(v, bloc);
            BlocOfAsWritten(v, cyl, sec) == Some(bloc) <==> (v.startSec + bloc) % 16 >= v.startSec
  {
    var (cyl, sec) := Coord(v, bloc);
    assert 16 * ((v.startSec + bloc) / 16) + sec == v.startSec + bloc;
  }

  predicate InvertedAsWritten(v: Vol, bloc: nat) {
    BlocOfAsWritten(v, Coord(v, bloc).0, Coord(v, bloc).1) == Some(bloc)
  }

  lemma InverseHolds(v: Vol, bloc: nat)
    requires v.startSec < 16 && bloc < v.nsector && (v.startSec == 0 || v.startSec + v.nsector <= 16)
    ensures InvertedAsWritten(v, bloc)
  {
    BlocOfAsWrittenIff(v, bloc);
  }

  lemma InverseFails(v: Vol)
    requires 0 < v.startSec < 16 && v.startSec + v.nsector > 16
    ensures !InvertedAsWritten(v, 16 - v.startSec)
  {
    BlocOfAsWrittenIff(v, 16 - v.startSec);
  }

  /** It inverts `convert_bloc` on the whole volume exactly when the volume starts at sector
      0 or does not reach the next cylinder. */
  lemma InverseAsWrittenIff(v: Vol)
    requires v.startSec < 16
    ensures (forall b: nat | b < v.nsector :: InvertedAsWritten(v, b)) <==>
            v.startSec == 0 || v.startSec + v.nsector <= 16
  {
    if v.startSec == 0 || v.startSec + v.nsector <= 16 {
      forall b: nat | b < v.nsector ensures InvertedAsWritten(v, b) {
        InverseHolds(v, b);
      }
    } else {
      InverseFails(v);
    }
  }

  /** Block 4 of a volume at (1, 12) is not found again; a volume at (1, 0) claims the
      sector after its end. */
  lemma BlocOfAsWrittenExamples()
    ensures BlocOfAsWritten(Vol(1, 12, 10, Base), 2, 0) == None
    ensures BlocOf(Vol(1, 12, 10, Base), 2, 0) == Some(4)
    ensures BlocOfAsWritten(Vol(1, 0, 10, Base), 1, 10) == Some(10)
    ensures !Holds(Vol(1, 0, 10, Base), Linear(1, 10))
  {
  }

  // ------------------------------------------------------------------ convert_bloc

  /** Line 137: the slot after the last volume is accepted, and any block number. */
  function ConvertBlocAsWritten(table: seq<Vol>, nvol: nat, n: nat, bloc: nat): Option<(nat, nat)>
    requires |table| == MAX_VOLUME && nvol <= MAX_VOLUME
  {
    if n >= MAX_VOLUME || n > nvol then None else Some(Coord(table[n], bloc))
  }

  lemma ConvertBlocAsWrittenIff(table: seq<Vol>, nvol: nat, n: nat, bloc: nat)
    requires |table| == MAX_VOLUME && nvol <= MAX_VOLUME
    ensures ConvertBlocAsWritten(table, nvol, n, bloc) == ConvertBloc(table[..nvol], n, bloc) <==>
            (n == nvol ==> nvol == MAX_VOLUME) && (n < nvol ==> bloc < table[n].nsector)
  {
  }

  /** Block 10 of a volume of ten blocks is the first block of the volume behind it. */
  lemma ConvertBlocAsWrittenExample(rest: seq<Vol>)
    requires |rest| == 6
    ensures var table := [Vol(0, 1, 10, Base), Vol(0, 11, 10, Base)] + rest;
            ConvertBlocAsWritten(table, 2, 0, 10) == ConvertBlocAsWritten(table, 2, 1, 0)
  {
  }

  // -------------------------------------------------------------------- format_vol

  /** Line 166 lets the slot behind the last volume through; what a slot held before a
      removal is still there. In a full table there is no such slot, and line 137 stops the
      first write. */
  predicate ZeroedAsWritten(table: seq<Vol>, nvol: nat, n: nat, place: nat)
    requires |table| == MAX_VOLUME && nvol <= MAX_VOLUME
  {
    n <= nvol && n < MAX_VOLUME && Holds(table[n], place)
  }

  predicate Zeroed(table: seq<Vol>, nvol: nat, n: nat, place: nat)
    requires |table| == MAX_VOLUME && nvol <= MAX_VOLUME
  {
    n < nvol && Holds(table[n], place)
  }

  /** It zeroes the sectors of a volume and no others exactly when it is not asked for the
      slot behind the last volume, or that holds nothing. */
  lemma FormatVolAsWrittenIff(table: seq<Vol>, nvol: nat, n: nat)
    requires |table| == MAX_VOLUME && nvol <= MAX_VOLUME
    ensures (forall place: nat :: ZeroedAsWritten(table, nvol, n, place) <==> Zeroed(table, nvol, n, place)) <==>
            n != nvol || nvol == MAX_VOLUME || table[n].nsector == 0
  {
    if n == nvol < MAX_VOLUME && table[n].nsector > 0 {
      assert ZeroedAsWritten(table, nvol, n, Start(table[n]));
    }
  }

  /** From a full table the last two volumes are removed, and one is created in the place of
      the eighth: it takes slot 6, and formatting number 7 zeroes it. */
  lemma FormatVolAsWrittenExample()
    ensures var full := EightVolumes();
            var table := Shifted(Shifted(full, 7, MAX_VOLUME - 1), 6, MAX_VOLUME - 1)[6 := full[7]];
            && table[..7] == Execute(full, [Remove(7), Remove(6), Create(full[7])])
            && ZeroedAsWritten(table, 7, 7, Start(table[6])) && !Zeroed(table, 7, 7, Start(table[6]))
  {
    var full := EightVolumes();
    var six := full[..6];
    var create := Create(full[7]);
    assert Step(full, Remove(7)) == full[..7] && Step(full[..7], Remove(6)) == six;
    forall i | 0 <= i < 6 ensures Apart(full[7], six[i]) {
    }
    assert Step(six, create) == six + [full[7]];
    ExecuteSnoc(full, [Remove(7), Remove(6)], create);
    ExecuteSnoc(full, [Remove(7)], Remove(6));
    ExecuteSnoc(full, [], Remove(7));
    assert [Remove(7)] + [Remove(6)] == [Remove(7), Remove(6)];
    assert [Remove(7), Remove(6)] + [create] == [Remove(7), Remove(6), create];
    assert [] + [Remove(7)] == [Remove(7)];
  }

  // ---------------------------------------------------------------------- save_mbr

  /** Lines 110-119: the second test repeats the first, so code 1 is never written. */
  function CodeAsWritten(k: VolType): byte {
    if k.Base? then 0 else 2
  }

  /** A table of volumes that fit comes back exactly when none is an annexe. */
  lemma SaveMbrAsWrittenIff(vols: seq<Vol>)
    requires |vols| <= MAX_VOLUME && forall i | 0 <= i < |vols| :: Fits(vols[i])
    ensures DecodeMbr(EncodeMbr(vols, CodeAsWritten)) == Some(vols) <==>
            forall i | 0 <= i < |vols| :: vols[i].kind != Annexe
  {
    RoundTripIff(vols, CodeAsWritten);
  }

  lemma SaveMbrAsWrittenExample()
    ensures DecodeMbr(EncodeMbr([Vol(0, 1, 10, Annexe)], CodeAsWritten)) != Some([Vol(0, 1, 10, Annexe)])
  {
    SaveMbrAsWrittenIff([Vol(0, 1, 10, Annexe)]);
    assert [Vol(0, 1, 10, Annexe)][0].kind == Annexe;
  }

  // ----------------------------------------------------------------- chck_possible

  /** Lines 29-31: the place taken for the last sector of the new volume. */
  function EndAsWritten(fc: nat, fs: nat, size: nat): int {
    var rest := size % 16;
    16 * (fc + size / 16) + (rest - (rest - fs) - 1)
  }

  /** It is the last sector exactly when the size is a whole number of cylinders. */
  lemma EndAsWrittenIff(fc: nat, fs: nat, size: nat)
    ensures EndAsWritten(fc, fs, size) == Last(Vol(fc, fs, size, Base)) <==> size % 16 == 0
  {
  }

  /** Lines 34-36: a volume is in the way when `convert_cyl_sec` does not answer -1 for one
      of the two ends. */
  predicate RefusedAsWritten(v: Vol, w: Vol) {
    || ConvertAsWritten(w, v.startCyl, v.startSec) != -1
    || ConvertAsWritten(w, v.startCyl + v.nsector / 16, v.startSec - 1) != -1
  }

  /** The place behind the last sector. */
  function Behind(v: Vol): nat {
    Start(v) + v.nsector
  }

  /** An overlap is noticed exactly when the new start lies in no lower cylinder and on no
      lower sector number than the old start, or the place taken for the new end does and
      is not past the place behind the old volume. */
  predicate Noticed(v: Vol, w: Vol) {
    var lc, end := v.startCyl + v.nsector / 16, EndAsWritten(v.startCyl, v.startSec, v.nsector);
    || (v.startCyl >= w.startCyl && v.startSec >= w.startSec)
    || (lc >= w.startCyl && (v.startSec == 0 || v.startSec > w.startSec) && end <= Behind(w) && end != Start(w) - 1)
  }

  /** A free place is refused exactly when it is right behind the old volume, on a sector
      number not below that of its start; or shorter than a cylinder and up to one sector
      further behind, on a higher sector number or on sector 0; or in front of the old
      volume and starts on sector 0 and would end in its first cylinder. */
  predicate WronglyRefused(v: Vol, w: Vol) {
    var lc := v.startCyl + v.nsector / 16;
    || (v.startCyl >= w.startCyl && v.startSec >= w.startSec && Start(v) == Behind(w))
    || (v.nsector < 16 && v.startCyl >= w.startCyl && (v.startSec == 0 || v.startSec > w.startSec)
        && Behind(w) <= Start(v) <= Behind(w) + 1)
    || (Behind(v) <= Start(w) && v.startSec == 0 && lc >= w.startCyl && 16 * (lc - w.startCyl) != w.startSec)
  }

  /** As written, exactly which overlaps are overlooked and which free places refused. */
  lemma RefusedAsWrittenIff(v: Vol, w: Vol)
    requires v.nsector > 0 && w.nsector > 0
    ensures !Disjoint(v, w) ==> (RefusedAsWritten(v, w) <==> Noticed(v, w))
    ensures Disjoint(v, w) ==> (RefusedAsWritten(v, w) <==> WronglyRefused(v, w))
  {
    EndsDecide(v, w);
    StartRefused(v, w);
    EndRefused(v, w);
    WholeCylinders(v);
  }

  lemma StartRefused(v: Vol, w: Vol)
    ensures ConvertAsWritten(w, v.startCyl, v.startSec) != -1 <==>
            v.startCyl >= w.startCyl && v.startSec >= w.startSec && Start(v) <= Behind(w)
  {
  }

  lemma EndRefused(v: Vol, w: Vol)
    ensures ConvertAsWritten(w, v.startCyl + v.nsector / 16, v.startSec - 1) != -1 <==>
            var end := EndAsWritten(v.startCyl, v.startSec, v.nsector);
            && v.startCyl + v.nsector / 16 >= w.startCyl && (v.startSec == 0 || v.startSec > w.startSec)
            && end <= Behind(w) && end != Start(w) - 1
  {
  }

  lemma WholeCylinders(v: Vol)
    ensures var whole := EndAsWritten(v.startCyl, v.startSec, v.nsector) + 1 - Start(v);
            0 <= whole <= v.nsector < whole + 16 && (v.nsector < 16 ==> whole == 0)
  {
  }

  /** Two overlaps let through: four sectors from (2, 1) inside a volume of ten at (1, 12),
      and thirty-two from (1, 0) around one of ten at (1, 4). Two free places refused:
      sixteen sectors right behind a volume of ten at (1, 0), and five from (1, 0) in front
      of a volume at (1, 8). */
  lemma RefusedAsWrittenExamples()
    ensures !Disjoint(Vol(2, 1, 4, Base), Vol(1, 12, 10, Base))
    ensures !RefusedAsWritten(Vol(2, 1, 4, Base), Vol(1, 12, 10, Base))
    ensures !Disjoint(Vol(1, 0, 32, Base), Vol(1, 4, 10, Base))
    ensures !RefusedAsWritten(Vol(1, 0, 32, Base), Vol(1, 4, 10, Base))
    ensures Disjoint(Vol(1, 10, 16, Base), Vol(1, 0, 10, Base))
    ensures RefusedAsWritten(Vol(1, 10, 16, Base), Vol(1, 0, 10, Base))
    ensures Disjoint(Vol(1, 0, 5, Base), Vol(1, 8, 4, Base))
    ensures RefusedAsWritten(Vol(1, 0, 5, Base), Vol(1, 8, 4, Base))
  {
    EndsDecide(Vol(2, 1, 4, Base), Vol(1, 12, 10, Base));
    EndsDecide(Vol(1, 0, 32, Base), Vol(1, 4, 10, Base));
    EndsDecide(Vol(1, 10, 16, Base), Vol(1, 0, 10, Base));
    EndsDecide(Vol(1, 0, 5, Base), Vol(1, 8, 4, Base));
  }

  // -------------------------------------------------------------------------- rvol

  /** Line 18 stops one slot early. */
  method ShiftAsWritten(d: Drive, n: nat)
    requires d.volume.Length == MAX_VOLUME
    modifies d.volume
    ensures d.volume[..] == Shifted(old(d.volume[..]), n, MAX_VOLUME - 2)
  {
    d.Shift(n, MAX_VOLUME - 2);
  }

  /** The table after the loop of `rvol`, by value. */
  function Shifted(table: seq<Vol>, n: nat, bound: nat): (r: seq<Vol>)
    requires |table| == MAX_VOLUME && bound < MAX_VOLUME
    ensures |r| == MAX_VOLUME
  {
    seq(MAX_VOLUME, i requires 0 <= i < MAX_VOLUME => table[if n <= i < bound then i + 1 else i])
  }

  /** Removing volume `n` of a table as written is right exactly when the table was not
      full, or the volume removed was the last, or the last two were the same. */
  lemma RvolAsWrittenIff(table: seq<Vol>, nvol: nat, n: nat)
    requires |table| == MAX_VOLUME && n < nvol <= MAX_VOLUME
    ensures Shifted(table, n, MAX_VOLUME - 2)[..nvol - 1] == Step(table[..nvol], Remove(n)) <==>
            nvol < MAX_VOLUME || n == MAX_VOLUME - 1 || table[6] == table[7]
  {
    var got := Shifted(table, n, MAX_VOLUME - 2)[..nvol - 1];
    var wanted := Step(table[..nvol], Remove(n));
    forall i | 0 <= i < nvol - 1 ensures wanted[i] == table[if i < n then i else i + 1] {
    }
    if nvol == MAX_VOLUME && n < MAX_VOLUME - 1 {
      assert got[6] == table[6] && wanted[6] == table[7];
    }
    if nvol < MAX_VOLUME || n == MAX_VOLUME - 1 || table[6] == table[7] {
      forall i | 0 <= i < nvol - 1 ensures got[i] == wanted[i] {
      }
      assert got == wanted;
    }
  }

  /** Eight volumes of ten sectors, in cylinders 1 to 8. */
  function EightVolumes(): (table: seq<Vol>)
    ensures |table| == MAX_VOLUME && forall i | 0 <= i < MAX_VOLUME :: table[i] == Vol(i + 1, 0, 10, Base)
  {
    seq(MAX_VOLUME, i requires 0 <= i < MAX_VOLUME => Vol(i + 1, 0, 10, Base))
  }

  /** Guarded creations fill the table with them. */
  lemma {:induction false} EightCreated(n: nat)
    requires n <= MAX_VOLUME
    ensures Execute([], seq(n, i requires 0 <= i < n => Create(EightVolumes()[i]))) == EightVolumes()[..n]
  {
    var ops := seq(n, i requires 0 <= i < n => Create(EightVolumes()[i]));
    if n == 0 {
    } else {
      EightCreated(n - 1);
      assert ops[..n - 1] == seq(n - 1, i requires 0 <= i < n - 1 => Create(EightVolumes()[i]));
      ExecuteSnoc([], ops[..n - 1], Create(EightVolumes()[n - 1]));
      assert ops == ops[..n - 1] + [Create(EightVolumes()[n - 1])];
      assert EightVolumes()[..n] == EightVolumes()[..n - 1] + [EightVolumes()[n - 1]];
    }
  }

  lemma {:induction false} ExecuteSnoc(vols: seq<Vol>, ops: seq<Op>, op: Op)
    ensures Execute(vols, ops + [op]) == Step(Execute(vols, ops), op)
    decreases |ops|
  {
    if ops == [] {
      assert [op][1..] == [];
    } else {
      assert (ops + [op])[1..] == ops[1..] + [op];
      ExecuteSnoc(Step(vols, ops[0]), ops[1..], op);
    }
  }

  /** In that full table removing the first loses the eighth and keeps the seventh twice. */
  lemma RvolAsWrittenExample()
    ensures Execute([], seq(8, i requires 0 <= i < 8 => Create(EightVolumes()[i]))) == EightVolumes()
    ensures Shifted(EightVolumes(), 0, MAX_VOLUME - 2)[..7] != Step(EightVolumes(), Remove(0))
  {
    EightCreated(8);
    assert EightVolumes()[..8] == EightVolumes();
    RvolAsWrittenIff(EightVolumes(), 8, 0);
  }
}
