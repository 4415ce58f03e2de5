/** The disk and the partition table in memory, `mbr->volume[MAX_VOLUME]` and `mbr->nvol`,
    updated in place (src/disque/volume.c, src/disque/mkvol.c, src/disque/rvol.c). */
module Disk {
  import opened Bytes
  import opened Partition

  class Drive {
    const sectors: array2<Block>
    const volume: array<Vol>
    var nvol: nat

    ghost predicate Valid()
      reads this
    {
      sectors.Length0 > 0 && sectors.Length1 == HDA_MAXSECTOR && volume.Length == MAX_VOLUME && nvol <= MAX_VOLUME
    }

    ghost function Volumes(): (r: seq<Vol>)
      requires volume.Length == MAX_VOLUME && nvol <= MAX_VOLUME
      reads this, volume
      ensures |r| == nvol
    {
      volume[..nvol]
    }

    /** Volume `n` lies on the disk. */
    ghost predicate OnDisk(n: nat)
      requires Valid()
      reads this, volume
    {
      n < nvol ==> Start(volume[n]) + volume[n].nsector <= 16 * sectors.Length0
    }

    /** Block `c` of volume `m` is there to be read. */
    ghost predicate HasBloc(m: nat, c: nat)
      requires Valid()
      reads this, volume
    {
      m < nvol && c < volume[m].nsector && OnDisk(m)
    }

    lemma HasBlocOnDisk(m: nat, c: nat)
      requires Valid() && HasBloc(m, c)
      ensures Coord(volume[m], c).0 < sectors.Length0 && Coord(volume[m], c).1 < 16
    {
    }

    ghost function Bloc(m: nat, c: nat): Block
      requires Valid() && HasBloc(m, c)
      reads this, volume, sectors
    {
      HasBlocOnDisk(m, c);
      sectors[Coord(volume[m], c).0, Coord(volume[m], c).1]
    }

    /** `write_bloc`; false stands for the assertion that stops the source. Exactly one
        block of one volume changes, and no sector outside that volume. */
    method WriteBloc(n: nat, bloc: nat, data: Block) returns (ok: bool)
      requires Valid() && Sane(Volumes()) && OnDisk(n)
      modifies sectors
      ensures ok <==> n < nvol && bloc < volume[n].nsector
      ensures forall m: nat, c: nat | HasBloc(m, c) ::
                Bloc(m, c) == if ok && m == n && c == bloc then data else old(Bloc(m, c))
      ensures forall cyl: nat, sec: nat
                | cyl < sectors.Length0 && sec < 16 && (!ok || !Holds(volume[n], Linear(cyl, sec))) ::
                sectors[cyl, sec] == old(sectors[cyl, sec])
    {
      var coord := ConvertBloc(volume[..nvol], n, bloc);
      ok := coord.Some?;
      if ok {
        HasBlocOnDisk(n, bloc);
        MutualInverses(Volumes(), n, bloc, 0, 0);
        sectors[coord.value.0, coord.value.1] := data;
        forall m: nat, c: nat | HasBloc(m, c)
          ensures Bloc(m, c) == if m == n && c == bloc then data else old(Bloc(m, c))
        {
          HasBlocOnDisk(m, c);
          EitherOrder(Volumes(), n, m);
          Isolation(Volumes(), n, bloc, m, c);
        }
      }
    }

    /** `read_bloc`. */
    method ReadBloc(n: nat, bloc: nat) returns (data: Option<Block>)
      requires Valid() && OnDisk(n)
      ensures data.Some? <==> HasBloc(n, bloc)
      ensures data.Some? ==> data.value == Bloc(n, bloc)
    {
      var coord := ConvertBloc(volume[..nvol], n, bloc);
      data := None;
      if coord.Some? {
        HasBlocOnDisk(n, bloc);
        data := Some(sectors[coord.value.0, coord.value.1]);
      }
    }

    /** `format_vol`. */
    method FormatVol(n: nat)
      requires Valid() && Sane(Volumes()) && OnDisk(n)
      modifies sectors
      ensures forall m: nat, c: nat | HasBloc(m, c) :: Bloc(m, c) == if m == n then ZERO else old(Bloc(m, c))
      ensures forall cyl: nat, sec: nat
                | cyl < sectors.Length0 && sec < 16 && (n >= nvol || !Holds(volume[n], Linear(cyl, sec))) ::
                sectors[cyl, sec] == old(sectors[cyl, sec])
    {
      if n >= nvol {
        return;
      }
      for i := 0 to volume[n].nsector
        invariant forall m: nat, c: nat | HasBloc(m, c) ::
                    Bloc(m, c) == if m == n && c < i then ZERO else old(Bloc(m, c))
        invariant forall cyl: nat, sec: nat
                    | cyl < sectors.Length0 && sec < 16 && !Holds(volume[n], Linear(cyl, sec)) ::
                    sectors[cyl, sec] == old(sectors[cyl, sec])
      {
        var ok := WriteBloc(n, i, ZERO);
      }
    }

    /** `save_mbr`. */
    method SaveMbr()
      requires Valid()
      modifies sectors
      ensures sectors[0, 0] == EncodeMbr(Volumes(), TypeCode)
      ensures forall cyl: nat, sec: nat | cyl < sectors.Length0 && sec < 16 && Linear(cyl, sec) != 0 ::
                sectors[cyl, sec] == old(sectors[cyl, sec])
    {
      hide PutVol, TypeCode;
      var buffer := new byte[SECTOR_SIZE](k => 0);
      assert buffer[..] == ZERO;
      buffer[0] := MBR_MAGIC / 256;
      buffer[1] := MBR_MAGIC % 256;
      buffer[2] := nvol;
      ghost var head := Put16(ZERO, 0, MBR_MAGIC)[2 := nvol];
      assert buffer[..] == head;
      for i := 0 to nvol
        invariant buffer[..] == PutVols(head, volume[..i], TypeCode)
        modifies buffer
      {
        assert volume[..i + 1][..i] == volume[..i];
        SaveVol(buffer, 3 + 5 * i, volume[i]);
      }
      assert volume[..nvol] == Volumes();
      sectors[0, 0] := buffer[..];
    }

    static method SaveVol(buffer: array<byte>, at: nat, vol: Vol)
      requires buffer.Length == SECTOR_SIZE && at + 5 <= SECTOR_SIZE
      modifies buffer
      ensures buffer[..] == PutVol(old(buffer[..]), at, vol, TypeCode(vol.kind))
    {
      buffer[at] := Low(vol.startCyl);
      buffer[at + 1] := Low(vol.startSec);
      buffer[at + 2] := Low(vol.nsector / 256);
      buffer[at + 3] := Low(vol.nsector);
      buffer[at + 4] := TypeCode(vol.kind);
    }

    /** `init_mbr_s`; false where the record is not one the source could have written. */
    method InitMbr() returns (ok: bool)
      requires Valid()
      modifies this`nvol, volume
      ensures Valid()
      ensures ok ==> DecodeMbr(sectors[0, 0]) == Some(Volumes())
      ensures !ok ==> DecodeMbr(sectors[0, 0]) == None
    {
      var buffer := sectors[0, 0];
      if buffer[2] > MAX_VOLUME {
        return false;
      }
      nvol := buffer[2];
      var i := 0;
      while i < nvol
        invariant nvol == buffer[2] && 0 <= i <= nvol && GetVols(buffer, i) == Some(volume[..i])
      {
        var vol := GetVol(buffer, 3 + 5 * i);
        if vol.None? {
          NoneStays(buffer, i + 1, nvol);
          return false;
        }
        volume[i] := vol.value;
        assert volume[..i + 1] == volume[..i] + [vol.value];
        i := i + 1;
      }
      return true;
    }

    /** `chck_possible`, with the last sector computed from the size and with containment:
        whether the place asked for is free of all volumes. */
    method ChckPossible(fc: nat, fs: nat, size: nat) returns (possible: bool)
      requires Valid() && size > 0 && forall i | 0 <= i < nvol :: volume[i].nsector > 0
      ensures possible <==> forall i | 0 <= i < nvol :: Disjoint(Vol(fc, fs, size, Base), volume[i])
      ensures possible <==> Possible(Volumes(), Vol(fc, fs, size, Base))
    {
      var wanted := Vol(fc, fs, size, Base);
      var lc, ls := (Linear(fc, fs) + size - 1) / 16, (Linear(fc, fs) + size - 1) % 16;
      var i := 0;
      while i < nvol
        invariant 0 <= i <= nvol && forall k | 0 <= k < i :: Apart(wanted, volume[k]) && Disjoint(wanted, volume[k])
      {
        EndsDecide(wanted, volume[i]);
        EndsConverted(volume[i], fc, fs, lc, ls, wanted);
        if BlocOf(volume[i], fc + fs / 16, fs % 16) != None || BlocOf(volume[i], lc, ls) != None
           || BlocOf(wanted, volume[i].startCyl + volume[i].startSec / 16, volume[i].startSec % 16) != None {
          return false;
        }
        i := i + 1;
      }
      return true;
    }

    /** `create_volume` with the checks `main` makes before it: room in the table, a free
        place on the disk. */
    method CreateVolume(fc: nat, fs: nat, size: nat) returns (ok: bool)
      requires Valid() && Sane(Volumes())
      modifies this`nvol, volume, sectors
      ensures Valid() && Sane(Volumes())
      ensures ok <==>
                && old(nvol) < MAX_VOLUME && size > 0
                && forall i | 0 <= i < old(nvol) :: Disjoint(Vol(fc, fs, size, Base), old(volume[i]))
      ensures Volumes() == if ok then old(Volumes()) + [Vol(fc, fs, size, Base)] else old(Volumes())
      ensures Volumes() == Step(old(Volumes()), Create(Vol(fc, fs, size, Base)))
      ensures ok ==> sectors[0, 0] == EncodeMbr(Volumes(), TypeCode)
      ensures forall cyl: nat, sec: nat | cyl < sectors.Length0 && sec < 16 && (!ok || Linear(cyl, sec) != 0) ::
                sectors[cyl, sec] == old(sectors[cyl, sec])
    {
      var v := Vol(fc, fs, size, Base);
      StepSane(Volumes(), Create(v));
      if nvol == MAX_VOLUME || size == 0 {
        return false;
      }
      assert forall i | 0 <= i < nvol :: Volumes()[i].nsector > 0;
      var possible := ChckPossible(fc, fs, size);
      if !possible {
        return false;
      }
      volume[nvol] := v;
      nvol := nvol + 1;
      SaveMbr();
      return true;
    }

    /** `rvol`, shifting down to the last slot. The volumes that stay keep their order. */
    method Rvol(n: nat)
      requires Valid() && n < nvol
      modifies this`nvol, volume, sectors
      ensures Valid() && Volumes() == old(Volumes()[..n] + Volumes()[n + 1..])
      ensures Volumes() == Step(old(Volumes()), Remove(n))
      ensures sectors[0, 0] == EncodeMbr(Volumes(), TypeCode)
      ensures forall cyl: nat, sec: nat | cyl < sectors.Length0 && sec < 16 && Linear(cyl, sec) != 0 ::
                sectors[cyl, sec] == old(sectors[cyl, sec])
    {
      ghost var before := volume[..];
      nvol := nvol - 1;
      Shift(n, MAX_VOLUME - 1);
      ShiftRemoves(before, volume[..], nvol, n);
      SaveMbr();
    }

    /** The loop of `rvol` up to slot `bound`. */
    method Shift(n: nat, bound: nat)
      requires volume.Length == MAX_VOLUME && bound < MAX_VOLUME
      modifies volume
      ensures forall i: nat | i < MAX_VOLUME :: volume[i] == old(volume[if n <= i < bound then i + 1 else i])
    {
      var k := n;
      while k < bound
        invariant n <= k && (k == n || k <= bound)
        invariant forall i: nat | i < MAX_VOLUME :: volume[i] == old(volume[if n <= i < k then i + 1 else i])
      {
        volume[k] := volume[k + 1];
        k := k + 1;
      }
    }
  }

  lemma ShiftRemoves(before: seq<Vol>, after: seq<Vol>, nvol: nat, n: nat)
    requires |before| == |after| == MAX_VOLUME && n <= nvol < MAX_VOLUME
    requires forall i: nat | i < MAX_VOLUME :: after[i] == before[if n <= i < MAX_VOLUME - 1 then i + 1 else i]
    ensures after[..nvol] == before[..n] + before[n + 1..nvol + 1]
    ensures after[..nvol] == Step(before[..nvol + 1], Remove(n))
  {
    assert before[..nvol + 1][n + 1..] == before[n + 1..nvol + 1];
  }

  lemma EitherOrder(vols: seq<Vol>, n: nat, m: nat)
    requires Sane(vols) && n < |vols| && m < |vols|
    ensures n != m ==> Disjoint(vols[n], vols[m])
  {
    if m < n {
      EndsDecide(vols[m], vols[n]);
    }
  }

  lemma EndsConverted(w: Vol, fc: nat, fs: nat, lc: nat, ls: nat, v: Vol)
    requires v.startCyl == fc && v.startSec == fs && v.nsector > 0
    requires lc == Last(v) / 16 && ls == Last(v) % 16
    ensures BlocOf(w, fc + fs / 16, fs % 16) != None <==> Holds(w, Start(v))
    ensures BlocOf(w, lc, ls) != None <==> Holds(w, Last(v))
    ensures BlocOf(v, w.startCyl + w.startSec / 16, w.startSec % 16) != None <==> Holds(v, Start(w))
  {
    MutualInverses([w], 0, 0, fc + fs / 16, fs % 16);
    MutualInverses([w], 0, 0, lc, ls);
    MutualInverses([v], 0, 0, w.startCyl + w.startSec / 16, w.startSec % 16);
  }

  lemma {:induction false} NoneStays(b: Block, i: nat, n: nat)
    requires i <= n <= MAX_VOLUME && GetVols(b, i) == None
    ensures GetVols(b, n) == None
    decreases n
  {
    if i == n {
    } else {
      NoneStays(b, i, n - 1);
    }
  }
}
