/** How many blocks it takes to reach file blocks: the places on the way to them that have
    no block yet, tables shared by several counted once. */
module Space {
  import opened Codec
  import opened FreeList
  import opened BlockMap
  import opened Allocate

  // ------------------------------------------------------- places and allocation

  lemma PresentKept(s: State, s': State, j: nat, p: Place)
    requires TreeInv(s) && TreeInv(s') && Extends(s, s') && IsRoot(s, j) && Present(s, j, p)
    ensures Present(s', j, p)
  {
    match p
    case Datum(f) => ViewKept(s, s', j, f);
    case IndirectTable => TableKept(s, s', j, NB_BLOCS);
    case DoubleTable => TableKept(s, s', j, NB_BLOCS + 1);
    case SecondTable(k) =>
      TableKept(s, s', j, NB_BLOCS + 1);
      TableKept(s, s', Slot(s, j, NB_BLOCS + 1), k);
  }

  /** A pointer that leads somewhere leads there still. */
  lemma TableKept(s: State, s': State, b: nat, c: nat)
    requires TreeInv(s) && TreeInv(s') && Extends(s, s') && b < |s.owner| && c < Arity(s.owner[b])
    requires Slot(s, b, c) != 0
    ensures s'.owner[b] == s.owner[b] && Slot(s', b, c) == Slot(s, b, c) && Slot(s, b, c) < |s.owner|
    ensures s.owner[Slot(s, b, c)] == Child(s.owner[b], b, c)
  {
    assert SlotOK(s, b, c);
    var p := Slot(s, b, c);
    assert ParentOK(s', p);
  }

  /** A pointer that leads somewhere new leads to a block that was free. */
  lemma TableNew(s: State, s': State, b: nat, c: nat)
    requires TreeInv(s) && TreeInv(s') && Extends(s, s') && b < |s.owner| && c < Arity(s.owner[b])
    requires !s.owner[b].Unused? && Slot(s, b, c) == 0 && Slot(s', b, c) != 0
    ensures var p := Slot(s', b, c); p < |s.owner| && s.owner[p].Unused? && s'.owner[p] == Child(s.owner[b], b, c)
  {
    assert SlotOK(s', b, c);
    var p := Slot(s', b, c);
    if !s.owner[p].Unused? {
      assert ParentOK(s, p);
    }
  }

  /** Only places on the way to the block asked for can be new. */
  lemma PresentNew(s: State, i: nat, f: nat, s': State, b: nat, j: nat, p: Place)
    requires TreeInv(s) && IsRoot(s, i) && IsRoot(s, j) && Allocated(s, i, f, s', b)
    requires Present(s', j, p) && !Present(s, j, p)
    ensures j == i && p in Way(f)
  {
    match p
    case Datum(g) =>
      if j != i || g != f {
        OthersKept(s, i, f, s', b, j, g);
      }
    case IndirectTable =>
      TableNew(s, s', j, NB_BLOCS);
      UnderRoot(s', j, NB_BLOCS);
    case DoubleTable =>
      TableNew(s, s', j, NB_BLOCS + 1);
      UnderRoot(s', j, NB_BLOCS + 1);
    case SecondTable(k) =>
      SecondNew(s, i, f, s', b, j, k);
  }

  lemma UnderRoot(s: State, j: nat, c: nat)
    requires TreeInv(s) && IsRoot(s, j) && c < Arity(s.owner[j]) && Slot(s, j, c) != 0
    ensures RootOf(s.owner, Slot(s, j, c)) == j
  {
    assert SlotOK(s, j, c);
  }

  lemma SecondNew(s: State, i: nat, f: nat, s': State, b: nat, j: nat, k: nat)
    requires TreeInv(s) && IsRoot(s, i) && IsRoot(s, j) && Allocated(s, i, f, s', b)
    requires Present(s', j, SecondTable(k)) && !Present(s, j, SecondTable(k))
    ensures j == i && SecondTable(k) in Way(f)
  {
    var t := Slot(s', j, NB_BLOCS + 1);
    assert SlotOK(s', j, NB_BLOCS + 1);
    var u := Slot(s', t, k);
    assert SlotOK(s', t, k);
    assert RootOf(s'.owner, u) == j;
    SecondOld(s, s', j, t, k, u);
  }

  /** A second-level table in use was reached in the same way before. */
  lemma SecondOld(s: State, s': State, j: nat, t: nat, k: nat, u: nat)
    requires TreeInv(s) && Extends(s, s') && k < NB_BLOCS && t < |s.owner| && u < |s.owner|
    requires s'.owner[t] == Owned(Double, j, NB_BLOCS + 1) && s'.owner[u] == Owned(Second, t, k)
    ensures !s.owner[u].Unused? ==> Present(s, j, SecondTable(k))
  {
    assert ParentOK(s, u) && ParentOK(s, t);
  }

  /** A mapped block has everything on the way to it. */
  lemma WayPresent(s: State, i: nat, f: nat, p: Place)
    requires TreeInv(s) && IsRoot(s, i) && Vbloc(s, i, f) != 0 && p in Way(f)
    ensures Present(s, i, p)
  {
    VblocLocated(s, i, f);
  }

  /** A successful allocation brings exactly the places on the way. */
  lemma AllocPresent(s: State, i: nat, f: nat, s': State, b: nat, j: nat, p: Place)
    requires TreeInv(s) && IsRoot(s, i) && IsRoot(s, j) && Allocated(s, i, f, s', b)
    ensures j != i ==> (Present(s', j, p) <==> Present(s, j, p))
    ensures b != 0 ==> (Present(s', i, p) <==> Present(s, i, p) || p in Way(f))
  {
    if Present(s, j, p) {
      PresentKept(s, s', j, p);
    } else if Present(s', j, p) {
      PresentNew(s, i, f, s', b, j, p);
    }
    if b != 0 {
      if Present(s, i, p) {
        PresentKept(s, s', i, p);
      } else if p in Way(f) {
        WayPresent(s', i, f, p);
      } else if Present(s', i, p) {
        PresentNew(s, i, f, s', b, i, p);
      }
    }
  }

  // --------------------------------------------------------------------- counting

  /** The places on the way to any of the file blocks `fs` that have no block yet. */
  ghost function Absent(s: State, i: nat, fs: set<nat>): set<Place> {
    set f, p | f in fs && p in Way(f) && !Present(s, i, p) :: p
  }

  /** `p`, if it has no block yet. */
  ghost function Lacking(s: State, i: nat, p: Place): (ps: set<Place>)
    ensures |ps| == if Present(s, i, p) then 0 else 1
  {
    if Present(s, i, p) then {} else {p}
  }

  lemma AbsentDirect(s: State, i: nat, f: nat)
    requires f < NB_BLOCS
    ensures Absent(s, i, {f}) == Lacking(s, i, Datum(f))
  {
    assert forall p :: p in Absent(s, i, {f}) <==> p in Way(f) && !Present(s, i, p);
  }

  lemma AbsentIndirect(s: State, i: nat, f: nat)
    requires NB_BLOCS <= f < 2 * NB_BLOCS
    ensures |Absent(s, i, {f})| == |Lacking(s, i, Datum(f))| + |Lacking(s, i, IndirectTable)|
  {
    hide Present;
    assert forall p :: p in Absent(s, i, {f}) <==> p in Way(f) && !Present(s, i, p);
    assert Absent(s, i, {f}) == Lacking(s, i, Datum(f)) + Lacking(s, i, IndirectTable);
  }

  lemma AbsentDouble(s: State, i: nat, f: nat)
    requires 2 * NB_BLOCS <= f
    ensures |Absent(s, i, {f})| == |Lacking(s, i, Datum(f))| + |Lacking(s, i, DoubleTable)|
                                   + |Lacking(s, i, SecondTable(f / 10 - 2))|
  {
    hide Present;
    var k := f / 10 - 2;
    assert forall p :: p in Absent(s, i, {f}) <==> p in Way(f) && !Present(s, i, p);
    assert Absent(s, i, {f})
        == Lacking(s, i, Datum(f)) + Lacking(s, i, DoubleTable) + Lacking(s, i, SecondTable(k));
  }

  lemma MissingIs(s: State, i: nat, f: nat)
    requires TreeInv(s) && IsRoot(s, i) && f < MAX_FBLOC
    ensures |Absent(s, i, {f})| == Missing(s, i, f)
  {
    if f < NB_BLOCS {
      AbsentDirect(s, i, f);
    } else if f < 2 * NB_BLOCS {
      AbsentIndirect(s, i, f);
      IndirectWalk(s, i, f);
    } else {
      AbsentDouble(s, i, f);
      DoubleWalk(s, i, f);
    }
  }

  /** The file blocks `fs` can all be had. */
  ghost predicate Room(s: State, i: nat, fs: set<nat>) {
    (forall f | f in fs :: f < MAX_FBLOC) && |Absent(s, i, fs)| <= s.sb.nbFree
  }

  /** The size after the file blocks `fs` have been had. */
  ghost predicate Sized(before: nat, after: nat, fs: set<nat>) {
    && before <= after && (forall f | f in fs :: f < after)
    && (after == before || exists f :: f in fs && after == f + 1)
  }

  /** `s'` is `s` with the file blocks `fs` had: exactly the places missing have been paid
      for, and the size covers them. */
  ghost predicate Spent(s: State, i: nat, fs: set<nat>, s': State) {
    && s.sb.nbFree == s'.sb.nbFree + |Absent(s, i, fs)|
    && (forall p :: Present(s', i, p) <==> Present(s, i, p) || p in Absent(s, i, fs))
    && Sized(Taille(s, i), Taille(s', i), fs)
  }

  lemma AbsentJoin(s: State, i: nat, fs: set<nat>, s': State, gs: set<nat>)
    requires forall p :: Present(s', i, p) <==> Present(s, i, p) || p in Absent(s, i, fs)
    ensures Absent(s, i, fs + gs) == Absent(s, i, fs) + Absent(s', i, gs)
    ensures |Absent(s, i, fs + gs)| == |Absent(s, i, fs)| + |Absent(s', i, gs)|
  {
    var a, b, c := Absent(s, i, fs), Absent(s', i, gs), Absent(s, i, fs + gs);
    forall p ensures p in c <==> p in a + b {
    }
    assert a !! b;
  }

  /** Having more blocks afterwards is having all of them at once. */
  lemma SpentTransitive(s: State, i: nat, fs: set<nat>, s1: State, gs: set<nat>, s2: State)
    requires Spent(s, i, fs, s1) && Spent(s1, i, gs, s2)
    ensures Spent(s, i, fs + gs, s2)
  {
    AbsentJoin(s, i, fs, s1, gs);
    SizedTransitive(Taille(s, i), Taille(s1, i), Taille(s2, i), fs, gs);
  }

  lemma SizedTransitive(a: nat, b: nat, c: nat, fs: set<nat>, gs: set<nat>)
    requires Sized(a, b, fs) && Sized(b, c, gs)
    ensures Sized(a, c, fs + gs)
  {
    if c != b {
      var g :| g in gs && c == g + 1;
      assert g in fs + gs;
    } else if b != a {
      var f :| f in fs && b == f + 1;
      assert f in fs + gs;
    }
  }

  /** There is room for all exactly when there is room for the rest once some are had. */
  lemma RoomSplit(s: State, i: nat, fs: set<nat>, s1: State, gs: set<nat>)
    requires Room(s, i, fs) && Spent(s, i, fs, s1)
    ensures Room(s, i, fs + gs) <==> Room(s1, i, gs)
  {
    AbsentJoin(s, i, fs, s1, gs);
    if Room(s, i, fs + gs) {
      forall g | g in gs ensures g < MAX_FBLOC {
        assert g in fs + gs;
      }
    }
  }

  lemma SetSize(a: set<Place>, b: set<Place>)
    requires a <= b
    ensures |a| <= |b|
  {
    assert b == a + (b - a);
  }

  /** Room for more blocks is room for fewer. */
  lemma RoomLess(s: State, i: nat, fs: set<nat>, gs: set<nat>)
    requires Room(s, i, gs) && fs <= gs
    ensures Room(s, i, fs)
  {
    SetSize(Absent(s, i, fs), Absent(s, i, gs));
  }

  /** An operation that needs the file blocks `fs` succeeds exactly when there is room for
      them, and has then paid for exactly what was missing. */
  ghost predicate Costs(s: State, i: nat, fs: set<nat>, s': State, ok: bool) {
    && (ok <==> Room(s, i, fs))
    && (ok ==> Spent(s, i, fs, s'))
  }

  /** Two operations succeed exactly when there is room for what both need. */
  lemma InTwo(s: State, i: nat, fs: set<nat>, s1: State, first: bool, gs: set<nat>, s2: State, second: bool)
    ensures Costs(s, i, fs, s1, first) && (if first then Costs(s1, i, gs, s2, second) else !second) ==>
              Costs(s, i, fs + gs, s2, second)
  {
    if Costs(s, i, fs, s1, first) && (if first then Costs(s1, i, gs, s2, second) else !second) {
      if first {
        RoomSplit(s, i, fs, s1, gs);
        if second {
          SpentTransitive(s, i, fs, s1, gs, s2);
        }
      } else if Room(s, i, fs + gs) {
        RoomLess(s, i, fs, fs + gs);
      }
    }
  }

  lemma CostsNothing(s: State, i: nat)
    ensures Costs(s, i, {}, s, true)
  {
    SpentNothing(s, i);
  }

  /** What has been had need not be had again. */
  lemma RoomAgain(s: State, i: nat, fs: set<nat>, s1: State, gs: set<nat>)
    requires Costs(s, i, fs, s1, true) && gs <= fs
    ensures Room(s1, i, gs)
  {
    assert fs + gs == fs;
    RoomSplit(s, i, fs, s1, gs);
  }

  /** A mapped block costs nothing. */
  lemma RoomMapped(s: State, i: nat, f: nat)
    requires TreeInv(s) && IsRoot(s, i) && Vbloc(s, i, f) != 0
    ensures Room(s, i, {f}) && Absent(s, i, {f}) == {}
  {
    VblocLocated(s, i, f);
    forall p | p in Way(f) ensures Present(s, i, p) {
      WayPresent(s, i, f, p);
    }
    assert Absent(s, i, {f}) == {};
  }

  lemma SpentNothing(s: State, i: nat)
    ensures Spent(s, i, {}, s) && Room(s, i, {})
  {
    assert Absent(s, i, {}) == {};
  }

  /** One allocation succeeds exactly when there is room, and then has cost exactly what
      was missing. */
  lemma AllocSpent(s: State, i: nat, f: nat, s': State, b: nat)
    requires Core(s) && IsRoot(s, i) && Allocated(s, i, f, s', b)
    requires forall g: nat | Vbloc(s, i, g) != 0 :: g < Taille(s, i)
    ensures Costs(s, i, {f}, s', b != 0)
    ensures forall j: nat, p: Place | IsRoot(s, j) && j != i :: Present(s', j, p) <==> Present(s, j, p)
  {
    forall j: nat, p: Place | IsRoot(s, j) && j != i ensures Present(s', j, p) <==> Present(s, j, p) {
      AllocPresent(s, i, f, s', b, j, p);
    }
    if f < MAX_FBLOC {
      MissingIs(s, i, f);
    } else {
      assert f in {f};
    }
    if b != 0 {
      forall p: Place ensures Present(s', i, p) <==> Present(s, i, p) || p in Absent(s, i, {f}) {
        AllocPresent(s, i, f, s', b, i, p);
        assert p in Way(f) && !Present(s, i, p) ==> p in Absent(s, i, {f});
      }
      assert f in {f};
    }
  }

  // ----------------------------------------------------------------------- bounds

  lemma WayBound(f: nat, p: Place)
    requires f < MAX_FBLOC && p in Way(f)
    ensures p == Datum(f) || p == IndirectTable || p == DoubleTable || (p.SecondTable? && p.k < NB_BLOCS)
  {
  }

  /** At most one block for each file block, and twelve tables. */
  lemma AbsentBound(s: State, i: nat, fs: set<nat>)
    requires forall f | f in fs :: f < MAX_FBLOC
    ensures |Absent(s, i, fs)| <= |fs| + 12
  {
    var all := DataPlaces(fs) + TablePlaces(NB_BLOCS) + {IndirectTable, DoubleTable};
    forall p | p in Absent(s, i, fs) ensures p in all {
      var f :| f in fs && p in Way(f);
      WayBound(f, p);
    }
    SetSize(Absent(s, i, fs), all);
    UnionBound(DataPlaces(fs), TablePlaces(NB_BLOCS));
    UnionBound(DataPlaces(fs) + TablePlaces(NB_BLOCS), {IndirectTable, DoubleTable});
  }

  lemma UnionBound(a: set<Place>, b: set<Place>)
    ensures |a + b| <= |a| + |b|
  {
    assert a + b == a + (b - a);
    SetSize(b - a, b);
  }

  ghost function DataPlaces(fs: set<nat>): (ps: set<Place>)
    ensures |ps| == |fs| && forall p :: p in ps <==> p.Datum? && p.fbloc in fs
  {
    if fs == {} then {}
    else
      var f :| f in fs;
      DataPlaces(fs - {f}) + {Datum(f)}
  }

  ghost function TablePlaces(n: nat): (ps: set<Place>)
    ensures |ps| == n && forall p :: p in ps <==> p.SecondTable? && p.k < n
  {
    if n == 0 then {} else TablePlaces(n - 1) + {SecondTable(n - 1)}
  }
}
