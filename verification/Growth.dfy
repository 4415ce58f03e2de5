/** How directories grow. Their operations only touch blocks up to the one behind the last,
    so a directory has a block in every place below its size and nowhere else, and what an
    operation costs depends only on whether it touches the block behind the last. */
module Growth {
  import opened Codec
  import opened FreeList
  import opened BlockMap
  import opened Space
  import opened Allocate
  import opened FileView
  import opened Entries
  import opened Directory
  import Lifecycle

  /** The places on the way to the first `n` file blocks. */
  predicate Below(p: Place, n: nat) {
    match p
    case Datum(f) => f < n
    case IndirectTable => n > NB_BLOCS
    case DoubleTable => n > 2 * NB_BLOCS
    case SecondTable(k) => k < NB_BLOCS && n > 2 * NB_BLOCS + 10 * k
  }

  /** The file has exactly the blocks below its size. */
  ghost predicate Compact(s: State, d: nat) {
    Taille(s, d) <= MAX_FBLOC && forall p: Place :: Present(s, d, p) <==> Below(p, Taille(s, d))
  }

  ghost predicate AllCompact(s: State) {
    forall d: nat | IsDirectory(s, d) :: Compact(s, d)
  }

  /** How many blocks it takes to add block `n` behind the last: the first block of a table
      costs the table too, and the first of all tables of tables one more. */
  function StepCost(n: nat): nat {
    if n == 2 * NB_BLOCS then 3
    else if n == NB_BLOCS || (n > 2 * NB_BLOCS && n % 10 == 0) then 2
    else 1
  }

  /** The file blocks `fs` touched reach to block `n`, at most. */
  ghost predicate UpTo(fs: set<nat>, n: nat) {
    forall f | f in fs :: f <= n
  }

  lemma BelowWay(f: nat, n: nat, p: Place)
    requires f < n <= MAX_FBLOC && p in Way(f)
    ensures Below(p, n)
  {
  }

  lemma BelowNext(n: nat, p: Place)
    requires n < MAX_FBLOC
    ensures Below(p, n + 1) <==> Below(p, n) || p in Way(n)
  {
  }

  lemma AbsentInside(s: State, d: nat, fs: set<nat>)
    requires Compact(s, d) && UpTo(fs, Taille(s, d)) && Taille(s, d) !in fs
    ensures Absent(s, d, fs) == {}
  {
    forall f, p | f in fs && p in Way(f) ensures Present(s, d, p) {
      BelowWay(f, Taille(s, d), p);
    }
    assert Absent(s, d, fs) == {};
  }

  lemma AbsentBehind(s: State, d: nat, fs: set<nat>)
    requires Compact(s, d) && UpTo(fs, Taille(s, d)) && Taille(s, d) in fs
    ensures forall p :: p in Absent(s, d, fs) <==> p in Way(Taille(s, d)) && !Below(p, Taille(s, d))
    ensures |Absent(s, d, fs)| == StepCost(Taille(s, d))
  {
    var n := Taille(s, d);
    forall f, p | f in fs && f != n && p in Way(f) ensures Present(s, d, p) {
      BelowWay(f, n, p);
    }
    assert forall p :: p in Absent(s, d, fs) <==> p in Way(n) && !Below(p, n);
    var lacking := if n == 2 * NB_BLOCS then {Datum(n), DoubleTable, SecondTable(0)}
                   else if n == NB_BLOCS then {Datum(n), IndirectTable}
                   else if n > 2 * NB_BLOCS && n % 10 == 0 then {Datum(n), SecondTable(n / 10 - 2)}
                   else {Datum(n)};
    WayBehind(n, lacking);
    assert Absent(s, d, fs) == lacking;
  }

  lemma WayBehind(n: nat, lacking: set<Place>)
    requires n <= MAX_FBLOC
    requires lacking == if n == 2 * NB_BLOCS then {Datum(n), DoubleTable, SecondTable(0)}
                        else if n == NB_BLOCS then {Datum(n), IndirectTable}
                        else if n > 2 * NB_BLOCS && n % 10 == 0 then {Datum(n), SecondTable(n / 10 - 2)}
                        else {Datum(n)}
    ensures forall p :: p in lacking <==> p in Way(n) && !Below(p, n)
    ensures |lacking| == StepCost(n)
  {
  }

  /** Room for one more block. */
  predicate StepFits(n: nat, free: nat) {
    n < MAX_FBLOC && StepCost(n) <= free
  }

  /** An operation on a compact file that touches nothing beyond the block behind the last
      succeeds exactly when it does not touch that one or it can be paid for; the file is
      then longer by that block, and compact again. */
  lemma GrowthCosts(s: State, d: nat, fs: set<nat>, s': State, ok: bool)
    requires Compact(s, d) && UpTo(fs, Taille(s, d)) && Costs(s, d, fs, s', ok)
    ensures var n := Taille(s, d);
            && (ok <==> (n in fs ==> StepFits(n, s.sb.nbFree)))
            && (ok ==>
                  && Compact(s', d) && Taille(s', d) == (if n in fs then n + 1 else n)
                  && s'.sb.nbFree == s.sb.nbFree - if n in fs then StepCost(n) else 0)
  {
    var n := Taille(s, d);
    if n in fs {
      AbsentBehind(s, d, fs);
    } else {
      AbsentInside(s, d, fs);
    }
    if ok {
      GrowthSize(n, Taille(s', d), fs);
      forall p: Place ensures Present(s', d, p) <==> Below(p, Taille(s', d)) {
        if n in fs {
          BelowNext(n, p);
        }
      }
    }
  }

  lemma GrowthSize(n: nat, after: nat, fs: set<nat>)
    requires UpTo(fs, n) && Sized(n, after, fs)
    ensures after == if n in fs then n + 1 else n
  {
  }

  // ------------------------------------------------------- what a stop can spoil

  /** A block that was free and has become a table is in a place that had none. */
  lemma TableCame(s: State, s': State, d: nat, x: nat) returns (p: Place)
    requires TreeInv(s) && TreeInv(s') && Extends(s, s') && IsRoot(s, d) && x < |s.owner| && s.owner[x].Unused?
    requires s'.owner[x].Owned? && !s'.owner[x].level.Data? && RootOf(s'.owner, x) == d
    ensures Present(s', d, p) && !Present(s, d, p)
  {
    assert ParentOK(s', x);
    var parent := s'.owner[x].parent;
    assert ParentOK(s', parent);
    match s'.owner[x].level
    case Indirect =>
      p := IndirectTable;
      if Present(s, d, p) {
        TableKept(s, s', d, NB_BLOCS);
      }
    case Double =>
      p := DoubleTable;
      if Present(s, d, p) {
        TableKept(s, s', d, NB_BLOCS + 1);
      }
    case Second =>
      p := SecondTable(s'.owner[x].slot);
      if Present(s, d, p) {
        TableKept(s, s', d, NB_BLOCS + 1);
        TableKept(s, s', Slot(s, d, NB_BLOCS + 1), p.k);
      }
  }

  /** On a full volume no place can come. */
  lemma NothingCame(s: State, d: nat, f: nat, s': State, p: Place)
    requires Core(s) && IsRoot(s, d) && Allocated(s, d, f, s', 0) && f < MAX_FBLOC && s.sb.nbFree == 0
    ensures Present(s', d, p) <==> Present(s, d, p)
  {
    FreeCount(s);
    assert forall b: nat | b < |s.owner| :: !s.owner[b].Unused? by {
      forall b: nat | b < |s.owner| ensures !s.owner[b].Unused? {
        assert Has(s.runs, b) <==> s.owner[b].Unused?;
      }
    }
    if Present(s, d, p) {
      PresentKept(s, s', d, p);
    } else if Present(s', d, p) {
      match p
      case Datum(g) =>
        if g != f {
          OthersKept(s, d, f, s', 0, d, g);
        }
      case IndirectTable => TableNew(s, s', d, NB_BLOCS);
      case DoubleTable => TableNew(s, s', d, NB_BLOCS + 1);
      case SecondTable(k) =>
        var t := Slot(s', d, NB_BLOCS + 1);
        assert SlotOK(s', d, NB_BLOCS + 1) && SlotOK(s', t, k);
        SecondOld(s, s', d, t, k, Slot(s', t, k));
    }
  }

  lemma SomethingCame(s: State, d: nat, f: nat, s': State) returns (p: Place)
    requires Core(s) && IsRoot(s, d) && Allocated(s, d, f, s', 0) && f < MAX_FBLOC && s.sb.nbFree > 0
    ensures Present(s', d, p) && !Present(s, d, p)
  {
    assert s'.sb.nbFree == 0;
    FreeCount(s);
    FreeCount(s');
    var x := HeadOf(s.runs);
    assert Has(s.runs, x);
    ChainHas(s.blocks, s.runs, x);
    assert s.owner[x].Unused? && !Has(s'.runs, x);
    assert !s'.owner[x].Unused?;
    p := TableCame(s, s', d, x);
  }

  /** A step that cannot be paid for leaves the file compact exactly when nothing was free:
      otherwise what was free has become tables that lead nowhere. */
  lemma StopSpoils(s: State, d: nat)
    requires Inv(s) && IsRoot(s, d) && Compact(s, d) && Taille(s, d) < MAX_FBLOC
    requires s.sb.nbFree < StepCost(Taille(s, d))
    ensures Compact(Alloc(s, d, Taille(s, d)).0, d) <==> s.sb.nbFree == 0
  {
    var n := Taille(s, d);
    AbsentBehind(s, d, {n});
    MissingIs(s, d, n);
    AllocCorrect(s, d, n);
    var (s', b) := Alloc(s, d, n);
    if s.sb.nbFree == 0 {
      forall p: Place ensures Present(s', d, p) <==> Present(s, d, p) {
        NothingCame(s, d, n, s', p);
      }
      CompactSame(s, s', d);
    } else {
      var p := SomethingCame(s, d, n, s');
      assert Taille(s', d) == n && !Below(p, n);
    }
  }

  // ---------------------------------------------------- what directories touch

  /** A search that stops at record `k`, or has not found any when `k` is beyond the last,
      touches the block behind the last of `size`. */
  predicate SearchGrows(k: nat, size: nat) {
    size > 0 && (Whole(size) <= k || 20 * k + 20 == 512 * size)
  }

  /** The same for an addition at record `k`. */
  predicate AddGrows(k: nat, size: nat) {
    Whole(size) <= k || 20 * k + 20 == 512 * size
  }

  lemma ScanReach(k: nat, size: nat)
    requires k <= Whole(size)
    ensures UpTo(ScanNeeds(k, size), size)
    ensures size in ScanNeeds(k, size) <==> size > 0 && ScanEnd(k, size) == 512 * size
  {
    CrossedAre(0, ScanEnd(k, size), false);
    StretchReach(0, ScanEnd(k, size), size, false);
  }

  lemma StretchReach(c: nat, end: nat, n: nat, modified: bool)
    requires c <= end <= 512 * n + 511
    ensures UpTo(Stretch(c / 512, end / 512, modified), n)
    ensures n in Stretch(c / 512, end / 512, modified) <==> end / 512 == n && c / 512 != n
  {
  }

  lemma RecordReach(c: nat, k: nat, n: nat, modified: bool)
    requires c <= 512 * n && 20 * k + 20 <= 512 * n + 511 && 20 * k <= 512 * n
    ensures UpTo(Entered(c, 20 * k, false) + Crossed(20 * k, 20, modified), n)
    ensures n in Entered(c, 20 * k, false) + Crossed(20 * k, 20, modified) ==> (20 * k + 20) / 512 == n
    ensures (20 * k + 20) / 512 == n && 20 * k / 512 != n ==> n in Crossed(20 * k, 20, modified)
  {
    CrossedAre(20 * k, 20, modified);
    StretchReach(20 * k, 20 * k + 20, n, modified);
  }

  lemma RecordEnd(k: nat, size: nat)
    ensures k < Whole(size) ==> 20 * k + 20 <= 512 * size
    ensures k < Whole(size) ==> ((20 * k + 20) / 512 == size <==> 20 * k + 20 == 512 * size)
    ensures k == Whole(size) ==> 20 * k <= 512 * size < 20 * k + 20 && (20 * k + 20) / 512 == size
  {
  }

  /** Lookups and deletions touch the block behind the last exactly when the scan ends
      there. */
  lemma SearchReach(k: nat, size: nat)
    requires k <= Whole(size)
    ensures UpTo(LookupNeeds(k, size), size) && UpTo(DeleteNeeds(k, size), size)
    ensures size in LookupNeeds(k, size) <==> SearchGrows(k, size)
    ensures size in DeleteNeeds(k, size) <==> SearchGrows(k, size)
  {
    ScanReach(k, size);
    RecordEnd(k, size);
    if k < Whole(size) {
      RecordReach(20 * k + 20, k, size, false);
      RecordReach(20 * k + 20, k, size, true);
    }
  }

  lemma HeldReach(k: nat, size: nat)
    requires k <= Whole(size)
    ensures UpTo(Held(20 * k + 20, true), size)
    ensures size in Held(20 * k + 20, true) <==> AddGrows(k, size)
    ensures 20 * k + 20 <= 512 * size + 511 && 20 * k <= 512 * size && ScanEnd(k, size) <= 512 * size
    ensures (20 * k + 20) / 512 == size <==> AddGrows(k, size)
    ensures size > 0 && ScanEnd(k, size) == 512 * size ==> AddGrows(k, size)
  {
    RecordEnd(k, size);
  }

  /** Additions touch it when they write there, too. */
  lemma AddReach(k: nat, size: nat)
    requires k <= Whole(size)
    ensures UpTo(AddNeeds(k, size), size)
    ensures size in AddNeeds(k, size) <==> AddGrows(k, size)
  {
    hide Crossed, Entered, ScanNeeds, ScanEnd, Held, AddGrows, Whole;
    HeldReach(k, size);
    ScanReach(k, size);
    RecordReach(ScanEnd(k, size), k, size, true);
  }

  /** There is room for an operation exactly when it does not touch the block behind the
      last, or that can be paid for. */
  lemma RoomGrowth(s: State, d: nat, fs: set<nat>)
    requires Compact(s, d) && UpTo(fs, Taille(s, d))
    ensures Room(s, d, fs) <==> (Taille(s, d) in fs ==> StepFits(Taille(s, d), s.sb.nbFree))
  {
    if Taille(s, d) in fs {
      AbsentBehind(s, d, fs);
    } else {
      AbsentInside(s, d, fs);
    }
  }

  /** A deletion that stops does so in its scan; so does an addition, but for the first
      record of a directory. */
  lemma StopsInScan(s: State, d: nat, k: nat)
    requires Compact(s, d) && k <= Whole(Taille(s, d))
    ensures Room(s, d, DeleteNeeds(k, Taille(s, d))) <==> Room(s, d, ScanNeeds(k, Taille(s, d)))
    ensures Taille(s, d) > 0 ==>
              (Room(s, d, AddNeeds(k, Taille(s, d))) <==> Room(s, d, ScanNeeds(k, Taille(s, d))))
  {
    var n := Taille(s, d);
    ScanReach(k, n);
    SearchReach(k, n);
    AddReach(k, n);
    ScanGrows(k, n);
    hide Compact, Room, ScanNeeds, DeleteNeeds, AddNeeds, UpTo, StepFits, Taille;
    RoomGrowth(s, d, ScanNeeds(k, n));
    RoomGrowth(s, d, DeleteNeeds(k, n));
    RoomGrowth(s, d, AddNeeds(k, n));
  }

  lemma ScanGrows(k: nat, n: nat)
    requires k <= Whole(n)
    ensures SearchGrows(k, n) <==> n > 0 && ScanEnd(k, n) == 512 * n
    ensures n > 0 ==> (AddGrows(k, n) <==> SearchGrows(k, n))
  {
    RecordEnd(k, n);
  }

  // ---------------------------------------------------------- all directories

  /** Changing one directory leaves the others compact. */
  lemma CompactKept(s: State, s': State, d: nat)
    requires AllCompact(s) && OnlyFile(s, s', d) && (IsDirectory(s, d) ==> Compact(s', d))
    ensures AllCompact(s')
  {
    forall e: nat | IsDirectory(s', e) ensures Compact(s', e) {
      if e != d {
        assert IsRoot(s, e) && Compact(s, e);
      }
    }
  }

  lemma CompactEmpty(s: State, i: nat)
    requires Taille(s, i) == 0 && forall p: Place :: !Present(s, i, p)
    ensures Compact(s, i)
  {
  }

  lemma CompactSame(s: State, s1: State, d: nat)
    requires Compact(s, d) && Taille(s1, d) == Taille(s, d)
    requires forall p: Place :: Present(s1, d, p) <==> Present(s, d, p)
    ensures Compact(s1, d)
  {
  }

  /** A new inode has nothing and wants nothing. */
  lemma CompactCreated(s: State, kind: FileType, s1: State, i: nat)
    requires AllCompact(s) && Lifecycle.Created(s, kind, s1, i)
    ensures AllCompact(s1)
  {
    hide Vbloc, FBlock, Present, Below, Compact;
    forall e: nat | IsDirectory(s1, e) ensures Compact(s1, e) {
      if i == 0 {
        assert IsDirectory(s, e);
      } else if e == i {
        CompactEmpty(s1, i);
      } else {
        assert IsRoot(s, e) && Compact(s, e);
        CompactSame(s, s1, e);
      }
    }
  }
}
