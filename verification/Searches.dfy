/** What searches cost. A lookup that gets to the end of a directory makes it longer by one
    block, so whether a walk can be finished depends on how many blocks are free and on how
    often each directory on the way has been searched to its end. */
module Searches {
  import opened Bytes
  import opened FreeList
  import opened BlockMap
  import opened FileView
  import opened Entries
  import opened Directory
  import opened Growth
  import opened Space
  import opened Paths

  /** What is left while searches go on: the free blocks, and the blocks each directory has
      got since the start. */
  datatype Ledger = Ledger(free: nat, grown: multiset<nat>)

  function Start(s: State): Ledger {
    Ledger(s.sb.nbFree, multiset{})
  }

  function Size(s: State, l: Ledger, d: nat): nat {
    Taille(s, d) + l.grown[d]
  }

  /** `now` is `s` as far as free blocks and sizes go, but for what the ledger says. */
  ghost predicate Accounts(s: State, now: State, l: Ledger) {
    now.sb.nbFree == l.free && forall j: nat | IsRoot(s, j) :: Taille(now, j) == Size(s, l, j)
  }

  /** `now` shows the files of `s`, and the ledger accounts for the rest. */
  ghost predicate Kept(s: State, now: State, l: Ledger) {
    SameFiles(s, now) && Accounts(s, now, l)
  }

  /** One more block for directory `d`, if there is room. */
  function Grow(s: State, l: Ledger, d: nat): Option<Ledger> {
    var n := Size(s, l, d);
    if StepFits(n, l.free) then Some(Ledger(l.free - StepCost(n), l.grown + multiset{d})) else None
  }

  /** The ledger after a lookup, or after a deletion; none if it cannot be finished. */
  ghost function Look(s: State, l: Ledger, d: nat, name: seq<byte>): Option<Ledger> {
    if IsDirectory(s, d) && SearchGrows(FindFrom(FileBytes(s, d), 0, MAX_ENTRIES, name), Size(s, l, d))
    then Grow(s, l, d) else Some(l)
  }

  /** The ledger after an addition. */
  ghost function Enter(s: State, l: Ledger, d: nat): Option<Ledger> {
    if IsDirectory(s, d) && AddGrows(FreeFrom(FileBytes(s, d), 0, MAX_ENTRIES), Size(s, l, d))
    then Grow(s, l, d) else Some(l)
  }

  /** The ledger after a walk. */
  ghost function WalkRoom(s: State, l: Ledger, d: nat, names: seq<seq<byte>>): Option<Ledger>
    decreases |names|
  {
    if names == [] then Some(l)
    else
      match Look(s, l, d, names[0])
      case None => None
      case Some(l1) =>
        var next := Find(s, d, names[0]);
        if next == 0 then Some(l1) else WalkRoom(s, l1, next, names[1..])
  }

  /** The ledger after a path has been resolved. */
  ghost function PathRoom(s: State, p: seq<byte>): Option<Ledger> {
    if p == [] || p[0] != SLASH then Some(Start(s)) else WalkRoom(s, Start(s), s.sb.root, Components(p))
  }

  /** The ledger after the directory of a path has been found. */
  ghost function ParentRoom(s: State, p: seq<byte>): Option<Ledger> {
    if p == [] || p[0] != SLASH then Some(Start(s)) else PathRoom(s, DirName(p))
  }

  /** The ledger after a file has been created: one block for the inode, then the entry. */
  ghost function CreateRoom(s: State, p: seq<byte>): Option<Ledger> {
    match ParentRoom(s, p)
    case None => None
    case Some(l) =>
      if ParentOf(s, p) == 0 || l.free == 0 then Some(l)
      else Enter(s, Ledger(l.free - 1, l.grown), ParentOf(s, p))
  }

  /** The ledger after a file has been unlinked. */
  ghost function UnlinkRoom(s: State, p: seq<byte>): Option<Ledger> {
    match ParentRoom(s, p)
    case None => None
    case Some(l) => if ParentOf(s, p) == 0 then Some(l) else Look(s, l, ParentOf(s, p), BaseName(p))
  }

  lemma StartKept(s: State)
    ensures |s.blocks| == |s.owner| ==> Kept(s, s, Start(s))
  {
  }

  // ------------------------------------------------------ from needs to the ledger

  /** The scan over the recorded size and the one over the whole capacity stop alike. */
  lemma FindBound(a: seq<byte>, n: nat, name: seq<byte>)
    requires |a| == CAPACITY && n <= MAX_ENTRIES && UsedWithin(a, n)
    ensures var r := FindFrom(a, 0, MAX_ENTRIES, name); FindFrom(a, 0, n, name) == if r < n then r else n
  {
    var r := FindFrom(a, 0, MAX_ENTRIES, name);
    FindIs(a, 0, n, name, if r < n then r else n);
  }

  lemma {:induction false} FreeIs(a: seq<byte>, k: nat, n: nat, r: nat)
    requires k <= r <= n && 20 * n <= |a|
    requires forall j | k <= j < r :: Inum(a, j) != 0
    requires r < n ==> Inum(a, r) == 0
    ensures FreeFrom(a, k, n) == r
    decreases r - k
  {
    if k == r {
    } else {
      FreeIs(a, k + 1, n, r);
    }
  }

  lemma FreeBound(a: seq<byte>, n: nat)
    requires |a| == CAPACITY && n <= MAX_ENTRIES
    ensures var r := FreeFrom(a, 0, MAX_ENTRIES); FreeFrom(a, 0, n) == if r < n then r else n
  {
    var r := FreeFrom(a, 0, MAX_ENTRIES);
    FreeIs(a, 0, n, if r < n then r else n);
  }

  /** What changing one directory by at most one block means for the ledger. */
  lemma StepAccounts(s: State, s1: State, l: Ledger, d: nat, fs: set<nat>, s2: State, ok: bool)
    requires Accounts(s, s1, l) && IsRoot(s, d) && Compact(s1, d) && OnlyFile(s1, s2, d)
    requires forall j: nat | IsRoot(s, j) :: IsRoot(s1, j)
    requires UpTo(fs, Size(s, l, d)) && Costs(s1, d, fs, s2, ok)
    ensures var l' := if Size(s, l, d) in fs then Grow(s, l, d) else Some(l);
            && (ok <==> l'.Some?)
            && (ok ==> Accounts(s, s2, l'.value) && Compact(s2, d))
  {
    GrowthCosts(s1, d, fs, s2, ok);
  }

  /** A lookup, or a deletion, is finished exactly when the ledger says so. */
  lemma SearchAccounts(s: State, s1: State, l: Ledger, d: nat, name: seq<byte>, s2: State, ok: bool)
    requires NameSpace(s1) && Kept(s, s1, l) && IsDirectory(s, d) && OnlyFile(s1, s2, d)
    requires var size := Taille(s1, d); var a := FileBytes(s1, d);
             && Whole(size) <= MAX_ENTRIES
             && var k := FindFrom(a, 0, Whole(size), name);
                Costs(s1, d, LookupNeeds(k, size), s2, ok) || Costs(s1, d, DeleteNeeds(k, size), s2, ok)
    ensures ok <==> Look(s, l, d, name).Some?
    ensures ok ==> Accounts(s, s2, Look(s, l, d, name).value) && AllCompact(s2)
  {
    var size, a := Taille(s1, d), FileBytes(s1, d);
    var k := FindFrom(a, 0, Whole(size), name);
    assert IsDirectory(s1, d);
    FindBound(a, Whole(size), name);
    SearchReach(k, size);
    var fs := if Costs(s1, d, LookupNeeds(k, size), s2, ok) then LookupNeeds(k, size) else DeleteNeeds(k, size);
    StepAccounts(s, s1, l, d, fs, s2, ok);
    if ok {
      CompactKept(s1, s2, d);
    }
  }

  /** An addition is finished exactly when the ledger says so. */
  lemma EnterAccounts(s: State, s1: State, l: Ledger, d: nat, s2: State, ok: bool)
    requires AllCompact(s1) && Accounts(s, s1, l) && IsDirectory(s, d) && IsDirectory(s1, d) && OnlyFile(s1, s2, d)
    requires forall j: nat | IsRoot(s, j) :: IsRoot(s1, j)
    requires FileBytes(s1, d) == FileBytes(s, d)
    requires var size := Taille(s1, d);
             && 20 * Whole(size) <= CAPACITY
             && Costs(s1, d, AddNeeds(FreeFrom(FileBytes(s1, d), 0, Whole(size)), size), s2, ok)
    ensures ok <==> Enter(s, l, d).Some?
    ensures ok ==> Accounts(s, s2, Enter(s, l, d).value) && AllCompact(s2)
  {
    var size, a := Taille(s1, d), FileBytes(s1, d);
    var k := FreeFrom(a, 0, Whole(size));
    FreeBound(a, Whole(size));
    AddReach(k, size);
    StepAccounts(s, s1, l, d, AddNeeds(k, size), s2, ok);
    if ok {
      CompactKept(s1, s2, d);
    }
  }

  // ----------------------------------------------------------------------- bounds

  /** A walk of `m` names takes at most 3 free blocks for each name, and one block more of
      each directory for each. */
  lemma {:induction false} WalkFits(s: State, l: Ledger, d: nat, names: seq<seq<byte>>)
    requires 3 * |names| <= l.free
    requires forall e: nat | IsDirectory(s, e) :: Size(s, l, e) + |names| <= MAX_FBLOC
    ensures WalkRoom(s, l, d, names).Some?
    ensures var l' := WalkRoom(s, l, d, names).value;
            l.free <= l'.free + 3 * |names| && forall e: nat :: l'.grown[e] <= l.grown[e] + |names|
    decreases |names|
  {
    if names == [] {
    } else {
      var l1 := Look(s, l, d, names[0]).value;
      var next := Find(s, d, names[0]);
      if next != 0 {
        WalkFits(s, l1, next, names[1..]);
      }
    }
  }

  /** Enough room to resolve a path of `m` names whatever they are. */
  lemma ResolveFits(s: State, p: seq<byte>)
    requires 3 * |Components(p)| <= s.sb.nbFree
    requires forall e: nat | IsDirectory(s, e) :: Taille(s, e) + |Components(p)| <= MAX_FBLOC
    ensures PathRoom(s, p).Some? && s.sb.nbFree <= PathRoom(s, p).value.free + 3 * |Components(p)|
  {
    if p != [] && p[0] == SLASH {
      WalkFits(s, Start(s), s.sb.root, Components(p));
    }
  }

  lemma EnterFits(s: State, l: Ledger, d: nat)
    requires 3 <= l.free && (IsDirectory(s, d) ==> Size(s, l, d) < MAX_FBLOC)
    ensures Enter(s, l, d).Some?
  {
  }

  lemma ParentFits(s: State, p: seq<byte>)
    requires 3 * |Components(p)| <= s.sb.nbFree
    requires forall e: nat | IsDirectory(s, e) :: Taille(s, e) + |Components(p)| <= MAX_FBLOC
    ensures ParentRoom(s, p).Some?
    ensures var l := ParentRoom(s, p).value;
            s.sb.nbFree <= l.free + 3 * |Components(p)| && forall e: nat :: l.grown[e] <= |Components(p)|
  {
    if p != [] && p[0] == SLASH {
      ComponentsOfBase(p);
      WalkFits(s, Start(s), s.sb.root, Components(DirName(p)));
    }
  }

  /** Enough room to create a file, whatever its path. */
  lemma CreateFits(s: State, p: seq<byte>)
    requires 3 * |Components(p)| + 3 < s.sb.nbFree
    requires forall e: nat | IsDirectory(s, e) :: Taille(s, e) + |Components(p)| < MAX_FBLOC
    ensures CreateRoom(s, p).Some? && ParentRoom(s, p).value.free > 0
  {
    hide ParentRoom, ParentOf, Taille, Enter;
    ParentFits(s, p);
    var l := ParentRoom(s, p).value;
    EnterFits(s, Ledger(l.free - 1, l.grown), ParentOf(s, p));
  }

  /** The same to unlink one. */
  lemma UnlinkFits(s: State, p: seq<byte>)
    requires 3 * |Components(p)| + 3 < s.sb.nbFree
    requires forall e: nat | IsDirectory(s, e) :: Taille(s, e) + |Components(p)| < MAX_FBLOC
    ensures UnlinkRoom(s, p).Some?
  {
    hide ParentRoom, ParentOf, Taille;
    ParentFits(s, p);
  }

  /** On a volume whose root directory is empty two free blocks do for a file in it. */
  lemma FirstFits(s: State, p: seq<byte>)
    requires IsDirectory(s, s.sb.root) && Taille(s, s.sb.root) == 0 && s.sb.root != 0 && s.sb.nbFree >= 2
    requires p != [] && p[0] == SLASH && BaseName(p) != [] && Components(DirName(p)) == []
    ensures ParentOf(s, p) == s.sb.root && CreateRoom(s, p).Some? && ParentRoom(s, p).value.free > 0
  {
  }
}
