/** Deleting an inode (src/disque/filesystem.c:423-473): every block of its tree returns to
    the free list, and nothing else on the volume is touched. */
module Delete {
  import opened Codec
  import opened FreeList
  import opened BlockMap
  import opened Allocate

  // --------------------------------------------------- the blocks of one inode

  /** The non-null pointers among the first `c` of block `b`, in order. */
  ghost function Slots(s: State, b: nat, c: nat): seq<nat>
    requires b < |s.blocks| == |s.owner| && c <= Arity(s.owner[b])
  {
    if c == 0 then []
    else Slots(s, b, c - 1) + if Slot(s, b, c - 1) == 0 then [] else [Slot(s, b, c - 1)]
  }

  lemma {:induction false} SlotsMembers(s: State, b: nat, c: nat)
    requires TreeInv(s) && b < |s.owner| && c <= Arity(s.owner[b])
    ensures forall x: nat :: x in Slots(s, b, c) <==>
                             x < |s.owner| && s.owner[x].Owned? && s.owner[x].parent == b && s.owner[x].slot < c
    ensures Distinct(Slots(s, b, c))
  {
    if c == 0 {
    } else {
      SlotsMembers(s, b, c - 1);
      assert SlotOK(s, b, c - 1);
      var p := Slot(s, b, c - 1);
      forall x: nat | x < |s.owner| && s.owner[x].Owned? && s.owner[x].parent == b && s.owner[x].slot == c - 1
        ensures x == p != 0
      {
        assert ParentOK(s, x);
      }
      if p != 0 {
        DistinctAppend(Slots(s, b, c - 1), [p]);
      }
    }
  }

  ghost predicate Distinct(l: seq<nat>) {
    forall x, y | 0 <= x < y < |l| :: l[x] != l[y]
  }

  lemma DistinctAppend(a: seq<nat>, b: seq<nat>)
    requires Distinct(a) && Distinct(b)
    requires forall x: nat | x in a :: x !in b
    ensures Distinct(a + b)
  {
    forall x, y | 0 <= x < y < |a + b| ensures (a + b)[x] != (a + b)[y] {
      assert x < |a| ==> a[x] in a;
      assert y >= |a| ==> b[y - |a|] in b;
    }
  }

  /** A table of data blocks: its entries, then itself; nothing for a null pointer. */
  ghost function TableList(s: State, t: nat): seq<nat>
    requires |s.blocks| == |s.owner|
  {
    if t == 0 || |s.owner| <= t then [] else Slots(s, t, Arity(s.owner[t])) + [t]
  }

  /** The first `k` second-level tables of `t`, each with its entries. */
  ghost function SecondLists(s: State, t: nat, k: nat): seq<nat>
    requires t < |s.blocks| == |s.owner| && k <= Arity(s.owner[t])
  {
    if k == 0 then [] else SecondLists(s, t, k - 1) + TableList(s, Slot(s, t, k - 1))
  }

  ghost function DoubleList(s: State, t: nat): seq<nat>
    requires |s.blocks| == |s.owner|
  {
    if t == 0 || |s.owner| <= t then [] else SecondLists(s, t, Arity(s.owner[t])) + [t]
  }

  /** The blocks of inode `i` in the order they are freed, the inode last. */
  ghost function TreeList(s: State, i: nat): seq<nat>
    requires |s.blocks| == |s.owner| && IsRoot(s, i)
  {
    Slots(s, i, NB_BLOCS) + TableList(s, Slot(s, i, NB_BLOCS)) + DoubleList(s, Slot(s, i, NB_BLOCS + 1)) + [i]
  }

  /** `x` is `t` or hangs directly from `t`. */
  ghost predicate InTable(s: State, t: nat, x: nat) {
    x == t || (x < |s.owner| && s.owner[x].Owned? && s.owner[x].parent == t)
  }

  lemma TableMembers(s: State, t: nat)
    requires TreeInv(s) && t < |s.owner| && t != 0 && s.owner[t].Owned?
    ensures forall x: nat :: x in TableList(s, t) <==> InTable(s, t, x)
    ensures Distinct(TableList(s, t))
  {
    SlotsMembers(s, t, Arity(s.owner[t]));
    forall x: nat ensures x in TableList(s, t) <==> InTable(s, t, x) {
      if x < |s.owner| {
        assert ParentOK(s, x);
      }
    }
    assert ParentOK(s, t);
    DistinctAppend(Slots(s, t, Arity(s.owner[t])), [t]);
  }

  /** `x` hangs under one of the first `k` tables of `t`, or is one of them. */
  ghost predicate InSeconds(s: State, t: nat, k: nat, x: nat) {
    && x < |s.owner| && s.owner[x].Owned?
    && ((s.owner[x].parent == t && s.owner[x].slot < k)
        || (var p := s.owner[x].parent;
            p < |s.owner| && s.owner[p].Owned? && s.owner[p].parent == t && s.owner[p].slot < k))
  }

  lemma SecondTableMember(s: State, t: nat, k: nat, x: nat)
    requires TreeInv(s) && t < |s.owner| && s.owner[t].Owned? && s.owner[t].level.Double? && 0 < k <= Arity(s.owner[t])
    ensures x in TableList(s, Slot(s, t, k - 1)) <==> InSeconds(s, t, k, x) && !InSeconds(s, t, k - 1, x)
  {
    var u := Slot(s, t, k - 1);
    assert SlotOK(s, t, k - 1);
    if u != 0 {
      TableMembers(s, u);
    }
    if x < |s.owner| {
      assert ParentOK(s, x);
      if s.owner[x].Owned? {
        assert ParentOK(s, s.owner[x].parent);
      }
    }
  }

  lemma SecondTable(s: State, t: nat, k: nat)
    requires TreeInv(s) && t < |s.owner| && s.owner[t].Owned? && s.owner[t].level.Double? && 0 < k <= Arity(s.owner[t])
    ensures forall x: nat ::
              x in TableList(s, Slot(s, t, k - 1)) <==> InSeconds(s, t, k, x) && !InSeconds(s, t, k - 1, x)
    ensures forall x: nat :: InSeconds(s, t, k - 1, x) ==> InSeconds(s, t, k, x)
    ensures Distinct(TableList(s, Slot(s, t, k - 1)))
  {
    forall x: nat
      ensures x in TableList(s, Slot(s, t, k - 1)) <==> InSeconds(s, t, k, x) && !InSeconds(s, t, k - 1, x)
    {
      SecondTableMember(s, t, k, x);
    }
    assert SlotOK(s, t, k - 1);
    if Slot(s, t, k - 1) != 0 {
      TableMembers(s, Slot(s, t, k - 1));
    }
  }

  ghost function Seconds(s: State, t: nat, k: nat): iset<nat> {
    iset x: nat | InSeconds(s, t, k, x)
  }

  ghost function Members(l: seq<nat>): iset<nat> {
    iset x: nat | x in l
  }

  /** Lists without common members, one behind the other. */
  lemma ListsJoin(a: seq<nat>, b: seq<nat>)
    requires Distinct(a) && Distinct(b) && Members(a) !! Members(b)
    ensures Distinct(a + b) && Members(a + b) == Members(a) + Members(b)
  {
    forall x: nat | x in a ensures x !in b {
      assert x in Members(a);
    }
    DistinctAppend(a, b);
  }

  lemma SecondsGrow(s: State, t: nat, k: nat)
    requires TreeInv(s) && t < |s.owner| && s.owner[t].Owned? && s.owner[t].level.Double? && 0 < k <= Arity(s.owner[t])
    ensures Members(TableList(s, Slot(s, t, k - 1))) !! Seconds(s, t, k - 1)
    ensures Seconds(s, t, k) == Seconds(s, t, k - 1) + Members(TableList(s, Slot(s, t, k - 1)))
  {
    hide TableList, InSeconds, SlotOK, ParentOK;
    SecondTable(s, t, k);
    var p, q, l := Seconds(s, t, k - 1), Seconds(s, t, k), TableList(s, Slot(s, t, k - 1));
    forall x: nat ensures x in q <==> x in p || x in Members(l) {
      assert x in l <==> InSeconds(s, t, k, x) && !InSeconds(s, t, k - 1, x);
      assert InSeconds(s, t, k - 1, x) ==> InSeconds(s, t, k, x);
    }
    forall x: nat | x in p ensures x !in Members(l) {
      assert x in l <==> InSeconds(s, t, k, x) && !InSeconds(s, t, k - 1, x);
    }
  }

  lemma NoSeconds(s: State, t: nat)
    ensures Seconds(s, t, 0) == iset{} == Members([])
  {
  }

  lemma {:induction false} SecondMembers(s: State, t: nat, k: nat)
    requires TreeInv(s) && t < |s.owner| && s.owner[t].Owned? && s.owner[t].level.Double? && k <= Arity(s.owner[t])
    ensures Members(SecondLists(s, t, k)) == Seconds(s, t, k) && Distinct(SecondLists(s, t, k))
  {
    hide TableList, InSeconds, SlotOK, ParentOK, Members, Seconds;
    if k == 0 {
      NoSeconds(s, t);
    } else {
      SecondMembers(s, t, k - 1);
      SecondTable(s, t, k);
      SecondsGrow(s, t, k);
      ListsJoin(SecondLists(s, t, k - 1), TableList(s, Slot(s, t, k - 1)));
    }
  }

  lemma MembersAre(s: State, t: nat, k: nat)
    requires |s.blocks| == |s.owner| && t < |s.owner| && k <= Arity(s.owner[t])
    requires Members(SecondLists(s, t, k)) == Seconds(s, t, k)
    ensures forall x: nat :: x in SecondLists(s, t, k) <==> InSeconds(s, t, k, x)
  {
    forall x: nat ensures x in SecondLists(s, t, k) <==> InSeconds(s, t, k, x) {
      assert x in Members(SecondLists(s, t, k)) <==> x in Seconds(s, t, k);
    }
  }

  // --------------------------------------------------------- the whole tree, once

  lemma DoubleMembers(s: State, t: nat)
    requires TreeInv(s) && t < |s.owner| && t != 0 && s.owner[t].Owned? && s.owner[t].level.Double?
    ensures forall x: nat :: x in DoubleList(s, t) <==> x == t || InSeconds(s, t, NB_BLOCS, x)
    ensures Distinct(DoubleList(s, t))
  {
    SecondMembers(s, t, NB_BLOCS);
    MembersAre(s, t, NB_BLOCS);
    assert ParentOK(s, t);
    assert ParentOK(s, s.owner[t].parent);
    DistinctAppend(SecondLists(s, t, NB_BLOCS), [t]);
  }

  /** `x` belongs to the tree of inode `i`, the inode included. */
  ghost predicate InTree(s: State, i: nat, x: nat) {
    x < |s.owner| && (s.owner[x].Owned? || s.owner[x].Root?) && RootOf(s.owner, x) == i
  }

  /** How deep a block can be, case by case. */
  lemma TreeCases(s: State, i: nat, x: nat)
    requires TreeInv(s) && IsRoot(s, i)
    ensures InTree(s, i, x) <==>
              || x == i
              || (x < |s.owner| && s.owner[x].Owned? && s.owner[x].parent == i)
              || (x < |s.owner| && s.owner[x].Owned? && s.owner[x].parent < |s.owner|
                  && s.owner[s.owner[x].parent].Owned? && s.owner[s.owner[x].parent].parent == i)
              || (x < |s.owner| && s.owner[x].Owned? && s.owner[x].parent < |s.owner|
                  && s.owner[s.owner[x].parent].Owned? && s.owner[s.owner[x].parent].parent < |s.owner|
                  && s.owner[s.owner[s.owner[x].parent].parent].Owned?
                  && s.owner[s.owner[s.owner[x].parent].parent].parent == i)
  {
    if x < |s.owner| {
      assert ParentOK(s, x);
      assert ParentOK(s, Up(s.owner, x));
      assert ParentOK(s, Up(s.owner, Up(s.owner, x)));
    }
  }

  lemma TreeMember(s: State, i: nat, x: nat)
    requires TreeInv(s) && IsRoot(s, i)
    ensures var t := Slot(s, i, NB_BLOCS); var d := Slot(s, i, NB_BLOCS + 1);
            InTree(s, i, x) <==>
              || x == i
              || (x < |s.owner| && s.owner[x].Owned? && s.owner[x].parent == i && s.owner[x].slot < NB_BLOCS)
              || (t != 0 && InTable(s, t, x))
              || (d != 0 && (x == d || InSeconds(s, d, NB_BLOCS, x)))
  {
    assert SlotOK(s, i, NB_BLOCS) && SlotOK(s, i, NB_BLOCS + 1);
    TreeCases(s, i, x);
    if x < |s.owner| {
      assert ParentOK(s, x);
      var y := Up(s.owner, x);
      assert ParentOK(s, y);
      assert ParentOK(s, Up(s.owner, y));
    }
  }

  /** The list names every block of the inode's tree, each exactly once. */
  lemma TreeMembers(s: State, i: nat)
    requires TreeInv(s) && IsRoot(s, i)
    ensures forall x: nat :: x in TreeList(s, i) <==> InTree(s, i, x)
    ensures Distinct(TreeList(s, i))
  {
    var t := Slot(s, i, NB_BLOCS);
    var d := Slot(s, i, NB_BLOCS + 1);
    assert SlotOK(s, i, NB_BLOCS) && SlotOK(s, i, NB_BLOCS + 1);
    SlotsMembers(s, i, NB_BLOCS);
    if t != 0 {
      TableMembers(s, t);
    }
    if d != 0 {
      DoubleMembers(s, d);
    }
    forall x: nat ensures x in TreeList(s, i) <==> InTree(s, i, x) {
      TreeMember(s, i, x);
    }
    TreeDistinct(s, i, t, d);
  }

  lemma TreeDistinct(s: State, i: nat, t: nat, d: nat)
    requires TreeInv(s) && IsRoot(s, i) && t == Slot(s, i, NB_BLOCS) && d == Slot(s, i, NB_BLOCS + 1)
    ensures Distinct(TreeList(s, i))
  {
    assert SlotOK(s, i, NB_BLOCS) && SlotOK(s, i, NB_BLOCS + 1);
    SlotsMembers(s, i, NB_BLOCS);
    var a := Slots(s, i, NB_BLOCS);
    var b := TableList(s, t);
    var c := DoubleList(s, d);
    if t != 0 {
      TableMembers(s, t);
    }
    if d != 0 {
      DoubleMembers(s, d);
    }
    DistinctAppend(a, b);
    forall x: nat | x in a + b ensures x !in c && x != i {
      assert ParentOK(s, x);
      assert ParentOK(s, s.owner[x].parent);
    }
    DistinctAppend(a + b, c);
    forall x: nat | x in c ensures x != i {
      assert ParentOK(s, x);
    }
    DistinctAppend(a + b + c, [i]);
  }

  // ---------------------------------------------------------------- freeing them

  /** `r` is `s` with exactly the blocks of `l` back on the free list. */
  ghost predicate Freed(s: State, l: seq<nat>, r: State) {
    && FreeInv(r) && |r.blocks| == |r.owner| == |s.owner| == |s.blocks|
    && (forall k: nat | k < |s.owner| :: r.owner[k] == if k in l then Unused else s.owner[k])
    && (forall k: nat | 0 < k < |s.blocks| && k !in l :: r.blocks[k] == s.blocks[k])
    && r.sb.nbFree == s.sb.nbFree + |l|
    && r.sb == s.sb.(nbFree := r.sb.nbFree, firstFree := r.sb.firstFree)
  }

  ghost predicate CanFree(s: State, l: seq<nat>) {
    && FreeInv(s) && Distinct(l)
    && forall x: nat | x in l :: 0 < x < |s.owner| && !s.owner[x].Unused?
  }

  /** Freeing the blocks of `l` one after the other. */
  ghost function FreeAll(s: State, l: seq<nat>): State
    requires CanFree(s, l)
    decreases |l|, 0
  {
    if l == [] then s
    else
      var n := |l| - 1;
      CanFreePrefix(s, l, n);
      FreeAllFreed(s, l[..n]);
      var q := FreeAll(s, l[..n]);
      FreedStep(s, l, n, q);
      FreeBloc(q, l[n])
  }

  lemma {:induction false} FreeAllFreed(s: State, l: seq<nat>)
    requires CanFree(s, l)
    ensures Freed(s, l, FreeAll(s, l))
    decreases |l|, 1
  {
    if l == [] {
    } else {
      var n := |l| - 1;
      CanFreePrefix(s, l, n);
      FreeAllFreed(s, l[..n]);
      FreedStep(s, l, n, FreeAll(s, l[..n]));
    }
  }

  lemma CanFreePrefix(s: State, l: seq<nat>, n: nat)
    requires CanFree(s, l) && n <= |l|
    ensures CanFree(s, l[..n])
  {
    forall x: nat | x in l[..n] ensures 0 < x < |s.owner| && !s.owner[x].Unused? {
      assert x in l;
    }
  }

  lemma FreedStep(s: State, l: seq<nat>, n: nat, q: State)
    requires CanFree(s, l) && n < |l| && Freed(s, l[..n], q)
    ensures 0 < l[n] < |q.owner| && !q.owner[l[n]].Unused?
    ensures Freed(s, l[..n + 1], FreeBloc(q, l[n]))
    ensures n + 1 == |l| ==> l[..n + 1] == l
  {
    assert l[n] in l && l[n] !in l[..n];
    FreedOne(s, l[..n], q, l[n]);
    assert l[..n + 1] == l[..n] + [l[n]];
  }

  lemma FreedOne(s: State, l: seq<nat>, q: State, b: nat)
    requires Freed(s, l, q) && b !in l && 0 < b < |s.owner| && !s.owner[b].Unused?
    ensures Freed(s, l + [b], FreeBloc(q, b))
  {
    FreeBlocCorrect(q, b);
    assert forall k: nat :: k in l + [b] <==> k in l || k == b;
  }

  /** `delete_inode`, with the tables it forgets freed as well. */
  ghost function DeleteInode(s: State, i: nat): State
    requires Core(s) && IsRoot(s, i)
  {
    TreeCanFree(s, i);
    FreeAll(s, TreeList(s, i))
  }

  lemma TreeCanFree(s: State, i: nat)
    requires Core(s) && IsRoot(s, i)
    ensures CanFree(s, TreeList(s, i))
  {
    TreeMembers(s, i);
    assert ParentOK(s, 0);
  }

  lemma CanFreeLe(s: State, a: seq<nat>, b: seq<nat>)
    requires CanFree(s, b) && a <= b
    ensures CanFree(s, a)
  {
    CanFreePrefix(s, b, |a|);
    assert b[..|a|] == a;
  }

  /** One more block freed, and what it and the blocks not yet freed look like before. */
  lemma FreeAllSnoc(s: State, l: seq<nat>, b: nat)
    requires CanFree(s, l + [b])
    ensures CanFree(s, l) && FreeInv(FreeAll(s, l))
    ensures 0 < b < |FreeAll(s, l).owner| && !FreeAll(s, l).owner[b].Unused?
    ensures FreeAll(s, l + [b]) == FreeBloc(FreeAll(s, l), b)
  {
    var m := l + [b];
    CanFreeLe(s, l, m);
    assert m[..|l|] == l && m[|l|] == b;
    FreeAllFreed(s, l);
    FreedStep(s, m, |l|, FreeAll(s, l));
  }

  /** A block freed later in the list still has its contents. */
  lemma NotFreedYet(s: State, l: seq<nat>, m: seq<nat>, b: nat)
    requires CanFree(s, l + m) && b in m
    ensures CanFree(s, l) && 0 < b < |s.blocks| == |FreeAll(s, l).blocks| && FreeAll(s, l).blocks[b] == s.blocks[b]
  {
    CanFreeLe(s, l, l + m);
    FreeAllFreed(s, l);
    var k :| 0 <= k < |m| && m[k] == b;
    assert (l + m)[|l| + k] == b && b in l + m;
    forall j | 0 <= j < |l| ensures l[j] != b {
      assert (l + m)[j] == l[j] && (l + m)[j] != (l + m)[|l| + k];
    }
  }

  lemma NoSlots(s: State, b: nat)
    requires b < |s.blocks| == |s.owner|
    ensures Slots(s, b, 0) == []
  {
  }

  lemma NothingFreed(s: State, b: nat)
    requires b < |s.blocks| == |s.owner| && NB_BLOCS <= Arity(s.owner[b]) && CanFree(s, Slots(s, b, NB_BLOCS))
    ensures CanFree(s, Slots(s, b, 0)) && FreeAll(s, Slots(s, b, 0)) == s
  {
    NoSlots(s, b);
    CanFreeLe(s, [], Slots(s, b, NB_BLOCS));
  }

  lemma SlotsStep(s: State, b: nat, k: nat)
    requires b < |s.blocks| == |s.owner| && k < Arity(s.owner[b])
    ensures Slots(s, b, k + 1) == if Slot(s, b, k) == 0 then Slots(s, b, k) else Slots(s, b, k) + [Slot(s, b, k)]
  {
    assert Slots(s, b, k) + [] == Slots(s, b, k);
  }

  lemma SecondsStep(s: State, t: nat, k: nat)
    requires t < |s.blocks| == |s.owner| && k < Arity(s.owner[t])
    ensures SecondLists(s, t, k + 1) == SecondLists(s, t, k) + TableList(s, Slot(s, t, k))
  {
  }

  lemma Assoc(a: seq<nat>, b: seq<nat>, c: seq<nat>)
    ensures a + (b + c) == (a + b) + c
  {
  }

  lemma {:induction false} SlotsPrefix(s: State, b: nat, k: nat, n: nat)
    requires b < |s.blocks| == |s.owner| && k <= n <= Arity(s.owner[b])
    ensures Slots(s, b, k) <= Slots(s, b, n)
    decreases n
  {
    if k == n {
    } else {
      SlotsPrefix(s, b, k, n - 1);
    }
  }

  lemma {:induction false} SecondsPrefix(s: State, t: nat, k: nat, n: nat)
    requires t < |s.blocks| == |s.owner| && k <= n <= Arity(s.owner[t])
    ensures SecondLists(s, t, k) <= SecondLists(s, t, n)
    decreases n - k
  {
    hide SecondLists;
    if k < n {
      var rest := SecondsTail(s, t, k, n);
    }
  }

  /** What the tables from number `k` on add to the list. */
  lemma {:induction false} SecondsTail(s: State, t: nat, k: nat, n: nat) returns (rest: seq<nat>)
    requires t < |s.blocks| == |s.owner| && k <= n <= Arity(s.owner[t])
    ensures SecondLists(s, t, n) == SecondLists(s, t, k) + rest
    decreases n
  {
    hide TableList, SecondLists, Slot;
    rest := [];
    if k == n {
    } else {
      rest := SecondsTail(s, t, k, n - 1);
      SecondsStep(s, t, n - 1);
      Assoc(SecondLists(s, t, k), rest, TableList(s, Slot(s, t, n - 1)));
      rest := rest + TableList(s, Slot(s, t, n - 1));
    }
  }

  /** One entry of table `t` on the way through the list of blocks to free. */
  lemma SlotStep(s: State, l: seq<nat>, t: nat, k: nat)
    requires t < |s.blocks| == |s.owner| && k < Arity(s.owner[t])
    requires CanFree(s, l + Slots(s, t, Arity(s.owner[t])))
    ensures CanFree(s, l + Slots(s, t, k)) && CanFree(s, l + Slots(s, t, k + 1))
    ensures var q := FreeAll(s, l + Slots(s, t, k));
            var b := Slot(s, t, k);
            if b == 0 then FreeAll(s, l + Slots(s, t, k + 1)) == q
            else
              && FreeInv(q) && 0 < b < |q.owner| && !q.owner[b].Unused?
              && FreeAll(s, l + Slots(s, t, k + 1)) == FreeBloc(q, b)
  {
    var n := Arity(s.owner[t]);
    SlotsPrefix(s, t, k, n);
    SlotsPrefix(s, t, k + 1, n);
    CanFreeLe(s, l + Slots(s, t, k), l + Slots(s, t, n));
    CanFreeLe(s, l + Slots(s, t, k + 1), l + Slots(s, t, n));
    SlotsStep(s, t, k);
    var b := Slot(s, t, k);
    if b != 0 {
      Assoc(l, Slots(s, t, k), [b]);
      FreeAllSnoc(s, l + Slots(s, t, k), b);
    }
  }

  /** One second-level table on the way through the list. */
  lemma SecondStep(s: State, l: seq<nat>, t: nat, k: nat)
    requires t < |s.blocks| == |s.owner| && k < Arity(s.owner[t])
    requires CanFree(s, l + SecondLists(s, t, Arity(s.owner[t])))
    ensures CanFree(s, l + SecondLists(s, t, k)) && CanFree(s, l + SecondLists(s, t, k + 1))
    ensures l + SecondLists(s, t, k + 1) == (l + SecondLists(s, t, k)) + TableList(s, Slot(s, t, k))
    ensures Slot(s, t, k) == 0 ==> l + SecondLists(s, t, k + 1) == l + SecondLists(s, t, k)
  {
    var n := Arity(s.owner[t]);
    SecondsPrefix(s, t, k, n);
    SecondsPrefix(s, t, k + 1, n);
    CanFreeLe(s, l + SecondLists(s, t, k), l + SecondLists(s, t, n));
    CanFreeLe(s, l + SecondLists(s, t, k + 1), l + SecondLists(s, t, n));
    SecondsStep(s, t, k);
    Assoc(l, SecondLists(s, t, k), TableList(s, Slot(s, t, k)));
  }

  // ----------------------------------------------------------- what a client sees

  /** `s'` is `s` without the tree of `i`. */
  ghost predicate Pruned(s: State, i: nat, s': State) {
    && |s'.blocks| == |s'.owner| == |s.owner| == |s.blocks|
    && (forall k: nat | k < |s.owner| :: s'.owner[k] == if InTree(s, i, k) then Unused else s.owner[k])
    && (forall k: nat | 0 < k < |s.blocks| && !InTree(s, i, k) :: s'.blocks[k] == s.blocks[k])
  }

  lemma PrunedSlot(s: State, i: nat, s': State, b: nat, c: nat)
    requires TreeInv(s) && IsRoot(s, i) && 0 < |s.owner| && s.owner[0].Superblock? && Pruned(s, i, s')
    requires b < |s'.owner| && c < Arity(s'.owner[b])
    ensures SlotOK(s', b, c)
  {
    assert SlotOK(s, b, c);
    var p := Slot(s, b, c);
    if p != 0 {
      SameTree(s, i, p);
    }
  }

  lemma PrunedParent(s: State, i: nat, s': State, p: nat)
    requires TreeInv(s) && IsRoot(s, i) && 0 < |s.owner| && s.owner[0].Superblock? && Pruned(s, i, s')
    requires p < |s'.owner|
    ensures ParentOK(s', p)
  {
    assert ParentOK(s, p);
    if s'.owner[p].Owned? {
      SameTree(s, i, p);
    }
  }

  lemma PrunedTree(s: State, i: nat, s': State)
    requires TreeInv(s) && IsRoot(s, i) && 0 < |s.owner| && s.owner[0].Superblock? && Pruned(s, i, s')
    ensures TreeInv(s')
  {
    hide SlotOK, ParentOK, InTree;
    forall b: nat, c: nat | b < |s'.owner| && c < Arity(s'.owner[b]) ensures SlotOK(s', b, c) {
      PrunedSlot(s, i, s', b, c);
    }
    forall p: nat | p < |s'.owner| ensures ParentOK(s', p) {
      PrunedParent(s, i, s', p);
    }
  }

  lemma SameTree(s: State, i: nat, p: nat)
    requires TreeInv(s) && IsRoot(s, i) && p < |s.owner| && s.owner[p].Owned?
    ensures InTree(s, i, p) <==> InTree(s, i, s.owner[p].parent)
  {
    assert ParentOK(s, p);
    var q := s.owner[p].parent;
    assert ParentOK(s, q);
    assert ParentOK(s, Up(s.owner, q));
  }

  /** A table of another inode is not pruned. */
  lemma TableStays(s: State, i: nat, s': State, b: nat, c: nat, j: nat)
    requires TreeInv(s) && Pruned(s, i, s') && b < |s.owner| && c < Arity(s.owner[b]) && i != j
    requires RootOf(s.owner, Slot(s, b, c)) == j && IsRoot(s, j) && Slot(s, b, c) != 0
    ensures Slot(s, b, c) < |s.owner| && s'.blocks[Slot(s, b, c)] == s.blocks[Slot(s, b, c)]
  {
    assert SlotOK(s, b, c);
  }

  lemma PrunedIndirect(s: State, i: nat, s': State, j: nat, g: nat)
    requires TreeInv(s) && Pruned(s, i, s') && IsRoot(s, j) && j != i && s'.blocks[j] == s.blocks[j]
    requires NB_BLOCS <= g < 2 * NB_BLOCS
    ensures Vbloc(s', j, g) == Vbloc(s, j, g)
  {
    IndirectWalk(s, j, g);
    var t := Slot(s, j, NB_BLOCS);
    if t != 0 {
      assert RootOf(s.owner, t) == j;
      TableStays(s, i, s', j, NB_BLOCS, j);
    }
  }

  lemma PrunedDouble(s: State, i: nat, s': State, j: nat, g: nat)
    requires TreeInv(s) && Pruned(s, i, s') && IsRoot(s, j) && j != i && s'.blocks[j] == s.blocks[j]
    requires 2 * NB_BLOCS <= g < MAX_FBLOC
    ensures Vbloc(s', j, g) == Vbloc(s, j, g)
  {
    DoubleWalk(s, j, g);
    var t := Slot(s, j, NB_BLOCS + 1);
    if t != 0 {
      assert RootOf(s.owner, t) == j;
      TableStays(s, i, s', j, NB_BLOCS + 1, j);
      var u := Slot(s, t, g / 10 - 2);
      if u != 0 {
        assert RootOf(s.owner, u) == j;
        TableStays(s, i, s', t, g / 10 - 2, j);
      }
    }
  }

  /** A data block of another inode is not pruned, either. */
  lemma PrunedData(s: State, i: nat, s': State, j: nat, g: nat)
    requires TreeInv(s) && Pruned(s, i, s') && IsRoot(s, j) && j != i && Vbloc(s, j, g) != 0
    ensures Vbloc(s, j, g) < |s.blocks| && s'.blocks[Vbloc(s, j, g)] == s.blocks[Vbloc(s, j, g)]
  {
    VblocLocated(s, j, g);
    var b := Vbloc(s, j, g);
    assert ParentOK(s, b);
    assert ParentOK(s, Up(s.owner, b));
    assert ParentOK(s, Up(s.owner, Up(s.owner, b)));
    assert RootOf(s.owner, b) == j;
  }

  lemma PrunedViews(s: State, i: nat, s': State, j: nat, g: nat)
    requires TreeInv(s) && IsRoot(s, i) && Pruned(s, i, s') && IsRoot(s, j) && j != i
    requires 0 < |s.owner| && s.owner[0].Superblock?
    ensures IsRoot(s', j) && s'.blocks[j] == s.blocks[j]
    ensures Vbloc(s', j, g) == Vbloc(s, j, g) && FBlock(s', j, g) == FBlock(s, j, g)
  {
    assert RootOf(s.owner, j) == j;
    if NB_BLOCS <= g < 2 * NB_BLOCS {
      PrunedIndirect(s, i, s', j, g);
    } else if 2 * NB_BLOCS <= g < MAX_FBLOC {
      PrunedDouble(s, i, s', j, g);
    }
    if Vbloc(s, j, g) != 0 {
      PrunedData(s, i, s', j, g);
    }
  }

  lemma DeletePruned(s: State, i: nat)
    requires Core(s) && IsRoot(s, i)
    ensures Pruned(s, i, DeleteInode(s, i)) && FreeInv(DeleteInode(s, i))
    ensures DeleteInode(s, i).sb.nbFree == s.sb.nbFree + |TreeList(s, i)|
  {
    TreeMembers(s, i);
    TreeCanFree(s, i);
    FreeAllFreed(s, TreeList(s, i));
  }

  lemma PrunedInv(s: State, i: nat, s': State)
    requires Inv(s) && IsRoot(s, i) && Pruned(s, i, s') && FreeInv(s')
    ensures Inv(s')
  {
    PrunedTree(s, i, s');
    assert Settled(s');
    forall j: nat | IsRoot(s', j) ensures Taille(s', j) <= MAX_FBLOC {
      PrunedRoots(s, i, s', j);
      PrunedViews(s, i, s', j, 0);
    }
    forall j: nat, g: nat | IsRoot(s', j) && Vbloc(s', j, g) != 0 ensures g < Taille(s', j) {
      PrunedRoots(s, i, s', j);
      PrunedViews(s, i, s', j, g);
    }
  }

  lemma PrunedRoots(s: State, i: nat, s': State, j: nat)
    requires IsRoot(s, i) && Pruned(s, i, s')
    ensures IsRoot(s', j) <==> IsRoot(s, j) && j != i
  {
    if IsRoot(s, j) {
      assert RootOf(s.owner, j) == j;
    }
  }

  lemma DeleteKeeps(s: State, i: nat)
    requires Inv(s) && IsRoot(s, i)
    ensures Inv(DeleteInode(s, i))
  {
    DeletePruned(s, i);
    PrunedInv(s, i, DeleteInode(s, i));
  }

  /** Deletion returns exactly the inode, its data blocks and all its tables to the free
      set; on what remains no other file has changed. */
  lemma DeleteCorrect(s: State, i: nat)
    requires Core(s) && IsRoot(s, i)
    ensures forall b: nat :: b in FreeSet(DeleteInode(s, i).runs) <==> b in FreeSet(s.runs) || InTree(s, i, b)
    ensures forall j: nat :: IsRoot(DeleteInode(s, i), j) <==> IsRoot(s, j) && j != i
    ensures forall j: nat, g: nat | IsRoot(s, j) && j != i :: FBlock(DeleteInode(s, i), j, g) == FBlock(s, j, g)
  {
    DeletePruned(s, i);
    DeleteViews(s, i, DeleteInode(s, i));
  }

  lemma DeleteViews(s: State, i: nat, s': State)
    requires Core(s) && IsRoot(s, i) && Pruned(s, i, s') && FreeInv(s')
    ensures forall b: nat :: b in FreeSet(s'.runs) <==> b in FreeSet(s.runs) || InTree(s, i, b)
    ensures forall j: nat :: IsRoot(s', j) <==> IsRoot(s, j) && j != i
    ensures forall j: nat, g: nat | IsRoot(s, j) && j != i :: FBlock(s', j, g) == FBlock(s, j, g)
  {
    PrunedFree(s, i, s');
    forall j: nat ensures IsRoot(s', j) <==> IsRoot(s, j) && j != i {
      PrunedRoots(s, i, s', j);
    }
    forall j: nat, g: nat | IsRoot(s, j) && j != i ensures FBlock(s', j, g) == FBlock(s, j, g) {
      PrunedViews(s, i, s', j, g);
    }
  }

  lemma PrunedFree(s: State, i: nat, s': State)
    requires FreeInv(s) && FreeInv(s') && Pruned(s, i, s')
    ensures forall b: nat :: b in FreeSet(s'.runs) <==> b in FreeSet(s.runs) || InTree(s, i, b)
  {
    FreeCount(s);
    FreeCount(s');
    forall b: nat ensures b in FreeSet(s'.runs) <==> b in FreeSet(s.runs) || InTree(s, i, b) {
      if b < |s.owner| {
        assert s'.owner[b].Unused? <==> s.owner[b].Unused? || InTree(s, i, b);
      }
    }
  }
}
