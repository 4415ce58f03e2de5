/** Contexts, the ring of each core, and semaphores (src/ordonnancement/context.c:98-272):
    the invariant of the linked records and what every operation does to them. Every
    operation is one region with interrupts disabled, so that a context may be preempted
    between any two. */
module Scheduler {
  import opened Rings
  import opened Semaphore

  const N_CORE_MAX: nat := 4

  datatype Etat = Terminated | Ready | Activated | Blocked

  class Ctx {
    var etat: Etat
    var next: Ctx?
    var semNext: Ctx?

    constructor InitCtx()
      ensures etat == Ready && semNext == null
    {
      etat := Ready;
      semNext := null;
    }
  }

  class Sem {
    var maxUse: int
    var lst: Ctx?

    constructor SemInit(val: int)
      ensures maxUse == val && lst == null
    {
      maxUse := val;
      lst := null;
    }
  }

  /** The fields of all known contexts and semaphores at one moment, and four records kept
      only for the proofs: the contexts met when following `next` on each core, the core
      of every live context, the contexts met when following `semNext` from each
      semaphore, and the semaphore a context waits for. */
  datatype Snapshot = Snapshot(
    ctxs: seq<Ctx?>, next: map<Ctx, Ctx?>, etat: map<Ctx, Etat>, semNext: map<Ctx, Ctx?>,
    maxUse: map<Sem, int>, lst: map<Sem, Ctx?>,
    rings: seq<seq<Ctx>>, core: map<Ctx, nat>, waiters: map<Sem, seq<Ctx>>, waitsOn: map<Ctx, Sem>)

  // --------------------------------------------------------------------- invariant

  /** Following `next` from any element of `r` goes once through all of them. */
  ghost predicate Cycle(next: map<Ctx, Ctx?>, r: seq<Ctx>) {
    && Distinct(r)
    && forall k | 0 <= k < |r| :: r[k] in next && next[r[k]] == r[if k + 1 < |r| then k + 1 else 0]
  }

  /** `ctxs[c]` is the first of the ring of core `c`, or a context just removed from it
      whose `next` still leads there. */
  ghost predicate CoreOK(s: Snapshot, c: nat) {
    && c < |s.rings| == |s.ctxs|
    && var r := s.rings[c]; var current := s.ctxs[c];
       && (forall x | x in r :: x in s.core && s.core[x] == c)
       && Cycle(s.next, r)
       && (r == [] ==> current == null)
       && (r != [] ==>
             && current != null && current in s.next
             && (current == r[0] || (current !in s.core && s.next[current] == r[0])))
  }

  /** A live context is in the ring of its core; it is blocked exactly when it waits. */
  ghost predicate MemberOK(s: Snapshot, x: Ctx) {
    && x in s.core && x in s.next && x in s.etat && x in s.semNext
    && s.core[x] < |s.rings| && x in s.rings[s.core[x]]
    && (s.etat[x].Blocked? <==> x in s.waitsOn)
    && (x in s.waitsOn ==> s.waitsOn[x] in s.waiters && x in s.waiters[s.waitsOn[x]])
  }

  /** Element `k` of a list, null past its end. */
  function At(w: seq<Ctx>, k: nat): Ctx? {
    if k < |w| then w[k] else null
  }

  /** The list that starts at `head` is `w`. */
  ghost predicate Linked(semNext: map<Ctx, Ctx?>, head: Ctx?, w: seq<Ctx>) {
    head == At(w, 0) && forall k | 0 <= k < |w| :: w[k] in semNext && semNext[w[k]] == At(w, k + 1)
  }

  function ValueOf(s: Snapshot, q: Sem): Sema<Ctx>
    requires q in s.maxUse && q in s.waiters
  {
    Sema(s.maxUse[q], s.waiters[q])
  }

  ghost predicate SemOK(s: Snapshot, q: Sem) {
    && q in s.maxUse && q in s.lst && q in s.waiters
    && Linked(s.semNext, s.lst[q], s.waiters[q])
    && Sound(ValueOf(s, q))
    && forall x | x in s.waiters[q] :: x in s.core && x in s.waitsOn && s.waitsOn[x] == q
  }

  /** The rings are disjoint cycles that hold exactly the live contexts; waiter lists are
      sound; a context is blocked exactly when it is on a list, and then on one only. */
  ghost predicate Structure(s: Snapshot) {
    && |s.ctxs| == |s.rings| == N_CORE_MAX
    && (forall c: nat | c < N_CORE_MAX :: CoreOK(s, c))
    && (forall x | x in s.core :: MemberOK(s, x))
    && (forall q | q in s.waiters :: SemOK(s, q))
  }

  /** Nothing terminated is left in a ring. */
  ghost predicate Inv(s: Snapshot) {
    Structure(s) && forall x | x in s.core :: s.etat[x] != Terminated
  }

  /** The current context of core `c` has not just been removed. */
  predicate Running(s: Snapshot, c: nat) {
    c < |s.ctxs| && (s.ctxs[c] == null || s.ctxs[c] in s.core)
  }

  // ---------------------------------------------------------------------- creation

  /** `add_ctx` after `init_ctx`: right behind the current context. */
  function Add(s: Snapshot, x: Ctx, c: nat): Snapshot
    requires c < |s.ctxs| == |s.rings| && (s.ctxs[c] != null ==> s.ctxs[c] in s.next)
  {
    var current := s.ctxs[c];
    s.(ctxs := if current == null then s.ctxs[c := x] else s.ctxs,
       next := if current == null then s.next[x := x] else s.next[x := s.next[current]][current := x],
       etat := s.etat[x := Ready], semNext := s.semNext[x := null],
       rings := s.rings[c := Inserted(s.rings[c], x)], core := s.core[x := c])
  }

  /** Another core's ring, when neither its links nor its members have changed. */
  lemma CoreKept(s: Snapshot, t: Snapshot, d: nat)
    requires CoreOK(s, d) && |t.rings| == |t.ctxs| == |s.rings|
    requires t.rings[d] == s.rings[d] && t.ctxs[d] == s.ctxs[d]
    requires forall x | x in s.rings[d] :: x in t.core && t.core[x] == d && x in t.next && t.next[x] == s.next[x]
    requires s.ctxs[d] != null && s.ctxs[d] !in s.core ==>
               s.ctxs[d] !in t.core && s.ctxs[d] in t.next && t.next[s.ctxs[d]] == s.next[s.ctxs[d]]
    ensures CoreOK(t, d)
  {
    forall k | 0 <= k < |s.rings[d]| ensures s.rings[d][k] in t.next && t.next[s.rings[d][k]] == s.next[s.rings[d][k]] {
      assert s.rings[d][k] in s.rings[d];
    }
  }

  /** A waiter list, when its links and its members have not changed. */
  lemma SemKept(s: Snapshot, t: Snapshot, q: Sem)
    requires SemOK(s, q)
    requires q in t.maxUse && q in t.lst && q in t.waiters
    requires ValueOf(t, q) == ValueOf(s, q) && t.lst[q] == s.lst[q]
    requires forall x | x in s.waiters[q] ::
               && x in t.core && x in t.waitsOn && t.waitsOn[x] == q
               && x in t.semNext && t.semNext[x] == s.semNext[x]
    ensures SemOK(t, q)
  {
    var w := s.waiters[q];
    assert t.waiters[q] == w;
    forall k | 0 <= k < |w| ensures w[k] in t.semNext && t.semNext[w[k]] == s.semNext[w[k]] {
      assert w[k] in w;
    }
  }

  lemma AddCycle(s: Snapshot, x: Ctx, c: nat)
    requires CoreOK(s, c) && Running(s, c) && x !in s.next && x !in s.core
    ensures Cycle(Add(s, x, c).next, Inserted(s.rings[c], x))
  {
    var r := s.rings[c];
    var next := Add(s, x, c).next;
    InsertedDistinct(r, x);
    var q := Inserted(r, x);
    forall k | 0 <= k < |q| ensures q[k] in next && next[q[k]] == q[if k + 1 < |q| then k + 1 else 0] {
      assert k >= 2 ==> r[k - 1] != r[0];
    }
  }

  lemma AddCores(s: Snapshot, x: Ctx, c: nat, d: nat)
    requires CoreOK(s, c) && Running(s, c) && x !in s.next && x !in s.core && CoreOK(s, d)
    ensures CoreOK(Add(s, x, c), d)
  {
    if d == c {
      AddCycle(s, x, c);
      InsertedDistinct(s.rings[c], x);
    } else {
      CoreKept(s, Add(s, x, c), d);
    }
  }

  lemma AddMembers(s: Snapshot, x: Ctx, c: nat, y: Ctx)
    requires CoreOK(s, c) && Running(s, c) && x !in s.next && x !in s.waitsOn
    requires y == x || MemberOK(s, y)
    ensures MemberOK(Add(s, x, c), y)
  {
    InsertedDistinct(s.rings[c], x);
  }

  /** A context just initialised. */
  ghost predicate Fresh(s: Snapshot, x: Ctx) {
    x !in s.next && x !in s.core && x !in s.semNext && x !in s.waitsOn
  }

  lemma AddSem(s: Snapshot, x: Ctx, c: nat, q: Sem)
    requires CoreOK(s, c) && Fresh(s, x) && SemOK(s, q)
    ensures SemOK(Add(s, x, c), q)
  {
    SemKept(s, Add(s, x, c), q);
  }

  lemma AddEtat(s: Snapshot, x: Ctx, c: nat, y: Ctx)
    requires CoreOK(s, c) && MemberOK(Add(s, x, c), y)
    requires y != x ==> MemberOK(s, y) && s.etat[y] != Terminated
    ensures y in Add(s, x, c).etat && Add(s, x, c).etat[y] != Terminated
  {
  }

  lemma AddRunning(s: Snapshot, x: Ctx, c: nat)
    requires Inv(s) && c < N_CORE_MAX && Running(s, c) && Fresh(s, x)
    ensures CoreOK(s, c) && Inv(Add(s, x, c)) && Running(Add(s, x, c), c)
  {
    assert CoreOK(s, c);
    var t := Add(s, x, c);
    hide CoreOK, MemberOK, SemOK;
    forall d: nat | d < N_CORE_MAX ensures CoreOK(t, d) {
      AddCores(s, x, c, d);
    }
    forall y | y in t.core ensures MemberOK(t, y) {
      AddMembers(s, x, c, y);
    }
    forall q | q in t.waiters ensures SemOK(t, q) {
      AddSem(s, x, c, q);
    }
    forall y | y in t.core ensures y in t.etat && t.etat[y] != Terminated {
      AddEtat(s, x, c, y);
    }
  }

  /** Behind a context just removed, the new context is linked to the ring but the ring is
      not linked to it. */
  lemma AddLost(s: Snapshot, x: Ctx, c: nat)
    requires CoreOK(s, c) && s.rings[c] != [] && !Running(s, c) && Fresh(s, x)
    ensures !CoreOK(Add(s, x, c), c)
  {
    var r := s.rings[c];
    var t := Add(s, x, c);
    assert r[0] in r && r[0] in s.core;
    assert s.next[r[0]] == r[if 1 < |r| then 1 else 0];
    assert r[if 1 < |r| then 1 else 0] in r;
    assert t.rings[c][0] == r[0] && t.rings[c][1] == x;
    assert t.next[r[0]] != x;
  }

  /** A new context joins the ring of its core, and nothing else changes, exactly when the
      current context of that core has not just been removed. */
  lemma AddKeeps(s: Snapshot, x: Ctx, c: nat)
    requires Inv(s) && c < N_CORE_MAX && Fresh(s, x)
    ensures CoreOK(s, c)
    ensures Inv(Add(s, x, c)) <==> Running(s, c)
    ensures Running(s, c) ==> Running(Add(s, x, c), c)
  {
    assert CoreOK(s, c);
    if Running(s, c) {
      AddRunning(s, x, c);
    } else {
      AddLost(s, x, c);
    }
  }

  /** It comes right behind the first of its ring, ready; nobody else changes state. */
  lemma AddPlaces(s: Snapshot, x: Ctx, c: nat)
    requires c < |s.ctxs| == |s.rings| && (s.ctxs[c] != null ==> s.ctxs[c] in s.next)
    ensures var r := s.rings[c];
            Add(s, x, c).rings == s.rings[c := if r == [] then [x] else [r[0], x] + r[1..]]
    ensures Add(s, x, c).etat == s.etat[x := Ready]
    ensures Add(s, x, c).ctxs == if s.ctxs[c] == null then s.ctxs[c := x] else s.ctxs
  {
  }

  // --------------------------------------------------------------------- departure

  /** `del_ctx`: the predecessor is linked to the successor. The source clears only its own
      parameter when the ring becomes empty; here the core is left without a context. */
  ghost function Remove(s: Snapshot, x: Ctx): Snapshot
    requires Structure(s) && x in s.core
  {
    assert MemberOK(s, x);
    var c := s.core[x];
    assert CoreOK(s, c);
    var r := s.rings[c];
    s.(ctxs := if |r| == 1 then s.ctxs[c := null] else s.ctxs,
       next := if |r| == 1 then s.next else s.next[Before(r, x) := s.next[x]],
       rings := s.rings[c := Without(r, x)], core := s.core - {x})
  }

  /** The position before `i` in a circle of `n`. */
  function Prev(i: nat, n: nat): nat
    requires i < n
  {
    if i == 0 then n - 1 else i - 1
  }

  /** The element of the circle that comes just before `x`. */
  ghost function Before<T>(r: seq<T>, x: T): (y: T)
    requires Distinct(r) && x in r
    ensures forall i | 0 <= i < |r| && r[i] == x :: y == r[Prev(i, |r|)]
  {
    var i :| 0 <= i < |r| && r[i] == x;
    r[Prev(i, |r|)]
  }

  lemma CycleWithout(next: map<Ctx, Ctx?>, r: seq<Ctx>, i: nat)
    requires Cycle(next, r) && i < |r| && |r| > 1
    ensures Cycle(next[r[Prev(i, |r|)] := next[r[i]]], r[..i] + r[i + 1..])
  {
    var q := r[..i] + r[i + 1..];
    var p := Prev(i, |r|);
    var next' := next[r[p] := next[r[i]]];
    forall k | 0 <= k < |q| ensures q[k] in next' && next'[q[k]] == q[if k + 1 < |q| then k + 1 else 0] {
      var j := if k < i then k else k + 1;
      assert q[k] == r[j];
      assert r[j] == r[p] <==> j == p;
      assert next[r[j]] == r[if j + 1 < |r| then j + 1 else 0];
      assert next[r[i]] == r[if i + 1 < |r| then i + 1 else 0];
    }
  }

  lemma RemovedCycle(next: map<Ctx, Ctx?>, r: seq<Ctx>, x: Ctx)
    requires Cycle(next, r) && x in r && |r| > 1
    ensures Cycle(next[Before(r, x) := next[x]], Without(r, x))
    ensures Before(r, x) in r && Before(r, x) != x
  {
    var i :| 0 <= i < |r| && r[i] == x;
    WithoutAt(r, i);
    CycleWithout(next, r, i);
  }

  /** The ring the context leaves. */
  lemma RemoveCore(s: Snapshot, x: Ctx, c: nat)
    requires Structure(s) && x in s.core && s.core[x] == c && x in s.rings[c] && Running(s, c) && CoreOK(s, c)
    ensures CoreOK(Remove(s, x), c)
  {
    var r := s.rings[c];
    WithoutMembers(r, x);
    if |r| > 1 {
      RemovedCycle(s.next, r, x);
      assert r[0] == x ==> Without(r, x) == r[1..];
    } else {
      assert r == [x];
    }
  }

  lemma RemoveOther(s: Snapshot, x: Ctx, c: nat, d: nat)
    requires Structure(s) && x in s.core && s.core[x] == c && x in s.rings[c] && d != c && CoreOK(s, c) && CoreOK(s, d)
    ensures CoreOK(Remove(s, x), d)
  {
    var t := Remove(s, x);
    if |s.rings[c]| > 1 {
      RemovedCycle(s.next, s.rings[c], x);
      var b := Before(s.rings[c], x);
      assert b in s.core && s.core[b] == c;
      assert t.next == s.next[b := s.next[x]];
    }
    CoreKept(s, t, d);
  }

  lemma RemoveMember(s: Snapshot, x: Ctx, c: nat, y: Ctx)
    requires Structure(s) && x in s.core && s.core[x] == c && x in s.rings[c] && CoreOK(s, c)
    requires MemberOK(s, y) && y != x
    ensures MemberOK(Remove(s, x), y)
  {
    WithoutMembers(s.rings[c], x);
  }

  /** A context that does not wait leaves its ring: what remains is still a single cycle,
      apart from the other cores' cycles. */
  lemma RemoveKeeps(s: Snapshot, x: Ctx)
    requires Structure(s) && x in s.core && x !in s.waitsOn && Running(s, s.core[x])
    ensures Structure(Remove(s, x))
  {
    assert MemberOK(s, x);
    var c := s.core[x];
    var t := Remove(s, x);
    assert CoreOK(s, c);
    forall d: nat | d < N_CORE_MAX ensures CoreOK(t, d) {
      if d == c {
        RemoveCore(s, x, c);
      } else {
        RemoveOther(s, x, c, d);
      }
    }
    forall y | y in t.core ensures MemberOK(t, y) {
      RemoveMember(s, x, c, y);
    }
    forall q | q in t.waiters ensures SemOK(t, q) {
      SemKept(s, t, q);
    }
  }

  ghost function Terminate(s: Snapshot, x: Ctx): Snapshot {
    s.(etat := s.etat[x := Terminated])
  }

  lemma TerminateKeeps(s: Snapshot, x: Ctx)
    requires Structure(s) && x in s.core && x !in s.waitsOn
    ensures Structure(Terminate(s, x))
  {
    var t := Terminate(s, x);
    forall d: nat | d < N_CORE_MAX ensures CoreOK(t, d) {
      assert CoreOK(s, d);
    }
    forall y | y in t.core ensures MemberOK(t, y) {
      assert MemberOK(s, y);
    }
    forall q | q in t.waiters ensures SemOK(t, q) {
      SemKept(s, t, q);
    }
  }

  /** The function of the current context returns: TERMINATED, then `del_ctx`. */
  ghost function Finish(s: Snapshot, c: nat): Snapshot
    requires CanFinish(s, c)
  {
    TerminateKeeps(s, s.ctxs[c]);
    Remove(Terminate(s, s.ctxs[c]), s.ctxs[c])
  }

  ghost predicate CanFinish(s: Snapshot, c: nat) {
    Structure(s) && c < N_CORE_MAX && s.ctxs[c] in s.core && s.ctxs[c] !in s.waitsOn
  }

  lemma FinishStates(s: Snapshot, c: nat)
    requires CanFinish(s, c)
    ensures Finish(s, c).etat == s.etat[s.ctxs[c] := Terminated]
  {
  }

  lemma FinishKeeps(s: Snapshot, c: nat)
    requires Inv(s) && CanFinish(s, c)
    ensures Inv(Finish(s, c)) && Finish(s, c).core == s.core - {s.ctxs[c]}
    ensures s.rings[c] != [] && Finish(s, c).rings == s.rings[c := s.rings[c][1..]]
    ensures Finish(s, c).ctxs == if |s.rings[c]| == 1 then s.ctxs[c := null] else s.ctxs
    ensures Finish(s, c).etat == s.etat[s.ctxs[c] := Terminated]
  {
    var x := s.ctxs[c];
    TerminateKeeps(s, x);
    CurrentCore(s, c);
    RemoveKeeps(Terminate(s, x), x);
  }

  /** A live current context heads the ring of its own core. */
  lemma CurrentCore(s: Snapshot, c: nat)
    requires Structure(s) && c < N_CORE_MAX && s.ctxs[c] in s.core
    ensures s.rings[c] != [] && s.ctxs[c] == s.rings[c][0] && s.core[s.ctxs[c]] == c
  {
    assert CoreOK(s, c);
  }

  // ------------------------------------------------------------------------- turns

  /** The candidates for the next turn in the order `yield` meets them: `next_ctx` starts
      behind the current context, and comes to it last. */
  function Order(s: Snapshot, c: nat): seq<Ctx>
    requires c < |s.ctxs| == |s.rings|
  {
    var r := s.rings[c];
    if r != [] && s.ctxs[c] == r[0] then Rot(r, 1) else r
  }

  ghost function Runnables(s: Snapshot): set<Ctx> {
    set x | x in s.core && x in s.etat && (s.etat[x].Ready? || s.etat[x].Activated?)
  }

  ghost predicate CanYield(s: Snapshot, c: nat) {
    c < N_CORE_MAX == |s.ctxs| == |s.rings| && exists x :: x in Order(s, c) && x in Runnables(s)
  }

  /** `yield` and the bookkeeping of `switch_to_ctx`. */
  ghost function Switch(s: Snapshot, c: nat): Snapshot
    requires CanYield(s, c)
  {
    var r := Turned(Order(s, c), Runnables(s));
    s.(ctxs := s.ctxs[c := r[0]], rings := s.rings[c := r],
       etat := if s.etat[r[0]].Ready? then s.etat[r[0] := Activated] else s.etat)
  }

  lemma RotCycle(next: map<Ctx, Ctx?>, r: seq<Ctx>, j: nat)
    requires Cycle(next, r) && j <= |r|
    ensures Cycle(next, Rot(r, j))
  {
    RotDistinct(r, j);
  }

  lemma OrderRing(s: Snapshot, c: nat)
    requires CoreOK(s, c)
    ensures Cycle(s.next, Order(s, c))
    ensures forall x :: x in Order(s, c) <==> x in s.rings[c]
  {
    var r := s.rings[c];
    if r != [] && s.ctxs[c] == r[0] {
      RotCycle(s.next, r, 1);
      RotMembers(r, 1);
    }
  }

  lemma SwitchRing(s: Snapshot, c: nat)
    requires CoreOK(s, c) && CanYield(s, c)
    ensures Cycle(s.next, Switch(s, c).rings[c])
    ensures forall x :: x in Switch(s, c).rings[c] <==> x in s.rings[c]
  {
    var r := s.rings[c];
    OrderRing(s, c);
    var j := First(Order(s, c), Runnables(s));
    RotCycle(s.next, Order(s, c), j);
    RotMembers(Order(s, c), j);
  }

  lemma SwitchMember(s: Snapshot, c: nat, y: Ctx)
    requires MemberOK(s, y) && CoreOK(s, c) && CanYield(s, c)
    ensures MemberOK(Switch(s, c), y)
  {
    SwitchRing(s, c);
  }

  lemma SwitchOrder(s: Snapshot, c: nat)
    requires CanYield(s, c)
    ensures Switch(s, c).rings[c] != [] && Switch(s, c).rings[c][0] in Runnables(s)
    ensures Order(Switch(s, c), c) == Rot(Switch(s, c).rings[c], 1)
  {
    hide Turned, Rot, Runnables;
  }

  lemma SwitchRunnables(s: Snapshot, c: nat)
    requires CanYield(s, c)
    ensures Runnables(Switch(s, c)) == Runnables(s)
  {
    var t, first := Switch(s, c), Turned(Order(s, c), Runnables(s))[0];
    hide Turned, Order, CanYield;
    forall x ensures x in Runnables(t) <==> x in Runnables(s) {
      if x == first {
        assert first in Runnables(s);
      } else {
        assert x in s.etat <==> x in t.etat;
        assert x in s.etat ==> t.etat[x] == s.etat[x];
      }
    }
  }

  lemma SwitchTurn(s: Snapshot, c: nat)
    requires CoreOK(s, c) && CanYield(s, c)
    ensures Switch(s, c).rings[c] != [] && Switch(s, c).rings[c][0] in Runnables(s)
    ensures Runnables(Switch(s, c)) == Runnables(s) && Order(Switch(s, c), c) == Rot(Switch(s, c).rings[c], 1)
  {
    SwitchOrder(s, c);
    SwitchRunnables(s, c);
  }

  lemma SwitchCore(s: Snapshot, c: nat)
    requires CoreOK(s, c) && CanYield(s, c)
    ensures CoreOK(Switch(s, c), c)
  {
    SwitchRing(s, c);
  }

  /** A turn changes who is current and nothing about who can run. */
  lemma SwitchKeeps(s: Snapshot, c: nat)
    requires Inv(s) && CanYield(s, c)
    ensures Inv(Switch(s, c)) && Running(Switch(s, c), c)
    ensures Runnables(Switch(s, c)) == Runnables(s) && Order(Switch(s, c), c) == Rot(Switch(s, c).rings[c], 1)
  {
    var t := Switch(s, c);
    assert CoreOK(s, c);
    SwitchTurn(s, c);
    forall d: nat | d < N_CORE_MAX ensures CoreOK(t, d) {
      if d == c {
        SwitchCore(s, c);
      } else {
        CoreKept(s, t, d);
      }
    }
    forall y | y in t.core ensures MemberOK(t, y) {
      SwitchMember(s, c, y);
    }
    forall q | q in t.waiters ensures SemOK(t, q) {
      SemKept(s, t, q);
    }
  }

  /** The context that gets the turn could run and is activated now; no other context has
      changed its state, and no other core its current context. */
  lemma SwitchActivates(s: Snapshot, c: nat)
    requires CanYield(s, c)
    ensures var t := Switch(s, c);
            && t.ctxs[c] != null && t.ctxs[c] in Runnables(s)
            && t.etat.Keys == s.etat.Keys && t.etat[t.ctxs[c]] == Activated
            && (forall y | y in s.etat && y != t.ctxs[c] :: t.etat[y] == s.etat[y])
            && (forall d | 0 <= d < |s.ctxs| && d != c :: t.ctxs[d] == s.ctxs[d])
  {
    SwitchOrder(s, c);
  }

  // -------------------------------------------------------------------- semaphores

  function NewSem(s: Snapshot, q: Sem, val: int): Snapshot {
    s.(maxUse := s.maxUse[q := val], lst := s.lst[q := null], waiters := s.waiters[q := []])
  }

  /** A new semaphore is sound exactly when its value is not negative; otherwise the first
      `sem_up` would follow a null head. */
  lemma NewSemKeeps(s: Snapshot, q: Sem, val: int)
    requires Inv(s) && q !in s.waiters
    ensures Inv(NewSem(s, q, val)) <==> val >= 0
    ensures HeadReady(NewSem(s, q, val), q) <==> val >= 0
  {
    var t := NewSem(s, q, val);
    if val >= 0 {
      NewSemInv(s, q, val);
    } else {
      assert !Sound(ValueOf(t, q));
      assert q in t.waiters && !SemOK(t, q);
    }
  }

  lemma NewSemInv(s: Snapshot, q: Sem, val: nat)
    requires Inv(s) && q !in s.waiters
    ensures Inv(NewSem(s, q, val))
  {
    var t := NewSem(s, q, val);
    forall d: nat | d < N_CORE_MAX ensures CoreOK(t, d) {
      CoreKept(s, t, d);
    }
    forall y | y in t.core ensures MemberOK(t, y) {
      assert MemberOK(s, y);
    }
    forall p | p in t.waiters ensures SemOK(t, p) {
      if p != q {
        SemKept(s, t, p);
      }
    }
  }

  /** A new semaphore has the value asked for and nobody on its list; the others are as they
      were. */
  lemma NewSemValue(s: Snapshot, q: Sem, val: int)
    ensures Known(NewSem(s, q, val), q) && NewSem(s, q, val).lst[q] == null
    ensures ValueOf(NewSem(s, q, val), q) == Sema(val, [])
    ensures forall p | Known(s, p) && p != q ::
              Known(NewSem(s, q, val), p) && ValueOf(NewSem(s, q, val), p) == ValueOf(s, p)
  {
  }

  ghost predicate CanDown(s: Snapshot, c: nat, q: Sem) {
    Structure(s) && c < N_CORE_MAX && Known(s, q) && s.ctxs[c] in s.core && s.ctxs[c] !in s.waitsOn
  }

  predicate Known(s: Snapshot, q: Sem) {
    q in s.waiters && q in s.maxUse && q in s.lst
  }

  /** `sem_down` by the current context of core `c`, up to the call of `yield`. */
  function TakeSem(s: Snapshot, c: nat, q: Sem): Snapshot
    requires c < |s.ctxs| && s.ctxs[c] != null && Known(s, q)
  {
    var x := s.ctxs[c];
    var (v, wait) := Down(ValueOf(s, q), x);
    if !wait then s.(maxUse := s.maxUse[q := v.val])
    else s.(maxUse := s.maxUse[q := v.val], etat := s.etat[x := Blocked], semNext := s.semNext[x := s.lst[q]],
            lst := s.lst[q := x], waiters := s.waiters[q := v.waiters], waitsOn := s.waitsOn[x := q])
  }

  lemma PushLinked(semNext: map<Ctx, Ctx?>, head: Ctx?, w: seq<Ctx>, x: Ctx)
    requires Linked(semNext, head, w) && x !in w
    ensures Linked(semNext[x := head], x, [x] + w)
  {
    forall k | 0 <= k < |w| ensures semNext[x := head][w[k]] == At(w, k + 1) {
      assert w[k] in w;
    }
  }

  lemma TakeSemList(s: Snapshot, c: nat, q: Sem)
    requires CanDown(s, c, q) && SemOK(s, q)
    ensures SemOK(TakeSem(s, c, q), q)
  {
    var x := s.ctxs[c];
    DownSound(ValueOf(s, q), x);
    PushLinked(s.semNext, s.lst[q], s.waiters[q], x);
  }

  lemma TakeSemMember(s: Snapshot, c: nat, q: Sem, y: Ctx)
    requires MemberOK(s, y) && CanDown(s, c, q)
    ensures MemberOK(TakeSem(s, c, q), y)
  {
  }

  lemma TakeSemOther(s: Snapshot, c: nat, q: Sem, p: Sem)
    requires SemOK(s, p) && CanDown(s, c, q) && p != q
    ensures SemOK(TakeSem(s, c, q), p)
  {
    SemKept(s, TakeSem(s, c, q), p);
  }

  /** After `sem_down` and before the `yield`, where the context may be preempted, all is
      in order already. */
  lemma TakeSemKeeps(s: Snapshot, c: nat, q: Sem)
    requires Inv(s) && CanDown(s, c, q)
    ensures Inv(TakeSem(s, c, q))
    ensures ValueOf(TakeSem(s, c, q), q) == Down(ValueOf(s, q), s.ctxs[c]).0
    ensures s.ctxs[c] in TakeSem(s, c, q).waitsOn <==> s.maxUse[q] <= 0
  {
    var t := TakeSem(s, c, q);
    forall d: nat | d < N_CORE_MAX ensures CoreOK(t, d) {
      CoreKept(s, t, d);
    }
    forall y | y in t.core ensures MemberOK(t, y) {
      TakeSemMember(s, c, q, y);
    }
    forall p | p in t.waiters ensures SemOK(t, p) {
      if p == q {
        TakeSemList(s, c, q);
      } else {
        TakeSemOther(s, c, q, p);
      }
    }
  }

  /** Who must wait is blocked; nobody else changes state. */
  lemma TakeSemStates(s: Snapshot, c: nat, q: Sem)
    requires CanDown(s, c, q)
    ensures var t := TakeSem(s, c, q);
            && t.ctxs == s.ctxs && t.etat.Keys == s.etat.Keys + (if s.maxUse[q] <= 0 then {s.ctxs[c]} else {})
            && (s.maxUse[q] <= 0 ==> t.etat[s.ctxs[c]] == Blocked)
            && (forall y | y in s.etat && (s.maxUse[q] > 0 || y != s.ctxs[c]) :: t.etat[y] == s.etat[y])
  {
  }

  ghost predicate CanUp(s: Snapshot, q: Sem) {
    q in s.waiters && SemOK(s, q)
  }

  /** The head of the list is there when `sem_up` follows it. */
  predicate HeadReady(s: Snapshot, q: Sem) {
    && Known(s, q)
    && (s.maxUse[q] < 0 ==> s.waiters[q] != [] && s.lst[q] == s.waiters[q][0] && s.waiters[q][0] in s.semNext)
  }

  lemma UpIsSafe(s: Snapshot, q: Sem)
    requires CanUp(s, q)
    ensures HeadReady(s, q)
  {
  }

  /** `sem_up`. */
  function GiveSem(s: Snapshot, q: Sem): Snapshot
    requires HeadReady(s, q)
  {
    var (v, woken) := Up(ValueOf(s, q));
    if woken.None? then s.(maxUse := s.maxUse[q := v.val])
    else
      var x := woken.value;
      assert x == s.waiters[q][0];
      s.(maxUse := s.maxUse[q := v.val], etat := s.etat[x := Activated], lst := s.lst[q := s.semNext[x]],
         waiters := s.waiters[q := v.waiters], waitsOn := s.waitsOn - {x})
  }

  lemma GiveSemList(s: Snapshot, q: Sem)
    requires CanUp(s, q)
    ensures SemOK(GiveSem(s, q), q)
  {
    UpSound(ValueOf(s, q));
    var w := s.waiters[q];
    if s.maxUse[q] < 0 {
      assert w == [w[0]] + w[1..];
      assert GiveSem(s, q).waiters[q] == w[1..];
      assert forall k: nat :: At(w[1..], k) == At(w, k + 1);
    }
  }

  lemma GiveSemMember(s: Snapshot, q: Sem, y: Ctx)
    requires MemberOK(s, y) && CanUp(s, q)
    ensures MemberOK(GiveSem(s, q), y)
  {
    UpSound(ValueOf(s, q));
  }

  lemma GiveSemOther(s: Snapshot, q: Sem, p: Sem)
    requires SemOK(s, p) && CanUp(s, q) && p != q
    ensures SemOK(GiveSem(s, q), p)
  {
    UpSound(ValueOf(s, q));
    SemKept(s, GiveSem(s, q), p);
  }

  lemma GiveSemWakes(s: Snapshot, q: Sem)
    requires CanUp(s, q) && forall x | x in s.waiters[q] :: MemberOK(s, x)
    ensures ValueOf(GiveSem(s, q), q) == Up(ValueOf(s, q)).0
    ensures Runnables(GiveSem(s, q)) == Runnables(s) + if s.waiters[q] == [] then {} else {s.waiters[q][0]}
  {
  }

  /** An up wakes exactly one waiter, the latest, whenever there is one. */
  lemma GiveSemKeeps(s: Snapshot, q: Sem)
    requires Inv(s) && CanUp(s, q)
    ensures Inv(GiveSem(s, q))
    ensures ValueOf(GiveSem(s, q), q) == Up(ValueOf(s, q)).0
    ensures Runnables(GiveSem(s, q)) == Runnables(s) + if s.waiters[q] == [] then {} else {s.waiters[q][0]}
  {
    var t := GiveSem(s, q);
    GiveSemWakes(s, q);
    forall d: nat | d < N_CORE_MAX ensures CoreOK(t, d) {
      CoreKept(s, t, d);
    }
    forall y | y in t.core ensures MemberOK(t, y) {
      GiveSemMember(s, q, y);
    }
    forall p | p in t.waiters ensures SemOK(t, p) {
      if p == q {
        GiveSemList(s, q);
      } else {
        GiveSemOther(s, q, p);
      }
    }
  }

  /** Who is woken is activated; nobody else changes state. */
  lemma GiveSemStates(s: Snapshot, q: Sem)
    requires HeadReady(s, q)
    ensures var t, w := GiveSem(s, q), s.waiters[q];
            && t.ctxs == s.ctxs && t.etat.Keys == s.etat.Keys + (if s.maxUse[q] < 0 then {w[0]} else {})
            && (s.maxUse[q] < 0 ==> t.etat[w[0]] == Activated)
            && (forall y | y in s.etat && (s.maxUse[q] >= 0 || y != w[0]) :: t.etat[y] == s.etat[y])
  {
  }

  // ---------------------------------------------------------------------- all runs

  datatype Op =
    | AddOp(x: Ctx, core: nat)
    | FinishOp(core: nat)
    | YieldOp(core: nat)
    | SemInitOp(q: Sem, val: int)
    | DownOp(core: nat, q: Sem)
    | UpOp(q: Sem)

  /** A kernel with nothing on any core. */
  function Boot(): Snapshot {
    Snapshot([null, null, null, null], map[], map[], map[], map[], map[], [[], [], [], []], map[], map[], map[])
  }

  /** Whether the source can perform the operation in this state. A blocked context only
      yields; a core waits in `yield` until something can run. */
  ghost predicate Enabled(s: Snapshot, op: Op)
    requires Inv(s)
  {
    match op
    case AddOp(x, c) => c < N_CORE_MAX && Running(s, c) && Fresh(s, x) && CoreOK(s, c)
    case FinishOp(c) => CanFinish(s, c)
    case YieldOp(c) => CanYield(s, c)
    case SemInitOp(q, val) => q !in s.waiters && val >= 0
    case DownOp(c, q) => CanDown(s, c, q)
    case UpOp(q) => CanUp(s, q)
  }

  /** When an operation is possible, in terms of who is current, who waits and who is
      blocked: a context can end or ask for a semaphore whenever it is live and current and
      does not wait, a turn can be given whenever not all contexts of the core are blocked,
      and a semaphore can be given back whenever it is there. */
  lemma EnabledExactly(s: Snapshot, c: nat, q: Sem)
    requires Inv(s) && c < N_CORE_MAX
    ensures |s.ctxs| == |s.rings| == N_CORE_MAX
    ensures Enabled(s, FinishOp(c)) <==> s.ctxs[c] != null && s.ctxs[c] in s.core && s.ctxs[c] !in s.waitsOn
    ensures Enabled(s, DownOp(c, q)) <==> q in s.waiters && Enabled(s, FinishOp(c))
    ensures Enabled(s, UpOp(q)) <==> q in s.waiters
    ensures Enabled(s, YieldOp(c)) <==> exists x :: x in s.rings[c] && x in s.etat && !s.etat[x].Blocked?
  {
    assert CoreOK(s, c);
    OrderRing(s, c);
    forall x | x in s.rings[c] ensures x in Runnables(s) <==> x in s.etat && !s.etat[x].Blocked? {
      assert MemberOK(s, x);
    }
  }

  ghost function Step(s: Snapshot, op: Op): Snapshot
    requires Inv(s) && Enabled(s, op)
  {
    match op
    case AddOp(x, c) => Add(s, x, c)
    case FinishOp(c) => Finish(s, c)
    case YieldOp(c) => Switch(s, c)
    case SemInitOp(q, val) => NewSem(s, q, val)
    case DownOp(c, q) => TakeSem(s, c, q)
    case UpOp(q) => GiveSem(s, q)
  }

  lemma StepKeeps(s: Snapshot, op: Op)
    requires Inv(s) && Enabled(s, op)
    ensures Inv(Step(s, op))
  {
    match op
    case AddOp(x, c) => AddKeeps(s, x, c);
    case FinishOp(c) => FinishKeeps(s, c);
    case YieldOp(c) => SwitchKeeps(s, c);
    case SemInitOp(q, val) => NewSemKeeps(s, q, val);
    case DownOp(c, q) => TakeSemKeeps(s, c, q);
    case UpOp(q) => GiveSemKeeps(s, q);
  }

  /** Any interleaving of the operations of all cores. */
  ghost function Execute(s: Snapshot, ops: seq<Op>): (r: Snapshot)
    requires Inv(s)
    ensures Inv(r)
    decreases |ops|
  {
    if ops == [] then s
    else if Enabled(s, ops[0]) then
      StepKeeps(s, ops[0]);
      Execute(Step(s, ops[0]), ops[1..])
    else Execute(s, ops[1..])
  }

  lemma BootInv()
    ensures Inv(Boot())
  {
    forall c: nat | c < N_CORE_MAX ensures CoreOK(Boot(), c) {
    }
  }

  /** On how many of the waiter lists `qs` a context stands. */
  ghost function Lists(s: Snapshot, x: Ctx): set<Sem> {
    set q | q in s.waiters && x in s.waiters[q] :: q
  }

  /** After any run, on every core following `next` from a live current context goes once
      through the live contexts of that core and no others, and a live context is blocked
      exactly when it stands on one waiter list, never on two. */
  lemma RingsAndLists(ops: seq<Op>, x: Ctx, c: nat)
    requires c < N_CORE_MAX
    ensures Inv(Boot())
    ensures var s := Execute(Boot(), ops);
            && |s.rings| == N_CORE_MAX
            && Cycle(s.next, s.rings[c])
            && (x in s.rings[c] <==> x in s.core && s.core[x] == c)
            && (x in s.core ==> x in s.etat && |Lists(s, x)| == if s.etat[x].Blocked? then 1 else 0)
  {
    BootInv();
    var s := Execute(Boot(), ops);
    assert CoreOK(s, c);
    if x in s.core {
      assert MemberOK(s, x);
      forall q | q in Lists(s, x) ensures x in s.waitsOn && q == s.waitsOn[x] {
        assert SemOK(s, q);
      }
      if x in s.waitsOn {
        assert Lists(s, x) == {s.waitsOn[x]};
      } else {
        assert Lists(s, x) == {};
      }
    }
  }

  /** After any run, `-sem_max_use` contexts wait for a semaphore below zero, all
      different, and none for another. */
  lemma WaitersCounted(ops: seq<Op>, q: Sem)
    ensures Inv(Boot())
    ensures var s := Execute(Boot(), ops);
            q in s.waiters ==>
              && q in s.maxUse && q in s.lst
              && Distinct(s.waiters[q])
              && |s.waiters[q]| == (if s.maxUse[q] < 0 then -s.maxUse[q] else 0)
              && Linked(s.semNext, s.lst[q], s.waiters[q])
  {
    BootInv();
    var s := Execute(Boot(), ops);
    assert q in s.waiters ==> SemOK(s, q);
  }

  lemma {:induction false} ExecuteJoin(s: Snapshot, ops: seq<Op>, more: seq<Op>)
    requires Inv(s)
    ensures Execute(s, ops + more) == Execute(Execute(s, ops), more)
    decreases |ops|
  {
    if ops == [] {
      assert ops + more == more;
    } else {
      assert (ops + more)[0] == ops[0] && (ops + more)[1..] == ops[1..] + more;
      if Enabled(s, ops[0]) {
        StepKeeps(s, ops[0]);
        ExecuteJoin(Step(s, ops[0]), ops[1..], more);
      } else {
        ExecuteJoin(s, ops[1..], more);
      }
    }
  }

  /** The operations of a run that are performed. */
  ghost function Performed(s: Snapshot, ops: seq<Op>): seq<Op>
    requires Inv(s)
    decreases |ops|
  {
    if ops == [] then []
    else if Enabled(s, ops[0]) then
      StepKeeps(s, ops[0]);
      [ops[0]] + Performed(Step(s, ops[0]), ops[1..])
    else Performed(s, ops[1..])
  }

  /** How often `q` is asked for, and given back. */
  function DownsOf(ops: seq<Op>, q: Sem): nat {
    if ops == [] then 0 else (if ops[0].DownOp? && ops[0].q == q then 1 else 0) + DownsOf(ops[1..], q)
  }

  function UpsOf(ops: seq<Op>, q: Sem): nat {
    if ops == [] then 0 else (if ops[0] == UpOp(q) then 1 else 0) + UpsOf(ops[1..], q)
  }

  lemma StepValue(s: Snapshot, op: Op, q: Sem)
    requires Inv(s) && Enabled(s, op) && q in s.waiters && q in s.maxUse
    ensures Step(s, op).maxUse.Keys >= {q} && q in Step(s, op).waiters
    ensures Step(s, op).maxUse[q] ==
            s.maxUse[q] - (if op.DownOp? && op.q == q then 1 else 0) + if op == UpOp(q) then 1 else 0
  {
    hide Inv, Structure, CanYield, CanFinish, Fresh, CoreOK, Running, SemOK;
    match op
    case AddOp(x, c) =>
    case FinishOp(c) =>
    case YieldOp(c) =>
    case SemInitOp(p, val) =>
    case DownOp(c, p) =>
    case UpOp(p) => UpIsSafe(s, p);
  }

  lemma {:induction false} RunValue(s: Snapshot, ops: seq<Op>, q: Sem)
    requires Inv(s) && q in s.waiters && q in s.maxUse
    ensures var t, done := Execute(s, ops), Performed(s, ops);
            q in t.maxUse && q in t.waiters && t.maxUse[q] == s.maxUse[q] - DownsOf(done, q) + UpsOf(done, q)
    decreases |ops|
  {
    if ops == [] {
    } else if Enabled(s, ops[0]) {
      hide Inv, Enabled, Step;
      StepKeeps(s, ops[0]);
      StepValue(s, ops[0], q);
      var t := Step(s, ops[0]);
      RunValue(t, ops[1..], q);
      var rest := Performed(t, ops[1..]);
      assert ([ops[0]] + rest)[0] == ops[0] && ([ops[0]] + rest)[1..] == rest;
    } else {
      RunValue(s, ops[1..], q);
    }
  }

  /** A semaphore made with `val`, at any moment of any run: ever after its value is `val`
      less the downs and with the ups performed on it, so the downs that have returned are
      never more than `val` and the ups together, and a down waits only when those are used
      up. */
  lemma SemaphoreLaw(before: seq<Op>, q: Sem, val: nat, after: seq<Op>)
    ensures Inv(Boot())
    ensures var s := Execute(Boot(), before);
            q !in s.waiters ==>
              && Enabled(s, SemInitOp(q, val)) && Inv(Step(s, SemInitOp(q, val)))
              && var t := Execute(Boot(), before + [SemInitOp(q, val)] + after);
                 var done := Performed(Step(s, SemInitOp(q, val)), after);
                 && q in t.maxUse && q in t.waiters
                 && t.maxUse[q] == val - DownsOf(done, q) + UpsOf(done, q)
                 && DownsOf(done, q) - |t.waiters[q]| <= val + UpsOf(done, q)
                 && (t.waiters[q] != [] ==> DownsOf(done, q) - |t.waiters[q]| == val + UpsOf(done, q))
  {
    BootInv();
    var op := SemInitOp(q, val);
    var s := Execute(Boot(), before);
    if q !in s.waiters {
      StepKeeps(s, op);
      NewSemValue(s, q, val);
      ExecuteJoin(Boot(), before + [op], after);
      ExecuteJoin(Boot(), before, [op]);
      assert Execute(s, [op]) == Step(s, op) by {
        assert [op][1..] == [];
      }
      RunValue(Step(s, op), after, q);
      assert SemOK(Execute(Step(s, op), after), q);
    }
  }

  /** Who has been given a turn by the operation. */
  ghost function Given(s: Snapshot, op: Op): set<Ctx>
    requires Inv(s) && Enabled(s, op)
  {
    set x | x in s.core && op.YieldOp? && Step(s, op).ctxs[op.core] == x
  }

  /** Who has had to wait in the operation. */
  ghost function Halted(s: Snapshot, op: Op): set<Ctx>
    requires Inv(s) && Enabled(s, op)
  {
    set x | x in s.core && op.DownOp? && s.ctxs[op.core] == x && s.maxUse[op.q] <= 0
  }

  /** Who has been given a turn in the course of a run, and, if `waiting`, who has had to
      wait. */
  ghost function Started(s: Snapshot, ops: seq<Op>, waiting: bool): set<Ctx>
    requires Inv(s)
    decreases |ops|
  {
    if ops == [] then {}
    else if Enabled(s, ops[0]) then
      StepKeeps(s, ops[0]);
      Given(s, ops[0]) + (if waiting then Halted(s, ops[0]) else {}) + Started(Step(s, ops[0]), ops[1..], waiting)
    else Started(s, ops[1..], waiting)
  }

  /** The live contexts that are Ready are those that have not started. */
  ghost predicate ReadyAre(s: Snapshot, started: set<Ctx>) {
    && (forall x | x in s.core :: x in s.etat && (s.etat[x].Ready? <==> x !in started))
    && (forall x | x in started :: x in s.next)
  }

  /** A context known before still is. */
  lemma StepKnows(s: Snapshot, op: Op)
    requires Inv(s) && Enabled(s, op)
    ensures forall x | x in s.next :: x in Step(s, op).next
  {
    hide Structure, CanYield, CanFinish, Fresh, CoreOK, Running, CanDown, CanUp;
  }

  /** Who is woken by the operation. */
  ghost function Woken(s: Snapshot, op: Op): set<Ctx>
    requires Inv(s) && Enabled(s, op)
  {
    set x | x in s.core && op.UpOp? && s.maxUse[op.q] < 0 && s.waiters[op.q] != [] && s.waiters[op.q][0] == x
  }

  lemma LiveKnown(s: Snapshot, x: Ctx)
    requires Inv(s) && x in s.core
    ensures x in s.etat && x in s.next
  {
    assert MemberOK(s, x);
  }

  lemma StateOnCore(s: Snapshot, op: Op, x: Ctx)
    requires Inv(s) && Enabled(s, op) && x in Step(s, op).core && (x in s.core ==> x in s.etat && x in s.next)
    requires op.AddOp? || op.FinishOp? || op.YieldOp?
    ensures x in Step(s, op).etat && (x !in s.core ==> op.AddOp? && op.x == x)
    ensures Step(s, op).etat[x] == if x !in s.core then Ready else if x in Given(s, op) then Activated else s.etat[x]
  {
    hide Structure, CoreOK, MemberOK, SemOK;
    match op
    case AddOp(y, c) =>
    case FinishOp(c) => FinishKeeps(s, c);
    case YieldOp(c) => SwitchActivates(s, c);
  }

  lemma StateAtSem(s: Snapshot, op: Op, x: Ctx)
    requires Inv(s) && Enabled(s, op) && x in Step(s, op).core && (x in s.core ==> x in s.etat && x in s.next)
    requires op.SemInitOp? || op.DownOp? || op.UpOp?
    ensures x in Step(s, op).etat && x in s.core
    ensures Step(s, op).etat[x] ==
            if x in Woken(s, op) then Activated else if x in Halted(s, op) then Blocked else s.etat[x]
  {
    hide Structure, CoreOK, MemberOK, SemOK;
    match op
    case SemInitOp(q, val) =>
    case DownOp(c, q) => TakeSemStates(s, c, q);
    case UpOp(q) => UpIsSafe(s, q); GiveSemStates(s, q);
  }

  /** The state of a live context after any operation: only a turn, a wait and a wakeup of
      its own change it. */
  lemma StateAfter(s: Snapshot, op: Op, x: Ctx)
    requires Inv(s) && Enabled(s, op) && x in Step(s, op).core
    ensures x in Step(s, op).etat && (x !in s.core ==> op.AddOp? && op.x == x)
    ensures x in s.core ==> x in s.etat && x in s.next
    ensures Step(s, op).etat[x] ==
            if x !in s.core then Ready
            else if x in Given(s, op) + Woken(s, op) then Activated
            else if x in Halted(s, op) then Blocked
            else s.etat[x]
  {
    hide Inv, Enabled, Step;
    if x in s.core {
      LiveKnown(s, x);
    }
    if op.AddOp? || op.FinishOp? || op.YieldOp? {
      StateOnCore(s, op, x);
    } else {
      StateAtSem(s, op, x);
    }
  }

  /** A woken context had waited, and so was not Ready. */
  lemma WokenWaited(s: Snapshot, op: Op, x: Ctx)
    requires Inv(s) && Enabled(s, op) && x in Woken(s, op)
    ensures x in s.etat && s.etat[x].Blocked?
  {
    assert MemberOK(s, x);
    assert s.waiters[op.q][0] in s.waiters[op.q];
  }

  lemma StepReady(s: Snapshot, op: Op, started: set<Ctx>)
    requires Inv(s) && Enabled(s, op) && ReadyAre(s, started)
    ensures ReadyAre(Step(s, op), started + Given(s, op) + Halted(s, op))
  {
    var t := Step(s, op);
    StepKnows(s, op);
    StartingKnown(s, op);
    hide Inv, Enabled, Step, Given, Halted, Woken;
    forall x | x in t.core
      ensures x in t.etat && (t.etat[x].Ready? <==> x !in started + Given(s, op) + Halted(s, op))
    {
      StateAfter(s, op, x);
      if x in s.core {
        if x in Woken(s, op) {
          WokenWaited(s, op, x);
        }
      } else {
        NewcomerFresh(s, op, x);
      }
    }
  }

  lemma StartingKnown(s: Snapshot, op: Op)
    requires Inv(s) && Enabled(s, op)
    ensures forall x | x in Given(s, op) + Halted(s, op) :: x in s.next
  {
    forall x | x in Given(s, op) + Halted(s, op) ensures x in s.next {
      assert MemberOK(s, x);
    }
  }

  lemma NewcomerFresh(s: Snapshot, op: Op, x: Ctx)
    requires Inv(s) && Enabled(s, op) && op.AddOp? && op.x == x
    ensures x !in s.next && x !in Given(s, op) && x !in Halted(s, op)
  {
  }

  /** No context waits before its first turn: on a core that has never given a turn nobody
      calls `sem_down` in the name of the context that came first. */
  ghost predicate TurnsFirst(s: Snapshot, ops: seq<Op>)
    requires Inv(s)
    decreases |ops|
  {
    ops == [] ||
    (if Enabled(s, ops[0]) then
       StepKeeps(s, ops[0]);
       && (forall x | x in Halted(s, ops[0]) && x in s.etat :: !s.etat[x].Ready?)
       && TurnsFirst(Step(s, ops[0]), ops[1..])
     else TurnsFirst(s, ops[1..]))
  }

  lemma NowStarted(s: Snapshot, op: Op, started: set<Ctx>, waiting: bool)
    requires Inv(s) && Enabled(s, op) && ReadyAre(s, started)
    requires waiting || forall x | x in Halted(s, op) && x in s.etat :: !s.etat[x].Ready?
    ensures ReadyAre(Step(s, op), started + (Given(s, op) + if waiting then Halted(s, op) else {}))
  {
    StepReady(s, op, started);
    hide Inv, Enabled, Step, Given;
    var now := started + (Given(s, op) + if waiting then Halted(s, op) else {});
    assert !waiting ==> Halted(s, op) <= started;
    assert now == started + Given(s, op) + Halted(s, op);
  }

  lemma {:induction false} RunReady(s: Snapshot, ops: seq<Op>, started: set<Ctx>, waiting: bool)
    requires Inv(s) && ReadyAre(s, started) && (waiting || TurnsFirst(s, ops))
    ensures ReadyAre(Execute(s, ops), started + Started(s, ops, waiting))
    decreases |ops|
  {
    if ops == [] {
    } else if Enabled(s, ops[0]) {
      StepKeeps(s, ops[0]);
      hide Inv, Enabled, Step, Given, Halted, ReadyAre;
      NowStarted(s, ops[0], started, waiting);
      var news := Given(s, ops[0]) + if waiting then Halted(s, ops[0]) else {};
      var t := Step(s, ops[0]);
      RunReady(t, ops[1..], started + news, waiting);
      assert started + news + Started(t, ops[1..], waiting) == started + (news + Started(t, ops[1..], waiting));
    } else {
      RunReady(s, ops[1..], started, waiting);
    }
  }

  /** After any run a live context is Ready exactly while it has neither been given a turn
      nor had to wait; in a run where nobody waits before its first turn, exactly while it
      has not been given one. */
  lemma ReadyUntilTurn(ops: seq<Op>, x: Ctx)
    ensures Inv(Boot())
    ensures var s := Execute(Boot(), ops);
            x in s.core ==>
              && x in s.etat && (s.etat[x].Ready? <==> x !in Started(Boot(), ops, true))
              && (TurnsFirst(Boot(), ops) ==> (s.etat[x].Ready? <==> x !in Started(Boot(), ops, false)))
  {
    BootInv();
    RunReady(Boot(), ops, {}, true);
    assert {} + Started(Boot(), ops, true) == Started(Boot(), ops, true);
    if TurnsFirst(Boot(), ops) {
      RunReady(Boot(), ops, {}, false);
      assert {} + Started(Boot(), ops, false) == Started(Boot(), ops, false);
    }
  }

  // ---------------------------------------------------------------------- fairness

  /** The state after `m + 1` turns on core `c`, nothing else happening. */
  ghost function Turns(s: Snapshot, c: nat, m: nat): Snapshot
    requires CanYield(s, c)
    decreases m
  {
    var t := Switch(s, c);
    if m == 0 || !CanYield(t, c) then t else Turns(t, c, m - 1)
  }

  predicate Current(s: Snapshot, c: nat, x: Ctx) {
    c < |s.ctxs| && s.ctxs[c] == x
  }

  lemma SwitchCan(s: Snapshot, c: nat)
    requires CoreOK(s, c) && CanYield(s, c)
    ensures CoreOK(Switch(s, c), c) && CanYield(Switch(s, c), c)
    ensures Runnables(Switch(s, c)) == Runnables(s)
    ensures Order(Switch(s, c), c) == Rot(Turned(Order(s, c), Runnables(s)), 1)
  {
    SwitchCore(s, c);
    SwitchTurn(s, c);
    var r := Switch(s, c).rings[c];
    RotMembers(r, 1);
    assert r[0] in Rot(r, 1);
  }

  lemma NextTurn(s: Snapshot, c: nat) returns (t: Snapshot)
    requires CoreOK(s, c) && CanYield(s, c)
    ensures t == Switch(s, c) && CoreOK(t, c) && CanYield(t, c)
    ensures forall m: nat :: TurnIs(t, c, m) ==> TurnIs(s, c, m + 1)
  {
    t := Switch(s, c);
    SwitchCan(s, c);
    forall m: nat | TurnIs(t, c, m) ensures TurnIs(s, c, m + 1) {
      TurnNext(Order(s, c), Runnables(s), m + 1);
      assert Turns(s, c, m + 1) == Turns(t, c, m);
    }
  }

  /** Turn number `m` of the kernel is that of the choice on sequences. */
  ghost predicate TurnIs(s: Snapshot, c: nat, m: nat) {
    CanYield(s, c) && Current(Turns(s, c, m), c, Turn(Order(s, c), Runnables(s), m))
  }

  lemma FirstTurn(s: Snapshot, c: nat)
    requires CoreOK(s, c) && CanYield(s, c)
    ensures TurnIs(s, c, 0)
  {
  }

  lemma {:induction false} TurnsAre(s: Snapshot, c: nat, m: nat)
    requires CoreOK(s, c) && CanYield(s, c)
    ensures TurnIs(s, c, m)
    decreases m
  {
    hide CoreOK, CanYield, TurnIs;
    if m == 0 {
      FirstTurn(s, c);
    } else {
      var t := NextTurn(s, c);
      TurnsAre(t, c, m - 1);
    }
  }

  /** A context that can run and stays so becomes the current one within as many turns as
      its ring has contexts. */
  lemma Fairness(s: Snapshot, c: nat, x: Ctx)
    requires Inv(s) && c < N_CORE_MAX && x in s.core && s.core[x] == c && x in Runnables(s)
    ensures CanYield(s, c)
    ensures exists m: nat :: m < |s.rings[c]| && Current(Turns(s, c, m), c, x)
  {
    assert MemberOK(s, x) && CoreOK(s, c);
    RotMembers(s.rings[c], 1);
    assert x in Order(s, c);
    var k :| 0 <= k < |Order(s, c)| && Order(s, c)[k] == x;
    Fair(Order(s, c), Runnables(s), x, k);
    var m: nat :| m <= k && Turn(Order(s, c), Runnables(s), m) == x;
    TurnsAre(s, c, m);
  }
}
