/** The kernel's state as the source keeps it: `ctxs[N_CORE_MAX]` and records linked by
    `ctx_next` and `sem_next`, updated in place (src/ordonnancement/context.c). Each method
    is proved to take the recorded snapshot where a function of Scheduler says; the lemma
    named after that function (AddKeeps for Add, and so on) says what that preserves. */
module Kernel {
  import opened Rings
  import opened Scheduler

  class Core {
    const ctxs: array<Ctx?>
    ghost var s: Snapshot
    ghost var known: set<Ctx>
    ghost var sems: set<Sem>

    /** The snapshot records every field as it is. */
    ghost predicate Agrees()
      reads this, ctxs, known, sems
    {
      && ctxs[..] == s.ctxs
      && s.next.Keys == s.etat.Keys == s.semNext.Keys == known
      && s.maxUse.Keys == s.lst.Keys == sems
      && (forall x | x in known :: x.next == s.next[x] && x.etat == s.etat[x] && x.semNext == s.semNext[x])
      && (forall q | q in sems :: q.maxUse == s.maxUse[q] && q.lst == s.lst[q])
    }

    constructor ()
      ensures Agrees() && fresh(ctxs)
      ensures s == Boot() && known == {} && sems == {}
    {
      ctxs := new Ctx?[N_CORE_MAX](k => null);
      known, sems, s := {}, {}, Boot();
      new;
      assert ctxs[..] == [null, null, null, null];
    }

    // --------------------------------------------------------- single assignments

    method SetCurrent(c: nat, x: Ctx?)
      requires Agrees() && c < ctxs.Length
      modifies this`s, ctxs
      ensures Agrees() && s == old(s).(ctxs := old(s).ctxs[c := x])
    {
      ctxs[c] := x;
      s := s.(ctxs := s.ctxs[c := x]);
    }

    method SetNext(x: Ctx, y: Ctx?)
      requires Agrees() && x in known
      modifies this`s, x`next
      ensures Agrees() && s == old(s).(next := old(s).next[x := y])
    {
      x.next := y;
      s := s.(next := s.next[x := y]);
    }

    method SetEtat(x: Ctx, e: Etat)
      requires Agrees() && x in known
      modifies this`s, x`etat
      ensures Agrees() && s == old(s).(etat := old(s).etat[x := e])
    {
      x.etat := e;
      s := s.(etat := s.etat[x := e]);
    }

    method SetSemNext(x: Ctx, y: Ctx?)
      requires Agrees() && x in known
      modifies this`s, x`semNext
      ensures Agrees() && s == old(s).(semNext := old(s).semNext[x := y])
    {
      x.semNext := y;
      s := s.(semNext := s.semNext[x := y]);
    }

    method SetMaxUse(q: Sem, v: int)
      requires Agrees() && q in sems
      modifies this`s, q`maxUse
      ensures Agrees() && s == old(s).(maxUse := old(s).maxUse[q := v]) && q.maxUse == v
    {
      q.maxUse := v;
      s := s.(maxUse := s.maxUse[q := v]);
    }

    method SetLst(q: Sem, y: Ctx?)
      requires Agrees() && q in sems
      modifies this`s, q`lst
      ensures Agrees() && s == old(s).(lst := old(s).lst[q := y])
    {
      q.lst := y;
      s := s.(lst := s.lst[q := y]);
    }

    /** A context initialised by `init_ctx` becomes known, with its `next` set. */
    method Meet(x: Ctx, y: Ctx)
      requires Agrees() && x !in known && x.etat.Ready? && x.semNext == null
      modifies this`s, this`known, x`next
      ensures Agrees() && known == old(known) + {x}
      ensures s == old(s).(next := old(s).next[x := y], etat := old(s).etat[x := Ready],
                           semNext := old(s).semNext[x := null])
    {
      x.next := y;
      known := known + {x};
      s := s.(next := s.next[x := y], etat := s.etat[x := Ready], semNext := s.semNext[x := null]);
    }

    /** The records kept for the proofs change; the fields do not. */
    ghost method Record(t: Snapshot)
      requires Agrees()
      requires t == s.(rings := t.rings, core := t.core, waiters := t.waiters, waitsOn := t.waitsOn)
      modifies this`s
      ensures Agrees() && s == t
    {
      s := t;
    }

    // ------------------------------------------------------------------ operations

    /** `add_ctx`. */
    method AddCtx(ctx: Ctx, c: nat)
      requires Agrees() && CoreOK(s, c)
      requires ctx !in known && ctx.etat.Ready? && ctx.semNext == null
      modifies this`s, this`known, ctxs, ctx`next, known`next
      ensures Agrees() && s == Add(old(s), ctx, c) && ctx.etat == Etat.Ready
      ensures ctxs[c] == if old(ctxs[c]) == null then ctx else old(ctxs[c])
      ensures old(ctxs[c]) == null ==> ctx.next == ctx
      ensures old(ctxs[c]) != null ==> old(ctxs[c]).next == ctx && ctx.next == old(ctxs[c].next)
    {
      ghost var s0 := s;
      var current := ctxs[c];
      if current == null {
        SetCurrent(c, ctx);
        Meet(ctx, ctx);
      } else {
        assert current in s.next;
        NextInRing(s, c);
        Meet(ctx, current.next);
        SetNext(current, ctx);
      }
      Record(Add(s0, ctx, c));
    }

    /** `del_ctx`, told the core as `add_ctx` is, so that an empty ring can be recorded. */
    method DelCtx(ctx: Ctx, c: nat)
      requires Agrees() && Structure(s) && ctx in s.core && s.core[ctx] == c
      modifies this`s, ctxs, known`next
      ensures Agrees() && s == Remove(old(s), ctx)
      ensures ctxs[c] == if old(ctx.next) == ctx then null else old(ctxs[c])
    {
      ghost var t := Remove(s, ctx);
      Located(s, ctx, c);
      if ctx.next == ctx {
        SetCurrent(c, null);
      } else {
        var precedent := Predecessor(ctx, s.rings[c]);
        SetNext(precedent, ctx.next);
      }
      Record(t);
    }

    /** The loop of `del_ctx`: once round the ring. */
    method Predecessor(ctx: Ctx, ghost r: seq<Ctx>) returns (precedent: Ctx)
      requires Agrees() && Cycle(s.next, r) && ctx in r
      ensures precedent == Before(r, ctx) && precedent in known
    {
      ghost var i :| 0 <= i < |r| && r[i] == ctx;
      ghost var round := Rot(r, i);
      RotCycle(s.next, r, i);
      precedent := ctx;
      ghost var k := 0;
      while precedent.next != ctx
        invariant 0 <= k < |r| && precedent == round[k] && precedent in known
        decreases |r| - k
      {
        assert s.next[round[k]] == round[if k + 1 < |r| then k + 1 else 0];
        precedent := precedent.next;
        k := k + 1;
        assert round[k] in s.next;
      }
      assert s.next[round[k]] == round[if k + 1 < |r| then k + 1 else 0];
      assert k + 1 == |r|;
      assert round[k] == r[Prev(i, |r|)];
    }

    /** What `switch_to_ctx` does when the context's function returns. */
    method Return(c: nat)
      requires Agrees() && CanFinish(s, c)
      modifies this`s, ctxs, known`next, known`etat
      ensures Agrees() && s == Finish(old(s), c)
      ensures old(ctxs[c]) != null && old(ctxs[c]).etat == Etat.Terminated
      ensures forall x | x in known && x != old(ctxs[c]) :: x.etat == old(x.etat)
    {
      FinishStates(s, c);
      CurrentCore(s, c);
      Located(s, s.ctxs[c], c);
      TerminateKeeps(s, s.ctxs[c]);
      hide Structure, Remove;
      var ctx := ctxs[c];
      SetEtat(ctx, Etat.Terminated);
      DelCtx(ctx, c);
    }

    /** `next_ctx`, as the message in `yield` names it: the one behind the current. */
    method NextCtx(c: nat) returns (nxt: Ctx?)
      requires Agrees() && CoreOK(s, c)
      ensures nxt == At(Order(s, c), 0)
      ensures ctxs[c] != null ==> nxt == ctxs[c].next
    {
      if ctxs[c] == null {
        return null;
      }
      assert ctxs[c] in s.next;
      nxt := ctxs[c].next;
      OrderStart(s, c);
    }

    /** The two loops of `yield`: past terminated contexts, then past blocked ones. Null
        stands for a loop that never ends, because all contexts of the ring are blocked. */
    method Pick(c: nat) returns (ctx: Ctx?)
      requires Agrees() && CoreOK(s, c) && s.rings[c] != [] && (Someone(s, Order(s, c)) || Live(s, c))
      ensures ctx == null <==> !Someone(s, Order(s, c))
      ensures ctx != null ==> Reached(s, Order(s, c), ctx)
    {
      OrderRing(s, c);
      ghost var order := Order(s, c);
      var nxt := NextCtx(c);
      var x: Ctx := nxt;
      ghost var j := 0;
      while x.etat == Etat.Terminated
        invariant 0 <= j < |order| && x == order[j] && x in known && Skipped(s, order, j)
        decreases |order| - j
      {
        MoreToCome(s, order, j);
        x := x.next;
        j := j + 1;
      }
      while x.etat == Etat.Blocked
        invariant 0 <= j < |order| && x == order[j] && x in known && Skipped(s, order, j)
        decreases |order| - j
      {
        RoundStep(s, order, j);
        x := x.next;
        if x == nxt {
          return null;
        }
        j := j + 1;
      }
      assert Skipped(s, order, j);
      LiveRuns(s, c, order[j]);
      return x;
    }

    /** `yield`; false stands for a loop that never ends. On a core without a context
        nothing happens. */
    method Yield(c: nat) returns (ended: bool)
      requires Agrees() && CoreOK(s, c) && c < N_CORE_MAX == |s.ctxs| && Live(s, c)
      modifies this`s, ctxs, known`etat
      ensures ended <==> old(s).ctxs[c] == null || CanYield(old(s), c)
      ensures Agrees() && s == if CanYield(old(s), c) then Switch(old(s), c) else old(s)
      ensures CanYield(old(s), c) ==> ctxs[c] != null && ctxs[c].etat == Etat.Activated
      ensures forall x | x in known && !(CanYield(old(s), c) && x == ctxs[c]) :: x.etat == old(x.etat)
    {
      if ctxs[c] == null {
        return true;
      }
      var ctx := Pick(c);
      ended := ctx != null;
      if ended {
        OrderRing(s, c);
        Picked(s, Order(s, c), ctx);
        SwitchActivates(s, c);
        SwitchTo(c, ctx);
      }
    }

    /** The bookkeeping of `switch_to_ctx`. */
    method SwitchTo(c: nat, ctx: Ctx)
      requires Agrees() && CoreOK(s, c) && CanYield(s, c) && ctx == Turned(Order(s, c), Runnables(s))[0]
      modifies this`s, ctxs, known`etat
      ensures Agrees() && s == Switch(old(s), c)
    {
      ghost var t := Switch(s, c);
      assert ctx in Runnables(s);
      SetCurrent(c, ctx);
      if ctx.etat == Etat.Ready {
        SetEtat(ctx, Etat.Activated);
      }
      Record(t);
    }

    /** `sem_init` of a new semaphore. */
    method SemInit(val: int) returns (q: Sem)
      requires Agrees()
      modifies this
      ensures fresh(q) && q.maxUse == val && q.lst == null
      ensures Agrees() && s == NewSem(old(s), q, val) && sems == old(sems) + {q}
    {
      q := new Sem.SemInit(val);
      sems := sems + {q};
      s := NewSem(s, q, val);
    }

    /** The part of `sem_down` before it yields; `wait` tells whether it will. */
    method Take(c: nat, q: Sem) returns (wait: bool)
      requires Agrees() && c < ctxs.Length && s.ctxs[c] in known && Known(s, q)
      modifies this`s, q, known`etat, known`semNext
      ensures Agrees() && s == TakeSem(old(s), c, q)
      ensures wait == (old(s).maxUse[q] <= 0)
      ensures q.maxUse == old(q.maxUse) - 1
      ensures q.lst == if wait then ctxs[c] else old(q.lst)
      ensures wait ==> ctxs[c].etat == Etat.Blocked && ctxs[c].semNext == old(q.lst)
    {
      hide TakeSem;
      ghost var t := TakeSem(s, c, q);
      FieldsTaken(s, c, q);
      SetMaxUse(q, q.maxUse - 1);
      wait := q.maxUse < 0;
      if wait {
        Block(ctxs[c], q);
      }
      Record(t);
    }

    /** The context goes to the head of the list. */
    method Block(x: Ctx, q: Sem)
      requires Agrees() && x in known && q in sems
      modifies this`s, q`lst, x`etat, x`semNext
      ensures Agrees()
      ensures s == old(s).(etat := old(s).etat[x := Blocked], semNext := old(s).semNext[x := old(s).lst[q]],
                           lst := old(s).lst[q := x])
    {
      SetEtat(x, Etat.Blocked);
      SetSemNext(x, q.lst);
      SetLst(q, x);
    }

    /** The head of the list leaves it. */
    method Unblock(q: Sem)
      requires Agrees() && q in sems && s.lst[q] != null && s.lst[q] in known
      modifies this`s, q`lst, known`etat
      ensures Agrees()
      ensures s == old(s).(etat := old(s).etat[old(s).lst[q] := Activated],
                           lst := old(s).lst[q := old(s).semNext[old(s).lst[q]]])
    {
      var tmp := q.lst;
      SetEtat(tmp, Etat.Activated);
      SetLst(q, tmp.semNext);
    }

    /** `sem_down`; false stands for a `yield` that never ends, because the caller must wait
        and all contexts of its core are blocked. */
    method SemDown(c: nat, q: Sem) returns (ended: bool)
      requires Agrees() && Inv(s) && CanDown(s, c, q)
      modifies this`s, ctxs, q, known`etat, known`semNext
      ensures Agrees()
      ensures var t := TakeSem(old(s), c, q);
              && (ended <==> old(s).maxUse[q] > 0 || CanYield(t, c))
              && s == if old(s).maxUse[q] <= 0 && CanYield(t, c) then Switch(t, c) else t
      ensures q.maxUse == old(q.maxUse) - 1
      ensures old(q.maxUse) > 0 ==> q.lst == old(q.lst) && ctxs[c] == old(ctxs[c])
      ensures old(q.maxUse) <= 0 ==>
                q.lst == old(ctxs[c]) && q.lst != null && q.lst.semNext == old(q.lst)
    {
      ReadyToTake(s, c, q);
      ended := true;
      var wait := Take(c, q);
      if wait {
        ended := Yield(c);
      }
    }

    /** `sem_up`. */
    method SemUp(q: Sem)
      requires Agrees() && HeadReady(s, q)
      modifies this`s, q, known`etat
      ensures Agrees() && s == GiveSem(old(s), q)
      ensures q.maxUse == old(q.maxUse) + 1
      ensures old(q.maxUse) >= 0 ==> q.lst == old(q.lst)
      ensures old(q.maxUse) < 0 ==>
                && old(q.lst) != null && q.lst == old(q.lst.semNext) && old(q.lst).etat == Etat.Activated
    {
      hide GiveSem;
      ghost var t := GiveSem(s, q);
      FieldsGiven(s, q);
      SetMaxUse(q, q.maxUse + 1);
      if q.maxUse <= 0 {
        Unblock(q);
      }
      Record(t);
    }
  }

  /** What `sem_down` does to the fields; the records follow. */
  lemma FieldsTaken(s: Snapshot, c: nat, q: Sem)
    requires c < |s.ctxs| && s.ctxs[c] != null && Known(s, q)
    ensures var t := TakeSem(s, c, q);
            var x := s.ctxs[c];
            var s1 := s.(maxUse := s.maxUse[q := s.maxUse[q] - 1]);
            t.(waiters := s.waiters, waitsOn := s.waitsOn) ==
              if s.maxUse[q] > 0 then s1
              else s1.(etat := s.etat[x := Blocked], semNext := s.semNext[x := s.lst[q]], lst := s.lst[q := x])
  {
  }

  /** The same for `sem_up`. */
  lemma FieldsGiven(s: Snapshot, q: Sem)
    requires HeadReady(s, q)
    ensures var t := GiveSem(s, q);
            var s1 := s.(maxUse := s.maxUse[q := s.maxUse[q] + 1]);
            t.(waiters := s.waiters, waitsOn := s.waitsOn) ==
              if s.maxUse[q] >= 0 then s1
              else s1.(etat := s.etat[s.lst[q] := Activated], lst := s.lst[q := s.semNext[s.lst[q]]])
  {
  }

  lemma NextInRing(s: Snapshot, c: nat)
    requires CoreOK(s, c) && s.ctxs[c] != null
    ensures s.ctxs[c] in s.next && s.next[s.ctxs[c]] != null
  {
    var r := s.rings[c];
    assert s.ctxs[c] == r[0] ==> s.next[r[0]] == r[if 1 < |r| then 1 else 0];
  }

  lemma Located(s: Snapshot, x: Ctx, c: nat)
    requires Structure(s) && x in s.core && s.core[x] == c
    ensures c < N_CORE_MAX == |s.rings| && x in s.rings[c] && Cycle(s.next, s.rings[c])
    ensures x in s.next && (s.next[x] == x <==> |s.rings[c]| == 1)
  {
    assert MemberOK(s, x) && CoreOK(s, c);
    var r := s.rings[c];
    var i :| 0 <= i < |r| && r[i] == x;
    assert s.next[r[i]] == r[if i + 1 < |r| then i + 1 else 0];
  }

  lemma OrderStart(s: Snapshot, c: nat)
    requires CoreOK(s, c) && s.ctxs[c] != null
    ensures s.ctxs[c] in s.next && s.next[s.ctxs[c]] == At(Order(s, c), 0)
  {
  }

  /** Nothing terminated is left in the ring of core `c`. */
  ghost predicate Live(s: Snapshot, c: nat) {
    c < |s.rings| && forall x | x in s.rings[c] :: x in s.etat && !s.etat[x].Terminated?
  }

  lemma ReadyToTake(s: Snapshot, c: nat, q: Sem)
    requires Inv(s) && CanDown(s, c, q)
    ensures s.ctxs[c] in s.next
    ensures CoreOK(TakeSem(s, c, q), c) && Live(TakeSem(s, c, q), c)
  {
    TakeSemKeeps(s, c, q);
    CurrentCore(s, c);
    var t := TakeSem(s, c, q);
    assert CoreOK(t, c) && MemberOK(s, s.ctxs[c]);
    forall x | x in t.rings[c] ensures x in t.etat && !t.etat[x].Terminated? {
      assert MemberOK(t, x);
    }
  }

  /** The first `j` candidates cannot run. */
  ghost predicate Skipped(s: Snapshot, order: seq<Ctx>, j: nat) {
    && j <= |order|
    && forall k | 0 <= k < j :: order[k] in s.etat && (s.etat[order[k]].Terminated? || s.etat[order[k]].Blocked?)
  }

  /** Some candidate can run. */
  ghost predicate Someone(s: Snapshot, order: seq<Ctx>) {
    exists x :: x in order && x in Runnables(s)
  }

  /** Behind a candidate that cannot run comes the next one; behind the last one none of
      them can, and the first is looked at again. */
  lemma RoundStep(s: Snapshot, order: seq<Ctx>, j: nat)
    requires Cycle(s.next, order) && j < |order| && Skipped(s, order, j)
    requires order[j] in s.etat && !s.etat[order[j]].Ready? && !s.etat[order[j]].Activated?
    ensures s.next[order[j]] == order[if j + 1 < |order| then j + 1 else 0]
    ensures s.next[order[j]] == order[0] <==> j + 1 == |order|
    ensures order[if j + 1 < |order| then j + 1 else 0] in s.next
    ensures Skipped(s, order, j + 1)
    ensures j + 1 == |order| ==> !Someone(s, order)
  {
    assert order[if j + 1 < |order| then j + 1 else 0] in s.next;
    if j + 1 == |order| {
      forall x | x in order ensures x !in Runnables(s) {
        var k :| 0 <= k < |order| && order[k] == x;
        assert k == j || k < j;
      }
    }
  }

  lemma MoreToCome(s: Snapshot, order: seq<Ctx>, j: nat)
    requires Cycle(s.next, order) && j < |order| && Skipped(s, order, j)
    requires Someone(s, order) || forall x | x in order :: x in s.etat && !s.etat[x].Terminated?
    requires order[j] in s.etat && s.etat[order[j]].Terminated?
    ensures j + 1 < |order| && Skipped(s, order, j + 1)
    ensures s.next[order[j]] == order[j + 1] && order[j + 1] in s.next
  {
    assert order[j] in order;
    RoundStep(s, order, j);
  }

  /** A live context of the ring that is not blocked can run. */
  lemma LiveRuns(s: Snapshot, c: nat, x: Ctx)
    requires CoreOK(s, c) && x in s.rings[c] && x in s.etat && !s.etat[x].Blocked?
    ensures Live(s, c) ==> x in Runnables(s)
  {
  }

  /** `x` ends the first stretch of `order` that cannot run. */
  ghost predicate Reached(s: Snapshot, order: seq<Ctx>, x: Ctx) {
    exists j: nat {:trigger Skipped(s, order, j)} ::
      j < |order| && x == order[j] && x in s.etat && s.etat[x] != Etat.Blocked && Skipped(s, order, j)
  }

  lemma Picked(s: Snapshot, order: seq<Ctx>, x: Ctx)
    requires exists y :: y in order && y in Runnables(s)
    requires forall y | y in order :: y in s.core && y in s.etat && !s.etat[y].Terminated?
    requires Reached(s, order, x)
    ensures x == Turned(order, Runnables(s))[0]
  {
    var j: nat :| j < |order| && x == order[j] && x in s.etat && s.etat[x] != Etat.Blocked && Skipped(s, order, j);
    assert x in order;
  }
}
