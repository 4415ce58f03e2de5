/** The slips of the scheduler (src/ordonnancement/context.c) as they are written, each
    with the exact condition under which it does no harm. */
module AsWrittenScheduler {
  import opened Rings
  import opened Scheduler

  // ------------------------------------------------------------------------- yield

  /** How the two loops of `yield` end: with a context, never, or by following a null
      pointer. */
  datatype Choice = Chosen(x: Ctx) | Endless | NullPointer

  /** What the loops rely on: behind a current context that has ended there is one that has
      not. */
  predicate CanLook(s: Snapshot, c: nat) {
    && c < |s.ctxs|
    && (s.ctxs[c] != null ==>
          && s.ctxs[c] in s.etat
          && (s.etat[s.ctxs[c]].Terminated? ==>
                && s.ctxs[c] in s.next && s.next[s.ctxs[c]] != null
                && s.next[s.ctxs[c]] in s.etat && !s.etat[s.next[s.ctxs[c]]].Terminated?))
  }

  /** `next_ctx`, line 213, answers the current context itself. The loop over blocked
      contexts asks it again and again, so it never ends when the current context is
      blocked, and goes back to the current context when that has ended and the one behind
      it is blocked. Line 109 follows the pointer of a core without a context. */
  function PickAsWritten(s: Snapshot, c: nat): Choice
    requires CanLook(s, c)
  {
    var current := s.ctxs[c];
    if current == null then NullPointer
    else if s.etat[current].Terminated? then
      if s.etat[s.next[current]].Blocked? then Chosen(current) else Chosen(s.next[current])
    else if s.etat[current].Blocked? then Endless
    else Chosen(current)
  }

  /** The turn goes where it should. */
  ghost predicate PickRight(s: Snapshot, c: nat)
    requires CanLook(s, c) && CanYield(s, c)
  {
    PickAsWritten(s, c) == Chosen(Turned(Order(s, c), Runnables(s))[0])
  }

  /** The current context is live, or it has just ended. */
  predicate LiveOrEnded(s: Snapshot, c: nat) {
    c < |s.ctxs| && (s.ctxs[c] in s.core || (s.ctxs[c] in s.etat && s.etat[s.ctxs[c]].Terminated?))
  }

  /** The same for all cores, those without a context aside. */
  ghost predicate AllLiveOrEnded(s: Snapshot) {
    forall c: nat | c < |s.ctxs| && s.ctxs[c] != null :: LiveOrEnded(s, c)
  }

  lemma StepLiveOrEnded(s: Snapshot, op: Op)
    requires Inv(s) && AllLiveOrEnded(s) && Enabled(s, op)
    ensures AllLiveOrEnded(Step(s, op))
  {
    match op
    case AddOp(x, c) => AddLiveOrEnded(s, x, c);
    case FinishOp(c) => FinishLiveOrEnded(s, c);
    case YieldOp(c) => YieldLiveOrEnded(s, c);
    case SemInitOp(q, val) =>
    case DownOp(c, q) =>
    case UpOp(q) => UpLiveOrEnded(s, q);
  }

  lemma AddLiveOrEnded(s: Snapshot, x: Ctx, c: nat)
    requires Inv(s) && AllLiveOrEnded(s) && c < N_CORE_MAX && Fresh(s, x) && CoreOK(s, c)
    ensures AllLiveOrEnded(Add(s, x, c))
  {
    hide Structure, MemberOK, SemOK, Cycle;
    var t := Add(s, x, c);
    forall d: nat | d < |t.ctxs| && t.ctxs[d] != null ensures LiveOrEnded(t, d) {
      if s.ctxs[d] != null {
        assert LiveOrEnded(s, d);
        CurrentKnown(s, d);
      }
    }
  }

  lemma CurrentKnown(s: Snapshot, d: nat)
    requires Inv(s) && d < |s.ctxs| && s.ctxs[d] != null
    ensures s.ctxs[d] in s.next
  {
    assert CoreOK(s, d);
  }

  lemma FinishLiveOrEnded(s: Snapshot, c: nat)
    requires Inv(s) && AllLiveOrEnded(s) && CanFinish(s, c)
    ensures AllLiveOrEnded(Finish(s, c))
  {
    FinishKeeps(s, c);
    var t := Finish(s, c);
    forall d: nat | d < |t.ctxs| && t.ctxs[d] != null ensures LiveOrEnded(t, d) {
      assert LiveOrEnded(s, d);
    }
  }

  lemma YieldLiveOrEnded(s: Snapshot, c: nat)
    requires Inv(s) && AllLiveOrEnded(s) && CanYield(s, c)
    ensures AllLiveOrEnded(Switch(s, c))
  {
    hide Structure, MemberOK, SemOK, Cycle;
    var t := Switch(s, c);
    forall d: nat | d < |t.ctxs| && t.ctxs[d] != null ensures LiveOrEnded(t, d) {
      if d != c {
        assert LiveOrEnded(s, d);
      }
    }
  }

  lemma UpLiveOrEnded(s: Snapshot, q: Sem)
    requires Inv(s) && AllLiveOrEnded(s) && CanUp(s, q)
    ensures AllLiveOrEnded(GiveSem(s, q))
  {
    var t := GiveSem(s, q);
    forall d: nat | d < |t.ctxs| && t.ctxs[d] != null ensures LiveOrEnded(t, d) {
      assert LiveOrEnded(s, d);
      assert s.ctxs[d] !in s.core ==> s.ctxs[d] !in s.waiters[q];
    }
  }

  /** After any run every current context is live or has just ended. */
  lemma {:induction false} RunLiveOrEnded(s: Snapshot, ops: seq<Op>)
    requires Inv(s) && AllLiveOrEnded(s)
    ensures AllLiveOrEnded(Execute(s, ops))
    decreases |ops|
  {
    hide Inv, AllLiveOrEnded, Enabled, Step;
    if ops == [] {
    } else if Enabled(s, ops[0]) {
      StepKeeps(s, ops[0]);
      StepLiveOrEnded(s, ops[0]);
      RunLiveOrEnded(Step(s, ops[0]), ops[1..]);
    } else {
      RunLiveOrEnded(s, ops[1..]);
    }
  }

  lemma CanLookOn(s: Snapshot, c: nat)
    requires Inv(s) && c < N_CORE_MAX && LiveOrEnded(s, c)
    ensures CanLook(s, c)
    ensures s.ctxs[c] !in s.core && s.rings[c] != [] ==> Order(s, c) == s.rings[c] && s.next[s.ctxs[c]] == s.rings[c][0]
    ensures s.ctxs[c] in s.core ==> s.ctxs[c] in s.etat && !s.etat[s.ctxs[c]].Terminated?
  {
    assert CoreOK(s, c);
    if s.ctxs[c] in s.core {
      assert MemberOK(s, s.ctxs[c]);
    } else if s.rings[c] != [] {
      assert s.rings[c][0] in s.rings[c];
      assert MemberOK(s, s.rings[c][0]);
    }
  }

  /** When some context of the core can run: from a live context, the turn goes where it
      should exactly when no other one can run; from a context that has ended, exactly when
      the first live one can run. */
  lemma PickAsWrittenIff(s: Snapshot, c: nat)
    requires Inv(s) && CanYield(s, c) && LiveOrEnded(s, c)
    ensures CanLook(s, c)
    ensures s.ctxs[c] in s.core ==>
              (PickRight(s, c) <==> forall x | x in s.rings[c] && x in Runnables(s) :: x == s.ctxs[c])
    ensures s.ctxs[c] !in s.core ==> s.rings[c] != [] && (PickRight(s, c) <==> s.rings[c][0] in Runnables(s))
  {
    CanLookOn(s, c);
    assert CoreOK(s, c);
    OrderRing(s, c);
    if s.ctxs[c] in s.core {
      PickFromLive(s, c);
    } else {
      assert s.rings[c] != [];
      PickFromEnded(s, c);
    }
  }

  lemma PickFromLive(s: Snapshot, c: nat)
    requires Inv(s) && CanYield(s, c) && s.ctxs[c] in s.core && CanLook(s, c)
    requires s.ctxs[c] in s.etat && !s.etat[s.ctxs[c]].Terminated?
    ensures PickRight(s, c) <==> forall x | x in s.rings[c] && x in Runnables(s) :: x == s.ctxs[c]
  {
    assert MemberOK(s, s.ctxs[c]) && CoreOK(s, c);
    OrderRing(s, c);
    var order := Order(s, c);
    var current := s.ctxs[c];
    var chosen := Turned(order, Runnables(s))[0];
    assert chosen in order;
    if chosen == current {
      LastOfOrder(s, c);
      assert First(order, Runnables(s)) == |order| - 1;
      forall x | x in s.rings[c] && x in Runnables(s) ensures x == current {
        assert x in order;
      }
    }
  }

  lemma PickFromEnded(s: Snapshot, c: nat)
    requires Inv(s) && CanYield(s, c) && s.ctxs[c] !in s.core && CanLook(s, c) && s.rings[c] != []
    requires s.ctxs[c] in s.etat && s.etat[s.ctxs[c]].Terminated?
    requires Order(s, c) == s.rings[c] && s.next[s.ctxs[c]] == s.rings[c][0]
    ensures PickRight(s, c) <==> s.rings[c][0] in Runnables(s)
  {
    var r := s.rings[c];
    assert CoreOK(s, c);
    assert r[0] in r && MemberOK(s, r[0]);
    var chosen := Turned(r, Runnables(s))[0];
    assert r[0] in Runnables(s) ==> First(r, Runnables(s)) == 0;
  }

  lemma LastOfOrder(s: Snapshot, c: nat)
    requires CoreOK(s, c) && s.ctxs[c] in s.core && s.rings[c] != []
    ensures |Order(s, c)| == |s.rings[c]| && Order(s, c)[|Order(s, c)| - 1] == s.ctxs[c]
    ensures Distinct(Order(s, c))
  {
    OrderRing(s, c);
  }

  /** When all contexts of a core are blocked, the loop never ends, unless the current
      context has ended: then that one goes on. Without contexts a null pointer is
      followed. */
  lemma PickWithoutRunnable(s: Snapshot, c: nat)
    requires Inv(s) && c < N_CORE_MAX && !CanYield(s, c) && (LiveOrEnded(s, c) || s.ctxs[c] == null)
    ensures CanLook(s, c)
    ensures PickAsWritten(s, c) ==
            if s.ctxs[c] == null then NullPointer
            else if s.ctxs[c] in s.core then Endless else Chosen(s.ctxs[c])
  {
    assert CoreOK(s, c);
    if s.ctxs[c] != null {
      CanLookOn(s, c);
      OrderRing(s, c);
      var x := if s.ctxs[c] in s.core then s.ctxs[c] else s.rings[c][0];
      assert x in s.rings[c] && MemberOK(s, x);
      assert x in Order(s, c) && x !in Runnables(s);
    }
  }

  /** A kernel with contexts `x` and `y` on core 1. */
  function TwoReady(x: Ctx, y: Ctx): Snapshot
    requires x != y
  {
    Add(Add(Boot(), x, 1), y, 1)
  }

  lemma TwoReadyIs(x: Ctx, y: Ctx)
    requires x != y
    ensures var s := TwoReady(x, y);
            && Inv(s) && s.ctxs[1] == x && s.rings[1] == [x, y] && Order(s, 1) == [y, x]
            && x in s.core && y in s.core && s.core[x] == s.core[y] == 1
            && s.next == map[x := y, y := x] && s.etat == map[x := Ready, y := Ready]
            && s.semNext == map[x := null, y := null] && s.waitsOn == map[] && s.waiters == map[]
            && Runnables(s) == {x, y}
  {
    BootInv();
    AddKeeps(Boot(), x, 1);
    AddKeeps(Add(Boot(), x, 1), y, 1);
  }

  /** With two contexts ready on a core, the one that yields goes on, and the other never
      gets a turn. Starting the scheduler of a core without contexts follows a null pointer. */
  lemma PickAsWrittenExample(x: Ctx, y: Ctx)
    requires x != y
    ensures CanLook(Boot(), 0) && PickAsWritten(Boot(), 0) == NullPointer
    ensures var s := TwoReady(x, y);
            && Inv(s) && CanYield(s, 1) && CanLook(s, 1)
            && PickAsWritten(s, 1) == Chosen(x) && Turned(Order(s, 1), Runnables(s))[0] == y
  {
    TwoReadyIs(x, y);
    var s := TwoReady(x, y);
    assert y in Order(s, 1);
  }

  // ----------------------------------------------------------------------- del_ctx

  /** Following `next` from `x`, `k` times. */
  function Follow(next: map<Ctx, Ctx?>, x: Ctx?, k: nat): Ctx?
    decreases k
  {
    if k == 0 || x == null || x !in next then x else Follow(next, next[x], k - 1)
  }

  lemma {:induction false} FollowSelf(next: map<Ctx, Ctx?>, x: Ctx, k: nat)
    requires x in next && next[x] == x
    ensures Follow(next, x, k) == x
    decreases k
  {
    if k == 0 {
    } else {
      FollowSelf(next, x, k - 1);
    }
  }

  lemma FollowOnce(next: map<Ctx, Ctx?>, x: Ctx, y: Ctx)
    requires x in next && next[x] == y
    ensures Follow(next, x, 1) == y
  {
    assert Follow(next, y, 0) == y;
  }

  /** `del_ctx`, lines 187-200, clears only its own parameter, so the core keeps the
      terminated context. The loop of `yield` past terminated contexts then never leaves
      it exactly when it was alone in its ring. */
  lemma DelCtxAsWrittenIff(s: Snapshot, c: nat)
    requires Structure(s) && c < N_CORE_MAX && s.ctxs[c] in s.core
    ensures (forall k: nat :: Follow(Remove(s, s.ctxs[c]).next, s.ctxs[c], k) == s.ctxs[c]) <==> |s.rings[c]| == 1
  {
    var x := s.ctxs[c];
    CurrentCore(s, c);
    assert CoreOK(s, c) && MemberOK(s, x);
    var next := Remove(s, x).next;
    var r := s.rings[c];
    assert s.next[r[0]] == r[if 1 < |r| then 1 else 0];
    if |r| == 1 {
      forall k: nat ensures Follow(next, x, k) == x {
        FollowSelf(next, x, k);
      }
    } else {
      RemovedCycle(s.next, r, x);
      assert next[x] == r[1] != x;
      FollowOnce(next, x, r[1]);
      var one: nat := 1;
      assert Follow(Remove(s, s.ctxs[c]).next, s.ctxs[c], one) != s.ctxs[c];
    }
  }

  /** The last context of a core ends: the core can only loop. */
  lemma DelCtxAsWrittenExample(x: Ctx)
    ensures var s := Add(Boot(), x, 1);
            && Structure(s) && s.ctxs[1] in s.core
            && forall k: nat :: Follow(Remove(s, x).next, x, k) == x
  {
    BootInv();
    AddKeeps(Boot(), x, 1);
    DelCtxAsWrittenIff(Add(Boot(), x, 1), 1);
  }

  // ---------------------------------------------- adding behind a removed context

  lemma FirstOfTwoEnds(s: Snapshot, x: Ctx, y: Ctx)
    requires Inv(s) && CanFinish(s, 1) && s.ctxs[1] == x && s.rings[1] == [x, y] && s.core[x] == 1
    requires s.next == map[x := y, y := x] && x != y
    ensures var t := Finish(s, 1);
            && t.rings[1] == [y] && t.ctxs[1] == x && t.next == map[x := y, y := y]
            && t.core == s.core - {x} && t.semNext == s.semNext && t.waitsOn == s.waitsOn
  {
    hide Inv, CoreOK, MemberOK, SemOK, Cycle;
    assert [x, y][0] == x && Before([x, y], x) == y;
    WithoutAt([x, y], 0);
    assert Without([x, y], x) == [y];
    assert s.next[y := y] == map[x := y, y := y];
  }

  /** `x` and `y` are on core 1, `x` ends, and before its core has yielded `z` is added: no
      link leads from the live context to it. */
  lemma AddAfterEndExample(x: Ctx, y: Ctx, z: Ctx)
    requires x != y && x != z && y != z
    ensures var s := TwoReady(x, y);
            && CanFinish(s, 1)
            && var t := Finish(s, 1);
               && Inv(t) && t.rings[1] == [y] && !Running(t, 1) && Fresh(t, z)
               && CoreOK(t, 1) && Add(t, z, 1).next == map[x := z, y := y, z := y] && !Inv(Add(t, z, 1))
  {
    hide TwoReady, Finish, Structure, MemberOK, SemOK;
    TwoReadyIs(x, y);
    var s := TwoReady(x, y);
    TwoReadyEnds(s, x, y);
    FinishKeeps(s, 1);
    FirstOfTwoEnds(s, x, y);
    var t := Finish(s, 1);
    TwoReadyFresh(s, x, y, z);
    AddKeeps(t, z, 1);
  }

  lemma TwoReadyEnds(s: Snapshot, x: Ctx, y: Ctx)
    requires Inv(s) && s.ctxs[1] == x && x in s.core && s.waitsOn == map[]
    ensures CanFinish(s, 1)
  {
  }

  lemma TwoReadyFresh(s: Snapshot, x: Ctx, y: Ctx, z: Ctx)
    requires Inv(s) && s.semNext == map[x := null, y := null] && z != x && z != y
    ensures z !in s.semNext && z !in s.core
  {
    assert z in s.core ==> MemberOK(s, z);
  }

  // --------------------------------------------------------------------- sem_init

  /** A semaphore made with value -1 has no head for the first `sem_up` to follow. */
  lemma SemInitExample(q: Sem)
    ensures Inv(Boot()) && !HeadReady(NewSem(Boot(), q, -1), q) && NewSem(Boot(), q, -1).lst == map[q := null]
  {
    BootInv();
    NewSemKeeps(Boot(), q, -1);
  }
}
