/** Counting semaphores with a last-in first-out waiter list
    (src/ordonnancement/context.c:231-272), as values: what the kernel's methods compute
    and what the producer/consumer protocol relies on. */
module Semaphore {
  import opened Bytes
  import opened Rings

  datatype Sema<T> = Sema(val: int, waiters: seq<T>)

  /** `sem_down` by `who`: whether it must wait. */
  function Down<T>(s: Sema<T>, who: T): (Sema<T>, bool) {
    if s.val - 1 >= 0 then (s.(val := s.val - 1), false)
    else (Sema(s.val - 1, [who] + s.waiters), true)
  }

  /** `sem_up`: who is woken, if anybody waits. */
  function Up<T>(s: Sema<T>): (Sema<T>, Option<T>)
    requires s.val < 0 ==> s.waiters != []
  {
    if s.val + 1 <= 0 then (Sema(s.val + 1, s.waiters[1..]), Some(s.waiters[0]))
    else (s.(val := s.val + 1), None)
  }

  /** Exactly the missing units are waited for, by as many different contexts. */
  ghost predicate Sound<T>(s: Sema<T>) {
    Distinct(s.waiters) && |s.waiters| == if s.val < 0 then -s.val else 0
  }

  lemma DownSound<T>(s: Sema<T>, who: T)
    requires Sound(s) && who !in s.waiters
    ensures Sound(Down(s, who).0)
    ensures Down(s, who).1 <==> s.val <= 0
    ensures forall x :: x in Down(s, who).0.waiters <==> x in s.waiters || (s.val <= 0 && x == who)
  {
    assert s.val <= 0 ==> forall x :: x in [who] + s.waiters <==> x in s.waiters || x == who;
  }

  /** No wakeup is lost: an up wakes exactly one waiter whenever there is one. */
  lemma UpSound<T>(s: Sema<T>)
    requires Sound(s)
    ensures Sound(Up(s).0)
    ensures Up(s).1.Some? <==> s.waiters != []
    ensures forall x :: x in Up(s).0.waiters <==> x in s.waiters && Up(s).1 != Some(x)
  {
    if s.waiters != [] {
      assert s.waiters == [s.waiters[0]] + s.waiters[1..];
      assert s.waiters[0] !in s.waiters[1..];
    }
  }

  /** An up takes back the latest down: it gives the unit back, or wakes who has come last. */
  lemma DownThenUp<T>(s: Sema<T>, who: T)
    requires Sound(s) && who !in s.waiters
    ensures Sound(Down(s, who).0) && Up(Down(s, who).0).0 == s
    ensures Up(Down(s, who).0).1 == if s.val <= 0 then Some(who) else None
    ensures Down(s, who).0.val == s.val - 1
  {
    DownSound(s, who);
    assert ([who] + s.waiters)[1..] == s.waiters;
  }

  // ---------------------------------------------------------------------- all runs

  datatype SemOp<T> = DownBy(who: T) | UpBy

  /** Contexts that wait do not call `sem_down` again. */
  ghost predicate Possible<T>(s: Sema<T>, ops: seq<SemOp<T>>)
    requires Sound(s)
    decreases |ops|
  {
    ops == [] ||
    (match ops[0]
     case DownBy(who) => who !in s.waiters && (DownSound(s, who); Possible(Down(s, who).0, ops[1..]))
     case UpBy => (UpSound(s); Possible(Up(s).0, ops[1..])))
  }

  ghost function After<T>(s: Sema<T>, ops: seq<SemOp<T>>): (r: Sema<T>)
    requires Sound(s) && Possible(s, ops)
    ensures Sound(r)
    decreases |ops|
  {
    if ops == [] then s
    else
      match ops[0]
      case DownBy(who) => DownSound(s, who); After(Down(s, who).0, ops[1..])
      case UpBy => UpSound(s); After(Up(s).0, ops[1..])
  }

  function Ups<T>(ops: seq<SemOp<T>>): nat {
    if ops == [] then 0 else (if ops[0].UpBy? then 1 else 0) + Ups(ops[1..])
  }

  function Downs<T>(ops: seq<SemOp<T>>): nat {
    if ops == [] then 0 else (if ops[0].DownBy? then 1 else 0) + Downs(ops[1..])
  }

  lemma {:induction false} CompletedValue<T>(s: Sema<T>, ops: seq<SemOp<T>>)
    requires Sound(s) && Possible(s, ops)
    ensures After(s, ops).val == s.val - Downs(ops) + Ups(ops)
    decreases |ops|
  {
    if ops == [] {
    } else {
      match ops[0]
      case DownBy(who) => DownSound(s, who); CompletedValue(Down(s, who).0, ops[1..]);
      case UpBy => UpSound(s); CompletedValue(Up(s).0, ops[1..]);
    }
  }

  /** After any run the downs that have returned are never more than the initial value and
      the ups together; a down is still waiting only when they are all used up. */
  lemma CompletedDowns<T>(s: Sema<T>, ops: seq<SemOp<T>>)
    requires Sound(s) && Possible(s, ops) && s.val >= 0
    ensures Downs(ops) - |After(s, ops).waiters| <= s.val + Ups(ops)
    ensures After(s, ops).waiters != [] ==> Downs(ops) - |After(s, ops).waiters| == s.val + Ups(ops)
  {
    CompletedValue(s, ops);
  }
}
