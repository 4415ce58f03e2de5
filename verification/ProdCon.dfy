/** The producer/consumer protocol (src/ordonnancement/prod_con.c) as a step system: any
    number of producers and consumers, any interleaving. A context is blocked from the
    moment `sem_down` puts it on a waiter list, so it may be preempted before it yields;
    `cpt++` and `cpt--` are a load and a store with a preemption point between them. */
module ProdCon {
  import opened Bytes
  import opened Rings
  import opened Semaphore

  datatype Role = Producer | Consumer

  /** What a context does next. */
  datatype Pc = Want | Enter | Load | Store | Leave | Signal

  datatype Context = Context(role: Role, pc: Pc, blocked: bool, reg: int)

  datatype State = State(mutex: Sema<nat>, vide: Sema<nat>, plein: Sema<nat>, cpt: int, ctxs: seq<Context>)

  // ------------------------------------------------------------------------- steps

  /** The semaphores as `main` initialises them, nobody having started. */
  ghost predicate Init(s: State, n: nat) {
    && s.mutex == Sema(1, []) && s.vide == Sema(n, []) && s.plein == Sema(0, []) && s.cpt == 0
    && forall i | 0 <= i < |s.ctxs| :: s.ctxs[i].pc == Want && !s.ctxs[i].blocked
  }

  function Wake(ctxs: seq<Context>, who: Option<nat>): (r: seq<Context>)
    ensures |r| == |ctxs|
  {
    if who.Some? && who.value < |ctxs| then ctxs[who.value := ctxs[who.value].(blocked := false)] else ctxs
  }

  /** Context `i` moves on to `pc`, blocked or not. */
  function Goto(s: State, i: nat, pc: Pc, blocked: bool): State
    requires i < |s.ctxs|
  {
    s.(ctxs := s.ctxs[i := s.ctxs[i].(pc := pc, blocked := blocked)])
  }

  /** `sem_down` on the semaphore a producer (consumer) waits for: a free slot (an item). */
  function TakeToken(s: State, i: nat): State
    requires i < |s.ctxs|
  {
    if s.ctxs[i].role.Producer? then
      var (q, wait) := Down(s.vide, i);
      Goto(s, i, Enter, wait).(vide := q)
    else
      var (q, wait) := Down(s.plein, i);
      Goto(s, i, Enter, wait).(plein := q)
  }

  function TakeMutex(s: State, i: nat): State
    requires i < |s.ctxs|
  {
    var (q, wait) := Down(s.mutex, i);
    Goto(s, i, Load, wait).(mutex := q)
  }

  function LoadCpt(s: State, i: nat): State
    requires i < |s.ctxs|
  {
    s.(ctxs := s.ctxs[i := s.ctxs[i].(pc := Store, reg := s.cpt)])
  }

  /** The second half of `cpt++` in `mettre_objet`, of `cpt--` in `retirer_objet`. */
  function StoreCpt(s: State, i: nat): State
    requires i < |s.ctxs|
  {
    var c := s.ctxs[i];
    Goto(s, i, Leave, false).(cpt := if c.role.Producer? then c.reg + 1 else c.reg - 1)
  }

  function GiveMutex(s: State, i: nat): State
    requires i < |s.ctxs| && (s.mutex.val < 0 ==> s.mutex.waiters != [])
  {
    var (q, who) := Up(s.mutex);
    var t := Goto(s, i, Signal, false);
    t.(mutex := q, ctxs := Wake(t.ctxs, who))
  }

  /** `sem_up` on the other side's semaphore. */
  function GiveToken(s: State, i: nat): State
    requires i < |s.ctxs|
    requires s.vide.val < 0 ==> s.vide.waiters != []
    requires s.plein.val < 0 ==> s.plein.waiters != []
  {
    var t := Goto(s, i, Want, false);
    if s.ctxs[i].role.Producer? then
      var (q, who) := Up(s.plein);
      t.(plein := q, ctxs := Wake(t.ctxs, who))
    else
      var (q, who) := Up(s.vide);
      t.(vide := q, ctxs := Wake(t.ctxs, who))
  }

  /** A context that is not blocked does its next step. */
  function Step(s: State, i: nat): State
    requires i < |s.ctxs| && !s.ctxs[i].blocked
    requires s.mutex.val < 0 ==> s.mutex.waiters != []
    requires s.vide.val < 0 ==> s.vide.waiters != []
    requires s.plein.val < 0 ==> s.plein.waiters != []
  {
    match s.ctxs[i].pc
    case Want => TakeToken(s, i)
    case Enter => TakeMutex(s, i)
    case Load => LoadCpt(s, i)
    case Store => StoreCpt(s, i)
    case Leave => GiveMutex(s, i)
    case Signal => GiveToken(s, i)
  }

  // ---------------------------------------------------------------------- counting

  /** What the invariant counts. */
  datatype Measure = Critical | SlotsHeld | ItemsHeld | Outside | Of(role: Role) | Busy(role: Role)

  /** Whether a context counts: it has asked for the mutex and not given it back; it has
      asked for a slot it has not filled, or emptied one it has not announced; the same for
      items; it holds and has asked for nothing; it has this role; it has this role and is
      within a round. */
  predicate Counts(m: Measure, c: Context) {
    match m
    case Critical => c.pc in {Load, Store, Leave}
    case SlotsHeld => if c.role.Producer? then c.pc in {Enter, Load, Store} else c.pc in {Leave, Signal}
    case ItemsHeld => if c.role.Producer? then c.pc in {Leave, Signal} else c.pc in {Enter, Load, Store}
    case Outside => c.pc == Want
    case Of(role) => c.role == role
    case Busy(role) => c.role == role && c.pc != Want
  }

  function Count(m: Measure, ctxs: seq<Context>): nat {
    if ctxs == [] then 0 else (if Counts(m, ctxs[0]) then 1 else 0) + Count(m, ctxs[1..])
  }

  function One(m: Measure, c: Context): nat {
    if Counts(m, c) then 1 else 0
  }

  lemma {:induction false} CountUpdate(m: Measure, ctxs: seq<Context>, i: nat, c: Context)
    requires i < |ctxs|
    ensures Count(m, ctxs[i := c]) == Count(m, ctxs) - One(m, ctxs[i]) + One(m, c)
  {
    if i == 0 {
      assert ctxs[i := c][1..] == ctxs[1..];
    } else {
      assert ctxs[i := c][1..] == ctxs[1..][i - 1 := c];
      CountUpdate(m, ctxs[1..], i - 1, c);
    }
  }

  function NotCounted(m: Measure): (c: Context)
    ensures !Counts(m, c)
  {
    if m == Outside then Context(Producer, Load, false, 0)
    else if m == Of(Producer) then Context(Consumer, Want, false, 0)
    else Context(Producer, Want, false, 0)
  }

  /** Different contexts that count are counted. */
  lemma {:induction false} CountAtLeast(m: Measure, ctxs: seq<Context>, w: seq<nat>)
    requires Distinct(w) && forall k | 0 <= k < |w| :: w[k] < |ctxs| && Counts(m, ctxs[w[k]])
    ensures Count(m, ctxs) >= |w|
    decreases |w|
  {
    if w == [] {
    } else {
      var others := ctxs[w[0] := NotCounted(m)];
      CountUpdate(m, ctxs, w[0], NotCounted(m));
      forall k | 0 <= k < |w[1..]| ensures Counts(m, others[w[1..][k]]) {
        assert w[k + 1] != w[0];
      }
      CountAtLeast(m, others, w[1..]);
    }
  }

  lemma {:induction false} CountSame(m: Measure, m': Measure, ctxs: seq<Context>)
    requires forall i | 0 <= i < |ctxs| :: Counts(m, ctxs[i]) == Counts(m', ctxs[i])
    ensures Count(m, ctxs) == Count(m', ctxs)
  {
    if ctxs == [] {
    } else {
      CountSame(m, m', ctxs[1..]);
    }
  }

  lemma {:induction false} CountNone(m: Measure, ctxs: seq<Context>)
    requires forall i | 0 <= i < |ctxs| :: !Counts(m, ctxs[i])
    ensures Count(m, ctxs) == 0
  {
    if ctxs == [] {
    } else {
      CountNone(m, ctxs[1..]);
    }
  }

  /** Every context is outside or holds something. */
  lemma {:induction false} CountParts(ctxs: seq<Context>)
    ensures Count(SlotsHeld, ctxs) + Count(ItemsHeld, ctxs) + Count(Outside, ctxs) == |ctxs|
    ensures Count(Of(Producer), ctxs) + Count(Of(Consumer), ctxs) == |ctxs|
  {
    if ctxs == [] {
    } else {
      CountParts(ctxs[1..]);
    }
  }

  // --------------------------------------------------------------------- invariant

  /** What the values of the semaphores are made of. */
  ghost predicate Accounts(s: State, n: nat) {
    && s.mutex.val == 1 - Count(Critical, s.ctxs)
    && s.vide.val == n - s.cpt - Count(SlotsHeld, s.ctxs)
    && s.plein.val == s.cpt - Count(ItemsHeld, s.ctxs)
  }

  /** Context `i` is on the waiter lists exactly where it is blocked. */
  ghost predicate Listed(s: State, i: nat)
    requires i < |s.ctxs|
  {
    var c := s.ctxs[i];
    && (i in s.mutex.waiters <==> c.blocked && c.pc == Load)
    && (i in s.vide.waiters <==> c.blocked && c.pc == Enter && c.role.Producer?)
    && (i in s.plein.waiters <==> c.blocked && c.pc == Enter && c.role.Consumer?)
    && (c.blocked ==> c.pc == Enter || c.pc == Load)
    && (c.pc == Store ==> c.reg == s.cpt)
  }

  ghost predicate InRange(w: seq<nat>, n: nat) {
    forall k | 0 <= k < |w| :: w[k] < n
  }

  ghost predicate Inv(s: State, n: nat) {
    && Sound(s.mutex) && Sound(s.vide) && Sound(s.plein)
    && InRange(s.mutex.waiters, |s.ctxs|) && InRange(s.vide.waiters, |s.ctxs|) && InRange(s.plein.waiters, |s.ctxs|)
    && Accounts(s, n)
    && forall i: nat | i < |s.ctxs| :: Listed(s, i)
  }

  lemma InitInv(s: State, n: nat)
    requires Init(s, n)
    ensures Inv(s, n)
  {
    CountNone(Critical, s.ctxs);
    CountNone(SlotsHeld, s.ctxs);
    CountNone(ItemsHeld, s.ctxs);
  }

  /** The three counts after context `i` has become `c`. */
  lemma Recount(ctxs: seq<Context>, i: nat, c: Context)
    requires i < |ctxs|
    ensures forall m :: Count(m, ctxs[i := c]) == Count(m, ctxs) - One(m, ctxs[i]) + One(m, c)
  {
    forall m ensures Count(m, ctxs[i := c]) == Count(m, ctxs) - One(m, ctxs[i]) + One(m, c) {
      CountUpdate(m, ctxs, i, c);
    }
  }

  lemma TakeTokenKeeps(s: State, n: nat, i: nat)
    requires Inv(s, n) && i < |s.ctxs| && !s.ctxs[i].blocked && s.ctxs[i].pc == Want
    ensures Inv(TakeToken(s, i), n)
  {
    assert Listed(s, i);
    var t := TakeToken(s, i);
    Recount(s.ctxs, i, t.ctxs[i]);
    if s.ctxs[i].role.Producer? { DownSound(s.vide, i); } else { DownSound(s.plein, i); }
    forall k: nat | k < |t.ctxs| ensures Listed(t, k) {
      assert Listed(s, k);
    }
  }

  lemma TakeMutexKeeps(s: State, n: nat, i: nat)
    requires Inv(s, n) && i < |s.ctxs| && !s.ctxs[i].blocked && s.ctxs[i].pc == Enter
    ensures Inv(TakeMutex(s, i), n)
  {
    assert Listed(s, i);
    var t := TakeMutex(s, i);
    Recount(s.ctxs, i, t.ctxs[i]);
    DownSound(s.mutex, i);
    forall k: nat | k < |t.ctxs| ensures Listed(t, k) {
      assert Listed(s, k);
    }
  }

  /** Two contexts between `sem_down(&mutex)` and `sem_up(&mutex)` are one. */
  lemma Exclusion(s: State, n: nat, i: nat, j: nat)
    requires Inv(s, n) && i < |s.ctxs| && j < |s.ctxs|
    requires Counts(Critical, s.ctxs[i]) && !s.ctxs[i].blocked
    requires Counts(Critical, s.ctxs[j]) && !s.ctxs[j].blocked
    ensures i == j
  {
    assert Listed(s, i) && Listed(s, j);
    if i != j {
      var w := [i, j] + s.mutex.waiters;
      forall k | 0 <= k < |w| ensures w[k] < |s.ctxs| && Counts(Critical, s.ctxs[w[k]]) {
        assert k >= 2 ==> w[k] in s.mutex.waiters && Listed(s, w[k]);
      }
      CountAtLeast(Critical, s.ctxs, w);
    }
  }

  lemma LoadKeeps(s: State, n: nat, i: nat)
    requires Inv(s, n) && i < |s.ctxs| && !s.ctxs[i].blocked && s.ctxs[i].pc == Load
    ensures Inv(LoadCpt(s, i), n)
  {
    var t := LoadCpt(s, i);
    Recount(s.ctxs, i, t.ctxs[i]);
    forall k: nat | k < |t.ctxs| ensures Listed(t, k) {
      assert Listed(s, k);
    }
  }

  lemma StoreKeeps(s: State, n: nat, i: nat)
    requires Inv(s, n) && i < |s.ctxs| && !s.ctxs[i].blocked && s.ctxs[i].pc == Store
    ensures Inv(StoreCpt(s, i), n)
  {
    assert Listed(s, i);
    var t := StoreCpt(s, i);
    Recount(s.ctxs, i, t.ctxs[i]);
    forall k: nat | k < |t.ctxs| ensures Listed(t, k) {
      assert Listed(s, k);
      if s.ctxs[k].pc == Store {
        Exclusion(s, n, i, k);
      }
    }
  }

  /** Waking whoever an up has chosen changes no count, and puts the lists right. */
  lemma WakeCounts(ctxs: seq<Context>, who: Option<nat>)
    ensures forall m :: Count(m, Wake(ctxs, who)) == Count(m, ctxs)
  {
    if who.Some? && who.value < |ctxs| {
      Recount(ctxs, who.value, ctxs[who.value].(blocked := false));
    }
  }

  lemma GiveMutexKeeps(s: State, n: nat, i: nat)
    requires Inv(s, n) && i < |s.ctxs| && !s.ctxs[i].blocked && s.ctxs[i].pc == Leave
    ensures Inv(GiveMutex(s, i), n)
  {
    var t := GiveMutex(s, i);
    var moved := Goto(s, i, Signal, false).ctxs;
    Recount(s.ctxs, i, moved[i]);
    WakeCounts(moved, Up(s.mutex).1);
    UpSound(s.mutex);
    forall k: nat | k < |t.ctxs| ensures Listed(t, k) {
      assert Listed(s, k) && Listed(s, i);
    }
  }

  lemma GiveTokenKeeps(s: State, n: nat, i: nat)
    requires Inv(s, n) && i < |s.ctxs| && !s.ctxs[i].blocked && s.ctxs[i].pc == Signal
    ensures Inv(GiveToken(s, i), n)
  {
    var t := GiveToken(s, i);
    var moved := Goto(s, i, Want, false).ctxs;
    var q := if s.ctxs[i].role.Producer? then s.plein else s.vide;
    Recount(s.ctxs, i, moved[i]);
    WakeCounts(moved, Up(q).1);
    UpSound(q);
    forall k: nat | k < |t.ctxs| ensures Listed(t, k) {
      assert Listed(s, k) && Listed(s, i);
    }
  }

  lemma StepKeeps(s: State, n: nat, i: nat)
    requires Inv(s, n) && i < |s.ctxs| && !s.ctxs[i].blocked
    ensures Inv(Step(s, i), n)
  {
    match s.ctxs[i].pc
    case Want => TakeTokenKeeps(s, n, i);
    case Enter => TakeMutexKeeps(s, n, i);
    case Load => LoadKeeps(s, n, i);
    case Store => StoreKeeps(s, n, i);
    case Leave => GiveMutexKeeps(s, n, i);
    case Signal => GiveTokenKeeps(s, n, i);
  }

  // ---------------------------------------------------------------------- all runs

  /** The next context of a schedule can move. */
  predicate Moves(s: State, schedule: seq<nat>) {
    schedule != [] && schedule[0] < |s.ctxs| && !s.ctxs[schedule[0]].blocked
  }

  /** The state after the contexts of `schedule` have taken a step each, in that order; a
      context that is blocked or does not exist is never chosen. */
  ghost function Interleave(s: State, n: nat, schedule: seq<nat>): (r: State)
    requires Inv(s, n)
    ensures Inv(r, n)
    decreases |schedule|
  {
    if schedule == [] then s
    else if Moves(s, schedule) then
      StepKeeps(s, n, schedule[0]);
      Interleave(Step(s, schedule[0]), n, schedule[1..])
    else Interleave(s, n, schedule[1..])
  }

  /** Contexts that neither stay outside nor wait for a slot or an item. */
  function InFlight(s: State): int {
    |s.ctxs| - Count(Outside, s.ctxs) - |s.vide.waiters| - |s.plein.waiters|
  }

  function Positive(v: int): nat {
    if v > 0 then v else 0
  }

  lemma WaitersHold(s: State, n: nat)
    requires Inv(s, n)
    ensures Count(SlotsHeld, s.ctxs) >= |s.vide.waiters|
    ensures Count(ItemsHeld, s.ctxs) >= |s.plein.waiters|
  {
    forall k | 0 <= k < |s.vide.waiters| ensures Counts(SlotsHeld, s.ctxs[s.vide.waiters[k]]) {
      assert Listed(s, s.vide.waiters[k]);
    }
    CountAtLeast(SlotsHeld, s.ctxs, s.vide.waiters);
    forall k | 0 <= k < |s.plein.waiters| ensures Counts(ItemsHeld, s.ctxs[s.plein.waiters[k]]) {
      assert Listed(s, s.plein.waiters[k]);
    }
    CountAtLeast(ItemsHeld, s.ctxs, s.plein.waiters);
  }

  /** For any number of producers and consumers and after any interleaving: the counter
      stays within the buffer, at most one context is past the mutex, and free slots,
      items and tokens in flight add up to the size of the buffer. */
  lemma BufferSafety(s0: State, n: nat, schedule: seq<nat>, i: nat, j: nat)
    requires Init(s0, n)
    ensures Inv(s0, n)
    ensures var s := Interleave(s0, n, schedule);
            && 0 <= s.cpt <= n
            && Positive(s.vide.val) + Positive(s.plein.val) + InFlight(s) == n
            && InFlight(s) >= 0
            && (i < |s.ctxs| && j < |s.ctxs| && i != j
                && Counts(Critical, s.ctxs[i]) && Counts(Critical, s.ctxs[j]) ==>
                  s.ctxs[i].blocked || s.ctxs[j].blocked)
  {
    InitInv(s0, n);
    var s := Interleave(s0, n, schedule);
    WaitersHold(s, n);
    CountParts(s.ctxs);
    if i < |s.ctxs| && j < |s.ctxs| && Counts(Critical, s.ctxs[i]) && Counts(Critical, s.ctxs[j])
       && !s.ctxs[i].blocked && !s.ctxs[j].blocked {
      Exclusion(s, n, i, j);
    }
  }

  /** A context is blocked exactly when it is on one waiter list, and then on one only. */
  lemma BlockedOnOne(s0: State, n: nat, schedule: seq<nat>, i: nat)
    requires Init(s0, n) && i < |s0.ctxs|
    ensures Inv(s0, n) && |Interleave(s0, n, schedule).ctxs| == |s0.ctxs|
    ensures var s := Interleave(s0, n, schedule);
            && (s.ctxs[i].blocked ==>
                  (if i in s.mutex.waiters then 1 else 0) + (if i in s.vide.waiters then 1 else 0)
                  + (if i in s.plein.waiters then 1 else 0) == 1)
            && (!s.ctxs[i].blocked ==> i !in s.mutex.waiters && i !in s.vide.waiters && i !in s.plein.waiters)
  {
    InitInv(s0, n);
    SameContexts(s0, n, schedule);
    assert Listed(Interleave(s0, n, schedule), i);
  }

  lemma StepSame(s: State, i: nat)
    requires i < |s.ctxs| && !s.ctxs[i].blocked
    requires s.mutex.val < 0 ==> s.mutex.waiters != []
    requires s.vide.val < 0 ==> s.vide.waiters != []
    requires s.plein.val < 0 ==> s.plein.waiters != []
    ensures |Step(s, i).ctxs| == |s.ctxs|
    ensures forall k | 0 <= k < |s.ctxs| :: Step(s, i).ctxs[k].role == s.ctxs[k].role
  {
    match s.ctxs[i].pc
    case Want =>
    case Enter =>
    case Load =>
    case Store =>
    case Leave =>
    case Signal =>
  }

  lemma {:induction false} SameContexts(s: State, n: nat, schedule: seq<nat>)
    requires Inv(s, n)
    ensures |Interleave(s, n, schedule).ctxs| == |s.ctxs|
    ensures forall k | 0 <= k < |s.ctxs| :: Interleave(s, n, schedule).ctxs[k].role == s.ctxs[k].role
    decreases |schedule|
  {
    if schedule == [] {
    } else if Moves(s, schedule) {
      StepKeeps(s, n, schedule[0]);
      StepSame(s, schedule[0]);
      SameContexts(Step(s, schedule[0]), n, schedule[1..]);
    } else {
      SameContexts(s, n, schedule[1..]);
    }
  }

  // ---------------------------------------------------------------------- deadlock

  ghost predicate AllBlocked(s: State) {
    forall i | 0 <= i < |s.ctxs| :: s.ctxs[i].blocked
  }

  /** If nobody can move, everybody waits for a slot or an item. */
  lemma AllAtEnter(s: State, n: nat)
    requires Inv(s, n) && AllBlocked(s)
    ensures forall i | 0 <= i < |s.ctxs| :: s.ctxs[i].pc == Enter
  {
    if s.mutex.waiters != [] {
      MutexHeld(s, n);
    }
    forall i: nat | i < |s.ctxs| ensures s.ctxs[i].pc == Enter {
      assert Listed(s, i);
    }
  }

  /** Where somebody waits for the mutex, somebody who does not wait holds it. */
  lemma MutexHeld(s: State, n: nat)
    requires Inv(s, n) && s.mutex.waiters != []
    ensures exists i: nat :: i < |s.ctxs| && Counts(Critical, s.ctxs[i]) && !s.ctxs[i].blocked
  {
    if forall i: nat | i < |s.ctxs| && Counts(Critical, s.ctxs[i]) :: s.ctxs[i].blocked {
      forall i: nat | i < |s.ctxs| && Counts(Critical, s.ctxs[i]) ensures i in s.mutex.waiters {
        assert Listed(s, i);
      }
      CountAtMost(Critical, s.ctxs, s.mutex.waiters);
    }
  }

  /** No more contexts count than a list that names them all is long. */
  lemma {:induction false} CountAtMost(m: Measure, ctxs: seq<Context>, w: seq<nat>)
    requires InRange(w, |ctxs|)
    requires forall i: nat | i < |ctxs| && Counts(m, ctxs[i]) :: i in w
    ensures Count(m, ctxs) <= |w|
    decreases |w|
  {
    if w == [] {
      CountNone(m, ctxs);
    } else {
      var others := ctxs[w[0] := NotCounted(m)];
      CountUpdate(m, ctxs, w[0], NotCounted(m));
      CountAtMost(m, others, w[1..]);
    }
  }

  /** When everybody waits for a slot or an item there are neither. */
  lemma AllWait(s: State, n: nat)
    requires Inv(s, n) && AllBlocked(s) && forall i | 0 <= i < |s.ctxs| :: s.ctxs[i].pc == Enter
    ensures Count(Of(Producer), s.ctxs) > 0 ==> s.cpt >= n
    ensures Count(Of(Consumer), s.ctxs) > 0 ==> s.cpt <= 0
  {
    CountSame(SlotsHeld, Of(Producer), s.ctxs);
    CountSame(ItemsHeld, Of(Consumer), s.ctxs);
    forall i: nat | i < |s.ctxs|
      ensures if s.ctxs[i].role.Producer? then i in s.vide.waiters else i in s.plein.waiters
    {
      assert Listed(s, i);
    }
    CountAtMost(SlotsHeld, s.ctxs, s.vide.waiters);
    CountAtMost(ItemsHeld, s.ctxs, s.plein.waiters);
  }

  /** With room in the buffer and somebody on each side, there is always a context that is
      not blocked. */
  lemma DeadlockFreedom(s0: State, n: nat, schedule: seq<nat>)
    requires Init(s0, n) && n > 0
    requires Count(Of(Producer), s0.ctxs) > 0 && Count(Of(Consumer), s0.ctxs) > 0
    ensures Inv(s0, n) && !AllBlocked(Interleave(s0, n, schedule))
  {
    InitInv(s0, n);
    SameContexts(s0, n, schedule);
    var s := Interleave(s0, n, schedule);
    SameRoles(s0.ctxs, s.ctxs);
    if AllBlocked(s) {
      AllAtEnter(s, n);
      AllWait(s, n);
    }
  }

  lemma {:induction false} SameRoles(a: seq<Context>, b: seq<Context>)
    requires |a| == |b| && forall k | 0 <= k < |a| :: a[k].role == b[k].role
    ensures forall role :: Count(Of(role), a) == Count(Of(role), b)
  {
    if a == [] {
    } else {
      SameRoles(a[1..], b[1..]);
    }
  }

  // ---------------------------------------------------------------------- progress

  datatype Which = Mutex | Vide | Plein

  function Value(s: State, w: Which): int {
    match w case Mutex => s.mutex.val case Vide => s.vide.val case Plein => s.plein.val
  }

  /** What a context at `pc` adds to a semaphore with its next step. */
  function Effect(role: Role, pc: Pc, w: Which): int {
    match w
    case Mutex => if pc == Enter then -1 else if pc == Leave then 1 else 0
    case Vide => if role.Producer? && pc == Want then -1 else if role.Consumer? && pc == Signal then 1 else 0
    case Plein => if role.Consumer? && pc == Want then -1 else if role.Producer? && pc == Signal then 1 else 0
  }

  lemma StepValues(s: State, n: nat, i: nat)
    requires Inv(s, n) && i < |s.ctxs| && !s.ctxs[i].blocked
    ensures var t, c := Step(s, i), s.ctxs[i];
            && (forall w: Which :: Value(t, w) == Value(s, w) + Effect(c.role, c.pc, w))
            && t.cpt == s.cpt + if c.pc != Store then 0 else if c.role.Producer? then 1 else -1
  {
    assert Listed(s, i);
    match s.ctxs[i].pc
    case Want =>
    case Enter =>
    case Load =>
    case Store =>
    case Leave =>
    case Signal =>
  }

  /** What every step does: its context goes on to the next of the six places, the last one
      being followed by the first; it changes exactly the semaphore of that place, by one,
      and waits exactly if that has become negative; the counter changes by one with the
      store; of the others at most one goes on from where it waits. */
  lemma StepDoes(s: State, n: nat, i: nat)
    requires Inv(s, n) && i < |s.ctxs| && !s.ctxs[i].blocked
    ensures |Step(s, i).ctxs| == |s.ctxs|
    ensures var t, c := Step(s, i), s.ctxs[i];
            && t.ctxs[i].role == c.role
            && (c.pc == Want ==> t.ctxs[i].pc == Enter) && (c.pc == Enter ==> t.ctxs[i].pc == Load)
            && (c.pc == Load ==> t.ctxs[i].pc == Store) && (c.pc == Store ==> t.ctxs[i].pc == Leave)
            && (c.pc == Leave ==> t.ctxs[i].pc == Signal) && (c.pc == Signal ==> t.ctxs[i].pc == Want)
            && (t.ctxs[i].blocked <==>
                  || (c.pc == Want && Value(t, if c.role.Producer? then Vide else Plein) < 0)
                  || (c.pc == Enter && Value(t, Mutex) < 0))
            && (forall w: Which :: Value(t, w) == Value(s, w) + Effect(c.role, c.pc, w))
            && t.cpt == s.cpt + if c.pc != Store then 0 else if c.role.Producer? then 1 else -1
    ensures forall k | 0 <= k < |s.ctxs| && k != i ::
              Step(s, i).ctxs[k] == s.ctxs[k] || Step(s, i).ctxs[k] == s.ctxs[k].(blocked := false)
  {
    StepValues(s, n, i);
    assert Listed(s, i);
    hide Inv, Sound, Count, Effect, Listed;
    match s.ctxs[i].pc
    case Want =>
    case Enter =>
    case Load =>
    case Store =>
    case Leave =>
    case Signal =>
  }

  /** How many steps a schedule makes. */
  ghost function Steps(s: State, n: nat, schedule: seq<nat>): nat
    requires Inv(s, n)
    decreases |schedule|
  {
    if schedule == [] then 0
    else if Moves(s, schedule) then
      StepKeeps(s, n, schedule[0]);
      1 + Steps(Step(s, schedule[0]), n, schedule[1..])
    else Steps(s, n, schedule[1..])
  }

  /** How often, in the course of a schedule, a context of that role gets from its last
      place back to its first. */
  ghost function Rounds(s: State, n: nat, schedule: seq<nat>, role: Role): nat
    requires Inv(s, n)
    decreases |schedule|
  {
    if schedule == [] then 0
    else if Moves(s, schedule) then
      var i := schedule[0];
      StepKeeps(s, n, i);
      StepDoes(s, n, i);
      var t := Step(s, i);
      (if s.ctxs[i].role == role && s.ctxs[i].pc == Signal && t.ctxs[i].pc == Want then 1 else 0)
      + Rounds(t, n, schedule[1..], role)
    else Rounds(s, n, schedule[1..], role)
  }

  /** How often the value of a semaphore goes up. */
  ghost function Ups(s: State, n: nat, schedule: seq<nat>, w: Which): nat
    requires Inv(s, n)
    decreases |schedule|
  {
    if schedule == [] then 0
    else if Moves(s, schedule) then
      StepKeeps(s, n, schedule[0]);
      var t := Step(s, schedule[0]);
      (if Value(t, w) > Value(s, w) then 1 else 0) + Ups(t, n, schedule[1..], w)
    else Ups(s, n, schedule[1..], w)
  }

  /** Every completed round of a producer is one up of `plein`, and every completed round of
      a consumer one up of `vide`. */
  lemma {:induction false} RoundsAreUps(s: State, n: nat, schedule: seq<nat>)
    requires Inv(s, n)
    ensures Ups(s, n, schedule, Plein) == Rounds(s, n, schedule, Producer)
    ensures Ups(s, n, schedule, Vide) == Rounds(s, n, schedule, Consumer)
    decreases |schedule|
  {
    if schedule == [] {
    } else if Moves(s, schedule) {
      var t := Step(s, schedule[0]);
      StepKeeps(s, n, schedule[0]);
      hide Step, Inv;
      StepDoes(s, n, schedule[0]);
      RoundsAreUps(t, n, schedule[1..]);
    } else {
      RoundsAreUps(s, n, schedule[1..]);
    }
  }

  /** How many places a context has before it: a producer to its first, a consumer through
      its round. */
  function Before(c: Context): nat {
    match c.pc
    case Want => if c.role.Producer? then 0 else 6
    case Enter => 5
    case Load => 4
    case Store => 3
    case Leave => 2
    case Signal => 1
  }

  function AllBefore(ctxs: seq<Context>): nat {
    if ctxs == [] then 0 else Before(ctxs[0]) + AllBefore(ctxs[1..])
  }

  lemma {:induction false} BeforeUpdate(ctxs: seq<Context>, i: nat, c: Context)
    requires i < |ctxs|
    ensures AllBefore(ctxs[i := c]) == AllBefore(ctxs) - Before(ctxs[i]) + Before(c)
  {
    if i == 0 {
      assert ctxs[i := c][1..] == ctxs[1..];
    } else {
      assert ctxs[i := c][1..] == ctxs[1..][i - 1 := c];
      BeforeUpdate(ctxs[1..], i - 1, c);
    }
  }

  lemma {:induction false} BeforeSame(a: seq<Context>, b: seq<Context>)
    requires |a| == |b| && forall k | 0 <= k < |a| :: Before(a[k]) == Before(b[k])
    ensures AllBefore(a) == AllBefore(b)
  {
    if a == [] {
    } else {
      BeforeSame(a[1..], b[1..]);
    }
  }

  lemma {:induction false} BeforeBound(ctxs: seq<Context>)
    ensures AllBefore(ctxs) <= 6 * |ctxs|
  {
    if ctxs == [] {
    } else {
      BeforeBound(ctxs[1..]);
    }
  }

  /** How many steps can be made without a consumer's completing its round: six for every
      free slot, and those the contexts are in the middle of. */
  function Ahead(s: State): int {
    6 * (s.vide.val + |s.ctxs|) + AllBefore(s.ctxs)
  }

  lemma AheadBound(s: State, n: nat)
    requires Inv(s, n)
    ensures Ahead(s) >= 0
  {
    WaitersHold(s, n);
    CountParts(s.ctxs);
  }

  /** Every step comes nearer to a consumer's completing its round, or is that. */
  lemma StepAhead(s: State, n: nat, i: nat)
    requires Inv(s, n) && i < |s.ctxs| && !s.ctxs[i].blocked
    ensures Ahead(Step(s, i)) ==
            Ahead(s) - 1 + if s.ctxs[i].role.Consumer? && s.ctxs[i].pc.Signal? then 12 else 0
  {
    StepDoes(s, n, i);
    var t := Step(s, i);
    hide Step, Inv;
    BeforeUpdate(s.ctxs, i, t.ctxs[i]);
    BeforeSame(s.ctxs[i := t.ctxs[i]], t.ctxs);
    assert Value(t, Vide) == Value(s, Vide) + Effect(s.ctxs[i].role, s.ctxs[i].pc, Vide);
  }

  /** Whoever is scheduled: the steps made are the places the contexts have got on, and
      there are not more than twelve for every round the consumers complete, but for
      those that were ahead at the start. */
  lemma {:induction false} StepsAccounted(s: State, n: nat, schedule: seq<nat>)
    requires Inv(s, n)
    ensures Steps(s, n, schedule) ==
            Ahead(s) - Ahead(Interleave(s, n, schedule)) + 12 * Rounds(s, n, schedule, Consumer)
    decreases |schedule|
  {
    if schedule == [] {
    } else if Moves(s, schedule) {
      var t := Step(s, schedule[0]);
      StepKeeps(s, n, schedule[0]);
      hide Step, Inv, Ahead;
      StepDoes(s, n, schedule[0]);
      StepAhead(s, n, schedule[0]);
      StepsAccounted(t, n, schedule[1..]);
    } else {
      StepsAccounted(s, n, schedule[1..]);
    }
  }

  /** No livelock: in any interleaving of any number of contexts, all steps but the first
      6 n + 12 for each context bring a completed round of a consumer for every twelve. */
  lemma NoLivelock(s0: State, n: nat, schedule: seq<nat>)
    requires Init(s0, n)
    ensures Inv(s0, n)
    ensures Steps(s0, n, schedule) <= 6 * n + 12 * |s0.ctxs| + 12 * Rounds(s0, n, schedule, Consumer)
  {
    InitInv(s0, n);
    StepsAccounted(s0, n, schedule);
    AheadBound(Interleave(s0, n, schedule), n);
    BeforeBound(s0.ctxs);
  }

  /** Somebody can move in any state that satisfies the invariant. */
  lemma SomebodyMoves(s: State, n: nat) returns (i: nat)
    requires Inv(s, n) && n > 0 && Count(Of(Producer), s.ctxs) > 0 && Count(Of(Consumer), s.ctxs) > 0
    ensures i < |s.ctxs| && !s.ctxs[i].blocked
  {
    if AllBlocked(s) {
      AllAtEnter(s, n);
      AllWait(s, n);
    }
    i :| 0 <= i < |s.ctxs| && !s.ctxs[i].blocked;
  }

  /** Progress: from every state some schedule completes one more round of a consumer. */
  lemma {:induction false} Progress(s: State, n: nat) returns (schedule: seq<nat>)
    requires Inv(s, n) && n > 0 && Count(Of(Producer), s.ctxs) > 0 && Count(Of(Consumer), s.ctxs) > 0
    ensures Rounds(s, n, schedule, Consumer) == 1
    decreases Ahead(s) + 1
  {
    var i := SomebodyMoves(s, n);
    StepKeeps(s, n, i);
    StepDoes(s, n, i);
    StepAhead(s, n, i);
    AheadBound(s, n);
    var t := Step(s, i);
    if s.ctxs[i].role.Consumer? && s.ctxs[i].pc.Signal? {
      schedule := [i];
      assert schedule[1..] == [];
    } else {
      SameRoles(s.ctxs, t.ctxs);
      var rest := Progress(t, n);
      schedule := [i] + rest;
      assert schedule[1..] == rest;
    }
  }

  lemma {:induction false} RoundsJoin(s: State, n: nat, schedule: seq<nat>, more: seq<nat>, role: Role)
    requires Inv(s, n)
    ensures Rounds(s, n, schedule + more, role) ==
            Rounds(s, n, schedule, role) + Rounds(Interleave(s, n, schedule), n, more, role)
    decreases |schedule|
  {
    if schedule == [] {
      assert schedule + more == more;
    } else {
      assert (schedule + more)[0] == schedule[0] && (schedule + more)[1..] == schedule[1..] + more;
      if Moves(s, schedule) {
        StepKeeps(s, n, schedule[0]);
        StepDoes(s, n, schedule[0]);
        RoundsJoin(Step(s, schedule[0]), n, schedule[1..], more, role);
      } else {
        RoundsJoin(s, n, schedule[1..], more, role);
      }
    }
  }

  /** However a run has begun, with room in the buffer, a producer and a consumer it can be
      continued so that the consumers complete a round more. */
  lemma AlwaysProgress(s0: State, n: nat, schedule: seq<nat>) returns (more: seq<nat>)
    requires Init(s0, n) && n > 0
    requires Count(Of(Producer), s0.ctxs) > 0 && Count(Of(Consumer), s0.ctxs) > 0
    ensures Inv(s0, n)
    ensures Rounds(s0, n, schedule + more, Consumer) == Rounds(s0, n, schedule, Consumer) + 1
  {
    InitInv(s0, n);
    SameContexts(s0, n, schedule);
    var s := Interleave(s0, n, schedule);
    SameRoles(s0.ctxs, s.ctxs);
    more := Progress(s, n);
    RoundsJoin(s0, n, schedule, more, Consumer);
  }

  // ---------------------------------------------------------------- rounds compared

  lemma BusyUpdate(s: State, n: nat, i: nat, role: Role)
    requires Inv(s, n) && i < |s.ctxs| && !s.ctxs[i].blocked
    ensures Count(Busy(role), Step(s, i).ctxs) == Count(Busy(role), s.ctxs)
            + (if s.ctxs[i].role == role && s.ctxs[i].pc == Want then 1 else 0)
            - (if s.ctxs[i].role == role && s.ctxs[i].pc == Signal then 1 else 0)
  {
    StepDoes(s, n, i);
    var t := Step(s, i);
    hide Step, Inv;
    CountUpdate(Busy(role), s.ctxs, i, t.ctxs[i]);
    CountAlike(Busy(role), s.ctxs[i := t.ctxs[i]], t.ctxs);
  }

  lemma {:induction false} CountAlike(m: Measure, a: seq<Context>, b: seq<Context>)
    requires |a| == |b| && forall k | 0 <= k < |a| :: Counts(m, a[k]) == Counts(m, b[k])
    ensures Count(m, a) == Count(m, b)
  {
    if a == [] {
    } else {
      CountAlike(m, a[1..], b[1..]);
    }
  }

  /** The tokens of a side and its contexts within a round: only the end of a round, of
      either side, changes their sum. */
  lemma StepTokens(s: State, n: nat, i: nat)
    requires Inv(s, n) && i < |s.ctxs| && !s.ctxs[i].blocked
    ensures var t, c := Step(s, i), s.ctxs[i];
            var p := if c.pc != Signal then 0 else if c.role.Producer? then 1 else -1;
            && t.vide.val + Count(Busy(Producer), t.ctxs) == s.vide.val + Count(Busy(Producer), s.ctxs) - p
            && t.plein.val + Count(Busy(Consumer), t.ctxs) == s.plein.val + Count(Busy(Consumer), s.ctxs) + p
  {
    var t, c := Step(s, i), s.ctxs[i];
    hide Step, Inv, Count;
    StepDoes(s, n, i);
    BusyUpdate(s, n, i, Producer);
    BusyUpdate(s, n, i, Consumer);
    assert Value(t, Vide) == Value(s, Vide) + Effect(c.role, c.pc, Vide);
    assert Value(t, Plein) == Value(s, Plein) + Effect(c.role, c.pc, Plein);
  }

  /** The values of `vide` and `plein` in terms of rounds: those completed on the other
      side have been added, those begun on the own side taken away. */
  lemma {:induction false} TokensAccounted(s: State, n: nat, schedule: seq<nat>)
    requires Inv(s, n)
    ensures var t := Interleave(s, n, schedule);
            var p, c := Rounds(s, n, schedule, Producer), Rounds(s, n, schedule, Consumer);
            && t.vide.val + Count(Busy(Producer), t.ctxs) == s.vide.val + Count(Busy(Producer), s.ctxs) + c - p
            && t.plein.val + Count(Busy(Consumer), t.ctxs) == s.plein.val + Count(Busy(Consumer), s.ctxs) + p - c
    decreases |schedule|
  {
    if schedule == [] {
    } else if Moves(s, schedule) {
      var t := Step(s, schedule[0]);
      StepKeeps(s, n, schedule[0]);
      hide Step, Inv, Count, Effect;
      StepDoes(s, n, schedule[0]);
      StepTokens(s, n, schedule[0]);
      TokensAccounted(t, n, schedule[1..]);
    } else {
      TokensAccounted(s, n, schedule[1..]);
    }
  }

  /** Whoever waits for a slot or an item is within a round. */
  lemma WaitersBusy(s: State, n: nat)
    requires Inv(s, n)
    ensures s.vide.val + Count(Busy(Producer), s.ctxs) >= 0
    ensures s.plein.val + Count(Busy(Consumer), s.ctxs) >= 0
  {
    forall k | 0 <= k < |s.vide.waiters| ensures Counts(Busy(Producer), s.ctxs[s.vide.waiters[k]]) {
      assert Listed(s, s.vide.waiters[k]);
    }
    CountAtLeast(Busy(Producer), s.ctxs, s.vide.waiters);
    forall k | 0 <= k < |s.plein.waiters| ensures Counts(Busy(Consumer), s.ctxs[s.plein.waiters[k]]) {
      assert Listed(s, s.plein.waiters[k]);
    }
    CountAtLeast(Busy(Consumer), s.ctxs, s.plein.waiters);
  }

  /** After any interleaving the consumers have not completed more rounds than the
      producers, and the producers at most `n` more than the consumers. */
  lemma RoundsApart(s0: State, n: nat, schedule: seq<nat>)
    requires Init(s0, n)
    ensures Inv(s0, n)
    ensures 0 <= Rounds(s0, n, schedule, Producer) - Rounds(s0, n, schedule, Consumer) <= n
  {
    InitInv(s0, n);
    CountNone(Busy(Producer), s0.ctxs);
    CountNone(Busy(Consumer), s0.ctxs);
    TokensAccounted(s0, n, schedule);
    WaitersBusy(Interleave(s0, n, schedule), n);
  }
}
