/** The allocation state of a mounted volume and its list of free runs
    (src/disque/filesystem.c:233-279).

    A state is the blocks of the volume, the superblock held in memory, and two records
    kept only for the proofs: which structure owns each block, and the runs met when the
    on-disk list is walked. */
module FreeList {
  import opened Bytes
  import opened Codec

  // ------------------------------------------------------------------- states

  /** The four kinds of block that hang from an inode. */
  datatype Level = Indirect | Double | Second | Data

  /** `Owned(level, parent, slot)`: pointer number `slot` of block `parent` leads here. */
  datatype Owner = Unused | Reserved | Superblock | Root | Owned(level: Level, parent: nat, slot: nat)

  datatype Runs = End | Run(start: nat, len: nat, rest: Runs)

  datatype State = State(blocks: seq<Block>, sb: Super, owner: seq<Owner>, runs: Runs)

  function HeadOf(r: Runs): nat {
    if r.End? then 0 else r.start
  }

  ghost predicate Has(r: Runs, b: nat) {
    r.Run? && (r.start <= b < r.start + r.len || Has(r.rest, b))
  }

  function Total(r: Runs): nat {
    if r.End? then 0 else r.len + Total(r.rest)
  }

  ghost function FreeSet(r: Runs): (s: set<nat>)
    ensures forall b :: b in s <==> Has(r, b)
  {
    if r.End? then {} else Interval(r.start, r.len) + FreeSet(r.rest)
  }

  /** Walking the on-disk list from its head meets exactly the runs of `r`: every header
      carries the magic, the run's length and the next head; no block is met twice. */
  ghost predicate Chain(blocks: seq<Block>, r: Runs) {
    r.End? ||
    (&& 1 <= r.start && 1 <= r.len && r.start + r.len <= |blocks|
     && DecodeFree(blocks[r.start]) == Some(FreeRun(r.len, HeadOf(r.rest)))
     && (forall b | r.start <= b < r.start + r.len :: !Has(r.rest, b))
     && Chain(blocks, r.rest))
  }

  /** The part of the invariant `new_bloc` and `free_bloc` rely on. */
  ghost predicate FreeInv(s: State) {
    && 2 <= |s.blocks| == |s.owner| <= 65535
    && SuperValid(s.sb)
    && s.blocks[0] == EncodeSuper(s.sb)
    && Chain(s.blocks, s.runs)
    && s.sb.firstFree == HeadOf(s.runs)
    && s.sb.nbFree == Total(s.runs)
    && (forall b: nat {:trigger Has(s.runs, b)} | b < |s.owner| :: Has(s.runs, b) <==> s.owner[b].Unused?)
    && s.owner[0].Superblock?
  }

  // -------------------------------------------------------- facts about chains

  lemma {:induction false} ChainHas(blocks: seq<Block>, r: Runs, b: nat)
    requires Chain(blocks, r) && Has(r, b)
    ensures 1 <= b < |blocks|
  {
    if r.start <= b < r.start + r.len {
    } else {
      ChainHas(blocks, r.rest, b);
    }
  }

  /** Only the blocks of the list itself matter to the list. */
  lemma {:induction false} ChainFrame(blocks: seq<Block>, blocks': seq<Block>, r: Runs)
    requires Chain(blocks, r) && |blocks'| == |blocks|
    requires forall b: nat | Has(r, b) && b < |blocks| :: blocks'[b] == blocks[b]
    ensures Chain(blocks', r)
  {
    if r.End? {
    } else {
      assert Has(r, r.start);
      forall b: nat | Has(r.rest, b) && b < |blocks| ensures blocks'[b] == blocks[b] {
        assert Has(r, b);
      }
      ChainFrame(blocks, blocks', r.rest);
    }
  }

  ghost function Interval(lo: nat, len: nat): (s: set<nat>)
    ensures forall b :: b in s <==> lo <= b < lo + len
    ensures |s| == len
  {
    if len == 0 then {} else Interval(lo, len - 1) + {lo + len - 1}
  }

  lemma SubsetSize(a: set<nat>, b: set<nat>)
    requires a <= b
    ensures |a| <= |b|
  {
    assert b == a + (b - a);
    assert |b| == |a| + |b - a|;
  }

  /** The runs are disjoint, so their lengths add up to the number of free blocks. */
  lemma {:induction false} ChainSize(blocks: seq<Block>, r: Runs)
    requires Chain(blocks, r)
    ensures |FreeSet(r)| == Total(r)
  {
    if r.End? {
    } else {
      ChainSize(blocks, r.rest);
      assert Interval(r.start, r.len) !! FreeSet(r.rest);
    }
  }

  lemma FreeCount(s: State)
    requires FreeInv(s)
    ensures s.sb.nbFree == |FreeSet(s.runs)|
    ensures FreeSet(s.runs) == set b: nat | b < |s.owner| && s.owner[b].Unused?
    ensures s.sb.nbFree < |s.blocks|
    ensures s.sb.nbFree == 0 <==> s.runs.End?
  {
    ChainSize(s.blocks, s.runs);
    forall b | b in FreeSet(s.runs) ensures 1 <= b < |s.blocks| {
      ChainHas(s.blocks, s.runs, b);
    }
    var all := Interval(1, |s.blocks| - 1);
    SubsetSize(FreeSet(s.runs), all);
  }

  /** If a used block other than 0 exists then one more block fits in the count. */
  lemma FreeCountStrict(s: State, b: nat)
    requires FreeInv(s) && 0 < b < |s.owner| && !s.owner[b].Unused?
    ensures s.sb.nbFree + 1 < |s.blocks|
  {
    ChainSize(s.blocks, s.runs);
    forall c | c in FreeSet(s.runs) ensures 1 <= c < |s.blocks| {
      ChainHas(s.blocks, s.runs, c);
    }
    var all := Interval(1, |s.blocks| - 1);
    assert b in all && b !in FreeSet(s.runs);
    SubsetSize(FreeSet(s.runs) + {b}, all);
  }

  // ------------------------------------------------------------------ new_bloc

  /** What `new_bloc` does: take the first block of the first run. `Reserved` marks the
      block handed out until its user records it. */
  ghost function NewBloc(s: State): (State, nat)
    requires FreeInv(s)
  {
    if s.sb.nbFree == 0 then (s, 0)
    else
      var first := s.sb.firstFree;
      var run := DecodeFree(s.blocks[first]).value;
      if run.count == 1 then
        var sb := s.sb.(nbFree := s.sb.nbFree - 1, firstFree := run.next);
        (State(s.blocks[0 := EncodeSuper(sb)], sb, s.owner[first := Reserved], s.runs.rest), first)
      else
        var sb := s.sb.(nbFree := s.sb.nbFree - 1, firstFree := first + 1);
        (State(s.blocks[0 := EncodeSuper(sb)][first + 1 := EncodeFree(FreeRun(run.count - 1, run.next))],
               sb, s.owner[first := Reserved], Run(first + 1, run.count - 1, s.runs.rest)), first)
  }

  /** The runs without the first free block. */
  ghost function Popped(r: Runs): Runs
    requires r.Run? && 1 <= r.len
  {
    if r.len == 1 then r.rest else Run(r.start + 1, r.len - 1, r.rest)
  }

  lemma PoppedHas(blocks: seq<Block>, r: Runs, b: nat)
    requires Chain(blocks, r) && r.Run?
    ensures Has(Popped(r), b) <==> Has(r, b) && b != r.start
  {
    assert Has(r, r.start) && !Has(r.rest, r.start);
  }

  lemma ChainParts(blocks: seq<Block>, r: Runs)
    requires Chain(blocks, r) && r.Run?
    ensures Chain(blocks, r.rest) && 1 <= r.start && 1 <= r.len && r.start + r.len <= |blocks|
    ensures forall b | r.start <= b < r.start + r.len :: !Has(r.rest, b)
  {
  }

  /** The list left by `new_bloc`, whatever is written in the blocks outside it. */
  lemma PoppedChain(blocks: seq<Block>, blocks': seq<Block>, r: Runs)
    requires Chain(blocks, r) && r.Run? && |blocks'| == |blocks|
    requires forall b: nat | b < |blocks| && Has(r.rest, b) :: blocks'[b] == blocks[b]
    requires r.len > 1 ==> DecodeFree(blocks'[r.start + 1]) == Some(FreeRun(r.len - 1, HeadOf(r.rest)))
    ensures Chain(blocks', Popped(r))
  {
    hide Chain, Has, DecodeFree;
    ChainParts(blocks, r);
    ChainFrame(blocks, blocks', r.rest);
    if r.len > 1 {
      ChainCons(blocks', r.start + 1, r.len - 1, r.rest);
    }
  }

  lemma ChainCons(blocks: seq<Block>, start: nat, len: nat, rest: Runs)
    requires Chain(blocks, rest)
    requires 1 <= start && 1 <= len && start + len <= |blocks|
    requires DecodeFree(blocks[start]) == Some(FreeRun(len, HeadOf(rest)))
    requires forall b | start <= b < start + len :: !Has(rest, b)
    ensures Chain(blocks, Run(start, len, rest))
  {
  }

  /** `s'` is `s` after its first free block `b` was taken off the list. */
  ghost predicate Taken(s: State, b: nat, s': State) {
    && Has(s.runs, b) && 0 < b < |s.owner| == |s.blocks|
    && (forall k: nat :: Has(s'.runs, k) <==> Has(s.runs, k) && k != b)
    && s'.sb == s.sb.(nbFree := s'.sb.nbFree, firstFree := s'.sb.firstFree)
    && s'.sb.nbFree == s.sb.nbFree - 1
    && s'.owner == s.owner[b := Reserved]
    && |s'.blocks| == |s.blocks|
    && forall k: nat | 0 < k < |s.blocks| && !s.owner[k].Unused? :: s'.blocks[k] == s.blocks[k]
  }

  /** What `new_bloc` leaves, described without the encoders. */
  ghost predicate PopShape(s: State, s': State) {
    && FreeInv(s) && s.runs.Run?
    && s'.runs == Popped(s.runs) && s'.owner == s.owner[s.runs.start := Reserved]
    && s'.sb == s.sb.(nbFree := s.sb.nbFree - 1, firstFree := HeadOf(s'.runs))
    && |s'.blocks| == |s.blocks|
    && SuperValid(s'.sb) && s'.blocks[0] == EncodeSuper(s'.sb)
    && (forall k: nat | 0 < k < |s.blocks| && (k != s.runs.start + 1 || s.runs.len == 1) :: s'.blocks[k] == s.blocks[k])
    && (s.runs.len > 1 ==>
          DecodeFree(s'.blocks[s.runs.start + 1]) == Some(FreeRun(s.runs.len - 1, HeadOf(s.runs.rest))))
  }

  lemma PoppedInv(s: State, s': State)
    requires PopShape(s, s')
    ensures FreeInv(s')
  {
    var b := s.runs.start;
    forall k: nat | k < |s.blocks| && Has(s.runs.rest, k) ensures s'.blocks[k] == s.blocks[k] {
      ChainHas(s.blocks, s.runs.rest, k);
    }
    PoppedChain(s.blocks, s'.blocks, s.runs);
    forall k: nat | k < |s.owner| ensures Has(s'.runs, k) <==> s'.owner[k].Unused? {
      PoppedHas(s.blocks, s.runs, k);
    }
  }

  lemma PoppedTaken(s: State, s': State)
    requires PopShape(s, s')
    ensures Taken(s, s.runs.start, s')
  {
    forall k: nat ensures Has(s'.runs, k) <==> Has(s.runs, k) && k != s.runs.start {
      PoppedHas(s.blocks, s.runs, k);
    }
    assert s.runs.len > 1 ==> Has(s.runs, s.runs.start + 1);
  }

  /** `new_bloc` fails exactly when nothing is free; otherwise it takes exactly the block
      it returns, and the list, the counts and block 0 stay consistent. */
  lemma NewBlocCorrect(s: State)
    requires FreeInv(s)
    ensures NewBloc(s).1 == 0 <==> FreeSet(s.runs) == {}
    ensures NewBloc(s).1 == 0 ==> NewBloc(s).0 == s
    ensures NewBloc(s).1 != 0 ==> FreeInv(NewBloc(s).0) && Taken(s, NewBloc(s).1, NewBloc(s).0)
    ensures NewBloc(s).1 == s.sb.firstFree
  {
    if s.runs.Run? {
      FreeRoundTrip(FreeRun(s.runs.len - 1, HeadOf(s.runs.rest)));
      PoppedInv(s, NewBloc(s).0);
      PoppedTaken(s, NewBloc(s).0);
      assert s.runs.start in FreeSet(s.runs);
    }
  }

  /** The little that a caller about to record the block needs. */
  lemma NewBlocTakes(s: State)
    requires FreeInv(s)
    ensures NewBloc(s).1 != 0 ==> 0 < NewBloc(s).1 < |s.owner| && s.owner[NewBloc(s).1].Unused?
    ensures |NewBloc(s).0.blocks| == |s.blocks|
  {
    if s.runs.Run? {
      assert Has(s.runs, s.runs.start);
    }
  }

  // ----------------------------------------------------------------- free_bloc

  /** What `free_bloc` does: push the block as a run of length 1. */
  ghost function FreeBloc(s: State, b: nat): State
    requires FreeInv(s) && 0 < b < |s.owner| && !s.owner[b].Unused?
  {
    FreeCountStrict(s, b);
    var sb := s.sb.(firstFree := b, nbFree := s.sb.nbFree + 1);
    State(s.blocks[0 := EncodeSuper(sb)][b := EncodeFree(FreeRun(1, s.sb.firstFree))], sb,
          s.owner[b := Unused], Run(b, 1, s.runs))
  }

  /** What `free_bloc` leaves, described without the encoders. */
  ghost predicate PushShape(s: State, b: nat, s': State) {
    && FreeInv(s) && 0 < b < |s.owner| && !s.owner[b].Unused?
    && s'.runs == Run(b, 1, s.runs) && s'.owner == s.owner[b := Unused]
    && s'.sb == s.sb.(nbFree := s.sb.nbFree + 1, firstFree := b)
    && |s'.blocks| == |s.blocks|
    && SuperValid(s'.sb) && s'.blocks[0] == EncodeSuper(s'.sb)
    && (forall k: nat | 0 < k < |s.blocks| && k != b :: s'.blocks[k] == s.blocks[k])
    && DecodeFree(s'.blocks[b]) == Some(FreeRun(1, HeadOf(s.runs)))
  }

  lemma PushedInv(s: State, b: nat, s': State)
    requires PushShape(s, b, s')
    ensures FreeInv(s')
  {
    forall k: nat | Has(s.runs, k) && k < |s.blocks| ensures s'.blocks[k] == s.blocks[k] {
      ChainHas(s.blocks, s.runs, k);
    }
    ChainFrame(s.blocks, s'.blocks, s.runs);
  }

  /** `free_bloc` adds exactly its argument and keeps the list consistent. */
  lemma FreeBlocCorrect(s: State, b: nat)
    requires FreeInv(s) && 0 < b < |s.owner| && !s.owner[b].Unused?
    ensures FreeInv(FreeBloc(s, b))
    ensures forall k :: k in FreeSet(FreeBloc(s, b).runs) <==> k in FreeSet(s.runs) || k == b
    ensures FreeBloc(s, b).sb == s.sb.(nbFree := s.sb.nbFree + 1, firstFree := b)
    ensures FreeBloc(s, b).owner == s.owner[b := Unused]
    ensures |FreeBloc(s, b).blocks| == |s.blocks|
    ensures forall k: nat | 0 < k < |s.blocks| && k != b :: FreeBloc(s, b).blocks[k] == s.blocks[k]
  {
    FreeCountStrict(s, b);
    FreeRoundTrip(FreeRun(1, s.sb.firstFree));
    PushedInv(s, b, FreeBloc(s, b));
  }

  /** The block given back last is the next to be taken, and that undoes giving it back. */
  lemma FreeThenNew(s: State, b: nat)
    requires FreeInv(s) && 0 < b < |s.owner| && !s.owner[b].Unused?
    ensures FreeInv(FreeBloc(s, b)) && NewBloc(FreeBloc(s, b)).1 == b
    ensures var s' := NewBloc(FreeBloc(s, b)).0;
            && s'.sb == s.sb && s'.runs == s.runs && s'.owner == s.owner[b := Reserved]
            && |s'.blocks| == |s.blocks|
            && forall k: nat | k < |s.blocks| && k != b :: s'.blocks[k] == s.blocks[k]
  {
    FreeBlocCorrect(s, b);
    FreeRoundTrip(FreeRun(1, s.sb.firstFree));
  }

  /** Blocks outside the list and block 0 are of no concern to the list. */
  lemma FreeInvFrame(s: State, s': State)
    requires FreeInv(s)
    requires |s'.blocks| == |s'.owner| == |s.owner| && s'.sb == s.sb && s'.runs == s.runs
    requires s'.blocks[0] == s.blocks[0] && s'.owner[0].Superblock?
    requires forall k: nat | k < |s.owner| :: s'.owner[k].Unused? <==> s.owner[k].Unused?
    requires forall k: nat | k < |s.owner| && s.owner[k].Unused? :: s'.blocks[k] == s.blocks[k]
    ensures FreeInv(s')
  {
    ChainFrame(s.blocks, s'.blocks, s.runs);
  }

  /** The walk never meets a block without the magic, so the source's assertion holds. */
  lemma {:induction false} FreeMagicHolds(blocks: seq<Block>, r: Runs, at: nat)
    requires Chain(blocks, r)
    requires at in Heads(r)
    ensures at < |blocks| && U16(blocks[at], 0) == FREE_MAGIC
  {
    if at == r.start {
    } else {
      FreeMagicHolds(blocks, r.rest, at);
    }
  }

  function Heads(r: Runs): set<nat> {
    if r.End? then {} else {r.start} + Heads(r.rest)
  }
}
