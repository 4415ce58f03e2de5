/** Circular lists as sequences that start at the current element, and the choice `yield`
    makes among them (src/ordonnancement/context.c:98-125). */
module Rings {

  ghost predicate Distinct<T>(r: seq<T>) {
    forall j, k | 0 <= j < k < |r| :: r[j] != r[k]
  }

  /** The same circle, seen from element `j`. */
  function Rot<T>(r: seq<T>, j: nat): (q: seq<T>)
    requires j <= |r|
    ensures |q| == |r|
    ensures forall k | 0 <= k < |r| :: q[k] == if j + k < |r| then r[j + k] else r[j + k - |r|]
  {
    r[j..] + r[..j]
  }

  lemma RotMembers<T>(r: seq<T>, j: nat)
    requires j <= |r|
    ensures forall x :: x in Rot(r, j) <==> x in r
  {
    assert r == r[..j] + r[j..];
  }

  lemma RotDistinct<T>(r: seq<T>, j: nat)
    requires j <= |r| && Distinct(r)
    ensures Distinct(Rot(r, j))
  {
  }

  /** The first element of `r` that can run. */
  function First<T(==)>(r: seq<T>, runnable: set<T>): (j: nat)
    requires exists x :: x in r && x in runnable
    ensures j < |r| && r[j] in runnable
    ensures forall k | 0 <= k < j :: r[k] !in runnable
  {
    if r[0] in runnable then 0
    else
      assert r == [r[0]] + r[1..];
      1 + First(r[1..], runnable)
  }

  /** The circle without `x`. */
  function Without<T(==)>(r: seq<T>, x: T): seq<T> {
    if r == [] then [] else if r[0] == x then r[1..] else [r[0]] + Without(r[1..], x)
  }

  lemma {:induction false} WithoutAt<T>(r: seq<T>, i: nat)
    requires Distinct(r) && i < |r|
    ensures Without(r, r[i]) == r[..i] + r[i + 1..]
    decreases |r|
  {
    if i == 0 {
    } else {
      var s := r[1..];
      assert s[i - 1] == r[i] && r[0] != r[i];
      WithoutAt(s, i - 1);
      assert [r[0]] + s[..i - 1] == r[..i];
      assert s[i..] == r[i + 1..];
    }
  }

  lemma {:induction false} WithoutMembers<T>(r: seq<T>, x: T)
    requires Distinct(r)
    ensures forall y :: y in Without(r, x) <==> y in r && y != x
    ensures x in r ==> |Without(r, x)| == |r| - 1
  {
    if r == [] {
    } else {
      assert r == [r[0]] + r[1..];
      assert r[0] !in r[1..];
      WithoutMembers(r[1..], x);
    }
  }

  /** The circle with `x` right after its first element. */
  function Inserted<T>(r: seq<T>, x: T): (q: seq<T>)
    ensures |q| == |r| + 1
    ensures forall k | 0 <= k < |q| :: q[k] == if k == 0 && r != [] then r[0] else if k <= 1 then x else r[k - 1]
  {
    if r == [] then [x] else [r[0], x] + r[1..]
  }

  lemma InsertedDistinct<T>(r: seq<T>, x: T)
    requires Distinct(r) && x !in r
    ensures Distinct(Inserted(r, x))
    ensures forall y :: y in Inserted(r, x) <==> y in r || y == x
  {
    var q := Inserted(r, x);
    assert r != [] ==> r == [r[0]] + r[1..];
    forall j, k | 0 <= j < k < |q| ensures q[j] != q[k] {
      assert k >= 2 ==> q[k] in r;
    }
  }

  // ---------------------------------------------------------------------- fairness

  /** The circle after one turn was given: the chosen element first. `order` lists the
      candidates in the order they are looked at. */
  function Turned<T(==)>(order: seq<T>, runnable: set<T>): (r: seq<T>)
    requires exists x :: x in order && x in runnable
    ensures |r| == |order| && r[0] in runnable
  {
    Rot(order, First(order, runnable))
  }

  /** Who gets turn number `m`, counted from 0, when nobody's state changes meanwhile. */
  function Turn<T(==)>(order: seq<T>, runnable: set<T>, m: nat): T
    requires exists x :: x in order && x in runnable
    decreases m
  {
    var r := Turned(order, runnable);
    if m == 0 then r[0]
    else
      assert r[0] in Rot(r, 1) by { RotMembers(r, 1); }
      Turn(Rot(r, 1), runnable, m - 1)
  }

  lemma TurnNext<T>(order: seq<T>, runnable: set<T>, m: nat)
    requires m > 0 && exists x :: x in order && x in runnable
    ensures exists x :: x in Rot(Turned(order, runnable), 1) && x in runnable
    ensures Turn(order, runnable, m) == Turn(Rot(Turned(order, runnable), 1), runnable, m - 1)
  {
    var r := Turned(order, runnable);
    RotMembers(r, 1);
    assert r[0] in Rot(r, 1);
  }

  /** Every element that can run gets its turn before as many turns as there are elements
      have been given. */
  lemma {:induction false} Fair<T>(order: seq<T>, runnable: set<T>, x: T, k: nat)
    requires k < |order| && order[k] == x && x in runnable
    ensures exists m: nat :: m <= k && Turn(order, runnable, m) == x
    decreases k
  {
    var j := First(order, runnable);
    if j == k {
      assert Turn(order, runnable, 0) == x;
    } else {
      var r := Turned(order, runnable);
      assert r[k - j] == x;
      var next := Rot(r, 1);
      assert next[k - j - 1] == x;
      Fair(next, runnable, x, k - j - 1);
      var m: nat :| m <= k - j - 1 && Turn(next, runnable, m) == x;
      assert Turn(order, runnable, m + 1) == x;
    }
  }
}
