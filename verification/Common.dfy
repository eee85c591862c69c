/** Vocabulary shared by every module: optional values and sums over sequences. */
module Common {

  datatype Option<+T> = None | Some(value: T)

  /** Sum of a sequence of weights. */
  function Sum(xs: seq<nat>): nat {
    if xs == [] then 0 else xs[0] + Sum(xs[1..])
  }

  lemma {:induction false} SumConcat(xs: seq<nat>, ys: seq<nat>)
    ensures Sum(xs + ys) == Sum(xs) + Sum(ys)
  {
    if xs == [] {
      assert xs + ys == ys;
    } else {
      assert (xs + ys)[1..] == xs[1..] + ys;
      SumConcat(xs[1..], ys);
    }
  }

  /** Replacing one weight changes the sum by the difference of that weight. */
  lemma SumUpdate(xs: seq<nat>, i: nat, x: nat)
    requires i < |xs|
    ensures Sum(xs[i := x]) + xs[i] == Sum(xs) + x
  {
    assert xs == xs[..i] + ([xs[i]] + xs[i + 1..]);
    assert xs[i := x] == xs[..i] + ([x] + xs[i + 1..]);
    SumConcat(xs[..i], [xs[i]] + xs[i + 1..]);
    SumConcat(xs[..i], [x] + xs[i + 1..]);
  }

  lemma MulMonotone(x: int, y: int, b: int)
    requires x <= y && b >= 0
    ensures x * b <= y * b
  {
  }

  /** Division and remainder of natural numbers: the largest multiple of `b` not above `a`, and the rest. */
  function Div(a: nat, b: nat): (q: nat)
    requires b > 0
    ensures q <= a && q * b <= a < q * b + b
  {
    MulMonotone(1, b, a / b);
    a / b
  }

  function Mod(a: nat, b: nat): (r: nat)
    requires b > 0
    ensures r < b && Div(a, b) * b + r == a
  {
    a - Div(a, b) * b
  }

  lemma Associates<T>(a: seq<T>, b: seq<T>, c: seq<T>)
    ensures a + (b + c) == a + b + c
  {
  }

  lemma HeadAndTail<T>(xs: seq<T>, ys: seq<T>)
    requires xs != []
    ensures (xs + ys)[0] == xs[0] && (xs + ys)[1..] == xs[1..] + ys
    ensures [xs[0]] + (xs[1..] + ys) == xs + ys
  {
  }

  /** Positions in increasing order. */
  ghost predicate Increasing(at: seq<nat>) {
    forall j, k :: 0 <= j < k < |at| ==> at[j] < at[k]
  }

  lemma IncreasingSnoc(at: seq<nat>, n: nat)
    requires Increasing(at) && forall i :: i in at ==> i < n
    ensures Increasing(at + [n])
  {
    forall j, k | 0 <= j < k < |at + [n]| ensures (at + [n])[j] < (at + [n])[k] {
      assert at[j] in at;
    }
  }

  /** Position 0, if `first`, and then positions that count from the second place. */
  function Places(first: bool, at: seq<nat>): seq<nat> {
    (if first then [0] else []) + seq(|at|, j requires 0 <= j < |at| => at[j] + 1)
  }

  lemma PlacesMember(first: bool, at: seq<nat>, i: nat)
    ensures i in Places(first, at) <==> if i == 0 then first else i - 1 in at
  {
    var all, n := Places(first, at), if first then 1 else 0;
    if j :| 0 <= j < |at| && at[j] == i - 1 {
      assert all[n + j] == i;
    }
    if j :| 0 <= j < |all| && all[j] == i && i > 0 {
      assert at[j - n] == i - 1;
    }
  }

  lemma PlacesIncrease(first: bool, at: seq<nat>)
    requires Increasing(at)
    ensures Increasing(Places(first, at))
  {
  }
}
