/** JavaScript numbers as the pipeline uses them: finite values, the two infinities and NaN.
    Finite arithmetic is exact; IEEE-754 rounding is not modelled. */
module JsNumber {

  datatype Number = Finite(r: real) | PosInf | NegInf | NaN

  const Zero: Number := Finite(0.0)

  /** `a + b`: NaN is absorbing, opposite infinities give NaN, otherwise an infinity wins. */
  function Add(a: Number, b: Number): Number {
    if a.NaN? || b.NaN? then NaN
    else if (a.PosInf? && b.NegInf?) || (a.NegInf? && b.PosInf?) then NaN
    else if a.PosInf? || b.PosInf? then PosInf
    else if a.NegInf? || b.NegInf? then NegInf
    else Finite(a.r + b.r)
  }

  /** `a > b`; every comparison with NaN is false. */
  predicate Gt(a: Number, b: Number) {
    match a
    case NaN => false
    case PosInf => b.Finite? || b.NegInf?
    case NegInf => false
    case Finite(x) => b.NegInf? || (b.Finite? && x > b.r)
  }

  /** `a >= b`. */
  predicate Ge(a: Number, b: Number) {
    Gt(a, b) || (a == b && !a.NaN?)
  }

  /** `Math.round(a)`: the integer nearest to `a`, halves going up; NaN and the infinities
      are returned unchanged. */
  function Round(a: Number): (r: Number)
    ensures a.Finite? ==> r.Finite? && r.r == r.r.Floor as real && a.r - 1.0 / 2.0 < r.r <= a.r + 1.0 / 2.0
    ensures !a.Finite? ==> r == a
  {
    if a.Finite? then Finite((a.r + 1.0 / 2.0).Floor as real) else a
  }

  lemma AddCommutative(a: Number, b: Number)
    ensures Add(a, b) == Add(b, a)
  {}

  lemma AddAssociative(a: Number, b: Number, c: Number)
    ensures Add(Add(a, b), c) == Add(a, Add(b, c))
  {}

  lemma AddZero(a: Number)
    ensures Add(Zero, a) == a && Add(a, Zero) == a
  {}

  /** On numbers other than NaN, `>=` is a total order and `>` its strict part. */
  lemma OrderFacts(a: Number, b: Number, c: Number)
    requires !a.NaN? && !b.NaN? && !c.NaN?
    ensures Ge(a, b) || Gt(b, a)
    ensures !Gt(a, a)
    ensures Gt(a, b) ==> !Ge(b, a)
    ensures Ge(a, b) && Ge(b, c) ==> Ge(a, c)
    ensures Ge(a, b) && Gt(b, c) ==> Gt(a, c)
    ensures Gt(a, b) && Ge(b, c) ==> Gt(a, c)
  {}

  /** The value of `xs.reduce((sum, x) => sum + f(x), 0)`. */
  function SumBy<T>(xs: seq<T>, f: T -> Number): Number {
    if xs == [] then Zero else Add(SumBy(xs[..|xs| - 1], f), f(xs[|xs| - 1]))
  }

  lemma {:induction false} SumByAppend<T>(xs: seq<T>, ys: seq<T>, f: T -> Number)
    ensures SumBy(xs + ys, f) == Add(SumBy(xs, f), SumBy(ys, f))
    decreases |ys|
  {
    if ys == [] {
      assert xs + ys == xs;
      AddZero(SumBy(xs, f));
    } else {
      var n := |ys|;
      assert (xs + ys)[..|xs + ys| - 1] == xs + ys[..n - 1];
      SumByAppend(xs, ys[..n - 1], f);
      AddAssociative(SumBy(xs, f), SumBy(ys[..n - 1], f), f(ys[n - 1]));
    }
  }

  /** Taking one element out of a sum and adding it back last does not change the sum. */
  lemma {:induction false} SumByRemove<T>(xs: seq<T>, k: nat, f: T -> Number)
    requires k < |xs|
    ensures SumBy(xs, f) == Add(SumBy(xs[..k] + xs[k + 1..], f), f(xs[k]))
    decreases |xs|
  {
    var n := |xs|;
    if k == n - 1 {
      assert xs[..k] + xs[k + 1..] == xs[..n - 1];
    } else {
      var ys := xs[..n - 1];
      var rest := xs[..k] + xs[k + 1..];
      assert ys[..k] + ys[k + 1..] == rest[..|rest| - 1];
      assert rest[|rest| - 1] == xs[n - 1];
      SumByRemove(ys, k, f);
      var s := SumBy(rest[..|rest| - 1], f);
      AddAssociative(s, f(xs[k]), f(xs[n - 1]));
      AddAssociative(s, f(xs[n - 1]), f(xs[k]));
      AddCommutative(f(xs[k]), f(xs[n - 1]));
    }
  }

  /** Reordering the summed elements does not change the sum. */
  lemma {:induction false} SumByPermutation<T>(a: seq<T>, b: seq<T>, f: T -> Number)
    requires multiset(a) == multiset(b)
    ensures SumBy(a, f) == SumBy(b, f)
    decreases |a|
  {
    if a == [] {
      assert |b| == |multiset(b)| == 0;
    } else {
      var n := |a|;
      var x := a[n - 1];
      assert x in multiset(b);
      var k :| 0 <= k < |b| && b[k] == x;
      RemoveMatching(a, b, k);
      SumByPermutation(a[..n - 1], b[..k] + b[k + 1..], f);
      SumByRemove(b, k, f);
    }
  }

  /** Taking the last element out of `a` and an equal one out of a permutation `b` of it
      leaves two permutations of each other. */
  lemma RemoveMatching<T>(a: seq<T>, b: seq<T>, k: nat)
    requires multiset(a) == multiset(b) && a != [] && k < |b| && b[k] == a[|a| - 1]
    ensures multiset(b[..k] + b[k + 1..]) == multiset(a[..|a| - 1])
  {
    MultisetWithout(b, k);
    MultisetWithout(a, |a| - 1);
    assert a[|a| - 1 + 1..] == [];
    assert a[..|a| - 1] + [] == a[..|a| - 1];
  }

  /** Taking out the element at `k` takes one copy of it out of the multiset. */
  lemma MultisetWithout<T>(b: seq<T>, k: nat)
    requires k < |b|
    ensures multiset(b[..k] + b[k + 1..]) == multiset(b) - multiset{b[k]}
  {
    assert b == b[..k] + [b[k]] + b[k + 1..];
  }

  /** Adding `d` into one element adds `d` to the sum. */
  lemma SumByUpdate<T>(xs: seq<T>, j: nat, y: T, d: Number, f: T -> Number)
    requires j < |xs| && f(y) == Add(f(xs[j]), d)
    ensures SumBy(xs[j := y], f) == Add(SumBy(xs, f), d)
  {
    var ys := xs[j := y];
    assert ys[..j] + ys[j + 1..] == xs[..j] + xs[j + 1..];
    SumByRemove(xs, j, f);
    SumByRemove(ys, j, f);
    AddAssociative(SumBy(xs[..j] + xs[j + 1..], f), f(xs[j]), d);
  }

  lemma SumBySnoc<T>(xs: seq<T>, x: T, f: T -> Number)
    ensures SumBy(xs + [x], f) == Add(SumBy(xs, f), f(x))
  {
    assert (xs + [x])[..|xs|] == xs;
  }

  /** Sums of two lists whose measures agree position by position are equal. */
  lemma {:induction false} SumByPointwise<A, B>(xs: seq<A>, ys: seq<B>, f: A -> Number, g: B -> Number)
    requires |xs| == |ys| && forall i :: 0 <= i < |xs| ==> f(xs[i]) == g(ys[i])
    ensures SumBy(xs, f) == SumBy(ys, g)
  {
    if xs != [] {
      var n := |xs| - 1;
      SumByPointwise(xs[..n], ys[..n], f, g);
    }
  }
}
