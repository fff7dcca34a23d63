/** Searching sequences and listing their elements in first-occurrence order. */
module Sequences {
  import opened Wrappers

  /** The index of the first element satisfying `p` (`Array.prototype.findIndex`). */
  function FirstIndex<T>(xs: seq<T>, p: T -> bool): (r: Option<nat>)
    ensures r.Some? ==> r.value < |xs| && p(xs[r.value]) && forall j :: 0 <= j < r.value ==> !p(xs[j])
    ensures r.None? ==> forall j :: 0 <= j < |xs| ==> !p(xs[j])
  {
    if xs == [] then None
    else if p(xs[0]) then Some(0)
    else match FirstIndex(xs[1..], p)
      case None => None
      case Some(i) => Some(i + 1)
  }

  /** An element satisfying `p` with none before it is the one `FirstIndex` finds. */
  lemma FirstIndexIsFirst<T>(xs: seq<T>, p: T -> bool)
    ensures forall i :: 0 <= i < |xs| && p(xs[i]) && (forall j :: 0 <= j < i ==> !p(xs[j])) ==>
      FirstIndex(xs, p) == Some(i)
  {
    forall i | 0 <= i < |xs| && p(xs[i]) && (forall j :: 0 <= j < i ==> !p(xs[j]))
      ensures FirstIndex(xs, p) == Some(i)
    {
      var r := FirstIndex(xs, p);
      assert r.Some? && !(r.value < i) && !(i < r.value);
    }
  }

  /** Applies `f` to every element, in order, stopping at the first failure (a loop whose
      body can throw). */
  function MapAll<A, B>(xs: seq<A>, f: A -> Result<B>): (r: Result<seq<B>>)
    ensures r.TypeError? <==> exists i :: 0 <= i < |xs| && f(xs[i]).TypeError?
    ensures r.Ok? ==> |r.value| == |xs| && forall i :: 0 <= i < |xs| ==> f(xs[i]) == Ok(r.value[i])
  {
    if xs == [] then Ok([])
    else
      var n := |xs|;
      match MapAll(xs[..n - 1], f)
      case TypeError => TypeError
      case Ok(ys) =>
        match f(xs[n - 1])
        case TypeError => TypeError
        case Ok(y) => Ok(ys + [y])
  }

  /** One more step of `MapAll` over a growing prefix. */
  lemma MapAllStep<A, B>(xs: seq<A>, i: nat, f: A -> Result<B>)
    requires i < |xs|
    ensures MapAll(xs[..i + 1], f) ==
      match MapAll(xs[..i], f)
      case TypeError => TypeError
      case Ok(ys) => (match f(xs[i]) case TypeError => TypeError case Ok(y) => Ok(ys + [y]))
  {
    assert xs[..i + 1][..i] == xs[..i];
  }

  /** `xs.flatMap(f)` for a callback that can throw: the results joined in order, or the
      failure of the first call that fails. */
  function FlatMapAll<A, B>(xs: seq<A>, f: A -> Result<seq<B>>): (r: Result<seq<B>>)
    ensures r.TypeError? <==> exists i :: 0 <= i < |xs| && f(xs[i]).TypeError?
  {
    if xs == [] then Ok([])
    else
      var n := |xs| - 1;
      match FlatMapAll(xs[..n], f)
      case TypeError => TypeError
      case Ok(ys) =>
        match f(xs[n])
        case TypeError => TypeError
        case Ok(zs) => Ok(ys + zs)
  }

  /** One more step of `FlatMapAll` over a growing prefix. */
  lemma FlatMapAllStep<A, B>(xs: seq<A>, i: nat, f: A -> Result<seq<B>>)
    requires i < |xs|
    ensures FlatMapAll(xs[..i + 1], f) ==
      match FlatMapAll(xs[..i], f)
      case TypeError => TypeError
      case Ok(ys) => (match f(xs[i]) case TypeError => TypeError case Ok(zs) => Ok(ys + zs))
  {
    assert xs[..i + 1][..i] == xs[..i];
  }

  /** Every element of a successful `FlatMapAll` comes from the result of one call. */
  lemma {:induction false} FlatMapAllOrigin<A, B>(xs: seq<A>, f: A -> Result<seq<B>>)
    ensures FlatMapAll(xs, f).Ok? ==>
              forall y :: y in FlatMapAll(xs, f).value ==> exists i :: 0 <= i < |xs| && f(xs[i]).Ok? && y in f(xs[i]).value
  {
    if xs != [] {
      var n := |xs| - 1;
      FlatMapAllOrigin(xs[..n], f);
      assert forall i :: 0 <= i < n ==> xs[..n][i] == xs[i];
    }
  }

  predicate Distinct<T(==)>(xs: seq<T>) {
    forall i, j :: 0 <= i < j < |xs| ==> xs[i] != xs[j]
  }

  /** The position of the first occurrence of `x`. */
  function FirstPosition<T(==)>(xs: seq<T>, x: T): (k: nat)
    requires x in xs
    ensures k < |xs| && xs[k] == x && x !in xs[..k]
  {
    if xs[0] == x then 0 else 1 + FirstPosition(xs[1..], x)
  }

  /** Appending an element does not move the first occurrence of one already present. */
  lemma FirstPositionAppend<T>(xs: seq<T>, y: T, x: T)
    requires x in xs
    ensures FirstPosition(xs + [y], x) == FirstPosition(xs, x)
  {
    var k := FirstPosition(xs, x);
    assert (xs + [y])[..k] == xs[..k];
    assert (xs + [y])[k] == x;
  }

  /** The elements of `xs`, each once, in the order of their first occurrence (the key order
      of a `Map` filled from `xs`). */
  function Dedup<T(==)>(xs: seq<T>): (d: seq<T>)
    ensures Distinct(d)
    ensures forall i :: 0 <= i < |xs| ==> xs[i] in d
    ensures forall i :: 0 <= i < |d| ==> d[i] in xs
    ensures |d| <= |xs|
  {
    if xs == [] then []
    else
      var d := Dedup(xs[..|xs| - 1]);
      var last := xs[|xs| - 1];
      assert xs == xs[..|xs| - 1] + [last];
      if last in d then d else d + [last]
  }

  /** One more element: it is appended when it is new. */
  lemma DedupSnoc<T>(xs: seq<T>, y: T)
    ensures y in Dedup(xs) <==> y in xs
    ensures Dedup(xs + [y]) == if y in xs then Dedup(xs) else Dedup(xs) + [y]
  {
    assert (xs + [y])[..|xs|] == xs;
    if y in xs {
      var i :| 0 <= i < |xs| && xs[i] == y;
    }
  }

  /** `Dedup` lists elements by increasing position of first occurrence. */
  lemma {:induction false} DedupOrder<T>(xs: seq<T>, i: nat, j: nat)
    requires i < j < |Dedup(xs)|
    ensures FirstPosition(xs, Dedup(xs)[i]) < FirstPosition(xs, Dedup(xs)[j])
    decreases |xs|
  {
    var n := |xs|;
    var prefix := xs[..n - 1];
    var d := Dedup(prefix);
    var last := xs[n - 1];
    assert xs == prefix + [last];
    var di, dj := Dedup(xs)[i], Dedup(xs)[j];
    assert di in prefix;
    FirstPositionAppend(prefix, last, di);
    if j < |d| {
      assert dj in prefix;
      FirstPositionAppend(prefix, last, dj);
      DedupOrder(prefix, i, j);
    } else {
      assert dj == last && last !in prefix;
      assert FirstPosition(xs, dj) == n - 1;
    }
  }
}
