/** A chain's protocol ranking: `.sort((a, b) => b.volume - a.volume)`, a stable sort with
    the highest volume first. */
module Ranking {
  import opened Wrappers
  import opened JsNumber

  /** One protocol's line in a chain's ranking. */
  datatype ProtocolData = ProtocolData(name: string, version: Option<string>, volume: Number, transactions: Number)

  function VolumeOf(p: ProtocolData): Number {
    p.volume
  }

  function TransactionsOf(p: ProtocolData): Number {
    p.transactions
  }

  predicate NoNaNVolume(ps: seq<ProtocolData>) {
    forall i :: 0 <= i < |ps| ==> !ps[i].volume.NaN?
  }

  /** Highest volume first. */
  predicate SortedByVolume(ps: seq<ProtocolData>) {
    forall i, j :: 0 <= i < j < |ps| ==> Ge(ps[i].volume, ps[j].volume)
  }

  /** The entries with volume `v`, in order. */
  function WithVolume(ps: seq<ProtocolData>, v: Number): seq<ProtocolData> {
    if ps == [] then [] else (if ps[0].volume == v then [ps[0]] else []) + WithVolume(ps[1..], v)
  }

  /** Places `p` after every entry of `sorted` it does not beat. The comparator
      `b.volume - a.volume` is negative exactly when `a.volume > b.volume`, so on volumes
      other than NaN it orders by `>` and keeps equal volumes in input order. */
  function Insert(sorted: seq<ProtocolData>, p: ProtocolData): (r: seq<ProtocolData>)
    ensures multiset(r) == multiset(sorted) + multiset{p}
  {
    if sorted == [] then [p]
    else if Gt(p.volume, sorted[0].volume) then [p] + sorted
    else
      assert sorted == [sorted[0]] + sorted[1..];
      [sorted[0]] + Insert(sorted[1..], p)
  }

  /** The ranking `sort` produces: a permutation of its input. */
  function SortByVolume(ps: seq<ProtocolData>): (r: seq<ProtocolData>)
    ensures multiset(r) == multiset(ps)
  {
    if ps == [] then []
    else
      var n := |ps| - 1;
      assert ps == ps[..n] + [ps[n]];
      Insert(SortByVolume(ps[..n]), ps[n])
  }

  lemma {:induction false} InsertSorted(sorted: seq<ProtocolData>, p: ProtocolData)
    requires SortedByVolume(sorted) && NoNaNVolume(sorted) && !p.volume.NaN?
    ensures SortedByVolume(Insert(sorted, p))
    decreases |sorted|
  {
    if sorted != [] && !Gt(p.volume, sorted[0].volume) {
      assert SortedByVolume(sorted[1..]) && NoNaNVolume(sorted[1..]);
      InsertSorted(sorted[1..], p);
      InsertSortedPast(sorted, p);
    } else if sorted != [] {
      InsertSortedFront(sorted, p);
    }
  }

  lemma InsertSortedPast(sorted: seq<ProtocolData>, p: ProtocolData)
    requires SortedByVolume(sorted) && NoNaNVolume(sorted) && !p.volume.NaN?
    requires sorted != [] && !Gt(p.volume, sorted[0].volume)
    requires SortedByVolume(Insert(sorted[1..], p))
    ensures SortedByVolume(Insert(sorted, p))
  {
    var t := Insert(sorted[1..], p);
    forall k | 0 <= k < |t|
      ensures Ge(sorted[0].volume, t[k].volume)
    {
      InsertMember(sorted[1..], p, k);
      if t[k] == p {
        OrderFacts(sorted[0].volume, p.volume, p.volume);
      } else {
        var q :| 0 <= q < |sorted[1..]| && sorted[1..][q] == t[k];
        assert sorted[q + 1] == t[k];
      }
    }
    ConsSorted(sorted[0], t);
    assert Insert(sorted, p) == [sorted[0]] + t;
  }

  lemma InsertMember(sorted: seq<ProtocolData>, p: ProtocolData, k: nat)
    requires k < |Insert(sorted, p)|
    ensures Insert(sorted, p)[k] == p || Insert(sorted, p)[k] in sorted
  {
    var r := Insert(sorted, p);
    assert r[k] in multiset(r);
  }

  lemma InsertSortedFront(sorted: seq<ProtocolData>, p: ProtocolData)
    requires SortedByVolume(sorted) && NoNaNVolume(sorted) && !p.volume.NaN?
    requires sorted != [] && Gt(p.volume, sorted[0].volume)
    ensures SortedByVolume(Insert(sorted, p))
  {
    forall k | 0 <= k < |sorted|
      ensures Ge(p.volume, sorted[k].volume)
    {
      if k > 0 {
        OrderFacts(p.volume, sorted[0].volume, sorted[k].volume);
      }
    }
    ConsSorted(p, sorted);
    assert Insert(sorted, p) == [p] + sorted;
  }

  /** An entry at least as large as every entry of a ranking can head it. */
  lemma ConsSorted(x: ProtocolData, t: seq<ProtocolData>)
    requires SortedByVolume(t)
    requires forall k :: 0 <= k < |t| ==> Ge(x.volume, t[k].volume)
    ensures SortedByVolume([x] + t)
  {
    var r := [x] + t;
    forall i, j | 0 <= i < j < |r|
      ensures Ge(r[i].volume, r[j].volume)
    {
      assert r[j] == t[j - 1];
      if i > 0 {
        assert r[i] == t[i - 1];
      }
    }
  }

  /** Sorting keeps the volumes free of NaN. */
  lemma SortNoNaN(ps: seq<ProtocolData>)
    requires NoNaNVolume(ps)
    ensures NoNaNVolume(SortByVolume(ps))
  {
    var s := SortByVolume(ps);
    forall i | 0 <= i < |s|
      ensures !s[i].volume.NaN?
    {
      assert s[i] in multiset(ps);
    }
  }

  /** On volumes other than NaN, the ranking is in non-increasing order of volume. */
  lemma {:induction false} SortSorted(ps: seq<ProtocolData>)
    requires NoNaNVolume(ps)
    ensures SortedByVolume(SortByVolume(ps))
  {
    if ps != [] {
      var n := |ps| - 1;
      assert NoNaNVolume(ps[..n]);
      SortSorted(ps[..n]);
      SortNoNaN(ps[..n]);
      InsertSorted(SortByVolume(ps[..n]), ps[n]);
    }
  }

  lemma {:induction false} WithVolumeAppend(a: seq<ProtocolData>, b: seq<ProtocolData>, v: Number)
    ensures WithVolume(a + b, v) == WithVolume(a, v) + WithVolume(b, v)
  {
    if a == [] {
      assert a + b == b;
    } else {
      assert (a + b)[0] == a[0];
      assert (a + b)[1..] == a[1..] + b;
      WithVolumeAppend(a[1..], b, v);
    }
  }

  lemma WithVolumeSingle(p: ProtocolData, v: Number)
    ensures WithVolume([p], v) == if p.volume == v then [p] else []
  {
    assert [p][1..] == [];
  }

  /** In a ranking, `p` lands after every entry with its volume. */
  lemma {:induction false} InsertStable(sorted: seq<ProtocolData>, p: ProtocolData, v: Number)
    requires SortedByVolume(sorted) && NoNaNVolume(sorted) && !p.volume.NaN?
    ensures WithVolume(Insert(sorted, p), v) == WithVolume(sorted, v) + WithVolume([p], v)
    decreases |sorted|
  {
    if sorted == [] {
      WithVolumeSingle(p, v);
      assert Insert(sorted, p) == [p];
    } else if Gt(p.volume, sorted[0].volume) {
      InsertStableFront(sorted, p, v);
    } else {
      assert SortedByVolume(sorted[1..]) && NoNaNVolume(sorted[1..]);
      InsertStable(sorted[1..], p, v);
      assert Insert(sorted, p) == [sorted[0]] + Insert(sorted[1..], p);
      WithVolumeConsBoth(sorted[0], sorted[1..], Insert(sorted[1..], p), WithVolume([p], v), v);
      assert [sorted[0]] + sorted[1..] == sorted;
    }
  }

  /** Putting the same entry in front of two lists keeps a relation between their entries
      with volume `v`. */
  lemma WithVolumeConsBoth(x: ProtocolData, s: seq<ProtocolData>, t: seq<ProtocolData>, w: seq<ProtocolData>, v: Number)
    requires WithVolume(t, v) == WithVolume(s, v) + w
    ensures WithVolume([x] + t, v) == WithVolume([x] + s, v) + w
  {
    WithVolumeCons(x, t, v);
    WithVolumeCons(x, s, v);
  }

  lemma WithVolumeCons(x: ProtocolData, s: seq<ProtocolData>, v: Number)
    ensures WithVolume([x] + s, v) == (if x.volume == v then [x] else []) + WithVolume(s, v)
  {
    assert ([x] + s)[1..] == s;
  }

  lemma InsertStableFront(sorted: seq<ProtocolData>, p: ProtocolData, v: Number)
    requires SortedByVolume(sorted) && sorted != [] && Gt(p.volume, sorted[0].volume)
    ensures WithVolume(Insert(sorted, p), v) == WithVolume(sorted, v) + WithVolume([p], v)
  {
    WithVolumeSingle(p, v);
    var r := [p] + sorted;
    assert Insert(sorted, p) == r;
    assert r[1..] == sorted;
    if p.volume == v {
      WithVolumeNone(sorted, v);
    }
  }

  /** No entry of a ranking whose head is below `v` has volume `v`. */
  lemma {:induction false} WithVolumeNone(sorted: seq<ProtocolData>, v: Number)
    requires SortedByVolume(sorted) && sorted != [] && Gt(v, sorted[0].volume)
    ensures WithVolume(sorted, v) == []
    decreases |sorted|
  {
    if |sorted| > 1 {
      OrderFacts(v, sorted[0].volume, sorted[1].volume);
      WithVolumeNone(sorted[1..], v);
    }
  }

  /** The sort is stable: the entries that share a volume keep their input order. */
  lemma {:induction false} SortStable(ps: seq<ProtocolData>, v: Number)
    requires NoNaNVolume(ps)
    ensures WithVolume(SortByVolume(ps), v) == WithVolume(ps, v)
  {
    if ps != [] {
      var n := |ps| - 1;
      assert NoNaNVolume(ps[..n]);
      SortStable(ps[..n], v);
      SortSorted(ps[..n]);
      SortNoNaN(ps[..n]);
      InsertStable(SortByVolume(ps[..n]), ps[n], v);
      assert SortByVolume(ps) == Insert(SortByVolume(ps[..n]), ps[n]);
      WithVolumeLast(ps, v);
    }
  }

  lemma WithVolumeLast(ps: seq<ProtocolData>, v: Number)
    requires ps != []
    ensures WithVolume(ps, v) == WithVolume(ps[..|ps| - 1], v) + WithVolume([ps[|ps| - 1]], v)
  {
    var n := |ps| - 1;
    assert ps == ps[..n] + [ps[n]];
    WithVolumeAppend(ps[..n], [ps[n]], v);
  }
}
