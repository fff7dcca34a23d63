/** `aggregateByChainProtocol`: rows that share a (chain, protocol, version) key are merged by
    adding their counts and their amounts; the merged rows come out in the order in which
    their keys were first seen, which is the insertion order of a JavaScript `Map`. */
module Aggregator {
  import opened Wrappers
  import opened JsNumber
  import opened Sequences
  import opened DataNormalizer

  /** The map key `${chain}__${protocol}__${version || ''}`. A missing version and an empty
      one give the same key, and a "__" inside a field can make different triples collide. */
  function Key(row: Row): string {
    row.chain + "__" + row.protocol + "__" + row.version.GetOr("")
  }

  function KeysOf(rows: seq<Row>): (keys: seq<string>)
    ensures |keys| == |rows| && forall i :: 0 <= i < |rows| ==> keys[i] == Key(rows[i])
  {
    seq(|rows|, i requires 0 <= i < |rows| => Key(rows[i]))
  }

  function CountOf(row: Row): Number {
    row.count
  }

  function AmountOf(row: Row): Number {
    row.tradeAmount
  }

  /** `current.count += row.count; current.tradeAmount += row.tradeAmount`. */
  function Merge(current: Row, row: Row): Row {
    current.(count := Add(current.count, row.count), tradeAmount := Add(current.tradeAmount, row.tradeAmount))
  }

  /** Where `map.get(k)` finds its entry: the position of the first merged row with key `k`. */
  function IndexOfKey(groups: seq<Row>, k: string): (r: Option<nat>)
    ensures r.Some? ==> r.value < |groups| && Key(groups[r.value]) == k
    ensures r.None? <==> k !in KeysOf(groups)
  {
    var keys := KeysOf(groups);
    if k in keys then Some(FirstPosition(keys, k)) else None
  }

  /** Among merged rows with distinct keys, the search finds the one row that has the key. */
  lemma FindGroup(groups: seq<Row>, k: string, j: nat)
    requires Distinct(KeysOf(groups))
    requires j < |groups| && Key(groups[j]) == k
    ensures IndexOfKey(groups, k) == Some(j)
  {
    var keys := KeysOf(groups);
    var i := IndexOfKey(groups, k).value;
    assert keys[i] == k == keys[j];
  }

  /** One turn of the loop, on the map's values in insertion order: a new key appends a copy
      of the row, a known key merges the row into the stored one. */
  function AddRow(groups: seq<Row>, row: Row): seq<Row> {
    match IndexOfKey(groups, Key(row))
    case None => groups + [row]
    case Some(j) => groups[j := Merge(groups[j], row)]
  }

  /** What `aggregateByChainProtocol(rows)` returns. */
  function Aggregated(rows: seq<Row>): seq<Row> {
    if rows == [] then [] else AddRow(Aggregated(rows[..|rows| - 1]), rows[|rows| - 1])
  }

  /** The rows with key `k`, in input order. */
  function RowsWithKey(rows: seq<Row>, k: string): seq<Row> {
    if rows == [] then []
    else RowsWithKey(rows[..|rows| - 1], k) + (if Key(rows[|rows| - 1]) == k then [rows[|rows| - 1]] else [])
  }

  /** The merged row for key `k`, defined directly: the first row with that key, carrying the
      sums, in input order, of the counts and of the amounts of all rows with that key. */
  function Group(rows: seq<Row>, k: string): (g: Row)
    requires k in KeysOf(rows)
    ensures Key(g) == k
    ensures exists i :: 0 <= i < |rows| && rows[i].chain == g.chain && rows[i].protocol == g.protocol && rows[i].version == g.version
  {
    var first := FirstPosition(KeysOf(rows), k);
    rows[first].(count := SumBy(RowsWithKey(rows, k), CountOf), tradeAmount := SumBy(RowsWithKey(rows, k), AmountOf))
  }

  /** Appending a row with key `k` merges it into group `k` and leaves every other group as it was. */
  lemma GroupStep(rows: seq<Row>, x: Row, k: string)
    requires k in KeysOf(rows)
    ensures k in KeysOf(rows + [x]) &&
            Group(rows + [x], k) == if Key(x) == k then Merge(Group(rows, k), x) else Group(rows, k)
  {
    var all := rows + [x];
    assert all[..|rows|] == rows;
    assert KeysOf(all) == KeysOf(rows) + [Key(x)];
    FirstPositionAppend(KeysOf(rows), Key(x), k);
    var p := FirstPosition(KeysOf(rows), k);
    assert all[p] == rows[p];
    var before := RowsWithKey(rows, k);
    if Key(x) == k {
      assert RowsWithKey(all, k) == before + [x];
      SumBySnoc(before, x, CountOf);
      SumBySnoc(before, x, AmountOf);
    } else {
      assert RowsWithKey(all, k) == before + [];
      assert before + [] == before;
    }
  }

  /** A row with a key not seen before opens a group of its own. */
  lemma GroupNew(rows: seq<Row>, x: Row)
    requires Key(x) !in KeysOf(rows)
    ensures Key(x) in KeysOf(rows + [x]) && Group(rows + [x], Key(x)) == x
  {
    var all := rows + [x];
    assert all[..|rows|] == rows;
    assert KeysOf(all) == KeysOf(rows) + [Key(x)];
    assert KeysOf(all)[|rows|] == Key(x);
    assert RowsWithKey(rows, Key(x)) == [] by {
      RowsWithKeyAbsent(rows, Key(x));
    }
    assert RowsWithKey(all, Key(x)) == [x];
    SumBySnoc([], x, CountOf);
    SumBySnoc([], x, AmountOf);
    AddZero(x.count);
    AddZero(x.tradeAmount);
  }

  lemma {:induction false} RowsWithKeyAbsent(rows: seq<Row>, k: string)
    requires k !in KeysOf(rows)
    ensures RowsWithKey(rows, k) == []
  {
    if rows != [] {
      var n := |rows| - 1;
      assert KeysOf(rows[..n]) == KeysOf(rows)[..n];
      RowsWithKeyAbsent(rows[..n], k);
    }
  }

  /** The loop turn for a row whose key already has a group: that group absorbs the row. */
  lemma MergeStep(prefix: seq<Row>, x: Row, keys: seq<string>, groups: seq<Row>, j: nat)
    requires Distinct(keys) && |groups| == |keys| && j < |keys| && keys[j] == Key(x)
    requires forall i :: 0 <= i < |keys| ==> keys[i] in KeysOf(prefix) && groups[i] == Group(prefix, keys[i])
    ensures forall i :: 0 <= i < |keys| ==>
      keys[i] in KeysOf(prefix + [x]) && groups[j := Merge(groups[j], x)][i] == Group(prefix + [x], keys[i])
  {
    forall i | 0 <= i < |keys|
      ensures keys[i] in KeysOf(prefix + [x]) && groups[j := Merge(groups[j], x)][i] == Group(prefix + [x], keys[i])
    {
      GroupStep(prefix, x, keys[i]);
      if i != j {
        assert keys[i] != keys[j];
      }
    }
  }

  /** The loop turn for a row with a new key: a group of its own is appended. */
  lemma NewStep(prefix: seq<Row>, x: Row, keys: seq<string>, groups: seq<Row>)
    requires Key(x) !in KeysOf(prefix) && |groups| == |keys|
    requires forall i :: 0 <= i < |keys| ==> keys[i] in KeysOf(prefix) && groups[i] == Group(prefix, keys[i])
    ensures forall i :: 0 <= i < |keys| + 1 ==>
      (keys + [Key(x)])[i] in KeysOf(prefix + [x]) && (groups + [x])[i] == Group(prefix + [x], (keys + [Key(x)])[i])
  {
    var keys', groups' := keys + [Key(x)], groups + [x];
    forall i | 0 <= i < |keys| + 1
      ensures keys'[i] in KeysOf(prefix + [x]) && groups'[i] == Group(prefix + [x], keys'[i])
    {
      if i < |keys| {
        assert keys'[i] == keys[i] && groups'[i] == groups[i];
        GroupStep(prefix, x, keys[i]);
      } else {
        GroupNew(prefix, x);
      }
    }
  }

  /** `Aggregated(rows)` is one `Group` per key of `Dedup(KeysOf(rows))`, in that order. */
  ghost predicate IsGroups(rows: seq<Row>, groups: seq<Row>) {
    var keys := Dedup(KeysOf(rows));
    |groups| == |keys| && forall i :: 0 <= i < |keys| ==> groups[i] == Group(rows, keys[i])
  }

  lemma KeysOfSnoc(rows: seq<Row>, x: Row)
    ensures KeysOf(rows + [x]) == KeysOf(rows) + [Key(x)]
  {}

  lemma AggregatedSnoc(rows: seq<Row>, x: Row)
    ensures Aggregated(rows + [x]) == AddRow(Aggregated(rows), x)
  {
    assert (rows + [x])[..|rows|] == rows;
  }

  lemma GroupKeys(rows: seq<Row>, groups: seq<Row>)
    requires IsGroups(rows, groups)
    ensures KeysOf(groups) == Dedup(KeysOf(rows))
  {}

  lemma GroupsStep(prefix: seq<Row>, x: Row)
    requires IsGroups(prefix, Aggregated(prefix))
    ensures IsGroups(prefix + [x], Aggregated(prefix + [x]))
  {
    var k := Key(x);
    var ks := KeysOf(prefix);
    var d := Dedup(ks);
    var groups := Aggregated(prefix);
    KeysOfSnoc(prefix, x);
    AggregatedSnoc(prefix, x);
    DedupSnoc(ks, k);
    GroupKeys(prefix, groups);
    if k in d {
      var j :| 0 <= j < |d| && d[j] == k;
      FindGroup(groups, k, j);
      MergeStep(prefix, x, d, groups, j);
    } else {
      NewStep(prefix, x, d, groups);
    }
  }

  lemma {:induction false} AggregatedIsGroups(rows: seq<Row>)
    ensures IsGroups(rows, Aggregated(rows))
  {
    if rows != [] {
      var n := |rows| - 1;
      var prefix, x := rows[..n], rows[n];
      assert rows == prefix + [x];
      AggregatedIsGroups(prefix);
      GroupsStep(prefix, x);
    }
  }

  /** The aggregate is exactly one `Group` per distinct key, in the order in which the keys
      first occur. */
  lemma AggregatedGroups(rows: seq<Row>)
    ensures var keys := Dedup(KeysOf(rows));
      |Aggregated(rows)| == |keys| && forall i :: 0 <= i < |keys| ==> Aggregated(rows)[i] == Group(rows, keys[i])
  {
    AggregatedIsGroups(rows);
  }

  /** The keys of the aggregate are the distinct keys of the input, in first-occurrence
      order; in particular no two merged rows share a key. */
  lemma AggregatedKeys(rows: seq<Row>)
    ensures KeysOf(Aggregated(rows)) == Dedup(KeysOf(rows))
    ensures Distinct(KeysOf(Aggregated(rows)))
  {
    AggregatedGroups(rows);
  }

  /** Every merged row takes its chain, protocol and version from some input row. */
  lemma AggregatedOrigin(rows: seq<Row>, k: nat)
    requires k < |Aggregated(rows)|
    ensures exists i ::
              && 0 <= i < |rows|
              && rows[i].chain == Aggregated(rows)[k].chain
              && rows[i].protocol == Aggregated(rows)[k].protocol
              && rows[i].version == Aggregated(rows)[k].version
  {
    AggregatedGroups(rows);
    var g := Group(rows, Dedup(KeysOf(rows))[k]);
  }

  /** A measure that merging adds up is not changed by aggregation. */
  lemma {:induction false} AggregatedSum(rows: seq<Row>, f: Row -> Number)
    requires forall a: Row, b: Row :: f(Merge(a, b)) == Add(f(a), f(b))
    ensures SumBy(Aggregated(rows), f) == SumBy(rows, f)
  {
    if rows != [] {
      var n := |rows| - 1;
      var groups := Aggregated(rows[..n]);
      var x := rows[n];
      AggregatedSum(rows[..n], f);
      match IndexOfKey(groups, Key(x))
      case None =>
        SumBySnoc(groups, x, f);
      case Some(j) =>
        SumByUpdate(groups, j, Merge(groups[j], x), f(x), f);
    }
  }

  /** Aggregation keeps the total count and the total amount. */
  lemma AggregatedTotals(rows: seq<Row>)
    ensures SumBy(Aggregated(rows), CountOf) == SumBy(rows, CountOf)
    ensures SumBy(Aggregated(rows), AmountOf) == SumBy(rows, AmountOf)
  {
    AggregatedSum(rows, CountOf);
    AggregatedSum(rows, AmountOf);
  }

  /** Two rows are merged exactly when their keys are equal. */
  lemma PairMerged(a: Row, b: Row)
    ensures Key(a) == Key(b) ==> Aggregated([a, b]) == [Merge(a, b)]
    ensures Key(a) != Key(b) ==> Aggregated([a, b]) == [a, b]
  {
    assert [a, b][..1] == [a];
    assert [a][..0] == [];
    assert Aggregated([a]) == [a];
  }

  /** Two samples of Uniswap v3 on Ethereum, 5 trades for 100 and 3 trades for 50, become one
      row with 8 trades for 150. */
  lemma SameKeyExample()
    ensures var a := Row("ethereum", "Uniswap", Some("v3"), Finite(5.0), Finite(100.0));
      var b := Row("ethereum", "Uniswap", Some("v3"), Finite(3.0), Finite(50.0));
      Aggregated([a, b]) == [Row("ethereum", "Uniswap", Some("v3"), Finite(8.0), Finite(150.0))]
  {
    var a := Row("ethereum", "Uniswap", Some("v3"), Finite(5.0), Finite(100.0));
    var b := Row("ethereum", "Uniswap", Some("v3"), Finite(3.0), Finite(50.0));
    PairMerged(a, b);
  }

  /** A row without a version and a row with version "v2" stay apart. */
  lemma VersionSeparates(a: Row)
    ensures Aggregated([a.(version := None), a.(version := Some("v2"))]) == [a.(version := None), a.(version := Some("v2"))]
  {
    PairMerged(a.(version := None), a.(version := Some("v2")));
  }

  /** Because the key is one joined string, a protocol "a__vb" without a version and a protocol
      "a" with version "vb__" on the same chain are merged into one row, which keeps the
      first row's protocol. */
  lemma KeyCollision(chain: string, c1: Number, a1: Number, c2: Number, a2: Number)
    ensures var r1 := Row(chain, "a__vb", None, c1, a1);
      var r2 := Row(chain, "a", Some("vb__"), c2, a2);
      Aggregated([r1, r2]) == [Row(chain, "a__vb", None, Add(c1, c2), Add(a1, a2))]
  {
    var r1 := Row(chain, "a__vb", None, c1, a1);
    var r2 := Row(chain, "a", Some("vb__"), c2, a2);
    assert Key(r1) == Key(r2);
    PairMerged(r1, r2);
  }

  /** The method's `Map`, as a dictionary and its key insertion order, holds `groups`. */
  ghost predicate Mirrors(stored: map<string, Row>, order: seq<string>, groups: seq<Row>) {
    && order == KeysOf(groups)
    && (forall t :: 0 <= t < |order| ==> order[t] in stored && stored[order[t]] == groups[t])
    && (forall k :: k in stored ==> k in order)
  }

  lemma MirrorsNew(stored: map<string, Row>, order: seq<string>, groups: seq<Row>, row: Row)
    requires Mirrors(stored, order, groups) && Key(row) !in stored
    ensures Mirrors(stored[Key(row) := row], order + [Key(row)], AddRow(groups, row))
  {
    assert IndexOfKey(groups, Key(row)) == None;
    KeysOfSnoc(groups, row);
  }

  lemma MirrorsMerge(stored: map<string, Row>, order: seq<string>, groups: seq<Row>, row: Row)
    requires Mirrors(stored, order, groups) && Key(row) in stored && Distinct(order)
    ensures Mirrors(stored[Key(row) := Merge(stored[Key(row)], row)], order, AddRow(groups, row))
  {
    var key := Key(row);
    var j :| 0 <= j < |order| && order[j] == key;
    FindGroup(groups, key, j);
    assert stored[key] == groups[j];
    MirrorsUpdate(stored, order, groups, j, Merge(groups[j], row));
  }

  /** Storing a row under a key already in the map replaces that key's row in place. */
  lemma MirrorsUpdate(stored: map<string, Row>, order: seq<string>, groups: seq<Row>, j: nat, r: Row)
    requires Mirrors(stored, order, groups) && Distinct(order) && j < |order| && Key(r) == order[j]
    ensures Mirrors(stored[order[j] := r], order, groups[j := r])
  {
    KeysOfUpdate(groups, j, r);
    var updated, replaced := stored[order[j] := r], groups[j := r];
    forall t | 0 <= t < |order|
      ensures order[t] in updated && updated[order[t]] == replaced[t]
    {
      if t != j {
        assert order[t] != order[j];
      }
    }
  }

  /** Replacing a row by one with the same key keeps the keys. */
  lemma KeysOfUpdate(groups: seq<Row>, j: nat, r: Row)
    requires j < |groups| && Key(r) == Key(groups[j])
    ensures KeysOf(groups[j := r]) == KeysOf(groups)
  {}

  /** `aggregateByChainProtocol`: a `Map` from key to merged row, filled in one pass, whose
      values are returned in insertion order. */
  method AggregateByChainProtocol(rows: seq<Row>) returns (out: seq<Row>)
    ensures out == Aggregated(rows)
  {
    var stored: map<string, Row> := map[];
    var order: seq<string> := [];
    for i := 0 to |rows|
      invariant Mirrors(stored, order, Aggregated(rows[..i]))
    {
      ghost var groups := Aggregated(rows[..i]);
      assert rows[..i + 1] == rows[..i] + [rows[i]];
      AggregatedSnoc(rows[..i], rows[i]);
      var row := rows[i];
      var key := Key(row);
      if key !in stored {
        MirrorsNew(stored, order, groups, row);
        stored := stored[key := row];
        order := order + [key];
      } else {
        AggregatedKeys(rows[..i]);
        MirrorsMerge(stored, order, groups, row);
        var current := stored[key];
        stored := stored[key := Merge(current, row)];
      }
    }
    assert rows[..|rows|] == rows;
    out := seq(|order|, t requires 0 <= t < |order| && order[t] in stored => stored[order[t]]);
  }
}
