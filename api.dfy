/** The summaries of `src/lib/api.ts`: one entry per supported chain with its totals and its
    ranked protocols, the overall figures drawn from those entries, and the chains whose
    fetch failed. Fetching itself is network I/O; the model starts from its outcome, the list
    of responses that arrived, each with the name of its chain. */
module Api {
  import opened Wrappers
  import opened JsNumber
  import opened JsString
  import opened JsValue
  import opened Sequences
  import opened DataNormalizer
  import opened Aggregator
  import opened Ranking

  /** `SUPPORTED_BLOCKCHAINS`, in display order. */
  const SupportedBlockchains: seq<string> := ["ethereum", "bsc", "arbitrum", "base", "solana"]

  /** A chain whose fetch succeeded: its name and the `data` member of its response. */
  datatype RawDataResult = RawDataResult(chainName: string, data: Value)

  /** One chain's entry: its totals and all of its protocols, highest volume first. */
  datatype BlockchainData = BlockchainData(network: string, totalVolume: Number, totalTransactions: Number, leadingProtocols: seq<ProtocolData>)

  datatype Overall = Overall(topBlockchain: string, leadingProtocol: string, totalVolume: Number, totalTransactions: Number)

  datatype AllAnalyticsData = AllAnalyticsData(overall: Overall, blockchains: Record, partial: bool, failedChains: seq<string>)

  /** A `Record<string, BlockchainData>` as its entries in enumeration order. */
  type Record = seq<(string, BlockchainData)>

  // ---- Records

  function RecordKeys(rec: Record): (keys: seq<string>)
    ensures |keys| == |rec| && forall i :: 0 <= i < |rec| ==> keys[i] == rec[i].0
  {
    seq(|rec|, i requires 0 <= i < |rec| => rec[i].0)
  }

  /** `Object.values(rec)`. */
  function RecordValues(rec: Record): (vs: seq<BlockchainData>)
    ensures |vs| == |rec| && forall i :: 0 <= i < |rec| ==> vs[i] == rec[i].1
  {
    seq(|rec|, i requires 0 <= i < |rec| => rec[i].1)
  }

  /** `rec[key]`, `undefined` when the key is absent. */
  function RecordGet(rec: Record, key: string): (r: Option<BlockchainData>)
    ensures r.None? <==> key !in RecordKeys(rec)
  {
    if rec == [] then None
    else if rec[0].0 == key then Some(rec[0].1)
    else
      assert RecordKeys(rec) == [rec[0].0] + RecordKeys(rec[1..]);
      RecordGet(rec[1..], key)
  }

  /** `rec[key] = value`: a key already present keeps its place, a new key goes last. */
  function Put(rec: Record, key: string, value: BlockchainData): Record {
    if rec == [] then [(key, value)]
    else if rec[0].0 == key then [(key, value)] + rec[1..]
    else [rec[0]] + Put(rec[1..], key, value)
  }

  lemma RecordKeysCons(x: (string, BlockchainData), rec: Record)
    ensures RecordKeys([x] + rec) == [x.0] + RecordKeys(rec)
  {}

  /** `rec[key] = value` adds `key` at the end when it is new and otherwise keeps the keys. */
  lemma {:induction false} PutKeys(rec: Record, key: string, value: BlockchainData)
    ensures RecordKeys(Put(rec, key, value)) == if key in RecordKeys(rec) then RecordKeys(rec) else RecordKeys(rec) + [key]
  {
    if rec != [] {
      RecordKeysCons(rec[0], rec[1..]);
      assert rec == [rec[0]] + rec[1..];
      if rec[0].0 == key {
        RecordKeysCons((key, value), rec[1..]);
      } else {
        PutKeys(rec[1..], key, value);
        RecordKeysCons(rec[0], Put(rec[1..], key, value));
      }
    }
  }

  /** After `rec[key] = value`, reading `key` gives `value` and every other key reads as
      before. */
  lemma {:induction false} PutGet(rec: Record, key: string, value: BlockchainData, k: string)
    ensures RecordGet(Put(rec, key, value), k) == if k == key then Some(value) else RecordGet(rec, k)
  {
    if rec != [] && rec[0].0 != key {
      PutGet(rec[1..], key, value, k);
      assert Put(rec, key, value) == [rec[0]] + Put(rec[1..], key, value);
      assert ([rec[0]] + Put(rec[1..], key, value))[1..] == Put(rec[1..], key, value);
    } else if rec != [] {
      assert ([(key, value)] + rec[1..])[1..] == rec[1..];
    }
  }

  /** In a record whose keys are distinct, each entry is what a lookup of its key finds. */
  lemma {:induction false} RecordGetEntry(rec: Record, i: nat)
    requires Distinct(RecordKeys(rec)) && i < |rec|
    ensures RecordGet(rec, rec[i].0) == Some(rec[i].1)
  {
    if i > 0 {
      assert RecordKeys(rec)[0] != RecordKeys(rec)[i];
      assert Distinct(RecordKeys(rec[1..])) by {
        assert forall a :: 0 <= a < |rec| - 1 ==> RecordKeys(rec[1..])[a] == RecordKeys(rec)[a + 1];
      }
      RecordGetEntry(rec[1..], i - 1);
    }
  }

  // ---- One chain's entry

  /** The `ProtocolData` made from one merged row. */
  function ToProtocolData(g: Row): ProtocolData {
    ProtocolData(g.protocol, g.version, Round(g.tradeAmount), g.count)
  }

  /** `aggregatedRows.filter(row => row.chain === chain).map(...)`. */
  function ChainProtocols(groups: seq<Row>, chain: string): seq<ProtocolData> {
    if groups == [] then []
    else
      var n := |groups| - 1;
      ChainProtocols(groups[..n], chain) + (if groups[n].chain == chain then [ToProtocolData(groups[n])] else [])
  }

  /** A chain's protocol list holds exactly the merged rows of that chain. */
  lemma {:induction false} ChainProtocolsMembers(groups: seq<Row>, chain: string)
    ensures forall p :: p in ChainProtocols(groups, chain) ==> exists g :: g in groups && g.chain == chain && p == ToProtocolData(g)
    ensures forall g :: g in groups && g.chain == chain ==> ToProtocolData(g) in ChainProtocols(groups, chain)
  {
    if groups != [] {
      var n := |groups| - 1;
      ChainProtocolsMembers(groups[..n], chain);
      assert groups == groups[..n] + [groups[n]];
    }
  }

  /** The entry `processRawData` stores for `chain`. Its totals are computed over the sorted
      list; the contract gives them over the list before sorting, which the sort only
      permutes. */
  function ChainSummary(groups: seq<Row>, chain: string): (b: BlockchainData)
    ensures b.network == chain
    ensures multiset(b.leadingProtocols) == multiset(ChainProtocols(groups, chain))
    ensures b.totalVolume == SumBy(ChainProtocols(groups, chain), VolumeOf)
    ensures b.totalTransactions == SumBy(ChainProtocols(groups, chain), TransactionsOf)
  {
    var ps := ChainProtocols(groups, chain);
    var sorted := SortByVolume(ps);
    SumByPermutation(sorted, ps, VolumeOf);
    SumByPermutation(sorted, ps, TransactionsOf);
    BlockchainData(chain, SumBy(sorted, VolumeOf), SumBy(sorted, TransactionsOf), sorted)
  }

  /** The ranking of a chain: highest volume first, protocols of equal volume in the order of
      the merged rows (volumes other than NaN). */
  lemma ChainRanking(groups: seq<Row>, chain: string, v: Number)
    requires NoNaNVolume(ChainProtocols(groups, chain))
    ensures SortedByVolume(ChainSummary(groups, chain).leadingProtocols)
    ensures WithVolume(ChainSummary(groups, chain).leadingProtocols, v) == WithVolume(ChainProtocols(groups, chain), v)
  {
    SortSorted(ChainProtocols(groups, chain));
    SortStable(ChainProtocols(groups, chain), v);
  }

  /** A chain without merged rows gets zero totals and no protocols. */
  lemma EmptyChain(groups: seq<Row>, chain: string)
    requires forall g :: g in groups ==> g.chain != chain
    ensures ChainSummary(groups, chain) == BlockchainData(chain, Zero, Zero, [])
  {
    ChainProtocolsNone(groups, chain);
  }

  lemma {:induction false} ChainProtocolsNone(groups: seq<Row>, chain: string)
    requires forall g :: g in groups ==> g.chain != chain
    ensures ChainProtocols(groups, chain) == []
  {
    if groups != [] {
      var n := |groups| - 1;
      assert groups[n] in groups;
      assert forall g :: g in groups[..n] ==> g in groups;
      ChainProtocolsNone(groups[..n], chain);
    }
  }

  /** The record filled by the loop over `chains`. */
  function ChainRecord(groups: seq<Row>, chains: seq<string>): Record {
    if chains == [] then []
    else
      var n := |chains| - 1;
      Put(ChainRecord(groups, chains[..n]), chains[n], ChainSummary(groups, chains[n]))
  }

  /** Every chain of the list gets exactly one entry, in list order. */
  lemma {:induction false} ChainRecordKeys(groups: seq<Row>, chains: seq<string>)
    ensures RecordKeys(ChainRecord(groups, chains)) == Dedup(chains)
  {
    if chains != [] {
      var n := |chains| - 1;
      ChainRecordKeys(groups, chains[..n]);
      PutKeys(ChainRecord(groups, chains[..n]), chains[n], ChainSummary(groups, chains[n]));
    }
  }

  /** The entry of a listed chain is its summary; no other key is present. */
  lemma {:induction false} ChainRecordGet(groups: seq<Row>, chains: seq<string>, c: string)
    ensures c in chains ==> RecordGet(ChainRecord(groups, chains), c) == Some(ChainSummary(groups, c))
    ensures c !in chains ==> RecordGet(ChainRecord(groups, chains), c).None?
  {
    if chains != [] {
      var n := |chains| - 1;
      var prefix := chains[..n];
      ChainRecordGet(groups, prefix, c);
      PutGet(ChainRecord(groups, prefix), chains[n], ChainSummary(groups, chains[n]), c);
      SnocMember(chains, c);
    }
  }

  /** An element of a non-empty list is in all but its last position, or is the last. */
  lemma SnocMember(xs: seq<string>, x: string)
    requires xs != []
    ensures x in xs <==> x in xs[..|xs| - 1] || x == xs[|xs| - 1]
  {
    var n := |xs| - 1;
    if x in xs {
      var i :| 0 <= i < |xs| && xs[i] == x;
      if i < n {
        assert xs[..n][i] == x;
      }
    }
    if x in xs[..n] {
      var i :| 0 <= i < n && xs[..n][i] == x;
      assert xs[i] == x;
    }
  }

  // ---- processRawData

  /** `result.data ? normalizeChainResponse(result.data, result.chainName) : []`. */
  function ResultRows(result: RawDataResult, parse: string -> Number): Result<seq<Row>> {
    if Truthy(result.data) then ChainRows(result.data, result.chainName, parse) else Ok([])
  }

  /** The rows of one result all carry its chain name, and a result without `data` gives
      none. */
  lemma ResultRowsChain(result: RawDataResult, parse: string -> Number)
    ensures ResultRows(result, parse).Ok? ==>
              forall row :: row in ResultRows(result, parse).value ==> Truthy(result.data) && row.chain == result.chainName
  {
    if Truthy(result.data) {
      ChainRowsShape(result.data, result.chainName, parse);
    }
  }

  /** `result => ResultRows(result, parse)`. */
  function RowsMaker(parse: string -> Number): RawDataResult -> Result<seq<Row>> {
    result => ResultRows(result, parse)
  }

  /** `results.flatMap(...)`: the rows of every result, in order; it throws when one of the
      calls throws. */
  function CollectRows(results: seq<RawDataResult>, parse: string -> Number): Result<seq<Row>> {
    FlatMapAll(results, RowsMaker(parse))
  }

  /** Each collected row comes from a result with `data` and carries that result's chain
      name. */
  lemma CollectRowsChains(results: seq<RawDataResult>, parse: string -> Number)
    ensures CollectRows(results, parse).Ok? ==>
              forall row :: row in CollectRows(results, parse).value ==>
                exists i :: 0 <= i < |results| && Truthy(results[i].data) && row.chain == results[i].chainName
  {
    FlatMapAllOrigin(results, RowsMaker(parse));
    forall i | 0 <= i < |results| {
      ResultRowsChain(results[i], parse);
    }
  }

  /** What `processRawData(results)` returns or throws, for the chain list `chains`. */
  function Processed(results: seq<RawDataResult>, chains: seq<string>, parse: string -> Number): Result<Record> {
    match CollectRows(results, parse)
    case TypeError => TypeError
    case Ok(rows) => Ok(ChainRecord(Aggregated(rows), chains))
  }

  /** `processRawData`: collects and merges the rows, then fills the record one chain at a
      time. */
  method ProcessRawData(results: seq<RawDataResult>, chains: seq<string>, parse: string -> Number) returns (r: Result<Record>)
    ensures r == Processed(results, chains, parse)
  {
    var rows: seq<Row> := [];
    for i := 0 to |results|
      invariant CollectRows(results[..i], parse) == Ok(rows)
    {
      FlatMapAllStep(results, i, RowsMaker(parse));
      var more: Result<seq<Row>> := Ok([]);
      if Truthy(results[i].data) {
        more := NormalizeChainResponse(results[i].data, results[i].chainName, parse);
      }
      if more.TypeError? {
        assert RowsMaker(parse)(results[i]).TypeError?;
        return TypeError;
      }
      rows := rows + more.value;
    }
    assert results[..|results|] == results;
    var groups := AggregateByChainProtocol(rows);
    var record: Record := [];
    for j := 0 to |chains|
      invariant record == ChainRecord(groups, chains[..j])
    {
      assert chains[..j + 1][..j] == chains[..j];
      var chain := chains[j];
      var protocols := SortByVolume(ChainProtocols(groups, chain));
      var totalVolume := SumBy(protocols, VolumeOf);
      var totalTransactions := SumBy(protocols, TransactionsOf);
      record := Put(record, chain, BlockchainData(chain, totalVolume, totalTransactions, protocols));
    }
    assert chains[..|chains|] == chains;
    return Ok(record);
  }

  // ---- calculateOverallAnalytics

  function TotalVolumeOf(b: BlockchainData): Number {
    b.totalVolume
  }

  function TotalTransactionsOf(b: BlockchainData): Number {
    b.totalTransactions
  }

  /** `(a, b) => (a.totalVolume > b.totalVolume ? a : b)`. */
  function Bigger(a: BlockchainData, b: BlockchainData): BlockchainData {
    if Gt(a.totalVolume, b.totalVolume) then a else b
  }

  /** `values.reduce(Bigger, seed)`. */
  function TopChain(seed: BlockchainData, values: seq<BlockchainData>): BlockchainData
    decreases |values|
  {
    if values == [] then seed else TopChain(Bigger(seed, values[0]), values[1..])
  }

  predicate NoNaNTotals(values: seq<BlockchainData>) {
    forall j :: 0 <= j < |values| ==> !values[j].totalVolume.NaN?
  }

  /** `values[i]` has the largest total volume and every later value a smaller one. */
  predicate IsLastMaximum(values: seq<BlockchainData>, i: int) {
    && 0 <= i < |values|
    && (forall j :: 0 <= j < |values| ==> Ge(values[i].totalVolume, values[j].totalVolume))
    && (forall j :: i < j < |values| ==> Gt(values[i].totalVolume, values[j].totalVolume))
  }

  /** The reduce keeps its seed only when the seed beats every value; otherwise it ends on
      the last value of maximal total volume, which is at least the seed's. */
  lemma {:induction false} TopChainFold(seed: BlockchainData, values: seq<BlockchainData>)
    requires NoNaNTotals(values) && !seed.totalVolume.NaN?
    ensures || (TopChain(seed, values) == seed && forall j :: 0 <= j < |values| ==> Gt(seed.totalVolume, values[j].totalVolume))
            || exists i :: IsLastMaximum(values, i) && TopChain(seed, values) == values[i] && Ge(values[i].totalVolume, seed.totalVolume)
    decreases |values|
  {
    if values != [] {
      var v0, rest := values[0], values[1..];
      var acc := Bigger(seed, v0);
      assert forall j :: 0 <= j < |rest| ==> rest[j] == values[j + 1];
      TopChainFold(acc, rest);
      OrderFacts(seed.totalVolume, v0.totalVolume, v0.totalVolume);
      if !(TopChain(acc, rest) == acc && forall j :: 0 <= j < |rest| ==> Gt(acc.totalVolume, rest[j].totalVolume)) {
        var i :| IsLastMaximum(rest, i) && TopChain(acc, rest) == rest[i] && Ge(rest[i].totalVolume, acc.totalVolume);
        TopChainLater(seed, values, i);
      } else if Gt(seed.totalVolume, v0.totalVolume) {
        assert TopChain(seed, values) == seed;
      } else {
        TopChainFirst(seed, values);
      }
    }
  }

  /** The case of `TopChainFold` where the reduce ends on a value after the first. */
  lemma TopChainLater(seed: BlockchainData, values: seq<BlockchainData>, i: int)
    requires NoNaNTotals(values) && !seed.totalVolume.NaN? && values != []
    requires IsLastMaximum(values[1..], i)
    requires Ge(values[1..][i].totalVolume, Bigger(seed, values[0]).totalVolume)
    ensures IsLastMaximum(values, i + 1) && Ge(values[i + 1].totalVolume, seed.totalVolume)
  {
    var top := values[i + 1];
    assert top == values[1..][i];
    OrderFacts(seed.totalVolume, values[0].totalVolume, values[0].totalVolume);
    OrderFacts(top.totalVolume, seed.totalVolume, values[0].totalVolume);
    OrderFacts(top.totalVolume, values[0].totalVolume, seed.totalVolume);
    forall j | 0 < j < |values|
      ensures Ge(top.totalVolume, values[j].totalVolume)
      ensures i + 1 < j ==> Gt(top.totalVolume, values[j].totalVolume)
    {
      assert values[j] == values[1..][j - 1];
    }
  }

  /** The case of `TopChainFold` where the first value beats the seed and all later values. */
  lemma TopChainFirst(seed: BlockchainData, values: seq<BlockchainData>)
    requires NoNaNTotals(values) && !seed.totalVolume.NaN? && values != []
    requires !Gt(seed.totalVolume, values[0].totalVolume)
    requires TopChain(values[0], values[1..]) == values[0]
    requires forall j :: 0 <= j < |values[1..]| ==> Gt(values[0].totalVolume, values[1..][j].totalVolume)
    ensures IsLastMaximum(values, 0) && TopChain(seed, values) == values[0] && Ge(values[0].totalVolume, seed.totalVolume)
  {
    OrderFacts(seed.totalVolume, values[0].totalVolume, values[0].totalVolume);
    forall j | 0 < j < |values|
      ensures Gt(values[0].totalVolume, values[j].totalVolume)
    {
      assert values[j] == values[1..][j - 1];
    }
  }

  /** Seeded with one of the values, the reduce picks the last value of maximal total volume:
      a tie goes to the later chain. */
  lemma TopChainIsLastMaximum(values: seq<BlockchainData>, k: nat)
    requires k < |values| && NoNaNTotals(values)
    ensures exists i :: IsLastMaximum(values, i) && TopChain(values[k], values) == values[i]
  {
    TopChainFold(values[k], values);
    OrderFacts(values[k].totalVolume, values[k].totalVolume, values[k].totalVolume);
  }

  /** `network.charAt(0).toUpperCase() + network.slice(1)`. */
  function Capitalize(s: string): string {
    if s == [] then [] else [AsciiUpper(s[0])] + s[1..]
  }

  /** `name (version)` for the first protocol of the ranking, just `name` when its version
      is missing or empty, and "Unknown" when the ranking is empty. */
  function LeadingLabel(ps: seq<ProtocolData>): string {
    if ps == [] then "Unknown"
    else if ps[0].version.Some? && ps[0].version.value != "" then ps[0].name + " (" + ps[0].version.value + ")"
    else ps[0].name
  }

  /** `calculateOverallAnalytics`. Reading `blockchainData.ethereum` yields `undefined` when
      the record has no such key, and the reduce (or, on an empty record, the read of
      `network`) then throws. */
  function CalculateOverallAnalytics(rec: Record): (r: Result<Overall>)
    ensures r.TypeError? <==> "ethereum" !in RecordKeys(rec)
    ensures r.Ok? ==> r.value.totalVolume == SumBy(RecordValues(rec), TotalVolumeOf)
    ensures r.Ok? ==> r.value.totalTransactions == SumBy(RecordValues(rec), TotalTransactionsOf)
  {
    match RecordGet(rec, "ethereum")
    case None => TypeError
    case Some(eth) =>
      var values := RecordValues(rec);
      var top := TopChain(eth, values);
      Ok(Overall(Capitalize(top.network), LeadingLabel(top.leadingProtocols), SumBy(values, TotalVolumeOf), SumBy(values, TotalTransactionsOf)))
  }

  /** The i-th value of the record is the summary of the i-th listed chain. */
  lemma ChainRecordValues(groups: seq<Row>, chains: seq<string>, i: nat)
    requires i < |Dedup(chains)|
    ensures |ChainRecord(groups, chains)| == |Dedup(chains)|
    ensures RecordValues(ChainRecord(groups, chains))[i] == ChainSummary(groups, Dedup(chains)[i])
  {
    var rec := ChainRecord(groups, chains);
    ChainRecordKeys(groups, chains);
    RecordGetEntry(rec, i);
    ChainRecordGet(groups, chains, Dedup(chains)[i]);
  }

  /** On a record with distinct keys that has an "ethereum" entry, the overall figures name
      the last chain of largest total volume and its first protocol. */
  lemma OverallOfRecord(rec: Record, k: nat)
    requires Distinct(RecordKeys(rec)) && k < |rec| && rec[k].0 == "ethereum"
    requires NoNaNTotals(RecordValues(rec))
    ensures var r := CalculateOverallAnalytics(rec);
      && r.Ok?
      && exists i ::
           && IsLastMaximum(RecordValues(rec), i)
           && r.value.topBlockchain == Capitalize(rec[i].1.network)
           && r.value.leadingProtocol == LeadingLabel(rec[i].1.leadingProtocols)
  {
    var values := RecordValues(rec);
    RecordGetEntry(rec, k);
    TopChainIsLastMaximum(values, k);
  }

  /** On a record built for a chain list that includes "ethereum", the overall figures never
      throw, and they name the last chain of largest total volume and that chain's first
      protocol. */
  lemma OverallTopChain(groups: seq<Row>, chains: seq<string>)
    requires "ethereum" in chains
    requires NoNaNTotals(RecordValues(ChainRecord(groups, chains)))
    ensures var rec := ChainRecord(groups, chains);
      var r := CalculateOverallAnalytics(rec);
      && r.Ok?
      && |rec| == |Dedup(chains)|
      && exists i ::
           && IsLastMaximum(RecordValues(rec), i)
           && r.value.topBlockchain == Capitalize(Dedup(chains)[i])
           && r.value.leadingProtocol == LeadingLabel(ChainSummary(groups, Dedup(chains)[i]).leadingProtocols)
  {
    var rec := ChainRecord(groups, chains);
    ChainRecordKeys(groups, chains);
    var k :| 0 <= k < |rec| && RecordKeys(rec)[k] == "ethereum";
    OverallOfRecord(rec, k);
    var i :| IsLastMaximum(RecordValues(rec), i)
      && CalculateOverallAnalytics(rec).value.topBlockchain == Capitalize(rec[i].1.network)
      && CalculateOverallAnalytics(rec).value.leadingProtocol == LeadingLabel(rec[i].1.leadingProtocols);
    ChainRecordValues(groups, chains, i);
  }

  /** The `ProtocolData` of every merged row on one of the chains `cs`, in order. */
  function ListedProtocols(groups: seq<Row>, cs: seq<string>): seq<ProtocolData> {
    if groups == [] then []
    else
      var n := |groups| - 1;
      ListedProtocols(groups[..n], cs) + (if groups[n].chain in cs then [ToProtocolData(groups[n])] else [])
  }

  /** Only which chains are listed matters, not how often or in which order. */
  lemma {:induction false} ListedProtocolsSameChains(groups: seq<Row>, cs: seq<string>, ds: seq<string>)
    requires forall c :: c in cs <==> c in ds
    ensures ListedProtocols(groups, cs) == ListedProtocols(groups, ds)
  {
    if groups != [] {
      ListedProtocolsSameChains(groups[..|groups| - 1], cs, ds);
    }
  }

  function Itself(x: Number): Number {
    x
  }

  /** The total of the measure `f` for each chain of `cs`. */
  function ChainTotals(groups: seq<Row>, cs: seq<string>, f: ProtocolData -> Number): (ts: seq<Number>)
    ensures |ts| == |cs| && forall i :: 0 <= i < |cs| ==> ts[i] == SumBy(ChainProtocols(groups, cs[i]), f)
  {
    seq(|cs|, i requires 0 <= i < |cs| => SumBy(ChainProtocols(groups, cs[i]), f))
  }

  lemma {:induction false} SumOfZeros(xs: seq<Number>)
    requires forall i :: 0 <= i < |xs| ==> xs[i] == Zero
    ensures SumBy(xs, Itself) == Zero
  {
    if xs != [] {
      SumOfZeros(xs[..|xs| - 1]);
    }
  }

  /** Adding up the per-chain totals of distinct chains adds up every merged row on those
      chains once. */
  lemma {:induction false} ChainTotalsPartition(groups: seq<Row>, cs: seq<string>, f: ProtocolData -> Number)
    requires Distinct(cs)
    ensures SumBy(ChainTotals(groups, cs, f), Itself) == SumBy(ListedProtocols(groups, cs), f)
  {
    if groups == [] {
      SumOfZeros(ChainTotals(groups, cs, f));
    } else {
      var n := |groups| - 1;
      var pre, g := groups[..n], groups[n];
      var pd := ToProtocolData(g);
      ChainTotalsPartition(pre, cs, f);
      var before := ChainTotals(pre, cs, f);
      if g.chain in cs {
        var j :| 0 <= j < |cs| && cs[j] == g.chain;
        ChainTotalsListed(groups, cs, f, j);
        SumByUpdate(before, j, Add(before[j], f(pd)), f(pd), Itself);
        assert ListedProtocols(groups, cs) == ListedProtocols(pre, cs) + [pd];
        SumBySnoc(ListedProtocols(pre, cs), pd, f);
      } else {
        ChainTotalsUnlisted(groups, cs, f);
        assert ListedProtocols(groups, cs) == ListedProtocols(pre, cs) + [];
        assert ListedProtocols(pre, cs) + [] == ListedProtocols(pre, cs);
      }
    }
  }

  /** A last merged row on the listed chain `cs[j]` adds its measure to that chain's total. */
  lemma ChainTotalsListed(groups: seq<Row>, cs: seq<string>, f: ProtocolData -> Number, j: nat)
    requires Distinct(cs) && groups != [] && j < |cs| && cs[j] == groups[|groups| - 1].chain
    ensures var n := |groups| - 1;
      var before := ChainTotals(groups[..n], cs, f);
      ChainTotals(groups, cs, f) == before[j := Add(before[j], f(ToProtocolData(groups[n])))]
  {
    var n := |groups| - 1;
    var pre, g := groups[..n], groups[n];
    var before := ChainTotals(pre, cs, f);
    var after := ChainTotals(groups, cs, f);
    forall i | 0 <= i < |cs|
      ensures after[i] == before[j := Add(before[j], f(ToProtocolData(g)))][i]
    {
      if i == j {
        assert ChainProtocols(groups, cs[i]) == ChainProtocols(pre, cs[i]) + [ToProtocolData(g)];
        SumBySnoc(ChainProtocols(pre, g.chain), ToProtocolData(g), f);
      } else {
        assert cs[i] != cs[j];
        assert ChainProtocols(groups, cs[i]) == ChainProtocols(pre, cs[i]) + [];
        assert ChainProtocols(pre, cs[i]) + [] == ChainProtocols(pre, cs[i]);
      }
    }
  }

  /** A last merged row on no listed chain changes no total. */
  lemma ChainTotalsUnlisted(groups: seq<Row>, cs: seq<string>, f: ProtocolData -> Number)
    requires groups != [] && groups[|groups| - 1].chain !in cs
    ensures ChainTotals(groups, cs, f) == ChainTotals(groups[..|groups| - 1], cs, f)
  {
    var n := |groups| - 1;
    forall i | 0 <= i < |cs|
      ensures ChainTotals(groups, cs, f)[i] == ChainTotals(groups[..n], cs, f)[i]
    {
      assert cs[i] != groups[n].chain;
      assert ChainProtocols(groups, cs[i]) == ChainProtocols(groups[..n], cs[i]) + [];
      assert ChainProtocols(groups[..n], cs[i]) + [] == ChainProtocols(groups[..n], cs[i]);
    }
  }

  /** The overall totals add up, over every merged row on a listed chain, its rounded volume
      and its count: each row is counted once, under its own chain. */
  lemma OverallTotals(groups: seq<Row>, chains: seq<string>)
    requires "ethereum" in chains
    ensures var r := CalculateOverallAnalytics(ChainRecord(groups, chains));
      && r.Ok?
      && r.value.totalVolume == SumBy(ListedProtocols(groups, chains), VolumeOf)
      && r.value.totalTransactions == SumBy(ListedProtocols(groups, chains), TransactionsOf)
  {
    ChainRecordKeys(groups, chains);
    RecordVolumes(groups, chains);
    RecordTransactions(groups, chains);
  }

  /** The record's values are the summaries of the listed chains, in list order. */
  lemma RecordValuesAreSummaries(groups: seq<Row>, chains: seq<string>)
    ensures var vs := RecordValues(ChainRecord(groups, chains));
      && |vs| == |Dedup(chains)|
      && forall i :: 0 <= i < |vs| ==> vs[i] == ChainSummary(groups, Dedup(chains)[i])
  {
    var rec := ChainRecord(groups, chains);
    var d := Dedup(chains);
    ChainRecordKeys(groups, chains);
    forall i | 0 <= i < |d|
      ensures RecordValues(rec)[i] == ChainSummary(groups, d[i])
    {
      ChainRecordValues(groups, chains, i);
    }
  }

  /** The record's total volumes add up to the rounded volume of every listed merged row. */
  lemma RecordVolumes(groups: seq<Row>, chains: seq<string>)
    ensures SumBy(RecordValues(ChainRecord(groups, chains)), TotalVolumeOf) == SumBy(ListedProtocols(groups, chains), VolumeOf)
  {
    var d := Dedup(chains);
    RecordValuesAreSummaries(groups, chains);
    SumByPointwise(RecordValues(ChainRecord(groups, chains)), ChainTotals(groups, d, VolumeOf), TotalVolumeOf, Itself);
    ChainTotalsPartition(groups, d, VolumeOf);
    ListedProtocolsSameChains(groups, d, chains);
  }

  /** The record's transaction totals add up to the count of every listed merged row. */
  lemma RecordTransactions(groups: seq<Row>, chains: seq<string>)
    ensures SumBy(RecordValues(ChainRecord(groups, chains)), TotalTransactionsOf) == SumBy(ListedProtocols(groups, chains), TransactionsOf)
  {
    var d := Dedup(chains);
    RecordValuesAreSummaries(groups, chains);
    SumByPointwise(RecordValues(ChainRecord(groups, chains)), ChainTotals(groups, d, TransactionsOf), TotalTransactionsOf, Itself);
    ChainTotalsPartition(groups, d, TransactionsOf);
    ListedProtocolsSameChains(groups, d, chains);
  }

  /** The top chain on concrete totals: the larger volume wins, and a tie goes to the chain
      listed later. */
  lemma TopChainExamples()
    ensures var eth := BlockchainData("ethereum", Finite(1000.0), Finite(3.0), []);
      var bsc := BlockchainData("bsc", Finite(2000.0), Finite(1.0), []);
      TopChain(eth, [eth, bsc]) == bsc
    ensures var eth := BlockchainData("ethereum", Finite(5.0), Zero, []);
      var bsc := BlockchainData("bsc", Finite(5.0), Zero, []);
      TopChain(eth, [eth, bsc]) == bsc
    ensures var eth := BlockchainData("ethereum", Finite(7.0), Zero, []);
      var bsc := BlockchainData("bsc", Finite(5.0), Zero, []);
      TopChain(eth, [eth, bsc]) == eth
  {
    forall eth: BlockchainData, bsc: BlockchainData
      ensures TopChain(eth, [eth, bsc]) == TopChain(Bigger(Bigger(eth, eth), bsc), [])
    {
      assert [eth, bsc][1..] == [bsc];
      assert [bsc][1..] == [];
    }
  }

  lemma LabelExamples()
    ensures Capitalize("bsc") == "Bsc" && Capitalize("") == ""
    ensures LeadingLabel([ProtocolData("Uniswap", Some("v3"), Zero, Zero)]) == "Uniswap (v3)"
    ensures LeadingLabel([ProtocolData("Uniswap", Some(""), Zero, Zero)]) == "Uniswap"
    ensures LeadingLabel([ProtocolData("Uniswap", None, Zero, Zero)]) == "Uniswap"
    ensures LeadingLabel([]) == "Unknown"
  {}

  // ---- fetchAllAnalyticsData

  /** `rawData.some(r => r.chainName === chain)`. */
  predicate Fetched(rawData: seq<RawDataResult>, chain: string) {
    exists i :: 0 <= i < |rawData| && rawData[i].chainName == chain
  }

  /** `chains.filter(chain => !rawData.some(r => r.chainName === chain))`. */
  function FailedChains(chains: seq<string>, rawData: seq<RawDataResult>): seq<string> {
    if chains == [] then []
    else
      var n := |chains| - 1;
      FailedChains(chains[..n], rawData) + (if Fetched(rawData, chains[n]) then [] else [chains[n]])
  }

  /** The failed chains are exactly the listed chains without a fetched result. */
  lemma {:induction false} FailedChainsMembers(chains: seq<string>, rawData: seq<RawDataResult>, c: string)
    ensures c in FailedChains(chains, rawData) <==> c in chains && !Fetched(rawData, c)
  {
    if chains != [] {
      var n := |chains| - 1;
      var prefix := chains[..n];
      FailedChainsMembers(prefix, rawData, c);
      assert chains == prefix + [chains[n]];
    }
  }

  /** The failed chains keep the order of the chain list. */
  lemma {:induction false} FailedChainsOrder(chains: seq<string>, rawData: seq<RawDataResult>, i: nat, j: nat)
    requires Distinct(chains)
    requires i < j < |FailedChains(chains, rawData)|
    ensures FailedChains(chains, rawData)[i] in chains && FailedChains(chains, rawData)[j] in chains
    ensures FirstPosition(chains, FailedChains(chains, rawData)[i]) < FirstPosition(chains, FailedChains(chains, rawData)[j])
  {
    var failed := FailedChains(chains, rawData);
    FailedChainsMembers(chains, rawData, failed[i]);
    FailedChainsMembers(chains, rawData, failed[j]);
    var n := |chains| - 1;
    var prefix := chains[..n];
    var last := chains[n];
    var before := FailedChains(prefix, rawData);
    assert chains == prefix + [last];
    assert Distinct(prefix) by {
      assert forall a :: 0 <= a < n ==> prefix[a] == chains[a];
    }
    FailedChainsMembers(prefix, rawData, failed[i]);
    assert failed[i] == before[i];
    FirstPositionAppend(prefix, last, failed[i]);
    if j < |before| {
      FailedChainsMembers(prefix, rawData, failed[j]);
      assert failed[j] == before[j];
      FirstPositionAppend(prefix, last, failed[j]);
      FailedChainsOrder(prefix, rawData, i, j);
    } else {
      assert failed[j] == last;
      var k := FirstPosition(chains, last);
      assert chains[k] == chains[n];
    }
  }

  /** What `fetchAllAnalyticsData` resolves to or rejects with, given the fetched results. */
  function Analytics(rawData: seq<RawDataResult>, chains: seq<string>, parse: string -> Number): Result<AllAnalyticsData> {
    match Processed(rawData, chains, parse)
    case TypeError => TypeError
    case Ok(rec) =>
      match CalculateOverallAnalytics(rec)
      case TypeError => TypeError
      case Ok(overall) =>
        var failed := FailedChains(chains, rawData);
        Ok(AllAnalyticsData(overall, rec, |failed| > 0, failed))
  }

  /** `fetchAllAnalyticsData` after the fetch: summaries, overall figures, failed chains. */
  method FetchAllAnalyticsData(rawData: seq<RawDataResult>, chains: seq<string>, parse: string -> Number) returns (r: Result<AllAnalyticsData>)
    ensures r == Analytics(rawData, chains, parse)
  {
    var blockchains := ProcessRawData(rawData, chains, parse);
    if blockchains.TypeError? {
      return TypeError;
    }
    var overall := CalculateOverallAnalytics(blockchains.value);
    if overall.TypeError? {
      return TypeError;
    }
    var failed := FailedChains(chains, rawData);
    return Ok(AllAnalyticsData(overall.value, blockchains.value, |failed| > 0, failed));
  }

  /** A listed chain none of whose results has `data` (in particular one whose fetch failed)
      gets zero totals and no protocols. */
  lemma ChainWithoutData(results: seq<RawDataResult>, chains: seq<string>, parse: string -> Number, c: string)
    requires c in chains && Processed(results, chains, parse).Ok?
    requires forall i :: 0 <= i < |results| && results[i].chainName == c ==> !Truthy(results[i].data)
    ensures RecordGet(Processed(results, chains, parse).value, c) == Some(BlockchainData(c, Zero, Zero, []))
  {
    var rows := CollectRows(results, parse).value;
    var groups := Aggregated(rows);
    CollectRowsChains(results, parse);
    forall g | g in groups
      ensures g.chain != c
    {
      var k :| 0 <= k < |groups| && groups[k] == g;
      AggregatedOrigin(rows, k);
      var i :| 0 <= i < |rows| && rows[i].chain == g.chain;
      assert rows[i] in rows;
    }
    EmptyChain(groups, c);
    ChainRecordGet(groups, chains, c);
  }

  /** With "ethereum" among the chains, `fetchAllAnalyticsData` fails only when a payload
      makes normalisation throw; it then lists every chain, and it is partial exactly when
      some chain has no fetched result. */
  lemma AnalyticsShape(rawData: seq<RawDataResult>, chains: seq<string>, parse: string -> Number)
    requires "ethereum" in chains
    ensures Analytics(rawData, chains, parse).TypeError? <==> CollectRows(rawData, parse).TypeError?
    ensures Analytics(rawData, chains, parse).Ok? ==>
              && RecordKeys(Analytics(rawData, chains, parse).value.blockchains) == Dedup(chains)
              && (Analytics(rawData, chains, parse).value.partial <==> exists c :: c in chains && !Fetched(rawData, c))
  {
    if CollectRows(rawData, parse).Ok? {
      AnalyticsOk(rawData, chains, parse);
      Partial(chains, rawData);
    }
  }

  /** Once the rows are collected, the record lists every chain once and overall figures
      exist, since "ethereum" is among its keys. */
  lemma AnalyticsOk(rawData: seq<RawDataResult>, chains: seq<string>, parse: string -> Number)
    requires "ethereum" in chains && CollectRows(rawData, parse).Ok?
    ensures var rec := ChainRecord(Aggregated(CollectRows(rawData, parse).value), chains);
      && RecordKeys(rec) == Dedup(chains)
      && Analytics(rawData, chains, parse).Ok?
      && Analytics(rawData, chains, parse).value.blockchains == rec
      && Analytics(rawData, chains, parse).value.partial == (|FailedChains(chains, rawData)| > 0)
  {
    var rec := ChainRecord(Aggregated(CollectRows(rawData, parse).value), chains);
    ChainRecordKeys(Aggregated(CollectRows(rawData, parse).value), chains);
    assert "ethereum" in RecordKeys(rec);
  }

  /** `partial` holds exactly when some listed chain has no fetched result. */
  lemma Partial(chains: seq<string>, rawData: seq<RawDataResult>)
    ensures |FailedChains(chains, rawData)| > 0 <==> exists c :: c in chains && !Fetched(rawData, c)
  {
    var failed := FailedChains(chains, rawData);
    if |failed| > 0 {
      FailedChainsMembers(chains, rawData, failed[0]);
    }
    forall c | c in chains && !Fetched(rawData, c)
      ensures |failed| > 0
    {
      FailedChainsMembers(chains, rawData, c);
    }
  }

  /** With the supported chains, when every chain except "base" answered, "base" is the one
      failed chain and, if normalisation succeeds, its entry has zero totals and no
      protocols. */
  lemma OnlyBaseMissing(rawData: seq<RawDataResult>, parse: string -> Number)
    requires Fetched(rawData, "ethereum") && Fetched(rawData, "bsc") && Fetched(rawData, "arbitrum")
    requires Fetched(rawData, "solana") && !Fetched(rawData, "base")
    ensures FailedChains(SupportedBlockchains, rawData) == ["base"]
    ensures Processed(rawData, SupportedBlockchains, parse).Ok? ==>
      RecordGet(Processed(rawData, SupportedBlockchains, parse).value, "base") == Some(BlockchainData("base", Zero, Zero, []))
  {
    var chains := SupportedBlockchains;
    assert chains[..4] == ["ethereum", "bsc", "arbitrum", "base"];
    assert chains[..4][..3] == ["ethereum", "bsc", "arbitrum"];
    assert chains[..4][..3][..2] == ["ethereum", "bsc"];
    assert chains[..4][..3][..2][..1] == ["ethereum"];
    assert FailedChains(chains[..4][..3][..2][..1][..0], rawData) == [];
    assert FailedChains(chains[..4][..3][..2][..1], rawData) == [];
    assert FailedChains(chains[..4][..3][..2], rawData) == [];
    assert FailedChains(chains[..4][..3], rawData) == [];
    assert FailedChains(chains[..4], rawData) == ["base"];
    if Processed(rawData, chains, parse).Ok? {
      assert chains[3] == "base";
      ChainWithoutData(rawData, chains, parse, "base");
    }
  }
}
