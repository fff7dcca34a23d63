# Meme Market Radar analytics pipeline, in Dafny

This project models the analytics pipeline of Meme Market Radar, a dashboard of DEX activity
on several blockchains. The pipeline takes per-chain JSON payloads that have already been
fetched and turns them into ranked summaries:

- **`toNumber`, `normalizeProtocol`** coerce numbers and map the `ProtocolFamily` /
  `ProtocolVersion` / `ProtocolName` fields to a canonical `{name, version?}`.
- **`extractTradesArray`, `normalizeChainResponse`** find the array of trades in one chain's
  payload and emit one row per trade.
- **`aggregateByChainProtocol`** merges rows with the same `chain__protocol__version` key.
- **`processRawData`** builds a total and a ranked protocol list for every supported chain.
- **`calculateOverallAnalytics`** finds the grand totals, the top chain and its leading
  protocol.
- **`fetchAllAnalyticsData`** adds the list of chains that failed to load and the `partial`
  flag.
- **`getBlockchainIconUrl`** maps a chain name to its icon path.

Files:

- `wrappers.dfy`: `Option` and `Result`. `Result.TypeError` stands for a JavaScript `TypeError`
  the code throws.
- `js_number.dfy`: JavaScript numbers: finite values, the infinities and NaN. It covers `+`,
  `>`, `>=`, `Math.round`, and `reduce` sums with their algebra.
- `js_string.dfy`: `trim`, ASCII case mapping, `/^v/i` and `/DEXTrade/i`.
- `js_value.dfy`: parsed JSON values and `undefined`. It covers truthiness, property access,
  `Object.entries` and `Object.values`.
- `sequences.dfy`: `findIndex`, `flatMap` with a callback that can throw, and first-occurrence
  order.
- `data_normalizer.dfy`: `toNumber`, `normalizeProtocol`, `extractTradesArray` and
  `normalizeChainResponse`.
- `aggregator.dfy`: `aggregateByChainProtocol`. A method mirrors the code's `Map` loop and is
  proved equal to a fold. The fold is proved equal to a direct definition: one group per key,
  in order of first occurrence.
- `ranking.dfy`: the protocol sort by volume. It is a stable insertion sort, proved to be a
  permutation, sorted and stable.
- `api.dfy`: `processRawData`, `calculateOverallAnalytics` and the `failedChains`/`partial`
  part of `fetchAllAnalyticsData`. The loops are methods proved against specification
  functions.
- `utils.dfy`: `getBlockchainIconUrl`.

Parameters stand in for what the model cannot see:

- JavaScript's `Number(string)` is a function parameter `parse`.
- The supported-chain list is a parameter `chains`.
- The results already fetched (`rawData`) are an input.
- `BASE_URL` is an `Option<string>` parameter.

The `normalizeProtocol` lemmas hold for any dex object with the stated fields. The GraphQL
queries ask for `ProtocolFamily` and `ProtocolVersion` on EVM chains
(`src/lib/bitquery-queries.ts:30-31`) and for `ProtocolFamily` and `ProtocolName` on Solana
(`src/lib/bitquery-queries.ts:48-49`). These are the two shapes that occur.

Where the code behaves differently from what one might expect, the model follows the code:

- **The top chain is the last maximum, not the first.** `calculateOverallAnalytics` reduces
  with a strict `>` seeded with `ethereum`. On a tie, the later chain wins (`TopChainFold`,
  `TopChainExamples`).
- **The code can throw.** A null trade entry, a `ProtocolFamily`/`ProtocolVersion`/`ProtocolName`
  that is neither absent nor a string, and a record without an `ethereum` entry all raise a
  `TypeError`. The model returns `TypeError` for each of these rather than excluding them.
- **Rows can merge when their fields differ.** The aggregation key is one joined string.
  - A row with version `undefined` merges with one whose version is `""`.
  - Fields containing `__` can collide: a protocol `a__vb` with no version merges with a
    protocol `a` with version `vb__` (`KeyCollision`).
- **Infinity is accepted.** `toNumber` accepts any parse that is not NaN, including the
  infinities.

## Model

| member | source | states |
|---|---|---|
| DataNormalizer.ToNumber | src/lib/data-normalizer.ts:27-31 | A number input is returned unchanged, NaN included. A string that is non-blank and parses to something other than NaN gives its parse. Every other input gives the fallback. The result is NaN only for a NaN input or a NaN fallback. |
| DataNormalizer.OptTrim | src/lib/data-normalizer.ts:35-37 | `field?.trim()` throws exactly when the field is neither nullish nor a string. A non-empty result is trimmed. |
| DataNormalizer.NormalizeProtocol | src/lib/data-normalizer.ts:33-44 | A falsy `dex` gives `{name: "Unknown"}`. The call throws exactly when a field is malformed. Otherwise the name is non-empty and trimmed, and the version is absent or non-empty. |
| DataNormalizer.Canonical | src/lib/data-normalizer.ts:39-43 | The name is non-empty and trimmed. A present family is the name. A version is only ever produced together with a family. |
| DataNormalizer.CanonicalFamilyVersion | src/lib/data-normalizer.ts:36-40 | With a family and any name, a version still non-empty after one leading v/V is stripped gives `{family, "v" + rest}`. A version left empty acts as no version. |
| DataNormalizer.NormalizeFields | src/lib/data-normalizer.ts:33-44 | For an object whose three fields trim without throwing, the result is `Canonical` of the trimmed fields. |
| DataNormalizer.NormalizeThrows | src/lib/data-normalizer.ts:35-37 | An object with a field that is neither absent nor a string throws. |
| DataNormalizer.FamilyWithVersion | src/lib/data-normalizer.ts:35-40 | Any dex object with a non-blank family and a version still non-empty after trimming and stripping one v/V gives `{trimmed family, "v" + rest}`, whatever its name. This holds as long as reading the name does not throw. |
| DataNormalizer.VersionPrefixInsensitive | src/lib/data-normalizer.ts:36-40 | For any such object, the versions "x", "vx" and "Vx" all give the version "vx". |
| DataNormalizer.EmptyVersionIgnored | src/lib/data-normalizer.ts:36-43 | A version that is empty after trimming and stripping one v/V counts as no version. The object normalizes exactly like the same object without a version, throwing or not. |
| DataNormalizer.LoneVIsNoVersion | src/lib/data-normalizer.ts:36-43 | A version of just "v" or "V" counts as no version, in the same sense. |
| DataNormalizer.NameAsVersion | src/lib/data-normalizer.ts:42-43 | For any dex object with a family and a name but no version, a name different from the family becomes the version. A name equal to the family gives none. |
| DataNormalizer.NameFallback | src/lib/data-normalizer.ts:43 | For any dex object with no family, any version is ignored. The name is the trimmed name, or "Unknown" if that is blank. |
| DataNormalizer.BlankFamilyIgnored | src/lib/data-normalizer.ts:35-43 | A blank family counts as no family. The object normalizes exactly like the same object without a family, throwing or not. |
| DataNormalizer.Trades | src/lib/data-normalizer.ts:46-56 | The result is the array under the first key, in key order, that contains "DEXTrade" in any case. Failing that, it is the first array value whose first element has a truthy `Trade.Dex`. Failing that, it is `[]`. |
| DataNormalizer.ExtractTradesArray | src/lib/data-normalizer.ts:46-56 | The entry scan with early return, followed by the `find`, returns exactly `Trades`. |
| DataNormalizer.ChainRowsShape | src/lib/data-normalizer.ts:59-79 | If the first top-level value is not an object, the result is `[]`. Otherwise the call throws exactly when some trade is nullish or has a malformed dex. Otherwise there is exactly one row per trade, in order. Each row has the caller's chain name, the trade's normalised protocol, and `count`/`tradeAmount` from `toNumber` with fallback 0. |
| DataNormalizer.NormalizeChainResponse | src/lib/data-normalizer.ts:59-79 | The push loop returns exactly `ChainRows`, including the throw. |
| Aggregator.IndexOfKey | src/lib/data-normalizer.ts:86 | `map.get(key)` finds a row with that key, and finds none exactly when the key is absent. |
| Aggregator.Group | src/lib/data-normalizer.ts:82-95 | A merged row carries its key and comes from an input row. |
| Aggregator.AggregatedGroups | src/lib/data-normalizer.ts:82-95 | The output is one row per distinct key, in order of first occurrence. Each is the first row with that key, carrying the sums of all its counts and amounts. |
| Aggregator.AggregatedKeys | src/lib/data-normalizer.ts:85-94 | The output keys are pairwise distinct and are the input keys in order of first occurrence. |
| Aggregator.AggregatedOrigin | src/lib/data-normalizer.ts:88 | Every output row has the chain, protocol and version of some input row. |
| Aggregator.AggregatedTotals | src/lib/data-normalizer.ts:90-91 | Aggregation preserves the sum of `count` and the sum of `tradeAmount`. |
| Aggregator.AggregatedSum | src/lib/data-normalizer.ts:90-91 | Any measure that merging adds up has the same sum before and after aggregation. |
| Aggregator.PairMerged | src/lib/data-normalizer.ts:85-92 | Two rows merge exactly when their keys are equal. |
| Aggregator.SameKeyExample | src/lib/data-normalizer.ts:87-92 | Two Uniswap v3 rows become one row holding both sums. |
| Aggregator.VersionSeparates | src/lib/data-normalizer.ts:85 | Version `undefined` and version "v2" stay apart. |
| Aggregator.KeyCollision | src/lib/data-normalizer.ts:85 | `a__vb` without a version and `a` with version `vb__` merge into one row. |
| Aggregator.GroupStep | src/lib/data-normalizer.ts:89-92 | One more row merges into its key's group and leaves every other group as it was. |
| Aggregator.GroupNew | src/lib/data-normalizer.ts:87-88 | A row with a new key opens a group equal to itself. |
| Aggregator.AggregateByChainProtocol | src/lib/data-normalizer.ts:82-95 | The `Map` loop, with its insertion order and in-place sums, returns exactly the fold `Aggregated`. |
| Ranking.Insert | src/lib/api.ts:83 | Inserting adds the entry to the multiset. |
| Ranking.SortByVolume | src/lib/api.ts:83 | The sorted list is a permutation of its input. |
| Ranking.SortSorted | src/lib/api.ts:83 | With no NaN volume, the list is in non-increasing order of volume. |
| Ranking.SortStable | src/lib/api.ts:83 | Entries with equal volume keep their input order. |
| Ranking.InsertSorted | src/lib/api.ts:83 | Inserting into a sorted list keeps it sorted. |
| Ranking.InsertStable | src/lib/api.ts:83 | An inserted entry lands after every entry with its volume. |
| Api.RecordGet | src/lib/api.ts:88 | A key is found exactly when it is among the record's keys. |
| Api.PutKeys | src/lib/api.ts:88 | Assigning a key keeps the key order, and appends the key when it is new. |
| Api.PutGet | src/lib/api.ts:88 | After an assignment, the key reads the new value and every other key is unchanged. |
| Api.RecordGetEntry | src/lib/api.ts:88 | With distinct keys, each entry is what its key reads. |
| Api.ChainProtocolsMembers | src/lib/api.ts:74-82 | A chain's protocols are exactly the mapped aggregated rows of that chain. |
| Api.ChainSummary | src/lib/api.ts:74-93 | `network` is the chain. `leadingProtocols` is a permutation of the chain's protocols. The totals are the sums of their rounded volumes and of their counts. |
| Api.ChainRanking | src/lib/api.ts:76-83 | `leadingProtocols` is sorted by non-increasing volume and is stable on ties. |
| Api.EmptyChain | src/lib/api.ts:73-93 | A chain with no rows gets totals 0 and 0 and no protocols. |
| Api.ChainRecordKeys | src/lib/api.ts:72-94 | The record has exactly one key per supported chain, in list order. |
| Api.ChainRecordGet | src/lib/api.ts:73-93 | Every supported chain reads its summary, and no other key is present. |
| Api.ResultRowsChain | src/lib/api.ts:66-68 | A result contributes rows only if it has `data`, and those rows carry its chain name. |
| Api.CollectRowsChains | src/lib/api.ts:66-68 | Every collected row comes from a result with `data` and carries that result's chain name. |
| Api.ProcessRawData | src/lib/api.ts:65-96 | The `flatMap`, the aggregation and the per-chain loop return exactly `Processed`: it throws if a normalisation throws, and otherwise gives the chain record. |
| Api.ChainWithoutData | src/lib/api.ts:66-68 | A supported chain with no result carrying `data` reads `{network: chain, 0, 0, []}`. |
| Api.CalculateOverallAnalytics | src/lib/api.ts:98-113 | The call throws exactly when `ethereum` is missing. Otherwise the overall totals are the sums of the per-chain totals. |
| Api.TopChainFold | src/lib/api.ts:102 | The reduce returns either its seed, which strictly beats every value, or the last value of maximal volume, which is at least the seed. |
| Api.TopChainIsLastMaximum | src/lib/api.ts:102 | Seeded from one of the values, the reduce returns a value of maximal volume. No later value equals it. |
| Api.OverallOfRecord | src/lib/api.ts:102-108 | Given an `ethereum` entry and no NaN totals, the top chain is the capitalised last maximum and the leading protocol is its label. |
| Api.OverallTopChain | src/lib/api.ts:102-108 | The same holds on the record `processRawData` builds. |
| Api.OverallTotals | src/lib/api.ts:99-100 | The overall totals equal the sums over all protocols of the supported chains. |
| Api.RecordVolumes | src/lib/api.ts:99 | The per-chain total volumes add up to the rounded volume of every merged row on a supported chain. |
| Api.RecordTransactions | src/lib/api.ts:100 | The per-chain transaction totals add up to the count of every merged row on a supported chain. |
| Api.ChainTotalsPartition | src/lib/api.ts:85-86 | Summing the per-chain totals equals summing over the protocols of the listed chains. |
| Api.TopChainExamples | src/lib/api.ts:102 | A larger `bsc` wins, a tie goes to the later `bsc`, and a larger `ethereum` stays. |
| Api.LabelExamples | src/lib/api.ts:104-108 | The label is `"Uniswap (v3)"`, `"Uniswap"` for an empty or absent version, and `"Unknown"` for no protocols. The first letter is capitalised. |
| Api.FailedChainsMembers | src/lib/api.ts:121-123 | A chain has failed exactly when it is supported and no result has its name. |
| Api.FailedChainsOrder | src/lib/api.ts:121-123 | Failed chains are listed in supported-list order. |
| Api.Partial | src/lib/api.ts:128 | `partial` holds exactly when some supported chain was not fetched. |
| Api.FetchAllAnalyticsData | src/lib/api.ts:117-131 | Returns exactly `Analytics`: the record, the overall figures, `failedChains` and `partial`. |
| Api.AnalyticsShape | src/lib/api.ts:119-129 | With `ethereum` supported, the call throws exactly when a normalisation throws. Otherwise the keys are the supported chains and `partial` holds exactly when some chain was not fetched. |
| Api.AnalyticsOk | src/lib/api.ts:119-129 | With `ethereum` supported and every payload normalised, the result exists. It holds the record of the supported chains, and `partial` is whether any chain failed. |
| Api.OnlyBaseMissing | src/lib/api.ts:121-123 | With `SUPPORTED_BLOCKCHAINS` and a result for every chain except `base`, the failed chains are exactly `["base"]`. `base` reads zero totals and no protocols. |
| Utils.GetBlockchainIconUrl | src/lib/utils.ts:8-23 | This is the corrected lookup, the corrected half of the Findings entry: it reads only the map's own keys. The URL is the base followed by `icons/`, and ends with `.png`. |
| Utils.GetBlockchainIconUrlAsWritten | src/lib/utils.ts:8-23 | This is the lookup as written, which also reads properties inherited from `Object.prototype`. The URL has the same shape. When the lower-cased name is not an inherited property, the URL equals the corrected one. |
| Utils.IconUrlIgnoresCase | src/lib/utils.ts:9 | Names that are equal after lower-casing give the same URL. |
| Utils.BscIcon | src/lib/utils.ts:11-19 | `bsc`, in any case, gets the `bnb` icon. |
| Utils.OwnNameIcons | src/lib/utils.ts:11-19 | `ethereum`, `solana`, `arbitrum` and `base` get their own name as the icon. |
| Utils.IconUrlFallback | src/lib/utils.ts:19 | A name not in the map falls back to its lower-cased form. |
| Utils.BaseExamples | src/lib/utils.ts:22 | A missing or empty `BASE_URL` gives "/". A set one is used as given. |
| Utils.PrototypeKeyCounterexample | src/lib/utils.ts:19 | The name "constructor" gets a different URL as written than with an own-key lookup. |
| Utils.AsWrittenAgreesElsewhere | src/lib/utils.ts:19 | Apart from "constructor" and "__proto__", the code as written and the corrected lookup agree. |

## Left out

- Floating point is not modelled. Finite sums are exact reals, so the model has no rounding
  error and no `-0`. Because of that, `reduce` sums do not depend on summation order, which
  the real code's sums do.
- `Number(string)` is a parameter `parse`. The JavaScript number grammar is not part of this
  model.
- Case mapping is ASCII only. `toLowerCase` and `/DEXTrade/i` on non-ASCII letters are not
  modelled.
- Ranking.SortStable: proved only for volumes without NaN. With a NaN volume the comparator
  is inconsistent, and the order `Array.prototype.sort` gives is implementation-defined.
- Api.TopChainFold: proved only for totals without NaN. With NaN, `>` is false and the
  result depends on position only.
- `fetchRawData`, the Bitquery query executors, timeouts, network access and console logging
  are not part of this model. Their outcome is the input list of fetched results.
- `SUPPORTED_BLOCKCHAINS` is the parameter `chains` in the general lemmas. The constant
  `Api.SupportedBlockchains` is used in one concrete lemma (`OnlyBaseMissing`). The query templates and
  `getDataPeriodInfo` (dates and locale formatting) are not part of this model.
- `cn` in `src/lib/utils.ts` and all React components and hooks are not part of this model.
- `Record<string, BlockchainData>` is a list of key/value pairs in insertion order. Keys that
  JavaScript orders specially (integer-like strings) or treats specially (`__proto__`) are
  not modelled. The supported chain names are ordinary keys.
- The in-place updates of `aggregateByChainProtocol` (`current.count += ...` on the stored
  copy) are modelled on values. Rows are values, so the model cannot express that the input
  rows are left unmodified, and that guarantee is not proved.

## Findings

| source | as written | input that shows it | evidently intended | confidence | as-written member | corrected member |
|---|---|---|---|---|---|---|
| src/lib/utils.ts:19 | `symbolMap[name] \|\| name` also finds properties inherited from `Object.prototype` | the chain name "constructor" (any case) gives `/icons/function Object() { [native code] }.png`; "__proto__" gives `/icons/[object Object].png` | only the five listed names are mapped, and every other name falls back to itself | not executed | Utils.PrototypeKeyCounterexample | Utils.IconUrlFallback |
