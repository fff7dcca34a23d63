/** From one chain's raw response to flat normalized rows: numeric coercion, protocol-name
    normalization, locating the trades array, and one row per trade entry. */
module DataNormalizer {
  import opened Wrappers
  import opened JsNumber
  import opened JsString
  import opened JsValue
  import opened Sequences

  /** One observed (chain, protocol, version) sample. */
  datatype Row = Row(chain: string, protocol: string, version: Option<string>, count: Number, tradeAmount: Number)

  /** The canonical `{name, version?}` of a DEX. */
  datatype Protocol = Protocol(name: string, version: Option<string>)

  // ---- Numeric coercion

  /** `toNumber(value, fallback)`: a number is returned as it is (NaN included); a string that
      is not blank and that `Number(...)`, here `parse`, does not map to NaN gives the parsed
      number; everything else gives the fallback. So only a numeric input or the fallback
      can produce NaN. */
  function ToNumber(value: Value, fallback: Number, parse: string -> Number): (r: Number)
    ensures value.Num? ==> r == value.n
    ensures value.Str? && !IsBlank(value.s) && !parse(value.s).NaN? ==> r == parse(value.s)
    ensures !value.Num? && !(value.Str? && !IsBlank(value.s) && !parse(value.s).NaN?) ==> r == fallback
    ensures r.NaN? ==> value == Num(NaN) || fallback.NaN?
  {
    if value.Num? then value.n
    else if value.Str? && Trim(value.s) != "" && !parse(value.s).NaN? then parse(value.s)
    else fallback
  }

  // ---- Protocol name normalization

  /** `field?.trim()`: absent stays absent, a string is trimmed, and any other value has no
      `trim` method, so the call throws. */
  function OptTrim(field: Value): (r: Result<Option<string>>)
    ensures r.TypeError? <==> !Nullish(field) && !field.Str?
    ensures r.Ok? && r.value.Some? && r.value.value != "" ==> NonBlankTrimmed(r.value.value)
  {
    if Nullish(field) then Ok(None)
    else if field.Str? then Ok(Some(Trim(field.s)))
    else TypeError
  }

  /** A non-empty string that neither starts nor ends with whitespace. */
  predicate NonBlankTrimmed(s: string) {
    s != "" && !IsWhitespace(s[0]) && !IsWhitespace(s[|s| - 1])
  }

  /** A present, non-empty string: the truthy values of type `string | undefined`. */
  predicate Filled(s: Option<string>) {
    s.Some? && s.value != ""
  }

  /** A metadata field whose value is neither absent nor a string. */
  predicate Malformed(dex: Value, key: string)
    requires !Nullish(dex)
  {
    !Nullish(Prop(dex, key)) && !Prop(dex, key).Str?
  }

  /** `normalizeProtocol(dex)`. A falsy `dex` gives "Unknown"; otherwise the three fields are
      trimmed and combined by `Canonical`. The call throws exactly when a present field is not
      a string. A result's name is never empty and has no surrounding whitespace, and a
      version, when present, is not empty. */
  function NormalizeProtocol(dex: Value): (r: Result<Protocol>)
    ensures !Truthy(dex) ==> r == Ok(Protocol("Unknown", None))
    ensures r.TypeError? <==>
      Truthy(dex) && (Malformed(dex, "ProtocolFamily") || Malformed(dex, "ProtocolVersion") || Malformed(dex, "ProtocolName"))
    ensures r.Ok? ==> NonBlankTrimmed(r.value.name)
    ensures r.Ok? ==> Filled(r.value.version) || r.value.version.None?
  {
    if !Truthy(dex) then Ok(Protocol("Unknown", None))
    else
      var family := OptTrim(Prop(dex, "ProtocolFamily"));
      var version := OptTrim(Prop(dex, "ProtocolVersion"));
      var name := OptTrim(Prop(dex, "ProtocolName"));
      if family.TypeError? || version.TypeError? || name.TypeError? then TypeError
      else Ok(Canonical(family.value, version.value, name.value))
  }

  /** The combination step of `normalizeProtocol`, on the trimmed fields: the version loses
      one leading v/V; a family with a remaining version gives `{family, "v" + version}`; a
      family with a different name gives `{family, name}`; otherwise the family alone, else
      the name, else "Unknown". Empty strings count as absent. */
  function Canonical(family: Option<string>, version: Option<string>, name: Option<string>): (p: Protocol)
    requires Filled(family) ==> NonBlankTrimmed(family.value)
    requires Filled(name) ==> NonBlankTrimmed(name.value)
    ensures NonBlankTrimmed(p.name)
    ensures Filled(p.version) || p.version.None?
    ensures Filled(family) ==> p.name == family.value
    ensures p.version.Some? ==> Filled(family)
  {
    var v := if version.Some? then Some(StripLeadingV(version.value)) else None;
    if Filled(family) && Filled(v) then Protocol(family.value, Some("v" + v.value))
    else if Filled(family) && Filled(name) && name.value != family.value then Protocol(family.value, Some(name.value))
    else Protocol(if Filled(family) then family.value else if Filled(name) then name.value else "Unknown", None)
  }

  /** A family and a version: one leading v/V is dropped from the version, and what is left,
      when not empty, is prefixed with "v" and the name plays no part; when nothing is left
      the result is as if there were no version. */
  lemma CanonicalFamilyVersion(family: string, version: string, name: Option<string>)
    requires NonBlankTrimmed(family)
    requires Filled(name) ==> NonBlankTrimmed(name.value)
    ensures var v := StripLeadingV(version);
      && (v != "" ==> Canonical(Some(family), Some(version), name) == Protocol(family, Some("v" + v)))
      && (v == "" ==> Canonical(Some(family), Some(version), name) == Canonical(Some(family), None, name))
  {}

  /** A string field trims to its string. */
  lemma OptTrimString(field: Value, s: string)
    requires field == Str(s)
    ensures OptTrim(field) == Ok(Some(Trim(s)))
  {}

  /** `normalizeProtocol` on an object whose three fields read and trim without throwing. */
  lemma NormalizeFields(dex: Value, family: Option<string>, version: Option<string>, name: Option<string>)
    requires dex.Obj?
    requires OptTrim(Prop(dex, "ProtocolFamily")) == Ok(family)
    requires OptTrim(Prop(dex, "ProtocolVersion")) == Ok(version)
    requires OptTrim(Prop(dex, "ProtocolName")) == Ok(name)
    ensures Filled(family) ==> NonBlankTrimmed(family.value)
    ensures Filled(name) ==> NonBlankTrimmed(name.value)
    ensures NormalizeProtocol(dex) == Ok(Canonical(family, version, name))
  {
    assert Truthy(dex);
  }

  /** Any dex object whose family is not blank and whose version keeps something once
      trimmed and stripped of one leading v/V gives `{family, "v" + rest}`, whatever its name
      (as long as reading the name does not throw). */
  lemma FamilyWithVersion(dex: Value, family: string, version: string)
    requires dex.Obj? && Prop(dex, "ProtocolFamily") == Str(family) && Prop(dex, "ProtocolVersion") == Str(version)
    requires Nullish(Prop(dex, "ProtocolName")) || Prop(dex, "ProtocolName").Str?
    requires !IsBlank(family) && StripLeadingV(Trim(version)) != ""
    ensures NormalizeProtocol(dex) == Ok(Protocol(Trim(family), Some("v" + StripLeadingV(Trim(version)))))
  {
    var f, v := Trim(family), Trim(version);
    OptTrimString(Prop(dex, "ProtocolFamily"), family);
    OptTrimString(Prop(dex, "ProtocolVersion"), version);
    var name := OptTrim(Prop(dex, "ProtocolName")).value;
    NormalizeFields(dex, Some(f), Some(v), name);
    CanonicalFamilyVersion(f, v, name);
  }

  /** The version prefix is canonical: for a trimmed version `x` that does not itself start
      with v/V, the forms "x", "vx" and "Vx" all give the version "vx". */
  lemma VersionPrefixInsensitive(dex: Value, family: string, x: string, raw: string)
    requires dex.Obj? && Prop(dex, "ProtocolFamily") == Str(family) && Prop(dex, "ProtocolVersion") == Str(raw)
    requires Nullish(Prop(dex, "ProtocolName")) || Prop(dex, "ProtocolName").Str?
    requires !IsBlank(family)
    requires NonBlankTrimmed(x) && x[0] != 'v' && x[0] != 'V'
    requires raw == x || raw == "v" + x || raw == "V" + x
    ensures NormalizeProtocol(dex) == Ok(Protocol(Trim(family), Some("v" + x)))
  {
    VersionForms(x, raw);
    FamilyWithVersion(dex, family, raw);
  }

  lemma VersionForms(x: string, raw: string)
    requires NonBlankTrimmed(x) && x[0] != 'v' && x[0] != 'V'
    requires raw == x || raw == "v" + x || raw == "V" + x
    ensures StripLeadingV(Trim(raw)) == x
  {
    TrimOfTrimmed(raw);
    assert raw != x ==> raw[1..] == x;
  }

  /** A version that is nothing once its leading v/V is dropped is no version. */
  lemma CanonicalEmptyVersion(family: Option<string>, version: string, name: Option<string>)
    requires Filled(family) ==> NonBlankTrimmed(family.value)
    requires Filled(name) ==> NonBlankTrimmed(name.value)
    requires StripLeadingV(version) == ""
    ensures Canonical(family, Some(version), name) == Canonical(family, None, name)
  {}

  /** An empty family is no family. */
  lemma CanonicalEmptyFamily(version: Option<string>, name: Option<string>)
    requires Filled(name) ==> NonBlankTrimmed(name.value)
    ensures Canonical(Some(""), version, name) == Canonical(None, version, name)
  {}

  lemma LoneV(v: string)
    requires v == "v" || v == "V"
    ensures Trim(v) == v && StripLeadingV(v) == ""
  {
    TrimOfTrimmed(v);
  }

  /** An object one of whose three fields is neither absent nor a string throws. */
  lemma NormalizeThrows(dex: Value)
    requires dex.Obj?
    requires OptTrim(Prop(dex, "ProtocolFamily")).TypeError? || OptTrim(Prop(dex, "ProtocolVersion")).TypeError?
      || OptTrim(Prop(dex, "ProtocolName")).TypeError?
    ensures NormalizeProtocol(dex) == TypeError
  {
    assert Truthy(dex);
  }

  /** Two dex objects that read the same three fields without throwing normalize alike when
      their families and versions give the same `Canonical` result. */
  lemma SameFields(a: Value, b: Value)
    requires a.Obj? && b.Obj?
    requires OptTrim(Prop(a, "ProtocolFamily")).Ok? && OptTrim(Prop(b, "ProtocolFamily")).Ok?
    requires OptTrim(Prop(a, "ProtocolVersion")).Ok? && OptTrim(Prop(b, "ProtocolVersion")).Ok?
    requires Prop(a, "ProtocolName") == Prop(b, "ProtocolName") && OptTrim(Prop(a, "ProtocolName")).Ok?
    ensures NormalizeProtocol(a) == Ok(Canonical(OptTrim(Prop(a, "ProtocolFamily")).value,
      OptTrim(Prop(a, "ProtocolVersion")).value, OptTrim(Prop(a, "ProtocolName")).value))
    ensures NormalizeProtocol(b) == Ok(Canonical(OptTrim(Prop(b, "ProtocolFamily")).value,
      OptTrim(Prop(b, "ProtocolVersion")).value, OptTrim(Prop(a, "ProtocolName")).value))
  {
    var name := OptTrim(Prop(a, "ProtocolName")).value;
    NormalizeFields(a, OptTrim(Prop(a, "ProtocolFamily")).value, OptTrim(Prop(a, "ProtocolVersion")).value, name);
    NormalizeFields(b, OptTrim(Prop(b, "ProtocolFamily")).value, OptTrim(Prop(b, "ProtocolVersion")).value, name);
  }

  /** A version that is empty once trimmed and stripped of one leading v/V counts as no
      version: such an object normalizes like one without a version and with the same family
      and name, throwing or not. */
  lemma EmptyVersionIgnored(withV: Value, without: Value, v: string)
    requires withV.Obj? && without.Obj?
    requires Prop(withV, "ProtocolVersion") == Str(v) && StripLeadingV(Trim(v)) == ""
    requires Nullish(Prop(without, "ProtocolVersion"))
    requires Prop(withV, "ProtocolFamily") == Prop(without, "ProtocolFamily")
    requires Prop(withV, "ProtocolName") == Prop(without, "ProtocolName")
    ensures NormalizeProtocol(withV) == NormalizeProtocol(without)
  {
    if OptTrim(Prop(withV, "ProtocolFamily")).Ok? && OptTrim(Prop(withV, "ProtocolName")).Ok? {
      EmptyVersionFields(withV, without, v);
    } else {
      NormalizeThrows(withV);
      NormalizeThrows(without);
    }
  }

  lemma EmptyVersionFields(withV: Value, without: Value, v: string)
    requires withV.Obj? && without.Obj?
    requires Prop(withV, "ProtocolVersion") == Str(v) && StripLeadingV(Trim(v)) == ""
    requires Nullish(Prop(without, "ProtocolVersion"))
    requires Prop(withV, "ProtocolFamily") == Prop(without, "ProtocolFamily") && OptTrim(Prop(withV, "ProtocolFamily")).Ok?
    requires Prop(withV, "ProtocolName") == Prop(without, "ProtocolName") && OptTrim(Prop(withV, "ProtocolName")).Ok?
    ensures NormalizeProtocol(withV) == NormalizeProtocol(without)
  {
    var family, name := OptTrim(Prop(withV, "ProtocolFamily")).value, OptTrim(Prop(withV, "ProtocolName")).value;
    OptTrimString(Prop(withV, "ProtocolVersion"), v);
    SameFields(withV, without);
    CanonicalEmptyVersion(family, Trim(v), name);
  }

  /** In particular a version that is only "v" (or "V") counts as no version. */
  lemma LoneVIsNoVersion(withV: Value, without: Value, v: string)
    requires withV.Obj? && without.Obj?
    requires Prop(withV, "ProtocolVersion") == Str(v) && (v == "v" || v == "V")
    requires Nullish(Prop(without, "ProtocolVersion"))
    requires Prop(withV, "ProtocolFamily") == Prop(without, "ProtocolFamily")
    requires Prop(withV, "ProtocolName") == Prop(without, "ProtocolName")
    ensures NormalizeProtocol(withV) == NormalizeProtocol(without)
  {
    LoneV(v);
    EmptyVersionIgnored(withV, without, v);
  }

  /** A blank family counts as no family: such an object normalizes like one without a
      family and with the same version and name, throwing or not. */
  lemma BlankFamilyIgnored(withF: Value, without: Value, family: string)
    requires withF.Obj? && without.Obj?
    requires Prop(withF, "ProtocolFamily") == Str(family) && IsBlank(family)
    requires Nullish(Prop(without, "ProtocolFamily"))
    requires Prop(withF, "ProtocolVersion") == Prop(without, "ProtocolVersion")
    requires Prop(withF, "ProtocolName") == Prop(without, "ProtocolName")
    ensures NormalizeProtocol(withF) == NormalizeProtocol(without)
  {
    var version := OptTrim(Prop(withF, "ProtocolVersion"));
    var name := OptTrim(Prop(withF, "ProtocolName"));
    if version.Ok? && name.Ok? {
      OptTrimString(Prop(withF, "ProtocolFamily"), family);
      SameFields(withF, without);
      CanonicalEmptyFamily(version.value, name.value);
    } else {
      NormalizeThrows(withF);
      NormalizeThrows(without);
    }
  }

  /** Without a version, a name different from the family becomes the version; a name equal
      to the family adds nothing. */
  lemma NameAsVersion(dex: Value, family: string, name: string)
    requires dex.Obj? && Prop(dex, "ProtocolFamily") == Str(family) && Nullish(Prop(dex, "ProtocolVersion"))
    requires Prop(dex, "ProtocolName") == Str(name)
    requires !IsBlank(family) && !IsBlank(name)
    ensures NormalizeProtocol(dex) ==
      Ok(Protocol(Trim(family), if Trim(name) != Trim(family) then Some(Trim(name)) else None))
  {
    OptTrimString(Prop(dex, "ProtocolFamily"), family);
    OptTrimString(Prop(dex, "ProtocolName"), name);
    NormalizeFields(dex, Some(Trim(family)), None, Some(Trim(name)));
    CanonicalFamilyName(Trim(family), Trim(name));
  }

  lemma CanonicalFamilyName(family: string, name: string)
    requires NonBlankTrimmed(family) && NonBlankTrimmed(name)
    ensures Canonical(Some(family), None, Some(name)) == Protocol(family, if name != family then Some(name) else None)
  {}

  /** Without a family the version plays no part, and the name falls back to "Unknown". */
  lemma NameFallback(dex: Value, name: string)
    requires dex.Obj? && Nullish(Prop(dex, "ProtocolFamily")) && Prop(dex, "ProtocolName") == Str(name)
    requires Nullish(Prop(dex, "ProtocolVersion")) || Prop(dex, "ProtocolVersion").Str?
    ensures NormalizeProtocol(dex) == Ok(Protocol(if !IsBlank(name) then Trim(name) else "Unknown", None))
  {
    OptTrimString(Prop(dex, "ProtocolName"), name);
    NormalizeFields(dex, None, OptTrim(Prop(dex, "ProtocolVersion")).value, Some(Trim(name)));
  }

  // ---- Locating the trades array

  /** An entry whose key contains "DEXTrade" in any letter case and whose value is an array. */
  predicate IsDexTradeEntry(entry: (string, Value)) {
    entry.1.Arr? && ContainsIgnoreCase(entry.0, "DEXTrade")
  }

  /** `Array.isArray(v) && v[0]?.Trade?.Dex`: an array whose first element carries truthy
      `Trade.Dex` metadata. */
  predicate LooksLikeTrades(v: Value) {
    v.Arr? && |v.items| > 0 && Truthy(OptProp(OptProp(v.items[0], "Trade"), "Dex"))
  }

  /** The array `extractTradesArray(container)` returns: the value of the first entry, in
      key order, that is an array under a key containing "DEXTrade"; failing that, the first
      value that is an array whose first element has truthy `Trade.Dex`; failing that, []. */
  function Trades(container: Value): (trades: seq<Value>)
    requires IsObject(container)
    ensures forall i :: 0 <= i < |Entries(container)| && IsDexTradeEntry(Entries(container)[i]) &&
                        (forall j :: 0 <= j < i ==> !IsDexTradeEntry(Entries(container)[j])) ==>
                          trades == Entries(container)[i].1.items
    ensures (forall i :: 0 <= i < |Entries(container)| ==> !IsDexTradeEntry(Entries(container)[i])) ==>
      (forall i :: 0 <= i < |Values(container)| && LooksLikeTrades(Values(container)[i]) &&
                   (forall j :: 0 <= j < i ==> !LooksLikeTrades(Values(container)[j])) ==>
                     trades == Values(container)[i].items)
      && ((forall i :: 0 <= i < |Values(container)| ==> !LooksLikeTrades(Values(container)[i])) ==> trades == [])
  {
    var entries := Entries(container);
    FirstIndexIsFirst(entries, IsDexTradeEntry);
    match FirstIndex(entries, IsDexTradeEntry)
    case Some(i) => entries[i].1.items
    case None =>
      var values := Values(container);
      FirstIndexIsFirst(values, LooksLikeTrades);
      match FirstIndex(values, LooksLikeTrades)
      case Some(j) => values[j].items
      case None => []
  }

  /** `extractTradesArray`: a scan of the entries that returns at the first match, then a
      `find` over the values. */
  method ExtractTradesArray(container: Value) returns (trades: seq<Value>)
    requires IsObject(container)
    ensures trades == Trades(container)
  {
    var entries := Entries(container);
    for i := 0 to |entries|
      invariant forall j :: 0 <= j < i ==> !IsDexTradeEntry(entries[j])
    {
      var (key, value) := entries[i];
      if value.Arr? && ContainsIgnoreCase(key, "DEXTrade") {
        return value.items;
      }
    }
    var values := Values(container);
    var guess := FirstIndex(values, LooksLikeTrades);
    trades := if guess.Some? then values[guess.value].items else [];
  }

  // ---- One chain's rows

  /** `trade.Trade?.Dex`. */
  function DexOf(trade: Value): Value
    requires !Nullish(trade)
  {
    OptProp(Prop(trade, "Trade"), "Dex")
  }

  /** The row pushed for one trade entry; reading `trade.Trade` throws when the entry is null
      or undefined. */
  function RowOf(trade: Value, chainName: string, parse: string -> Number): Result<Row> {
    if Nullish(trade) then TypeError
    else match NormalizeProtocol(DexOf(trade))
      case TypeError => TypeError
      case Ok(p) =>
        Ok(Row(chainName, p.name, p.version,
               ToNumber(Prop(trade, "count"), Zero, parse), ToNumber(Prop(trade, "tradeAmount"), Zero, parse)))
  }

  /** `trade => RowOf(trade, chainName, parse)`. */
  function RowMaker(chainName: string, parse: string -> Number): Value -> Result<Row> {
    trade => RowOf(trade, chainName, parse)
  }

  /** `Object.values(data)[0]`. */
  function FirstValue(data: Value): Value
    requires !Nullish(data)
  {
    var values := Values(data);
    if values == [] then Undefined else values[0]
  }

  /** What `normalizeChainResponse(data, chainName)` returns or throws. */
  function ChainRows(data: Value, chainName: string, parse: string -> Number): Result<seq<Row>>
    requires !Nullish(data)
  {
    var container := FirstValue(data);
    if !IsObject(container) then Ok([]) else MapAll(Trades(container), RowMaker(chainName, parse))
  }

  /** `normalizeChainResponse`: no rows when the first top-level value is not an object;
      otherwise exactly one row per trade entry, in order, each stamped with the caller's
      `chainName`, its protocol from the entry's `Trade.Dex`, and its count and amount
      coerced with fallback 0. It throws exactly when some entry is null or undefined or has
      a malformed metadata field. */
  lemma ChainRowsShape(data: Value, chainName: string, parse: string -> Number)
    requires !Nullish(data)
    ensures !IsObject(FirstValue(data)) ==> ChainRows(data, chainName, parse) == Ok([])
    ensures IsObject(FirstValue(data)) ==>
      var trades := Trades(FirstValue(data));
      var r := ChainRows(data, chainName, parse);
      && (r.TypeError? <==> exists i :: 0 <= i < |trades| && (Nullish(trades[i]) || NormalizeProtocol(DexOf(trades[i])).TypeError?))
      && (r.Ok? ==> |r.value| == |trades| && forall i :: 0 <= i < |trades| ==>
            && !Nullish(trades[i])
            && r.value[i].chain == chainName
            && NormalizeProtocol(DexOf(trades[i])) == Ok(Protocol(r.value[i].protocol, r.value[i].version))
            && r.value[i].count == ToNumber(Prop(trades[i], "count"), Zero, parse)
            && r.value[i].tradeAmount == ToNumber(Prop(trades[i], "tradeAmount"), Zero, parse))
  {}

  /** `normalizeChainResponse`: pushes one row per trade entry into `output`. */
  method NormalizeChainResponse(data: Value, chainName: string, parse: string -> Number) returns (r: Result<seq<Row>>)
    requires !Nullish(data)
    ensures r == ChainRows(data, chainName, parse)
  {
    var container := FirstValue(data);
    if !IsObject(container) {
      return Ok([]);
    }
    var trades := ExtractTradesArray(container);
    var output: seq<Row> := [];
    for i := 0 to |trades|
      invariant MapAll(trades[..i], RowMaker(chainName, parse)) == Ok(output)
    {
      MapAllStep(trades, i, RowMaker(chainName, parse));
      var row := RowOf(trades[i], chainName, parse);
      if row.TypeError? {
        return TypeError;
      }
      output := output + [row.value];
    }
    assert trades[..|trades|] == trades;
    return Ok(output);
  }
}
