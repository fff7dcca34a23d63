/** `getBlockchainIconUrl`: the URL of a chain's icon, `${base}icons/${symbol}.png`, where the
    symbol comes from a small table keyed by the lower-cased chain name and `base` is the
    deployment's `BASE_URL` (a build-time setting, passed in here) or "/". */
module Utils {
  import opened Wrappers
  import opened JsString

  /** `symbolMap`, as the object's own properties. */
  const SymbolMap: seq<(string, string)> :=
    [("ethereum", "ethereum"), ("solana", "solana"), ("bsc", "bnb"), ("arbitrum", "arbitrum"), ("base", "base")]

  /** The own property `key` of a table, if it has one. */
  function OwnProperty(table: seq<(string, string)>, key: string): (r: Option<string>)
    ensures r.Some? <==> exists i :: 0 <= i < |table| && table[i].0 == key
    ensures r.Some? ==> exists i :: 0 <= i < |table| && table[i] == (key, r.value)
  {
    if table == [] then None
    else if table[0].0 == key then Some(table[0].1)
    else OwnProperty(table[1..], key)
  }

  /** `import.meta.env.BASE_URL || '/'`. */
  function Base(baseUrl: Option<string>): string {
    if baseUrl.Some? && baseUrl.value != "" then baseUrl.value else "/"
  }

  /** The symbol of a lower-cased name: its entry in the table, or the name itself. */
  function Symbol(name: string): string {
    match OwnProperty(SymbolMap, name)
    case Some(symbol) => symbol
    case None => name
  }

  /** The icon URL, reading only the table's own entries. */
  function GetBlockchainIconUrl(blockchainName: string, baseUrl: Option<string>): (url: string)
    ensures var prefix := Base(baseUrl) + "icons/";
      && |url| >= |prefix| + 4
      && url[..|prefix|] == prefix
      && url[|url| - 4..] == ".png"
  {
    Base(baseUrl) + "icons/" + Symbol(ToLower(blockchainName)) + ".png"
  }

  /** The two all-lower-case property names every object literal inherits from
      `Object.prototype`, and the strings their values become in a template literal. */
  function Inherited(name: string): Option<string> {
    if name == "constructor" then Some("function Object() { [native code] }")
    else if name == "__proto__" then Some("[object Object]")
    else None
  }

  /** `symbolMap[name] || name` as JavaScript evaluates it: a name missing from the table is
      looked up on the prototype chain too, and an inherited value is truthy. */
  function SymbolAsWritten(name: string): string {
    match OwnProperty(SymbolMap, name)
    case Some(symbol) => symbol
    case None =>
      match Inherited(name)
      case Some(inherited) => inherited
      case None => name
  }

  /** `getBlockchainIconUrl` as written: the same URL shape, but with the symbol looked up
      through the prototype chain. */
  function GetBlockchainIconUrlAsWritten(blockchainName: string, baseUrl: Option<string>): (url: string)
    ensures var prefix := Base(baseUrl) + "icons/";
      && |url| >= |prefix| + 4
      && url[..|prefix|] == prefix
      && url[|url| - 4..] == ".png"
    ensures Inherited(ToLower(blockchainName)).None? ==> url == GetBlockchainIconUrl(blockchainName, baseUrl)
  {
    Base(baseUrl) + "icons/" + SymbolAsWritten(ToLower(blockchainName)) + ".png"
  }

  /** Lower-casing twice is lower-casing once. */
  lemma ToLowerIdempotent(s: string)
    ensures ToLower(ToLower(s)) == ToLower(s)
  {
    forall k | 0 <= k < |s|
      ensures AsciiLower(AsciiLower(s[k])) == AsciiLower(s[k])
    {}
  }

  /** Names that differ only in the case of ASCII letters get the same URL. */
  lemma IconUrlIgnoresCase(a: string, b: string, baseUrl: Option<string>)
    requires ToLower(a) == ToLower(b)
    ensures GetBlockchainIconUrl(a, baseUrl) == GetBlockchainIconUrl(b, baseUrl)
    ensures GetBlockchainIconUrl(a, baseUrl) == GetBlockchainIconUrl(ToLower(a), baseUrl)
  {
    ToLowerIdempotent(a);
  }

  /** A name whose lower-case form is not in the table falls back to that lower-case form. */
  lemma IconUrlFallback(blockchainName: string, baseUrl: Option<string>)
    requires forall i :: 0 <= i < |SymbolMap| ==> SymbolMap[i].0 != ToLower(blockchainName)
    ensures GetBlockchainIconUrl(blockchainName, baseUrl) == Base(baseUrl) + "icons/" + ToLower(blockchainName) + ".png"
  {}

  /** The table on the supported chains. */
  lemma SymbolExamples()
    ensures Symbol("bsc") == "bnb" && Symbol("ethereum") == "ethereum" && Symbol("solana") == "solana"
    ensures Symbol("arbitrum") == "arbitrum" && Symbol("base") == "base" && Symbol("polygon") == "polygon"
  {
    assert SymbolMap[0].0 != "polygon" && SymbolMap[1].0 != "polygon" && SymbolMap[2].0 != "polygon";
    assert SymbolMap[3].0 != "polygon" && SymbolMap[4].0 != "polygon";
  }

  /** `bsc`, in any case, gets the `bnb` icon. */
  lemma BscIcon(blockchainName: string, baseUrl: Option<string>)
    requires ToLower(blockchainName) == "bsc"
    ensures GetBlockchainIconUrl(blockchainName, baseUrl) == Base(baseUrl) + "icons/" + "bnb" + ".png"
    ensures GetBlockchainIconUrl("BSC", baseUrl) == GetBlockchainIconUrl(blockchainName, baseUrl)
  {
    assert ToLower("BSC") == "bsc";
    SymbolExamples();
    var symbol := Symbol(ToLower(blockchainName));
    assert symbol == "bnb";
  }

  /** The other supported chains get the icon of their own lower-cased name. */
  lemma OwnNameIcons(blockchainName: string, baseUrl: Option<string>)
    requires ToLower(blockchainName) in ["ethereum", "solana", "arbitrum", "base"]
    ensures GetBlockchainIconUrl(blockchainName, baseUrl) == Base(baseUrl) + "icons/" + ToLower(blockchainName) + ".png"
  {
    var lower := ToLower(blockchainName);
    SymbolIdentity(lower);
  }

  lemma SymbolIdentity(name: string)
    requires name in ["ethereum", "solana", "arbitrum", "base"]
    ensures Symbol(name) == name
  {
    var i := if name == "ethereum" then 0 else if name == "solana" then 1 else if name == "arbitrum" then 3 else 4;
    assert SymbolMap[i] == (name, name);
    assert forall t :: 0 <= t < i ==> SymbolMap[t].0 != name;
  }

  /** An unset or empty `BASE_URL` means "/"; a configured one is used as given. */
  lemma BaseExamples()
    ensures Base(None) == "/" && Base(Some("")) == "/" && Base(Some("/radar/")) == "/radar/"
  {}

  /** As written, the lookup also finds the properties inherited from `Object.prototype`:
      the chain name "constructor" gets the icon path of the stringified `Object`
      constructor instead of falling back to its own name. */
  lemma PrototypeKeyCounterexample(baseUrl: Option<string>)
    ensures GetBlockchainIconUrlAsWritten("constructor", baseUrl) ==
              Base(baseUrl) + "icons/" + "function Object() { [native code] }" + ".png"
    ensures GetBlockchainIconUrl("constructor", baseUrl) == Base(baseUrl) + "icons/" + "constructor" + ".png"
    ensures GetBlockchainIconUrlAsWritten("constructor", baseUrl) != GetBlockchainIconUrl("constructor", baseUrl)
  {
    var name := "constructor";
    assert ToLower(name) == name;
    assert forall i :: 0 <= i < |SymbolMap| ==> SymbolMap[i].0 != name;
    var written := GetBlockchainIconUrlAsWritten(name, baseUrl);
    var corrected := GetBlockchainIconUrl(name, baseUrl);
    assert |written| != |corrected|;
  }

  /** Apart from the two inherited names, the code as written and the own-property lookup
      give the same URL. */
  lemma AsWrittenAgreesElsewhere(blockchainName: string, baseUrl: Option<string>)
    requires ToLower(blockchainName) != "constructor" && ToLower(blockchainName) != "__proto__"
    ensures GetBlockchainIconUrlAsWritten(blockchainName, baseUrl) == GetBlockchainIconUrl(blockchainName, baseUrl)
  {}
}
