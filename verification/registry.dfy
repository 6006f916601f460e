/** The static chain catalog and the token-symbol to market-data-id table,
    with the lookups the routing code performs on them. */
module Registry {
  import opened Wrappers

  /** The fixed properties of one candidate chain. `chainId` is absent for
      the two non-EVM placeholder entries. */
  datatype ChainConfig = ChainConfig(
    displayName: string,
    rpcUrlEnvVar: string,
    avgBlockTimeSeconds: real,
    nativeTokenSymbol: string,
    chainId: Option<nat>,
    explorerUrl: string)

  /** One key/value pair of the catalog; the catalog is ordered because its
      iteration order decides ties in the ranking. */
  datatype ChainEntry = ChainEntry(name: string, config: ChainConfig)

  type Catalog = seq<ChainEntry>

  /** The static chain catalog, in declaration order. */
  const ChainConfigs: Catalog := [
    ChainEntry("ethereum", ChainConfig("Ethereum Mainnet", "ETHEREUM_RPC_URL", 13.0, "ETH", Some(1), "https://etherscan.io/")),
    ChainEntry("polygon", ChainConfig("Polygon Mainnet", "POLYGON_RPC_URL", 2.2, "MATIC", Some(137), "https://polygonscan.com/")),
    ChainEntry("avalanche", ChainConfig("Avalanche C-Chain", "AVALANCHE_RPC_URL", 2.0, "AVAX", Some(43114), "https://snowtrace.io/")),
    ChainEntry("bitcoin", ChainConfig("Bitcoin", "BITCOIN_RPC_URL", 600.0, "BTC", None, "https://blockchain.com/explorer")),
    ChainEntry("solana", ChainConfig("Solana", "SOLANA_RPC_URL", 0.4, "SOL", None, "https://solscan.io/")),
    ChainEntry("optimism", ChainConfig("Optimism Mainnet", "OPTIMISM_RPC_URL", 0.5, "ETH", Some(10), "https://optimistic.etherscan.io/")),
    ChainEntry("bsc", ChainConfig("BNB Smart Chain", "BSC_RPC_URL", 3.0, "BNB", Some(56), "https://bscscan.com/"))
  ]

  /** Native token symbol to market-data identifier. BTC and SOL have no entry. */
  const TokenIds: map<string, string> := map[
    "ETH" := "ethereum",
    "MATIC" := "matic-network",
    "AVAX" := "avalanche-2",
    "BNB" := "binancecoin"
  ]

  // ---------------------------------------------------------------------------
  // Lower-casing of chain names (ASCII letters only)

  predicate IsUpperChar(c: char) {
    'A' <= c <= 'Z'
  }

  function LowerChar(c: char): char {
    if IsUpperChar(c) then (c as int + 32) as char else c
  }

  predicate IsLowerCase(s: string) {
    forall i :: 0 <= i < |s| ==> !IsUpperChar(s[i])
  }

  /** Lower-cases a chain name: the result has no upper-case letter, each
      character is either kept or is the lower-case form of an upper-case
      one, and an already lower-case name comes back unchanged. */
  function Lower(s: string): (r: string)
    ensures |r| == |s|
    ensures IsLowerCase(r)
    ensures forall i :: 0 <= i < |s| ==>
      (IsUpperChar(s[i]) && r[i] as int == s[i] as int + 32) || (!IsUpperChar(s[i]) && r[i] == s[i])
    ensures IsLowerCase(s) ==> r == s
  {
    seq(|s|, i requires 0 <= i < |s| => LowerChar(s[i]))
  }

  lemma LowerIdempotent(s: string)
    ensures Lower(Lower(s)) == Lower(s)
  {
  }

  // ---------------------------------------------------------------------------
  // Catalog shape and lookup

  /** Catalog keys are distinct, as the keys of a dictionary are. */
  ghost predicate UniqueNames(reg: Catalog) {
    forall i, j :: 0 <= i < j < |reg| ==> reg[i].name != reg[j].name
  }

  /** Display names are distinct, so a collected metric names its chain. */
  ghost predicate UniqueDisplayNames(reg: Catalog) {
    forall i, j :: 0 <= i < j < |reg| ==> reg[i].config.displayName != reg[j].config.displayName
  }

  ghost predicate LowerCaseNames(reg: Catalog) {
    forall i :: 0 <= i < |reg| ==> IsLowerCase(reg[i].name)
  }

  ghost predicate WellFormed(reg: Catalog) {
    UniqueNames(reg) && UniqueDisplayNames(reg) && LowerCaseNames(reg)
  }

  /** Distinct first characters (second characters for the two keys
      starting with "b") separate every pair of keys. */
  lemma ChainConfigsUniqueNames()
    ensures UniqueNames(ChainConfigs)
  {
    var reg := ChainConfigs;
    var firsts := seq(|reg|, k requires 0 <= k < |reg| => reg[k].name[0]);
    assert firsts == ['e', 'p', 'a', 'b', 's', 'o', 'b'];
    forall i, j | 0 <= i < j < |reg|
      ensures reg[i].name != reg[j].name
    {
      if !(i == 3 && j == 6) {
        assert reg[i].name[0] != reg[j].name[0];
      } else {
        assert reg[i].name[1] != reg[j].name[1];
      }
    }
  }

  lemma ChainConfigsUniqueDisplayNames()
    ensures UniqueDisplayNames(ChainConfigs)
  {
    var reg := ChainConfigs;
    var firsts := seq(|reg|, k requires 0 <= k < |reg| => reg[k].config.displayName[0]);
    assert firsts == ['E', 'P', 'A', 'B', 'S', 'O', 'B'];
    forall i, j | 0 <= i < j < |reg|
      ensures reg[i].config.displayName != reg[j].config.displayName
    {
      if !(i == 3 && j == 6) {
        assert reg[i].config.displayName[0] != reg[j].config.displayName[0];
      } else {
        assert reg[i].config.displayName[1] != reg[j].config.displayName[1];
      }
    }
  }

  lemma ChainConfigsLowerCaseNames()
    ensures LowerCaseNames(ChainConfigs)
  {
  }

  lemma ChainConfigsWellFormed()
    ensures WellFormed(ChainConfigs)
  {
    ChainConfigsUniqueNames();
    ChainConfigsUniqueDisplayNames();
    ChainConfigsLowerCaseNames();
  }

  /** Searches the catalog from position `from` for the entry keyed `name`;
      the result is the first such position, or None when there is none. */
  function Find(reg: Catalog, name: string, from: nat): (r: Option<nat>)
    requires from <= |reg|
    ensures r.Some? ==> from <= r.value < |reg| && reg[r.value].name == name
    ensures r.Some? ==> forall j :: from <= j < r.value ==> reg[j].name != name
    ensures r.None? <==> forall j :: from <= j < |reg| ==> reg[j].name != name
    decreases |reg| - from
  {
    if from == |reg| then None
    else if reg[from].name == name then Some(from)
    else Find(reg, name, from + 1)
  }

  /** Dictionary `.get` on the catalog. */
  function Lookup(reg: Catalog, name: string): (r: Option<ChainConfig>)
    ensures r.None? <==> forall j :: 0 <= j < |reg| ==> reg[j].name != name
    ensures r.Some? ==> exists j :: 0 <= j < |reg| && reg[j].name == name && reg[j].config == r.value
  {
    match Find(reg, name, 0)
    case Some(i) => Some(reg[i].config)
    case None => None
  }

  /** With distinct keys, looking up an entry's key yields that entry's config. */
  lemma LookupEntry(reg: Catalog, i: int)
    requires UniqueNames(reg)
    requires 0 <= i < |reg|
    ensures Lookup(reg, reg[i].name) == Some(reg[i].config)
  {
    var f := Find(reg, reg[i].name, 0);
    assert f.Some?;
  }

  // ---------------------------------------------------------------------------
  // The symbols whose prices a routing request fetches

  /** The native token symbol of every catalog entry, in catalog order,
      repetitions included. */
  function NativeSymbols(reg: Catalog): (r: seq<string>)
    ensures |r| == |reg|
    ensures forall i :: 0 <= i < |reg| ==> r[i] == reg[i].config.nativeTokenSymbol
  {
    seq(|reg|, i requires 0 <= i < |reg| => reg[i].config.nativeTokenSymbol)
  }

  predicate NoDuplicates(s: seq<string>) {
    forall i, j :: 0 <= i < j < |s| ==> s[i] != s[j]
  }

  /** Removes repetitions, keeping first occurrences: same elements, each once. */
  function Dedup(s: seq<string>): (r: seq<string>)
    ensures forall x :: x in r <==> x in s
    ensures NoDuplicates(r)
    ensures |r| <= |s|
    decreases |s|
  {
    if |s| == 0 then []
    else
      var front := Dedup(s[..|s| - 1]);
      var last := s[|s| - 1];
      assert forall x :: x in s <==> x in s[..|s| - 1] || x == last;
      if last in front then front else front + [last]
  }

  /** The deduplicated native token symbols of the catalog; the modelled code
      takes them from a set, so only their membership is significant. */
  function RequestedSymbols(reg: Catalog): (r: seq<string>)
    ensures NoDuplicates(r)
    ensures forall s :: s in r <==> exists i :: 0 <= i < |reg| && reg[i].config.nativeTokenSymbol == s
  {
    var all := NativeSymbols(reg);
    assert forall s :: s in all <==> exists i :: 0 <= i < |reg| && reg[i].config.nativeTokenSymbol == s by {
      forall s
        ensures s in all <==> exists i :: 0 <= i < |reg| && reg[i].config.nativeTokenSymbol == s
      {
        if s in all {
          var i :| 0 <= i < |all| && all[i] == s;
          assert reg[i].config.nativeTokenSymbol == s;
        }
      }
    }
    Dedup(all)
  }
}
