/** Construction of the symbol to USD-price map from one batched market-data
    response. The network call itself is an input: `None` stands for a
    request error, an error status or a payload that does not parse. */
module Prices {
  import opened Wrappers

  /** The parsed upstream payload: market-data id to currency to price. */
  type PriceResponse = map<string, map<string, real>>

  /** Token symbol to its USD price, or `None` when it is unresolved. */
  type PriceMap = map<string, Option<real>>

  /** The price a successful response gives one symbol: present only when the
      symbol has a non-empty id, the id is in the response, and the response
      for that id quotes "usd". */
  function PriceOf(ids: map<string, string>, data: PriceResponse, symbol: string): (r: Option<real>)
    ensures r.Some? <==> symbol in ids && ids[symbol] != "" && ids[symbol] in data && "usd" in data[ids[symbol]]
    ensures r.Some? ==> r.value == data[ids[symbol]]["usd"]
  {
    if symbol in ids && ids[symbol] != "" && ids[symbol] in data && "usd" in data[ids[symbol]]
    then Some(data[ids[symbol]]["usd"])
    else None
  }

  /** The market-data ids requested upstream, one per mapped symbol, in
      symbol order. */
  function RequestIds(symbols: seq<string>, ids: map<string, string>): (r: seq<string>)
    ensures |r| <= |symbols|
    ensures r == [] <==> forall i :: 0 <= i < |symbols| ==> symbols[i] !in ids
    ensures forall x :: x in r ==> exists i :: 0 <= i < |symbols| && symbols[i] in ids && ids[symbols[i]] == x
    decreases |symbols|
  {
    if symbols == [] then []
    else
      var rest := RequestIds(symbols[1..], ids);
      assert forall i :: 1 <= i < |symbols| ==> symbols[i] == symbols[1..][i - 1];
      if symbols[0] in ids then [ids[symbols[0]]] + rest else rest
  }

  /** The per-symbol loop over a successful response: every listed symbol is
      (re)assigned its resolved price; other keys of `acc` are left alone. */
  function FillPrices(symbols: seq<string>, ids: map<string, string>, data: PriceResponse, acc: PriceMap): (r: PriceMap)
    ensures r.Keys == acc.Keys + (set s | s in symbols)
    ensures forall s :: s in symbols ==> r[s] == PriceOf(ids, data, s)
    ensures forall s :: s in acc && s !in symbols ==> r[s] == acc[s]
    decreases |symbols|
  {
    if symbols == [] then acc
    else
      var s0 := symbols[0];
      assert forall s :: s in symbols <==> s == s0 || s in symbols[1..];
      FillPrices(symbols[1..], ids, data, acc[s0 := PriceOf(ids, data, s0)])
  }

  /** Builds the price map for the requested symbols. If no symbol has an id
      the result is empty and nothing is fetched; otherwise every requested
      symbol is a key, resolved from the response, and all of them are
      unresolved when the response failed. */
  function FetchPrices(symbols: seq<string>, ids: map<string, string>, upstream: Option<PriceResponse>): (r: PriceMap)
    ensures r == map[] <==> forall s :: s in symbols ==> s !in ids
    ensures r != map[] ==> r.Keys == (set s | s in symbols)
    ensures upstream.None? ==> forall s :: s in r ==> r[s] == None
    ensures upstream.Some? ==> forall s :: s in r ==> r[s] == PriceOf(ids, upstream.value, s)
  {
    if RequestIds(symbols, ids) == [] then map[]
    else
      assert exists w :: w in symbols && w in ids;
      match upstream
      case None =>
        var none: PriceMap := map s | s in symbols :: None;
        assert forall w :: w in symbols ==> w in none;
        none
      case Some(data) => FillPrices(symbols, ids, data, map[])
  }

  /** Only the set of requested symbols matters: reordering or repeating them
      yields the same map. */
  lemma FetchPricesOrderIndependent(s1: seq<string>, s2: seq<string>, ids: map<string, string>, upstream: Option<PriceResponse>)
    requires forall s :: s in s1 <==> s in s2
    ensures FetchPrices(s1, ids, upstream) == FetchPrices(s2, ids, upstream)
  {
    var r1 := FetchPrices(s1, ids, upstream);
    var r2 := FetchPrices(s2, ids, upstream);
    if r1 != map[] {
      assert r2 != map[];
      assert r1.Keys == r2.Keys;
    }
  }

  /** A symbol gets a price only when it has an id that the successful
      response quotes in USD; with a failed response nothing is priced. */
  lemma PricedOnlyWhenQuoted(symbols: seq<string>, ids: map<string, string>, upstream: Option<PriceResponse>, s: string)
    requires s in FetchPrices(symbols, ids, upstream)
    ensures FetchPrices(symbols, ids, upstream)[s].Some? <==>
      upstream.Some? && s in ids && ids[s] != "" && ids[s] in upstream.value && "usd" in upstream.value[ids[s]]
    ensures FetchPrices(symbols, ids, upstream)[s].Some? ==>
      FetchPrices(symbols, ids, upstream)[s].value == upstream.value[ids[s]]["usd"]
  {
  }
}
