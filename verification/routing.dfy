/** One routing request end to end: price fetch, per-chain collection with
    failures dropped, fee normalisation, and selection. */
module Routing {
  import opened Wrappers
  import opened Registry
  import opened Prices
  import opened Metrics
  import opened Fees
  import opened Selection

  /** The recommendation: the chosen chain, the sentence explaining the
      choice, and every chain that was collected, in catalog order. */
  datatype Decision = Decision(chosen: PricedMetric, reason: string, allChains: seq<PricedMetric>)

  function Reason(preference: string, chain: string): string {
    "Based on your preference for the " + preference + " transaction, " + chain + " was chosen."
  }

  /** The price map of one request: the catalog's distinct native symbols
      priced from the upstream response. */
  function RequestPrices(reg: Catalog, ids: map<string, string>, upstream: Option<PriceResponse>): PriceMap {
    FetchPrices(RequestedSymbols(reg), ids, upstream)
  }

  /** The collection outcome of every catalog entry, under its own key, in
      catalog order. */
  function Outcomes(reg: Catalog, nodes: map<string, Node>): (r: seq<Result<Metric, CollectError>>)
    ensures |r| == |reg|
    ensures forall i :: 0 <= i < |reg| ==> r[i] == ChainMetrics(reg, nodes, reg[i].name)
  {
    seq(|reg|, i requires 0 <= i < |reg| => ChainMetrics(reg, nodes, reg[i].name))
  }

  predicate Collected(outs: seq<Result<Metric, CollectError>>, i: nat)
    requires i < |outs|
  {
    outs[i].Success?
  }

  /** The priced metric of a collected entry. */
  function PricedAt(outs: seq<Result<Metric, CollectError>>, prices: PriceMap, i: nat): PricedMetric
    requires i < |outs| && Collected(outs, i)
  {
    Normalize(outs[i].value, prices)
  }

  /** The number of collected entries among the first `n` outcomes. */
  function CollectedCount(outs: seq<Result<Metric, CollectError>>, n: nat): (c: nat)
    requires n <= |outs|
    ensures c <= n
    decreases n
  {
    if n == 0 then 0
    else CollectedCount(outs, n - 1) + (if Collected(outs, n - 1) then 1 else 0)
  }

  /** The collection loop over the first `n` outcomes: each collected entry
      contributes its priced metric, each failure contributes nothing. */
  function Aggregate(outs: seq<Result<Metric, CollectError>>, prices: PriceMap, n: nat): (r: seq<PricedMetric>)
    requires n <= |outs|
    ensures |r| == CollectedCount(outs, n)
    ensures |r| <= n
    decreases n
  {
    if n == 0 then []
    else
      var front := Aggregate(outs, prices, n - 1);
      if Collected(outs, n - 1) then front + [PricedAt(outs, prices, n - 1)] else front
  }

  /** A metric is in the aggregate exactly when it is the priced metric of a
      collected entry among the first `n`. */
  lemma {:induction false} AggregateMembers(outs: seq<Result<Metric, CollectError>>, prices: PriceMap, n: nat)
    requires n <= |outs|
    ensures forall x :: x in Aggregate(outs, prices, n) <==>
      exists i :: 0 <= i < n && Collected(outs, i) && x == PricedAt(outs, prices, i)
    decreases n
  {
    if n > 0 {
      AggregateMembers(outs, prices, n - 1);
    }
  }

  /** Each collected entry `i` among the first `n` sits in the aggregate at
      position `CollectedCount(outs, i)`, right after the collected entries
      before it. */
  lemma {:induction false} AggregatePlaces(outs: seq<Result<Metric, CollectError>>, prices: PriceMap, n: nat)
    requires n <= |outs|
    ensures forall i :: 0 <= i < n && Collected(outs, i) ==>
      CollectedCount(outs, i) < |Aggregate(outs, prices, n)|
      && Aggregate(outs, prices, n)[CollectedCount(outs, i)] == PricedAt(outs, prices, i)
    decreases n
  {
    if n > 0 {
      AggregatePlaces(outs, prices, n - 1);
      var front := Aggregate(outs, prices, n - 1);
      var a := Aggregate(outs, prices, n);
      forall i | 0 <= i < n && Collected(outs, i)
        ensures CollectedCount(outs, i) < |a| && a[CollectedCount(outs, i)] == PricedAt(outs, prices, i)
      {
        if i < n - 1 {
          assert a[CollectedCount(outs, i)] == front[CollectedCount(outs, i)];
        }
      }
    }
  }

  /** A collected entry is placed strictly before every later entry's
      place, so distinct collected entries occupy distinct positions. */
  lemma {:induction false} CollectedCountGrows(outs: seq<Result<Metric, CollectError>>, i: nat, j: nat)
    requires i < j <= |outs| && Collected(outs, i)
    ensures CollectedCount(outs, i) < CollectedCount(outs, j)
    decreases j
  {
    if j - 1 > i {
      CollectedCountGrows(outs, i, j - 1);
    }
  }

  /** Every position of the aggregate is the place of some collected entry,
      so together with `AggregatePlaces` the aggregate holds exactly the
      collected entries' priced metrics. */
  lemma {:induction false} AggregateOnto(outs: seq<Result<Metric, CollectError>>, prices: PriceMap, n: nat, p: nat)
    requires n <= |outs| && p < |Aggregate(outs, prices, n)|
    ensures exists i :: 0 <= i < n && Collected(outs, i) && CollectedCount(outs, i) == p
    decreases n
  {
    if p < |Aggregate(outs, prices, n - 1)| {
      AggregateOnto(outs, prices, n - 1, p);
    } else {
      assert Collected(outs, n - 1) && CollectedCount(outs, n - 1) == p;
    }
  }

  /** The metrics a request ranks: the whole catalog aggregated. */
  function CollectAll(reg: Catalog, nodes: map<string, Node>, prices: PriceMap): seq<PricedMetric> {
    var outs := Outcomes(reg, nodes);
    Aggregate(outs, prices, |outs|)
  }

  /** In the list a request ranks, each catalog entry whose collection
      succeeded is priced and sits right after the collected entries before
      it; the list has one metric per collected entry. */
  lemma CollectAllPlaces(reg: Catalog, nodes: map<string, Node>, prices: PriceMap)
    ensures var outs := Outcomes(reg, nodes);
      && |CollectAll(reg, nodes, prices)| == CollectedCount(outs, |outs|)
      && forall i :: 0 <= i < |outs| && Collected(outs, i) ==>
           CollectedCount(outs, i) < |CollectAll(reg, nodes, prices)|
           && CollectAll(reg, nodes, prices)[CollectedCount(outs, i)] == PricedAt(outs, prices, i)
  {
    var outs := Outcomes(reg, nodes);
    AggregatePlaces(outs, prices, |outs|);
  }

  ghost predicate AnyMapped(reg: Catalog, ids: map<string, string>) {
    exists i :: 0 <= i < |reg| && reg[i].config.nativeTokenSymbol in ids
  }

  /** Some chain's collection succeeded. */
  ghost predicate AnyCollected(outs: seq<Result<Metric, CollectError>>) {
    exists i :: 0 <= i < |outs| && Collected(outs, i)
  }

  /** The decision once prices and metrics are gathered. An empty price map
      aborts first, then an empty metric list, and only then is the
      preference applied. */
  function Decide(prices: PriceMap, s: seq<PricedMetric>, preference: string): (r: Result<Decision, RouteError>)
    ensures r == Failure(PricesUnavailable) <==> prices == map[]
    ensures r == Failure(NoViableChains) <==> prices != map[] && s == []
    ensures prices != map[] && s != [] ==>
      && (r.Failure? <==> Select(preference, s).Failure?)
      && (r.Failure? ==> r.error == Select(preference, s).error)
      && (r.Success? ==> && r.value.chosen == Select(preference, s).value
                         && r.value.allChains == s
                         && r.value.reason == Reason(preference, r.value.chosen.metric.chain))
  {
    if prices == map[] then Failure(PricesUnavailable)
    else if s == [] then Failure(NoViableChains)
    else
      match Select(preference, s)
      case Failure(e) => Failure(e)
      case Success(best) => Success(Decision(best, Reason(preference, best.metric.chain), s))
  }

  /** Handles one routing request: fetches the prices of the catalog's native
      tokens, collects every chain, and decides. It fails as
      PricesUnavailable exactly when no native symbol has a market-data id. */
  function Route(reg: Catalog, ids: map<string, string>, nodes: map<string, Node>,
                 upstream: Option<PriceResponse>, preference: string): (r: Result<Decision, RouteError>)
    ensures r == Failure(PricesUnavailable) <==> !AnyMapped(reg, ids)
  {
    var prices := RequestPrices(reg, ids, upstream);
    assert prices == map[] <==> !AnyMapped(reg, ids);
    Decide(prices, CollectAll(reg, nodes, prices), preference)
  }

  /** No metric is collected exactly when every chain's collection fails. */
  lemma AggregateEmpty(outs: seq<Result<Metric, CollectError>>, prices: PriceMap)
    ensures Aggregate(outs, prices, |outs|) == [] <==> !AnyCollected(outs)
  {
    var s := Aggregate(outs, prices, |outs|);
    AggregateMembers(outs, prices, |outs|);
    if s != [] {
      assert s[0] in s;
    } else {
      assert forall i :: 0 <= i < |outs| && Collected(outs, i) ==> PricedAt(outs, prices, i) in s;
    }
  }

  /** When no price is resolved, no collected metric has a USD fee. */
  lemma UnresolvedPricesIncomparable(outs: seq<Result<Metric, CollectError>>, prices: PriceMap)
    requires forall sym :: sym in prices ==> prices[sym] == None
    ensures forall x :: x in Aggregate(outs, prices, |outs|) ==> !IsComparable(x)
  {
    AggregateMembers(outs, prices, |outs|);
    forall x | x in Aggregate(outs, prices, |outs|)
      ensures !IsComparable(x)
    {
      var k :| 0 <= k < |outs| && Collected(outs, k) && x == PricedAt(outs, prices, k);
    }
  }

  /** The request fails as NoViableChains exactly when prices are mapped but
      no chain can be collected. */
  lemma RouteNoViableChains(reg: Catalog, ids: map<string, string>, nodes: map<string, Node>,
                            upstream: Option<PriceResponse>, preference: string)
    ensures Route(reg, ids, nodes, upstream, preference) == Failure(NoViableChains) <==>
      AnyMapped(reg, ids) && !AnyCollected(Outcomes(reg, nodes))
  {
    AggregateEmpty(Outcomes(reg, nodes), RequestPrices(reg, ids, upstream));
  }

  // ---------------------------------------------------------------------------
  // Aggregation properties

  lemma {:induction false} AggregatePrefix(outs: seq<Result<Metric, CollectError>>, prices: PriceMap, m: nat, n: nat)
    requires m <= n <= |outs|
    ensures Aggregate(outs, prices, m) <= Aggregate(outs, prices, n)
    decreases n - m
  {
    if m < n {
      AggregatePrefix(outs, prices, m, n - 1);
    }
  }

  /** Collected chains keep catalog order: an earlier entry's metric comes
      before a later entry's. */
  lemma AggregateKeepsOrder(outs: seq<Result<Metric, CollectError>>, prices: PriceMap, i: nat, j: nat)
    requires i < j < |outs|
    requires Collected(outs, i) && Collected(outs, j)
    ensures var s := Aggregate(outs, prices, |outs|);
      exists p, q :: 0 <= p < q < |s| && s[p] == PricedAt(outs, prices, i) && s[q] == PricedAt(outs, prices, j)
  {
    var s := Aggregate(outs, prices, |outs|);
    var p := |Aggregate(outs, prices, i)|;
    var q := |Aggregate(outs, prices, j)|;
    AggregatePrefix(outs, prices, i + 1, j);
    AggregatePrefix(outs, prices, i + 1, |outs|);
    AggregatePrefix(outs, prices, j + 1, |outs|);
    assert s[p] == Aggregate(outs, prices, i + 1)[p];
    assert s[q] == Aggregate(outs, prices, j + 1)[q];
  }

  /** A chain whose collection failed is absent from the result, not marked:
      no collected metric carries its display name. */
  lemma FailedChainAbsent(reg: Catalog, nodes: map<string, Node>, prices: PriceMap, i: nat)
    requires WellFormed(reg)
    requires i < |reg| && ChainMetrics(reg, nodes, reg[i].name).Failure?
    ensures forall x :: x in CollectAll(reg, nodes, prices) ==> x.metric.chain != reg[i].config.displayName
  {
    var outs := Outcomes(reg, nodes);
    AggregateMembers(outs, prices, |outs|);
    forall x | x in CollectAll(reg, nodes, prices)
      ensures x.metric.chain != reg[i].config.displayName
    {
      var k :| 0 <= k < |outs| && Collected(outs, k) && x == PricedAt(outs, prices, k);
      ChainMetricsOfEntry(reg, nodes, k);
      assert x.metric.chain == reg[k].config.displayName;
      assert k != i;
    }
  }

  lemma {:induction false} AllCollectedKeepsAll(outs: seq<Result<Metric, CollectError>>, prices: PriceMap, n: nat)
    requires n <= |outs|
    requires forall i :: 0 <= i < n ==> Collected(outs, i)
    ensures |Aggregate(outs, prices, n)| == n
    ensures forall i :: 0 <= i < n ==> Aggregate(outs, prices, n)[i] == PricedAt(outs, prices, i)
    decreases n
  {
    if n > 0 {
      AllCollectedKeepsAll(outs, prices, n - 1);
    }
  }

  /** Collection is isolated per chain: when exactly one chain fails, every
      other chain is still collected. */
  lemma {:induction false} OneFailureDropsOne(outs: seq<Result<Metric, CollectError>>, prices: PriceMap, f: nat, n: nat)
    requires f < n <= |outs|
    requires !Collected(outs, f)
    requires forall i :: 0 <= i < n && i != f ==> Collected(outs, i)
    ensures |Aggregate(outs, prices, n)| == n - 1
    ensures forall i :: 0 <= i < n && i != f ==> PricedAt(outs, prices, i) in Aggregate(outs, prices, n)
    decreases n
  {
    AggregateMembers(outs, prices, n);
    if f == n - 1 {
      AllCollectedKeepsAll(outs, prices, n - 1);
    } else {
      OneFailureDropsOne(outs, prices, f, n - 1);
    }
  }

  // ---------------------------------------------------------------------------
  // Request-level properties

  /** A successful decision recommends one of the collected chains and names
      it in its reason. */
  lemma RouteChoosesCollectedChain(reg: Catalog, ids: map<string, string>, nodes: map<string, Node>,
                                   upstream: Option<PriceResponse>, preference: string)
    ensures var r := Route(reg, ids, nodes, upstream, preference);
      r.Success? ==>
      var d := r.value;
      && d.allChains == CollectAll(reg, nodes, RequestPrices(reg, ids, upstream))
      && d.chosen in d.allChains
      && d.reason == Reason(preference, d.chosen.metric.chain)
  {
    var r := Route(reg, ids, nodes, upstream, preference);
    if r.Success? {
      var prices := RequestPrices(reg, ids, upstream);
      assert r == Decide(prices, CollectAll(reg, nodes, prices), preference);
    }
  }

  /** Under "cheapest" the decision is the first chain of least known USD fee,
      and its native token's price was resolved. */
  lemma RouteCheapest(reg: Catalog, ids: map<string, string>, nodes: map<string, Node>, upstream: Option<PriceResponse>)
    ensures var r := Route(reg, ids, nodes, upstream, "cheapest");
      r.Success? ==>
      && (exists i :: IsCheapestAt(r.value.allChains, i) && r.value.allChains[i] == r.value.chosen)
      && r.value.chosen.nativeTokenPriceUsd.Some?
  {
    var r := Route(reg, ids, nodes, upstream, "cheapest");
    if r.Success? {
      var prices := RequestPrices(reg, ids, upstream);
      var outs := Outcomes(reg, nodes);
      var d := r.value;
      AggregateMembers(outs, prices, |outs|);
      assert d.chosen in d.allChains;
      var k :| 0 <= k < |outs| && Collected(outs, k) && d.chosen == PricedAt(outs, prices, k);
    }
  }

  /** Under "fastest" the decision is the first chain of least block time
      among all collected chains, priced or not. */
  lemma RouteFastest(reg: Catalog, ids: map<string, string>, nodes: map<string, Node>, upstream: Option<PriceResponse>)
    ensures var r := Route(reg, ids, nodes, upstream, "fastest");
      r.Success? ==> exists i :: IsFastestAt(r.value.allChains, i) && r.value.allChains[i] == r.value.chosen
  {
  }

  /** "fastest" only fails when prices or collection fail. */
  lemma FastestFailsOnlyUpstream(reg: Catalog, ids: map<string, string>, nodes: map<string, Node>, upstream: Option<PriceResponse>)
    ensures Route(reg, ids, nodes, upstream, "fastest").Failure? <==> !AnyMapped(reg, ids) || !AnyCollected(Outcomes(reg, nodes))
  {
    AggregateEmpty(Outcomes(reg, nodes), RequestPrices(reg, ids, upstream));
  }

  /** An unrecognised preference always fails; it is reported as such only
      once prices and collection have succeeded. */
  lemma RouteInvalidPreference(reg: Catalog, ids: map<string, string>, nodes: map<string, Node>,
                               upstream: Option<PriceResponse>, preference: string)
    requires preference != "cheapest" && preference != "fastest"
    ensures Route(reg, ids, nodes, upstream, preference).Failure?
    ensures AnyMapped(reg, ids) && AnyCollected(Outcomes(reg, nodes)) ==>
      Route(reg, ids, nodes, upstream, preference) == Failure(InvalidPreference(preference))
  {
    AggregateEmpty(Outcomes(reg, nodes), RequestPrices(reg, ids, upstream));
  }

  /** A failed price request leaves every requested symbol unresolved. */
  lemma FailedFetchUnresolved(reg: Catalog, ids: map<string, string>)
    ensures forall sym :: sym in RequestPrices(reg, ids, None) ==> RequestPrices(reg, ids, None)[sym] == None
  {
  }

  /** Under "cheapest", a non-empty list with no known fee fails as
      NoComparableChains. */
  lemma DecideNothingComparable(prices: PriceMap, s: seq<PricedMetric>)
    requires prices != map[] && s != []
    requires forall x :: x in s ==> !IsComparable(x)
    ensures Decide(prices, s, "cheapest") == Failure(NoComparableChains)
  {
    assert forall j :: 0 <= j < |s| ==> s[j] in s;
  }

  /** A failed price request leaves every fee incomparable, so "cheapest"
      cannot succeed. */
  lemma UpstreamFailureDefeatsCheapest(reg: Catalog, ids: map<string, string>, nodes: map<string, Node>)
    ensures AnyMapped(reg, ids) && AnyCollected(Outcomes(reg, nodes)) ==>
      Route(reg, ids, nodes, None, "cheapest") == Failure(NoComparableChains)
  {
    if AnyMapped(reg, ids) && AnyCollected(Outcomes(reg, nodes)) {
      var prices := RequestPrices(reg, ids, None);
      var outs := Outcomes(reg, nodes);
      FailedFetchUnresolved(reg, ids);
      AggregateEmpty(outs, prices);
      UnresolvedPricesIncomparable(outs, prices);
      DecideNothingComparable(prices, Aggregate(outs, prices, |outs|));
    }
  }

  /** A collected chain whose native token has no resolved price is still
      reported, with an incomparable fee, and is never the cheapest choice. */
  lemma UnpricedChainReportedNotChosen(reg: Catalog, ids: map<string, string>, nodes: map<string, Node>,
                                       upstream: Option<PriceResponse>, i: nat)
    requires WellFormed(reg)
    requires i < |reg| && ChainMetrics(reg, nodes, reg[i].name).Success?
    requires PriceLookup(RequestPrices(reg, ids, upstream), reg[i].config.nativeTokenSymbol).None?
    ensures var x := Normalize(ChainMetrics(reg, nodes, reg[i].name).value, RequestPrices(reg, ids, upstream));
      && x in CollectAll(reg, nodes, RequestPrices(reg, ids, upstream))
      && x.estimatedFeeUsd == Incomparable
      && x.nativeTokenPriceUsd == None
      && (Route(reg, ids, nodes, upstream, "cheapest").Success? ==>
            Route(reg, ids, nodes, upstream, "cheapest").value.chosen != x)
  {
    var prices := RequestPrices(reg, ids, upstream);
    var outs := Outcomes(reg, nodes);
    ChainMetricsOfEntry(reg, nodes, i);
    AggregateMembers(outs, prices, |outs|);
    assert Collected(outs, i);
  }

  /** With exactly one chain failing out of two or more, the request is
      decided over the remaining chains rather than failing as a whole. */
  lemma CollectionIsolation(reg: Catalog, ids: map<string, string>, nodes: map<string, Node>,
                            upstream: Option<PriceResponse>, preference: string, f: nat)
    requires 2 <= |reg| && f < |reg|
    requires ChainMetrics(reg, nodes, reg[f].name).Failure?
    requires forall i :: 0 <= i < |reg| && i != f ==> ChainMetrics(reg, nodes, reg[i].name).Success?
    ensures |CollectAll(reg, nodes, RequestPrices(reg, ids, upstream))| == |reg| - 1
    ensures forall i :: 0 <= i < |reg| && i != f ==>
      PricedAt(Outcomes(reg, nodes), RequestPrices(reg, ids, upstream), i)
        in CollectAll(reg, nodes, RequestPrices(reg, ids, upstream))
    ensures Route(reg, ids, nodes, upstream, preference) != Failure(NoViableChains)
  {
    var outs := Outcomes(reg, nodes);
    OneFailureDropsOne(outs, RequestPrices(reg, ids, upstream), f, |outs|);
    var other := if f == 0 then 1 else 0;
    assert ChainMetrics(reg, nodes, reg[other].name).Success?;
  }

  // ---------------------------------------------------------------------------
  // The static catalog

  /** With the static tables the price map is never empty, whatever the
      upstream does, so the empty-price abort cannot fire. */
  lemma StaticPricesNeverUnavailable(nodes: map<string, Node>, upstream: Option<PriceResponse>, preference: string)
    ensures Route(ChainConfigs, TokenIds, nodes, upstream, preference) != Failure(PricesUnavailable)
  {
    assert ChainConfigs[0].config.nativeTokenSymbol in TokenIds;
  }

  /** The chain recommended as cheapest pays in a token that has a
      market-data id and was quoted by a successful response. */
  lemma CheapestTokenWasQuoted(reg: Catalog, ids: map<string, string>, nodes: map<string, Node>, upstream: Option<PriceResponse>)
    ensures var r := Route(reg, ids, nodes, upstream, "cheapest");
      r.Success? ==>
      var sym := r.value.chosen.metric.nativeTokenSymbol;
      && upstream.Some?
      && sym in ids
      && ids[sym] != ""
      && ids[sym] in upstream.value
      && "usd" in upstream.value[ids[sym]]
      && r.value.chosen.nativeTokenPriceUsd == Some(upstream.value[ids[sym]]["usd"])
  {
    var r := Route(reg, ids, nodes, upstream, "cheapest");
    if r.Success? {
      var prices := RequestPrices(reg, ids, upstream);
      var d := r.value;
      RouteCheapest(reg, ids, nodes, upstream);
      RouteChoosesCollectedChain(reg, ids, nodes, upstream, "cheapest");
      var outs := Outcomes(reg, nodes);
      AggregateMembers(outs, prices, |outs|);
      var k :| 0 <= k < |outs| && Collected(outs, k) && d.chosen == PricedAt(outs, prices, k);
      var sym := d.chosen.metric.nativeTokenSymbol;
      assert PriceLookup(prices, sym).Some?;
      assert sym in prices;
    }
  }

  /** BTC and SOL have no id in the static token table, so a chain paying
      in either (Bitcoin and Solana in the static catalog) is never
      recommended as cheapest. */
  lemma StaticUnpricedNeverCheapest(reg: Catalog, nodes: map<string, Node>, upstream: Option<PriceResponse>)
    ensures var r := Route(reg, TokenIds, nodes, upstream, "cheapest");
      r.Success? ==> r.value.chosen.metric.nativeTokenSymbol != "BTC" && r.value.chosen.metric.nativeTokenSymbol != "SOL"
  {
    CheapestTokenWasQuoted(reg, TokenIds, nodes, upstream);
  }
}
