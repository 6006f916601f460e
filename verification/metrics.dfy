/** Per-chain metric collection: catalog lookup, client availability and the
    gas-price reading, with each failure named. */
module Metrics {
  import opened Wrappers
  import opened Registry

  /** What the process knows of one chain's node for this request: whether a
      client exists and reports itself connected, and the gas price the node
      returned in gwei (`None` when the query raised). A chain with no entry
      in the node map has no client at all. */
  datatype Node = Node(connected: bool, gasPriceGwei: Option<real>)

  /** The metric record built for a chain whose collection succeeded. */
  datatype Metric = Metric(
    chain: string,
    nativeTokenSymbol: string,
    gasPriceGwei: real,
    avgBlockTimeSeconds: real,
    explorerUrl: string)

  /** Why collecting one chain failed: the name is not in the catalog (HTTP
      404, carrying the name as requested), its client is missing or
      disconnected (503), or the gas-price query failed (500); the last two
      carry the chain's display name. */
  datatype CollectError =
    | NotSupported(requested: string)
    | NotConnected(chain: string)
    | FetchError(chain: string)

  predicate Reachable(nodes: map<string, Node>, name: string) {
    name in nodes && nodes[name].connected
  }

  /** Collects the metric of the chain called `name` (any letter case). */
  function ChainMetrics(reg: Catalog, nodes: map<string, Node>, name: string): (r: Result<Metric, CollectError>)
    ensures r == Failure(NotSupported(name)) <==> Lookup(reg, Lower(name)).None?
    ensures r.Failure? && r.error.NotConnected? <==>
      Lookup(reg, Lower(name)).Some? && !Reachable(nodes, Lower(name))
    ensures r.Failure? && r.error.FetchError? <==>
      Lookup(reg, Lower(name)).Some? && Reachable(nodes, Lower(name)) && nodes[Lower(name)].gasPriceGwei.None?
    ensures r.Failure? && !r.error.NotSupported? ==> r.error.chain == Lookup(reg, Lower(name)).value.displayName
    ensures r.Success? ==>
      var c := Lookup(reg, Lower(name)).value;
      && Reachable(nodes, Lower(name))
      && r.value == Metric(c.displayName, c.nativeTokenSymbol, nodes[Lower(name)].gasPriceGwei.value,
                           c.avgBlockTimeSeconds, c.explorerUrl)
  {
    var key := Lower(name);
    match Lookup(reg, key)
    case None => Failure(NotSupported(name))
    case Some(config) =>
      if !Reachable(nodes, key) then Failure(NotConnected(config.displayName))
      else match nodes[key].gasPriceGwei
        case None => Failure(FetchError(config.displayName))
        case Some(gwei) =>
          Success(Metric(config.displayName, config.nativeTokenSymbol, gwei,
                         config.avgBlockTimeSeconds, config.explorerUrl))
  }

  /** The letter case of the requested name never matters. */
  lemma ChainMetricsCaseInsensitive(reg: Catalog, nodes: map<string, Node>, name: string)
    ensures ChainMetrics(reg, nodes, name).Success? <==> ChainMetrics(reg, nodes, Lower(name)).Success?
    ensures ChainMetrics(reg, nodes, name).Success? ==>
      ChainMetrics(reg, nodes, name) == ChainMetrics(reg, nodes, Lower(name))
  {
    LowerIdempotent(name);
  }

  /** Collecting a catalog entry under its own key: it never fails as
      unsupported, and on success the metric carries that entry's static
      properties unchanged. */
  lemma ChainMetricsOfEntry(reg: Catalog, nodes: map<string, Node>, i: int)
    requires WellFormed(reg)
    requires 0 <= i < |reg|
    ensures var r := ChainMetrics(reg, nodes, reg[i].name);
      && (r.Failure? ==> !r.error.NotSupported? && r.error.chain == reg[i].config.displayName)
      && (r.Success? <==> Reachable(nodes, reg[i].name) && nodes[reg[i].name].gasPriceGwei.Some?)
      && (r.Success? ==>
            && r.value.chain == reg[i].config.displayName
            && r.value.nativeTokenSymbol == reg[i].config.nativeTokenSymbol
            && r.value.avgBlockTimeSeconds == reg[i].config.avgBlockTimeSeconds
            && r.value.explorerUrl == reg[i].config.explorerUrl
            && r.value.gasPriceGwei == nodes[reg[i].name].gasPriceGwei.value)
  {
    assert Lower(reg[i].name) == reg[i].name;
    LookupEntry(reg, i);
  }
}
