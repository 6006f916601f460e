/** Conversion of a chain's gas price into a USD fee for one simple transfer. */
module Fees {
  import opened Wrappers
  import opened Prices
  import opened Metrics

  /** Gas consumed by the reference transfer. */
  const TransferGas: real := 21000.0
  /** Gwei in one unit of the native token. */
  const GweiPerToken: real := 1000000000.0

  /** A USD fee, or the marker that it cannot be expressed in USD because the
      native token's price is unknown (the modelled code stores +infinity). */
  datatype Fee = Comparable(usd: real) | Incomparable

  /** A collected metric extended with its fee estimates. */
  datatype PricedMetric = PricedMetric(
    metric: Metric,
    estimatedFeeGwei: real,
    estimatedFeeUsd: Fee,
    nativeTokenPriceUsd: Option<real>)

  /** Dictionary `.get` on the price map: a missing key and an unresolved
      price both read as `None`. */
  function PriceLookup(prices: PriceMap, symbol: string): (r: Option<real>)
    ensures r.Some? <==> symbol in prices && prices[symbol].Some?
    ensures r.Some? ==> r == prices[symbol]
  {
    if symbol in prices then prices[symbol] else None
  }

  /** Adds the fee estimates to a metric. The gwei fee is always the transfer
      gas times the gas price; the USD fee is that amount in native tokens
      times the token's price, and incomparable exactly when the price is
      unknown. */
  function Normalize(m: Metric, prices: PriceMap): (r: PricedMetric)
    ensures r.metric == m
    ensures r.estimatedFeeGwei == m.gasPriceGwei * TransferGas
    ensures r.nativeTokenPriceUsd == PriceLookup(prices, m.nativeTokenSymbol)
    ensures r.estimatedFeeUsd.Incomparable? <==> r.nativeTokenPriceUsd.None?
    ensures r.nativeTokenPriceUsd.Some? ==>
      r.estimatedFeeUsd.usd == m.gasPriceGwei * TransferGas * r.nativeTokenPriceUsd.value / GweiPerToken
  {
    var feeGwei := m.gasPriceGwei * TransferGas;
    match PriceLookup(prices, m.nativeTokenSymbol)
    case None => PricedMetric(m, feeGwei, Incomparable, None)
    case Some(price) => PricedMetric(m, feeGwei, Comparable(feeGwei / GweiPerToken * price), Some(price))
  }

  /** Two chains paying in the same token at the same positive price: the USD
      fee order is exactly the gas-price order. */
  lemma SameTokenFeeOrder(m1: Metric, m2: Metric, prices: PriceMap)
    requires m1.nativeTokenSymbol == m2.nativeTokenSymbol
    requires PriceLookup(prices, m1.nativeTokenSymbol).Some?
    requires PriceLookup(prices, m1.nativeTokenSymbol).value > 0.0
    ensures Normalize(m1, prices).estimatedFeeUsd.Comparable?
    ensures Normalize(m2, prices).estimatedFeeUsd.Comparable?
    ensures Normalize(m1, prices).estimatedFeeUsd.usd <= Normalize(m2, prices).estimatedFeeUsd.usd
            <==> m1.gasPriceGwei <= m2.gasPriceGwei
  {
    var p := PriceLookup(prices, m1.nativeTokenSymbol).value;
    var k := TransferGas * p / GweiPerToken;
    assert k > 0.0;
    assert Normalize(m1, prices).estimatedFeeUsd.usd == m1.gasPriceGwei * k;
    assert Normalize(m2, prices).estimatedFeeUsd.usd == m2.gasPriceGwei * k;
    if m1.gasPriceGwei <= m2.gasPriceGwei {
      assert m1.gasPriceGwei * k <= m2.gasPriceGwei * k;
    } else {
      assert m1.gasPriceGwei * k > m2.gasPriceGwei * k;
    }
  }

  /** A non-negative gas price and price give a non-negative fee. */
  lemma FeeNonNegative(m: Metric, prices: PriceMap)
    requires m.gasPriceGwei >= 0.0
    requires PriceLookup(prices, m.nativeTokenSymbol).Some?
    requires PriceLookup(prices, m.nativeTokenSymbol).value >= 0.0
    ensures Normalize(m, prices).estimatedFeeUsd.usd >= 0.0
  {
    var p := PriceLookup(prices, m.nativeTokenSymbol).value;
    assert m.gasPriceGwei * TransferGas >= 0.0;
    assert m.gasPriceGwei * TransferGas * p >= 0.0;
  }
}
