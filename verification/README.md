# Nexus Router: routing core in Dafny

This project models the `/route` pipeline of Nexus Router, a service that
recommends one blockchain from a fixed catalog for a hypothetical transfer,
either the cheapest in USD or the one with the shortest block time. One
request runs in five steps:

1. It prices the catalog's distinct native tokens with one batched
   market-data lookup.
2. It collects a metric per chain: a catalog lookup, a client check and a
   gas-price reading.
3. It converts each gas price into a USD fee for a 21000-gas transfer.
   When the token price is unknown the fee is *incomparable*.
4. It keeps the chains that were collected, in catalog order, and drops the
   ones that failed.
5. It picks the first chain with the least USD fee (`cheapest`) or the least
   block time (`fastest`).

The live inputs are parameters:

- `nodes: map<string, Node>` says, per chain key, whether a connected client
  exists and which gas price (in gwei) its node returned. `None` means the
  query raised. A missing key means there is no client.
- `upstream: Option<PriceResponse>` is the parsed market-data payload. `None`
  stands for a request error, an error status or a malformed payload.

The catalog (`Registry.ChainConfigs`) and the token-id table
(`Registry.TokenIds`) are constants, and `Route` takes them as arguments.
The +infinity sentinel for a missing price is the `Fees.Fee` datatype:
`Comparable(usd) | Incomparable`.

Modules: `Wrappers` (Option/Result), `Registry` (catalog, lower-casing,
lookup, requested symbols), `Prices` (price map), `Metrics` (per-chain
collection), `Fees` (fee normalisation), `Selection` (first-minimum ranking),
`Routing` (aggregation and the whole request).

Three behaviours of the code are worth stating explicitly:

- An unrecognised preference is detected only after the price map and the
  per-chain collection are built. If those fail first, their error is
  reported instead of `InvalidPreference` (see `RouteInvalidPreference`).
- A failed price request never triggers the "failed to fetch prices" abort.
  The map it returns has every symbol unresolved but is not empty. The abort
  fires only when no requested symbol has a market-data id, which cannot
  happen with the static tables (`StaticPricesNeverUnavailable`). After a
  failed price request, and as long as some chain is collected, `cheapest`
  fails with `NoComparableChains` (`UpstreamFailureDefeatsCheapest`) while
  `fastest` still succeeds (`FastestFailsOnlyUpstream`). When no chain is
  collected, both fail with `NoViableChains` before the preference is read
  (`RouteNoViableChains`).
- Any quoted number is accepted as a price; nothing checks that it is
  positive, so the model does not either.

## Model

| member | source | states |
|---|---|---|
| Registry.Lower | app/main.py:243 | the lower-cased name has the same length, contains no upper-case letter, changes exactly the upper-case letters, and leaves an already lower-case name unchanged |
| Registry.LowerIdempotent | app/main.py:243 | lower-casing twice equals lower-casing once |
| Registry.ChainConfigsWellFormed | app/main.py:91-163 | the static catalog has distinct keys, distinct display names and lower-case keys |
| Registry.Find | app/main.py:244 | the search returns the first position keyed by the name, or None exactly when no entry has that key |
| Registry.Lookup | app/main.py:244 | dictionary get: None exactly when no entry has the key, otherwise the config of an entry with that key |
| Registry.LookupEntry | app/main.py:244 | with distinct keys, looking up an entry's own key returns that entry's config |
| Registry.Dedup | app/main.py:289 | deduplication keeps exactly the same elements, each once |
| Registry.RequestedSymbols | app/main.py:289-291 | the requested symbols (the catalog's native symbols, `NativeSymbols`, deduplicated) are distinct and are exactly the native symbols of catalog entries |
| Prices.RequestIds | app/main.py:59-61 | the requested id list is empty exactly when no symbol has an id, and holds only ids of requested symbols |
| Prices.FillPrices | app/main.py:75-83 | after the loop every listed symbol is a key holding its resolved price, and earlier keys not listed are kept |
| Prices.FetchPrices | app/main.py:54-89 | the map is empty exactly when no symbol has an id; otherwise its keys are exactly the requested symbols; a failed response leaves all unresolved, a successful one resolves each symbol from the response by `PriceOf` (id, id in the response, "usd" quote) |
| Prices.FetchPricesOrderIndependent | app/main.py:289-294 | two symbol lists with the same elements give the same price map, so the unspecified set order does not matter |
| Prices.PricedOnlyWhenQuoted | app/main.py:76-89 | a symbol has a price exactly when the response succeeded, the symbol has a non-empty id and the response quotes that id in "usd", and the price is that quote |
| Metrics.ChainMetrics | app/main.py:238-267 | lower-cases the name; an unknown name fails as not supported (with the name as given); a known chain without a connected client fails as not connected; a failing gas query fails as a fetch error; otherwise the metric carries the config's display name, symbol, block time and explorer URL and the reading |
| Metrics.ChainMetricsCaseInsensitive | app/main.py:243-245 | a name and its lower-cased form give the same successful metric |
| Metrics.ChainMetricsOfEntry | app/main.py:301-303 | collecting a catalog entry by its key never fails as unsupported; it succeeds exactly when the client is connected and the query answers, with the entry's static fields |
| Fees.Normalize | app/main.py:305-321 | the gwei fee is gas price times 21000 in both branches; the USD fee is incomparable exactly when the price is unknown, and is gas times 21000 times price divided by 10^9 otherwise; the reported token price is the one looked up in the price map (`PriceLookup`, dictionary get, with an unresolved entry counting as missing) |
| Fees.SameTokenFeeOrder | app/main.py:316-317 | for two chains paying in the same positively priced token, the USD fee order equals the gas-price order |
| Fees.FeeNonNegative | app/main.py:316-317 | a non-negative gas price and token price give a non-negative USD fee |
| Selection.MinFrom | app/main.py:339 | the scan that replaces the running best only on a strictly smaller key ends at the first minimum |
| Selection.FirstMin | app/main.py:342 | the result holds a least key and every earlier key is strictly larger (Python min's first-on-tie) |
| Selection.FirstMinUnique | app/main.py:342 | at most one position is a first minimum |
| Selection.Comparables | app/main.py:336 | the filtered list holds exactly the metrics with a known USD fee |
| Selection.ComparableLandsAtRank | app/main.py:336 | filtering keeps order: a comparable metric appears in the filtered list after exactly the comparable metrics before it |
| Selection.CheapestCorrespondence | app/main.py:336-339 | the first minimum of the filtered fees is the first cheapest position of the full list |
| Selection.Cheapest | app/main.py:333-339 | ranks the filtered metrics by their USD fees (`UsdFees`); None exactly when no metric has a known fee; otherwise a listed metric with a known fee, no higher than any known fee, and strictly below every earlier known fee |
| Selection.Fastest | app/main.py:341-342 | ranks all metrics by their block times (`BlockTimes`); a listed metric with the least block time, strictly below every earlier one, chosen over all metrics including incomparable ones |
| Selection.Select | app/main.py:331-344 | "cheapest" fails with NoComparableChains exactly when no fee is known and otherwise returns the cheapest; "fastest" always returns the fastest; any other preference fails with InvalidPreference |
| Selection.CheapestUnique | app/main.py:339 | the cheapest position is unique, so the tie-break is deterministic |
| Selection.IncomparableNeverCheapest | app/main.py:312 | a metric with an incomparable fee is never returned as cheapest |
| Selection.CheaperStaysCheapest | app/main.py:339 | lowering the fee of the cheapest chain keeps it the cheapest |
| Selection.UndercutBecomesCheapest | app/main.py:339 | a comparable chain whose fee drops below every other known fee becomes the cheapest |
| Routing.Aggregate | app/main.py:300-326 | the loop lists exactly one metric per collected entry (`CollectedCount`), so never more than there are chains |
| Routing.AggregatePlaces | app/main.py:300-326 | each collected entry's priced metric sits at the position given by the number of collected entries before it |
| Routing.CollectedCountGrows | app/main.py:300-326 | a collected entry's position is strictly below every later entry's, so distinct collected entries occupy distinct positions, in catalog order |
| Routing.AggregateOnto | app/main.py:300-326 | every position of the list is the position of some collected entry, so with `AggregatePlaces` the list is exactly the collected entries' priced metrics |
| Routing.CollectAllPlaces | app/main.py:300-326 | the list a request ranks (`CollectAll`) has one metric per collected catalog entry, each at the position given by the collected entries before it |
| Routing.AggregateMembers | app/main.py:300-326 | over the per-entry collection outcomes (`Outcomes`: each catalog entry collected under its own key, in catalog order), a metric is listed exactly when it is the priced metric of an entry whose collection succeeded |
| Routing.AggregateEmpty | app/main.py:328-329 | the list is empty exactly when every chain's collection failed |
| Routing.UnresolvedPricesIncomparable | app/main.py:309-314 | when no price is resolved, no listed metric has a USD fee |
| Routing.AggregateKeepsOrder | app/main.py:301-323 | metrics of two collected entries appear in catalog order |
| Routing.FailedChainAbsent | app/main.py:324-326 | a chain whose collection failed is absent, not marked: no collected metric has its display name |
| Routing.AllCollectedKeepsAll | app/main.py:300-323 | when every chain is collected, the list has one entry per chain and position i holds chain i's priced metric |
| Routing.OneFailureDropsOne | app/main.py:300-326 | when exactly one chain fails, the list has one entry fewer than there are chains and every other chain's priced metric is in it |
| Routing.Decide | app/main.py:296-347 | an empty price map fails as PricesUnavailable; otherwise an empty metric list fails as NoViableChains; otherwise the outcome is the selection, with the reason sentence (`Reason`, app/main.py:377-378) naming the chosen chain and the full list |
| Routing.Route | app/main.py:281-298 | the request prices the requested symbols (`RequestPrices`, app/main.py:289-294), collects the catalog (`CollectAll`, app/main.py:300-326) and decides; it fails with PricesUnavailable exactly when no native symbol of the catalog has a market-data id, whatever the upstream returns |
| Routing.RouteNoViableChains | app/main.py:328-329 | the request fails with NoViableChains exactly when some symbol is mapped but no chain is collected |
| Routing.RouteChoosesCollectedChain | app/main.py:373-395 | a decision recommends a collected chain, reports every collected chain and names the chosen chain in its reason |
| Routing.RouteCheapest | app/main.py:333-339 | under cheapest the decision is the first collected chain of least known fee, and its token price was resolved |
| Routing.RouteFastest | app/main.py:341-342 | under fastest the decision is the first collected chain of least block time |
| Routing.FastestFailsOnlyUpstream | app/main.py:296-342 | fastest fails exactly when no symbol is mapped or no chain is collected |
| Routing.RouteInvalidPreference | app/main.py:343-344 | any other preference always fails, and fails with InvalidPreference once prices and collection have succeeded |
| Routing.FailedFetchUnresolved | app/main.py:84-89 | a failed price request leaves every requested symbol unresolved |
| Routing.DecideNothingComparable | app/main.py:336-338 | under cheapest, a non-empty list without any known fee fails with NoComparableChains |
| Routing.UpstreamFailureDefeatsCheapest | app/main.py:84-89 | after a failed price request, cheapest fails with NoComparableChains whenever some native symbol has an id and a chain was collected |
| Routing.UnpricedChainReportedNotChosen | app/main.py:309-323 | a collected chain with an unresolved token price is still listed, with an incomparable fee and no price, and is never chosen as cheapest |
| Routing.CollectionIsolation | app/main.py:300-329 | when exactly one of two or more chains fails, the list has one entry fewer than the catalog, every other chain's priced metric is in it, and the request does not fail with NoViableChains |
| Routing.StaticPricesNeverUnavailable | app/main.py:296-298 | with the static tables the empty-price abort never fires, whatever the upstream returns |
| Routing.CheapestTokenWasQuoted | app/main.py:307-339 | the chain chosen as cheapest pays in a token with a non-empty id that a successful response quotes in "usd", and the reported token price is that quote |
| Routing.StaticUnpricedNeverCheapest | app/main.py:47-53 | under the static token table, a chain paying in BTC or SOL is never the cheapest choice |

## Left out

- Routing.PricedAt prices each collected metric by the symbol of the config found under the entry's key, whereas the loop at app/main.py:306 uses the loop's own `config["native_token_symbol"]`. The two coincide whenever the catalog's keys are distinct and lower case (`Registry.WellFormed`), as the static catalog is (`ChainConfigsWellFormed`); the route-level lemmas are stated for any catalog and so describe the lookup-based reading.

- Network I/O is not modelled. The market-data HTTP call (app/main.py:69-73) is the `upstream` parameter. The RPC gas-price query and `is_connected()` (app/main.py:249-253) are the `nodes` parameter.
- Timeouts and concurrency are not modelled; the code awaits each chain in turn, and the model keeps that order.
- Metrics.ChainMetrics: the gas price is a given gwei value. The model omits the wei field, the wei-to-gwei `from_wei` conversion and the two-decimal rounding (app/main.py:254-260), because floating-point formatting is out of scope.
- Metrics.ChainMetrics: the Web3 error and the unexpected error both become `FetchError`, because they share status 500 and differ only in message text.
- Prices.FetchPrices: the response type is a map from ids to maps from currency to number, so payloads with other JSON shapes cannot be expressed. The code treats them variously: a body that is not JSON, an entry on which the `"usd" in` test raises (a number), or a string entry containing "usd" (the substring test passes and the indexing `["usd"]` raises) lands in the catch-all handler and leaves every symbol unresolved (app/main.py:74, 78-79, 87-89); an entry without a "usd" key, including a string not containing "usd", leaves only that symbol unresolved (app/main.py:78, 80-82); a `null` price is stored as unresolved (app/main.py:79, 309); a string or object price is stored, and when a chain paying in that token is collected the fee multiplication at app/main.py:317 raises a TypeError that the `except HTTPException` at app/main.py:324 does not catch, so the whole request fails, whichever the preference; when no such chain is collected nothing raises and the request goes on.
- Registry.Lower: only ASCII letters are lower-cased. Python's full Unicode `str.lower` is not modelled.
- Python floats (rounding, overflow to infinity, NaN) are not modelled; fees and block times are exact reals.
- Web3 client set-up from environment variables and `.env` loading (app/main.py:21-37, 167-184) become the `nodes` parameter.
- The Gemini explanation (app/main.py:205-237) is left out: an external text service that cannot change the decision.
- FastAPI routes, request validation and HTTP status codes (app/main.py:187-201, 270-282) are left out. Errors are named, not numbered.
- Output rendering (`:.2f`, `:.4f`, "N/A"; app/main.py:348-395) is left out. The decision keeps the chosen metric, the reason sentence and the full list.
- The `if not optimal_chain` check (app/main.py:346-347) is not modelled: a selected metric is never empty, so it cannot fire.
- `COMMON_TOKEN_ADDRESSES` and the LI.FI constants (app/main.py:19-32) are left out because nothing uses them.
- frontend.py is left out: it is a presentation layer and HTTP client.
