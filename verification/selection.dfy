/** Choice of the recommended chain among the collected metrics. */
module Selection {
  import opened Wrappers
  import opened Fees

  /** The request-fatal failures of a routing request. */
  datatype RouteError =
    | PricesUnavailable        // the price map came back empty
    | NoViableChains           // no chain could be collected
    | NoComparableChains       // "cheapest", but no chain has a USD fee
    | InvalidPreference(preference: string)

  // ---------------------------------------------------------------------------
  // First minimum, as Python's `min` with a key finds it

  /** Position `i` holds a least key, and every earlier key is strictly larger. */
  ghost predicate IsFirstMin(keys: seq<real>, i: int) {
    && 0 <= i < |keys|
    && (forall j :: 0 <= j < |keys| ==> keys[i] <= keys[j])
    && (forall j :: 0 <= j < i ==> keys[i] < keys[j])
  }

  /** One step of the scan: `best` is the first minimum of the first `k` keys. */
  ghost predicate FirstMinSoFar(keys: seq<real>, best: int, k: int) {
    && 0 <= best < k <= |keys|
    && (forall j :: 0 <= j < k ==> keys[best] <= keys[j])
    && (forall j :: 0 <= j < best ==> keys[best] < keys[j])
  }

  /** The scan replaces the running best only on a strictly smaller key. */
  function MinFrom(keys: seq<real>, best: nat, k: nat): (i: nat)
    requires FirstMinSoFar(keys, best, k)
    ensures IsFirstMin(keys, i)
    decreases |keys| - k
  {
    if k == |keys| then best
    else if keys[k] < keys[best] then MinFrom(keys, k, k + 1)
    else MinFrom(keys, best, k + 1)
  }

  function FirstMin(keys: seq<real>): (i: nat)
    requires |keys| > 0
    ensures IsFirstMin(keys, i)
  {
    MinFrom(keys, 0, 1)
  }

  /** At most one position is a first minimum. */
  lemma FirstMinUnique(keys: seq<real>, i: int, j: int)
    requires IsFirstMin(keys, i) && IsFirstMin(keys, j)
    ensures i == j
  {
    assert keys[i] <= keys[j] && keys[j] <= keys[i];
  }

  // ---------------------------------------------------------------------------
  // The comparable chains and their keys

  predicate IsComparable(p: PricedMetric) {
    p.estimatedFeeUsd.Comparable?
  }

  /** The metrics whose USD fee is known, in their original order. */
  function Comparables(s: seq<PricedMetric>): (r: seq<PricedMetric>)
    ensures |r| <= |s|
    ensures forall k :: 0 <= k < |r| ==> IsComparable(r[k])
    ensures forall x :: x in r <==> x in s && IsComparable(x)
    decreases |s|
  {
    if |s| == 0 then []
    else
      var front := s[..|s| - 1];
      var last := s[|s| - 1];
      assert forall x :: x in s <==> x in front || x == last;
      Comparables(front) + (if IsComparable(last) then [last] else [])
  }

  function UsdFees(c: seq<PricedMetric>): (r: seq<real>)
    requires forall k :: 0 <= k < |c| ==> c[k].estimatedFeeUsd.Comparable?
    ensures |r| == |c|
    ensures forall k :: 0 <= k < |c| ==> r[k] == c[k].estimatedFeeUsd.usd
  {
    seq(|c|, k requires 0 <= k < |c| => c[k].estimatedFeeUsd.usd)
  }

  function BlockTimes(s: seq<PricedMetric>): (r: seq<real>)
    ensures |r| == |s|
    ensures forall k :: 0 <= k < |s| ==> r[k] == s[k].metric.avgBlockTimeSeconds
  {
    seq(|s|, k requires 0 <= k < |s| => s[k].metric.avgBlockTimeSeconds)
  }

  // ---------------------------------------------------------------------------
  // Where each comparable metric lands after filtering

  /** How many comparable metrics precede position `i`. */
  function Rank(s: seq<PricedMetric>, i: nat): nat
    requires i <= |s|
  {
    |Comparables(s[..i])|
  }

  lemma {:induction false} ComparablesPrefix(s: seq<PricedMetric>, i: nat)
    requires i <= |s|
    ensures Comparables(s[..i]) <= Comparables(s)
    decreases |s| - i
  {
    if i < |s| {
      var t := s[..|s| - 1];
      assert t[..i] == s[..i];
      ComparablesPrefix(t, i);
    } else {
      assert s[..i] == s;
    }
  }

  /** A comparable metric at position `i` sits at position `Rank(s, i)` of
      the filtered list. */
  lemma ComparableLandsAtRank(s: seq<PricedMetric>, i: nat)
    requires i < |s| && IsComparable(s[i])
    ensures Rank(s, i) < |Comparables(s)|
    ensures Comparables(s)[Rank(s, i)] == s[i]
  {
    var t := s[..i + 1];
    assert t[..i] == s[..i];
    assert Comparables(t) == Comparables(s[..i]) + [s[i]];
    ComparablesPrefix(s, i + 1);
  }

  /** Every position of the filtered list comes from a comparable metric. */
  lemma {:induction false} RankOnto(s: seq<PricedMetric>, k: nat)
    requires k < |Comparables(s)|
    ensures exists i :: 0 <= i < |s| && IsComparable(s[i]) && Rank(s, i) == k
    decreases |s|
  {
    var t := s[..|s| - 1];
    var last := s[|s| - 1];
    if k < |Comparables(t)| {
      RankOnto(t, k);
      var i :| 0 <= i < |t| && IsComparable(t[i]) && Rank(t, i) == k;
      assert t[..i] == s[..i];
      assert IsComparable(s[i]) && Rank(s, i) == k;
    } else {
      assert IsComparable(last) && k == |Comparables(t)|;
      assert s[..|s| - 1] == t;
      assert Rank(s, |s| - 1) == k;
    }
  }

  /** An earlier comparable metric has a smaller rank. */
  lemma RankIncreases(s: seq<PricedMetric>, j: nat, i: nat)
    requires j < i <= |s| && IsComparable(s[j])
    ensures Rank(s, j) < Rank(s, i)
  {
    var u := s[..i];
    assert u[..j] == s[..j];
    ComparableLandsAtRank(u, j);
  }

  // ---------------------------------------------------------------------------
  // The two preferences

  /** Position `i` is the cheapest chain: its fee is known, no known fee is
      lower, and every earlier chain with a known fee costs strictly more. */
  ghost predicate IsCheapestAt(s: seq<PricedMetric>, i: int) {
    && 0 <= i < |s|
    && IsComparable(s[i])
    && (forall j :: 0 <= j < |s| && IsComparable(s[j]) ==>
          s[i].estimatedFeeUsd.usd <= s[j].estimatedFeeUsd.usd)
    && (forall j :: 0 <= j < i && IsComparable(s[j]) ==>
          s[i].estimatedFeeUsd.usd < s[j].estimatedFeeUsd.usd)
  }

  /** Position `i` is the fastest chain: the first with the least block time. */
  ghost predicate IsFastestAt(s: seq<PricedMetric>, i: int) {
    IsFirstMin(BlockTimes(s), i)
  }

  /** Filters out the incomparable chains, then takes the first with the
      least USD fee; `None` when no chain has a known fee. */
  function Cheapest(s: seq<PricedMetric>): (r: Option<PricedMetric>)
    ensures r.None? <==> forall j :: 0 <= j < |s| ==> !IsComparable(s[j])
    ensures r.Some? ==> exists i :: IsCheapestAt(s, i) && s[i] == r.value
  {
    var c := Comparables(s);
    if c == [] then
      assert forall j :: 0 <= j < |s| && IsComparable(s[j]) ==> s[j] in c;
      None
    else
      var k := FirstMin(UsdFees(c));
      CheapestCorrespondence(s, k);
      Some(c[k])
  }

  /** The first minimum of the filtered fees is the cheapest position of the
      full list. */
  lemma CheapestCorrespondence(s: seq<PricedMetric>, k: nat)
    requires |Comparables(s)| > 0
    requires IsFirstMin(UsdFees(Comparables(s)), k)
    ensures exists i :: IsCheapestAt(s, i) && s[i] == Comparables(s)[k]
  {
    var c := Comparables(s);
    var fees := UsdFees(c);
    RankOnto(s, k);
    var i :| 0 <= i < |s| && IsComparable(s[i]) && Rank(s, i) == k;
    ComparableLandsAtRank(s, i);
    forall j | 0 <= j < |s| && IsComparable(s[j])
      ensures s[i].estimatedFeeUsd.usd <= s[j].estimatedFeeUsd.usd
    {
      ComparableLandsAtRank(s, j);
      assert fees[k] <= fees[Rank(s, j)];
    }
    forall j | 0 <= j < i && IsComparable(s[j])
      ensures s[i].estimatedFeeUsd.usd < s[j].estimatedFeeUsd.usd
    {
      ComparableLandsAtRank(s, j);
      RankIncreases(s, j, i);
      assert fees[k] < fees[Rank(s, j)];
    }
    assert IsCheapestAt(s, i);
  }

  /** The first chain with the least average block time, incomparable chains
      included. */
  function Fastest(s: seq<PricedMetric>): (r: PricedMetric)
    requires |s| > 0
    ensures exists i :: IsFastestAt(s, i) && s[i] == r
  {
    var i := FirstMin(BlockTimes(s));
    s[i]
  }

  /** Applies the user's preference to the collected metrics. */
  function Select(preference: string, s: seq<PricedMetric>): (r: Result<PricedMetric, RouteError>)
    requires |s| > 0
    ensures preference == "cheapest" ==>
      (r.Failure? <==> forall j :: 0 <= j < |s| ==> !IsComparable(s[j]))
    ensures preference == "cheapest" && r.Failure? ==> r.error == NoComparableChains
    ensures preference == "cheapest" && r.Success? ==> exists i :: IsCheapestAt(s, i) && s[i] == r.value
    ensures preference == "fastest" ==> r.Success? && exists i :: IsFastestAt(s, i) && s[i] == r.value
    ensures preference != "cheapest" && preference != "fastest" ==> r == Failure(InvalidPreference(preference))
  {
    if preference == "cheapest" then
      match Cheapest(s)
      case None => Failure(NoComparableChains)
      case Some(c) => Success(c)
    else if preference == "fastest" then
      Success(Fastest(s))
    else
      Failure(InvalidPreference(preference))
  }

  // ---------------------------------------------------------------------------
  // Properties of the ranking

  /** The cheapest position is unique, so the tie-break is deterministic. */
  lemma CheapestUnique(s: seq<PricedMetric>, i: int, j: int)
    requires IsCheapestAt(s, i) && IsCheapestAt(s, j)
    ensures i == j
  {
  }

  /** A chain whose fee is incomparable is never the cheapest choice. */
  lemma IncomparableNeverCheapest(s: seq<PricedMetric>, x: PricedMetric)
    requires !IsComparable(x)
    ensures Cheapest(s) != Some(x)
  {
  }

  /** Lowering the fee of the cheapest chain keeps it the cheapest. */
  lemma CheaperStaysCheapest(s: seq<PricedMetric>, i: int, usd: real)
    requires IsCheapestAt(s, i)
    requires usd < s[i].estimatedFeeUsd.usd
    ensures IsCheapestAt(s[i := s[i].(estimatedFeeUsd := Comparable(usd))], i)
  {
  }

  /** Lowering a comparable chain's fee below every other known fee makes it
      the cheapest. */
  lemma UndercutBecomesCheapest(s: seq<PricedMetric>, i: int, usd: real)
    requires 0 <= i < |s| && IsComparable(s[i])
    requires forall j :: 0 <= j < |s| && j != i && IsComparable(s[j]) ==> usd < s[j].estimatedFeeUsd.usd
    ensures IsCheapestAt(s[i := s[i].(estimatedFeeUsd := Comparable(usd))], i)
  {
  }
}
