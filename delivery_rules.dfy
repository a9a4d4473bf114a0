// Delivery-cost strategies over a discounted subtotal in cents
// (lib/delivery_rules/tiered.rb, lib/delivery_rules/free_over_threshold.rb).
module DeliveryRules {
  import opened Options

  /**
   * One tier of a tiered rule: a Ruby range `lower..upper` or `lower...upper`
   * (`excludeEnd`), with no upper bound for `lower..Float::INFINITY`, and its cost.
   */
  datatype Tier = Tier(lower: int, upper: Option<int>, excludeEnd: bool, cost: int)

  /** The closed family of delivery rules. */
  datatype DeliveryRule =
    | Tiered(tiers: seq<Tier>)
    | FreeOverThreshold(thresholdCents: int, standardCostCents: int)

  /** `Range#cover?` on an integer subtotal. */
  predicate Covers(t: Tier, subtotal: int): (r: bool)
    ensures r ==> t.lower <= subtotal
    ensures t.upper.None? ==> (r <==> t.lower <= subtotal)
    ensures t.upper.Some? ==>
      (r <==> t.lower <= subtotal && (subtotal < t.upper.value || (!t.excludeEnd && subtotal == t.upper.value)))
  {
    t.lower <= subtotal &&
    match t.upper
    case None => true
    case Some(upper) => if t.excludeEnd then subtotal < upper else subtotal <= upper
  }

  /** `Array#find`: the index of the first tier covering the subtotal, or `|tiers|` when none does. */
  function FirstCovering(tiers: seq<Tier>, subtotal: int): (k: nat)
    ensures k <= |tiers|
    ensures k < |tiers| ==> Covers(tiers[k], subtotal)
    ensures forall j :: 0 <= j < k ==> !Covers(tiers[j], subtotal)
  {
    if tiers == [] then 0
    else if Covers(tiers[0], subtotal) then 0
    else 1 + FirstCovering(tiers[1..], subtotal)
  }

  /** `cost_for`: the delivery cost in cents the rule charges on a subtotal. */
  function CostFor(rule: DeliveryRule, subtotal: int): (c: int)
    ensures rule.Tiered? ==> c == 0 || exists i :: 0 <= i < |rule.tiers| && rule.tiers[i].cost == c
    ensures rule.FreeOverThreshold? ==> c == 0 || c == rule.standardCostCents
  {
    match rule
    case Tiered(tiers) =>
      var k := FirstCovering(tiers, subtotal);
      if k < |tiers| then tiers[k].cost else 0
    case FreeOverThreshold(threshold, standardCost) =>
      if subtotal >= threshold then 0 else standardCost
  }

  /** The first tier, in list order, that covers the subtotal sets the cost. */
  lemma TieredFirstCoverWins(tiers: seq<Tier>, subtotal: int, k: nat)
    requires k < |tiers| && Covers(tiers[k], subtotal)
    requires forall j :: 0 <= j < k ==> !Covers(tiers[j], subtotal)
    ensures CostFor(Tiered(tiers), subtotal) == tiers[k].cost
  {
  }

  /** A subtotal no tier covers is delivered for nothing. */
  lemma TieredUncoveredIsFree(tiers: seq<Tier>, subtotal: int)
    requires forall j :: 0 <= j < |tiers| ==> !Covers(tiers[j], subtotal)
    ensures CostFor(Tiered(tiers), subtotal) == 0
  {
  }

  /** Once some tier covers the subtotal, tiers appended after the list change nothing. */
  lemma TieredLaterTiersIrrelevant(tiers: seq<Tier>, more: seq<Tier>, subtotal: int, k: nat)
    requires k < |tiers| && Covers(tiers[k], subtotal)
    ensures CostFor(Tiered(tiers + more), subtotal) == CostFor(Tiered(tiers), subtotal)
  {
    var first := FirstCovering(tiers, subtotal);
    assert first < |tiers|;
    assert (tiers + more)[first] == tiers[first];
    forall j | 0 <= j < first ensures !Covers((tiers + more)[j], subtotal) {
      assert (tiers + more)[j] == tiers[j];
    }
    TieredFirstCoverWins(tiers + more, subtotal, first);
  }

  /** Free delivery at or above the threshold (inclusive), the standard cost strictly below it. */
  lemma FreeOverThresholdCost(threshold: int, standardCost: int, subtotal: int)
    ensures subtotal >= threshold ==> CostFor(FreeOverThreshold(threshold, standardCost), subtotal) == 0
    ensures subtotal < threshold ==> CostFor(FreeOverThreshold(threshold, standardCost), subtotal) == standardCost
  {
  }

  /** A subtotal that ships free makes every larger subtotal ship free. */
  lemma FreeDeliveryMonotone(threshold: int, standardCost: int, subtotal: int, larger: int)
    requires subtotal <= larger
    requires CostFor(FreeOverThreshold(threshold, standardCost), subtotal) == 0
    ensures CostFor(FreeOverThreshold(threshold, standardCost), larger) == 0
  {
  }
}
