// The pricing pipeline as lib/basket.rb:36 and lib/offers/buy_one_get_one_half_price.rb:20
// write it: both read `Product#price`, the price in dollars, where the rest of the
// pipeline works in cents. Ruby floats are modelled as exact reals.
module AsWritten {
  import opened Options
  import opened Products
  import opened DeliveryRules
  import opened Offers
  import opened Baskets
  import opened WorkedExamples

  /** `Product#price`: the price in dollars. */
  function Price(p: Product): (r: real)
    ensures r * 100.0 == p.priceCents as real
  {
    p.priceCents as real / 100.0
  }

  /** `@items.sum(&:price)`: the subtotal the basket computes, in dollars. */
  function SubtotalAsWritten(items: seq<Product>): (r: real)
    ensures (forall i :: 0 <= i < |items| ==> items[i].priceCents >= 0) ==> r >= 0.0
  {
    if items == [] then 0.0 else SubtotalAsWritten(items[..|items| - 1]) + Price(items[|items| - 1])
  }

  /** The as-written subtotal is the cents subtotal divided by 100, wherever it is used as cents. */
  lemma {:induction false} SubtotalAsWrittenInDollars(items: seq<Product>)
    ensures SubtotalAsWritten(items) == SumPrices(items) as real / 100.0
  {
    if items != [] {
      SubtotalAsWrittenInDollars(items[..|items| - 1]);
    }
  }

  /** The half-price offer's `apply` as written: half the first matching item's dollar price per full pair. */
  function HalfPriceAsWritten(items: seq<Product>, code: string): (r: real)
    ensures Quantity(items, code) == 0 ==> r == 0.0
    ensures Quantity(items, code) > 0 ==>
      r * 200.0 == (Matching(items, code)[0].priceCents * (Quantity(items, code) / 2)) as real
  {
    var matching := Matching(items, code);
    if |matching| == 0 then 0.0
    else
      var discount := (Price(matching[0]) / 2.0) * ((|matching| / 2) as real);
      assert discount * 200.0 == (matching[0].priceCents * (|matching| / 2)) as real by {
        HalfDollarsPerPair(matching[0], |matching| / 2);
      }
      discount
  }

  /** `apply` as written: the half-price offer halves the dollar price; the bulk offer stays in cents. */
  function ApplyAsWritten(offer: Offer, items: seq<Product>): (r: real)
    ensures Quantity(items, offer.productCode) == 0 ==> r == 0.0
    ensures offer.BulkDiscount? ==> r == Apply(offer, items) as real
    ensures offer.BuyOneGetOneHalfPrice? && Quantity(items, offer.productCode) > 0 ==>
      r * 200.0 == (Matching(items, offer.productCode)[0].priceCents * (Quantity(items, offer.productCode) / 2)) as real
  {
    match offer
    case BuyOneGetOneHalfPrice(code) => HalfPriceAsWritten(items, code)
    case BulkDiscount(_, _, _) => Apply(offer, items) as real
  }

  /** Half the dollar price per pair, scaled back by 200, is the price in cents per pair. */
  lemma HalfDollarsPerPair(p: Product, pairs: nat)
    ensures (Price(p) / 2.0) * (pairs as real) * 200.0 == (p.priceCents * pairs) as real
  {
    var cents := p.priceCents as real;
    assert Price(p) / 2.0 * 200.0 == cents;
    calc {
      (Price(p) / 2.0) * (pairs as real) * 200.0;
    ==
      (Price(p) / 2.0 * 200.0) * (pairs as real);
    ==
      cents * (pairs as real);
    }
  }

  function DiscountsAsWritten(offers: seq<Offer>, items: seq<Product>): (r: real)
    ensures offers == [] ==> r == 0.0
    ensures (forall i :: 0 <= i < |offers| ==> offers[i].BulkDiscount?) ==> r == Discounts(offers, items) as real
  {
    if offers == [] then 0.0 else ApplyAsWritten(offers[0], items) + DiscountsAsWritten(offers[1..], items)
  }

  /** `Range#cover?` on a float subtotal. */
  predicate CoversReal(t: Tier, subtotal: real): (r: bool)
    ensures r ==> t.lower as real <= subtotal
    ensures t.upper.None? ==> (r <==> t.lower as real <= subtotal)
    ensures t.upper.Some? ==>
      (r <==> t.lower as real <= subtotal &&
              (subtotal < t.upper.value as real || (!t.excludeEnd && subtotal == t.upper.value as real)))
  {
    t.lower as real <= subtotal &&
    match t.upper
    case None => true
    case Some(upper) => if t.excludeEnd then subtotal < upper as real else subtotal <= upper as real
  }

  /** `@rules.find { ... }` over a float subtotal, then its cost or 0. */
  function TieredCostAsWritten(tiers: seq<Tier>, subtotal: real): (c: int)
    ensures c == 0 || exists i :: 0 <= i < |tiers| && tiers[i].cost == c
  {
    if tiers == [] then 0
    else if CoversReal(tiers[0], subtotal) then tiers[0].cost
    else TieredCostAsWritten(tiers[1..], subtotal)
  }

  function CostForAsWritten(rule: DeliveryRule, subtotal: real): (c: int)
    ensures rule.Tiered? ==> c == 0 || exists i :: 0 <= i < |rule.tiers| && rule.tiers[i].cost == c
    ensures rule.FreeOverThreshold? ==> c == 0 || c == rule.standardCostCents
  {
    match rule
    case Tiered(tiers) => TieredCostAsWritten(tiers, subtotal)
    case FreeOverThreshold(threshold, standardCost) =>
      if subtotal >= threshold as real then 0 else standardCost
  }

  /** On a whole-cent subtotal, the tier search over floats picks the same tier as the one over integers. */
  lemma {:induction false} TieredCostOnCents(tiers: seq<Tier>, subtotal: int)
    ensures TieredCostAsWritten(tiers, subtotal as real) == CostFor(Tiered(tiers), subtotal)
    decreases |tiers|
  {
    if tiers != [] && !Covers(tiers[0], subtotal) {
      TieredCostOnCents(tiers[1..], subtotal);
      var k := FirstCovering(tiers[1..], subtotal);
      assert FirstCovering(tiers, subtotal) == 1 + k;
      if k < |tiers[1..]| {
        assert tiers[1..][k] == tiers[1 + k];
      }
    }
  }

  /** The delivery rules agree with their integer models whenever the subtotal they are handed is whole cents. */
  lemma CostForAsWrittenOnCents(rule: DeliveryRule, subtotal: int)
    ensures CostForAsWritten(rule, subtotal as real) == CostFor(rule, subtotal)
  {
    if rule.Tiered? {
      TieredCostOnCents(rule.tiers, subtotal);
    }
  }

  /** `total_cents` as written, before the final division by 100.0; an empty basket returns 0.0. */
  function TotalCentsAsWritten(rule: DeliveryRule, offers: seq<Offer>, items: seq<Product>): (t: real)
    ensures items == [] ==> t == 0.0
    ensures items != [] && offers == [] ==>
      t == SubtotalAsWritten(items) + CostForAsWritten(rule, SubtotalAsWritten(items)) as real
  {
    if items == [] then 0.0
    else
      var discounted := SubtotalAsWritten(items) - DiscountsAsWritten(offers, items);
      discounted + CostForAsWritten(rule, discounted) as real
  }

  /**
   * Blue and Green under the bin/run.rb rules: the as-written pipeline hands the tiered
   * rule a 32.90 subtotal and ends with 527.9 "cents" (displayed 5.28), not 3785 (37.85).
   */
  lemma SubtotalInDollarsMisprices()
    ensures SubtotalAsWritten([Blue, Green]) == 32.9
    ensures TotalCentsAsWritten(TieredRule, [RedOffer], [Blue, Green]) == 527.9
    ensures Total(TieredRule, [RedOffer], [Blue, Green]) == 3785
  {
    assert [Blue, Green][..1] == [Blue] && [Blue][..0] == [];
    assert SubtotalAsWritten([Blue]) == 7.95;
    assert Matching([Blue, Green], "R01") == [] by {
      CodesDiffer();
      MatchingNoneMatch([Blue, Green], "R01");
    }
    assert DiscountsAsWritten([RedOffer], [Blue, Green]) == 0.0 by {
      assert [RedOffer][1..] == [];
    }
    assert CostForAsWritten(TieredRule, 32.9) == 495;
    RunTotals();
  }

  /** Two Reds: the as-written half-price discount is 16.475 (dollars), the intended one 1647 cents. */
  lemma HalfPriceInDollarsMisprices()
    ensures ApplyAsWritten(RedOffer, [Red, Red]) == 16.475
    ensures Apply(RedOffer, [Red, Red]) == 1647
  {
    assert Matching([Red, Red], "R01") == [Red, Red] by {
      MatchingAllMatch([Red, Red], "R01");
    }
    RedPairDiscount();
  }
}
