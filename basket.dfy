// The basket: items added by code and priced through offers and a delivery rule (lib/basket.rb).
module Baskets {
  import opened Products
  import opened DeliveryRules
  import opened Offers

  /** `calculate_discounts_cents`: every offer sees the full item list and their discounts are added up. */
  function Discounts(offers: seq<Offer>, items: seq<Product>): (d: int)
    ensures offers == [] ==> d == 0
  {
    if offers == [] then 0 else Apply(offers[0], items) + Discounts(offers[1..], items)
  }

  /** Offers compose additively: the discount of a concatenation is the sum of the parts'. */
  lemma {:induction false} DiscountsAppend(first: seq<Offer>, second: seq<Offer>, items: seq<Product>)
    ensures Discounts(first + second, items) == Discounts(first, items) + Discounts(second, items)
    decreases |first|
  {
    if first == [] {
      assert first + second == second;
    } else {
      assert (first + second)[1..] == first[1..] + second;
      DiscountsAppend(first[1..], second, items);
    }
  }

  /** The order in which offers are listed does not change the total discount. */
  lemma DiscountsCommute(first: seq<Offer>, second: seq<Offer>, items: seq<Product>)
    ensures Discounts(first + second, items) == Discounts(second + first, items)
  {
    DiscountsAppend(first, second, items);
    DiscountsAppend(second, first, items);
  }

  /** The subtotal after every offer's discount: what the delivery rule is asked about. */
  function DiscountedSubtotal(offers: seq<Offer>, items: seq<Product>): (r: int)
    ensures offers == [] ==> r == SumPrices(items)
    ensures |offers| == 1 ==> r == SumPrices(items) - Apply(offers[0], items)
  {
    assert |offers| == 1 ==> offers[1..] == [];
    SumPrices(items) - Discounts(offers, items)
  }

  /**
   * `total`, in cents: 0 for an empty basket; otherwise the discounted subtotal plus
   * the delivery the rule charges on that discounted subtotal.
   */
  function Total(rule: DeliveryRule, offers: seq<Offer>, items: seq<Product>): (t: int)
    ensures items == [] ==> t == 0
    ensures items != [] && offers == [] ==> t == SumPrices(items) + CostFor(rule, SumPrices(items))
    ensures items != [] ==> t == DiscountedSubtotal(offers, items) + CostFor(rule, DiscountedSubtotal(offers, items))
  {
    if items == [] then 0
    else
      var discounted := DiscountedSubtotal(offers, items);
      discounted + CostFor(rule, discounted)
  }

  /** Offers whose product is not in the basket discount nothing, however many there are. */
  lemma {:induction false} UnmatchedOffersDiscountNothing(offers: seq<Offer>, items: seq<Product>)
    requires forall i :: 0 <= i < |offers| ==> Quantity(items, offers[i].productCode) == 0
    ensures Discounts(offers, items) == 0
    decreases |offers|
  {
    if offers != [] {
      assert Apply(offers[0], items) == 0;
      forall i | 0 <= i < |offers[1..]| ensures Quantity(items, offers[1..][i].productCode) == 0 {
        assert offers[1..][i] == offers[i + 1];
      }
      UnmatchedOffersDiscountNothing(offers[1..], items);
    }
  }

  /** A basket none of whose offers applies totals its subtotal plus the delivery charged on it. */
  lemma UnmatchedOffersTotal(rule: DeliveryRule, offers: seq<Offer>, items: seq<Product>)
    requires items != []
    requires forall i :: 0 <= i < |offers| ==> Quantity(items, offers[i].productCode) == 0
    ensures Total(rule, offers, items) == SumPrices(items) + CostFor(rule, SumPrices(items))
  {
    UnmatchedOffersDiscountNothing(offers, items);
  }

  /** Appending an offer takes its discount off the discounted subtotal the delivery rule sees. */
  lemma AddingOfferLowersDiscountedSubtotal(offers: seq<Offer>, offer: Offer, items: seq<Product>)
    ensures DiscountedSubtotal(offers + [offer], items) == DiscountedSubtotal(offers, items) - Apply(offer, items)
  {
    DiscountsAppend(offers, [offer], items);
    assert Discounts([offer], items) == Apply(offer, items) by {
      assert [offer][1..] == [];
    }
  }

  /** A shopping basket: the catalogue, rule and offers are fixed; the items only grow. */
  class Basket {
    const catalogue: map<string, Product>
    const deliveryRule: DeliveryRule
    const offers: seq<Offer>
    var items: seq<Product>

    constructor (catalogue: map<string, Product>, deliveryRule: DeliveryRule, offers: seq<Offer> := [])
      ensures this.catalogue == catalogue && this.deliveryRule == deliveryRule && this.offers == offers
      ensures items == []
    {
      this.catalogue := catalogue;
      this.deliveryRule := deliveryRule;
      this.offers := offers;
      items := [];
    }

    /** `add`: append the catalogue's product for the code; an unknown code is silently ignored. */
    method Add(code: string)
      modifies this`items
      ensures code in catalogue ==> items == old(items) + [catalogue[code]]
      ensures code !in catalogue ==> items == old(items)
      ensures old(items) <= items
    {
      if code in catalogue {
        items := items + [catalogue[code]];
      }
    }

    /** `total`, in cents, over the items currently in the basket. */
    function TotalCents(): (t: int)
      reads this
      ensures items == [] ==> t == 0
      ensures t == Total(deliveryRule, offers, items)
    {
      Total(deliveryRule, offers, items)
    }
  }
}
