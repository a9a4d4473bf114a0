// The configurations and expected totals of the example scripts (bin/run.rb,
// bin/run_extended_examples.rb), restated in cents.
module WorkedExamples {
  import opened Options
  import opened Products
  import opened DeliveryRules
  import opened Offers
  import opened Baskets

  const Red := Product("R01", 3295)
  const Green := Product("G01", 2495)
  const Blue := Product("B01", 795)

  const RunCatalogue: map<string, Product> := map["R01" := Red, "G01" := Green, "B01" := Blue]

  /** Under 5000: 495; 5000 up to 8999: 295; 9000 and over: free. */
  const TieredRule := Tiered([
    Tier(0, Some(5000), true, 495),
    Tier(5000, Some(9000), true, 295),
    Tier(9000, None, false, 0)
  ])

  const RedOffer := BuyOneGetOneHalfPrice("R01")

  /** Free from 7500, otherwise 695. */
  const ThresholdRule := FreeOverThreshold(7500, 695)

  /** Three or more Green widgets: 200 off each. */
  const GreenBulk := BulkDiscount("G01", 3, 200)

  lemma CodesDiffer()
    ensures "R01" != "G01" && "R01" != "B01" && "G01" != "B01"
  {
    assert "R01"[0] != "G01"[0];
    assert "R01"[0] != "B01"[0];
    assert "G01"[0] != "B01"[0];
  }

  /** A run of copies of one product: its price sum and what each code selects from it. */
  lemma Run(items: seq<Product>, p: Product)
    requires forall i :: 0 <= i < |items| ==> items[i] == p
    ensures SumPrices(items) == |items| * p.priceCents
    ensures Matching(items, p.code) == items
    ensures forall code :: code != p.code ==> Matching(items, code) == []
  {
    SumPricesUniform(items, p.priceCents);
    MatchingAllMatch(items, p.code);
    forall code | code != p.code ensures Matching(items, code) == [] {
      MatchingNoneMatch(items, code);
    }
  }

  /** Two runs side by side: sums and selections add up. */
  lemma Runs(a: seq<Product>, p: Product, b: seq<Product>, q: Product)
    requires forall i :: 0 <= i < |a| ==> a[i] == p
    requires forall i :: 0 <= i < |b| ==> b[i] == q
    ensures SumPrices(a + b) == |a| * p.priceCents + |b| * q.priceCents
    ensures forall code :: Matching(a + b, code) == Matching(a, code) + Matching(b, code)
  {
    Run(a, p);
    Run(b, q);
    SumPricesAppend(a, b);
    forall code ensures Matching(a + b, code) == Matching(a, code) + Matching(b, code) {
      MatchingAppend(a, b, code);
    }
  }

  lemma OneOffer(offer: Offer, items: seq<Product>)
    ensures Discounts([offer], items) == Apply(offer, items)
  {
    assert [offer][1..] == [];
  }

  /** The tier boundaries: each lower bound belongs to its own tier and each exclusive upper bound to the next. */
  lemma TieredBoundaries()
    ensures CostFor(TieredRule, 0) == 495
    ensures CostFor(TieredRule, 4999) == 495
    ensures CostFor(TieredRule, 5000) == 295
    ensures CostFor(TieredRule, 8999) == 295
    ensures CostFor(TieredRule, 9000) == 0
    ensures CostFor(TieredRule, -1) == 0
  {
  }

  lemma ThresholdExamples()
    ensures CostFor(ThresholdRule, 3290) == 695
    ensures CostFor(ThresholdRule, 7499) == 695
    ensures CostFor(ThresholdRule, 7500) == 0
    ensures CostFor(ThresholdRule, 9085) == 0
  {
  }

  lemma RedPairDiscount()
    ensures Apply(RedOffer, [Red, Red]) == 1647
    ensures Apply(RedOffer, [Blue, Blue, Red, Red, Red]) == 1647
  {
    CodesDiffer();
    Runs([Blue, Blue], Blue, [Red, Red, Red], Red);
    assert [Blue, Blue] + [Red, Red, Red] == [Blue, Blue, Red, Red, Red];
  }

  lemma GreenBulkDiscounts()
    ensures Apply(GreenBulk, [Green, Green]) == 0
    ensures Apply(GreenBulk, [Green, Green, Green]) == 600
    ensures Apply(GreenBulk, [Green, Green, Green, Green]) == 800
  {
  }

  lemma RunTotalBlueGreen()
    ensures Total(TieredRule, [RedOffer], [Blue, Green]) == 3785
  {
    CodesDiffer();
    Runs([Blue], Blue, [Green], Green);
    assert [Blue] + [Green] == [Blue, Green];
    OneOffer(RedOffer, [Blue, Green]);
    assert CostFor(TieredRule, 3290) == 495;
  }

  lemma RunTotalRedRed()
    ensures Total(TieredRule, [RedOffer], [Red, Red]) == 5438
  {
    Run([Red, Red], Red);
    OneOffer(RedOffer, [Red, Red]);
    assert CostFor(TieredRule, 4943) == 495;
  }

  lemma RunTotalRedGreen()
    ensures Total(TieredRule, [RedOffer], [Red, Green]) == 6085
  {
    CodesDiffer();
    Runs([Red], Red, [Green], Green);
    assert [Red] + [Green] == [Red, Green];
    OneOffer(RedOffer, [Red, Green]);
    assert CostFor(TieredRule, 5790) == 295;
  }

  lemma RunTotalBlueBlueRedRedRed()
    ensures Total(TieredRule, [RedOffer], [Blue, Blue, Red, Red, Red]) == 9828
  {
    var items := [Blue, Blue, Red, Red, Red];
    assert SumPrices(items) == 11475 by {
      Runs([Blue, Blue], Blue, [Red, Red, Red], Red);
      assert [Blue, Blue] + [Red, Red, Red] == items;
    }
    assert Discounts([RedOffer], items) == 1647 by {
      RedPairDiscount();
      OneOffer(RedOffer, items);
    }
    assert DiscountedSubtotal([RedOffer], items) == 9828;
    assert CostFor(TieredRule, 9828) == 0;
  }

  /** The four baskets of bin/run.rb. */
  lemma RunTotals()
    ensures Total(TieredRule, [RedOffer], [Blue, Green]) == 3785
    ensures Total(TieredRule, [RedOffer], [Red, Red]) == 5438
    ensures Total(TieredRule, [RedOffer], [Red, Green]) == 6085
    ensures Total(TieredRule, [RedOffer], [Blue, Blue, Red, Red, Red]) == 9828
  {
    RunTotalBlueGreen();
    RunTotalRedRed();
    RunTotalRedGreen();
    RunTotalBlueBlueRedRedRed();
  }

  /** The two baskets without offers of bin/run_extended_examples.rb: under and over the threshold. */
  lemma ExtendedThresholdTotals()
    ensures Total(ThresholdRule, [], [Blue, Green]) == 3985
    ensures Total(ThresholdRule, [], [Red, Red, Green]) == 9085
  {
    assert SumPrices([Blue, Green]) == 3290 by {
      Runs([Blue], Blue, [Green], Green);
      assert [Blue] + [Green] == [Blue, Green];
    }
    assert SumPrices([Red, Red, Green]) == 9085 by {
      Runs([Red, Red], Red, [Green], Green);
      assert [Red, Red] + [Green] == [Red, Red, Green];
    }
  }

  /** The three Green baskets with the bulk offer of bin/run_extended_examples.rb. */
  lemma ExtendedBulkTotals()
    ensures Total(ThresholdRule, [GreenBulk], [Green, Green]) == 5685
    ensures Total(ThresholdRule, [GreenBulk], [Green, Green, Green]) == 7580
    ensures Total(ThresholdRule, [GreenBulk], [Green, Green, Green, Green]) == 9180
  {
    GreenBulkDiscounts();
    assert Total(ThresholdRule, [GreenBulk], [Green, Green]) == 5685 by {
      Run([Green, Green], Green);
      OneOffer(GreenBulk, [Green, Green]);
    }
    assert Total(ThresholdRule, [GreenBulk], [Green, Green, Green]) == 7580 by {
      Run([Green, Green, Green], Green);
      OneOffer(GreenBulk, [Green, Green, Green]);
    }
    assert Total(ThresholdRule, [GreenBulk], [Green, Green, Green, Green]) == 9180 by {
      Run([Green, Green, Green, Green], Green);
      OneOffer(GreenBulk, [Green, Green, Green, Green]);
    }
  }

  /** The five baskets of bin/run_extended_examples.rb. */
  lemma ExtendedTotals()
    ensures Total(ThresholdRule, [], [Blue, Green]) == 3985
    ensures Total(ThresholdRule, [], [Red, Red, Green]) == 9085
    ensures Total(ThresholdRule, [GreenBulk], [Green, Green]) == 5685
    ensures Total(ThresholdRule, [GreenBulk], [Green, Green, Green]) == 7580
    ensures Total(ThresholdRule, [GreenBulk], [Green, Green, Green, Green]) == 9180
  {
    ExtendedThresholdTotals();
    ExtendedBulkTotals();
  }

  /**
   * Delivery follows the discounted subtotal: two Reds sum to 6590, which the tiered rule
   * would charge 295, but after the half-price Red the rule sees 4943 and charges 495;
   * charging on the raw subtotal would give 6590 - 1647 + 295 == 5238 instead of 5438.
   */
  lemma DeliveryOnDiscountedSubtotal()
    ensures SumPrices([Red, Red]) == 6590 && CostFor(TieredRule, 6590) == 295
    ensures DiscountedSubtotal([RedOffer], [Red, Red]) == 4943 && CostFor(TieredRule, 4943) == 495
    ensures Total(TieredRule, [RedOffer], [Red, Red]) == 4943 + 495
    ensures Total(TieredRule, [RedOffer], [Red, Red]) != 6590 - 1647 + 295
  {
    Run([Red, Red], Red);
    RedPairDiscount();
  }

  /** The products a basket holds after its codes are added in order: unknown codes drop out. */
  function Stocked(catalogue: map<string, Product>, codes: seq<string>): (r: seq<Product>)
    ensures |r| <= |codes|
    ensures forall i :: 0 <= i < |r| ==> r[i] in catalogue.Values
    ensures (forall i :: 0 <= i < |codes| ==> codes[i] in catalogue) ==> |r| == |codes|
  {
    if codes == [] then []
    else
      var last := codes[|codes| - 1];
      Stocked(catalogue, codes[..|codes| - 1]) + (if last in catalogue then [catalogue[last]] else [])
  }

  /** `run_example` of bin/run.rb: a fresh basket, its codes added one by one, and its total in cents. */
  method RunExample(codes: seq<string>) returns (total: int)
    ensures total == Total(TieredRule, [RedOffer], Stocked(RunCatalogue, codes))
  {
    var basket := new Basket(RunCatalogue, TieredRule, [RedOffer]);
    for i := 0 to |codes|
      invariant basket.items == Stocked(RunCatalogue, codes[..i])
    {
      assert codes[..i + 1][..i] == codes[..i];
      basket.Add(codes[i]);
    }
    assert codes[..|codes|] == codes;
    total := basket.TotalCents();
  }

  lemma StockedBlueGreenUnknown()
    ensures Stocked(RunCatalogue, ["B01", "G01"]) == [Blue, Green]
    ensures Stocked(RunCatalogue, ["B01", "G01", "X99"]) == [Blue, Green]
  {
    var codes := ["B01", "G01", "X99"];
    assert codes[..2] == ["B01", "G01"] && codes[..2][..1] == ["B01"] && codes[..2][..1][..0] == [];
    assert "X99" !in RunCatalogue by {
      assert "X99"[0] != "R01"[0] && "X99"[0] != "G01"[0] && "X99"[0] != "B01"[0];
    }
    assert Stocked(RunCatalogue, ["B01"]) == [Blue];
    assert Stocked(RunCatalogue, ["B01", "G01"]) == [Blue, Green];
  }

  lemma StockedPairs()
    ensures Stocked(RunCatalogue, ["R01", "R01"]) == [Red, Red]
    ensures Stocked(RunCatalogue, ["R01", "G01"]) == [Red, Green]
  {
    assert ["R01", "R01"][..1] == ["R01"] && ["R01", "G01"][..1] == ["R01"] && ["R01"][..0] == [];
    assert Stocked(RunCatalogue, ["R01"]) == [Red];
  }

  lemma StockedFive()
    ensures Stocked(RunCatalogue, ["B01", "B01", "R01", "R01", "R01"]) == [Blue, Blue, Red, Red, Red]
  {
    var codes := ["B01", "B01", "R01", "R01", "R01"];
    assert codes[..4] == ["B01", "B01", "R01", "R01"];
    assert codes[..4][..3] == ["B01", "B01", "R01"];
    assert codes[..4][..3][..2] == ["B01", "B01"];
    assert codes[..4][..3][..2][..1] == ["B01"];
    assert codes[..4][..3][..2][..1][..0] == [];
    assert Stocked(RunCatalogue, ["B01"]) == [Blue];
    assert Stocked(RunCatalogue, ["B01", "B01"]) == [Blue, Blue];
    assert Stocked(RunCatalogue, ["B01", "B01", "R01"]) == [Blue, Blue, Red];
    assert Stocked(RunCatalogue, ["B01", "B01", "R01", "R01"]) == [Blue, Blue, Red, Red];
  }

  /** The bin/run.rb baskets priced through `Basket`, with an unknown code added to the first. */
  method RunBaskets() returns (totals: seq<int>)
    ensures totals == [3785, 5438, 6085, 9828]
  {
    StockedBlueGreenUnknown();
    StockedPairs();
    StockedFive();
    RunTotals();
    var first := RunExample(["B01", "G01"]);
    var second := RunExample(["R01", "R01"]);
    var third := RunExample(["R01", "G01"]);
    var fourth := RunExample(["B01", "B01", "R01", "R01", "R01"]);
    totals := [first, second, third, fourth];
  }
}
