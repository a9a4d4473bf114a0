// Discount strategies over the whole item list, in cents
// (lib/offers/buy_one_get_one_half_price.rb, lib/offers/bulk_discount.rb).
module Offers {
  import opened Products

  /** The closed family of offers; each names the product code it applies to. */
  datatype Offer =
    | BuyOneGetOneHalfPrice(productCode: string)
    | BulkDiscount(productCode: string, minQuantity: int, discountPerItemCents: int)

  /** `items.select { |item| item.code == code }`: the matching items, in order. */
  function Matching(items: seq<Product>, code: string): (r: seq<Product>)
    ensures |r| <= |items|
    ensures forall i :: 0 <= i < |r| ==> r[i].code == code && r[i] in items
    ensures forall i :: 0 <= i < |items| && items[i].code == code ==> items[i] in r
  {
    if items == [] then []
    else (if items[0].code == code then [items[0]] else []) + Matching(items[1..], code)
  }

  /** `select` keeps every copy of a matching item and no copy of any other. */
  lemma {:induction false} MatchingMultiplicity(items: seq<Product>, code: string, p: Product)
    ensures multiset(Matching(items, code))[p] == if p.code == code then multiset(items)[p] else 0
    decreases |items|
  {
    if items != [] {
      MatchingMultiplicity(items[1..], code, p);
      assert items == [items[0]] + items[1..];
    }
  }

  /** `select` keeps the whole list exactly when every item matches, and nothing exactly when none does. */
  lemma {:induction false} MatchingKeepsAll(items: seq<Product>, code: string)
    ensures |Matching(items, code)| == |items| <==> forall i :: 0 <= i < |items| ==> items[i].code == code
    ensures |Matching(items, code)| == 0 <==> forall i :: 0 <= i < |items| ==> items[i].code != code
    decreases |items|
  {
    var m := Matching(items, code);
    if |m| > 0 {
      assert m[0] in items;
    }
    if items != [] {
      MatchingKeepsAll(items[1..], code);
      if forall i :: 0 <= i < |items[1..]| ==> items[1..][i].code == code {
        if items[0].code == code {
          forall i | 0 <= i < |items| ensures items[i].code == code {
            if i > 0 { assert items[i] == items[1..][i - 1]; }
          }
        }
      } else {
        var k :| 0 <= k < |items[1..]| && items[1..][k].code != code;
        assert items[k + 1].code != code;
      }
    }
  }

  /** Selecting from a concatenation selects from each part. */
  lemma {:induction false} MatchingAppend(a: seq<Product>, b: seq<Product>, code: string)
    ensures Matching(a + b, code) == Matching(a, code) + Matching(b, code)
    decreases |a|
  {
    if a == [] {
      assert a + b == b;
    } else {
      assert (a + b)[1..] == a[1..] + b;
      MatchingAppend(a[1..], b, code);
    }
  }

  /** Selecting keeps the whole list when every item matches. */
  lemma {:induction false} MatchingAllMatch(items: seq<Product>, code: string)
    requires forall i :: 0 <= i < |items| ==> items[i].code == code
    ensures Matching(items, code) == items
    decreases |items|
  {
    if items != [] {
      MatchingAllMatch(items[1..], code);
    }
  }

  /** Selecting keeps nothing when no item matches. */
  lemma {:induction false} MatchingNoneMatch(items: seq<Product>, code: string)
    requires forall i :: 0 <= i < |items| ==> items[i].code != code
    ensures Matching(items, code) == []
    decreases |items|
  {
    if items != [] {
      MatchingNoneMatch(items[1..], code);
    }
  }

  /** The number of items whose code is `code`. */
  function Quantity(items: seq<Product>, code: string): (q: nat)
    ensures q <= |items|
    ensures q == 0 <==> forall i :: 0 <= i < |items| ==> items[i].code != code
    ensures q == |items| <==> forall i :: 0 <= i < |items| ==> items[i].code == code
  {
    MatchingKeepsAll(items, code);
    |Matching(items, code)|
  }

  /** `apply`: the discount in cents the offer grants on the item list. */
  function Apply(offer: Offer, items: seq<Product>): (d: int)
    ensures Quantity(items, offer.productCode) == 0 ==> d == 0
    ensures offer.BuyOneGetOneHalfPrice? && Quantity(items, offer.productCode) < 2 ==> d == 0
    ensures offer.BulkDiscount? && Quantity(items, offer.productCode) < offer.minQuantity ==> d == 0
    ensures offer.BulkDiscount? && offer.discountPerItemCents != 0 && d == 0 ==>
      Quantity(items, offer.productCode) < offer.minQuantity || Quantity(items, offer.productCode) == 0
    ensures offer.BulkDiscount? && Quantity(items, offer.productCode) >= offer.minQuantity ==>
      d == Quantity(items, offer.productCode) * offer.discountPerItemCents
  {
    match offer
    case BuyOneGetOneHalfPrice(code) =>
      var matching := Matching(items, code);
      if |matching| == 0 then 0
      else (matching[0].priceCents / 2) * (|matching| / 2)
    case BulkDiscount(code, minQuantity, perItem) =>
      var quantity := Quantity(items, code);
      if quantity < minQuantity then 0 else quantity * perItem
  }

  /** The discount depends on the items only through those that match the offer's code. */
  lemma ApplyDependsOnMatching(offer: Offer, a: seq<Product>, b: seq<Product>)
    requires Matching(a, offer.productCode) == Matching(b, offer.productCode)
    ensures Apply(offer, a) == Apply(offer, b)
  {
  }

  /** An item with another code, wherever it stands, does not change any offer's discount. */
  lemma OtherCodesIrrelevant(offer: Offer, a: seq<Product>, b: seq<Product>, p: Product)
    requires p.code != offer.productCode
    ensures Apply(offer, a + [p] + b) == Apply(offer, a + b)
  {
    var code := offer.productCode;
    var x, y := Matching(a, code), Matching(b, code);
    assert Matching([p], code) == [] by {
      assert [p][1..] == [];
    }
    assert Matching(a + [p], code) == x by {
      MatchingAppend(a, [p], code);
      assert x + [] == x;
    }
    assert Matching(a + [p] + b, code) == x + y by {
      MatchingAppend(a + [p], b, code);
    }
    assert Matching(a + b, code) == x + y by {
      MatchingAppend(a, b, code);
    }
    ApplyDependsOnMatching(offer, a + [p] + b, a + b);
  }

  /** The first item `select` keeps is the first item in the list that carries the code. */
  lemma FirstMatching(code: string, items: seq<Product>, i: nat)
    requires i < |items| && items[i].code == code
    requires forall j :: 0 <= j < i ==> items[j].code != code
    ensures Quantity(items, code) > 0 && Matching(items, code)[0] == items[i]
  {
    assert items == items[..i] + items[i..];
    MatchingAppend(items[..i], items[i..], code);
    MatchingNoneMatch(items[..i], code);
    assert items[i..] == [items[i]] + items[i + 1..];
    MatchingAppend([items[i]], items[i + 1..], code);
    assert Matching([items[i]], code) == [items[i]] by {
      assert [items[i]][1..] == [];
    }
  }

  /**
   * Buy-one-get-one-half-price: every full pair of matching items earns half the price,
   * rounded down, of the first matching item in the list, whatever the others cost.
   */
  lemma BogoHalfPricePerPair(code: string, items: seq<Product>, i: nat)
    requires i < |items| && items[i].code == code
    requires forall j :: 0 <= j < i ==> items[j].code != code
    ensures Apply(BuyOneGetOneHalfPrice(code), items) == (Quantity(items, code) / 2) * (items[i].priceCents / 2)
  {
    FirstMatching(code, items, i);
    var matching := Matching(items, code);
    assert Apply(BuyOneGetOneHalfPrice(code), items) == (matching[0].priceCents / 2) * (|matching| / 2);
  }

  /** When the matching items share a price, that price sets the discount per pair. */
  lemma BogoSharedPrice(code: string, items: seq<Product>, price: int)
    requires forall i :: 0 <= i < |items| && items[i].code == code ==> items[i].priceCents == price
    ensures Apply(BuyOneGetOneHalfPrice(code), items) == (Quantity(items, code) / 2) * (price / 2)
  {
    var matching := Matching(items, code);
    if |matching| > 0 {
      assert matching[0] in items;
    }
  }

  /** An odd item out earns nothing: one more item after an even count leaves the discount as it was. */
  lemma BogoOddItemOut(code: string, items: seq<Product>, p: Product)
    requires Quantity(items, code) % 2 == 0
    ensures Apply(BuyOneGetOneHalfPrice(code), items + [p]) == Apply(BuyOneGetOneHalfPrice(code), items)
  {
    MatchingAppend(items, [p], code);
    var before := Matching(items, code);
    var after := Matching(items + [p], code);
    if p.code == code {
      assert Matching([p], code) == [p];
      assert after == before + [p];
      if |before| > 0 {
        assert after[0] == before[0];
        assert (|before| + 1) / 2 == |before| / 2;
      }
    } else {
      assert Matching([p], code) == [];
      assert after == before;
    }
  }

  lemma MulMonotone(a: int, b: int, c: int, d: int)
    requires 0 <= a <= b && 0 <= c <= d
    ensures a * c <= b * d
  {
    calc {
      a * c;
    <= { assert a * c <= b * c by { assert (b - a) * c >= 0; } }
      b * c;
    <= { assert b * (d - c) >= 0; }
      b * d;
    }
  }

  /** Half of every second unit, rounded down, is within a quarter of the units' total. */
  lemma QuarterBound(n: nat, price: int)
    requires price >= 0
    ensures 0 <= (n / 2) * (price / 2)
    ensures 4 * ((n / 2) * (price / 2)) <= n * price
  {
    var pairs, half := n / 2, price / 2;
    MulMonotone(0, pairs, 0, half);
    MulMonotone(2 * pairs, n, 2 * half, price);
    assert 4 * (pairs * half) == (2 * pairs) * (2 * half);
  }

  /**
   * When the matching items share a non-negative price, the discount is non-negative
   * and at most a quarter (so within half) of what those items cost together.
   */
  lemma BogoBounded(code: string, items: seq<Product>, price: int)
    requires price >= 0
    requires forall i :: 0 <= i < |items| && items[i].code == code ==> items[i].priceCents == price
    ensures 0 <= Apply(BuyOneGetOneHalfPrice(code), items)
    ensures 4 * Apply(BuyOneGetOneHalfPrice(code), items) <= SumPrices(Matching(items, code))
  {
    var matching := Matching(items, code);
    BogoSharedPrice(code, items, price);
    SumPricesUniform(matching, price);
    QuarterBound(|matching|, price);
  }

  /** Only the codes of the items matter to the quantity, never their prices. */
  lemma {:induction false} QuantityByCodes(a: seq<Product>, b: seq<Product>, code: string)
    requires |a| == |b|
    requires forall i :: 0 <= i < |a| ==> a[i].code == b[i].code
    ensures Quantity(a, code) == Quantity(b, code)
    decreases |a|
  {
    if a != [] {
      QuantityByCodes(a[1..], b[1..], code);
    }
  }

  /** Bulk discount ignores prices: lists with the same codes in the same places get the same discount. */
  lemma BulkIgnoresPrices(offer: Offer, a: seq<Product>, b: seq<Product>)
    requires offer.BulkDiscount?
    requires |a| == |b|
    requires forall i :: 0 <= i < |a| ==> a[i].code == b[i].code
    ensures Apply(offer, a) == Apply(offer, b)
  {
    QuantityByCodes(a, b, offer.productCode);
  }

  /**
   * Bulk discount is all or nothing: one item short of the minimum earns 0, and reaching
   * the minimum discounts every matching item, not only the ones beyond it.
   */
  lemma BulkAllOrNothing(offer: Offer, items: seq<Product>, p: Product)
    requires offer.BulkDiscount? && p.code == offer.productCode
    requires Quantity(items, offer.productCode) + 1 == offer.minQuantity
    ensures Apply(offer, items) == 0
    ensures Apply(offer, items + [p]) == offer.minQuantity * offer.discountPerItemCents
  {
    MatchingAppend(items, [p], offer.productCode);
    assert Matching([p], offer.productCode) == [p];
  }

  /** The bulk formula, all or nothing at the minimum, is monotone in the quantity. */
  lemma BulkFormulaMonotone(q: int, q2: int, minQuantity: int, per: int)
    requires 0 <= q <= q2 && per >= 0
    ensures 0 <= (if q < minQuantity then 0 else q * per) <= (if q2 < minQuantity then 0 else q2 * per)
  {
    if q2 < minQuantity {
    } else if q < minQuantity {
      MulMonotone(0, q2, 0, per);
    } else {
      MulMonotone(q, q2, per, per);
    }
  }

  /** With a non-negative per-item discount, more items never lower the bulk discount. */
  lemma BulkMonotone(offer: Offer, items: seq<Product>, more: seq<Product>)
    requires offer.BulkDiscount? && offer.discountPerItemCents >= 0
    ensures 0 <= Apply(offer, items) <= Apply(offer, items + more)
  {
    var code, minQuantity, per := offer.productCode, offer.minQuantity, offer.discountPerItemCents;
    var q, q2 := Quantity(items, code), Quantity(items + more, code);
    assert q <= q2 by {
      MatchingAppend(items, more, code);
    }
    BulkFormulaMonotone(q, q2, minQuantity, per);
  }
}
