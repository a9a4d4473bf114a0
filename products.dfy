// The product value type: a code and a unit price in cents (lib/product.rb).
module Products {

  /** An immutable product. Equality of datatype values is structural, as in `Product#==`. */
  datatype Product = Product(code: string, priceCents: int)

  /** `Product#==` (and its alias `eql?`): the same code and the same price. */
  function SameProduct(a: Product, b: Product): (r: bool)
    ensures r <==> a == b
  {
    a.code == b.code && a.priceCents == b.priceCents
  }

  /** The pair `[code, price_cents]` whose hash is the product's hash. */
  function HashKey(p: Product): (k: (string, int))
    ensures k.0 == p.code && k.1 == p.priceCents
  {
    (p.code, p.priceCents)
  }

  /** Any hash computed from the key agrees on equal products, and the key tells products apart. */
  lemma HashKeyAgreesWithEquality(a: Product, b: Product, hash: ((string, int)) -> int)
    ensures SameProduct(a, b) <==> HashKey(a) == HashKey(b)
    ensures SameProduct(a, b) ==> hash(HashKey(a)) == hash(HashKey(b))
  {
  }

  /** Sum of the items' prices in cents. */
  function SumPrices(items: seq<Product>): (s: int)
    ensures (forall i :: 0 <= i < |items| ==> items[i].priceCents >= 0) ==> s >= 0
  {
    if items == [] then 0 else SumPrices(items[..|items| - 1]) + items[|items| - 1].priceCents
  }

  lemma {:induction false} SumPricesAppend(a: seq<Product>, b: seq<Product>)
    ensures SumPrices(a + b) == SumPrices(a) + SumPrices(b)
    decreases |b|
  {
    if b == [] {
      assert a + b == a;
    } else {
      var last := |b| - 1;
      assert (a + b)[..|a + b| - 1] == a + b[..last];
      SumPricesAppend(a, b[..last]);
    }
  }

  /** Items that all cost `price` sum to their number times `price`. */
  lemma {:induction false} SumPricesUniform(items: seq<Product>, price: int)
    requires forall i :: 0 <= i < |items| ==> items[i].priceCents == price
    ensures SumPrices(items) == |items| * price
  {
    if items != [] {
      SumPricesUniform(items[..|items| - 1], price);
    }
  }
}
