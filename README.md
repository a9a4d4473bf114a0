# Acme Widget Co basket pricing, modelled in Dafny

This project models the pricing pipeline of the Acme Widget Co basket (a small Ruby library):

- a **product** is an immutable value: a code and a unit price in cents;
- a **catalogue** is built once from a list of products into a code-to-product table, with a strict `find` and an `all` listing;
- a **delivery rule** turns a discounted subtotal into a delivery cost: *tiered* (the first range that covers the subtotal sets the cost, 0 if none does) or *free over threshold* (free at or above the threshold, a standard cost below it);
- an **offer** turns the whole item list into a discount: *buy one, get one half price* (every full pair of the product earns half the first matching item's price, rounded down) or *bulk discount* (once the quantity reaches the minimum, every matching item is discounted);
- a **basket** collects products by code from a catalogue table (unknown codes are ignored) and totals them as `subtotal − Σ discounts + delivery(subtotal − Σ discounts)`, with 0 for an empty basket.

All money is integer cents. Ruby's integer `/` floors; for the divisor 2 used here that is the same as Dafny's Euclidean `/`, negative prices included.

Files, one module each:

| file | module | models |
|---|---|---|
| `options.dfy` | `Options` | the optional result of a lookup |
| `products.dfy` | `Products` | `lib/product.rb`, and the price sum of `lib/basket.rb` |
| `catalogue.dfy` | `Catalogues` | `lib/catalogue.rb` (a class whose constructor runs the insertion loop) |
| `delivery_rules.dfy` | `DeliveryRules` | `lib/delivery_rules/tiered.rb`, `lib/delivery_rules/free_over_threshold.rb` |
| `offers.dfy` | `Offers` | `lib/offers/buy_one_get_one_half_price.rb`, `lib/offers/bulk_discount.rb` |
| `basket.dfy` | `Baskets` | `lib/basket.rb` (a class whose `Add` appends in place; the total is a pure function) |
| `worked_examples.dfy` | `WorkedExamples` | the configurations and expected totals of `bin/run.rb` and `bin/run_extended_examples.rb` |
| `as_written.dfy` | `AsWritten` | the subtotal and half-price discount exactly as the code writes them (in dollars), for the findings below |

The two strategy families are closed datatypes (`DeliveryRule`, `Offer`), so an offer or rule without an implementation, which the Ruby base classes report by raising `NotImplementedError`, cannot be built. A tier is a Ruby range over integers: an inclusive lower bound, an optional upper bound (`None` for `Float::INFINITY`) and whether the end is excluded (`...` rather than `..`).

The basket's catalogue is a `map<string, Product>`, as in the source, which passes a hash to `Basket.new`; a `Catalogue`'s `products` field is such a map.

Where the code and the intended units disagree, the model follows the evident intent and records the code as written under "## Findings": `lib/basket.rb:36` and `lib/offers/buy_one_get_one_half_price.rb:20` use `Product#price` (dollars), while variable names, configurations and the example scripts' expected totals are all in cents. The fifth `bin/run.rb` basket (B01, B01, R01, R01, R01) has subtotal 11475, discount 1647, discounted subtotal 9828, free delivery and total 9828, as the script expects.

## Model

| member | source | states |
|---|---|---|
| `Products.SameProduct` | lib/product.rb:20-24 | `==` (and its alias `eql?`) holds exactly when code and price in cents are both equal, which is value equality of the datatype |
| `Products.HashKeyAgreesWithEquality` | lib/product.rb:26-28 | the hash key is the pair (code, price_cents): it tells products apart exactly as `==` does, so any hash of it agrees on equal products |
| `Products.SumPrices` | lib/basket.rb:35-37 | the subtotal is the sum of the items' prices in cents; it is non-negative when every price is |
| `Products.SumPricesAppend` | lib/basket.rb:36 | the subtotal of a concatenation is the sum of the parts' subtotals |
| `Products.SumPricesUniform` | lib/basket.rb:36 | n items that all cost p sum to n × p |
| `Catalogues.LastWith` | lib/catalogue.rb:9-11 | reference for "last one wins": the last listed product with a code; none exactly when no listed product has that code; a found product has that code and is in the list |
| `Catalogues.LastWithIsLast` | lib/catalogue.rb:10 | a listed product with the code and no later one with it is the one `LastWith` returns |
| `Catalogues.LastWithCons` | lib/catalogue.rb:9-11 | seen from the front, a later product with the code overrides the first one |
| `Catalogues.Insert` | lib/catalogue.rb:9-11 | inserting a list into a table front to back leaves, for every code, the last listed product with it, and the old entry for codes not listed |
| `Catalogues.NewCodes` | lib/catalogue.rb:9-11 | the hash's key order after inserting a list: exactly the earlier keys and the listed codes, without repeats |
| `Catalogues.NewCodesLength` | lib/catalogue.rb:18-19 | the key order grows by at most one per listed product, and by exactly one each time if and only if no code repeats (in the list or among the earlier keys) |
| `Catalogues.FirstIndex` | lib/catalogue.rb:9-10 | reference for "where a code first appears": the index of a listed product with the code and none with it before, or the list's length when none has it |
| `Catalogues.NewCodesOrder` | lib/catalogue.rb:9-11 | inserting a list keeps the earlier keys in place, and the keys it adds follow them in the order in which their codes first occur in the list |
| `Catalogues.Catalogue.constructor` | lib/catalogue.rb:8-12 | the insertion loop builds exactly `Insert` and `NewCodes` of the given list |
| `Catalogues.Catalogue.Find` | lib/catalogue.rb:14-16 | `find` returns the last listed product with the code, and fails (`None`) exactly when no listed product has it |
| `Catalogues.Catalogue.All` | lib/catalogue.rb:18-20 | `all` lists one product per distinct listed code, each the one `Find` returns, ordered by the position of each code's first occurrence in the list; its size is at most the list's, with equality if and only if codes are unique |
| `DeliveryRules.Covers` | lib/delivery_rules/tiered.rb:20 | `Range#cover?` on an integer: the lower bound is inclusive; an endless range covers everything from it; otherwise the subtotal lies below the upper bound, or on it when the end is not excluded |
| `DeliveryRules.FirstCovering` | lib/delivery_rules/tiered.rb:20 | `find` over the tiers: the index of a covering tier with no covering tier before it, or the list's length when none covers |
| `DeliveryRules.CostFor` | lib/delivery_rules/tiered.rb:19-22 | a tiered cost is 0 or the cost of a configured tier; a threshold cost is 0 or the standard cost |
| `DeliveryRules.TieredFirstCoverWins` | lib/delivery_rules/tiered.rb:20-21 | the first tier in list order whose range covers the subtotal sets the cost |
| `DeliveryRules.TieredUncoveredIsFree` | lib/delivery_rules/tiered.rb:21 | a subtotal that no tier covers costs 0 |
| `DeliveryRules.TieredLaterTiersIrrelevant` | lib/delivery_rules/tiered.rb:20 | once a tier covers the subtotal, tiers appended after the list do not change the cost |
| `DeliveryRules.FreeOverThresholdCost` | lib/delivery_rules/free_over_threshold.rb:19-21 | at or above the threshold (inclusive) delivery is 0, strictly below it is the standard cost |
| `DeliveryRules.FreeDeliveryMonotone` | lib/delivery_rules/free_over_threshold.rb:20 | if a subtotal ships free, every larger subtotal ships free |
| `Offers.Matching` | lib/offers/buy_one_get_one_half_price.rb:15 | `select` keeps only items with the code, each taken from the list, and every item with the code is kept |
| `Offers.MatchingMultiplicity` | lib/offers/bulk_discount.rb:23 | `select` keeps each product with the code exactly as many times as the list holds it, and no other product |
| `Offers.MatchingKeepsAll` | lib/offers/bulk_discount.rb:23 | `select` keeps the whole list if and only if every item matches, and nothing if and only if no item matches |
| `Offers.MatchingAppend` | lib/offers/bulk_discount.rb:23 | selecting from a concatenation selects from each part, in order |
| `Offers.MatchingAllMatch` | lib/offers/bulk_discount.rb:23 | selecting keeps a list whose items all match |
| `Offers.MatchingNoneMatch` | lib/offers/bulk_discount.rb:23 | selecting keeps nothing of a list with no matching item |
| `Offers.Quantity` | lib/offers/bulk_discount.rb:24 | the count of matching items is at most the list's length; it is 0 if and only if no item has the code, and the full length if and only if every item has it |
| `Offers.Apply` | lib/offers/bulk_discount.rb:22-31 | no matching item means no discount; the half-price offer grants nothing below one full pair; the bulk offer grants nothing below the minimum and, from the minimum on, the quantity times the per-item discount, so every matching item is discounted and a non-zero per-item discount gives a non-zero discount |
| `Offers.ApplyDependsOnMatching` | lib/offers/bulk_discount.rb:22-31 | both offers see the item list only through the items that carry their code |
| `Offers.OtherCodesIrrelevant` | lib/offers/buy_one_get_one_half_price.rb:15 | inserting an item of another code anywhere leaves either offer's discount unchanged |
| `Offers.FirstMatching` | lib/offers/buy_one_get_one_half_price.rb:15-20 | the first item with the code in the list is `matching_items.first`, and some item matches |
| `Offers.BogoHalfPricePerPair` | lib/offers/buy_one_get_one_half_price.rb:19-21 | the discount is (count / 2) × (p / 2), both divisions rounding down, where p is the price of the first item with the code, whatever the other matching items cost |
| `Offers.BogoSharedPrice` | lib/offers/buy_one_get_one_half_price.rb:19-21 | when the matching items share a price p, the discount is (count / 2) × (p / 2) |
| `Offers.BogoOddItemOut` | lib/offers/buy_one_get_one_half_price.rb:19 | after an even number of matching items, one more item of any code leaves the discount unchanged |
| `Offers.BogoBounded` | lib/offers/buy_one_get_one_half_price.rb:19-21 | with a shared non-negative price the discount is non-negative and at most a quarter (hence within half) of the matching items' combined price |
| `Offers.BulkIgnoresPrices` | lib/offers/bulk_discount.rb:22-31 | two lists with the same codes in the same places get the same bulk discount, whatever the prices |
| `Offers.BulkAllOrNothing` | lib/offers/bulk_discount.rb:26-29 | one item short of the minimum gives 0; reaching the minimum discounts every matching item (minimum × per-item), not only the excess |
| `Offers.BulkMonotone` | lib/offers/bulk_discount.rb:26-29 | with a non-negative per-item discount, the bulk discount is non-negative and adding items never lowers it |
| `Baskets.Discounts` | lib/basket.rb:39-41 | with no offers the discount is 0 |
| `Baskets.DiscountsAppend` | lib/basket.rb:40 | offers compose additively: the discount of two offer lists together is the sum of their discounts, each computed on the full item list |
| `Baskets.DiscountsCommute` | lib/basket.rb:40 | the order in which offers are listed does not change the total discount |
| `Baskets.UnmatchedOffersDiscountNothing` | lib/basket.rb:39-41 | offers whose product is not in the basket add up to no discount, however many are listed |
| `Baskets.UnmatchedOffersTotal` | lib/basket.rb:18-29 | a non-empty basket none of whose offers matches an item totals its subtotal plus the rule's charge on that subtotal |
| `Baskets.DiscountedSubtotal` | lib/basket.rb:21-23 | the subtotal handed to the delivery rule: the plain subtotal without offers, and the subtotal minus that offer's discount with one offer |
| `Baskets.AddingOfferLowersDiscountedSubtotal` | lib/basket.rb:21-23 | one more offer lowers the subtotal handed to the delivery rule by exactly that offer's discount |
| `Baskets.Total` | lib/basket.rb:18-29 | an empty basket totals 0, with no delivery charge; any other basket totals its discounted subtotal plus the rule's charge on that discounted subtotal, which without offers is the plain subtotal |
| `Baskets.Basket.constructor` | lib/basket.rb:6-11 | a new basket holds the given table, rule and offers (none by default) and no items |
| `Baskets.Basket.Add` | lib/basket.rb:13-16 | a known code appends exactly the table's product at the end; an unknown code changes nothing; earlier items stay a prefix |
| `Baskets.Basket.TotalCents` | lib/basket.rb:18-31 | the basket's total is the pipeline over its current items (0 when empty); it reads and never changes them |
| `WorkedExamples.TieredBoundaries` | bin/run.rb:18-22 | with the script's tiers 0→495, 4999→495, 5000→295, 8999→295, 9000→0, and an uncovered −1→0 |
| `WorkedExamples.ThresholdExamples` | bin/run_extended_examples.rb:27-30 | threshold 7500, cost 695: 3290→695, 7499→695, 7500→0, 9085→0 |
| `WorkedExamples.RedPairDiscount` | bin/run.rb:50 | two Reds at 3295 earn 1647; so do three Reds beside two Blues |
| `WorkedExamples.GreenBulkDiscounts` | bin/run_extended_examples.rb:59-63 | minimum 3 at 200 each: two Greens 0, three 600, four 800 |
| `WorkedExamples.RunTotalBlueGreen` | bin/run.rb:49 | Blue, Green totals 3785 |
| `WorkedExamples.RunTotalRedRed` | bin/run.rb:50 | Red, Red totals 5438 |
| `WorkedExamples.RunTotalRedGreen` | bin/run.rb:51 | Red, Green totals 6085 |
| `WorkedExamples.RunTotalBlueBlueRedRedRed` | bin/run.rb:52 | Blue, Blue, Red, Red, Red totals 9828 |
| `WorkedExamples.RunTotals` | bin/run.rb:49-52 | the four expected totals 3785, 5438, 6085, 9828 |
| `WorkedExamples.ExtendedTotals` | bin/run_extended_examples.rb:32-103 | the five expected totals 3985, 9085, 5685, 7580, 9180 |
| `WorkedExamples.DeliveryOnDiscountedSubtotal` | lib/basket.rb:23-26 | delivery is charged on the discounted subtotal: two Reds sum to 6590 (tier cost 295) but the rule sees 4943 and charges 495, so the total is 5438, not the 5238 a charge on the raw subtotal would give |
| `WorkedExamples.Stocked` | lib/basket.rb:13-16 | the items a basket holds after codes are added one by one (bin/run.rb:34): at most one per code, each a product of the table, and one per code whenever every code is in the table |
| `WorkedExamples.StockedBlueGreenUnknown` | bin/run.rb:34 | adding B01, G01 stocks Blue, Green, and so does adding an unknown code after them |
| `WorkedExamples.StockedPairs` | bin/run.rb:34 | adding R01, R01 and R01, G01 stocks those products |
| `WorkedExamples.StockedFive` | bin/run.rb:34 | adding B01, B01, R01, R01, R01 stocks those products |
| `WorkedExamples.RunExample` | bin/run.rb:30-43 | a fresh `Basket` fed the codes one by one through `Add` totals the pipeline over the known codes' products |
| `WorkedExamples.RunBaskets` | bin/run.rb:49-52 | the four script baskets (B01, G01; R01, R01; R01, G01; B01, B01, R01, R01, R01), built through `Basket`, total 3785, 5438, 6085 and 9828 |
| `AsWritten.Price` | lib/product.rb:16-18 | the price in dollars is the price in cents divided by 100 |
| `AsWritten.SubtotalAsWritten` | lib/basket.rb:36 | the subtotal as written sums dollar prices; it is non-negative when every price is |
| `AsWritten.SubtotalAsWrittenInDollars` | lib/basket.rb:36 | the subtotal as written is the cents subtotal divided by 100 |
| `AsWritten.HalfPriceAsWritten` | lib/offers/buy_one_get_one_half_price.rb:15-21 | as written, no matching item gives 0, and otherwise 200 times the result is the first matching item's price in cents times the number of full pairs |
| `AsWritten.ApplyAsWritten` | lib/offers/buy_one_get_one_half_price.rb:14-24 | as written, no matching item gives 0; the bulk offer equals its cents model; the half-price offer gives the first matching item's price in cents × (count / 2) / 200, a dollar amount |
| `AsWritten.DiscountsAsWritten` | lib/basket.rb:39-41 | as written, no offers give 0, and bulk offers alone sum to exactly the cents discount |
| `AsWritten.CoversReal` | lib/delivery_rules/tiered.rb:20 | `Range#cover?` on a float subtotal: the integer lower bound is inclusive; an endless range covers everything from it; otherwise the subtotal lies below the upper bound, or on it when the end is not excluded |
| `AsWritten.TieredCostAsWritten` | lib/delivery_rules/tiered.rb:19-22 | on a float subtotal the tiered cost is still 0 or the cost of a configured tier |
| `AsWritten.CostForAsWritten` | lib/delivery_rules/tiered.rb:19-22 | on a float subtotal a tiered cost is 0 or a configured cost, a threshold cost 0 or the standard cost |
| `AsWritten.TieredCostOnCents` | lib/delivery_rules/tiered.rb:20-21 | on a whole-cent subtotal the float range search charges exactly what the integer one does |
| `AsWritten.CostForAsWrittenOnCents` | lib/delivery_rules/tiered.rb:19-22 | both delivery rules charge the same on a whole-cent subtotal whether it arrives as a float or an integer, so the findings lie in the subtotal and discount, not in the rules |
| `AsWritten.TotalCentsAsWritten` | lib/basket.rb:18-29 | as written, an empty basket gives 0.0, and without offers the result is the dollar subtotal plus the rule's charge on that dollar subtotal |
| `AsWritten.SubtotalInDollarsMisprices` | lib/basket.rb:36 | as written, Blue, Green gives the delivery rule 32.9 and ends at 527.9 instead of 3785 |
| `AsWritten.HalfPriceInDollarsMisprices` | lib/offers/buy_one_get_one_half_price.rb:20 | as written, two Reds earn 16.475 instead of 1647 |

## Findings

| source | as written | input that shows it | evidently intended | confidence | as-written member | corrected member |
|---|---|---|---|---|---|---|
| lib/basket.rb:36 | the subtotal sums `Product#price`, the price in dollars, while offers, delivery tiers and thresholds are in cents | Blue, Green with the bin/run.rb rules: the tiered rule sees 32.9, and the total is 527.9 "cents", displayed 5.28 | sum `price_cents`: subtotal 3290, total 3785 (37.85, as bin/run.rb expects) | high; not executed | `AsWritten.SubtotalInDollarsMisprices` | `WorkedExamples.RunTotals` |
| lib/offers/buy_one_get_one_half_price.rb:20 | the per-pair discount halves `Product#price` (dollars) although the variable and the basket treat it as cents | two Reds: the discount is 16.475 instead of 1647 | halve `price_cents` with integer division: 1647, total 5438 (54.38, as bin/run.rb expects) | high; not executed | `AsWritten.HalfPriceInDollarsMisprices` | `WorkedExamples.RedPairDiscount` |

## Left out

- Display conversion: `Product#price` and the final `(total_cents / 100.0).round(2)` of `total` are floating point for display only; the model returns the integer total in cents. The as-written pipeline treats floats as exact reals.
- Clamping: the discounted subtotal is not clamped at 0, as in the source; a negative one is passed to the delivery rule unchanged.
- Ruby's hashing internals and the text of the `ArgumentError` that `find` raises: only the fact that lookup fails is modelled, as `None`.
- Beginless ranges and ranges over non-integer bounds as tiers: a tier's lower bound is always an inclusive integer, its upper bound an integer or unbounded.
- That `cost_for`, `apply` and `total` change no state needs no lemma: they are functions, and `TotalCents` only reads the basket.
- A `Product` compares unequal to values that are not products in Ruby; in Dafny comparing a product with anything else does not type-check.
- The console output of the example scripts; their expected totals are restated as lemmas. The positional `Product.new(name, code, price)` calls in bin/run_extended_examples.rb do not match the keyword constructor of lib/product.rb; the extended examples are restated with the keyword form.
- `Offers.BogoBounded`: the bound is proved for matching items that share one price, which holds for baskets built from tables whose keys are their products' codes, as `Catalogue` builds them (`Insert`) and bin/run.rb:11-15 writes them; a hand-written table may map a code to a product of another code and break it.
