# Shop recommender and cart/checkout core, in Dafny

This project models the core of a small Laravel e-commerce backend:

- the co-occurrence recommender `RecommendationService`, with
  `buildFromOrders`, `loadMatrix` and `recommendForCart`;
- the cart endpoints `CartController::add`, `remove` and `recommendation`;
- the checkout endpoint `OrderController::store`.

PHP arrays with integer keys are modelled as ordered maps (`OrderedMaps`), a
key sequence in insertion order beside a `map`. That order matters: `arsort`
is stable, so ties between candidates keep the order in which the candidates
first entered the score table.

Modules:

- `OrderedMaps`: ordered maps, `Distinct`, and the permutation facts.
- `CoOccurrence`: the matrix, its increment, and the intended counts
  (`PairCount`), with the loop bookkeeping that the build is proved against.
- `Ranking`: the stable descending sort that stands for `arsort`, and
  `array_slice`.
- `Recommendations`:
  - the score table that the two scoring loops build (`AddRow`, `ScoresUpTo`,
    `ScoreTable`) and its intended meaning (`Score`, `Candidate`);
  - the ranked ids (`RecommendedIds`);
  - the class `RecommendationService`, whose `store` field is the JSON matrix
    file.
- `Shop`:
  - cart items, orders and order items;
  - the pure cart updates that the endpoints perform (`AddToItems`,
    `RemoveFromItems`, `OrderItemsFor`);
  - the class `Database` holding the `carts`, `orders` and `order_items`
    tables.
- `CartController` and `OrderController`: the endpoints as methods on a
  `Database`. Each has an `Outcome` of either a value or a refusal
  (404 not found, 400 cart empty, 422 validation failed).
- `Scenarios`: the recommender on concrete order histories and carts.

## Model

| member | source | states |
|---|---|---|
| CoOccurrence.Increment | app/Services/RecommendationService.php:27 | `$matrix[$p1][$p2] = ($matrix[$p1][$p2] ?? 0) + 1` raises exactly the count of (a, b) by one. Every other count and entry stays as it was, and the matrix stays well formed. |
| CoOccurrence.PairCountNoSelf | app/Services/RecommendationService.php:26 | Because equal ids are skipped, no product is ever related to itself. |
| CoOccurrence.PairCountSymmetric | app/Services/RecommendationService.php:24-28 | The two nested loops over the same id list visit each pair in both orders, so count(a, b) = count(b, a). |
| CoOccurrence.PairCountConcat | app/Services/RecommendationService.php:21-30 | The counts over two batches of orders are the sum of each batch's counts. Nothing is reset or deduplicated between orders. |
| CoOccurrence.SingleOrderPairCount | app/Services/RecommendationService.php:22-28 | One order credits (a, b) with (occurrences of a) × (occurrences of b) when a ≠ b, and 0 when a = b. A product listed twice in one order is counted twice. |
| CoOccurrence.PairCountPositive | app/Services/RecommendationService.php:21-30 | A positive count means two different products that appear together in at least one order. |
| CoOccurrence.DistinctOrderCountsOne | app/Services/RecommendationService.php:24-28 | An order of distinct products relates each pair of its products exactly once. |
| CoOccurrence.BuiltMatrixFacts | app/Services/RecommendationService.php:17-35 | A built matrix is symmetric, has no diagonal entry, and holds an entry only for two products ordered together. |
| Ranking.SortDesc | app/Services/RecommendationService.php:67 | `arsort`: the result is sorted by non-increasing score and is a permutation (same multiset) of the input. |
| Ranking.SortDescStable | app/Services/RecommendationService.php:67 | `arsort` is stable: for every score, the entries with that score appear in the same relative order before and after sorting. |
| Ranking.SortDescKeepsTies | app/Services/RecommendationService.php:67 | Two sorted entries with equal score appear in the input in the same order. |
| Ranking.SortDescEntries | app/Services/RecommendationService.php:67 | Sorting neither adds nor loses an entry. |
| Ranking.SortDescDistinctIds | app/Services/RecommendationService.php:67 | Sorting a table whose keys are distinct yields distinct keys. |
| Ranking.SliceLength | app/Services/RecommendationService.php:69 | How many ids `array_slice($ids, 0, $limit)` keeps. It never keeps more than there are. A non-negative limit keeps `limit` ids, or all of them when fewer. A negative limit drops exactly `-limit` ids from the end, or keeps none when there are no more than that. |
| Recommendations.AddRowMeaning | app/Services/RecommendationService.php:60-64 | The inner loop adds each related id's count, skips ids that are in the cart, and adds exactly the related ids that are not in the cart as keys. |
| Recommendations.ScoresUpToMeaning | app/Services/RecommendationService.php:57-65 | After the first n cart entries, the table holds exactly the non-cart ids related to one of them. Each such id has the sum, over those entries, of their counts. Cart ids without a row (`isset`) are skipped. |
| Recommendations.ScoreTableMeaning | app/Services/RecommendationService.php:55-65 | The finished `$scores` holds exactly the candidates, each with its intended score. |
| Recommendations.ScoreCart | app/Services/RecommendationService.php:55-65 | The two scoring loops, run imperatively, yield that table: exactly the candidates, each with its intended score. |
| Recommendations.RankedMeaning | app/Services/RecommendationService.php:67 | Every sorted entry is a candidate carrying its intended score, and every candidate is among the sorted entries. |
| Recommendations.RankedDistinct | app/Services/RecommendationService.php:67-69 | No id is ranked twice. |
| Recommendations.RecommendedIds | app/Services/RecommendationService.php:52-69 | `$recommendedIds`. With a non-negative limit there are at most `limit` of them. For a non-empty matrix there are as many as `array_slice` keeps of the whole score table. |
| Recommendations.RecommendedIdsSound | app/Services/RecommendationService.php:67-69 | `$recommendedIds` are candidates, never in the cart, and distinct. There are at most `limit` of them, in non-increasing score order. |
| Recommendations.RecommendedIdsTop | app/Services/RecommendationService.php:67-69 | A candidate that is left out scores no more than any recommended id. With a non-negative limit it is left out only because `limit` ids were taken. |
| Recommendations.RecommendedIdsCutTies | app/Services/RecommendationService.php:63-69 | The cut keeps the earliest ties. A candidate that is left out but scores the same as a recommended id entered the score table after that id. |
| Recommendations.RecommendedIdsTies | app/Services/RecommendationService.php:63-69 | Of two recommended ids with equal score, the earlier one entered the score table first. |
| Recommendations.RecommendedIdsEmptyMatrix | app/Services/RecommendationService.php:52 | With an empty matrix nothing is recommended. |
| Recommendations.RecommendationService.constructor | app/Services/RecommendationService.php:11-14 | The service reads whatever the matrix file holds. |
| Recommendations.RecommendationService.BuildFromOrders | app/Services/RecommendationService.php:17-35 | The three nested loops produce a matrix whose every count equals the intended pair count over all orders. An entry exists exactly when its count is at least 1, and no row is empty. The matrix is written to the store, and loading it back returns exactly it. |
| Recommendations.RecommendationService.LoadMatrix | app/Services/RecommendationService.php:38-45 | With no file the matrix is empty; otherwise it is the stored matrix. |
| Recommendations.RecommendationService.RecommendForCart | app/Services/RecommendationService.php:48-69 | Returns the ranked ids for the loaded matrix: none from the cart, distinct, at most `limit` (default 5), in non-increasing score order. |
| Shop.FirstItem | app/Http/Controllers/CartController.php:33-36 | `firstOrCreate`'s lookup: either the index of a row with the product, or none when no row has it. |
| Shop.AddToItems | app/Http/Controllers/CartController.php:33-38 | `add`'s new rows. The cart gains at most one row, every row of another product stays in its place, and afterwards the cart has a row for the product. |
| Shop.AddToItemsMeaning | app/Http/Controllers/CartController.php:33-38 | After `add`, the product's total quantity rises by exactly the requested amount, and every other product's rows are unchanged. The cart grows by one row exactly when the product was not in it. |
| Shop.AddToItemsNew | app/Http/Controllers/CartController.php:33-38 | Adding a product that is not in the cart appends one row, created at 0 and raised by the requested quantity. |
| Shop.AddKeepsOneRow | app/Http/Controllers/CartController.php:33-38 | `add` keeps "at most one row per product". |
| Shop.RemoveFromItems | app/Http/Controllers/CartController.php:48 | `remove`'s new rows. There are no more of them than before, none is for the product, and each was already in the cart. |
| Shop.RemoveFromItemsMeaning | app/Http/Controllers/CartController.php:48 | After `remove`, no row for the product is left, other products' rows are unchanged and in order, and the rows left are exactly the old rows for other products. |
| Shop.RemoveAbsent | app/Http/Controllers/CartController.php:48 | Removing a product that is not in the cart changes nothing. |
| Shop.RemoveProductIds | app/Http/Controllers/CartController.php:48 | The products of the cart after `remove` are the old ones less the removed product. |
| Shop.RemoveKeepsOneRow | app/Http/Controllers/CartController.php:48 | `remove` keeps "at most one row per product". |
| Shop.AddThenRemove | app/Http/Controllers/CartController.php:33-48 | Removing a product just added leaves the cart as removing it without the add would. |
| Shop.OrderItemsFor | app/Http/Controllers/OrderController.php:26-32 | One order item per cart item, in cart order, with the order's id and the item's product id and quantity. |
| Shop.NewOrderItems | app/Http/Controllers/OrderController.php:24-32 | When the order id is fresh, the order's items in the table are exactly the copied cart items. |
| Shop.Database.constructor | database/migrations/2025_11_21_111208_initial_tables.php:23-50 | The tables start empty, and every order item refers to an existing order. |
| CartController.RequestedQuantity | app/Http/Controllers/CartController.php:31 | The requested quantity defaults to 1. |
| CartController.Add | app/Http/Controllers/CartController.php:27-41 | An unknown token gives 404 and changes nothing. Otherwise the cart becomes the added-to items, the answer is the new items, and orders are untouched. |
| CartController.Remove | app/Http/Controllers/CartController.php:43-51 | An unknown token gives 404 and changes nothing. Otherwise the cart loses every row for the product, the answer is the new items, and orders are untouched. |
| CartController.Recommendation | app/Http/Controllers/CartController.php:22-25 | An unknown token gives 404. Otherwise the answer is the ranked ids for the cart's product ids with limit 5: at most 5, distinct, none of them in the cart. |
| OrderController.TrimStart | app/Http/Controllers/OrderController.php:15-16 | `ltrim`, used by the `required` rule. The result is a suffix of the input and every character removed before it is one of trim's six characters (space, tab, line feed, carriage return, NUL, vertical tab). The result does not start with one of them, and it is empty exactly when every character is one of them. |
| OrderController.TrimEnd | app/Http/Controllers/OrderController.php:15-16 | `rtrim`. The result is a prefix of the input and every character removed after it is one of those characters. The result does not end with one of them, and it is empty exactly when every character is one of them. |
| OrderController.Trim | app/Http/Controllers/OrderController.php:15-16 | `trim`. The result is no longer than the input, neither starts nor ends with a trimmable character, and is empty exactly when the input is all trimmable characters. |
| OrderController.TrimIsMiddle | app/Http/Controllers/OrderController.php:15-16 | `trim` removes only trimmable characters. Its result is the piece of the input that starts where `ltrim`'s result starts, and everything before and after that piece is trimmable. |
| OrderController.RequiredMeansTrimmed | app/Http/Controllers/OrderController.php:15-16 | A field passes `required` exactly when it is present and not empty after `trim`. |
| OrderController.PassesMeaning | app/Http/Controllers/OrderController.php:14-17 | A checkout request passes validation exactly when `cart_token` and `email` are both present and non-empty after `trim`, and the email rule accepts the email. |
| OrderController.InsertOrderItems | app/Http/Controllers/OrderController.php:26-32 | The checkout loop appends one order item per cart item, in cart order, for the new order. It leaves orders and carts alone and keeps every order item pointing at an existing order. |
| OrderController.Store | app/Http/Controllers/OrderController.php:13-37 | A failed validation gives 422, an unknown cart 404, an empty cart 400, each with the database unchanged. Otherwise exactly one order with the email is appended and one order item per cart item is appended, in cart order. The new order's items are exactly those, the cart is emptied, other carts are unchanged, and every order item still refers to an existing order. |
| Scenarios.SampleCounts | app/Services/RecommendationService.php:21-30 | For the orders [1,2], [1,3], [2,3], every pair of different products among 1..3 has count 1 and every other pair 0. |
| Scenarios.SampleMatrix | app/Services/RecommendationService.php:17-35 | The matrix built from those orders relates each of 1, 2, 3 to the other two with count 1, and nothing else. |
| Scenarios.CartOfOneAndTwo | app/Services/RecommendationService.php:48-69 | For that matrix and cart [1, 2], the recommendation is exactly [3]. |
| Scenarios.CartOfOneAndTwoScore | app/Services/RecommendationService.php:57-65 | For that cart, product 3 scores 2, one from each cart product. |
| Scenarios.CartOfOne | app/Services/RecommendationService.php:48-69 | For cart [1], the recommendation is 2 and 3 in one order or the other. Both score 1, so their order is the matrix row's key order. |
| Scenarios.SingleEntryMatrix | tests/Feature/ApiRoutesTest.php:101-116 | For a matrix with the one entry p → {r: 3} and cart [p], the recommendation is exactly [r]. |

## Left out

- JSON encoding and decoding, and file existence: the file is the field `store: Option<Matrix>`, and a write followed by a read returns the same matrix. A corrupt or non-array file (where `json_decode` gives `null`) is not modelled.
- The storage path: the service reads and writes `storage_path('co_matrix.json')` (RecommendationService.php:13). The feature test writes `storage_path('app/co_matrix.json')`, so under the real code that test reads no matrix. The model has one store and does not model paths.
- PHP key and comparison coercion: product ids are `int`. Numeric-string keys, `in_array`'s loose comparison and `===` on mixed types are not modelled.
- `Product::whereIn('id', $recommendedIds)->get()` (RecommendationService.php:71) is not modelled:
  - the query returns products in database order, not rank order;
  - it drops ids that have no product row.
  The model ends at `$recommendedIds`, the ranked ids; the ranking's order is what the contracts state.
- `array_column($order['products'], 'product_id')`: an order is given as its sequence of product ids.
- Recommendations.RecommendationService.BuildFromOrders: the key order of the built matrix (first-insertion order of `$p1` and `$p2`) is not stated. The counts and entries are. So Scenarios.CartOfOne leaves the order of its two tied ids open.
- Recommendations.RecommendationService.BuildFromOrders: the counts are unbounded integers. PHP's integer overflow to float is not modelled.
- Recommendations.ScoreCart: the score sums (`app/Services/RecommendationService.php:63`) are unbounded integers. PHP's integer overflow to float is not modelled.
- Shop.AddToItems: the new quantity (`$item->quantity += $quantity`, `app/Http/Controllers/CartController.php:37`) is an unbounded integer. The `quantity` column is a 32-bit `integer` (`database/migrations/2025_11_21_111208_initial_tables.php:33`), and what the database does with a sum past 2147483647 is not modelled.
- `arsort` is modelled as a pure stable sort of the score table's entries, not as an in-place sort of a PHP array.
- HTTP routing, the cart-token middleware, response JSON shapes and `load('items.product')` eager loading are not modelled. Each endpoint returns its result value or its status code.
- Cart creation and display (`CartController::create`, `show`), `ProductController`, UUID generation, timestamps and product existence are outside the modelled core.
- The foreign keys from `cart_items.product_id` and `order_items.product_id` to `products`, and all cascading deletes, are not modelled. `order_items.order_id` is modelled: `Shop.Database.Valid` states it. `cart_items.cart_id` holds by construction, because a cart's items are stored under its token in `Shop.Database.carts`.
- The `email` validation rule is a parameter `isEmail`. `required` is modelled as "present and not blank after trimming", without Laravel's other empty-value cases (arrays, uploaded files).
- A `product_id` or `quantity` that is missing, null or not an integer is not modelled: `add` and `remove` take an `int` product id, and the quantity is an integer when present.
- `remove` is one SQL `DELETE` in the source; the model filters the cart's rows in one step.
- Database transactions and concurrent requests are not modelled. `store` runs its inserts without a transaction, and the model executes it as one atomic method.
- Order ids: the new order's id is the number of orders so far plus one, i.e. an auto-increment key on a table from which no order is deleted.
