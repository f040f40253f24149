/**
 * `CartController`: adding to and removing from a cart, and the cart's
 * recommendations. A request for an unknown cart token is refused with 404,
 * by the cart-token middleware and by `findOrFail` alike, before anything
 * changes.
 */
module CartController {
  import opened Wrappers
  import opened OrderedMaps
  import opened Shop
  import opened Recommendations

  /** `$request->input('quantity', 1)`: the requested quantity, 1 when the request has none. */
  function RequestedQuantity(quantity: Option<int>): (q: int)
    ensures quantity.None? ==> q == 1
    ensures quantity.Some? ==> q == quantity.value
  {
    quantity.GetOr(1)
  }

  /**
   * `add`: finds the cart's first row for the product or creates one at
   * quantity 0, raises its quantity by the requested amount and saves it;
   * answers with the cart's items.
   */
  method Add(db: Database, cartToken: string, productId: int, quantity: Option<int>)
    returns (res: Outcome<seq<CartItem>>)
    modifies db
    ensures cartToken !in old(db.carts) ==> res == Fail(NotFound) && Code(res.status) == 404 && db.carts == old(db.carts)
    ensures cartToken in old(db.carts) ==>
              db.carts == old(db.carts)[cartToken := AddToItems(old(db.carts)[cartToken], productId, RequestedQuantity(quantity))]
              && res == Ok(db.carts[cartToken])
    ensures db.orders == old(db.orders) && db.orderItems == old(db.orderItems)
  {
    if cartToken !in db.carts {
      return Fail(NotFound);
    }
    var items := db.carts[cartToken];
    var qty := RequestedQuantity(quantity);
    var found := FirstItem(items, productId);
    var index: nat;
    if found.None? {
      items := items + [CartItem(productId, 0)];
      index := |items| - 1;
      assert items[index := CartItem(productId, 0 + qty)] == db.carts[cartToken] + [CartItem(productId, 0 + qty)];
    } else {
      index := found.value;
    }
    var item := items[index];
    item := item.(quantity := item.quantity + qty);
    items := items[index := item];
    assert items == AddToItems(db.carts[cartToken], productId, qty);
    db.carts := db.carts[cartToken := items];
    res := Ok(items);
  }

  /** `remove`: deletes every row of the cart for the product; answers with the cart's items. */
  method Remove(db: Database, cartToken: string, productId: int) returns (res: Outcome<seq<CartItem>>)
    modifies db
    ensures cartToken !in old(db.carts) ==> res == Fail(NotFound) && Code(res.status) == 404 && db.carts == old(db.carts)
    ensures cartToken in old(db.carts) ==>
              db.carts == old(db.carts)[cartToken := RemoveFromItems(old(db.carts)[cartToken], productId)]
              && res == Ok(db.carts[cartToken])
    ensures db.orders == old(db.orders) && db.orderItems == old(db.orderItems)
  {
    if cartToken !in db.carts {
      return Fail(NotFound);
    }
    var items := RemoveFromItems(db.carts[cartToken], productId);
    db.carts := db.carts[cartToken := items];
    res := Ok(items);
  }

  /**
   * `recommendation`: the ids the recommender ranks for the cart's product
   * ids with its default limit of 5.
   */
  method Recommendation(db: Database, service: RecommendationService, cartToken: string)
    returns (res: Outcome<seq<int>>)
    requires service.StoreWellFormed()
    ensures cartToken !in db.carts ==> res == Fail(NotFound) && Code(res.status) == 404
    ensures cartToken in db.carts ==>
              res == Ok(RecommendedIds(ProductIds(db.carts[cartToken]), service.LoadMatrix(), 5))
              && |res.value| <= 5 && Distinct(res.value)
              && forall id :: id in res.value ==> id !in ProductIds(db.carts[cartToken])
  {
    if cartToken !in db.carts {
      return Fail(NotFound);
    }
    var ids := service.RecommendForCart(ProductIds(db.carts[cartToken]));
    res := Ok(ids);
  }
}
