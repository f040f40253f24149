/**
 * `OrderController::store`: checkout. The request is validated, the cart is
 * looked up, an empty cart is refused, and otherwise one order is created,
 * each cart item is copied into an order item and the cart is emptied.
 */
module OrderController {
  import opened Wrappers
  import opened Shop

  /** The request fields `cart_token` and `email`; `None` when the request lacks one. */
  datatype CheckoutRequest = CheckoutRequest(cartToken: Option<string>, email: Option<string>)

  /** The characters `trim` strips by default: space, tab, line feed, carriage return, NUL and vertical tab. */
  predicate Trimmable(c: char) {
    c == ' ' || c == '\t' || c == '\n' || c == '\r' || c == 0 as char || c == 11 as char
  }

  /** `ltrim`: `s` without its leading trimmable characters, and only those. */
  function TrimStart(s: string): (r: string)
    ensures |r| <= |s| && r == s[|s| - |r|..]
    ensures forall i :: 0 <= i < |s| - |r| ==> Trimmable(s[i])
    ensures r == [] || !Trimmable(r[0])
    ensures r == [] <==> forall i :: 0 <= i < |s| ==> Trimmable(s[i])
  {
    if s != [] && Trimmable(s[0]) then TrimStart(s[1..]) else s
  }

  /** `rtrim`: `s` without its trailing trimmable characters, and only those. */
  function TrimEnd(s: string): (r: string)
    ensures |r| <= |s| && r == s[..|r|]
    ensures forall i :: |r| <= i < |s| ==> Trimmable(s[i])
    ensures r == [] || !Trimmable(r[|r| - 1])
    ensures r == [] <==> forall i :: 0 <= i < |s| ==> Trimmable(s[i])
  {
    if s != [] && Trimmable(s[|s| - 1]) then TrimEnd(s[..|s| - 1]) else s
  }

  /** `trim`: `s` without leading and trailing trimmable characters; empty exactly when all of `s` is trimmable. */
  function Trim(s: string): (r: string)
    ensures |r| <= |s|
    ensures r == [] || (!Trimmable(r[0]) && !Trimmable(r[|r| - 1]))
    ensures r == [] <==> forall i :: 0 <= i < |s| ==> Trimmable(s[i])
  {
    var t := TrimStart(s);
    var r := TrimEnd(t);
    var k := |s| - |t|;
    assert r != [] ==> r[0] == t[0] == s[k] && r[|r| - 1] == t[|r| - 1];
    assert r == [] ==> t == [];
    r
  }

  /**
   * `trim` removes only trimmable characters: what it keeps is the piece of
   * `s` after the leading run of them, and what precedes and follows that
   * piece is all trimmable.
   */
  lemma TrimIsMiddle(s: string, k: nat)
    requires k == |s| - |TrimStart(s)|
    ensures k + |Trim(s)| <= |s| && Trim(s) == s[k..k + |Trim(s)|]
    ensures forall i :: 0 <= i < k ==> Trimmable(s[i])
    ensures forall i :: k + |Trim(s)| <= i < |s| ==> Trimmable(s[i])
  {
    var t := TrimStart(s);
    var u := TrimEnd(t);
    assert t == s[k..] && u == t[..|u|];
    forall i | k + |u| <= i < |s| ensures Trimmable(s[i]) { assert s[i] == t[i - k]; }
  }

  /** The `required` rule: the field is present and not blank. */
  predicate Required(field: Option<string>) {
    field.Some? && exists i :: 0 <= i < |field.value| && !Trimmable(field.value[i])
  }

  /** `validate(['cart_token' => 'required', 'email' => 'required|email'])`, with the email rule given as `isEmail`. */
  predicate Passes(req: CheckoutRequest, isEmail: string -> bool) {
    Required(req.cartToken) && Required(req.email) && isEmail(req.email.value)
  }

  /** A field passes `required` exactly when it is present and not empty once trimmed. */
  lemma RequiredMeansTrimmed(field: Option<string>)
    ensures Required(field) <==> field.Some? && Trim(field.value) != []
  {
  }

  /** A request passes validation exactly when both fields survive `trim` and the email rule accepts the email. */
  lemma PassesMeaning(req: CheckoutRequest, isEmail: string -> bool)
    ensures Passes(req, isEmail) <==> req.cartToken.Some? && Trim(req.cartToken.value) != []
                                      && req.email.Some? && Trim(req.email.value) != [] && isEmail(req.email.value)
  {
    RequiredMeansTrimmed(req.cartToken);
    RequiredMeansTrimmed(req.email);
  }

  /** The checkout loop: one `OrderItem::create` per cart item, in cart order, for order `orderId`. */
  method InsertOrderItems(db: Database, orderId: int, items: seq<CartItem>)
    requires db.Valid() && 1 <= orderId <= |db.orders|
    modifies db
    ensures db.orderItems == old(db.orderItems) + OrderItemsFor(orderId, items)
    ensures db.orders == old(db.orders) && db.carts == old(db.carts)
    ensures db.Valid()
  {
    for i := 0 to |items|
      invariant db.orders == old(db.orders) && db.carts == old(db.carts)
      invariant db.orderItems == old(db.orderItems) + OrderItemsFor(orderId, items[..i])
      invariant db.Valid()
    {
      var item := items[i];
      assert items[..i + 1][..i] == items[..i];
      db.orderItems := db.orderItems + [OrderItem(orderId, item.productId, item.quantity)];
    }
    assert items[..|items|] == items;
  }

  /** `store`: answers with the new order's id, or refuses with 422, 404 or 400 leaving the database as it was. */
  method Store(db: Database, req: CheckoutRequest, isEmail: string -> bool) returns (res: Outcome<int>)
    requires db.Valid()
    modifies db
    ensures db.Valid()
    ensures !Passes(req, isEmail) ==> res == Fail(ValidationFailed) && Code(res.status) == 422 && unchanged(db)
    ensures Passes(req, isEmail) && req.cartToken.value !in old(db.carts) ==> res == Fail(NotFound) && Code(res.status) == 404 && unchanged(db)
    ensures Passes(req, isEmail) && req.cartToken.value in old(db.carts) && old(db.carts)[req.cartToken.value] == [] ==>
              res == Fail(CartEmpty) && Code(res.status) == 400 && unchanged(db)
    ensures Passes(req, isEmail) && req.cartToken.value in old(db.carts) && old(db.carts)[req.cartToken.value] != [] ==>
              var items := old(db.carts)[req.cartToken.value];
              res == Ok(|old(db.orders)| + 1)
              && db.orders == old(db.orders) + [OrderRow(req.email.value)]
              && db.orderItems == old(db.orderItems) + OrderItemsFor(res.value, items)
              && ItemsOfOrder(db.orderItems, res.value) == OrderItemsFor(res.value, items)
              && db.carts == old(db.carts)[req.cartToken.value := []]
  {
    if !Passes(req, isEmail) {
      return Fail(ValidationFailed);
    }
    var token, email := req.cartToken.value, req.email.value;
    if token !in db.carts {
      return Fail(NotFound);
    }
    var items := db.carts[token];
    if items == [] {
      return Fail(CartEmpty);
    }
    var orderId := |db.orders| + 1;
    db.orders := db.orders + [OrderRow(email)];
    InsertOrderItems(db, orderId, items);
    NewOrderItems(old(db.orderItems), orderId, items);
    db.carts := db.carts[token := []];
    res := Ok(orderId);
  }
}
