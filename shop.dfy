/**
 * The shop's tables as the cart and order controllers see them: the items of
 * each cart, the orders and the order items. Each cart's items are kept in
 * row order; an order's id is its position in `orders` plus one, as an
 * auto-increment key would give it.
 */
module Shop {
  import opened Wrappers
  import opened OrderedMaps

  /** A `cart_items` row without its cart id, which is the key it is stored under. */
  datatype CartItem = CartItem(productId: int, quantity: int)

  /** An `orders` row; its id is implied by its position. */
  datatype OrderRow = OrderRow(email: string)

  /** An `order_items` row. */
  datatype OrderItem = OrderItem(orderId: int, productId: int, quantity: int)

  /** Why a request was refused. */
  datatype Status = NotFound | CartEmpty | ValidationFailed

  /** The HTTP status each refusal is answered with. */
  function Code(s: Status): int {
    match s
    case NotFound => 404
    case CartEmpty => 400
    case ValidationFailed => 422
  }

  /** What a controller action answers: its payload, or a refusal. */
  datatype Outcome<T> = Ok(value: T) | Fail(status: Status)

  /** `$cart->items->pluck('product_id')` */
  function ProductIds(items: seq<CartItem>): (r: seq<int>)
    ensures |r| == |items| && forall i :: 0 <= i < |items| ==> r[i] == items[i].productId
  {
    seq(|items|, i requires 0 <= i < |items| => items[i].productId)
  }

  /** The items of `items` for product `pid`, in row order. */
  function ItemsFor(items: seq<CartItem>, pid: int): seq<CartItem> {
    if items == [] then []
    else (if items[0].productId == pid then [items[0]] else []) + ItemsFor(items[1..], pid)
  }

  /** The summed quantity of a list of items. */
  function Total(items: seq<CartItem>): int {
    if items == [] then 0 else items[0].quantity + Total(items[1..])
  }

  /** How many of product `pid` the cart holds, over all its rows for `pid`. */
  function Quantity(items: seq<CartItem>, pid: int): int {
    Total(ItemsFor(items, pid))
  }

  /** The row `where('product_id', $pid)->first()` finds, if any. */
  function FirstItem(items: seq<CartItem>, pid: int): (r: Option<nat>)
    ensures r.None? ==> forall k :: 0 <= k < |items| ==> items[k].productId != pid
    ensures r.Some? ==> r.value < |items| && items[r.value].productId == pid
                        && forall k :: 0 <= k < r.value ==> items[k].productId != pid
  {
    if items == [] then None
    else if items[0].productId == pid then Some(0)
    else
      match FirstItem(items[1..], pid)
      case None => None
      case Some(i) => Some(i + 1)
  }

  /**
   * `firstOrCreate(['product_id' => $pid], ['quantity' => 0])` followed by
   * `quantity += $qty` and `save()`: the first row for `pid` grows by `qty`,
   * or a new row created at 0 and raised to `qty` goes last.
   */
  function AddToItems(items: seq<CartItem>, pid: int, qty: int): (r: seq<CartItem>)
    ensures |items| <= |r| <= |items| + 1
    ensures forall k :: 0 <= k < |items| && items[k].productId != pid ==> r[k] == items[k]
    ensures pid in ProductIds(r)
  {
    match FirstItem(items, pid)
    case None =>
      var r := items + [CartItem(pid, 0 + qty)];
      assert ProductIds(r)[|items|] == pid;
      r
    case Some(i) =>
      var r := items[i := CartItem(pid, items[i].quantity + qty)];
      assert ProductIds(r)[i] == pid;
      r
  }

  /** `where('product_id', $pid)->delete()`: every row for `pid` goes, the others keep their order. */
  function RemoveFromItems(items: seq<CartItem>, pid: int): (r: seq<CartItem>)
    ensures |r| <= |items|
    ensures forall k :: 0 <= k < |r| ==> r[k].productId != pid
    ensures forall x :: x in r ==> x in items
  {
    if items == [] then []
    else (if items[0].productId == pid then [] else [items[0]]) + RemoveFromItems(items[1..], pid)
  }

  /** The order item `OrderItem::create` makes from one cart item. */
  function ToOrderItem(orderId: int, item: CartItem): OrderItem {
    OrderItem(orderId, item.productId, item.quantity)
  }

  /** What the checkout loop has inserted after visiting `items`. */
  function OrderItemsFor(orderId: int, items: seq<CartItem>): (r: seq<OrderItem>)
    ensures |r| == |items|
    ensures forall i :: 0 <= i < |items| ==>
              r[i].orderId == orderId && r[i].productId == items[i].productId && r[i].quantity == items[i].quantity
  {
    if items == [] then []
    else OrderItemsFor(orderId, items[..|items| - 1]) + [ToOrderItem(orderId, items[|items| - 1])]
  }

  /** `$order->load('items')`: the order items of order `orderId`, in insertion order. */
  function ItemsOfOrder(rows: seq<OrderItem>, orderId: int): seq<OrderItem> {
    if rows == [] then []
    else (if rows[0].orderId == orderId then [rows[0]] else []) + ItemsOfOrder(rows[1..], orderId)
  }

  /** The cart holds at most one row per product. */
  predicate OneRowPerProduct(items: seq<CartItem>) {
    Distinct(ProductIds(items))
  }

  lemma {:induction false} ItemsForConcat(a: seq<CartItem>, b: seq<CartItem>, pid: int)
    ensures ItemsFor(a + b, pid) == ItemsFor(a, pid) + ItemsFor(b, pid)
  {
    if a == [] {
      assert a + b == b;
    } else {
      var head := if a[0].productId == pid then [a[0]] else [];
      var ab := a + b;
      assert ab[0] == a[0] && ab[1..] == a[1..] + b;
      ItemsForConcat(a[1..], b, pid);
      calc {
        ItemsFor(ab, pid);
        head + ItemsFor(a[1..] + b, pid);
        head + (ItemsFor(a[1..], pid) + ItemsFor(b, pid));
        (head + ItemsFor(a[1..], pid)) + ItemsFor(b, pid);
        ItemsFor(a, pid) + ItemsFor(b, pid);
      }
    }
  }

  lemma {:induction false} TotalConcat(a: seq<CartItem>, b: seq<CartItem>)
    ensures Total(a + b) == Total(a) + Total(b)
  {
    if a == [] {
      assert a + b == b;
    } else {
      assert (a + b)[1..] == a[1..] + b;
      TotalConcat(a[1..], b);
    }
  }

  lemma {:induction false} ItemsForNone(items: seq<CartItem>, pid: int)
    requires forall k :: 0 <= k < |items| ==> items[k].productId != pid
    ensures ItemsFor(items, pid) == []
  {
    if items != [] {
      ItemsForNone(items[1..], pid);
    }
  }

  lemma {:induction false} RemoveConcat(a: seq<CartItem>, b: seq<CartItem>, pid: int)
    ensures RemoveFromItems(a + b, pid) == RemoveFromItems(a, pid) + RemoveFromItems(b, pid)
  {
    if a == [] {
      assert a + b == b;
    } else {
      var head := if a[0].productId == pid then [] else [a[0]];
      var ab := a + b;
      assert ab[0] == a[0] && ab[1..] == a[1..] + b;
      RemoveConcat(a[1..], b, pid);
      calc {
        RemoveFromItems(ab, pid);
        head + RemoveFromItems(a[1..] + b, pid);
        head + (RemoveFromItems(a[1..], pid) + RemoveFromItems(b, pid));
        (head + RemoveFromItems(a[1..], pid)) + RemoveFromItems(b, pid);
        RemoveFromItems(a, pid) + RemoveFromItems(b, pid);
      }
    }
  }

  /**
   * `remove`: no row for `pid` is left, the rows of every other product are
   * kept in order, and nothing else is in the cart.
   */
  lemma {:induction false} RemoveFromItemsMeaning(items: seq<CartItem>, pid: int)
    ensures ItemsFor(RemoveFromItems(items, pid), pid) == []
    ensures forall q :: q != pid ==> ItemsFor(RemoveFromItems(items, pid), q) == ItemsFor(items, q)
    ensures forall x :: x in RemoveFromItems(items, pid) <==> x in items && x.productId != pid
  {
    if items != [] {
      var head := if items[0].productId == pid then [] else [items[0]];
      var rest := RemoveFromItems(items[1..], pid);
      RemoveFromItemsMeaning(items[1..], pid);
      assert items == [items[0]] + items[1..];
      forall q ensures ItemsFor(head + rest, q) == ItemsFor(head, q) + ItemsFor(rest, q)
        && ItemsFor(head, q) == (if items[0].productId == q && q != pid then [items[0]] else [])
      {
        ItemsForConcat(head, rest, q);
        if head != [] {
          assert ItemsFor(head, q) == (if items[0].productId == q then [items[0]] else []) + ItemsFor([], q);
        }
      }
    }
  }

  /** Removing a product the cart does not hold changes nothing. */
  lemma {:induction false} RemoveAbsent(items: seq<CartItem>, pid: int)
    requires pid !in ProductIds(items)
    ensures RemoveFromItems(items, pid) == items
  {
    if items != [] {
      assert ProductIds(items)[0] == items[0].productId;
      assert ProductIds(items[1..]) == ProductIds(items)[1..];
      RemoveAbsent(items[1..], pid);
      assert items == [items[0]] + items[1..];
    }
  }

  /** The rows of every product after adding to a cart with no row for `pid`. */
  lemma AddCreatesRow(items: seq<CartItem>, pid: int, qty: int)
    requires FirstItem(items, pid).None?
    ensures AddToItems(items, pid, qty) == items + [CartItem(pid, qty)]
    ensures forall q :: ItemsFor(AddToItems(items, pid, qty), q)
                     == ItemsFor(items, q) + (if q == pid then [CartItem(pid, qty)] else [])
  {
    var item := CartItem(pid, qty);
    forall q ensures ItemsFor(items + [item], q) == ItemsFor(items, q) + (if q == pid then [item] else []) {
      ItemsForConcat(items, [item], q);
      assert ItemsFor([item], q) == (if q == pid then [item] else []) + ItemsFor([], q);
    }
  }

  /** The rows of every product after adding to a cart whose first row for `pid` is at `i`. */
  lemma ItemsForSingle(x: CartItem, pid: int)
    ensures ItemsFor([x], pid) == if x.productId == pid then [x] else []
  {
    assert ItemsFor([x], pid) == (if x.productId == pid then [x] else []) + ItemsFor([], pid);
  }

  /** The rows of a product in a cart split around one row. */
  lemma ItemsForAround(pre: seq<CartItem>, x: CartItem, post: seq<CartItem>, pid: int)
    ensures ItemsFor(pre + [x] + post, pid)
         == ItemsFor(pre, pid) + (if x.productId == pid then [x] else []) + ItemsFor(post, pid)
  {
    ItemsForConcat(pre + [x], post, pid);
    ItemsForConcat(pre, [x], pid);
    ItemsForSingle(x, pid);
  }

  lemma AddUpdatesRow(items: seq<CartItem>, pid: int, qty: int, i: nat)
    requires FirstItem(items, pid) == Some(i)
    ensures forall q :: q != pid ==> ItemsFor(AddToItems(items, pid, qty), q) == ItemsFor(items, q)
    ensures ItemsFor(items, pid) == [items[i]] + ItemsFor(items[i + 1..], pid)
    ensures ItemsFor(AddToItems(items, pid, qty), pid)
         == [CartItem(pid, items[i].quantity + qty)] + ItemsFor(items[i + 1..], pid)
  {
    var old_, new_ := items[i], CartItem(pid, items[i].quantity + qty);
    var pre, post := items[..i], items[i + 1..];
    assert items == pre + [old_] + post;
    assert AddToItems(items, pid, qty) == pre + [new_] + post;
    ItemsForNone(pre, pid);
    ReplaceRow(pre, old_, new_, post, pid);
  }

  /**
   * Replacing the first row of product `pid` by another row of `pid`: the rows
   * of `pid` start with the new row, and no other product's rows change.
   */
  lemma ReplaceRow(pre: seq<CartItem>, x: CartItem, y: CartItem, post: seq<CartItem>, pid: int)
    requires x.productId == y.productId == pid && ItemsFor(pre, pid) == []
    ensures ItemsFor(pre + [x] + post, pid) == [x] + ItemsFor(post, pid)
    ensures ItemsFor(pre + [y] + post, pid) == [y] + ItemsFor(post, pid)
    ensures forall q :: q != pid ==> ItemsFor(pre + [y] + post, q) == ItemsFor(pre + [x] + post, q)
  {
    ItemsForAround(pre, x, post, pid);
    ItemsForAround(pre, y, post, pid);
    forall q | q != pid ensures ItemsFor(pre + [y] + post, q) == ItemsFor(pre + [x] + post, q) {
      ItemsForAround(pre, x, post, q);
      ItemsForAround(pre, y, post, q);
    }
  }

  /**
   * `add`: the cart's quantity of `pid` grows by exactly `qty`, the rows of
   * every other product are untouched, and a row is created only when the
   * cart had none for `pid`.
   */
  lemma AddToItemsMeaning(items: seq<CartItem>, pid: int, qty: int)
    ensures Quantity(AddToItems(items, pid, qty), pid) == Quantity(items, pid) + qty
    ensures forall q :: q != pid ==> ItemsFor(AddToItems(items, pid, qty), q) == ItemsFor(items, q)
    ensures |AddToItems(items, pid, qty)| == if pid in ProductIds(items) then |items| else |items| + 1
  {
    match FirstItem(items, pid)
    case None =>
      AddCreatesRow(items, pid, qty);
      ItemsForNone(items, pid);
      TotalConcat(ItemsFor(items, pid), [CartItem(pid, qty)]);
      assert Total([CartItem(pid, qty)]) == qty + Total([]);
    case Some(i) =>
      AddUpdatesRow(items, pid, qty, i);
      var post := ItemsFor(items[i + 1..], pid);
      TotalConcat([CartItem(pid, items[i].quantity + qty)], post);
      TotalConcat([items[i]], post);
      assert ProductIds(items)[i] == pid;
  }

  /** Adding a product the cart does not hold creates exactly one row, holding `qty`. */
  lemma AddToItemsNew(items: seq<CartItem>, pid: int, qty: int)
    requires pid !in ProductIds(items)
    ensures AddToItems(items, pid, qty) == items + [CartItem(pid, qty)]
    ensures ItemsFor(AddToItems(items, pid, qty), pid) == [CartItem(pid, qty)]
  {
    AddCreatesRow(items, pid, qty);
    ItemsForNone(items, pid);
  }

  /** Carts changed only by `add` and `remove` keep one row per product. */
  lemma AddKeepsOneRow(items: seq<CartItem>, pid: int, qty: int)
    requires OneRowPerProduct(items)
    ensures OneRowPerProduct(AddToItems(items, pid, qty))
  {
    var r := AddToItems(items, pid, qty);
    match FirstItem(items, pid)
    case None =>
      assert ProductIds(r) == ProductIds(items) + [pid];
    case Some(i) =>
      assert ProductIds(r) == ProductIds(items);
  }

  /** The product ids left after `remove` are those of the cart other than `pid`. */
  lemma {:induction false} RemoveProductIds(items: seq<CartItem>, pid: int)
    ensures forall q :: q in ProductIds(RemoveFromItems(items, pid)) <==> q in ProductIds(items) && q != pid
  {
    if items != [] {
      var rest := RemoveFromItems(items[1..], pid);
      RemoveProductIds(items[1..], pid);
      assert ProductIds(items) == [items[0].productId] + ProductIds(items[1..]);
      if items[0].productId != pid {
        assert RemoveFromItems(items, pid) == [items[0]] + rest;
        assert ProductIds([items[0]] + rest) == [items[0].productId] + ProductIds(rest);
      } else {
        assert RemoveFromItems(items, pid) == rest;
      }
    }
  }

  lemma {:induction false} RemoveKeepsOneRow(items: seq<CartItem>, pid: int)
    requires OneRowPerProduct(items)
    ensures OneRowPerProduct(RemoveFromItems(items, pid))
  {
    if items != [] {
      var ids := ProductIds(items);
      var rest := RemoveFromItems(items[1..], pid);
      assert ProductIds(items[1..]) == ids[1..];
      RemoveKeepsOneRow(items[1..], pid);
      if items[0].productId != pid {
        RemoveProductIds(items[1..], pid);
        assert ids[0] !in ids[1..];
        assert ProductIds([items[0]] + rest) == [ids[0]] + ProductIds(rest);
        DistinctCons(ids[0], ProductIds(rest));
      }
    }
  }

  /** Adding and then removing a product leaves the cart as removing it alone would. */
  lemma AddThenRemove(items: seq<CartItem>, pid: int, qty: int)
    ensures RemoveFromItems(AddToItems(items, pid, qty), pid) == RemoveFromItems(items, pid)
  {
    match FirstItem(items, pid)
    case None =>
      RemoveConcat(items, [CartItem(pid, qty)], pid);
      assert RemoveFromItems([CartItem(pid, qty)], pid) == [] + RemoveFromItems([], pid);
    case Some(i) =>
      var old_, new_ := items[i], CartItem(pid, items[i].quantity + qty);
      var pre, post := items[..i], items[i + 1..];
      assert items == pre + [old_] + post;
      assert AddToItems(items, pid, qty) == pre + [new_] + post;
      RemoveConcat(pre + [new_], post, pid);
      RemoveConcat(pre, [new_], pid);
      RemoveConcat(pre + [old_], post, pid);
      RemoveConcat(pre, [old_], pid);
      assert RemoveFromItems([new_], pid) == [] + RemoveFromItems([], pid);
      assert RemoveFromItems([old_], pid) == [] + RemoveFromItems([], pid);
  }

  lemma {:induction false} ItemsOfOrderConcat(a: seq<OrderItem>, b: seq<OrderItem>, orderId: int)
    ensures ItemsOfOrder(a + b, orderId) == ItemsOfOrder(a, orderId) + ItemsOfOrder(b, orderId)
  {
    if a == [] {
      assert a + b == b;
    } else {
      var head := if a[0].orderId == orderId then [a[0]] else [];
      var ab := a + b;
      assert ab[0] == a[0] && ab[1..] == a[1..] + b;
      ItemsOfOrderConcat(a[1..], b, orderId);
      calc {
        ItemsOfOrder(ab, orderId);
        head + ItemsOfOrder(a[1..] + b, orderId);
        head + (ItemsOfOrder(a[1..], orderId) + ItemsOfOrder(b, orderId));
        (head + ItemsOfOrder(a[1..], orderId)) + ItemsOfOrder(b, orderId);
        ItemsOfOrder(a, orderId) + ItemsOfOrder(b, orderId);
      }
    }
  }

  lemma {:induction false} ItemsOfOrderNone(rows: seq<OrderItem>, orderId: int)
    requires forall k :: 0 <= k < |rows| ==> rows[k].orderId != orderId
    ensures ItemsOfOrder(rows, orderId) == []
  {
    if rows != [] {
      ItemsOfOrderNone(rows[1..], orderId);
    }
  }

  lemma {:induction false} ItemsOfOrderAll(rows: seq<OrderItem>, orderId: int)
    requires forall k :: 0 <= k < |rows| ==> rows[k].orderId == orderId
    ensures ItemsOfOrder(rows, orderId) == rows
  {
    if rows != [] {
      ItemsOfOrderAll(rows[1..], orderId);
      assert rows == [rows[0]] + rows[1..];
    }
  }

  /**
   * Checkout's copy: loading the new order's items gives back one item per
   * cart item, in cart order, whatever other orders already hold.
   */
  lemma NewOrderItems(rows: seq<OrderItem>, orderId: int, items: seq<CartItem>)
    requires forall k :: 0 <= k < |rows| ==> rows[k].orderId != orderId
    ensures ItemsOfOrder(rows + OrderItemsFor(orderId, items), orderId) == OrderItemsFor(orderId, items)
  {
    ItemsOfOrderConcat(rows, OrderItemsFor(orderId, items), orderId);
    ItemsOfOrderNone(rows, orderId);
    ItemsOfOrderAll(OrderItemsFor(orderId, items), orderId);
  }

  /** The shop's database. */
  class Database {
    /** Cart token => the cart's items; a token is a key exactly when the cart exists. */
    var carts: map<string, seq<CartItem>>
    /** The `orders` table; order `k + 1` is `orders[k]`. */
    var orders: seq<OrderRow>
    /** The `order_items` table in insertion order. */
    var orderItems: seq<OrderItem>

    /** Every order item belongs to an existing order. */
    ghost predicate Valid()
      reads this
    {
      forall k :: 0 <= k < |orderItems| ==> 1 <= orderItems[k].orderId <= |orders|
    }

    /** An empty database. */
    constructor ()
      ensures carts == map[] && orders == [] && orderItems == []
      ensures Valid()
    {
      carts := map[];
      orders := [];
      orderItems := [];
    }
  }
}
