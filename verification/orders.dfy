/**
  Order placement, `OrderView.perform_create` of LittleLemonAPI/views.py:
  read the caller's cart, total the snapshotted line prices, create one
  order, copy every cart line into an order item of that order and delete
  the cart lines read. The view runs inside one database transaction; here it
  is one indivisible state transition.
 */
module Orders {
  import opened Entities
  import opened Seqs
  import opened Cart

  /** The fields of an order that reach the saved row from the request. The
      total is read-only; a posted owner is overridden by the caller when the
      order is saved, so neither is part of the input. */
  datatype OrderInput = OrderInput(deliveryCrew: Option<UserId>, status: bool, date: string)

  /** Python's `sum(item.price for item in cart_items)`: starts from zero. */
  function SumPrices(lines: seq<CartLine>): Cents
    decreases |lines|
  {
    if |lines| == 0 then 0 else lines[0].price + SumPrices(lines[1..])
  }

  function SumItemPrices(items: seq<OrderItem>): Cents
    decreases |items|
  {
    if |items| == 0 then 0 else items[0].price + SumItemPrices(items[1..])
  }

  /** The order item that snapshots cart line `l` into order `order`. */
  function ItemFor(l: CartLine, order: Id): OrderItem
  {
    OrderItem(order, l.menuitem, l.quantity, l.unitPrice, l.price)
  }

  /** One order item per cart line, in the order the lines were read. */
  function CopyLines(lines: seq<CartLine>, order: Id): (r: seq<OrderItem>)
    ensures |r| == |lines|
    ensures forall i :: 0 <= i < |lines| ==>
      && r[i].order == order
      && r[i].menuitem == lines[i].menuitem
      && r[i].quantity == lines[i].quantity
      && r[i].unitPrice == lines[i].unitPrice
      && r[i].price == lines[i].price
    decreases |lines|
  {
    if |lines| == 0 then [] else [ItemFor(lines[0], order)] + CopyLines(lines[1..], order)
  }

  function OfOrder(order: Id): OrderItem -> bool
  {
    (it: OrderItem) => it.order == order
  }

  /** The items of one order (the reverse relation `orderitem_set`). */
  function ItemsOf(items: seq<OrderItem>, order: Id): (r: seq<OrderItem>)
    ensures forall it :: it in r <==> it in items && it.order == order
  {
    Filter(OfOrder(order), items)
  }

  /** Place an order for user `u`. The new order gets the next key, belongs
      to `u`, and its total is the sum of the snapshotted line prices of the
      caller's cart (zero for an empty cart, which is not rejected). The
      order table and the item table only grow at their ends; the cart keeps
      exactly the other users' lines; nothing else changes. */
  function PlaceOrder(s: Store, u: UserId, input: OrderInput): (r: (Store, Order))
    ensures
      var (s', o) := r;
      var read := CartOf(s.cart, u);
      && o.id == s.nextOrderId
      && o.user == u
      && o.total == SumPrices(read)
      && o.deliveryCrew == input.deliveryCrew
      && o.status == input.status
      && o.date == input.date
      && s'.orders == s.orders + [o]
      && s'.items == s.items + CopyLines(read, o.id)
      && (forall l :: l in s'.cart <==> l in s.cart && l.user != u)
      && s' == s.(cart := s'.cart, orders := s'.orders, items := s'.items, nextOrderId := s.nextOrderId + 1)
  {
    var read := CartOf(s.cart, u);
    var o := Order(s.nextOrderId, u, input.deliveryCrew, input.status, SumPrices(read), input.date);
    var s' := s.(
      orders := s.orders + [o],
      items := s.items + CopyLines(read, o.id),
      cart := Filter(NotOwnedBy(u), s.cart),
      nextOrderId := s.nextOrderId + 1);
    (s', o)
  }

  /** Copying preserves the sum of line prices. */
  lemma {:induction false} CopyLinesSum(lines: seq<CartLine>, order: Id)
    ensures SumItemPrices(CopyLines(lines, order)) == SumPrices(lines)
    decreases |lines|
  {
    if |lines| > 0 {
      CopyLinesSum(lines[1..], order);
      assert CopyLines(lines, order)[1..] == CopyLines(lines[1..], order);
    }
  }

  /** In a valid store no item refers to the next order key yet. */
  lemma NoItemsOfFreshOrder(s: Store)
    requires Valid(s)
    ensures ItemsOf(s.items, s.nextOrderId) == []
  {
    FilterNone(OfOrder(s.nextOrderId), s.items);
  }

  /** In a valid store the new order's items are exactly the copies of the
      caller's cart lines, one per line in cart order, and the order total
      equals the sum of its items' prices. */
  lemma PlaceOrderItems(s: Store, u: UserId, input: OrderInput)
    requires Valid(s)
    ensures
      var (s', o) := PlaceOrder(s, u, input);
      && ItemsOf(s'.items, o.id) == CopyLines(CartOf(s.cart, u), o.id)
      && o.total == SumItemPrices(ItemsOf(s'.items, o.id))
  {
    var r := PlaceOrder(s, u, input);
    var id := s.nextOrderId;
    var copies := CopyLines(CartOf(s.cart, u), id);
    assert r.0.items == s.items + copies;
    FilterAppend(OfOrder(id), s.items, copies);
    NoItemsOfFreshOrder(s);
    FilterAll(OfOrder(id), copies);
    CopyLinesSum(CartOf(s.cart, u), id);
  }

  /** After placement the caller's cart is empty and every other user's cart
      is exactly what it was. */
  lemma PlaceOrderDrainsCart(s: Store, u: UserId, input: OrderInput, v: UserId)
    ensures CartOf(PlaceOrder(s, u, input).0.cart, u) == []
    ensures v != u ==> CartOf(PlaceOrder(s, u, input).0.cart, v) == CartOf(s.cart, v)
  {
    FilterNone(OwnedBy(u), PlaceOrder(s, u, input).0.cart);
    if v != u {
      FilterNarrow(OwnedBy(v), NotOwnedBy(u), s.cart);
    }
  }

  /** Placement loses no cart line: the lines it deletes and the lines it
      keeps together make up the cart it started from. */
  lemma PlaceOrderConservesLines(s: Store, u: UserId, input: OrderInput)
    ensures multiset(CartOf(s.cart, u)) + multiset(PlaceOrder(s, u, input).0.cart) == multiset(s.cart)
  {
    FilterPartition(OwnedBy(u), NotOwnedBy(u), s.cart);
  }

  /** An empty cart is not rejected: placement still creates one order, with
      total zero and no items. */
  lemma PlaceOrderEmptyCart(s: Store, u: UserId, input: OrderInput)
    requires forall l :: l in s.cart ==> l.user != u
    ensures
      var (s', o) := PlaceOrder(s, u, input);
      && o.total == 0
      && s'.orders == s.orders + [o]
      && s'.items == s.items
      && s'.cart == s.cart
  {
    var (s', o) := PlaceOrder(s, u, input);
    FilterNone(OwnedBy(u), s.cart);
    FilterAll(NotOwnedBy(u), s.cart);
  }

  /** The total is frozen from the cart's snapshots: repricing the menu
      before placement changes neither the order nor its items. */
  lemma PlaceOrderIgnoresMenu(s: Store, u: UserId, input: OrderInput, menu: seq<MenuItem>)
    ensures PlaceOrder(s.(menu := menu), u, input).1 == PlaceOrder(s, u, input).1
    ensures PlaceOrder(s.(menu := menu), u, input).0.items == PlaceOrder(s, u, input).0.items
  {
  }

  /** Placement keeps the store valid. */
  lemma PlaceOrderValid(s: Store, u: UserId, input: OrderInput)
    requires Valid(s)
    ensures Valid(PlaceOrder(s, u, input).0)
  {
    var (s', o) := PlaceOrder(s, u, input);
    FilterKeysDistinct(NotOwnedBy(u), LineId, s.cart);
    assert KeysDistinct(OrderId, s'.orders) by {
      forall i, j | 0 <= i < j < |s'.orders|
        ensures OrderId(s'.orders[i]) != OrderId(s'.orders[j])
      {
        assert s'.orders[i] == s.orders[i];
        if j == |s.orders| {
          assert s.orders[i].id < s.nextOrderId == o.id;
        } else {
          assert s'.orders[j] == s.orders[j];
        }
      }
    }
    assert forall i :: 0 <= i < |s'.items| ==> s'.items[i].order < s'.nextOrderId by {
      forall i | 0 <= i < |s'.items|
        ensures s'.items[i].order < s'.nextOrderId
      {
        if i < |s.items| {
          assert s'.items[i] == s.items[i];
        }
      }
    }
  }
}
