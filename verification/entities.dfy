/**
  The tables the Little Lemon ordering views read and write, as one immutable
  in-memory store. Money is held in integer minor units (cents): the
  application stores prices as fixed-point decimals with two places, so every
  sum and product it computes is exact and so is its model here.
 */
module Entities {
  import opened Seqs

  type UserId = nat
  type Id = nat
  /** A fixed-point amount with two decimal places, in cents. */
  type Cents = int

  /** The failures the ordering views report. `NotFound` is the 404 of a
      lookup confined to the caller's query set; `UnknownMenuItem` is the
      validation error for a cart line whose menu item does not exist. */
  datatype Error = NotFound | UnknownMenuItem

  datatype Result<T> = Ok(value: T) | Err(error: Error)

  /** The two role groups the URL table routes to: 'Manager' and
      'Delivery Crew'. */
  datatype GroupName = Manager | DeliveryCrew

  datatype Category = Category(id: Id, slug: string, title: string)

  datatype MenuItem = MenuItem(id: Id, title: string, price: Cents, featured: bool, category: Id)

  /** One line of a user's cart. `unitPrice` and `price` are snapshots taken
      when the line was created. */
  datatype CartLine = CartLine(id: Id, user: UserId, menuitem: Id, quantity: int, unitPrice: Cents, price: Cents)

  /** `status` is the delivered flag; `deliveryCrew` the optional assignee. */
  datatype Order = Order(id: Id, user: UserId, deliveryCrew: Option<UserId>, status: bool, total: Cents, date: string)

  /** One line of an order, copied from a cart line at placement. */
  datatype OrderItem = OrderItem(order: Id, menuitem: Id, quantity: int, unitPrice: Cents, price: Cents)

  /** The whole database the views touch. `users` maps a username to its
      user; `groups` holds the members of each group row that exists (a
      group name absent from the map has no row). The two counters play the
      role of the database's auto-increment keys. */
  datatype Store = Store(
    categories: seq<Category>,
    menu: seq<MenuItem>,
    cart: seq<CartLine>,
    orders: seq<Order>,
    items: seq<OrderItem>,
    users: map<string, UserId>,
    groups: map<GroupName, set<UserId>>,
    nextCartId: Id,
    nextOrderId: Id)

  /** The primary key of a category. */
  function CategoryId(c: Category): Id
  {
    c.id
  }

  /** The primary key of a menu item. */
  function MenuItemId(m: MenuItem): Id
  {
    m.id
  }

  /** The primary key of a cart line. */
  function LineId(l: CartLine): Id
  {
    l.id
  }

  /** The primary key of an order. */
  function OrderId(o: Order): Id
  {
    o.id
  }

  /** Categories, menu items, cart lines and orders have distinct primary
      keys, so a lookup by key finds at most one row; every key handed out
      so far lies below its counter, so the next key is fresh; every order
      item refers to a key already handed out; every cart line and order item
      carries a line price equal to its unit price times its quantity. */
  predicate Valid(s: Store)
  {
    && KeysDistinct(CategoryId, s.categories)
    && KeysDistinct(MenuItemId, s.menu)
    && KeysDistinct(LineId, s.cart)
    && KeysDistinct(OrderId, s.orders)
    && (forall i :: 0 <= i < |s.cart| ==> s.cart[i].id < s.nextCartId)
    && (forall i :: 0 <= i < |s.orders| ==> s.orders[i].id < s.nextOrderId)
    && (forall i :: 0 <= i < |s.items| ==> s.items[i].order < s.nextOrderId)
    && (forall i :: 0 <= i < |s.cart| ==> s.cart[i].price == s.cart[i].unitPrice * s.cart[i].quantity)
    && (forall i :: 0 <= i < |s.items| ==> s.items[i].price == s.items[i].unitPrice * s.items[i].quantity)
  }

  /** Whether `u` is a member of group `g` (false when the group row does
      not exist). */
  predicate InGroup(groups: map<GroupName, set<UserId>>, g: GroupName, u: UserId)
  {
    g in groups && u in groups[g]
  }
}
