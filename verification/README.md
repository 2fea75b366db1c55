# Little Lemon ordering workflow in Dafny

A model of the ordering logic of the Little Lemon restaurant API (a Django
REST Framework backend), over an immutable in-memory store of categories,
menu items, cart lines, orders, order items, users and role groups. Money is
integer cents: the application keeps prices as two-place decimals, so every
sum and product is exact.

The model has five parts, one module each, over two shared modules:

- `Seqs` (`seqs.dfy`): order-preserving selection (`Filter`), the shape of
  every ORM `filter(...)` query set, with the lemmas that relate query sets
  before and after a change.
- `Entities` (`entities.dfy`): the tables, the `Result`/`Error` type for the
  views' error responses, the two role groups `Manager` and `Delivery Crew`
  as an enumeration, and the store invariant `Valid` (categories, menu
  items, cart lines and orders have distinct primary keys, every key is below its auto-increment counter,
  order items refer to handed-out order keys, every line price is unit price
  times quantity).
- `Cart` (`cart.dfy`): listing the caller's cart, add-to-cart with a price
  snapshot, and deleting one of the caller's lines by key.
- `Orders` (`orders.dfy`): order placement as one state transition. The total
  is the sum of the snapshotted line prices, there is one order item per cart
  line, the caller's cart is drained, and nothing else changes.
- `Access` (`access.dfy`): which orders a Manager, a Delivery Crew member or
  a customer may list, and the detail lookup confined to that set. Deletion
  removes only the looked-up order, so an order the caller may not see is
  never deleted.
- `Groups` (`groups.dfy`): adding a user to and removing a user from a role
  group.
- `Menu` (`menu.dfy`): the menu listing, filtered by category slug and sorted
  by price (insertion sort, proved to be a sorted permutation).

Request context is explicit: the cart, order-placement and order-visibility
operations take the calling user's id, and role membership is read from the
store's `groups` map. Group management takes the posted username instead,
and the menu listing takes no caller. The writable
fields of a request body are input datatypes (`CartInput`, `OrderInput`)
that lack the read-only fields: a cart line's user, unit price and price,
and an order's total.

The model follows the code as written, including where it is more
permissive than an ordering service usually is:
- Placing an order with an empty cart is not rejected. It creates an order
  with total zero and no items (`Orders.PlaceOrderEmptyCart`).
- Nothing restricts a Delivery Crew member's update to the status field.
- Nothing restricts order deletion to managers. Any caller may delete an
  order they can see (`Access.DestroyOrder`).
- Removing a non-member from a group is not an error
  (`Groups.RemoveNonMember`).
- An empty `category` query parameter means no filter, because Python treats
  the empty string as false.

## Model

| member | source | states |
|---|---|---|
| `Cart.CartOf` | LittleLemonAPI/views.py:45-46 | the cart query set holds exactly the store's lines whose owner is the caller |
| `Cart.AddToCart` | LittleLemonAPI/views.py:48-53 | fails with an unknown-menu-item error exactly when no menu item has the key. Otherwise the new line is owned by the caller, has the next key, has the requested menu item and quantity, has `unitPrice` equal to that item's current price and `price == unitPrice * quantity`, and is appended to the cart; only the cart and its counter change |
| `Cart.AddToCartValid` | LittleLemonAPI/views.py:48-53 | adding a line preserves the store invariant (distinct cart keys, keys below their counter, line price = unit price × quantity) |
| `Cart.AddToCartPriceOfItem` | LittleLemonAPI/views.py:48-53 | in a valid store (distinct menu keys), adding a line for an existing menu item succeeds and snapshots the price of the one item with that key |
| `Cart.AddToCartListing` | LittleLemonAPI/views.py:45-53 | after adding, the caller's listing is the old listing plus the new line; every other user's listing is unchanged |
| `Cart.DeleteCartLine` | LittleLemonAPI/views.py:55-60 | not-found exactly when the caller owns no line with that key (so another user's key is not found); on success only the caller's line with that key leaves the cart and nothing else changes |
| `Cart.DeleteCartLineShrinks` | LittleLemonAPI/views.py:59-60 | a successful delete removes at least one row |
| `Cart.DeleteCartLineRemovesOne` | LittleLemonAPI/views.py:55-60 | in a store with distinct cart keys, a successful delete removes exactly one row |
| `Cart.DeleteCartLineKeepsOthers` | LittleLemonAPI/views.py:59-60 | a delete never changes another user's cart listing |
| `Cart.DeleteCartLineValid` | LittleLemonAPI/views.py:59-60 | deleting a line preserves the store invariant |
| `Orders.CopyLines` | LittleLemonAPI/views.py:81-88 | one order item per cart line, in order, linked to the given order and with the line's menu item, quantity, unit price and price |
| `Orders.ItemsOf` | LittleLemonAPI/serializers.py:39 | the items of an order are exactly the store's items that refer to it |
| `Orders.PlaceOrder` | LittleLemonAPI/views.py:74-90 | the new order has the next key, belongs to the caller, and has total equal to the sum of the `price` of the caller's cart lines; earlier orders and items are kept as a prefix, one copied item per cart line is appended, the cart keeps exactly the other users' lines, and nothing else changes |
| `Orders.CopyLinesSum` | LittleLemonAPI/views.py:77-88 | the copied items' prices sum to the cart lines' prices |
| `Orders.NoItemsOfFreshOrder` | LittleLemonAPI/views.py:79 | in a valid store no item refers to the key the next order will get |
| `Orders.PlaceOrderItems` | LittleLemonAPI/views.py:79-88 | in a valid store, the new order's items are exactly the copies of the caller's cart lines, and the order total equals the sum of its items' prices |
| `Orders.PlaceOrderDrainsCart` | LittleLemonAPI/views.py:76-90 | after placement the caller's cart is empty and every other user's cart is unchanged |
| `Orders.PlaceOrderConservesLines` | LittleLemonAPI/views.py:76-90 | the deleted lines and the kept lines together are, as a multiset, the cart before placement |
| `Orders.PlaceOrderEmptyCart` | LittleLemonAPI/views.py:76-79 | with an empty cart, placement still creates one order with total 0 and adds no items |
| `Orders.PlaceOrderIgnoresMenu` | LittleLemonAPI/views.py:77-88 | the order and its items depend on the cart snapshots only, not on current menu prices |
| `Orders.PlaceOrderValid` | LittleLemonAPI/views.py:74-90 | placement preserves the store invariant |
| `Access.RoleOf` | LittleLemonAPI/views.py:66-72 | Manager membership decides first, Delivery Crew second, otherwise the caller is a customer |
| `Access.VisibleOrders` | LittleLemonAPI/views.py:66-72 | a Manager lists all orders; a non-manager Delivery Crew member lists exactly the orders assigned to them; anyone else lists exactly their own orders |
| `Access.LookupOrder` | LittleLemonAPI/views.py:96-102 | the detail lookup returns an order with the key that the caller may see, and reports not-found exactly when there is no such order |
| `Access.DestroyOrder` | LittleLemonAPI/views.py:92-102 | deletion fails with not-found exactly when the lookup does. Otherwise exactly the looked-up order leaves the order table, every order the caller may not see is kept, the items of the deleted key are removed, and all other rows are kept |
| `Access.DestroyOrderRemovesOne` | LittleLemonAPI/views.py:92-102 | in a store with distinct order keys, deletion removes exactly one order and no order with that key remains |
| `Access.CustomerConfined` | LittleLemonAPI/views.py:96-102 | a customer can neither list nor look up an order owned by someone else |
| `Access.PlaceOrderVisibleToCustomer` | LittleLemonAPI/views.py:66-79 | a customer's listing gains exactly the newly placed order, at its end |
| `Access.DestroyOrderValid` | LittleLemonAPI/views.py:92-102 | deleting an order preserves the store invariant |
| `Groups.AddToGroup` | LittleLemonAPI/views.py:114-118 | not-found exactly when the username is missing or unknown or the group does not exist; otherwise the user becomes a member, the other members and groups are unchanged, and nothing else changes |
| `Groups.RemoveFromGroup` | LittleLemonAPI/views.py:120-124 | not-found exactly when the username is missing or unknown or the group does not exist; otherwise the user is no longer a member, the other members and groups are unchanged, and nothing else changes |
| `Groups.AddToGroupIdempotent` | LittleLemonAPI/views.py:114-118 | adding twice equals adding once |
| `Groups.RemoveFromGroupIdempotent` | LittleLemonAPI/views.py:120-124 | removing twice equals removing once; the second removal does not fail |
| `Groups.RemoveNonMember` | LittleLemonAPI/views.py:120-124 | removing a non-member succeeds and leaves the store unchanged |
| `Groups.AddThenRemove` | LittleLemonAPI/views.py:114-124 | adding a non-member and then removing them restores the store |
| `Groups.PromotedManagerSeesAll` | LittleLemonAPI/views.py:114-118 | after joining the Manager group a user lists every order |
| `Groups.DemotedCrewSeesOwn` | LittleLemonAPI/views.py:120-124 | a non-manager removed from Delivery Crew lists exactly their own orders |
| `Menu.SlugOf` | LittleLemonAPI/views.py:38 | the category slug of an item comes from a category row with its key; there is none exactly when no category has that key |
| `Menu.SlugOfJoin` | LittleLemonAPI/views.py:38 | with distinct category keys, an item whose category row is `c` gets `c`'s slug, as the `category__slug` join does |
| `Menu.Insert` | LittleLemonAPI/views.py:39 | inserting into a price-sorted list keeps it sorted and adds exactly that item |
| `Menu.SortByPrice` | LittleLemonAPI/views.py:39 | the result is sorted by price ascending and is a permutation of the input |
| `Menu.ListMenu` | LittleLemonAPI/views.py:34-39 | the listing is sorted by price and is a permutation of the items that pass the category filter. An item appears exactly when it is on the menu and either no filter is active or its category's slug equals the parameter |
| `Menu.ListMenuUnfiltered` | LittleLemonAPI/views.py:36-37 | with no parameter or an empty one, the listing is a permutation of the whole menu, and an empty parameter behaves like no parameter |

## Left out

- HTTP handling, serialization, routing and the permission classes
  (`IsAuthenticated`, `IsAdminUser`, the per-action `get_permissions` of the
  category and menu-item view sets). Callers are assumed authenticated and
  authorised.
- Category and menu-item create/update/delete. These are generic framework
  resources with no logic of the application's own.
- Token issuance and authentication. These are external collaborators.
- `OrderDetailView.perform_update` (LittleLemonAPI/views.py:104-109). It
  saves every validated field in both branches and raises when a Delivery
  Crew request has no `status`. So it enforces no field restriction worth
  stating, and serializer validation is framework behaviour. Its object
  lookup is `Access.LookupOrder`.
- Transactions and concurrency. Placement is one indivisible state
  transition. A line added concurrently between the read and the delete is
  not modelled.
- Validation that lives in the model definitions: quantity at least one,
  one cart line per (user, menu item), decimal digit limits on prices, the
  check that an order's delivery crew names an existing user, and the check
  on the posted `user` field of an order. That field is writable in the
  order serializer (LittleLemonAPI/serializers.py:43-46) and may be required
  there, so a placement request can be rejected with a validation error
  before the view runs. The model has no such error: the saved owner is
  always the caller (LittleLemonAPI/views.py:79).
  `models.py` is not part of this model, so quantities are unconstrained
  integers and amounts are unbounded.
- `Access.DestroyOrder`: deleting an order also removes its items. This
  assumes the usual cascading foreign key from order item to order, which
  `models.py` (not part of this model) would declare.
- Order timestamps: `date` is an opaque client-supplied value copied into the
  order.
- Row order of the database. Query sets are modelled in table order. The
  menu listing breaks price ties by table order, where the database leaves
  them unspecified.
