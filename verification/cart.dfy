/**
  The per-user shopping cart: `CartView` (list and add) and `CartItemView`
  (delete one line) of LittleLemonAPI/views.py. Both views query only the
  caller's own lines, and adding a line snapshots the menu item's price.
 */
module Cart {
  import opened Entities
  import opened Seqs

  /** The writable fields of a cart line: the client names the menu item and
      the quantity; owner, unit price and line price are read-only. */
  datatype CartInput = CartInput(menuitem: Id, quantity: int)

  function OwnedBy(u: UserId): CartLine -> bool
  {
    (l: CartLine) => l.user == u
  }

  function NotOwnedBy(u: UserId): CartLine -> bool
  {
    (l: CartLine) => l.user != u
  }

  /** The caller's cart, the query set both cart views work on. */
  function CartOf(cart: seq<CartLine>, u: UserId): (r: seq<CartLine>)
    ensures forall l :: l in r <==> l in cart && l.user == u
  {
    Filter(OwnedBy(u), cart)
  }

  function MenuKey(id: Id): MenuItem -> bool
  {
    (m: MenuItem) => m.id == id
  }

  /** Add-to-cart: the new line belongs to the caller, copies the menu item's
      current price into `unitPrice` and sets `price` to unit price times
      quantity. Nothing but the cart table and its key counter changes. */
  function AddToCart(s: Store, u: UserId, input: CartInput): (r: Result<(Store, CartLine)>)
    ensures r.Err? <==> forall i :: 0 <= i < |s.menu| ==> s.menu[i].id != input.menuitem
    ensures r.Err? ==> r.error == UnknownMenuItem
    ensures r.Ok? ==>
      var (s', line) := r.value;
      && line.id == s.nextCartId
      && line.user == u
      && line.menuitem == input.menuitem
      && line.quantity == input.quantity
      && (exists m :: m in s.menu && m.id == input.menuitem && line.unitPrice == m.price)
      && line.unitPrice == First(MenuKey(input.menuitem), s.menu).value.price
      && line.price == line.unitPrice * line.quantity
      && s'.cart == s.cart + [line]
      && s' == s.(cart := s'.cart, nextCartId := s.nextCartId + 1)
  {
    match First(MenuKey(input.menuitem), s.menu)
    case None => Err(UnknownMenuItem)
    case Some(m) =>
      var line := CartLine(s.nextCartId, u, m.id, input.quantity, m.price, m.price * input.quantity);
      Ok((s.(cart := s.cart + [line], nextCartId := s.nextCartId + 1), line))
  }

  /** Adding a line keeps the store valid. */
  lemma AddToCartValid(s: Store, u: UserId, input: CartInput)
    requires Valid(s)
    requires AddToCart(s, u, input).Ok?
    ensures Valid(AddToCart(s, u, input).value.0)
  {
  }

  /** With distinct menu keys the snapshotted unit price is the price of
      the one menu item with the requested key. */
  lemma AddToCartPriceOfItem(s: Store, u: UserId, input: CartInput, m: MenuItem)
    requires Valid(s)
    requires m in s.menu && m.id == input.menuitem
    ensures AddToCart(s, u, input).Ok?
    ensures AddToCart(s, u, input).value.1.unitPrice == m.price
  {
  }

  /** Adding a line appends it to the caller's cart listing and leaves every
      other user's cart listing as it was. */
  lemma {:induction false} AddToCartListing(s: Store, u: UserId, input: CartInput, v: UserId)
    requires AddToCart(s, u, input).Ok?
    ensures
      var (s', line) := AddToCart(s, u, input).value;
      && CartOf(s'.cart, u) == CartOf(s.cart, u) + [line]
      && (v != u ==> CartOf(s'.cart, v) == CartOf(s.cart, v))
  {
    var (s', line) := AddToCart(s, u, input).value;
    FilterAppend(OwnedBy(u), s.cart, [line]);
    FilterAppend(OwnedBy(v), s.cart, [line]);
    assert Filter(OwnedBy(u), [line]) == [line] by {
      assert [line][1..] == [];
    }
    if v != u {
      assert Filter(OwnedBy(v), [line]) == [] by {
        assert [line][1..] == [];
      }
    }
  }

  function IsLine(u: UserId, id: Id): CartLine -> bool
  {
    (l: CartLine) => l.user == u && l.id == id
  }

  function KeepLine(u: UserId, id: Id): CartLine -> bool
  {
    (l: CartLine) => !(l.user == u && l.id == id)
  }

  /** Delete one cart line by key. The lookup ranges over the caller's own
      lines only, so another user's line key is not found. */
  function DeleteCartLine(s: Store, u: UserId, id: Id): (r: Result<Store>)
    ensures r.Err? <==> forall l :: l in s.cart ==> !(l.user == u && l.id == id)
    ensures r.Err? ==> r.error == NotFound
    ensures r.Ok? ==>
      && r.value == s.(cart := r.value.cart)
      && (forall l :: l in r.value.cart <==> l in s.cart && !(l.user == u && l.id == id))
  {
    if exists l :: l in s.cart && l.user == u && l.id == id then
      Ok(s.(cart := Filter(KeepLine(u, id), s.cart)))
    else
      Err(NotFound)
  }

  /** A successful delete removes at least one row: the caller's line. */
  lemma DeleteCartLineShrinks(s: Store, u: UserId, id: Id)
    requires DeleteCartLine(s, u, id).Ok?
    ensures |DeleteCartLine(s, u, id).value.cart| < |s.cart|
  {
    var l :| l in s.cart && l.user == u && l.id == id;
    FilterPartition(KeepLine(u, id), IsLine(u, id), s.cart);
    assert l in Filter(IsLine(u, id), s.cart);
    var removed := multiset(Filter(IsLine(u, id), s.cart));
    assert |removed| > 0 by {
      assert l in removed;
    }
    assert |multiset(Filter(KeepLine(u, id), s.cart))| + |removed| == |multiset(s.cart)|;
  }

  /** Deleting a line never touches another user's cart, whatever key the
      caller names. */
  lemma DeleteCartLineKeepsOthers(s: Store, u: UserId, id: Id, v: UserId)
    requires v != u
    requires DeleteCartLine(s, u, id).Ok?
    ensures CartOf(DeleteCartLine(s, u, id).value.cart, v) == CartOf(s.cart, v)
  {
    FilterNarrow(OwnedBy(v), KeepLine(u, id), s.cart);
  }

  /** Deleting a line keeps the store valid. */
  lemma DeleteCartLineValid(s: Store, u: UserId, id: Id)
    requires Valid(s)
    requires DeleteCartLine(s, u, id).Ok?
    ensures Valid(DeleteCartLine(s, u, id).value)
  {
    FilterKeysDistinct(KeepLine(u, id), LineId, s.cart);
  }

  /** The delete view removes exactly one row: in a store whose cart keys
      are distinct, the caller's line with that key is the only line that
      leaves, and every other line stays in order. */
  lemma DeleteCartLineRemovesOne(s: Store, u: UserId, id: Id)
    requires Valid(s)
    requires DeleteCartLine(s, u, id).Ok?
    ensures |DeleteCartLine(s, u, id).value.cart| == |s.cart| - 1
  {
    var l :| l in s.cart && l.user == u && l.id == id;
    FilterPartition(KeepLine(u, id), IsLine(u, id), s.cart);
    AtMostOneWithKey(IsLine(u, id), LineId, id, s.cart);
    assert l in Filter(IsLine(u, id), s.cart);
    assert |multiset(Filter(KeepLine(u, id), s.cart))| + |multiset(Filter(IsLine(u, id), s.cart))| == |multiset(s.cart)|;
  }
}
