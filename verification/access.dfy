/**
  Role-scoped order visibility: the `get_queryset` shared by `OrderView` and
  `OrderDetailView` in LittleLemonAPI/views.py. Managers see every order,
  Delivery Crew members see the orders assigned to them, everybody else sees
  their own orders; Manager membership is tested first. The detail view looks
  an order up inside that query set, so retrieve, update and delete are
  confined to the orders the caller may see.
 */
module Access {
  import opened Entities
  import opened Seqs
  import opened Orders

  /** The role a request acts under, resolved from group membership. */
  datatype Role = ManagerRole | CrewRole | CustomerRole

  function RoleOf(groups: map<GroupName, set<UserId>>, u: UserId): (r: Role)
    ensures r == ManagerRole <==> InGroup(groups, Manager, u)
    ensures r == CrewRole <==> !InGroup(groups, Manager, u) && InGroup(groups, DeliveryCrew, u)
    ensures r == CustomerRole <==> !InGroup(groups, Manager, u) && !InGroup(groups, DeliveryCrew, u)
  {
    if InGroup(groups, Manager, u) then ManagerRole
    else if InGroup(groups, DeliveryCrew, u) then CrewRole
    else CustomerRole
  }

  /** The filter each role's query set applies to the order table. */
  predicate CanSee(role: Role, u: UserId, o: Order)
  {
    match role
    case ManagerRole => true
    case CrewRole => o.deliveryCrew == Some(u)
    case CustomerRole => o.user == u
  }

  function SeenBy(role: Role, u: UserId): Order -> bool
  {
    (o: Order) => CanSee(role, u, o)
  }

  /** The orders user `u` may list, in table order. */
  function VisibleOrders(s: Store, u: UserId): (r: seq<Order>)
    ensures InGroup(s.groups, Manager, u) ==> r == s.orders
    ensures !InGroup(s.groups, Manager, u) && InGroup(s.groups, DeliveryCrew, u) ==>
      forall o :: o in r <==> o in s.orders && o.deliveryCrew == Some(u)
    ensures !InGroup(s.groups, Manager, u) && !InGroup(s.groups, DeliveryCrew, u) ==>
      forall o :: o in r <==> o in s.orders && o.user == u
  {
    var role := RoleOf(s.groups, u);
    var r := Filter(SeenBy(role, u), s.orders);
    assert role == ManagerRole ==> r == s.orders by {
      if role == ManagerRole {
        FilterAll(SeenBy(role, u), s.orders);
      }
    }
    r
  }

  function OrderKey(id: Id): Order -> bool
  {
    (o: Order) => o.id == id
  }

  /** The object lookup of the detail view: the order with key `id` inside
      the caller's query set, or not-found when the caller may not see any
      order with that key. */
  function LookupOrder(s: Store, u: UserId, id: Id): (r: Result<Order>)
    ensures r.Ok? ==> r.value in s.orders && r.value.id == id && CanSee(RoleOf(s.groups, u), u, r.value)
    ensures r.Err? ==> r.error == NotFound
    ensures r.Err? <==> forall o :: o in s.orders && o.id == id ==> !CanSee(RoleOf(s.groups, u), u, o)
  {
    var visible := VisibleOrders(s, u);
    match First(OrderKey(id), visible)
    case Some(o) => Ok(o)
    case None => Err(NotFound)
  }

  function IsOrder(o: Order): Order -> bool
  {
    (x: Order) => x == o
  }

  function NotOrder(o: Order): Order -> bool
  {
    (x: Order) => x != o
  }

  function NotOfOrder(id: Id): OrderItem -> bool
  {
    (it: OrderItem) => it.order != id
  }

  /** Order deletion through the detail view: the looked-up order leaves the
      order table and its items go with it. Every order the caller may not
      see is kept, and so are the other orders' items and every other
      table. */
  function DestroyOrder(s: Store, u: UserId, id: Id): (r: Result<Store>)
    ensures r.Err? <==> LookupOrder(s, u, id).Err?
    ensures r.Err? ==> r.error == NotFound
    ensures r.Ok? ==>
      var o := LookupOrder(s, u, id).value;
      && r.value == s.(orders := r.value.orders, items := r.value.items)
      && (forall x :: x in r.value.orders <==> x in s.orders && x != o)
      && (forall x :: x in s.orders && !CanSee(RoleOf(s.groups, u), u, x) ==> x in r.value.orders)
      && (forall it :: it in r.value.items <==> it in s.items && it.order != id)
  {
    match LookupOrder(s, u, id)
    case Err(e) => Err(e)
    case Ok(o) =>
      Ok(s.(orders := Filter(NotOrder(o), s.orders), items := Filter(NotOfOrder(id), s.items)))
  }

  /** In a store with distinct order keys, deletion removes exactly one
      order, and no order with the deleted key remains. */
  lemma DestroyOrderRemovesOne(s: Store, u: UserId, id: Id)
    requires Valid(s)
    requires DestroyOrder(s, u, id).Ok?
    ensures |DestroyOrder(s, u, id).value.orders| == |s.orders| - 1
    ensures forall x :: x in DestroyOrder(s, u, id).value.orders ==> x.id != id
  {
    var o := LookupOrder(s, u, id).value;
    var kept := DestroyOrder(s, u, id).value.orders;
    FilterPartition(NotOrder(o), IsOrder(o), s.orders);
    AtMostOneWithKey(IsOrder(o), OrderId, id, s.orders);
    assert o in Filter(IsOrder(o), s.orders);
    assert |multiset(kept)| + |multiset(Filter(IsOrder(o), s.orders))| == |multiset(s.orders)|;
    forall x | x in kept
      ensures x.id != id
    {
      var i :| 0 <= i < |s.orders| && s.orders[i] == x;
      var j :| 0 <= j < |s.orders| && s.orders[j] == o;
      assert i != j;
      assert OrderId(s.orders[i]) != OrderId(s.orders[j]);
    }
  }

  /** A customer never reaches an order of somebody else, whatever key is
      named: listing omits it and the detail lookup reports not-found. */
  lemma CustomerConfined(s: Store, u: UserId, id: Id)
    requires RoleOf(s.groups, u) == CustomerRole
    requires forall o :: o in s.orders && o.id == id ==> o.user != u
    ensures LookupOrder(s, u, id) == Err(NotFound)
    ensures forall o :: o in VisibleOrders(s, u) ==> o.id != id
  {
  }

  /** Placing an order shows it to its owner when the owner is a customer:
      the listing gains exactly the new order at its end. */
  lemma {:induction false} PlaceOrderVisibleToCustomer(s: Store, u: UserId, input: OrderInput)
    requires RoleOf(s.groups, u) == CustomerRole
    ensures
      var (s', o) := PlaceOrder(s, u, input);
      VisibleOrders(s', u) == VisibleOrders(s, u) + [o]
  {
    var (s', o) := PlaceOrder(s, u, input);
    var role := RoleOf(s.groups, u);
    FilterAppend(SeenBy(role, u), s.orders, [o]);
    assert Filter(SeenBy(role, u), [o]) == [o] by {
      assert [o][1..] == [];
    }
  }

  /** Deleting an order keeps the store valid. */
  lemma DestroyOrderValid(s: Store, u: UserId, id: Id)
    requires Valid(s)
    requires DestroyOrder(s, u, id).Ok?
    ensures Valid(DestroyOrder(s, u, id).value)
  {
    var r := DestroyOrder(s, u, id).value;
    FilterKeysDistinct(NotOrder(LookupOrder(s, u, id).value), OrderId, s.orders);
    assert forall i :: 0 <= i < |r.orders| ==> r.orders[i] in s.orders;
  }
}
