/**
  Group membership management, `GroupManagementView` of
  LittleLemonAPI/views.py, mounted once per role group by the URL table.
  Both requests look the user up by the posted username and the group by
  name, each failing with not-found, and then insert into or remove from the
  group's member set.
 */
module Groups {
  import opened Seqs
  import opened Entities
  import opened Access

  /** The posted username names an existing user (a missing field never
      does). */
  predicate KnownUser(s: Store, username: Option<string>)
  {
    username.Some? && username.value in s.users
  }

  /** POST: add the user to the group. Adding a member again is harmless. */
  function AddToGroup(s: Store, g: GroupName, username: Option<string>): (r: Result<Store>)
    ensures r.Err? <==> !KnownUser(s, username) || g !in s.groups
    ensures r.Err? ==> r.error == NotFound
    ensures r.Ok? ==>
      var u := s.users[username.value];
      && r.value.groups.Keys == s.groups.Keys
      && u in r.value.groups[g]
      && r.value.groups[g] - {u} == s.groups[g] - {u}
      && (forall h :: h in s.groups && h != g ==> r.value.groups[h] == s.groups[h])
      && r.value == s.(groups := r.value.groups)
  {
    if !KnownUser(s, username) then Err(NotFound)
    else if g !in s.groups then Err(NotFound)
    else
      var u := s.users[username.value];
      Ok(s.(groups := s.groups[g := s.groups[g] + {u}]))
  }

  /** DELETE: remove the user from the group. Removing a non-member is not
      an error. */
  function RemoveFromGroup(s: Store, g: GroupName, username: Option<string>): (r: Result<Store>)
    ensures r.Err? <==> !KnownUser(s, username) || g !in s.groups
    ensures r.Err? ==> r.error == NotFound
    ensures r.Ok? ==>
      var u := s.users[username.value];
      && r.value.groups.Keys == s.groups.Keys
      && u !in r.value.groups[g]
      && r.value.groups[g] - {u} == s.groups[g] - {u}
      && (forall h :: h in s.groups && h != g ==> r.value.groups[h] == s.groups[h])
      && r.value == s.(groups := r.value.groups)
  {
    if !KnownUser(s, username) then Err(NotFound)
    else if g !in s.groups then Err(NotFound)
    else
      var u := s.users[username.value];
      Ok(s.(groups := s.groups[g := s.groups[g] - {u}]))
  }

  /** Adding twice is the same as adding once. */
  lemma AddToGroupIdempotent(s: Store, g: GroupName, username: Option<string>)
    requires AddToGroup(s, g, username).Ok?
    ensures AddToGroup(AddToGroup(s, g, username).value, g, username) == AddToGroup(s, g, username)
  {
    var s' := AddToGroup(s, g, username).value;
    var u := s.users[username.value];
    assert s'.users == s.users;
    assert s'.groups[g] + {u} == s'.groups[g];
    assert s'.groups[g := s'.groups[g]] == s'.groups;
  }

  /** Removing twice is the same as removing once; in particular the second
      removal does not fail. */
  lemma RemoveFromGroupIdempotent(s: Store, g: GroupName, username: Option<string>)
    requires RemoveFromGroup(s, g, username).Ok?
    ensures RemoveFromGroup(RemoveFromGroup(s, g, username).value, g, username) == RemoveFromGroup(s, g, username)
  {
    var s' := RemoveFromGroup(s, g, username).value;
    var u := s.users[username.value];
    assert s'.users == s.users;
    assert s'.groups[g] - {u} == s'.groups[g];
    assert s'.groups[g := s'.groups[g]] == s'.groups;
  }

  /** Removing a user who is not a member succeeds and changes nothing. */
  lemma RemoveNonMember(s: Store, g: GroupName, username: Option<string>)
    requires KnownUser(s, username) && g in s.groups
    requires s.users[username.value] !in s.groups[g]
    ensures RemoveFromGroup(s, g, username) == Ok(s)
  {
    var u := s.users[username.value];
    assert s.groups[g] - {u} == s.groups[g];
    assert s.groups[g := s.groups[g]] == s.groups;
  }

  /** Adding a non-member and removing them again restores the store. */
  lemma AddThenRemove(s: Store, g: GroupName, username: Option<string>)
    requires KnownUser(s, username) && g in s.groups
    requires s.users[username.value] !in s.groups[g]
    ensures RemoveFromGroup(AddToGroup(s, g, username).value, g, username) == Ok(s)
  {
    var u := s.users[username.value];
    var s' := AddToGroup(s, g, username).value;
    assert s'.users == s.users;
    assert s.groups[g] + {u} - {u} == s.groups[g];
    assert s'.groups[g := s'.groups[g] - {u}] == s.groups;
  }

  /** Putting a user into the Manager group opens the whole order table to
      them, whatever other group they are in. */
  lemma PromotedManagerSeesAll(s: Store, username: Option<string>)
    requires AddToGroup(s, Manager, username).Ok?
    ensures
      var s' := AddToGroup(s, Manager, username).value;
      VisibleOrders(s', s.users[username.value]) == s.orders
  {
  }

  /** A user in neither group is a customer again after leaving the Delivery
      Crew group, and from then on lists only their own orders. */
  lemma DemotedCrewSeesOwn(s: Store, username: Option<string>)
    requires RemoveFromGroup(s, DeliveryCrew, username).Ok?
    requires !InGroup(s.groups, Manager, s.users[username.value])
    ensures
      var s' := RemoveFromGroup(s, DeliveryCrew, username).value;
      var u := s.users[username.value];
      forall o :: o in VisibleOrders(s', u) <==> o in s.orders && o.user == u
  {
  }
}
