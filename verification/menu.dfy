/**
  Menu listing, `MenuItemViewSet.get_queryset` of LittleLemonAPI/views.py:
  all menu items, narrowed to one category when the `category` query
  parameter is given and non-empty, ordered by price ascending.
 */
module Menu {
  import opened Entities
  import opened Seqs

  function CategoryKey(id: Id): Category -> bool
  {
    (c: Category) => c.id == id
  }

  /** The slug of the category with key `id` (the `category__slug` join),
      if there is such a category. */
  function SlugOf(categories: seq<Category>, id: Id): (r: Option<string>)
    ensures r.Some? ==> exists c :: c in categories && c.id == id && c.slug == r.value
    ensures r.None? <==> forall i :: 0 <= i < |categories| ==> categories[i].id != id
  {
    match First(CategoryKey(id), categories)
    case Some(c) => Some(c.slug)
    case None => None
  }

  /** With distinct category keys the lookup agrees with the join: an item
      whose category row is `c` gets `c`'s slug. */
  lemma SlugOfJoin(categories: seq<Category>, c: Category)
    requires KeysDistinct(CategoryId, categories)
    requires c in categories
    ensures SlugOf(categories, c.id) == Some(c.slug)
  {
  }

  /** The category filter is applied only when the parameter is present and
      non-empty (Python treats the empty string as false). */
  predicate FilterActive(category: Option<string>)
  {
    category.Some? && category.value != ""
  }

  /** Whether `item` passes the category filter. */
  predicate Listed(categories: seq<Category>, category: Option<string>, item: MenuItem)
  {
    !FilterActive(category) || SlugOf(categories, item.category) == Some(category.value)
  }

  function ListedBy(categories: seq<Category>, category: Option<string>): MenuItem -> bool
  {
    (m: MenuItem) => Listed(categories, category, m)
  }

  predicate SortedByPrice(s: seq<MenuItem>)
  {
    forall i, j :: 0 <= i < j < |s| ==> s[i].price <= s[j].price
  }

  /** Insert `x` into a price-sorted sequence, before the first item that
      costs at least as much. */
  function Insert(x: MenuItem, s: seq<MenuItem>): (r: seq<MenuItem>)
    requires SortedByPrice(s)
    ensures SortedByPrice(r)
    ensures multiset(r) == multiset(s) + multiset{x}
    ensures |r| == |s| + 1
    ensures r[0] == x || (|s| > 0 && r[0] == s[0])
    decreases |s|
  {
    if |s| == 0 then [x]
    else if x.price <= s[0].price then [x] + s
    else
      var rest := Insert(x, s[1..]);
      var r := [s[0]] + rest;
      assert s == [s[0]] + s[1..];
      assert s[0].price <= rest[0].price;
      assert SortedByPrice(r) by {
        forall i, j | 0 <= i < j < |r|
          ensures r[i].price <= r[j].price
        {
          assert r[j] == rest[j - 1];
          if i == 0 {
            assert rest[0].price <= rest[j - 1].price;
          } else {
            assert r[i] == rest[i - 1];
          }
        }
      }
      assert multiset(s) == multiset{s[0]} + multiset(s[1..]);
      assert multiset(r) == multiset{s[0]} + multiset(rest);
      assert r[0] == s[0];
      r
  }

  /** Insertion sort by price; the order of equal prices is the table order
      (the database leaves it unspecified). */
  function SortByPrice(s: seq<MenuItem>): (r: seq<MenuItem>)
    ensures SortedByPrice(r)
    ensures multiset(r) == multiset(s)
    decreases |s|
  {
    if |s| == 0 then []
    else
      assert s == [s[0]] + s[1..];
      Insert(s[0], SortByPrice(s[1..]))
  }

  /** The menu listing: exactly the items of the named category (every item
      when no category is named), each as often as in the table, sorted by
      price ascending. */
  function ListMenu(s: Store, category: Option<string>): (r: seq<MenuItem>)
    ensures SortedByPrice(r)
    ensures multiset(r) == multiset(Filter(ListedBy(s.categories, category), s.menu))
    ensures forall m :: m in r <==> m in s.menu && Listed(s.categories, category, m)
  {
    var selected := Filter(ListedBy(s.categories, category), s.menu);
    var r := SortByPrice(selected);
    SameMembers(r, selected);
    r
  }

  /** Without an active filter the listing is a sorted permutation of the
      whole menu; an empty `category` parameter is the same as none. */
  lemma ListMenuUnfiltered(s: Store, category: Option<string>)
    requires !FilterActive(category)
    ensures multiset(ListMenu(s, category)) == multiset(s.menu)
    ensures ListMenu(s, category) == ListMenu(s, None)
  {
    FilterAll(ListedBy(s.categories, category), s.menu);
    FilterAll(ListedBy(s.categories, None), s.menu);
  }
}
