/**
 The value-level model of the food-ordering store: catalog items, group maps,
 order snapshots, and the pure functions that say what each operation of the
 store does to them. The class in data_manager.dfy is proved against these.
 Prices are integer cents, so sums are exact.
 */
module FoodStore {

  datatype Option<T> = None | Some(value: T)

  /** A catalog entry. Identity is by `id`; only `isFavorite` ever changes. */
  datatype FoodItem = FoodItem(id: int, name: string, price: nat, isFavorite: bool)

  /** Group name -> ordered item list; quantity is repeated entries. */
  type Groups = map<string, seq<FoodItem>>

  /** Order id -> snapshot of the groups placed in that order. */
  type Orders = map<int, Groups>

  /** The protected group that always exists. */
  const FavoritesGroup: string := "Favorites"

  /** Tax rate applied per group: 13%. */
  const TaxRate: real := 0.13

  /** The list of a group, or the empty list when the group is absent (`?? []`). */
  function ItemsIn(g: Groups, name: string): (items: seq<FoodItem>)
    ensures name in g ==> items == g[name]
    ensures name !in g ==> items == []
  {
    if name in g then g[name] else []
  }

  // ---------------------------------------------------------------------------
  // The seeded catalog
  // ---------------------------------------------------------------------------

  predicate UniqueIds(c: seq<FoodItem>)
  {
    forall i, j :: 0 <= i < j < |c| ==> c[i].id != c[j].id
  }

  /** The eight sample items every store starts with, none of them a favorite. */
  function SeedCatalog(): (c: seq<FoodItem>)
    ensures |c| == 8 && UniqueIds(c)
    ensures forall i :: 0 <= i < |c| ==> c[i].id == i + 1 && !c[i].isFavorite
  {
    [ FoodItem(1, "Pizza", 1299, false),
      FoodItem(2, "Burger", 899, false),
      FoodItem(3, "Sushi", 1599, false),
      FoodItem(4, "Pasta", 1099, false),
      FoodItem(5, "Salad", 799, false),
      FoodItem(6, "Ice Cream", 499, false),
      FoodItem(7, "Sandwich", 699, false),
      FoodItem(8, "Taco", 399, false) ]
  }

  // ---------------------------------------------------------------------------
  // Item lists: repetition, counting, removal, pricing
  // ---------------------------------------------------------------------------

  /** `n` copies of `item`, as the append loop of addToGroup produces them. */
  function Repeat(item: FoodItem, n: nat): (r: seq<FoodItem>)
    ensures |r| == n
    ensures forall i :: 0 <= i < |r| ==> r[i] == item
  {
    if n == 0 then [] else Repeat(item, n - 1) + [item]
  }

  /** Number of entries of `s` whose id is `id`. */
  function Occurrences(s: seq<FoodItem>, id: int): nat
  {
    if s == [] then 0 else (if s[0].id == id then 1 else 0) + Occurrences(s[1..], id)
  }

  /** `s` with every entry whose id is `id` removed, the rest in their order (removeAll). */
  function Without(s: seq<FoodItem>, id: int): (r: seq<FoodItem>)
    ensures forall x :: x in r <==> x in s && x.id != id
    ensures |r| == |s| - Occurrences(s, id)
  {
    if s == [] then [] else (if s[0].id == id then [] else [s[0]]) + Without(s[1..], id)
  }

  /** Every entry without the id keeps its multiplicity; entries with the id are all gone. */
  lemma {:induction false} WithoutMultiplicity(s: seq<FoodItem>, id: int)
    ensures forall x :: multiset(Without(s, id))[x] == if x.id == id then 0 else multiset(s)[x]
  {
    if s != [] {
      WithoutMultiplicity(s[1..], id);
      assert s == [s[0]] + s[1..];
    }
  }

  /** Sum of the prices of all entries, duplicates included (the `reduce`). */
  function Subtotal(s: seq<FoodItem>): (r: nat)
    ensures s == [] ==> r == 0
    ensures forall i :: 0 <= i < |s| ==> s[i].price <= r
  {
    if s == [] then 0 else s[0].price + Subtotal(s[1..])
  }

  /** The catalog entries marked favorite, in catalog order (the `filter`). */
  function FavoriteItems(c: seq<FoodItem>): (r: seq<FoodItem>)
    ensures forall x :: x in r <==> x in c && x.isFavorite
    ensures |r| <= |c|
  {
    if c == [] then [] else (if c[0].isFavorite then [c[0]] else []) + FavoriteItems(c[1..])
  }

  lemma {:induction false} OccurrencesAppend(a: seq<FoodItem>, b: seq<FoodItem>, id: int)
    ensures Occurrences(a + b, id) == Occurrences(a, id) + Occurrences(b, id)
  {
    if a != [] {
      assert (a + b)[1..] == a[1..] + b;
      OccurrencesAppend(a[1..], b, id);
    } else {
      assert a + b == b;
    }
  }

  lemma {:induction false} SubtotalAppend(a: seq<FoodItem>, b: seq<FoodItem>)
    ensures Subtotal(a + b) == Subtotal(a) + Subtotal(b)
  {
    if a != [] {
      assert (a + b)[1..] == a[1..] + b;
      SubtotalAppend(a[1..], b);
    } else {
      assert a + b == b;
    }
  }

  /** `q` copies of an item cost `q` times its price and hold its id `q` times. */
  lemma {:induction false} RepeatCounts(item: FoodItem, q: nat)
    ensures Subtotal(Repeat(item, q)) == q * item.price
    ensures Occurrences(Repeat(item, q), item.id) == q
  {
    if q > 0 {
      RepeatCounts(item, q - 1);
      SubtotalAppend(Repeat(item, q - 1), [item]);
      OccurrencesAppend(Repeat(item, q - 1), [item], item.id);
    }
  }

  /** Removal distributes over concatenation, so it keeps the survivors' order. */
  lemma {:induction false} WithoutAppend(a: seq<FoodItem>, b: seq<FoodItem>, id: int)
    ensures Without(a + b, id) == Without(a, id) + Without(b, id)
  {
    if a != [] {
      assert (a + b)[1..] == a[1..] + b;
      WithoutAppend(a[1..], b, id);
    } else {
      assert a + b == b;
    }
  }

  /** Removal leaves no entry with the id and does not change the count of any other id. */
  lemma {:induction false} WithoutCounts(s: seq<FoodItem>, id: int, other: int)
    ensures Occurrences(Without(s, id), id) == 0
    ensures other != id ==> Occurrences(Without(s, id), other) == Occurrences(s, other)
  {
    if s != [] {
      WithoutCounts(s[1..], id, other);
      OccurrencesAppend(if s[0].id == id then [] else [s[0]], Without(s[1..], id), id);
      OccurrencesAppend(if s[0].id == id then [] else [s[0]], Without(s[1..], id), other);
    }
  }

  lemma {:induction false} WithoutIdempotent(s: seq<FoodItem>, id: int)
    ensures Without(Without(s, id), id) == Without(s, id)
  {
    if s != [] {
      var head := if s[0].id == id then [] else [s[0]];
      WithoutAppend(head, Without(s[1..], id), id);
      WithoutIdempotent(s[1..], id);
      assert Without(head, id) == head;
    }
  }

  /** The favorites filter distributes over concatenation: catalog order is kept. */
  lemma {:induction false} FavoriteItemsAppend(a: seq<FoodItem>, b: seq<FoodItem>)
    ensures FavoriteItems(a + b) == FavoriteItems(a) + FavoriteItems(b)
  {
    if a != [] {
      assert (a + b)[1..] == a[1..] + b;
      FavoriteItemsAppend(a[1..], b);
    } else {
      assert a + b == b;
    }
  }

  /** Total with 13% tax, in exact arithmetic on the cent subtotal. */
  function TotalWithTax(subtotal: nat): (r: real)
    ensures r >= subtotal as real
    ensures r * 100.0 == subtotal as real * 113.0
  {
    subtotal as real * (1.0 + TaxRate)
  }

  // ---------------------------------------------------------------------------
  // Favorite toggling on the catalog
  // ---------------------------------------------------------------------------

  /** Index of the first catalog entry with id `id`, if any. */
  function FirstIndex(c: seq<FoodItem>, id: int): (r: Option<nat>)
    ensures r.Some? ==> r.value < |c| && c[r.value].id == id
    ensures r.Some? ==> forall j :: 0 <= j < r.value ==> c[j].id != id
    ensures r.None? ==> forall j :: 0 <= j < |c| ==> c[j].id != id
  {
    if c == [] then None
    else if c[0].id == id then Some(0)
    else match FirstIndex(c[1..], id)
      case None => None
      case Some(k) => Some(k + 1)
  }

  function Flip(x: FoodItem): FoodItem
  {
    x.(isFavorite := !x.isFavorite)
  }

  /** The catalog after toggleFavorite(id): only the first entry with that id flips. */
  function ToggledFirst(c: seq<FoodItem>, id: int): (r: seq<FoodItem>)
    ensures |r| == |c|
    ensures forall i :: 0 <= i < |c| ==> r[i].id == c[i].id && r[i].name == c[i].name && r[i].price == c[i].price
    ensures FirstIndex(c, id).None? ==> r == c
    ensures FirstIndex(c, id).Some? ==>
      var k := FirstIndex(c, id).value;
      r[k].isFavorite == !c[k].isFavorite && forall i :: 0 <= i < |c| && i != k ==> r[i] == c[i]
  {
    match FirstIndex(c, id)
    case None => c
    case Some(k) => c[k := Flip(c[k])]
  }

  /** Toggling the same id twice restores the catalog. */
  lemma ToggleTwice(c: seq<FoodItem>, id: int)
    ensures ToggledFirst(ToggledFirst(c, id), id) == c
  {
  }

  predicate IsFavoriteId(c: seq<FoodItem>, id: int)
  {
    exists i :: 0 <= i < |c| && c[i].id == id && c[i].isFavorite
  }

  /**
   In a catalog with unique ids, toggling a known id flips whether that id is
   among the favorites, and the favorites list shows exactly the favorite ids.
   */
  lemma ToggleFlipsFavorite(c: seq<FoodItem>, id: int)
    requires UniqueIds(c)
    requires FirstIndex(c, id).Some?
    ensures IsFavoriteId(ToggledFirst(c, id), id) == !IsFavoriteId(c, id)
    ensures IsFavoriteId(ToggledFirst(c, id), id) <==>
              exists x :: x in FavoriteItems(ToggledFirst(c, id)) && x.id == id
  {
  }

  // ---------------------------------------------------------------------------
  // The group map under each mutator
  // ---------------------------------------------------------------------------

  /** createEmptyGroup: adds `name -> []` unless the name is empty or taken. */
  function Created(g: Groups, name: string): (r: Groups)
    ensures name == "" || name in g ==> r == g
    ensures name != "" && name !in g ==>
      r.Keys == g.Keys + {name} && r[name] == [] && forall k :: k in g ==> r[k] == g[k]
    ensures FavoritesGroup in g ==> FavoritesGroup in r
  {
    if name == "" || name in g then g else g[name := []]
  }

  /** addToGroup: the group (created if absent) gets `q` more copies of `item` at its end. */
  function Added(g: Groups, name: string, item: FoodItem, q: nat): (r: Groups)
    ensures r.Keys == g.Keys + {name}
    ensures |r[name]| == |ItemsIn(g, name)| + q
    ensures r[name][..|ItemsIn(g, name)|] == ItemsIn(g, name)
    ensures forall i :: |ItemsIn(g, name)| <= i < |r[name]| ==> r[name][i] == item
    ensures forall k :: k in g && k != name ==> r[k] == g[k]
  {
    g[name := ItemsIn(g, name) + Repeat(item, q)]
  }

  /** Adding `q` copies raises the group's subtotal by `q * price` and its count of the id by `q`. */
  lemma AddRaisesSubtotal(g: Groups, name: string, item: FoodItem, q: nat)
    ensures Subtotal(ItemsIn(Added(g, name, item, q), name)) == Subtotal(ItemsIn(g, name)) + q * item.price
    ensures Occurrences(ItemsIn(Added(g, name, item, q), name), item.id) ==
            Occurrences(ItemsIn(g, name), item.id) + q
  {
    assert ItemsIn(Added(g, name, item, q), name) == ItemsIn(g, name) + Repeat(item, q);
    SubtotalAppend(ItemsIn(g, name), Repeat(item, q));
    OccurrencesAppend(ItemsIn(g, name), Repeat(item, q), item.id);
    RepeatCounts(item, q);
  }

  /**
   removeFromGroup: drops every entry with the id; a non-Favorites group left
   empty is deleted; an absent group is left alone.
   */
  function Removed(g: Groups, name: string, id: int): (r: Groups)
    ensures name !in g ==> r == g
    ensures name in g && name != FavoritesGroup && Without(g[name], id) == [] ==> r == g - {name}
    ensures name in g && (name == FavoritesGroup || Without(g[name], id) != []) ==>
      r.Keys == g.Keys && r[name] == Without(g[name], id)
    ensures forall k :: k in r && k != name ==> k in g && r[k] == g[k]
    ensures FavoritesGroup in g ==> FavoritesGroup in r
  {
    if name !in g then g
    else
      var rest := Without(g[name], id);
      if name != FavoritesGroup && rest == [] then g - {name} else g[name := rest]
  }

  /** Applying removeFromGroup twice leaves the same map as applying it once. */
  lemma RemovedIdempotent(g: Groups, name: string, id: int)
    ensures Removed(Removed(g, name, id), name, id) == Removed(g, name, id)
  {
    if name in g {
      WithoutIdempotent(g[name], id);
    }
  }

  /** removeGroup: deletes the group, except that Favorites is never deleted. */
  function Deleted(g: Groups, name: string): (r: Groups)
    ensures name == FavoritesGroup ==> r == g
    ensures name != FavoritesGroup ==> r.Keys == g.Keys - {name}
    ensures forall k :: k in r ==> r[k] == g[k]
    ensures FavoritesGroup in g ==> FavoritesGroup in r
  {
    if name != FavoritesGroup then g - {name} else g
  }

  /**
   renameGroup: moves the list from `oldName` to `newName` unless `oldName` is Favorites,
   `newName` is empty or taken, or `oldName` is absent.
   */
  function Renamed(g: Groups, oldName: string, newName: string): (r: Groups)
    ensures oldName == FavoritesGroup || newName in g || newName == "" || oldName !in g ==> r == g
    ensures oldName != FavoritesGroup && newName !in g && newName != "" && oldName in g ==>
      r.Keys == g.Keys - {oldName} + {newName} && r[newName] == g[oldName] &&
      forall k :: k in g && k != oldName ==> r[k] == g[k]
    ensures FavoritesGroup in g ==> FavoritesGroup in r && r[FavoritesGroup] == g[FavoritesGroup]
  {
    if oldName == FavoritesGroup || newName in g || newName == "" || oldName !in g then g
    else g[newName := g[oldName]] - {oldName}
  }

  // ---------------------------------------------------------------------------
  // Orders
  // ---------------------------------------------------------------------------

  /** What placeOrder records: every group other than Favorites with a non-empty list. */
  function Snapshot(g: Groups): (r: Groups)
    ensures forall k :: k in r <==> k in g && k != FavoritesGroup && g[k] != []
    ensures forall k :: k in r ==> r[k] == g[k]
  {
    map k | k in g && k != FavoritesGroup && g[k] != [] :: g[k]
  }

  /** The shape of every recorded order: non-empty, no Favorites, no empty list. */
  predicate IsOrder(o: Groups)
  {
    o != map[] && FavoritesGroup !in o && forall k :: k in o ==> o[k] != []
  }

  /** A snapshot is either empty (nothing to order) or a well-formed order. */
  lemma SnapshotIsOrder(g: Groups)
    ensures Snapshot(g) == map[] || IsOrder(Snapshot(g))
    ensures Snapshot(g) == map[] <==> forall k :: k in g && k != FavoritesGroup ==> g[k] == []
  {
  }

  /** After an order is placed the groups hold only Favorites, so the next order has nothing to take. */
  lemma SnapshotAfterOrder(fav: seq<FoodItem>)
    ensures Snapshot(map[FavoritesGroup := fav]) == map[]
  {
  }
}
