/**
 The in-memory store: one explicitly constructed DataManager that owns the
 catalog, the groups, the order history and the order-id counter, and updates
 them in place. Each mutator is proved against the value-level functions of
 FoodStore; the queries read the fields.
 */
module Manager {
  import opened FoodStore

  class DataManager {
    var catalog: seq<FoodItem>
    var groups: Groups
    var history: Orders
    var nextOrderId: int

    /**
     The store's invariant: Favorites always exists, order ids run from 1 and
     are all below the counter, and every recorded order is a well-formed one.
     */
    ghost predicate Valid()
      reads this
    {
      && FavoritesGroup in groups
      && UniqueIds(catalog)
      && nextOrderId >= 1
      && (forall id :: id in history ==> 1 <= id < nextOrderId && IsOrder(history[id]))
    }

    constructor ()
      ensures Valid()
      ensures catalog == SeedCatalog()
      ensures groups == map[FavoritesGroup := []]
      ensures history == map[] && nextOrderId == 1
    {
      catalog := SeedCatalog();
      history := map[];
      nextOrderId := 1;
      groups := map[];
      new;
      groups := groups[FavoritesGroup := []];
    }

    method CreateEmptyGroup(groupName: string)
      requires Valid()
      modifies this
      ensures Valid()
      ensures groups == Created(old(groups), groupName)
      ensures catalog == old(catalog) && history == old(history) && nextOrderId == old(nextOrderId)
    {
      if groupName == "" || groupName in groups {
        return;
      }
      groups := groups[groupName := []];
    }

    method AddToGroup(item: FoodItem, groupName: string := FavoritesGroup, quantity: nat := 1)
      requires Valid()
      modifies this
      ensures Valid()
      ensures groups == Added(old(groups), groupName, item, quantity)
      ensures catalog == old(catalog) && history == old(history) && nextOrderId == old(nextOrderId)
    {
      if groupName !in groups {
        groups := groups[groupName := []];
      }
      var group := ItemsIn(groups, groupName);
      var i := 0;
      while i < quantity
        invariant 0 <= i <= quantity
        invariant group == ItemsIn(old(groups), groupName) + Repeat(item, i)
      {
        group := group + [item];
        i := i + 1;
      }
      groups := groups[groupName := group];
    }

    method RemoveFromGroup(item: FoodItem, groupName: string)
      requires Valid()
      modifies this
      ensures Valid()
      ensures groups == Removed(old(groups), groupName, item.id)
      ensures catalog == old(catalog) && history == old(history) && nextOrderId == old(nextOrderId)
    {
      if groupName !in groups {
        return;
      }
      var group := groups[groupName];
      group := Without(group, item.id);
      if groupName != FavoritesGroup && group == [] {
        groups := groups - {groupName};
      } else {
        groups := groups[groupName := group];
      }
    }

    /** The group names, as a set: the source's key order is unspecified. */
    function GetGroups(): (names: set<string>)
      requires Valid()
      reads this
      ensures FavoritesGroup in names
      ensures forall n :: n in names <==> n in groups
    {
      groups.Keys
    }

    function GetItemsInGroup(groupName: string): (items: seq<FoodItem>)
      reads this
      ensures groupName in groups ==> items == groups[groupName]
      ensures groupName !in groups ==> items == []
    {
      ItemsIn(groups, groupName)
    }

    /** Sum of prices over the group, duplicates included; 0 for an absent group. */
    function CalculateSubtotal(groupName: string): (cents: nat)
      reads this
      ensures groupName !in groups ==> cents == 0
      ensures groupName in groups ==> cents == Subtotal(groups[groupName])
    {
      Subtotal(GetItemsInGroup(groupName))
    }

    function CalculateTotalWithTax(groupName: string): (total: real)
      reads this
      ensures total * 100.0 == CalculateSubtotal(groupName) as real * 113.0
    {
      TotalWithTax(CalculateSubtotal(groupName))
    }

    method RemoveGroup(groupName: string)
      requires Valid()
      modifies this
      ensures Valid()
      ensures groups == Deleted(old(groups), groupName)
      ensures catalog == old(catalog) && history == old(history) && nextOrderId == old(nextOrderId)
    {
      if groupName != FavoritesGroup {
        groups := groups - {groupName};
      }
    }

    method RenameGroup(oldName: string, newName: string)
      requires Valid()
      modifies this
      ensures Valid()
      ensures groups == Renamed(old(groups), oldName, newName)
      ensures catalog == old(catalog) && history == old(history) && nextOrderId == old(nextOrderId)
    {
      if oldName == FavoritesGroup || newName in groups || newName == "" || oldName !in groups {
        return;
      }
      var group := groups[oldName];
      groups := groups[newName := group];
      groups := groups - {oldName};
    }

    /** Flips the favorite flag of the first catalog entry with the id, then stops. */
    method ToggleFavorite(foodItemId: int)
      requires Valid()
      modifies this
      ensures Valid()
      ensures catalog == ToggledFirst(old(catalog), foodItemId)
      ensures FirstIndex(old(catalog), foodItemId).Some? ==>
        IsFavoriteId(catalog, foodItemId) == !IsFavoriteId(old(catalog), foodItemId)
      ensures groups == old(groups) && history == old(history) && nextOrderId == old(nextOrderId)
    {
      var i := 0;
      while i < |catalog|
        invariant 0 <= i <= |catalog|
        invariant catalog == old(catalog)
        invariant forall j :: 0 <= j < i ==> catalog[j].id != foodItemId
      {
        if catalog[i].id == foodItemId {
          catalog := catalog[i := catalog[i].(isFavorite := !catalog[i].isFavorite)];
          break;
        }
        i := i + 1;
      }
      if FirstIndex(old(catalog), foodItemId).Some? {
        ToggleFlipsFavorite(old(catalog), foodItemId);
      }
    }

    function GetFavoriteItems(): (favorites: seq<FoodItem>)
      reads this
      ensures forall x :: x in favorites <==> x in catalog && x.isFavorite
    {
      FavoriteItems(catalog)
    }

    /**
     Takes the current id and advances the counter on every call; records the
     snapshot of the non-empty, non-Favorites groups under that id only when
     the snapshot is non-empty, and then keeps only Favorites among the groups.
     */
    method PlaceOrder() returns (orderId: int)
      requires Valid()
      modifies this
      ensures Valid()
      ensures orderId == old(nextOrderId) && nextOrderId == old(nextOrderId) + 1
      ensures Snapshot(old(groups)) != map[] ==>
        && history == old(history)[orderId := Snapshot(old(groups))]
        && groups == map[FavoritesGroup := old(groups)[FavoritesGroup]]
      ensures Snapshot(old(groups)) == map[] ==> history == old(history) && groups == old(groups)
      ensures forall id :: id in old(history) ==> id in history && history[id] == old(history)[id]
      ensures catalog == old(catalog)
    {
      orderId := nextOrderId;
      nextOrderId := nextOrderId + 1;

      var orderGroups: Groups := map[];
      var remaining := groups.Keys;
      while remaining != {}
        invariant remaining <= groups.Keys
        invariant forall k :: k in orderGroups <==>
          k in groups && k !in remaining && k != FavoritesGroup && groups[k] != []
        invariant forall k :: k in orderGroups ==> orderGroups[k] == groups[k]
        decreases |remaining|
      {
        var key :| key in remaining;
        var value := groups[key];
        if key != FavoritesGroup && value != [] {
          orderGroups := orderGroups[key := value];
        }
        remaining := remaining - {key};
      }
      assert orderGroups == Snapshot(groups);

      if orderGroups != map[] {
        SnapshotIsOrder(groups);
        history := history[orderId := orderGroups];
        var favoritesGroup := ItemsIn(groups, FavoritesGroup);
        groups := map[FavoritesGroup := favoritesGroup];
      }
    }

    function GetOrderHistory(): (orders: Orders)
      requires Valid()
      reads this
      ensures forall id :: id in orders ==> 1 <= id < nextOrderId && IsOrder(orders[id])
      ensures orders == history
    {
      history
    }

    function GetOrder(orderId: int): (order: Option<Groups>)
      requires Valid()
      reads this
      ensures order.Some? <==> orderId in history
      ensures order.Some? ==> order.value == history[orderId] && IsOrder(order.value)
    {
      if orderId in history then Some(history[orderId]) else None
    }
  }
}
