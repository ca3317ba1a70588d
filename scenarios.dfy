/**
 Traces of the store from its initial state, proved statically: the
 lunch order, favorite toggling, and the order-id use of an empty placeOrder.
 */
module Scenarios {
  import opened FoodStore
  import opened Manager

  /** Two pizzas into "Lunch", then an order: id 1, the snapshot, only Favorites left. */
  method LunchOrder()
  {
    var store := new DataManager();
    var pizza := store.catalog[0];
    assert pizza == FoodItem(1, "Pizza", 1299, false);
    store.AddToGroup(pizza, "Lunch", 2);
    assert store.GetItemsInGroup("Lunch") == [pizza, pizza];
    assert [pizza, pizza][1..] == [pizza] && [pizza][1..] == [];
    assert Subtotal([]) == 0;
    assert Subtotal([pizza]) == 1299;
    assert Subtotal([pizza, pizza]) == 2598;
    assert store.CalculateSubtotal("Lunch") == 2598;
    assert store.CalculateTotalWithTax("Lunch") == 2935.74;
    var before := store.groups;
    assert Snapshot(before).Keys == {"Lunch"} && Snapshot(before)["Lunch"] == [pizza, pizza];
    assert Snapshot(before) == map["Lunch" := [pizza, pizza]];
    var id := store.PlaceOrder();
    assert id == 1;
    assert store.GetOrder(1) == Some(map["Lunch" := [pizza, pizza]]);
    assert store.GetGroups() == {FavoritesGroup};
  }

  /** Toggling item 1 makes it a favorite; toggling it again restores the catalog. */
  method ToggleItemOne()
  {
    var store := new DataManager();
    var before := store.catalog;
    store.ToggleFavorite(1);
    assert store.catalog[0] == FoodItem(1, "Pizza", 1299, true);
    assert store.catalog[0] in store.GetFavoriteItems();
    store.AddToGroup(store.catalog[0]);
    assert store.GetItemsInGroup(FavoritesGroup) == [store.catalog[0]];
    store.ToggleFavorite(1);
    ToggleTwice(before, 1);
    assert store.catalog == before;
  }

  /** A placeOrder with nothing to order records nothing but still uses up its id. */
  method EmptyOrderUsesAnId()
  {
    var store := new DataManager();
    var pizza := store.catalog[0];
    store.AddToGroup(pizza, "Lunch", 1);
    var first := store.PlaceOrder();
    assert first == 1;
    SnapshotAfterOrder([]);
    var empty := store.PlaceOrder();
    assert empty == 2 && 2 !in store.GetOrderHistory();
    store.AddToGroup(pizza, "Dinner", 1);
    var next := store.PlaceOrder();
    assert next == 3 && 3 in store.GetOrderHistory();
  }
}
