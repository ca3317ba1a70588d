# Food-ordering store, modelled in Dafny

This project models the in-memory state manager (`DataManager`) of a mobile food-ordering app. The store owns four pieces of state:

- a fixed catalog of food items, where only the favorite flag of an item ever changes;
- named groups (carts), each mapping a name to an ordered list of items, with quantity shown as repeated entries;
- an order history that only grows;
- an order-id counter.

The group named `"Favorites"` is protected. It exists from construction onwards, it cannot be deleted or renamed, and it is not deleted when its last item is removed.

Files:

- `food_store.dfy` (module `FoodStore`) holds the value-level model:
  - the `FoodItem` datatype;
  - the seeded catalog;
  - functions on item lists: repetition, removal by id, subtotal and the favorites filter;
  - one pure function per mutator, giving the group map or catalog after that call;
  - the order snapshot;
  - lemmas relating these functions.
- `data_manager.dfy` (module `Manager`) holds `class DataManager`. Its fields are `catalog`, `groups`, `history` and `nextOrderId`. The class invariant `Valid()` says that Favorites is present, that catalog ids are unique, that every order id lies in `1 .. nextOrderId - 1`, and that every recorded order is well formed. Each mutator is a method that updates the fields in place. Its `ensures` ties the new state to the matching `FoodStore` function of the old state and says which fields stay unchanged. The queries are functions that read the fields.
- `scenarios.dfy` (module `Scenarios`) holds three traces from a freshly constructed store, each proved statically:
  - the two-pizza lunch order;
  - toggling item 1 twice, with a default-argument `AddToGroup` into Favorites in between;
  - an empty `placeOrder` between two real ones.

Modelling decisions:

- **Prices.** Prices are integer cents (`nat`), so subtotals are exact. `calculateTotalWithTax` is modelled in exact real arithmetic as `subtotal * (1 + 0.13)`.
- **Item identity.** The declaration of `FoodItem` is not part of this model's source files. The model treats it as a value type (a Swift struct): a copy of an item in a group is not affected by toggling the catalog entry. Its `isFavorite` flag starts false, so the seeded catalog has no favorites.
- **`getGroups`.** It returns the key set, because Swift dictionary key order is unspecified.
- **`placeOrder` loop.** The loop `for (key, value) in foodGroups` visits the keys in an unspecified order. The model picks an arbitrary remaining key on each step (`var key :| key in remaining`), so the proof holds for every order.
- **Default arguments.** `AddToGroup` keeps the source's defaults: the group name defaults to Favorites and the quantity to 1 (`DataManager.swift:63`).
- **Negative quantity.** `addToGroup` with a negative quantity traps in Swift, because `0..<quantity` is an invalid range. The model therefore takes `quantity: nat`.
- **`placeOrder` and order ids.** Order ids are not gap-free. The code reads and increments `nextOrderId` before it checks whether anything will be recorded (`DataManager.swift:151-152`). The model follows the code: every call uses up an id, even one that records nothing. `Scenarios.EmptyOrderUsesAnId` shows the resulting gap: order ids 1 and 3 are recorded, and id 2 is not.

## Model

| member | source | states |
|---|---|---|
| `FoodStore.ItemsIn` | DataManager.swift:99 | The list of a present group, or the empty list for an absent one (`?? []`). |
| `FoodStore.Subtotal` | DataManager.swift:105 | The `reduce` over prices: 0 for an empty list, and never below the price of any single entry. |
| `FoodStore.SeedCatalog` | DataManager.swift:39-48 | The catalog starts with eight items with ids 1 to 8, all distinct, and none of them is a favorite. |
| `FoodStore.Repeat` | DataManager.swift:71-73 | The append loop produces exactly `n` entries, and every one of them is the item. |
| `FoodStore.Without` | DataManager.swift:82 | `removeAll` keeps exactly the entries whose id differs from the given id, and the length drops by the number of occurrences of that id. |
| `FoodStore.WithoutMultiplicity` | DataManager.swift:82 | Each entry whose id differs keeps its multiplicity, and entries with the id have multiplicity 0. |
| `FoodStore.WithoutAppend` | DataManager.swift:82 | Removal distributes over concatenation, so the remaining entries keep their original order. |
| `FoodStore.WithoutCounts` | DataManager.swift:82 | After removal the id occurs zero times, and the count of every other id is unchanged. |
| `FoodStore.WithoutIdempotent` | DataManager.swift:82 | Removing the same id a second time changes nothing. |
| `FoodStore.SubtotalAppend` | DataManager.swift:103-106 | The subtotal of two lists joined is the sum of their subtotals. |
| `FoodStore.RepeatCounts` | DataManager.swift:71-73 | `q` copies of an item cost `q * price` and contain the item's id exactly `q` times. |
| `FoodStore.FavoriteItems` | DataManager.swift:145-147 | An item is in the result exactly when it is in the catalog and marked favorite. |
| `FoodStore.FavoriteItemsAppend` | DataManager.swift:145-147 | The favorites filter distributes over concatenation, so favorites come out in catalog order. |
| `FoodStore.TotalWithTax` | DataManager.swift:109-112 | The total is the subtotal times 1.13 and is never below the subtotal. |
| `FoodStore.FirstIndex` | DataManager.swift:135-136 | The index found is the first catalog position with the id; `None` means no entry has the id. |
| `FoodStore.ToggledFirst` | DataManager.swift:134-142 | Only the first entry with the id has its flag flipped. An unknown id leaves the catalog unchanged. Ids, names and prices never change. |
| `FoodStore.ToggleTwice` | DataManager.swift:134-142 | Toggling the same id twice restores the catalog. |
| `FoodStore.ToggleFlipsFavorite` | DataManager.swift:134-147 | In a catalog with unique ids, toggling a known id flips whether that id is a favorite. After the toggle, the id is a favorite exactly when an item with that id appears in the favorites list. |
| `FoodStore.Created` | DataManager.swift:56-60 | An empty or existing name leaves the map unchanged. Otherwise the name is added with an empty list and every other group is kept. Favorites survives. |
| `FoodStore.Added` | DataManager.swift:63-75 | The group exists afterwards, even if it was absent before. Its list is the old list (or empty) followed by exactly `q` copies of the item. Other groups are unchanged and no group disappears. |
| `FoodStore.AddRaisesSubtotal` | DataManager.swift:63-106 | Adding `q` copies raises the group's subtotal by `q * price` and its count of the item's id by `q`. |
| `FoodStore.Removed` | DataManager.swift:78-90 | An absent group leaves the map unchanged. Otherwise every entry with the id is removed. A non-Favorites group left empty is deleted, and any other group keeps its key with the filtered list. Other groups are unchanged and Favorites survives. |
| `FoodStore.RemovedIdempotent` | DataManager.swift:78-90 | Applying `removeFromGroup` twice gives the same map as applying it once. |
| `FoodStore.Deleted` | DataManager.swift:115-120 | Removing Favorites changes nothing. Any other name is deleted and the remaining groups keep their lists. |
| `FoodStore.Renamed` | DataManager.swift:123-131 | The call changes nothing when the old name is Favorites, the new name is empty or taken, or the old name is absent. Otherwise the new name holds the old list, the old name is gone and the other groups are unchanged. Favorites and its list survive in every case. |
| `FoodStore.Snapshot` | DataManager.swift:154-160 | The order snapshot holds exactly the groups other than Favorites whose list is non-empty, with their lists unchanged. |
| `FoodStore.SnapshotIsOrder` | DataManager.swift:154-163 | A snapshot is either empty, and then every non-Favorites group is empty, or a well-formed order with no Favorites and no empty list. |
| `FoodStore.SnapshotAfterOrder` | DataManager.swift:167-170 | Once the groups are reset to Favorites alone, the next snapshot is empty. |
| `Manager.DataManager.constructor` | DataManager.swift:50-53 | A new store holds the seeded catalog, only an empty Favorites group, no orders, and next id 1, and it satisfies the invariant. |
| `Manager.DataManager.CreateEmptyGroup` | DataManager.swift:56-60 | The new groups are `Created(old groups, name)`. The other fields are unchanged and the invariant is kept. |
| `Manager.DataManager.AddToGroup` | DataManager.swift:63-75 | The group name defaults to Favorites and the quantity to 1. The append loop leaves the groups equal to `Added(old groups, name, item, quantity)`. The other fields are unchanged and the invariant is kept. |
| `Manager.DataManager.RemoveFromGroup` | DataManager.swift:78-90 | The new groups are `Removed(old groups, name, item.id)`. The other fields are unchanged and the invariant is kept. |
| `Manager.DataManager.GetGroups` | DataManager.swift:93-95 | The result is exactly the set of group names, and it always contains Favorites. |
| `Manager.DataManager.GetItemsInGroup` | DataManager.swift:98-100 | The result is the group's list, or empty for an absent group. |
| `Manager.DataManager.CalculateSubtotal` | DataManager.swift:103-106 | The result is the sum of prices over the group's list, and 0 for an absent group. |
| `Manager.DataManager.CalculateTotalWithTax` | DataManager.swift:109-112 | The result is the group's subtotal times 1.13. |
| `Manager.DataManager.RemoveGroup` | DataManager.swift:115-120 | The new groups are `Deleted(old groups, name)`, so Favorites is never removed. The other fields are unchanged. |
| `Manager.DataManager.RenameGroup` | DataManager.swift:123-131 | The new groups are `Renamed(old groups, old name, new name)`. The other fields are unchanged and the invariant is kept. |
| `Manager.DataManager.ToggleFavorite` | DataManager.swift:134-142 | The loop stops at the first match, and the catalog becomes `ToggledFirst(old catalog, id)`. For a known id, whether that id is a favorite flips. Catalog ids stay unique. Groups and orders are unchanged. |
| `Manager.DataManager.GetFavoriteItems` | DataManager.swift:145-147 | An item is in the result exactly when it is a catalog item marked favorite. |
| `Manager.DataManager.PlaceOrder` | DataManager.swift:150-173 | The call returns the old counter and always advances it by one. If the snapshot of the old groups is non-empty, it is stored under the returned id and the groups become Favorites alone, with Favorites' old list. Otherwise groups and history are unchanged. Existing orders are never modified, and the catalog is unchanged. |
| `Manager.DataManager.GetOrderHistory` | DataManager.swift:176-178 | The result is the history, whose ids all lie in `1 .. nextOrderId - 1` and whose entries are well-formed orders. |
| `Manager.DataManager.GetOrder` | DataManager.swift:181-183 | The result is `Some(order)` exactly when the id is in the history, and the order is well formed. |

## Left out

- Change notification: the three Combine subjects and publishers, and the `didSet` that sends the group map on every assignment, are not modelled (DataManager.swift:13-36, 138, 165). After each mutator, the snapshot a subscriber would receive is the new field value that the method's `ensures` states.
- Group-name equality: names are compared as sequences of code points. Swift `String` equality and `Dictionary` lookup use Unicode canonical equivalence. So canonically equivalent names (for example "Café" with a precomposed "é" and "Cafe" followed by a combining accent) are one key in the source but two different keys in the model. This affects the name guards and lookups of `createEmptyGroup`, `addToGroup`, `removeFromGroup`, `getItemsInGroup`, `calculateSubtotal`, `removeGroup` and `renameGroup`.
- The `static let shared` singleton: the model constructs an instance explicitly.
- Floating point: prices are integer cents and tax is exact real arithmetic. The rounding of Swift `Double` and its string formatting are not modelled.
- Integer width: `nextOrderId` is an unbounded integer. Swift `Int` overflow after 2^63 - 1 orders is not modelled.
- Reassignment of the public `foodItems` array by callers outside the store is not modelled. Only `toggleFavorite` changes the catalog.
- The view controllers, table cells, theming constants and scene bootstrap are UI wiring and are not part of this model. Their extra guards and display sorts are not modelled.
