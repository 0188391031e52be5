/** `game/ItemRepository.kt` over an in-memory item-definition table keyed by row id. */
module ItemStore {
  import opened Nullable
  import opened Tables

  /** Length of the `name` column of the items table (`varchar(100)`). */
  const ITEM_NAME_MAX: int := 100

  /** An item definition. `weight` is a Kotlin `Double`, carried but never computed with. */
  datatype Item = Item(id: int, name: string, description: Option<string>, equipable: bool, stackable: bool,
                       value: int, highAlchValue: Option<int>, lowAlchValue: Option<int>, weight: real)

  /** The optional arguments of `updateItem`; `None` leaves a field as it was. */
  datatype ItemUpdate = ItemUpdate(name: Option<string>, description: Option<string>, equipable: Option<bool>,
                                   stackable: Option<bool>, value: Option<int>, highAlchValue: Option<int>,
                                   lowAlchValue: Option<int>, weight: Option<real>)

  /** An update that passes no argument at all. */
  const NoChange: ItemUpdate := ItemUpdate(None, None, None, None, None, None, None, None)

  /** The item `updateItem` leaves: each given argument overwrites its field. */
  function PatchItem(item: Item, u: ItemUpdate): (p: Item)
    ensures p.id == item.id
    ensures p.name == Override(u.name, item.name)
    ensures p.description == OverrideNullable(u.description, item.description)
    ensures p.equipable == Override(u.equipable, item.equipable)
    ensures p.stackable == Override(u.stackable, item.stackable)
    ensures p.value == Override(u.value, item.value)
    ensures p.highAlchValue == OverrideNullable(u.highAlchValue, item.highAlchValue)
    ensures p.lowAlchValue == OverrideNullable(u.lowAlchValue, item.lowAlchValue)
    ensures p.weight == Override(u.weight, item.weight)
  {
    Item(item.id, Override(u.name, item.name),
         OverrideNullable(u.description, item.description),
         Override(u.equipable, item.equipable), Override(u.stackable, item.stackable), Override(u.value, item.value),
         OverrideNullable(u.highAlchValue, item.highAlchValue),
         OverrideNullable(u.lowAlchValue, item.lowAlchValue),
         Override(u.weight, item.weight))
  }

  /** An update without arguments changes nothing, applying one twice is the
      same as once, and an optional field that holds a value keeps one: null
      means "leave unchanged", so no update clears it. */
  lemma PatchItemLaws(item: Item, u: ItemUpdate)
    ensures PatchItem(item, NoChange) == item
    ensures PatchItem(PatchItem(item, u), u) == PatchItem(item, u)
    ensures item.description.Some? ==> PatchItem(item, u).description.Some?
    ensures item.highAlchValue.Some? ==> PatchItem(item, u).highAlchValue.Some?
    ensures item.lowAlchValue.Some? ==> PatchItem(item, u).lowAlchValue.Some?
  {
  }

  class ItemRepository {
    /** Whether the database accepts transactions. */
    var available: bool
    var items: map<int, Item>
    var nextItemId: int

    /** Items are stored under their own positive ids, below the next serial
        value, and their names fit the column. */
    ghost predicate Valid()
      reads this
    {
      && nextItemId >= 1
      && (forall k :: k in items ==> 1 <= k < nextItemId && items[k].id == k && |items[k].name| <= ITEM_NAME_MAX)
    }

    constructor ()
      ensures Valid() && available && items == map[]
    {
      available := true;
      items, nextItemId := map[], 1;
    }

    /** Inserts an item definition; description and alchemy values default to
        null, both flags to false, value to 0 and weight to 0.0. Null when the
        database refuses the row. */
    method CreateItem(name: string, description: Option<string> := None, equipable: bool := false,
                      stackable: bool := false, value: int := 0, highAlchValue: Option<int> := None,
                      lowAlchValue: Option<int> := None, weight: real := 0.0) returns (item: Option<Item>)
      requires Valid()
      modifies this`items, this`nextItemId
      ensures Valid()
      ensures item.Some? <==> available && |name| <= ITEM_NAME_MAX
      ensures item.Some? ==> item.value == Item(item.value.id, name, description, equipable, stackable, value,
                                                highAlchValue, lowAlchValue, weight)
      ensures item.Some? ==> item.value.id !in old(items) && items == old(items)[item.value.id := item.value]
      ensures item.Some? ==> FindItemById(item.value.id) == item && item.value in GetAllItems()
      ensures item.None? ==> items == old(items)
    {
      item := None;
      if available && |name| <= ITEM_NAME_MAX {
        var row := Item(nextItemId, name, description, equipable, stackable, value, highAlchValue, lowAlchValue, weight);
        items := items[nextItemId := row];
        nextItemId := nextItemId + 1;
        item := Some(row);
        assert row.id in items;
      }
    }

    /** The item with that id, or null. */
    function FindItemById(id: int): (item: Option<Item>)
      reads this
      ensures item.Some? <==> available && id in items
      ensures item.Some? ==> item.value == items[id]
    {
      if available && id in items then Some(items[id]) else None
    }

    /** Every stored item, in id order. */
    function GetAllItems(): (all: seq<Item>)
      requires Valid()
      reads this
      ensures forall item :: item in all <==> available && item in items.Values
      ensures forall i, j :: 0 <= i < j < |all| ==> all[i].id < all[j].id
    {
      if !available then [] else Select(items, (item: Item) => true, nextItemId)
    }

    /** Overwrites each given field of an existing item, one by one; false,
        with nothing changed, when the id is missing. */
    method UpdateItem(id: int, u: ItemUpdate) returns (ok: bool)
      requires Valid()
      modifies this`items
      ensures Valid()
      ensures ok <==> available && id in old(items) && (u.name.None? || |u.name.value| <= ITEM_NAME_MAX)
      ensures ok ==> items == old(items)[id := PatchItem(old(items)[id], u)]
      ensures !ok ==> items == old(items)
    {
      ok := false;
      if !available || id !in items || (u.name.Some? && |u.name.value| > ITEM_NAME_MAX) {
        return;
      }
      var item := items[id];
      item := item.(name := Override(u.name, item.name));
      item := item.(description := OverrideNullable(u.description, item.description));
      item := item.(equipable := Override(u.equipable, item.equipable));
      item := item.(stackable := Override(u.stackable, item.stackable));
      item := item.(value := Override(u.value, item.value));
      item := item.(highAlchValue := OverrideNullable(u.highAlchValue, item.highAlchValue));
      item := item.(lowAlchValue := OverrideNullable(u.lowAlchValue, item.lowAlchValue));
      item := item.(weight := Override(u.weight, item.weight));
      items := items[id := item];
      ok := true;
    }

    /** Deletes an item; false when the id is missing. */
    method DeleteItem(id: int) returns (ok: bool)
      requires Valid()
      modifies this`items
      ensures Valid()
      ensures ok <==> available && id in old(items)
      ensures ok ==> items == old(items) - {id} && FindItemById(id).None?
      ensures !ok ==> items == old(items)
    {
      ok := false;
      if available && id in items {
        items := items - {id};
        ok := true;
      }
    }
  }
}
