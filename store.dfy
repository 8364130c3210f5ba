/**
 * The TodoList module object: one mutable state record (`index`, the two
 * counters and `items`) plus the active filter name. Each operation changes
 * the fields in place, exactly as the matching function of TodoModel says,
 * and keeps the invariants of TodoModel.Consistent. The `draw()` at the end
 * of an operation is counted in the ghost field `draws`; what it shows is
 * TodoFilters.Visible(items, filter).
 */
module TodoStore {
  import opened Options
  import opened TodoIds
  import opened TodoModel
  import opened TodoFilters

  class TodoList {
    var index: nat
    var itemCount: int
    var itemCountIncompleteOnly: int
    var items: seq<Item>
    /** `props.filter` */
    var filter: string
    /** How many times the operations have asked for a redraw. */
    ghost var draws: nat

    /** `getState()` */
    function State(): (s: Snapshot)
      reads this
      ensures s.index == index && s.items == items
      ensures s.itemCount == itemCount && s.itemCountIncompleteOnly == itemCountIncompleteOnly
    {
      Snapshot(index, itemCount, itemCountIncompleteOnly, items)
    }

    ghost predicate Valid()
      reads this
    {
      Consistent(State())
    }

    /**
     * Start from the saved state when there is one, else from the empty state.
     * The saved state is trusted as it is read back.
     */
    constructor (saved: Option<Snapshot>)
      requires saved.Some? ==> Consistent(saved.value)
      ensures Valid()
      ensures State() == if saved.Some? then saved.value else Empty
      ensures filter == "NONE" && draws == 0
    {
      var s := if saved.Some? then saved.value else Empty;
      index := s.index;
      itemCount := s.itemCount;
      itemCountIncompleteOnly := s.itemCountIncompleteOnly;
      items := s.items;
      filter := "NONE";
      draws := 0;
    }

    /** `findIndex(item => item.id === id)`. */
    method FindIndex(id: string) returns (k: int)
      ensures k == IndexOf(items, id)
      ensures k == -1 <==> !Has(items, id)
      ensures 0 <= k ==> k < |items| && items[k].id == id && forall i :: 0 <= i < k ==> items[i].id != id
    {
      k := 0;
      while k < |items| && items[k].id != id
        invariant 0 <= k <= |items|
        invariant forall i :: 0 <= i < k ==> items[i].id != id
      {
        k := k + 1;
      }
      if k == |items| {
        k := -1;
      }
    }

    /** `setFilter(name)`: store the name verbatim and return the hash written to the address bar. */
    method SetFilter(name: string) returns (hash: string)
      modifies this`filter, this`draws
      ensures filter == name && hash == HashOf(name)
      ensures draws == old(draws) + 1
    {
      filter := name;
      hash := HashOf(name);
      draws := draws + 1;
    }

    /** `onHashChange`: select the filter the hash names; the list then always has a predicate. */
    method OnHashChange(hash: string) returns (newHash: string)
      modifies this`filter, this`draws
      ensures filter == FilterOfHash(hash) && newHash == HashOf(filter)
      ensures Visible(items, filter).Some?
      ensures FilterOfHash(newHash) == filter
      ensures draws == old(draws) + 1
    {
      newHash := SetFilter(FilterOfHash(hash));
      HashRoutingSettles(hash);
    }

    /** `defaultItem()`: a new task whose id takes the counter's value, which then advances. */
    method DefaultItem() returns (item: Item)
      modifies this`index
      ensures index == old(index) + 1
      ensures item == TodoModel.DefaultItem(old(index))
    {
      item := Item(IdOf(index), None, false, false);
      index := index + 1;
    }

    method Add(text: string)
      requires Valid()
      modifies this
      ensures Valid()
      ensures State() == Added(old(State()), text)
      ensures filter == old(filter) && draws == old(draws) + 1
    {
      var item := DefaultItem();
      items := items + [item.(text := Some(text))];
      itemCount := itemCount + 1;
      itemCountIncompleteOnly := itemCountIncompleteOnly + 1;
      AddedConsistent(old(State()), text);
      draws := draws + 1;
    }

    /** `remove(id)`; the source throws when no item has the id, so one must. */
    method Remove(id: string)
      requires Valid() && Has(items, id)
      modifies this
      ensures Valid()
      ensures State() == Removed(old(State()), id)
      ensures filter == old(filter) && draws == old(draws) + 1
    {
      var k := FindIndex(id);
      var item := items[k];
      itemCount := itemCount - 1;
      if !item.isDone {
        itemCountIncompleteOnly := itemCountIncompleteOnly - 1;
      }
      items := items[..k] + items[k + 1..];
      RemovedConsistent(old(State()), id);
      draws := draws + 1;
    }

    /** `toggleComplete(id)`; the source throws when no item has the id, so one must. */
    method ToggleComplete(id: string)
      requires Valid() && Has(items, id)
      modifies this
      ensures Valid()
      ensures State() == Toggled(old(State()), id)
      ensures filter == old(filter) && draws == old(draws) + 1
    {
      var k := FindIndex(id);
      var item := items[k];
      if item.isDone {
        items := items[k := item.(isDone := false)];
        itemCountIncompleteOnly := itemCountIncompleteOnly + 1;
      } else {
        items := items[k := item.(isDone := true)];
        itemCountIncompleteOnly := itemCountIncompleteOnly - 1;
      }
      ToggledConsistent(old(State()), id);
      draws := draws + 1;
    }

    method CompleteAll()
      requires Valid()
      modifies this
      ensures Valid()
      ensures State() == CompletedAll(old(State()))
      ensures filter == old(filter) && draws == old(draws) + 1
    {
      var i := 0;
      while i < |items|
        invariant 0 <= i <= |items| == |old(items)|
        invariant forall j :: 0 <= j < i ==> items[j] == old(items)[j].(isDone := true)
        invariant forall j :: i <= j < |items| ==> items[j] == old(items)[j]
        invariant index == old(index) && itemCount == old(itemCount)
        invariant itemCountIncompleteOnly == old(itemCountIncompleteOnly)
        invariant filter == old(filter) && draws == old(draws)
      {
        items := items[i := items[i].(isDone := true)];
        i := i + 1;
      }
      itemCountIncompleteOnly := 0;
      assert items == MarkAllDone(old(items));
      CompletedAllConsistent(old(State()));
      draws := draws + 1;
    }

    /** The `forEach(item => (item.isEditing = false))` loop shared by `endEdit` and `startEdit`. */
    method ClearEditing()
      modifies this`items
      ensures items == StopEditing(old(items))
    {
      var i := 0;
      while i < |items|
        invariant 0 <= i <= |items| == |old(items)|
        invariant forall j :: 0 <= j < i ==> items[j] == old(items)[j].(isEditing := false)
        invariant forall j :: i <= j < |items| ==> items[j] == old(items)[j]
      {
        items := items[i := items[i].(isEditing := false)];
        i := i + 1;
      }
    }

    /** `endEdit(id, val)`: returns early, without a redraw, when no item has the id. */
    method EndEdit(id: string, val: string)
      requires Valid()
      modifies this
      ensures Valid()
      ensures State() == EditEnded(old(State()), id, val)
      ensures filter == old(filter)
      ensures draws == if Has(old(items), id) then old(draws) + 1 else old(draws)
    {
      var k := FindIndex(id);
      if k == -1 {
        return;
      }
      items := items[k := items[k].(text := Some(val))];
      ClearEditing();
      EditEndedConsistent(old(State()), id, val);
      draws := draws + 1;
    }

    /** `startEdit(id)`; the source throws when no item has the id, so one must. */
    method StartEdit(id: string)
      requires Valid() && Has(items, id)
      modifies this
      ensures Valid()
      ensures State() == EditStarted(old(State()), id)
      ensures filter == old(filter) && draws == old(draws) + 1
    {
      ClearEditing();
      SameIdsSameIndex(old(items), items, id);
      var k := FindIndex(id);
      items := items[k := items[k].(isEditing := true)];
      EditStartedConsistent(old(State()), id);
      draws := draws + 1;
    }
  }
}
