/**
 * The list state of the TodoList module as values: the task record, the
 * state record (`index`, `itemCount`, `itemCountIncompleteOnly`, `items`),
 * the invariants the two counters and the ids are meant to keep, and one
 * function per mutating operation giving the state it leaves behind.
 * The class in TodoStore is proved to change its fields exactly as these
 * functions say; the lemmas here prove what each operation promises.
 */
module TodoModel {
  import opened Options
  import opened TodoIds

  /** A task; `text` is None while it is still `undefined`. */
  datatype Item = Item(id: string, text: Option<string>, isDone: bool, isEditing: bool)

  /** The persisted `state` record. */
  datatype Snapshot = Snapshot(index: nat, itemCount: int, itemCountIncompleteOnly: int, items: seq<Item>)

  /** The state used when nothing was saved before. */
  const Empty: Snapshot := Snapshot(0, 0, 0, [])

  // ---------------------------------------------------------------------
  // Counting incomplete items

  function Pending(x: Item): nat {
    if x.isDone then 0 else 1
  }

  /** The number of items that are not done. */
  function CountIncomplete(xs: seq<Item>): nat {
    if xs == [] then 0 else Pending(xs[0]) + CountIncomplete(xs[1..])
  }

  lemma {:induction false} CountAppend(a: seq<Item>, b: seq<Item>)
    ensures CountIncomplete(a + b) == CountIncomplete(a) + CountIncomplete(b)
  {
    if a != [] {
      assert (a + b)[0] == a[0];
      assert (a + b)[1..] == a[1..] + b;
      CountAppend(a[1..], b);
    } else {
      assert a + b == b;
    }
  }

  lemma CountSingle(x: Item)
    ensures CountIncomplete([x]) == Pending(x)
  {
  }

  /** Replacing one item moves the count by the difference of the two items' contributions. */
  lemma CountUpdate(xs: seq<Item>, k: nat, x: Item)
    requires k < |xs|
    ensures CountIncomplete(xs[k := x]) == CountIncomplete(xs) - Pending(xs[k]) + Pending(x)
  {
    assert xs == xs[..k] + ([xs[k]] + xs[k + 1..]);
    assert xs[k := x] == xs[..k] + ([x] + xs[k + 1..]);
    CountAppend(xs[..k], [xs[k]] + xs[k + 1..]);
    CountAppend(xs[..k], [x] + xs[k + 1..]);
    CountAppend([xs[k]], xs[k + 1..]);
    CountAppend([x], xs[k + 1..]);
    CountSingle(xs[k]);
    CountSingle(x);
  }

  /** Removing one item lowers the count by that item's contribution. */
  lemma CountRemoveAt(xs: seq<Item>, k: nat)
    requires k < |xs|
    ensures CountIncomplete(RemoveAt(xs, k)) == CountIncomplete(xs) - Pending(xs[k])
  {
    var front, back := xs[..k], xs[k + 1..];
    assert xs == front + ([xs[k]] + back);
    CountAppend(front, [xs[k]] + back);
    CountAppend([xs[k]], back);
    CountAppend(front, back);
    CountSingle(xs[k]);
    assert RemoveAt(xs, k) == front + back;
  }

  /** Two lists whose done flags agree position by position have the same count. */
  lemma {:induction false} CountSameDone(a: seq<Item>, b: seq<Item>)
    requires |a| == |b|
    requires forall i :: 0 <= i < |a| ==> a[i].isDone == b[i].isDone
    ensures CountIncomplete(a) == CountIncomplete(b)
  {
    if a != [] {
      CountSameDone(a[1..], b[1..]);
    }
  }

  lemma {:induction false} CountAllDone(xs: seq<Item>)
    requires forall i :: 0 <= i < |xs| ==> xs[i].isDone
    ensures CountIncomplete(xs) == 0
  {
    if xs != [] {
      CountAllDone(xs[1..]);
    }
  }

  // ---------------------------------------------------------------------
  // Looking items up by id (Array.prototype.findIndex)

  predicate Has(xs: seq<Item>, id: string) {
    exists i :: 0 <= i < |xs| && xs[i].id == id
  }

  /** The position of the first item with this id, or -1 when there is none. */
  function IndexOf(xs: seq<Item>, id: string): (k: int)
    ensures -1 <= k < |xs|
    ensures k == -1 <==> !Has(xs, id)
    ensures 0 <= k ==> xs[k].id == id && forall i :: 0 <= i < k ==> xs[i].id != id
  {
    if xs == [] then -1
    else if xs[0].id == id then 0
    else
      var k := IndexOf(xs[1..], id);
      assert forall i :: 1 <= i < |xs| ==> xs[i] == xs[1..][i - 1];
      if k == -1 then -1 else k + 1
  }

  /** How far the incomplete counter is off the number of items not done; 0 in a consistent state. */
  function Drift(s: Snapshot): int {
    s.itemCountIncompleteOnly - CountIncomplete(s.items)
  }

  /** Ids agree position by position. */
  predicate SameIds(a: seq<Item>, b: seq<Item>) {
    |a| == |b| && forall i :: 0 <= i < |a| ==> a[i].id == b[i].id
  }

  lemma SameIdsSameIndex(a: seq<Item>, b: seq<Item>, id: string)
    requires SameIds(a, b)
    ensures Has(a, id) == Has(b, id)
    ensures IndexOf(a, id) == IndexOf(b, id)
  {
  }

  // ---------------------------------------------------------------------
  // The invariants of the state record

  predicate IdsDistinct(xs: seq<Item>) {
    forall i, j :: 0 <= i < j < |xs| ==> xs[i].id != xs[j].id
  }

  /** The id was generated from a counter value below `index`. */
  predicate IssuedBefore(id: string, index: nat) {
    match ParseId(id)
    case Some(n) => n < index && IdOf(n) == id
    case None => false
  }

  predicate IdsIssued(xs: seq<Item>, index: nat) {
    forall i :: 0 <= i < |xs| ==> IssuedBefore(xs[i].id, index)
  }

  predicate AtMostOneEditing(xs: seq<Item>) {
    forall i, j :: 0 <= i < |xs| && 0 <= j < |xs| && xs[i].isEditing && xs[j].isEditing ==> i == j
  }

  /** Both counters agree with the items, ids are distinct and issued, at most one item is being edited. */
  predicate Consistent(s: Snapshot) {
    && s.itemCount == |s.items|
    && s.itemCountIncompleteOnly == CountIncomplete(s.items)
    && IdsDistinct(s.items)
    && IdsIssued(s.items, s.index)
    && AtMostOneEditing(s.items)
  }

  lemma EmptyConsistent()
    ensures Consistent(Empty)
  {
  }

  /** Lists whose ids agree position by position are alike for the id invariants. */
  lemma SameIdsKeepIds(a: seq<Item>, b: seq<Item>, index: nat)
    requires SameIds(a, b)
    ensures IdsDistinct(a) == IdsDistinct(b)
    ensures IdsIssued(a, index) == IdsIssued(b, index)
  {
  }

  /** With distinct ids, the item carrying `id` is the one IndexOf finds. */
  lemma OnlyMatch(xs: seq<Item>, id: string, i: int)
    requires IdsDistinct(xs) && 0 <= i < |xs|
    ensures xs[i].id == id <==> i == IndexOf(xs, id)
  {
  }

  // ---------------------------------------------------------------------
  // The operations, as functions of the state

  /** `defaultItem`: a fresh, undone, not-edited task with no text yet. */
  function DefaultItem(index: nat): (x: Item)
    ensures Pending(x) == 1 && !x.isEditing
    ensures IssuedBefore(x.id, index + 1) && !IssuedBefore(x.id, index)
  {
    ParseIdOf(index);
    Item(IdOf(index), None, false, false)
  }

  /** `add({text})`: append a default item carrying the text; bump the counter and both counts. */
  function Added(s: Snapshot, text: string): (r: Snapshot)
    ensures r.index == s.index + 1 && r.itemCount == s.itemCount + 1
    ensures |r.items| == |s.items| + 1 && r.items[..|s.items|] == s.items
    ensures var x := r.items[|s.items|];
      x.id == IdOf(s.index) && x.text == Some(text) && !x.isDone && !x.isEditing
    ensures Drift(r) == Drift(s)
  {
    var x := DefaultItem(s.index).(text := Some(text));
    CountAppend(s.items, [x]);
    CountSingle(x);
    Snapshot(s.index + 1, s.itemCount + 1, s.itemCountIncompleteOnly + 1, s.items + [x])
  }

  /** `splice(k, 1)`. */
  function RemoveAt(xs: seq<Item>, k: nat): (r: seq<Item>)
    requires k < |xs|
    ensures |r| == |xs| - 1
    ensures forall i :: 0 <= i < |r| ==> r[i] == if i < k then xs[i] else xs[i + 1]
  {
    xs[..k] + xs[k + 1..]
  }

  /** `remove(id)`, for an id that is present. */
  function Removed(s: Snapshot, id: string): (r: Snapshot)
    requires Has(s.items, id)
    ensures r.index == s.index && r.itemCount == s.itemCount - 1 && |r.items| == |s.items| - 1
    ensures Drift(r) == Drift(s)
  {
    var k := IndexOf(s.items, id);
    CountRemoveAt(s.items, k);
    s.(itemCount := s.itemCount - 1,
       itemCountIncompleteOnly := if !s.items[k].isDone then s.itemCountIncompleteOnly - 1 else s.itemCountIncompleteOnly,
       items := RemoveAt(s.items, k))
  }

  /** `toggleComplete(id)`, for an id that is present. */
  function Toggled(s: Snapshot, id: string): (r: Snapshot)
    requires Has(s.items, id)
    ensures r.index == s.index && r.itemCount == s.itemCount && SameIds(r.items, s.items)
    ensures Drift(r) == Drift(s)
  {
    var k := IndexOf(s.items, id);
    var x := s.items[k];
    CountUpdate(s.items, k, x.(isDone := !x.isDone));
    if x.isDone then
      s.(items := s.items[k := x.(isDone := false)], itemCountIncompleteOnly := s.itemCountIncompleteOnly + 1)
    else
      s.(items := s.items[k := x.(isDone := true)], itemCountIncompleteOnly := s.itemCountIncompleteOnly - 1)
  }

  function MarkAllDone(xs: seq<Item>): (r: seq<Item>)
    ensures |r| == |xs|
    ensures forall i :: 0 <= i < |r| ==>
      r[i].isDone && r[i].id == xs[i].id && r[i].text == xs[i].text && r[i].isEditing == xs[i].isEditing
  {
    seq(|xs|, i requires 0 <= i < |xs| => xs[i].(isDone := true))
  }

  /** `completeAll()`. */
  function CompletedAll(s: Snapshot): (r: Snapshot)
    ensures r.index == s.index && r.itemCount == s.itemCount && SameIds(r.items, s.items)
    ensures forall i :: 0 <= i < |r.items| ==> r.items[i].isDone
    ensures r.itemCountIncompleteOnly == CountIncomplete(r.items) == 0
  {
    CountAllDone(MarkAllDone(s.items));
    s.(items := MarkAllDone(s.items), itemCountIncompleteOnly := 0)
  }

  function StopEditing(xs: seq<Item>): (r: seq<Item>)
    ensures |r| == |xs| && AtMostOneEditing(r)
    ensures forall i :: 0 <= i < |r| ==>
      !r[i].isEditing && r[i].id == xs[i].id && r[i].text == xs[i].text && r[i].isDone == xs[i].isDone
  {
    seq(|xs|, i requires 0 <= i < |xs| => xs[i].(isEditing := false))
  }

  /** `startEdit(id)`, for an id that is present: clear every flag, then set the found item's. */
  function EditStarted(s: Snapshot, id: string): (r: Snapshot)
    requires Has(s.items, id)
    ensures r.index == s.index && r.itemCount == s.itemCount
    ensures r.itemCountIncompleteOnly == s.itemCountIncompleteOnly
    ensures SameIds(r.items, s.items) && CountIncomplete(r.items) == CountIncomplete(s.items)
    ensures AtMostOneEditing(r.items)
    ensures forall i :: 0 <= i < |r.items| ==> r.items[i].isDone == s.items[i].isDone && r.items[i].text == s.items[i].text
  {
    var cleared := StopEditing(s.items);
    SameIdsSameIndex(s.items, cleared, id);
    var k := IndexOf(cleared, id);
    var edited := cleared[k := cleared[k].(isEditing := true)];
    CountSameDone(s.items, edited);
    s.(items := edited)
  }

  /** `endEdit(id, val)`: nothing when the id is absent, else set the text and clear every flag. */
  function EditEnded(s: Snapshot, id: string, val: string): (r: Snapshot)
    ensures r.index == s.index && r.itemCount == s.itemCount
    ensures r.itemCountIncompleteOnly == s.itemCountIncompleteOnly
    ensures SameIds(r.items, s.items) && CountIncomplete(r.items) == CountIncomplete(s.items)
    ensures Has(s.items, id) ==> forall i :: 0 <= i < |r.items| ==> !r.items[i].isEditing
    ensures forall i :: 0 <= i < |r.items| ==> r.items[i].isDone == s.items[i].isDone
  {
    if !Has(s.items, id) then s
    else
      var k := IndexOf(s.items, id);
      var ended := StopEditing(s.items[k := s.items[k].(text := Some(val))]);
      CountSameDone(s.items, ended);
      s.(items := ended)
  }

  // ---------------------------------------------------------------------
  // What each operation promises

  /** The id `add` hands out is not carried by any item already in a consistent state. */
  lemma AddedIdIsFresh(s: Snapshot)
    requires IdsIssued(s.items, s.index)
    ensures !Has(s.items, IdOf(s.index))
  {
    ParseIdOf(s.index);
  }

  /** Appending the item `add` builds keeps ids distinct and issued below the advanced counter. */
  lemma AddedKeepsIds(s: Snapshot, text: string)
    requires IdsDistinct(s.items) && IdsIssued(s.items, s.index)
    ensures IdsDistinct(Added(s, text).items) && IdsIssued(Added(s, text).items, Added(s, text).index)
  {
    var r := Added(s, text);
    ParseIdOf(s.index);
    AddedIdIsFresh(s);
    forall i, j | 0 <= i < j < |r.items| ensures r.items[i].id != r.items[j].id {
      if j == |s.items| {
        assert r.items[i] == s.items[i];
      }
    }
  }

  lemma AddedConsistent(s: Snapshot, text: string)
    requires Consistent(s)
    ensures Consistent(Added(s, text))
  {
    var x := DefaultItem(s.index).(text := Some(text));
    CountAppend(s.items, [x]);
    CountSingle(x);
    AddedKeepsIds(s, text);
  }

  /** Deleting one item keeps ids distinct and issued, and at most one item edited. */
  lemma RemoveAtKeeps(xs: seq<Item>, k: nat, index: nat)
    requires k < |xs|
    ensures IdsDistinct(xs) ==> IdsDistinct(RemoveAt(xs, k))
    ensures IdsIssued(xs, index) ==> IdsIssued(RemoveAt(xs, k), index)
    ensures AtMostOneEditing(xs) ==> AtMostOneEditing(RemoveAt(xs, k))
  {
  }

  lemma RemovedConsistent(s: Snapshot, id: string)
    requires Consistent(s) && Has(s.items, id)
    ensures Consistent(Removed(s, id))
  {
  }

  /** The incomplete count drops by one exactly when the removed item was not done. */
  lemma RemovedCountsPending(s: Snapshot, id: string)
    requires IdsDistinct(s.items) && Has(s.items, id)
    ensures forall x :: x in s.items && x.id == id ==>
      Removed(s, id).itemCountIncompleteOnly == s.itemCountIncompleteOnly - Pending(x)
  {
    forall x | x in s.items && x.id == id
      ensures Removed(s, id).itemCountIncompleteOnly == s.itemCountIncompleteOnly - Pending(x)
    {
      var i :| 0 <= i < |s.items| && s.items[i] == x;
      OnlyMatch(s.items, id, i);
    }
  }

  /** After `remove(id)` no item carries that id, and exactly the other items remain. */
  lemma RemovedDropsOnlyThatId(s: Snapshot, id: string)
    requires IdsDistinct(s.items) && Has(s.items, id)
    ensures |Removed(s, id).items| == |s.items| - 1
    ensures !Has(Removed(s, id).items, id)
    ensures forall x :: x in Removed(s, id).items <==> x in s.items && x.id != id
  {
  }

  lemma ToggledConsistent(s: Snapshot, id: string)
    requires Consistent(s) && Has(s.items, id)
    ensures Consistent(Toggled(s, id))
  {
  }

  /** `toggleComplete(id)` flips the done flag of the item with that id and changes no other item. */
  lemma ToggledFlipsOnlyThatItem(s: Snapshot, id: string)
    requires IdsDistinct(s.items) && Has(s.items, id)
    ensures |Toggled(s, id).items| == |s.items|
    ensures forall i :: 0 <= i < |s.items| ==>
      Toggled(s, id).items[i] == if s.items[i].id == id then s.items[i].(isDone := !s.items[i].isDone) else s.items[i]
    ensures Toggled(s, id).itemCount == s.itemCount
    ensures Toggled(s, id).index == s.index
  {
  }

  /** Toggling the same item twice restores the state. */
  lemma ToggledTwice(s: Snapshot, id: string)
    requires Has(s.items, id)
    ensures Has(Toggled(s, id).items, id)
    ensures Toggled(Toggled(s, id), id) == s
  {
  }

  lemma CompletedAllConsistent(s: Snapshot)
    requires Consistent(s)
    ensures Consistent(CompletedAll(s))
  {
  }

  /** `completeAll()` marks every item done and changes nothing else about it. */
  lemma CompletedAllMarksEveryItem(s: Snapshot)
    ensures |CompletedAll(s).items| == |s.items|
    ensures forall i :: 0 <= i < |s.items| ==>
      var x := CompletedAll(s).items[i];
      x.isDone && x.id == s.items[i].id && x.text == s.items[i].text && x.isEditing == s.items[i].isEditing
    ensures CompletedAll(s).itemCountIncompleteOnly == 0 == CountIncomplete(CompletedAll(s).items)
    ensures CompletedAll(s).itemCount == s.itemCount && CompletedAll(s).index == s.index
  {
  }

  lemma CompletedAllIdempotent(s: Snapshot)
    ensures CompletedAll(CompletedAll(s)) == CompletedAll(s)
  {
  }

  lemma EditStartedConsistent(s: Snapshot, id: string)
    requires Consistent(s) && Has(s.items, id)
    ensures Consistent(EditStarted(s, id))
  {
  }

  /** After `startEdit(id)` the item with that id, and only it, is being edited, whatever the flags were. */
  lemma EditStartedSingleEditor(s: Snapshot, id: string)
    requires IdsDistinct(s.items) && Has(s.items, id)
    ensures EditStarted(s, id).index == s.index && EditStarted(s, id).itemCount == s.itemCount
    ensures EditStarted(s, id).itemCountIncompleteOnly == s.itemCountIncompleteOnly
    ensures |EditStarted(s, id).items| == |s.items|
    ensures forall i :: 0 <= i < |s.items| ==>
      EditStarted(s, id).items[i] == s.items[i].(isEditing := s.items[i].id == id)
  {
  }

  lemma EditEndedConsistent(s: Snapshot, id: string, val: string)
    requires Consistent(s)
    ensures Consistent(EditEnded(s, id, val))
  {
  }

  /**
   * `endEdit(id, val)` leaves the state alone when no item has the id; otherwise
   * the item with the id gets the text, every item stops being edited, nothing else changes.
   */
  lemma EditEndedEffect(s: Snapshot, id: string, val: string)
    requires IdsDistinct(s.items)
    ensures !Has(s.items, id) ==> EditEnded(s, id, val) == s
    ensures EditEnded(s, id, val).index == s.index && EditEnded(s, id, val).itemCount == s.itemCount
    ensures EditEnded(s, id, val).itemCountIncompleteOnly == s.itemCountIncompleteOnly
    ensures Has(s.items, id) ==>
      && |EditEnded(s, id, val).items| == |s.items|
      && forall i :: 0 <= i < |s.items| ==>
           EditEnded(s, id, val).items[i]
           == s.items[i].(text := if s.items[i].id == id then Some(val) else s.items[i].text, isEditing := false)
  {
  }
}
