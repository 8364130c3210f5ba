# much-todo state module in Dafny

This project models the `TodoList` module of the vanilla JavaScript to-do list
(`vanilla/src/index.js`). The module owns one mutable state record: the id counter
`index`, the counters `itemCount` and `itemCountIncompleteOnly`, and the ordered
`items`. Each item is a record `{id, text, isDone, isEditing}`. The model also covers
the filter registry, the filtering step of `draw`, and the mapping between filter
names and URL hashes done by `setFilter` and `onHashChange`.

Layout:

- `options.dfy` (`Options`): the `Option` datatype. `None` stands for JavaScript's `undefined`.
- `ids.dfy` (`TodoIds`): item ids `"todo" + n`. `ParseId` reads an id back, which makes the generator injective.
- `model.dfy` (`TodoModel`): the item and state records as values, and the invariants as `Consistent`:
  - `itemCount` is the number of items;
  - `itemCountIncompleteOnly` is the number of items not done;
  - ids are distinct, and each was generated from a counter value below `index`;
  - at most one item is being edited.

  It has one function per operation, giving the state the operation leaves
  (`Added`, `Removed`, `Toggled`, `CompletedAll`, `EditStarted`, `EditEnded`),
  and lemmas proving what each operation promises.
- `filters.dfy` (`TodoFilters`): the registry `filters`, `getFilter`, `items.filter(...)` in `draw`, and the name/hash mapping.
- `store.dfy` (`TodoStore`): class `TodoList` with the state fields and `props.filter`.
  - Each operation is a method that changes the fields in place.
  - Each method is proved to leave `State()` equal to the matching `TodoModel` function of the old state, and to keep `Valid()`.
  - The `forEach` loops and `findIndex` are `while` loops with invariants.
  - The ghost field `draws` counts the `draw()` calls.
- `session.dfy` (`TodoSession`): a session as a sequence of events, each running one operation on the state the previous one left.
  - It includes the operations that throw. Per the source, the throwing operations are `remove`, `toggleComplete` and `startEdit` on an id that no item has.
  - It states id uniqueness across any sequence of operations.

Some behaviour of the code differs from what one might expect, and the model follows the code:

- Missing ids:
  - `remove`, `toggleComplete` and `startEdit` do not guard a missing id. `findIndex` gives -1, the item is `undefined`, and the next field access throws. So these methods require the id to be present.
  - `remove` on a missing id has already executed `itemCount--` when it throws (`TodoSession.RemoveAbsentSkewsCount`).
  - `startEdit` on a missing id has already cleared every editing flag when it throws.
  - None of the three redraws in that case.
- `endEdit` on a missing id returns early. It changes nothing, and it does not clear the editing flags.
- A filter name is looked up on the `filters` object and then on its prototype; there is no fallback to NONE.
  - "constructor" and "toString" are inherited functions that return a truthy value for every task, so under them every item is shown (`TodoFilters.VisibleInherited`).
  - A name found on neither has no predicate: `getFilter` returns `undefined`. `Visible` returns `None` for it, since `items.filter(undefined)` throws.
  - Routing from the hash only ever selects one of the three names (`TodoFilters.FilterOfHash`).

## Model

| member | source | states |
|---|---|---|
| TodoIds.Decimal | vanilla/src/index.js:47 | the decimal notation of a counter value is a non-empty string of digits |
| TodoIds.IdOf | vanilla/src/index.js:47 | an id is "todo" followed by at least one digit |
| TodoIds.DecimalRoundTrip | vanilla/src/index.js:47 | reading back the decimal notation of a counter value gives that value |
| TodoIds.ParseIdOf | vanilla/src/index.js:47 | the id built from counter value n parses back to n |
| TodoIds.IdOfInjective | vanilla/src/index.js:47 | two counter values give the same id exactly when they are equal |
| TodoIds.IdExamples | vanilla/src/index.js:47 | counter 0 gives "todo0" and counter 12 gives "todo12" |
| TodoModel.IndexOf | vanilla/src/index.js:67 | findIndex: -1 exactly when no item has the id, else the first position holding it |
| TodoModel.EmptyConsistent | vanilla/src/index.js:15-22 | the fresh state (all zero, no items) satisfies every invariant |
| TodoModel.DefaultItem | vanilla/src/index.js:45-52 | `defaultItem`: a task that is not done and not edited, whose id was issued by counter value `index` and by no earlier value |
| TodoModel.RemoveAt | vanilla/src/index.js:73 | `splice(k, 1)`: one item fewer; items before k stay in place, items after k move down by one |
| TodoModel.MarkAllDone | vanilla/src/index.js:89 | the `forEach` of `completeAll`: same length, every item done, ids, texts and editing flags kept |
| TodoModel.StopEditing | vanilla/src/index.js:101-105 | the `forEach` at the end of `endEdit` and at the start of `startEdit`: same length, no item edited, ids, texts and done flags kept |
| TodoModel.Added | vanilla/src/index.js:45-65 | `add`: one item appended at the end, with id "todo"+old index, the text, not done, not edited; earlier items kept; index and itemCount up by one; the incomplete counter moves exactly as the number of items not done |
| TodoModel.Removed | vanilla/src/index.js:66-75 | `remove` of a present id: one item fewer, itemCount down by one, index kept; the incomplete counter moves exactly as the number of items not done |
| TodoModel.Toggled | vanilla/src/index.js:76-87 | `toggleComplete` of a present id: ids, index and itemCount kept; the incomplete counter moves exactly as the number of items not done |
| TodoModel.CompletedAll | vanilla/src/index.js:88-92 | `completeAll`: every item done, ids, index and itemCount kept, incomplete counter 0 and no item left not done |
| TodoModel.EditStarted | vanilla/src/index.js:104-110 | `startEdit` of a present id: ids, texts, done flags, index and both counters kept; at most one item edited afterwards |
| TodoModel.EditEnded | vanilla/src/index.js:93-103 | `endEdit`: ids, done flags, index and both counters kept; when the id is present no item is edited afterwards |
| TodoModel.AddedIdIsFresh | vanilla/src/index.js:45-51 | the id `add` hands out is carried by no existing item |
| TodoModel.AddedKeepsIds | vanilla/src/index.js:45-65 | after `add`, ids stay distinct and all were generated below the advanced counter |
| TodoModel.AddedConsistent | vanilla/src/index.js:56-65 | `add` keeps itemCount = number of items and itemCountIncompleteOnly = number not done, ids distinct, at most one edited |
| TodoModel.RemoveAtKeeps | vanilla/src/index.js:73 | deleting one item keeps ids distinct and issued, and at most one item edited |
| TodoModel.RemovedConsistent | vanilla/src/index.js:66-75 | `remove` of a present id keeps every invariant |
| TodoModel.RemovedCountsPending | vanilla/src/index.js:66-75 | `remove` of a present id lowers the incomplete counter by one exactly when the removed item was not done, and leaves it otherwise |
| TodoModel.RemovedDropsOnlyThatId | vanilla/src/index.js:66-75 | after `remove(id)` one item fewer, none carries the id, and an item remains exactly when it was there with another id |
| TodoModel.ToggledConsistent | vanilla/src/index.js:76-87 | after `toggleComplete` the incomplete count still equals the number of items not done |
| TodoModel.ToggledFlipsOnlyThatItem | vanilla/src/index.js:76-87 | `toggleComplete(id)` flips isDone on the item with that id, leaves every other item, itemCount and index alone |
| TodoModel.ToggledTwice | vanilla/src/index.js:76-87 | toggling the same id twice restores the whole state |
| TodoModel.CompletedAllConsistent | vanilla/src/index.js:88-92 | `completeAll` keeps every invariant |
| TodoModel.CompletedAllMarksEveryItem | vanilla/src/index.js:88-92 | every item is done afterwards with id, text and editing flag kept, in order; itemCount and index kept; incomplete count 0 |
| TodoModel.CompletedAllIdempotent | vanilla/src/index.js:88-92 | applying `completeAll` twice equals applying it once |
| TodoModel.EditStartedConsistent | vanilla/src/index.js:104-110 | `startEdit` of a present id keeps every invariant |
| TodoModel.EditStartedSingleEditor | vanilla/src/index.js:104-110 | afterwards an item is being edited exactly when it has that id, whatever the flags were; index, counters and every other field unchanged |
| TodoModel.EditEndedConsistent | vanilla/src/index.js:93-103 | `endEdit` keeps every invariant |
| TodoModel.EditEndedEffect | vanilla/src/index.js:93-103 | no item with the id: state unchanged; otherwise that item gets the text, no item is edited, index, counters and every other field unchanged |
| TodoFilters.GetFilter | vanilla/src/index.js:6-27 | a predicate exists exactly for NONE, COMPLETE, INCOMPLETE and the inherited "constructor" and "toString"; NONE and the inherited two pass all, COMPLETE the done, INCOMPLETE the not done |
| TodoFilters.Filter | vanilla/src/index.js:210-212 | `items.filter(p)`: no longer than the list, and every item it keeps passes p |
| TodoFilters.Visible | vanilla/src/index.js:210-212 | the list `draw` shows exists exactly when the active name has a predicate; it is then an order-preserving subsequence of the items, all of which pass |
| TodoFilters.FilterIsOrderedSelection | vanilla/src/index.js:210-212 | the filtered list is an order-preserving subsequence holding each passing item as often as the list and no failing item |
| TodoFilters.VisibleNone | vanilla/src/index.js:7 | under NONE every item is shown, in order |
| TodoFilters.VisibleComplete | vanilla/src/index.js:8 | under COMPLETE exactly the done items are shown, in order |
| TodoFilters.VisibleIncomplete | vanilla/src/index.js:9 | under INCOMPLETE exactly the items not done are shown, in order |
| TodoFilters.VisibleUnknown | vanilla/src/index.js:25-27 | a name found neither on `filters` nor on its prototype leaves no predicate to filter with |
| TodoFilters.VisibleInherited | vanilla/src/index.js:26 | the inherited names "constructor" and "toString" show every item, in order |
| TodoFilters.CountersMatchViews | vanilla/src/index.js:201-212 | in a consistent state the INCOMPLETE view has itemCountIncompleteOnly items and the COMPLETE view the rest |
| TodoFilters.CompletedAllViews | vanilla/src/index.js:88-92 | after `completeAll` every item shows under COMPLETE and none under INCOMPLETE |
| TodoFilters.RemovedKeepsOthersInOrder | vanilla/src/index.js:66-75 | `remove(id)` leaves exactly the items with other ids, in their original order |
| TodoFilters.FilterOfHash | vanilla/src/index.js:115-124 | routing a hash always selects NONE, COMPLETE or INCOMPLETE |
| TodoFilters.StartsWith | vanilla/src/index.js:117-119 | `startsWith`: true exactly when the string is the prefix followed by some rest |
| TodoFilters.HashOf | vanilla/src/index.js:30-40 | the hash is "#/" exactly for names other than COMPLETE and INCOMPLETE, else a "#/filter/" hash |
| TodoFilters.HashRoundTrip | vanilla/src/index.js:30-40 | the hash written for COMPLETE or INCOMPLETE routes back to that name; any other name's hash routes to NONE |
| TodoFilters.HashRoutingSettles | vanilla/src/index.js:115-124 | the hash written after routing routes to the same name, which has a predicate |
| TodoStore.TodoList.constructor | vanilla/src/index.js:11-23 | state is the saved one when there is one, else all zero with no items; filter NONE; invariants hold |
| TodoStore.TodoList.FindIndex | vanilla/src/index.js:67 | -1 exactly when no item has the id, else the first position holding it |
| TodoStore.TodoList.State | vanilla/src/index.js:53-55 | `getState`: the state record itself, carrying the object's counter, both counts and item list |
| TodoStore.TodoList.SetFilter | vanilla/src/index.js:28-44 | stores the name verbatim and writes the hash HashOf(name); one redraw |
| TodoStore.TodoList.OnHashChange | vanilla/src/index.js:115-124 | selects the name the hash routes to, which always has a predicate, and writes a hash that routes back to it |
| TodoStore.TodoList.DefaultItem | vanilla/src/index.js:45-52 | builds an undone, unedited item with no text and id "todo"+old index; index advances by one |
| TodoStore.TodoList.Add | vanilla/src/index.js:56-65 | state becomes Added(old state, text) and stays valid; one redraw |
| TodoStore.TodoList.Remove | vanilla/src/index.js:66-75 | for a present id, state becomes Removed(old state, id) and stays valid; one redraw |
| TodoStore.TodoList.ToggleComplete | vanilla/src/index.js:76-87 | for a present id, state becomes Toggled(old state, id) and stays valid; one redraw |
| TodoStore.TodoList.CompleteAll | vanilla/src/index.js:88-92 | state becomes CompletedAll(old state) and stays valid; one redraw |
| TodoStore.TodoList.ClearEditing | vanilla/src/index.js:105 | every item's editing flag is cleared, nothing else changes |
| TodoStore.TodoList.EndEdit | vanilla/src/index.js:93-103 | state becomes EditEnded(old state, id, val) and stays valid; a redraw only when the id is present |
| TodoStore.TodoList.StartEdit | vanilla/src/index.js:104-110 | for a present id, state becomes EditStarted(old state, id) and stays valid; one redraw |
| TodoSession.Step | vanilla/src/index.js:56-110 | one event: only add moves the counter, by one; a throw leaves the items as they were (remove, toggleComplete) or with every flag cleared (startEdit), and itemCount one lower after remove; endEdit's early return leaves the state unchanged |
| TodoSession.StepThrows | vanilla/src/index.js:66-110 | an event throws exactly when it is remove, toggleComplete or startEdit of an absent id; endEdit of an absent id returns early |
| TodoSession.StepKeepsIds | vanilla/src/index.js:45-110 | every event, thrown or not, keeps ids distinct and issued; only add moves the counter, by one |
| TodoSession.RunKeepsIds | vanilla/src/index.js:47 | over any run the counter rises by exactly the number of adds and ids stay distinct and issued |
| TodoSession.IssuedInSequence | vanilla/src/index.js:47 | the k-th add of a run hands out "todo" + (start index + k) |
| TodoSession.IdsNeverReused | vanilla/src/index.js:45-51 | ids handed out in a run are pairwise distinct, none was generated before, none is on an existing item |
| TodoSession.StepKeepsConsistent | vanilla/src/index.js:56-110 | every event except remove of an absent id keeps the state consistent, throwing ones included |
| TodoSession.RunKeepsConsistent | vanilla/src/index.js:56-110 | a run with no remove of an absent id keeps the state consistent |
| TodoSession.RemoveAbsentSkewsCount | vanilla/src/index.js:66-73 | remove of an absent id throws with items unchanged and itemCount one below the number of items |
| TodoSession.AddToEmpty | vanilla/src/index.js:15-22 | from the fresh state, adding "buy milk" gives one undone item "todo0" and both counts 1 |

## Left out

- DOM construction and event wiring are not modelled: `itemToDomNode`, the listeners, the `init` button handlers and the count labels. They only present the state. `draw()` is a ghost redraw counter; what it shows is `Visible(items, filter)`.
- Persistence through `localStorage` and `JSON.parse`/`JSON.stringify` is not modelled, being foreign calls. The saved state is a constructor parameter whose invariants are required, because the source trusts it without checking.
- Writing `window.location.hash` and the `#filter` control's value is not modelled. `SetFilter` returns the hash it would write.
- The `hashchange` event that the hash write can trigger again is not modelled. `HashRoutingSettles` shows that the second round selects the same name.
- The debug pane and `URLSearchParams` are I/O and not modelled.
- TodoFilters.GetFilter: of the names `filters` inherits from `Object.prototype`, only "constructor" and "toString" have a predicate. The others (`valueOf`, `hasOwnProperty`, `isPrototypeOf`, `__proto__`, ...) count as absent. Under them the source throws once the callback runs, or at once for `__proto__`, but an empty list under a callable one shows nothing without throwing. The visible callers pass only the three names: `onHashChange`, and the `#filter` control.
- TodoFilters.VisibleUnknown: `None` stands for the throw of `items.filter`. For the inherited callables other than the two above, the source throws only when the list is non-empty.
- The object spread in `add` is not modelled: `add` takes the text only, as its one caller passes `{text}`. The blank-text check sits in that caller and is not modelled.
- `index` and the counters are unbounded integers. JavaScript numbers lose integer precision above 2^53, and print in exponent form from 10^21 on. Neither is modelled.
- Item objects are values in a sequence, not shared objects. Nothing in the module holds an item between operations. `draw`'s listeners capture item objects but read only `item.id`, which never changes, so no aliasing is lost.
