/**
 * A session as a sequence of user events, each running one operation of the
 * TodoList module on the state the previous one left. An operation that
 * throws (an id that no item has) leaves whatever it had already changed:
 * `remove` has decremented `itemCount`, `startEdit` has cleared every
 * editing flag. The event loop goes on after a throw.
 */
module TodoSession {
  import opened Options
  import opened TodoIds
  import opened TodoModel

  datatype Op =
    | Add(text: string)
    | Remove(id: string)
    | ToggleComplete(id: string)
    | CompleteAll
    | StartEdit(id: string)
    | EndEdit(id: string, val: string)

  /** How an operation ended: with its `draw()`, by the early `return` of `endEdit`, or by a TypeError. */
  datatype Exit = Redrawn | ReturnedEarly | Threw

  datatype Outcome = Outcome(state: Snapshot, exit: Exit)

  /**
   * One event. Only `add` moves the id counter. A throw leaves what ran before the
   * failing field access: `itemCount--` in `remove`, the cleared flags in `startEdit`.
   * The early return of `endEdit` leaves the state as it was.
   */
  function Step(s: Snapshot, op: Op): (r: Outcome)
    ensures r.state.index == s.index + (if op.Add? then 1 else 0)
    ensures r.exit == Threw ==>
      && r.state.items == (if op.StartEdit? then StopEditing(s.items) else s.items)
      && r.state.itemCount == s.itemCount - (if op.Remove? then 1 else 0)
      && r.state.itemCountIncompleteOnly == s.itemCountIncompleteOnly
    ensures r.exit == ReturnedEarly ==> r.state == s
  {
    match op
    case Add(text) => Outcome(Added(s, text), Redrawn)
    case Remove(id) =>
      if Has(s.items, id) then Outcome(Removed(s, id), Redrawn)
      else Outcome(s.(itemCount := s.itemCount - 1), Threw)
    case ToggleComplete(id) =>
      if Has(s.items, id) then Outcome(Toggled(s, id), Redrawn)
      else Outcome(s, Threw)
    case CompleteAll => Outcome(CompletedAll(s), Redrawn)
    case StartEdit(id) =>
      if Has(s.items, id) then Outcome(EditStarted(s, id), Redrawn)
      else Outcome(s.(items := StopEditing(s.items)), Threw)
    case EndEdit(id, val) =>
      if Has(s.items, id) then Outcome(EditEnded(s, id, val), Redrawn)
      else Outcome(s, ReturnedEarly)
  }

  function Run(s: Snapshot, ops: seq<Op>): Snapshot
    decreases |ops|
  {
    if ops == [] then s else Run(Step(s, ops[0]).state, ops[1..])
  }

  function AddCount(ops: seq<Op>): nat {
    if ops == [] then 0 else (if ops[0].Add? then 1 else 0) + AddCount(ops[1..])
  }

  /** The ids the `add` events of a run hand out, in order. */
  function Issued(s: Snapshot, ops: seq<Op>): seq<string>
    decreases |ops|
  {
    if ops == [] then []
    else (if ops[0].Add? then [IdOf(s.index)] else []) + Issued(Step(s, ops[0]).state, ops[1..])
  }

  /** No `remove` event of the run names an id that is absent when it runs. */
  predicate NoStaleRemove(s: Snapshot, ops: seq<Op>)
    decreases |ops|
  {
    ops == [] ||
    ((ops[0].Remove? ==> Has(s.items, ops[0].id)) && NoStaleRemove(Step(s, ops[0]).state, ops[1..]))
  }

  predicate IdsSound(s: Snapshot) {
    IdsDistinct(s.items) && IdsIssued(s.items, s.index)
  }

  /** Only a `remove`, `toggleComplete` or `startEdit` naming an absent id throws. */
  lemma StepThrows(s: Snapshot, op: Op)
    ensures Step(s, op).exit == Threw <==>
      (op.Remove? || op.ToggleComplete? || op.StartEdit?) && !Has(s.items, op.id)
    ensures Step(s, op).exit == ReturnedEarly <==> op.EndEdit? && !Has(s.items, op.id)
  {
  }

  /** Every event, thrown or not, keeps ids distinct and issued, and only `add` moves the counter, by one. */
  lemma StepKeepsIds(s: Snapshot, op: Op)
    requires IdsSound(s)
    ensures IdsSound(Step(s, op).state)
    ensures Step(s, op).state.index == s.index + (if op.Add? then 1 else 0)
  {
    match op
    case Add(text) => AddedKeepsIds(s, text);
    case Remove(id) =>
      if Has(s.items, id) {
        RemoveAtKeeps(s.items, IndexOf(s.items, id), s.index);
      }
    case ToggleComplete(id) =>
      if Has(s.items, id) {
        SameIdsKeepIds(s.items, Toggled(s, id).items, s.index);
      }
    case CompleteAll =>
      SameIdsKeepIds(s.items, MarkAllDone(s.items), s.index);
    case StartEdit(id) =>
      var cleared := StopEditing(s.items);
      SameIdsKeepIds(s.items, cleared, s.index);
      if Has(s.items, id) {
        SameIdsSameIndex(s.items, cleared, id);
        var k := IndexOf(cleared, id);
        SameIdsKeepIds(cleared, cleared[k := cleared[k].(isEditing := true)], s.index);
      }
    case EndEdit(id, val) =>
      if Has(s.items, id) {
        var k := IndexOf(s.items, id);
        var named := s.items[k := s.items[k].(text := Some(val))];
        SameIdsKeepIds(s.items, named, s.index);
        SameIdsKeepIds(named, StopEditing(named), s.index);
      }
  }

  /** The id counter never goes down: it ends up raised by exactly the number of `add` events. */
  lemma {:induction false} RunKeepsIds(s: Snapshot, ops: seq<Op>)
    requires IdsSound(s)
    ensures IdsSound(Run(s, ops))
    ensures Run(s, ops).index == s.index + AddCount(ops)
    decreases |ops|
  {
    if ops != [] {
      StepKeepsIds(s, ops[0]);
      RunKeepsIds(Step(s, ops[0]).state, ops[1..]);
    }
  }

  /** The k-th `add` of a run hands out the id of counter value s.index + k. */
  lemma {:induction false} IssuedInSequence(s: Snapshot, ops: seq<Op>)
    ensures |Issued(s, ops)| == AddCount(ops)
    ensures forall k :: 0 <= k < |Issued(s, ops)| ==> Issued(s, ops)[k] == IdOf(s.index + k)
    decreases |ops|
  {
    if ops != [] {
      IssuedInSequence(Step(s, ops[0]).state, ops[1..]);
    }
  }

  /**
   * Ids are never reused: the ids a run hands out are pairwise distinct, none of them
   * was generated before the run, and none is carried by an item of the starting state.
   */
  lemma IdsNeverReused(s: Snapshot, ops: seq<Op>)
    requires IdsSound(s)
    ensures forall i, j :: 0 <= i < j < |Issued(s, ops)| ==> Issued(s, ops)[i] != Issued(s, ops)[j]
    ensures forall k, n: nat :: 0 <= k < |Issued(s, ops)| && n < s.index ==> Issued(s, ops)[k] != IdOf(n)
    ensures forall k :: 0 <= k < |Issued(s, ops)| ==> !Has(s.items, Issued(s, ops)[k])
  {
    var ids := Issued(s, ops);
    IssuedInSequence(s, ops);
    forall i, j | 0 <= i < j < |ids| ensures ids[i] != ids[j] {
      IdOfInjective(s.index + i, s.index + j);
    }
    forall k, n: nat | 0 <= k < |ids| && n < s.index ensures ids[k] != IdOf(n) {
      IdOfInjective(s.index + k, n);
    }
    forall k | 0 <= k < |ids| ensures !Has(s.items, ids[k]) {
      ParseIdOf(s.index + k);
    }
  }

  /** Every event except a `remove` of an absent id keeps the state consistent, throwing ones included. */
  lemma StepKeepsConsistent(s: Snapshot, op: Op)
    requires Consistent(s)
    requires op.Remove? ==> Has(s.items, op.id)
    ensures Consistent(Step(s, op).state)
  {
    match op
    case Add(text) => AddedConsistent(s, text);
    case Remove(id) => RemovedConsistent(s, id);
    case ToggleComplete(id) =>
      if Has(s.items, id) {
        ToggledConsistent(s, id);
      }
    case CompleteAll => CompletedAllConsistent(s);
    case StartEdit(id) =>
      if Has(s.items, id) {
        EditStartedConsistent(s, id);
      } else {
        CountSameDone(s.items, StopEditing(s.items));
      }
    case EndEdit(id, val) => EditEndedConsistent(s, id, val);
  }

  lemma {:induction false} RunKeepsConsistent(s: Snapshot, ops: seq<Op>)
    requires Consistent(s) && NoStaleRemove(s, ops)
    ensures Consistent(Run(s, ops))
    decreases |ops|
  {
    if ops != [] {
      StepKeepsConsistent(s, ops[0]);
      RunKeepsConsistent(Step(s, ops[0]).state, ops[1..]);
    }
  }

  /** A `remove` of an absent id throws after `itemCount--`, so the count no longer matches the items. */
  lemma RemoveAbsentSkewsCount(s: Snapshot, id: string)
    requires Consistent(s) && !Has(s.items, id)
    ensures Step(s, Remove(id)).exit == Threw
    ensures Step(s, Remove(id)).state.items == s.items
    ensures Step(s, Remove(id)).state.itemCount == |s.items| - 1
    ensures !Consistent(Step(s, Remove(id)).state)
  {
  }

  /** From the empty state, adding "buy milk" gives one undone item "todo0" and both counts 1. */
  lemma AddToEmpty()
    ensures Run(Empty, [Add("buy milk")]) ==
      Snapshot(1, 1, 1, [Item("todo0", Some("buy milk"), false, false)])
  {
    var ops := [Add("buy milk")];
    assert Run(Empty, ops) == Run(Added(Empty, "buy milk"), ops[1..]);
    assert ops[1..] == [];
    IdExamples();
    assert Added(Empty, "buy milk").items == [] + [DefaultItem(0).(text := Some("buy milk"))];
  }
}
