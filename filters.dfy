/**
 * The named filters, the filtering step of `draw`, and the mapping between
 * filter names and URL hashes used by `setFilter` and `onHashChange`.
 */
module TodoFilters {
  import opened Options
  import opened TodoModel

  /** The `filters` object: name to predicate over a task. */
  const Registry: map<string, Item -> bool> := map[
    "NONE" := (x: Item) => true,
    "COMPLETE" := (x: Item) => x.isDone == true,
    "INCOMPLETE" := (x: Item) => x.isDone == false
  ]

  /**
   * The functions the `filters` object inherits from `Object.prototype` that,
   * called as a filter callback on a task, return a truthy value: `Object(item)`
   * is the task itself and `toString` returns "[object Undefined]".
   */
  const Inherited: map<string, Item -> bool> := map[
    "constructor" := (x: Item) => true,
    "toString" := (x: Item) => true
  ]

  /**
   * `getFilter()`: `filters[name]`, looked up on the object and then on its
   * prototype; None for a name found on neither (JavaScript's `undefined`).
   */
  function GetFilter(name: string): (p: Option<Item -> bool>)
    ensures p.Some? <==>
      name == "NONE" || name == "COMPLETE" || name == "INCOMPLETE" || name == "constructor" || name == "toString"
    ensures name == "NONE" ==> p.Some? && forall x :: p.value(x)
    ensures name == "COMPLETE" ==> p.Some? && forall x :: p.value(x) == x.isDone
    ensures name == "INCOMPLETE" ==> p.Some? && forall x :: p.value(x) == !x.isDone
    ensures name == "constructor" || name == "toString" ==> p.Some? && forall x :: p.value(x)
  {
    if name in Registry then Some(Registry[name])
    else if name in Inherited then Some(Inherited[name])
    else None
  }

  /** `Array.prototype.filter`: the items that pass, in their original order. */
  function Filter(xs: seq<Item>, p: Item -> bool): (r: seq<Item>)
    ensures |r| <= |xs|
    ensures forall i :: 0 <= i < |r| ==> p(r[i])
  {
    if xs == [] then []
    else if p(xs[0]) then [xs[0]] + Filter(xs[1..], p)
    else Filter(xs[1..], p)
  }

  /** `a` can be obtained from `b` by deleting elements, order kept. */
  predicate IsSubsequence(a: seq<Item>, b: seq<Item>)
    decreases |b|
  {
    if a == [] then true
    else if b == [] then false
    else (a[0] == b[0] && IsSubsequence(a[1..], b[1..])) || IsSubsequence(a, b[1..])
  }

  /**
   * What `draw` puts on screen: the items that pass the active filter; None when
   * the active name has no predicate, where `items.filter(undefined)` throws.
   */
  function Visible(items: seq<Item>, name: string): (v: Option<seq<Item>>)
    ensures v.Some? <==> GetFilter(name).Some?
    ensures v.Some? ==> IsSubsequence(v.value, items)
    ensures v.Some? ==> forall i :: 0 <= i < |v.value| ==> GetFilter(name).value(v.value[i])
  {
    match GetFilter(name)
    case Some(p) =>
      FilterIsOrderedSelection(items, p);
      Some(Filter(items, p))
    case None => None
  }

  /**
   * The filtered list is an order-preserving subsequence holding each passing
   * item as often as the list does and no failing item.
   */
  lemma {:induction false} FilterIsOrderedSelection(xs: seq<Item>, p: Item -> bool)
    ensures IsSubsequence(Filter(xs, p), xs)
    ensures forall x :: multiset(Filter(xs, p))[x] == if p(x) then multiset(xs)[x] else 0
  {
    if xs != [] {
      FilterIsOrderedSelection(xs[1..], p);
      assert xs == [xs[0]] + xs[1..];
      var r := Filter(xs, p);
      if p(xs[0]) {
        assert r[1..] == Filter(xs[1..], p);
      } else {
        if r != [] {
          assert IsSubsequence(r, xs[1..]);
        }
      }
    }
  }

  lemma {:induction false} FilterAllPass(xs: seq<Item>, p: Item -> bool)
    requires forall i :: 0 <= i < |xs| ==> p(xs[i])
    ensures Filter(xs, p) == xs
  {
    if xs != [] {
      FilterAllPass(xs[1..], p);
    }
  }

  lemma {:induction false} FilterNonePass(xs: seq<Item>, p: Item -> bool)
    requires forall i :: 0 <= i < |xs| ==> !p(xs[i])
    ensures Filter(xs, p) == []
  {
    if xs != [] {
      FilterNonePass(xs[1..], p);
    }
  }

  /** The NONE filter shows every item. */
  lemma VisibleNone(items: seq<Item>)
    ensures Visible(items, "NONE") == Some(items)
  {
    FilterAllPass(items, Registry["NONE"]);
  }

  /** The COMPLETE filter shows exactly the done items, in order. */
  lemma VisibleComplete(items: seq<Item>)
    ensures Visible(items, "COMPLETE").Some?
    ensures var v := Visible(items, "COMPLETE").value;
      && IsSubsequence(v, items)
      && (forall i :: 0 <= i < |v| ==> v[i].isDone)
      && forall x :: multiset(v)[x] == if x.isDone then multiset(items)[x] else 0
  {
    FilterIsOrderedSelection(items, Registry["COMPLETE"]);
  }

  /** The INCOMPLETE filter shows exactly the items not done, in order. */
  lemma VisibleIncomplete(items: seq<Item>)
    ensures Visible(items, "INCOMPLETE").Some?
    ensures var v := Visible(items, "INCOMPLETE").value;
      && IsSubsequence(v, items)
      && (forall i :: 0 <= i < |v| ==> !v[i].isDone)
      && forall x :: multiset(v)[x] == if !x.isDone then multiset(items)[x] else 0
  {
    FilterIsOrderedSelection(items, Registry["INCOMPLETE"]);
  }

  /** A name found neither on `filters` nor on its prototype leaves `draw` without a predicate. */
  lemma VisibleUnknown(items: seq<Item>, name: string)
    requires name != "NONE" && name != "COMPLETE" && name != "INCOMPLETE"
    requires name != "constructor" && name != "toString"
    ensures Visible(items, name) == None
  {
  }

  /** The inherited names "constructor" and "toString" show every item, like NONE. */
  lemma VisibleInherited(items: seq<Item>)
    ensures Visible(items, "constructor") == Some(items)
    ensures Visible(items, "toString") == Some(items)
  {
    FilterAllPass(items, Inherited["constructor"]);
    FilterAllPass(items, Inherited["toString"]);
  }

  lemma {:induction false} FilterCountsIncomplete(xs: seq<Item>)
    ensures |Filter(xs, Registry["INCOMPLETE"])| == CountIncomplete(xs)
  {
    if xs != [] {
      FilterCountsIncomplete(xs[1..]);
    }
  }

  lemma {:induction false} FilterSplitsByDone(xs: seq<Item>)
    ensures |Filter(xs, Registry["COMPLETE"])| + |Filter(xs, Registry["INCOMPLETE"])| == |xs|
  {
    if xs != [] {
      FilterSplitsByDone(xs[1..]);
    }
  }

  /** In a consistent state the two counters are the lengths of the INCOMPLETE and COMPLETE views. */
  lemma CountersMatchViews(s: Snapshot)
    requires Consistent(s)
    ensures |Visible(s.items, "INCOMPLETE").value| == s.itemCountIncompleteOnly
    ensures |Visible(s.items, "COMPLETE").value| == s.itemCount - s.itemCountIncompleteOnly
  {
    FilterCountsIncomplete(s.items);
    FilterSplitsByDone(s.items);
  }

  /** After `completeAll()` every item is in the COMPLETE view and none in the INCOMPLETE view. */
  lemma CompletedAllViews(s: Snapshot)
    ensures Visible(CompletedAll(s).items, "COMPLETE") == Some(CompletedAll(s).items)
    ensures Visible(CompletedAll(s).items, "INCOMPLETE") == Some([])
  {
    FilterAllPass(CompletedAll(s).items, Registry["COMPLETE"]);
    FilterNonePass(CompletedAll(s).items, Registry["INCOMPLETE"]);
  }

  /** Removing an item at k whose predicate alone fails is filtering by that predicate. */
  lemma {:induction false} RemoveAtIsFilter(xs: seq<Item>, k: nat, p: Item -> bool)
    requires k < |xs| && !p(xs[k])
    requires forall i :: 0 <= i < |xs| && i != k ==> p(xs[i])
    ensures RemoveAt(xs, k) == Filter(xs, p)
  {
    if k == 0 {
      FilterAllPass(xs[1..], p);
    } else {
      RemoveAtIsFilter(xs[1..], k - 1, p);
      assert RemoveAt(xs, k) == [xs[0]] + RemoveAt(xs[1..], k - 1);
    }
  }

  /** `remove(id)` leaves exactly the items with other ids, in their original order. */
  lemma RemovedKeepsOthersInOrder(s: Snapshot, id: string)
    requires IdsDistinct(s.items) && Has(s.items, id)
    ensures Removed(s, id).items == Filter(s.items, (x: Item) => x.id != id)
  {
    var k := IndexOf(s.items, id);
    forall i | 0 <= i < |s.items| {
      OnlyMatch(s.items, id, i);
    }
    RemoveAtIsFilter(s.items, k, (x: Item) => x.id != id);
  }

  // ---------------------------------------------------------------------
  // Filter names and URL hashes

  /** The hash `setFilter(name)` writes to the address bar. */
  function HashOf(name: string): (hash: string)
    ensures hash == "#/" <==> name != "COMPLETE" && name != "INCOMPLETE"
    ensures hash != "#/" ==> StartsWith(hash, "#/filter/")
  {
    if name == "COMPLETE" then "#/filter/complete"
    else if name == "INCOMPLETE" then "#/filter/incomplete"
    else "#/"
  }

  predicate StartsWith(s: string, prefix: string): (b: bool)
    ensures b <==> exists rest :: s == prefix + rest
  {
    if |prefix| <= |s| && s[..|prefix|] == prefix then
      assert s == prefix + s[|prefix|..];
      true
    else
      assert forall rest :: s == prefix + rest ==> |prefix| <= |s| && s[..|prefix|] == prefix;
      false
  }

  /** The filter name `onHashChange` selects for a hash, by prefix test. */
  function FilterOfHash(hash: string): (name: string)
    ensures name == "NONE" || name == "COMPLETE" || name == "INCOMPLETE"
  {
    if StartsWith(hash, "#/filter/complete") then "COMPLETE"
    else if StartsWith(hash, "#/filter/incomplete") then "INCOMPLETE"
    else "NONE"
  }

  /** Writing a name's hash and reading it back gives the name, or NONE for any other name. */
  lemma HashRoundTrip(name: string)
    ensures FilterOfHash(HashOf(name)) == if name == "COMPLETE" || name == "INCOMPLETE" then name else "NONE"
  {
    if name == "INCOMPLETE" {
      assert "#/filter/incomplete"[9] != "#/filter/complete"[9];
      assert !StartsWith("#/filter/incomplete", "#/filter/complete");
    }
  }

  /** The hash written back after routing routes to the same name, so routing settles after one round. */
  lemma HashRoutingSettles(hash: string)
    ensures FilterOfHash(HashOf(FilterOfHash(hash))) == FilterOfHash(hash)
    ensures GetFilter(FilterOfHash(hash)).Some?
  {
  }
}
