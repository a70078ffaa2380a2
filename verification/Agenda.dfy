/**
 Agenda items with gap-based ordering. `src/voter_api/services/agenda_item_service.py`.

 The unique index on (meeting, display_order) of active items is not deferrable: it is
 checked at every row the session flushes, and changed rows are flushed in primary-key order.
 */
module Agenda {
  import opened Prelude

  type Id = nat

  const GAP := 10

  datatype Item = Item(meeting: Id, order: int, deleted: bool, text: string)

  type Items = map<Id, Item>

  function Active(items: Items, m: Id): set<Id> {
    set i | i in items && items[i].meeting == m && !items[i].deleted
  }

  /** No active item of the meeting other than `i` holds the order. */
  predicate OrderFree(items: Items, m: Id, order: int, i: Id) {
    forall j :: j in items && j != i && items[j].meeting == m && !items[j].deleted ==> items[j].order != order
  }

  /** In every reachable state: active items of a meeting have distinct, non-negative orders. */
  ghost predicate Sound(items: Items) {
    && (forall i :: i in items && !items[i].deleted ==> items[i].order >= 0)
    && (forall i :: i in items && !items[i].deleted ==> OrderFree(items, items[i].meeting, items[i].order, i))
  }

  /** The listing: exactly the active items, by strictly increasing order. */
  ghost predicate IsListing(items: Items, m: Id, ids: seq<Id>) {
    && (forall k :: 0 <= k < |ids| ==> ids[k] in Active(items, m))
    && (forall i :: i in Active(items, m) ==> i in ids)
    && (forall k, l :: 0 <= k < l < |ids| ==> ids[k] in items && ids[l] in items && items[ids[k]].order < items[ids[l]].order)
  }

  /** The listing holds each item of the meeting that is not deleted, once, and nothing else. */
  lemma {:induction false} ListingHolds(items: Items, m: Id, ids: seq<Id>)
    requires IsListing(items, m, ids)
    ensures forall i :: i in ids <==> i in items && items[i].meeting == m && !items[i].deleted
    ensures forall k, l :: 0 <= k < l < |ids| ==> ids[k] != ids[l]
  {
    assert forall i :: i in items && items[i].meeting == m && !items[i].deleted ==> i in Active(items, m);
  }

  /** The next order is free exactly when every other active item of the meeting has a different one. */
  lemma {:induction false} FreeOrder(items: Items, m: Id, ids: seq<Id>, order: int, i: Id)
    requires IsListing(items, m, ids)
    ensures OrderFree(items, m, order, i) <==> forall k :: 0 <= k < |ids| && ids[k] in items && ids[k] != i ==> items[ids[k]].order != order
  {
    ListingHolds(items, m, ids);
    hide IsListing;
    if forall k :: 0 <= k < |ids| && ids[k] in items && ids[k] != i ==> items[ids[k]].order != order {
      forall j | j in items && j != i && items[j].meeting == m && !items[j].deleted ensures items[j].order != order {
        var k :| 0 <= k < |ids| && ids[k] == j;
      }
    } else {
      var k :| 0 <= k < |ids| && ids[k] in items && ids[k] != i && items[ids[k]].order == order;
      assert ids[k] in ids;
    }
  }

  lemma {:induction false} LastIsHighest(items: Items, m: Id, xs: seq<Id>, i: Id)
    requires IsListing(items, m, xs) && i in Active(items, m)
    ensures i in items && xs != [] && xs[|xs| - 1] in Active(items, m)
    ensures i != xs[|xs| - 1] ==> items[i].order < items[xs[|xs| - 1]].order
  {
    var k :| 0 <= k < |xs| && xs[k] == i;
    if k < |xs| - 1 {
      assert items[xs[k]].order < items[xs[|xs| - 1]].order;
    }
  }

  lemma {:induction false} SameLast(items: Items, m: Id, xs: seq<Id>, ys: seq<Id>)
    requires IsListing(items, m, xs) && IsListing(items, m, ys) && xs != []
    ensures ys != [] && xs[|xs| - 1] == ys[|ys| - 1]
  {
    var x := xs[|xs| - 1];
    LastIsHighest(items, m, ys, x);
    LastIsHighest(items, m, xs, ys[|ys| - 1]);
  }

  lemma {:induction false} ListingUnique(items: Items, m: Id, xs: seq<Id>, ys: seq<Id>)
    requires IsListing(items, m, xs) && IsListing(items, m, ys)
    ensures xs == ys
  {
    hide IsListing;
    if xs != [] {
      SameLast(items, m, xs, ys);
      Shorter(items, m, xs);
      Shorter(items, m, ys);
      var x := xs[|xs| - 1];
      ListingUnique(items[x := items[x].(deleted := true)], m, xs[..|xs| - 1], ys[..|ys| - 1]);
      assert xs == xs[..|xs| - 1] + [x] && ys == ys[..|ys| - 1] + [x];
    } else if ys != [] {
      SameLast(items, m, ys, xs);
    }
  }

  lemma {:induction false} Shorter(items: Items, m: Id, xs: seq<Id>)
    requires IsListing(items, m, xs) && xs != []
    ensures var last := xs[|xs| - 1];
      last in items && IsListing(items[last := items[last].(deleted := true)], m, xs[..|xs| - 1])
  {
    var n := |xs| - 1;
    var last := xs[n];
    var rest := items[last := items[last].(deleted := true)];
    forall k | 0 <= k < n ensures xs[k] != last {
      assert items[xs[k]].order < items[xs[n]].order;
    }
    forall i | i in Active(rest, m) ensures i in xs[..n] {
      assert i in Active(items, m);
      var k :| 0 <= k < |xs| && xs[k] == i;
      assert xs[..n][k] == i;
    }
  }

  // ---------------------------------------------------------------- reordering

  /** The validation of the request: no duplicates, and exactly the meeting's active items. */
  predicate Complete(items: Items, m: Id, ids: seq<Id>) {
    |Elements(ids)| == |ids| && Elements(ids) == Active(items, m)
  }

  /** A request is complete exactly when it names each item of the listing once. */
  lemma {:induction false} CompleteMeaning(items: Items, m: Id, ids: seq<Id>)
    ensures Complete(items, m, ids)
        <==> (forall i :: i in ids <==> i in items && items[i].meeting == m && !items[i].deleted) && Distinct(ids)
  {
    AcceptedIffDistinct(ids);
    var active := Active(items, m);
    assert forall i :: i in active <==> i in items && items[i].meeting == m && !items[i].deleted;
    assert Elements(ids) == active <==> forall i :: i in ids <==> i in active;
  }

  function NewOrder(k: nat): int {
    (k + 1) * GAP
  }

  /** The item at position `k` of the request gets the order of that position. */
  function Place(ids: seq<Id>, i: Id): (k: nat)
    requires i in ids
    ensures k < |ids| && ids[k] == i
  {
    if ids[0] == i then 0 else 1 + Place(ids[1..], i)
  }

  /** The state a reorder aims at. */
  function Reordered(items: Items, ids: seq<Id>): Items {
    map i | i in items :: if i in ids then items[i].(order := NewOrder(Place(ids, i))) else items[i]
  }

  /** No item takes the order of another that is flushed after it. */
  ghost predicate FlushSucceeds(items: Items, ids: seq<Id>)
    requires forall i :: i in ids ==> i in items
  {
    forall i, j :: i in ids && j in ids && i < j ==> items[j].order != NewOrder(Place(ids, i))
  }

  lemma {:induction false} DistinctRequest(ids: seq<Id>)
    requires |Elements(ids)| == |ids|
    ensures Distinct(ids)
    ensures forall k :: 0 <= k < |ids| ==> Place(ids, ids[k]) == k
  {
    AcceptedIffDistinct(ids);
    forall k | 0 <= k < |ids| ensures Place(ids, ids[k]) == k {
      assert ids[Place(ids, ids[k])] == ids[k];
    }
  }

  /**
   What a successful reorder leaves: the listing is exactly the request, at orders 10, 20, ...,
   every other field and every other item is as before, and the invariant holds. A
   constraint checked only at commit would therefore accept every complete request.
   */
  lemma {:induction false} ReorderedListing(items: Items, m: Id, ids: seq<Id>)
    requires Sound(items) && Complete(items, m, ids)
    ensures Sound(Reordered(items, ids)) && IsListing(Reordered(items, ids), m, ids)
    ensures forall k :: 0 <= k < |ids| ==>
              ids[k] in items && Reordered(items, ids)[ids[k]] == items[ids[k]].(order := (k + 1) * 10)
    ensures Reordered(items, ids).Keys == items.Keys
    ensures forall i :: i in items && !(items[i].meeting == m && !items[i].deleted) ==> Reordered(items, ids)[i] == items[i]
  {
    DistinctRequest(ids);
    var r := Reordered(items, ids);
    assert forall i :: i in ids <==> i in Active(items, m);
    assert forall k :: 0 <= k < |ids| ==> ids[k] in ids;
    forall i, j | i in r && j in r && j != i && r[j].meeting == r[i].meeting && !r[i].deleted && !r[j].deleted
      ensures r[j].order != r[i].order
    {
      assert i in ids <==> j in ids;
      if i in ids {
        assert Place(ids, i) != Place(ids, j);
      } else {
        assert OrderFree(items, items[i].meeting, items[i].order, i);
      }
    }
  }

  /**
   When the active orders are already 10, 20, ..., 10 n, as after any creation sequence
   without explicit orders or an earlier reorder, the flush accepts only the present order.
   */
  lemma {:induction false} DenseAgendaCannotBeReordered(items: Items, m: Id, ids: seq<Id>)
    requires Complete(items, m, ids)
    requires forall a :: 0 <= a < |ids| ==> exists i :: i in Active(items, m) && items[i].order == NewOrder(a)
    ensures forall i :: i in ids ==> i in items
    ensures FlushSucceeds(items, ids) <==> forall a :: 0 <= a < |ids| ==> items[ids[a]].order == NewOrder(a)
  {
    hide FlushSucceeds, NewOrder;
    DistinctRequest(ids);
    assert forall i :: i in ids <==> i in Active(items, m);
    if FlushSucceeds(items, ids) {
      forall a | 0 <= a < |ids| ensures items[ids[a]].order == NewOrder(a) {
        HoldsItsOrder(items, m, ids, a);
      }
    }
    if forall a :: 0 <= a < |ids| ==> ids[a] in ids && items[ids[a]].order == NewOrder(a) {
      InOrderFlushes(items, ids);
    }
  }

  lemma {:induction false} InOrderFlushes(items: Items, ids: seq<Id>)
    requires forall i :: i in ids ==> i in items
    requires forall a :: 0 <= a < |ids| ==> ids[a] in ids && items[ids[a]].order == NewOrder(a)
    ensures FlushSucceeds(items, ids)
  {
    forall i, j | i in ids && j in ids && i < j ensures items[j].order != NewOrder(Place(ids, i)) {
      assert ids[Place(ids, j)] == j && ids[Place(ids, i)] == i;
    }
  }

  /** By descent over the flush order: the holder of a wanted order comes earlier, or is the item itself. */
  lemma {:induction false} HoldsItsOrder(items: Items, m: Id, ids: seq<Id>, a: nat)
    requires a < |ids| && Distinct(ids) && (forall i :: i in ids <==> i in Active(items, m))
    requires forall b :: 0 <= b < |ids| ==> exists i :: i in Active(items, m) && items[i].order == NewOrder(b)
    requires (forall i :: i in ids ==> i in items) && FlushSucceeds(items, ids)
    ensures items[ids[a]].order == NewOrder(a)
    decreases ids[a]
  {
    var x := ids[a];
    assert x in ids && ids[Place(ids, x)] == x;
    var i :| i in Active(items, m) && items[i].order == NewOrder(a);
    if i < x {
      HoldsItsOrder(items, m, ids, Place(ids, i));
    }
  }

  /** Two items at 10 and 20 can never be swapped. */
  lemma {:induction false} SwapRejected(items: Items, m: Id, first: Id, second: Id)
    requires Active(items, m) == {first, second} && first != second
    requires items[first].order == 10 && items[second].order == 20
    ensures Complete(items, m, [second, first])
    ensures !FlushSucceeds(items, [second, first])
  {
    var ids := [second, first];
    assert Elements(ids) == {first, second};
    assert first in Active(items, m) && second in Active(items, m);
    assert Place(ids, second) == 0 && Place(ids, first) == 1 && NewOrder(0) == 10 && NewOrder(1) == 20;
    assert first in ids && second in ids;
  }

  // ---------------------------------------------------------------- creating and deleting

  /** Items the caller may see in the listing stay where they are; a new one goes strictly last. */
  lemma {:induction false} AppendedLast(items: Items, m: Id, ids: seq<Id>, i: Id, item: Item)
    requires IsListing(items, m, ids) && i !in items && item.meeting == m && !item.deleted
    requires forall j :: j in Active(items, m) ==> items[j].order < item.order
    ensures IsListing(items[i := item], m, ids + [i])
  {
    assert forall j :: j in Active(items[i := item], m) <==> j in Active(items, m) || j == i;
  }

  class AgendaService {
    var meetings: set<Id>
    var items: Items

    ghost predicate Valid()
      reads this
    {
      Sound(items)
    }

    constructor ()
      ensures Valid() && items == map[]
    {
      meetings, items := {}, map[];
    }

    /** The highest order among the meeting's active items, or 0. */
    method MaxOrder(m: Id) returns (top: int)
      requires Valid()
      ensures top >= 0 && forall j :: j in Active(items, m) ==> items[j].order <= top
      ensures top == 0 || exists j :: j in Active(items, m) && items[j].order == top
    {
      top := 0;
      var todo := Active(items, m);
      while todo != {}
        invariant todo <= Active(items, m) && top >= 0
        invariant forall j :: j in Active(items, m) && j !in todo ==> items[j].order <= top
        invariant top == 0 || exists j :: j in Active(items, m) && items[j].order == top
      {
        var j :| j in todo;
        if items[j].order > top {
          top := items[j].order;
        }
        todo := todo - {j};
      }
    }

    /**
     `create_item` with a fresh id; the request schema admits no negative order. Without an
     order the item goes strictly last; with one it is refused exactly when the order is taken.
     */
    method CreateItem(m: Id, order: Option<int>, text: string, id: Id) returns (ok: bool)
      requires Valid() && id !in items && (order.Some? ==> order.value >= 0)
      modifies `items
      ensures Valid()
      ensures ok == (m in meetings && (order.Some? ==> OrderFree(old(items), m, order.value, id)))
      ensures ok ==> id in items && items == old(items)[id := items[id]] && items[id].meeting == m
                     && !items[id].deleted && items[id].text == text && (order.Some? ==> items[id].order == order.value)
      ensures ok && order.None? ==> forall j :: j in Active(old(items), m) ==> old(items)[j].order + 10 <= items[id].order
      ensures ok && order.None? ==>
                items[id].order == 10 || exists j :: j in Active(old(items), m) && old(items)[j].order + 10 == items[id].order
      ensures !ok ==> items == old(items)
    {
      if m !in meetings { return false; }
      var displayOrder;
      if order.Some? {
        displayOrder := order.value;
      } else {
        var top := MaxOrder(m);
        displayOrder := top + GAP;
        assert forall j :: j in items && items[j].meeting == m && !items[j].deleted ==> j in Active(items, m);
      }
      if !OrderFree(items, m, displayOrder, id) { return false; }
      CreateSound(items, id, Item(m, displayOrder, false, text));
      items := items[id := Item(m, displayOrder, false, text)];
      ok := true;
    }

    /** `delete_item`: only the one row changes. */
    method DeleteItem(m: Id, id: Id) returns (ok: bool)
      requires Valid()
      modifies `items
      ensures Valid() && ok == (id in Active(old(items), m))
      ensures items == if ok then old(items)[id := old(items)[id].(deleted := true)] else old(items)
    {
      if id !in Active(items, m) { return false; }
      DeleteSound(items, id);
      items := items[id := items[id].(deleted := true)];
      ok := true;
    }

    /** Flush the new orders row by row, in primary-key order, checking the index at each row. */
    method Flush(m: Id, ids: seq<Id>) returns (ok: bool, now: Items)
      requires Valid() && Complete(items, m, ids)
      ensures forall i :: i in ids ==> i in items
      ensures ok == FlushSucceeds(items, ids)
      ensures ok ==> now == Reordered(items, ids)
    {
      StartFlush(items, m, ids);
      hide Flushing, Complete, FlushSucceeds, OrderFree, Sound;
      var todo := Elements(ids);
      now := items;
      while todo != {}
        invariant Flushing(items, m, ids, todo, now)
      {
        var i := Lowest(todo);
        FlushRow(items, m, ids, todo, now, i);
        if !OrderFree(now, m, NewOrder(Place(ids, i)), i) { return false, now; }
        now := now[i := now[i].(order := NewOrder(Place(ids, i)))];
        todo := todo - {i};
      }
      AllFlushed(items, m, ids, now);
      ok := true;
    }

    /** `reorder_items`: refused requests and failed flushes change nothing. */
    method ReorderItems(m: Id, ids: seq<Id>) returns (ok: bool)
      requires Valid()
      modifies `items
      ensures Valid()
      ensures ok == (m in meetings && Complete(old(items), m, ids)
                     && (forall i :: i in ids ==> i in old(items)) && FlushSucceeds(old(items), ids))
      ensures items == if ok then Reordered(old(items), ids) else old(items)
    {
      if m !in meetings || !Complete(items, m, ids) { return false; }
      var flushed, now := Flush(m, ids);
      if !flushed { return false; }
      ReorderedListing(items, m, ids);
      items := now;
      ok := true;
    }

    /** `list_items`. */
    method ListItems(m: Id) returns (ids: Option<seq<Id>>)
      requires Valid()
      ensures ids.Some? == (m in meetings)
      ensures ids.Some? ==> IsListing(items, m, ids.value)
    {
      if m !in meetings { return None; }
      hide Listed, Sound;
      var listed, todo := [], Active(items, m);
      StartListing(items, m);
      while todo != {}
        invariant Listed(items, m, listed, todo)
      {
        TodoInTable(items, m, listed, todo);
        var i := First(items, todo);
        ListNext(items, m, listed, todo, i);
        listed, todo := listed + [i], todo - {i};
      }
      ListedAll(items, m, listed);
      ids := Some(listed);
    }
  }

  /** `listed` holds the lowest active items in order; `todo` the rest. */
  ghost predicate Listed(items: Items, m: Id, listed: seq<Id>, todo: set<Id>) {
    && todo <= Active(items, m)
    && (forall k :: 0 <= k < |listed| ==> listed[k] in Active(items, m))
    && (forall i :: i in Active(items, m) && i !in todo ==> i in listed)
    && (forall k, l :: 0 <= k < l < |listed| ==> items[listed[k]].order < items[listed[l]].order)
    && (forall k, i :: 0 <= k < |listed| && i in todo ==> items[listed[k]].order < items[i].order)
  }

  lemma {:induction false} StartListing(items: Items, m: Id)
    ensures Listed(items, m, [], Active(items, m))
  {
  }

  lemma {:induction false} TodoInTable(items: Items, m: Id, listed: seq<Id>, todo: set<Id>)
    requires Listed(items, m, listed, todo)
    ensures todo <= items.Keys
  {
  }

  lemma {:induction false} ListNext(items: Items, m: Id, listed: seq<Id>, todo: set<Id>, i: Id)
    requires Sound(items) && Listed(items, m, listed, todo)
    requires i in todo && forall j :: j in todo && j in items ==> i in items && items[i].order <= items[j].order
    ensures Listed(items, m, listed + [i], todo - {i})
  {
    assert i in Active(items, m);
    forall j | j in todo && j != i ensures items[i].order < items[j].order {
      assert OrderFree(items, items[i].meeting, items[i].order, i);
    }
  }

  lemma {:induction false} ListedAll(items: Items, m: Id, listed: seq<Id>)
    requires Listed(items, m, listed, {})
    ensures IsListing(items, m, listed)
  {
  }

  lemma {:induction false} CreateSound(items: Items, i: Id, item: Item)
    requires Sound(items) && i !in items && item.order >= 0 && OrderFree(items, item.meeting, item.order, i)
    ensures Sound(items[i := item])
  {
    var now := items[i := item];
    forall j | j in now && !now[j].deleted ensures OrderFree(now, now[j].meeting, now[j].order, j) {
      if j != i {
        assert OrderFree(items, items[j].meeting, items[j].order, j);
      }
    }
  }

  lemma {:induction false} DeleteSound(items: Items, i: Id)
    requires Sound(items) && i in items
    ensures Sound(items[i := items[i].(deleted := true)])
  {
    var now := items[i := items[i].(deleted := true)];
    forall j | j in now && !now[j].deleted ensures OrderFree(now, now[j].meeting, now[j].order, j) {
      assert OrderFree(items, items[j].meeting, items[j].order, j);
    }
  }

  function PartlyReordered(items: Items, ids: seq<Id>, done: set<Id>): Items {
    map i | i in items :: if i in ids && i in done then items[i].(order := NewOrder(Place(ids, i))) else items[i]
  }

  /** The rows not in `todo`, a lower part of the primary keys, carry their new orders, and none clashed. */
  ghost predicate Flushing(items: Items, m: Id, ids: seq<Id>, todo: set<Id>, now: Items) {
    && Distinct(ids) && (forall j :: j in ids <==> j in Active(items, m)) && (forall j :: j in ids ==> j in items)
    && todo <= Elements(ids)
    && (forall j, k :: j in ids && j !in todo && k in todo ==> j < k)
    && now == PartlyReordered(items, ids, Elements(ids) - todo)
    && (forall j, k :: j in ids && j !in todo && k in ids && j < k ==> items[k].order != NewOrder(Place(ids, j)))
  }

  lemma {:induction false} StartFlush(items: Items, m: Id, ids: seq<Id>)
    requires Complete(items, m, ids)
    ensures Flushing(items, m, ids, Elements(ids), items) && forall i :: i in ids ==> i in items
  {
    DistinctRequest(ids);
  }

  lemma {:induction false} AllFlushed(items: Items, m: Id, ids: seq<Id>, now: Items)
    requires Flushing(items, m, ids, {}, now)
    ensures forall i :: i in ids ==> i in items
    ensures FlushSucceeds(items, ids) && now == Reordered(items, ids)
  {
  }

  ghost predicate IsLowest(s: set<Id>, i: Id) {
    i in s && forall j :: j in s ==> i <= j
  }

  lemma {:induction false} LowestOfMore(s: set<Id>, x: Id, y: Id)
    requires x in s && IsLowest(s - {x}, y)
    ensures IsLowest(s, if x <= y then x else y)
  {
    forall j | j in s ensures x <= j || y <= j {
      assert j != x ==> j in s - {x};
    }
  }

  lemma {:induction false} LowestExists(s: set<Id>)
    requires s != {}
    ensures exists i :: IsLowest(s, i)
  {
    var x :| x in s;
    if s == {x} {
      assert IsLowest(s, x);
    } else {
      LowestExists(s - {x});
      hide IsLowest;
      var y :| IsLowest(s - {x}, y);
      LowestOfMore(s, x, y);
    }
  }

  function Lowest(s: set<Id>): (i: Id)
    requires s != {}
    ensures i in s && forall j :: j in s ==> i <= j
  {
    LowestExists(s);
    var i :| i in s && forall j :: j in s ==> i <= j;
    i
  }

  lemma {:induction false} FirstExists(items: Items, s: set<Id>)
    requires s != {} && s <= items.Keys
    ensures exists i :: i in s && forall j :: j in s ==> items[i].order <= items[j].order
  {
    var x :| x in s;
    if s != {x} {
      FirstExists(items, s - {x});
      var y :| y in s - {x} && forall j :: j in s - {x} ==> items[y].order <= items[j].order;
      var first := if items[x].order <= items[y].order then x else y;
      assert forall j :: j in s ==> j == x || j in s - {x};
      assert first in s && forall j :: j in s ==> items[first].order <= items[j].order;
    }
  }

  method First(items: Items, s: set<Id>) returns (i: Id)
    requires s != {} && s <= items.Keys
    ensures i in s && forall j :: j in s ==> items[i].order <= items[j].order
  {
    FirstExists(items, s);
    i :| i in s && forall j :: j in s ==> items[i].order <= items[j].order;
  }

  /** One row of the flush: the index accepts it exactly when no later row holds its new order. */
  lemma {:induction false} FlushRow(items: Items, m: Id, ids: seq<Id>, todo: set<Id>, now: Items, i: Id)
    requires Flushing(items, m, ids, todo, now) && i in todo && forall j :: j in todo ==> i <= j
    ensures i in ids && i in now && forall j :: j in ids ==> j in items
    ensures var order := NewOrder(Place(ids, i));
      if OrderFree(now, m, order, i) then Flushing(items, m, ids, todo - {i}, now[i := now[i].(order := order)])
      else !FlushSucceeds(items, ids)
  {
    var order := NewOrder(Place(ids, i));
    assert i in ids;
    NoLaterHolder(items, m, ids, todo, now, i);
    assert i in Active(items, m);
    if OrderFree(now, m, order, i) {
      assert now[i := now[i].(order := order)] == PartlyReordered(items, ids, Elements(ids) - (todo - {i}));
    } else {
      var k :| k in ids && i < k && items[k].order == order;
    }
  }

  lemma {:induction false} NoLaterHolder(items: Items, m: Id, ids: seq<Id>, todo: set<Id>, now: Items, i: Id)
    requires Flushing(items, m, ids, todo, now) && i in todo && i in ids && forall j :: j in todo ==> i <= j
    ensures forall j :: j in ids ==> j in items
    ensures OrderFree(now, m, NewOrder(Place(ids, i)), i)
        <==> forall k :: k in ids && i < k ==> items[k].order != NewOrder(Place(ids, i))
  {
    var order := NewOrder(Place(ids, i));
    forall k | k in ids && i < k ensures k in todo && k in now && now[k] == items[k] && k in Active(items, m) {
    }
    forall j | j in now && j != i && now[j].meeting == m && !now[j].deleted && now[j].order == order
      ensures j in ids && i < j && items[j].order == order
    {
      assert j in Active(items, m);
      assert Place(ids, j) != Place(ids, i);
      assert j in todo;
    }
  }
}
