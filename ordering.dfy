/**
 * The pure part of a drag-and-drop reorder, shared by the media gallery and
 * the albums grid: locating the dragged and target items (`findIndex`),
 * moving one item (`arrayMove` of the sortable library) and building the
 * batch payload that pairs every id with its new position.
 */
module Ordering {
  import opened Wrappers
  import opened Store

  /** One entry of a reorder batch: `{id, order}`. */
  datatype OrderUpdate = OrderUpdate(id: Id, order: int)

  /**
   * The batch member of a reorder request body as the handler sees it.
   * `Unparsable`: `request.json()` or the destructuring threw (a body that
   * is not JSON, or the JSON `null`). `NotArray`: the `updates`/`orders`
   * member is missing or not an array, which includes a body that is itself
   * an array. `Batch`: the member's array.
   */
  datatype BatchBody = Unparsable | NotArray | Batch(items: seq<OrderUpdate>)

  /**
   * How the client's fire-and-forget `fetch` of a reorder batch ends: a
   * response (whatever its status) or a rejected promise. The controllers
   * only log a rejection.
   */
  datatype FetchOutcome = Responded(status: int) | NetworkError

  /** The order carried by the last entry of `updates` that names `id`, if any. */
  function LastOrder(updates: seq<OrderUpdate>, id: Id): (o: Option<int>)
    ensures o.None? <==> forall k :: 0 <= k < |updates| ==> updates[k].id != id
    ensures o.Some? ==> exists k :: 0 <= k < |updates| && updates[k] == OrderUpdate(id, o.value)
                           && forall j :: k < j < |updates| ==> updates[j].id != id
  {
    if |updates| == 0 then None
    else if updates[|updates| - 1].id == id then Some(updates[|updates| - 1].order)
    else LastOrder(updates[..|updates| - 1], id)
  }

  /** `findIndex` on ids: the first position holding `x`, or -1. */
  function IndexOf(ids: seq<Id>, x: Id): (i: int)
    ensures -1 <= i < |ids|
    ensures i == -1 <==> x !in ids
    ensures 0 <= i ==> ids[i] == x && x !in ids[..i]
  {
    if |ids| == 0 then -1
    else if ids[0] == x then 0
    else
      var j := IndexOf(ids[1..], x);
      if j == -1 then -1 else j + 1
  }

  /** `arrayMove(s, from, to)`: take out the item at `from`, put it back at `to`. */
  function ArrayMove<T>(s: seq<T>, from: nat, to: nat): (r: seq<T>)
    requires from < |s| && to < |s|
    ensures |r| == |s| && r[to] == s[from]
    ensures multiset(r) == multiset(s)
  {
    var rest := s[..from] + s[from + 1..];
    assert s == s[..from] + [s[from]] + s[from + 1..];
    assert rest == rest[..to] + rest[to..];
    assert multiset(s) == multiset(s[..from]) + multiset{s[from]} + multiset(s[from + 1..]);
    assert multiset(rest) == multiset(s[..from]) + multiset(s[from + 1..]);
    assert multiset(rest) == multiset(rest[..to]) + multiset(rest[to..]);
    var moved := rest[..to] + [s[from]] + rest[to..];
    assert multiset(moved) == multiset(rest[..to]) + multiset{s[from]} + multiset(rest[to..]);
    assert multiset(moved) == multiset(rest) + multiset{s[from]};
    assert multiset(s) == multiset(rest) + multiset{s[from]};
    moved
  }

  /**
   * Where the item shown at position `k` after a move from `from` to `to`
   * stood before: the moved item came from `from`; the items strictly
   * between the two positions shifted by one towards `from`; all others
   * kept their place.
   */
  function SourceIndex(from: nat, to: nat, k: nat): nat
  {
    if k == to then from
    else if from < to && from <= k < to then k + 1
    else if to < from && to < k <= from then k - 1
    else k
  }

  /** The move described position by position. */
  lemma ArrayMoveAt<T>(s: seq<T>, from: nat, to: nat, k: nat)
    requires from < |s| && to < |s| && k < |s|
    ensures SourceIndex(from, to, k) < |s|
    ensures ArrayMove(s, from, to)[k] == s[SourceIndex(from, to, k)]
  {
    var rest := s[..from] + s[from + 1..];
    assert forall i :: 0 <= i < |rest| ==> rest[i] == if i < from then s[i] else s[i + 1];
  }

  /** Moving an item back to where it came from restores the list. */
  lemma ArrayMoveInverse<T>(s: seq<T>, from: nat, to: nat)
    requires from < |s| && to < |s|
    ensures ArrayMove(ArrayMove(s, from, to), to, from) == s
  {
    var r := ArrayMove(s, from, to);
    var back := ArrayMove(r, to, from);
    forall k | 0 <= k < |s|
      ensures back[k] == s[k]
    {
      ArrayMoveAt(r, to, from, k);
      var j := SourceIndex(to, from, k);
      ArrayMoveAt(s, from, to, j);
    }
  }

  /** Moving an item onto its own position changes nothing. */
  lemma ArrayMoveSame<T>(s: seq<T>, i: nat)
    requires i < |s|
    ensures ArrayMove(s, i, i) == s
  {
    forall k | 0 <= k < |s|
      ensures ArrayMove(s, i, i)[k] == s[k]
    {
      ArrayMoveAt(s, i, i, k);
    }
  }

  /** Projecting a list commutes with moving an item in it. */
  lemma ArrayMoveMap<T, U>(s: seq<T>, f: T -> U, from: nat, to: nat)
    requires from < |s| && to < |s|
    ensures ArrayMove(seq(|s|, k requires 0 <= k < |s| => f(s[k])), from, to)
         == seq(|s|, k requires 0 <= k < |s| => f(ArrayMove(s, from, to)[k]))
  {
    var fs := seq(|s|, k requires 0 <= k < |s| => f(s[k]));
    forall k | 0 <= k < |s|
      ensures ArrayMove(fs, from, to)[k] == f(ArrayMove(s, from, to)[k])
    {
      ArrayMoveAt(fs, from, to, k);
      ArrayMoveAt(s, from, to, k);
    }
  }

  /** The batch payload: every id of the new list paired with its position. */
  function Payload(ids: seq<Id>): (p: seq<OrderUpdate>)
    ensures |p| == |ids|
    ensures forall k :: 0 <= k < |p| ==> p[k].id == ids[k] && p[k].order == k
  {
    seq(|ids|, k requires 0 <= k < |ids| => OrderUpdate(ids[k], k))
  }

  /** The orders a payload carries, in payload order. */
  function Orders(p: seq<OrderUpdate>): seq<int>
  {
    seq(|p|, k requires 0 <= k < |p| => p[k].order)
  }

  /** The payload's orders are exactly 0..n-1: no gap and no repeat. */
  lemma PayloadOrdersArePositions(ids: seq<Id>)
    ensures var os := Orders(Payload(ids));
      && (forall o :: o in os <==> 0 <= o < |ids|)
      && (forall i, j :: 0 <= i < j < |os| ==> os[i] != os[j])
  {
    var os := Orders(Payload(ids));
    forall o | 0 <= o < |ids|
      ensures o in os
    {
      assert os[o] == o;
    }
  }

  /** In a payload of distinct ids, each id's last (only) order is its position. */
  lemma PayloadLastOrder(ids: seq<Id>, k: nat)
    requires Distinct(ids) && k < |ids|
    ensures LastOrder(Payload(ids), ids[k]) == Some(k)
  {
    var p := Payload(ids);
    assert p[k].id == ids[k];
    var o := LastOrder(p, ids[k]);
    var j :| 0 <= j < |p| && p[j] == OrderUpdate(ids[k], o.value)
             && forall i :: j < i < |p| ==> p[i].id != ids[k];
    assert ids[j] == ids[k];
  }

  /**
   * The list after the item with id `active` is dropped on the item with id
   * `over` (both listed in `ids`, the ids of `items` in order).
   */
  function DropMove<T>(items: seq<T>, ids: seq<Id>, active: Id, over: Id): (r: seq<T>)
    requires |ids| == |items| && active in ids && over in ids
    ensures |r| == |items| && multiset(r) == multiset(items)
    ensures r[IndexOf(ids, over)] == items[IndexOf(ids, active)]
  {
    ArrayMove(items, IndexOf(ids, active), IndexOf(ids, over))
  }
}
