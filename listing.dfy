/**
 * A read query with an `orderBy` clause, seen as a relation: the query may
 * return the selected rows in any order that is sorted by the sort key, so
 * rows whose keys tie may come back in either order.
 */
module Listing {
  import opened Store

  /**
   * A two-part sort key compared lexicographically, ascending. A descending
   * column is stored negated; a query with a single sort column uses 0 as
   * the second part.
   */
  datatype SortKey = SortKey(primary: int, secondary: int)

  predicate KeyLe(a: SortKey, b: SortKey) {
    a.primary < b.primary || (a.primary == b.primary && a.secondary <= b.secondary)
  }

  /**
   * `r` is a possible result of listing the rows whose keys `keys` gives:
   * each selected row exactly once, sorted by key.
   */
  ghost predicate IsListing(keys: map<Id, SortKey>, r: seq<Id>) {
    && Distinct(r)
    && (forall i :: 0 <= i < |r| ==> r[i] in keys)
    && (forall x :: x in keys ==> x in r)
    && (forall i, j :: 0 <= i < j < |r| ==> KeyLe(keys[r[i]], keys[r[j]]))
  }

  /** `m` carries a least key among `keys`. */
  ghost predicate IsLeast(keys: map<Id, SortKey>, m: Id) {
    m in keys && forall x :: x in keys ==> KeyLe(keys[m], keys[x])
  }

  /** A non-empty key map has a least key. */
  lemma {:induction false} LeastKeyExists(keys: map<Id, SortKey>)
    requires |keys| > 0
    ensures exists m :: IsLeast(keys, m)
    decreases keys.Keys
  {
    var y :| y in keys;
    if keys.Keys == {y} {
      assert IsLeast(keys, y);
    } else {
      var x :| x in keys && x != y;
      var rest := keys - {y};
      assert x in rest;
      LeastKeyExists(rest);
      var m :| IsLeast(rest, m);
      if KeyLe(keys[m], keys[y]) {
        forall z | z in keys
          ensures KeyLe(keys[m], keys[z])
        {
          if z != y { assert z in rest; }
        }
        assert IsLeast(keys, m);
      } else {
        forall z | z in keys
          ensures KeyLe(keys[y], keys[z])
        {
          if z != y { assert z in rest && KeyLe(rest[m], rest[z]); }
        }
        assert IsLeast(keys, y);
      }
    }
  }

  lemma SubsetCard<T>(a: set<T>, b: set<T>)
    requires a <= b
    ensures |a| <= |b|
  {
    assert b == a + (b - a);
  }

  /** One result the query can return (selection sort by key). */
  ghost function SortedListing(keys: map<Id, SortKey>): (r: seq<Id>)
    ensures IsListing(keys, r)
    decreases |keys|
  {
    if |keys| == 0 then []
    else
      LeastKeyExists(keys);
      var m :| IsLeast(keys, m);
      var rest := keys - {m};
      assert |rest| == |keys| - 1;
      var tail := SortedListing(rest);
      PrependLeast(keys, m, tail);
      [m] + tail
  }

  lemma PrependLeast(keys: map<Id, SortKey>, m: Id, tail: seq<Id>)
    requires IsLeast(keys, m) && IsListing(keys - {m}, tail)
    ensures IsListing(keys, [m] + tail)
  {
    var r := [m] + tail;
    forall i, j | 0 <= i < j < |r|
      ensures r[i] != r[j] && KeyLe(keys[r[i]], keys[r[j]])
    {
      assert r[j] == tail[j - 1] && r[j] in keys - {m};
      if i > 0 {
        assert r[i] == tail[i - 1];
      }
    }
    forall x | x in keys
      ensures x in r
    {
      if x != m { assert x in keys - {m}; }
    }
  }

  /** The set of elements of a sequence. */
  function Elems(s: seq<Id>): (e: set<Id>)
    ensures forall x :: x in e <==> x in s
  {
    if |s| == 0 then {} else {s[0]} + Elems(s[1..])
  }

  /** A sequence without repeats has as many distinct elements as positions. */
  lemma {:induction false} DistinctCard(s: seq<Id>)
    requires Distinct(s)
    ensures |Elems(s)| == |s|
  {
    if |s| > 0 {
      DistinctCard(s[1..]);
      assert s[0] !in s[1..];
    }
  }

  /** Strictly increasing positions inside 0..n-1, n of them: the identity. */
  lemma {:induction false} IncreasingPositions(p: seq<int>, k: nat)
    requires forall i :: 0 <= i < |p| ==> 0 <= p[i] < |p|
    requires forall i, j :: 0 <= i < j < |p| ==> p[i] < p[j]
    requires k < |p|
    ensures p[k] == k
  {
    LowerBound(p, k);
    UpperBound(p, k);
  }

  lemma {:induction false} LowerBound(p: seq<int>, k: nat)
    requires forall i :: 0 <= i < |p| ==> 0 <= p[i]
    requires forall i, j :: 0 <= i < j < |p| ==> p[i] < p[j]
    requires k < |p|
    ensures k <= p[k]
  {
    if k > 0 { LowerBound(p, k - 1); }
  }

  lemma {:induction false} UpperBound(p: seq<int>, k: nat)
    requires forall i :: 0 <= i < |p| ==> p[i] < |p|
    requires forall i, j :: 0 <= i < j < |p| ==> p[i] < p[j]
    requires k < |p|
    ensures p[k] <= k
    decreases |p| - k
  {
    if k + 1 < |p| { UpperBound(p, k + 1); }
  }

  /** The keys of a reordered scope: each id's primary key is its position. */
  ghost predicate KeyedByPosition(keys: map<Id, SortKey>, ids: seq<Id>) {
    && Distinct(ids)
    && (forall x :: x in keys <==> x in ids)
    && (forall k :: 0 <= k < |ids| ==> keys[ids[k]].primary == k)
  }

  lemma PositionOf(keys: map<Id, SortKey>, ids: seq<Id>, x: Id) returns (k: nat)
    requires KeyedByPosition(keys, ids) && x in keys
    ensures k < |ids| && ids[k] == x && keys[x].primary == k
  {
    assert x in ids;
    k :| 0 <= k < |ids| && ids[k] == x;
  }

  lemma SameLength(keys: map<Id, SortKey>, ids: seq<Id>, r: seq<Id>)
    requires KeyedByPosition(keys, ids)
    requires IsListing(keys, r)
    ensures |r| == |ids|
  {
    assert Elems(r) == Elems(ids);
    DistinctCard(r);
    DistinctCard(ids);
  }

  /**
   * The round trip of a batch reorder: when every id of `ids` carries its
   * own position as primary key and nothing else is selected, the listing
   * can only be `ids` itself, whatever the secondary keys are.
   */
  lemma ListingOfPositions(keys: map<Id, SortKey>, ids: seq<Id>, r: seq<Id>)
    requires KeyedByPosition(keys, ids)
    requires IsListing(keys, r)
    ensures r == ids
  {
    SameLength(keys, ids, r);
    var p := Primaries(keys, r);
    PrimariesInRange(keys, ids, r);
    PrimariesIncrease(keys, ids, r);
    forall k | 0 <= k < |r|
      ensures r[k] == ids[k]
    {
      IncreasingPositions(p, k);
    }
  }

  /** The primary keys of a listing, in listing order. */
  ghost function Primaries(keys: map<Id, SortKey>, r: seq<Id>): (p: seq<int>)
    requires forall i :: 0 <= i < |r| ==> r[i] in keys
    ensures |p| == |r| && forall i :: 0 <= i < |r| ==> p[i] == keys[r[i]].primary
  {
    seq(|r|, i requires 0 <= i < |r| => keys[r[i]].primary)
  }

  lemma PrimariesInRange(keys: map<Id, SortKey>, ids: seq<Id>, r: seq<Id>)
    requires KeyedByPosition(keys, ids) && IsListing(keys, r) && |r| == |ids|
    ensures forall i :: 0 <= i < |r| ==> 0 <= Primaries(keys, r)[i] < |r| && ids[Primaries(keys, r)[i]] == r[i]
  {
    forall i | 0 <= i < |r|
      ensures 0 <= keys[r[i]].primary < |r| && ids[keys[r[i]].primary] == r[i]
    {
      var k := PositionOf(keys, ids, r[i]);
    }
  }

  lemma PrimariesIncrease(keys: map<Id, SortKey>, ids: seq<Id>, r: seq<Id>)
    requires KeyedByPosition(keys, ids) && IsListing(keys, r) && |r| == |ids|
    ensures forall i, j :: 0 <= i < j < |r| ==> Primaries(keys, r)[i] < Primaries(keys, r)[j]
  {
    forall i, j | 0 <= i < j < |r|
      ensures keys[r[i]].primary < keys[r[j]].primary
    {
      assert KeyLe(keys[r[i]], keys[r[j]]);
      assert r[i] != r[j];
      var ki := PositionOf(keys, ids, r[i]);
      var kj := PositionOf(keys, ids, r[j]);
    }
  }
}
