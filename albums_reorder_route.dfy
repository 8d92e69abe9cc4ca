/**
 * `POST /api/albums/reorder`: after a session check, apply a batch of
 * `{id, order}` pairs to the album table as independent updates run side by
 * side. The reply is 500 as soon as one of them fails, but the others are
 * not undone.
 */
module AlbumsReorderRoute {
  import opened Wrappers
  import opened Store
  import opened Ordering

  /**
   * Whether the update at position `k` of the batch fails: its id names no
   * album, or the database reports an error for it (`dbFailures`, an input
   * standing for whatever else can go wrong with a single update).
   */
  predicate UpdateFails(albums: map<Id, AlbumRow>, items: seq<OrderUpdate>, dbFailures: set<nat>, k: nat)
    requires k < |items|
  {
    k in dbFailures || items[k].id !in albums
  }

  /** Whether one of the first `n` updates of the batch fails. */
  predicate AnyFails(albums: map<Id, AlbumRow>, items: seq<OrderUpdate>, dbFailures: set<nat>, n: nat)
    requires n <= |items|
    ensures AnyFails(albums, items, dbFailures, n) <==> exists k :: 0 <= k < n && UpdateFails(albums, items, dbFailures, k)
  {
    n > 0 && (AnyFails(albums, items, dbFailures, n - 1) || UpdateFails(albums, items, dbFailures, n - 1))
  }

  /** The album table once every update that did not fail has been applied, in array order. */
  function ApplyIndependent(albums: map<Id, AlbumRow>, items: seq<OrderUpdate>, dbFailures: set<nat>): (r: map<Id, AlbumRow>)
    ensures r.Keys == albums.Keys
    ensures forall id :: id in r ==> r[id] == albums[id].(order := r[id].order)
  {
    if |items| == 0 then albums
    else
      var n := |items| - 1;
      var prev := ApplyIndependent(albums, items[..n], dbFailures);
      var u := items[n];
      if n in dbFailures || u.id !in prev then prev
      else prev[u.id := prev[u.id].(order := u.order)]
  }

  /** The handler's status and the album table it leaves behind. */
  function PostReply(albums: map<Id, AlbumRow>, hasSession: bool, body: BatchBody, dbFailures: set<nat>): (r: Reply<AlbumRow>)
  {
    if !hasSession then Reply(401, albums)
    else
      match body
      case Unparsable => Reply(500, albums)
      case NotArray => Reply(400, albums)
      case Batch(items) =>
        var failed := AnyFails(albums, items, dbFailures, |items|);
        Reply(if failed then 500 else 200, ApplyIndependent(albums, items, dbFailures))
  }

  method Post(db: Database, hasSession: bool, body: BatchBody, dbFailures: set<nat>) returns (status: int)
    requires db.Valid()
    modifies db
    ensures db.Valid()
    ensures db.media == old(db.media) && db.nextId == old(db.nextId)
    ensures Reply(status, db.albums) == PostReply(old(db.albums), hasSession, body, dbFailures)
  {
    if !hasSession {
      return 401;
    }
    if body.Unparsable? {
      return 500;
    }
    if body.NotArray? {
      return 400;
    }
    var items := body.items;
    ghost var before := db.State();
    var failed := false;
    var i := 0;
    while i < |items|
      invariant 0 <= i <= |items|
      invariant db.media == before.media && db.nextId == before.nextId
      invariant db.albums == ApplyIndependent(before.albums, items[..i], dbFailures)
      invariant failed == AnyFails(before.albums, items, dbFailures, i)
    {
      var u := items[i];
      ApplyStep(before.albums, items, dbFailures, i);
      if i in dbFailures || u.id !in db.albums {
        failed := true;
      } else {
        db.albums := db.albums[u.id := db.albums[u.id].(order := u.order)];
      }
      i := i + 1;
    }
    assert items[..i] == items;
    OrderRewriteKeepsValid(before, db.albums, db.media);
    status := if failed then 500 else 200;
  }

  /** One more update of the batch, as `ApplyIndependent` takes it. */
  lemma ApplyStep(albums: map<Id, AlbumRow>, items: seq<OrderUpdate>, dbFailures: set<nat>, i: nat)
    requires i < |items|
    ensures var prev := ApplyIndependent(albums, items[..i], dbFailures);
      ApplyIndependent(albums, items[..i + 1], dbFailures) ==
        if i in dbFailures || items[i].id !in prev then prev
        else prev[items[i].id := prev[items[i].id].(order := items[i].order)]
  {
    assert items[..i + 1][..i] == items[..i];
  }

  /** Without a session nothing is read or written. */
  lemma PostNeedsSession(albums: map<Id, AlbumRow>, body: BatchBody, dbFailures: set<nat>)
    ensures PostReply(albums, false, body, dbFailures) == Reply(401, albums)
  {
  }

  /** When no update fails, every listed album holds its (last) paired order and nothing else changes. */
  lemma {:induction false} ApplyIndependentValues(albums: map<Id, AlbumRow>, items: seq<OrderUpdate>, dbFailures: set<nat>, id: Id)
    requires id in albums
    requires !AnyFails(albums, items, dbFailures, |items|)
    ensures ApplyIndependent(albums, items, dbFailures)[id] ==
      match LastOrder(items, id)
      case Some(o) => albums[id].(order := o)
      case None => albums[id]
  {
    if |items| > 0 {
      var n := |items| - 1;
      assert !AnyFails(albums, items[..n], dbFailures, n) by {
        if AnyFails(albums, items[..n], dbFailures, n) {
          var k :| 0 <= k < n && UpdateFails(albums, items[..n], dbFailures, k);
          assert UpdateFails(albums, items, dbFailures, k);
        }
      }
      ApplyIndependentValues(albums, items[..n], dbFailures, id);
      assert !UpdateFails(albums, items, dbFailures, n);
    }
  }

  /** A 200 reply means every pair was applied: each listed album holds its (last) paired order. */
  lemma PostSetsOrders(albums: map<Id, AlbumRow>, items: seq<OrderUpdate>, dbFailures: set<nat>)
    requires PostReply(albums, true, Batch(items), dbFailures).status == 200
    ensures var after := PostReply(albums, true, Batch(items), dbFailures).after;
      && after.Keys == albums.Keys
      && (forall k :: 0 <= k < |items| ==> items[k].id in albums && after[items[k].id].order == LastOrder(items, items[k].id).value)
      && (forall id :: id in albums && LastOrder(items, id).None? ==> after[id] == albums[id])
  {
    forall k | 0 <= k < |items|
      ensures items[k].id in albums
    {
      assert !UpdateFails(albums, items, dbFailures, k);
    }
    forall id | id in albums {
      ApplyIndependentValues(albums, items, dbFailures, id);
    }
  }

  /**
   * The weakness of independent updates: a batch whose second pair names an
   * unknown album is answered 500, yet the first pair has been applied.
   */
  lemma PartialBatchStaysApplied(row: AlbumRow)
    requires row.order != 1
    ensures var albums := map[0 := row];
      var reply := PostReply(albums, true, Batch([OrderUpdate(0, 1), OrderUpdate(7, 0)]), {});
      reply.status == 500 && reply.after[0].order == 1 && reply.after != albums
  {
    var items := [OrderUpdate(0, 1), OrderUpdate(7, 0)];
    assert items[..1] == [OrderUpdate(0, 1)];
    assert items[..1][..0] == [];
    var albums := map[0 := row];
    assert ApplyIndependent(albums, items[..0], {}) == albums;
    assert ApplyIndependent(albums, items[..1], {}) == map[0 := row.(order := 1)];
    assert UpdateFails(albums, items, {}, 1);
    assert AnyFails(albums, items, {}, 2);
  }

  /** An empty batch succeeds and changes nothing. */
  lemma PostEmptyBatch(albums: map<Id, AlbumRow>)
    ensures PostReply(albums, true, Batch([]), {}) == Reply(200, albums)
  {
  }
}
