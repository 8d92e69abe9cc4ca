/**
 * `PUT /api/media/reorder`: apply a batch of `{id, order}` pairs to the
 * media table inside one transaction. No session is checked.
 *
 * `dbFails` stands for a transaction that the database aborts for a reason
 * other than an unknown id (a lost connection, a constraint the model does
 * not keep): it commits nothing and the handler answers 500.
 */
module MediaReorderRoute {
  import opened Wrappers
  import opened Store
  import opened Ordering

  /** The media table after the batch, applied pair by pair in array order; None when a pair names an unknown id. */
  function ApplyAll(media: map<Id, MediaRow>, updates: seq<OrderUpdate>): (r: Option<map<Id, MediaRow>>)
    ensures r.Some? <==> forall k :: 0 <= k < |updates| ==> updates[k].id in media
    ensures r.Some? ==> r.value.Keys == media.Keys
    ensures r.Some? ==> forall id :: id in r.value ==> r.value[id] == media[id].(order := r.value[id].order)
  {
    if |updates| == 0 then Some(media)
    else
      var n := |updates| - 1;
      var u := updates[n];
      match ApplyAll(media, updates[..n])
      case None => None
      case Some(prev) =>
        if u.id !in prev then None
        else Some(prev[u.id := prev[u.id].(order := u.order)])
  }

  /** What a successful batch does to each row: the last pair naming it sets its order. */
  lemma {:induction false} ApplyAllValues(media: map<Id, MediaRow>, updates: seq<OrderUpdate>, id: Id)
    requires ApplyAll(media, updates).Some? && id in media
    ensures ApplyAll(media, updates).value[id] ==
      match LastOrder(updates, id)
      case Some(o) => media[id].(order := o)
      case None => media[id]
  {
    if |updates| > 0 {
      var n := |updates| - 1;
      ApplyAllValues(media, updates[..n], id);
    }
  }

  /** The handler's status and the media table it leaves behind. */
  function PutReply(media: map<Id, MediaRow>, body: BatchBody, dbFails: bool): (r: Reply<MediaRow>)
  {
    match body
    case Unparsable => Reply(500, media)
    case NotArray => Reply(400, media)
    case Batch(items) =>
      match ApplyAll(media, items)
      case None => Reply(500, media)
      case Some(m) => if dbFails then Reply(500, media) else Reply(200, m)
  }

  /** The transaction: stage every update, commit only when all succeeded. */
  method Put(db: Database, body: BatchBody, dbFails: bool) returns (status: int)
    requires db.Valid()
    modifies db
    ensures db.Valid()
    ensures db.albums == old(db.albums) && db.nextId == old(db.nextId)
    ensures Reply(status, db.media) == PutReply(old(db.media), body, dbFails)
  {
    if body.Unparsable? {
      return 500;
    }
    if body.NotArray? {
      return 400;
    }
    var items := body.items;
    var staged := db.media;
    var i := 0;
    while i < |items|
      invariant 0 <= i <= |items|
      invariant ApplyAll(db.media, items[..i]) == Some(staged)
    {
      var u := items[i];
      if u.id !in staged {
        assert ApplyAll(db.media, items).None?;
        return 500;
      }
      assert items[..i + 1][..i] == items[..i];
      staged := staged[u.id := staged[u.id].(order := u.order)];
      i := i + 1;
    }
    assert items[..i] == items;
    if dbFails {
      return 500;
    }
    db.media := staged;
    status := 200;
  }

  /** All or nothing: any reply other than 200 leaves the table as it was. */
  lemma PutAllOrNothing(media: map<Id, MediaRow>, body: BatchBody, dbFails: bool)
    ensures PutReply(media, body, dbFails).status in {200, 400, 500}
    ensures PutReply(media, body, dbFails).status != 200 ==> PutReply(media, body, dbFails).after == media
    ensures PutReply(media, body, dbFails).status == 200 <==>
              body.Batch? && (forall k :: 0 <= k < |body.items| ==> body.items[k].id in media) && !dbFails
  {
  }

  /** On success every listed row holds its (last) paired order, nothing else changes. */
  lemma PutSetsOrders(media: map<Id, MediaRow>, items: seq<OrderUpdate>, dbFails: bool)
    requires PutReply(media, Batch(items), dbFails).status == 200
    ensures var after := PutReply(media, Batch(items), dbFails).after;
      && after.Keys == media.Keys
      && (forall k :: 0 <= k < |items| ==> after[items[k].id].order == LastOrder(items, items[k].id).value)
      && (forall id :: id in media && LastOrder(items, id).None? ==> after[id] == media[id])
      && (forall id :: id in media ==> after[id] == media[id].(order := after[id].order))
  {
    forall id | id in media {
      ApplyAllValues(media, items, id);
    }
  }

  /** An empty batch changes nothing; it is answered 200 unless the database fails. */
  lemma PutEmptyBatch(media: map<Id, MediaRow>, dbFails: bool)
    ensures PutReply(media, Batch([]), dbFails) == Reply(if dbFails then 500 else 200, media)
  {
  }
}
