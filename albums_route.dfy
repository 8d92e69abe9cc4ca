/**
 * The album collection endpoint `/api/albums`: list (GET), create (POST),
 * rename (PUT) and delete (DELETE). None of the four checks a session.
 *
 * Request bodies are given already parsed (or `Unparsable` when reading
 * the JSON throws). A database write can also fail for reasons the model
 * does not see (`dbFails`, `removeFails`); the unique slug and the missing
 * row are modelled as the failures they are.
 */
module AlbumsRoute {
  import opened Wrappers
  import opened Store
  import opened Http
  import opened Listing
  import opened Slugs
  import AlbumsPage

  /** The column value written for `description` by a create: unset means null. */
  function Described(f: Field): (d: Option<string>)
    ensures d.Some? <==> f.Text?
  {
    if f.Text? then Some(f.s) else None
  }

  /** An update writes `description` only when the body names it; `null` clears it. */
  function Redescribed(current: Option<string>, f: Field): (d: Option<string>)
    ensures f.Absent? ==> d == current
    ensures !f.Absent? ==> d == Described(f)
  {
    if f.Absent? then current else Described(f)
  }

  datatype CreateBody = CreateBody(title: Field, description: Field)
  datatype UpdateBody = UpdateBody(id: Option<Id>, title: Field, description: Field)
  datatype DeleteBody = DeleteBody(id: Option<Id>)

  /** A handler's status and the store it leaves. */
  datatype Response = Response(status: int, after: Tables)

  // ---------------------------------------------------------------- GET

  /** The GET answer: a status and the albums it lists. */
  datatype Listed = Listed(status: int, albums: seq<Id>)

  /** `r` is a possible answer of GET: every album newest first, or 500 when the query fails. */
  ghost predicate IsGetReply(t: Tables, dbFails: bool, r: Listed) {
    if dbFails then r == Listed(500, [])
    else r.status == 200 && IsListing(AlbumsPage.AlbumsByDate(t.albums), r.albums)
  }

  /** GET always has an answer. */
  ghost function Get(t: Tables, dbFails: bool): (r: Listed)
    ensures IsGetReply(t, dbFails, r)
  {
    if dbFails then Listed(500, []) else Listed(200, SortedListing(AlbumsPage.AlbumsByDate(t.albums)))
  }

  /** A successful GET lists each album once, newest `createdAt` first. */
  lemma GetNewestFirst(t: Tables, r: Listed)
    requires IsGetReply(t, false, r)
    ensures |r.albums| == |t.albums| && Distinct(r.albums)
    ensures forall id :: id in t.albums <==> id in r.albums
    ensures forall i, j :: 0 <= i < j < |r.albums| ==>
      t.albums[r.albums[i]].createdAt >= t.albums[r.albums[j]].createdAt
  {
    AlbumsPage.ListingLength(AlbumsPage.AlbumsByDate(t.albums), r.albums);
    forall i, j | 0 <= i < j < |r.albums|
      ensures t.albums[r.albums[i]].createdAt >= t.albums[r.albums[j]].createdAt
    {
      assert KeyLe(AlbumsPage.AlbumsByDate(t.albums)[r.albums[i]], AlbumsPage.AlbumsByDate(t.albums)[r.albums[j]]);
    }
  }

  // ---------------------------------------------------------------- POST

  /** The row a create inserts: derived slug, `order` 0, no cover yet. */
  function NewAlbum(title: string, description: Field, now: int): AlbumRow {
    AlbumRow(title, Slug(title), Described(description), None, 0, now)
  }

  /** POST: validate the title, derive the slug, insert one album. */
  function CreateReply(t: Tables, body: Json<CreateBody>, dbFails: bool, now: int): (r: Response)
    ensures r.status in {200, 400, 500}
    ensures r.status == 400 <==> body.Parsed? && Falsy(body.value.title)
    ensures r.status != 200 ==> r.after == t
  {
    if body.Unparsable? then Response(500, t)
    else if Falsy(body.value.title) then Response(400, t)
    else
      var title := body.value.title.s;
      if SlugTaken(t.albums, Slug(title)) || dbFails then Response(500, t)
      else
        var row := NewAlbum(title, body.value.description, now);
        Response(200, Tables(t.albums[t.nextId := row], t.media, t.nextId + 1))
  }

  /** A create succeeds exactly when the body parses, the title is set, its slug is free and the insert goes through. */
  lemma CreateSucceedsIff(t: Tables, body: Json<CreateBody>, dbFails: bool, now: int)
    ensures CreateReply(t, body, dbFails, now).status == 200 <==>
      && body.Parsed? && !Falsy(body.value.title)
      && !SlugTaken(t.albums, Slug(body.value.title.s)) && !dbFails
  {
  }

  /** A successful create adds exactly one fresh album, with `order` 0 and the derived slug, and keeps the store valid. */
  lemma CreateAddsOneAlbum(t: Tables, body: Json<CreateBody>, dbFails: bool, now: int)
    requires ValidTables(t)
    requires CreateReply(t, body, dbFails, now).status == 200
    ensures var after := CreateReply(t, body, dbFails, now).after;
      && ValidTables(after)
      && t.nextId !in t.albums
      && after.albums.Keys == t.albums.Keys + {t.nextId}
      && |after.albums| == |t.albums| + 1
      && (forall id :: id in t.albums ==> after.albums[id] == t.albums[id])
      && after.albums[t.nextId].title == body.value.title.s
      && after.albums[t.nextId].slug == Slug(body.value.title.s)
      && after.albums[t.nextId].order == 0
      && after.media == t.media
  {
    var title := body.value.title.s;
    var row := NewAlbum(title, body.value.description, now);
    assert CreateReply(t, body, dbFails, now).after == Tables(t.albums[t.nextId := row], t.media, t.nextId + 1);
    InsertAlbumKeepsValid(t, row);
    InsertOne(t.albums, t.nextId, row);
  }

  /** Storing under a key not yet present adds exactly that key. */
  lemma InsertOne(albums: map<Id, AlbumRow>, id: Id, row: AlbumRow)
    requires id !in albums
    ensures albums[id := row].Keys == albums.Keys + {id}
    ensures |albums[id := row]| == |albums| + 1
    ensures forall k :: k in albums ==> albums[id := row][k] == albums[k]
  {
    assert |albums[id := row].Keys| == |albums.Keys| + 1;
  }

  /** A title without ASCII letters or digits still reaches the insert, with the empty slug. */
  lemma CreateWithEmptySlug(t: Tables, now: int)
    requires !SlugTaken(t.albums, "")
    ensures var r := CreateReply(t, Parsed(CreateBody(Text("!?"), Absent)), false, now);
      r.status == 200 && r.after.albums[t.nextId].slug == ""
  {
    assert Slug("!?") == "" by {
      SlugEmptyIff("!?");
    }
  }

  /** POST on the database. */
  method Create(db: Database, body: Json<CreateBody>, dbFails: bool, now: int) returns (status: int)
    requires db.Valid()
    modifies db
    ensures db.Valid()
    ensures Response(status, db.State()) == CreateReply(old(db.State()), body, dbFails, now)
  {
    if body.Unparsable? {
      return 500;
    }
    if Falsy(body.value.title) {
      return 400;
    }
    var title := body.value.title.s;
    var slug := Slug(title);
    if SlugTaken(db.albums, slug) || dbFails {
      return 500;
    }
    ghost var before := db.State();
    CreateAddsOneAlbum(before, body, dbFails, now);
    db.albums := db.albums[db.nextId := NewAlbum(title, body.value.description, now)];
    db.nextId := db.nextId + 1;
    status := 200;
  }

  // ---------------------------------------------------------------- PUT

  /** PUT: validate id and title, re-derive the slug, update title, slug and description of one album. */
  function UpdateReply(t: Tables, body: Json<UpdateBody>, dbFails: bool): (r: Response)
    ensures r.status in {200, 400, 500}
    ensures r.status == 400 <==> body.Parsed? && (body.value.id.None? || Falsy(body.value.title))
    ensures r.status != 200 ==> r.after == t
  {
    if body.Unparsable? then Response(500, t)
    else if body.value.id.None? || Falsy(body.value.title) then Response(400, t)
    else
      var id, title := body.value.id.value, body.value.title.s;
      if id !in t.albums || SlugTaken(t.albums - {id}, Slug(title)) || dbFails then Response(500, t)
      else
        var row := t.albums[id];
        var row' := row.(title := title, slug := Slug(title), description := Redescribed(row.description, body.value.description));
        Response(200, t.(albums := t.albums[id := row']))
  }

  /** An update succeeds exactly when the album exists and no other album holds the new slug. */
  lemma UpdateSucceedsIff(t: Tables, body: Json<UpdateBody>, dbFails: bool)
    ensures UpdateReply(t, body, dbFails).status == 200 <==>
      && body.Parsed? && body.value.id.Some? && !Falsy(body.value.title)
      && body.value.id.value in t.albums
      && !SlugTaken(t.albums - {body.value.id.value}, Slug(body.value.title.s))
      && !dbFails
  {
  }

  /** A successful update rewrites title, slug and description of that album only, and keeps the store valid. */
  lemma UpdateRenamesOneAlbum(t: Tables, body: Json<UpdateBody>, dbFails: bool)
    requires ValidTables(t)
    requires UpdateReply(t, body, dbFails).status == 200
    ensures var after, id := UpdateReply(t, body, dbFails).after, body.value.id.value;
      && ValidTables(after)
      && after.albums.Keys == t.albums.Keys
      && (forall other :: other in t.albums && other != id ==> after.albums[other] == t.albums[other])
      && after.albums[id].title == body.value.title.s
      && after.albums[id].slug == Slug(body.value.title.s)
      && after.albums[id].description == Redescribed(t.albums[id].description, body.value.description)
      && after.albums[id].order == t.albums[id].order
      && after.albums[id].coverUrl == t.albums[id].coverUrl
      && after.albums[id].createdAt == t.albums[id].createdAt
      && after.media == t.media && after.nextId == t.nextId
  {
    var after, id := UpdateReply(t, body, dbFails).after, body.value.id.value;
    forall a, b | a in after.albums && b in after.albums && a != b
      ensures after.albums[a].slug != after.albums[b].slug
    {
      if a == id {
        assert b in t.albums - {id};
      } else if b == id {
        assert a in t.albums - {id};
      }
    }
  }

  /** Re-saving an album under its own title never clashes with itself. */
  lemma UpdateSameTitle(t: Tables, id: Id, dbFails: bool)
    requires ValidTables(t) && id in t.albums
    requires t.albums[id].title != "" && t.albums[id].slug == Slug(t.albums[id].title)
    ensures var body := Parsed(UpdateBody(Some(id), Text(t.albums[id].title), Absent));
      UpdateReply(t, body, dbFails).status == (if dbFails then 500 else 200)
  {
  }

  /** PUT on the database. */
  method Update(db: Database, body: Json<UpdateBody>, dbFails: bool) returns (status: int)
    requires db.Valid()
    modifies db
    ensures db.Valid()
    ensures Response(status, db.State()) == UpdateReply(old(db.State()), body, dbFails)
  {
    if body.Unparsable? {
      return 500;
    }
    if body.value.id.None? || Falsy(body.value.title) {
      return 400;
    }
    var id, title := body.value.id.value, body.value.title.s;
    var slug := Slug(title);
    if id !in db.albums || SlugTaken(db.albums - {id}, slug) || dbFails {
      return 500;
    }
    ghost var before := db.State();
    UpdateRenamesOneAlbum(before, body, dbFails);
    var row := db.albums[id];
    db.albums := db.albums[id := row.(title := title, slug := slug, description := Redescribed(row.description, body.value.description))];
    status := 200;
  }

  // ---------------------------------------------------------------- DELETE

  /** `updateMany({where: {albumId: id}, data: {albumId: null}})`. */
  function Unlink(media: map<Id, MediaRow>, id: Id): map<Id, MediaRow> {
    map m | m in media :: if media[m].albumId == Some(id) then media[m].(albumId := None) else media[m]
  }

  /**
   * DELETE: validate the id, unlink the album's media, then remove the album;
   * the two writes are separate. `unlinkFails` and `removeFails` stand for a
   * database error in the first and in the second write.
   */
  function DeleteReply(t: Tables, body: Json<DeleteBody>, unlinkFails: bool, removeFails: bool): (r: Response)
    ensures r.status in {200, 400, 500}
    ensures r.status == 400 <==> body.Parsed? && body.value.id.None?
    ensures r.status == 200 <==> body.Parsed? && body.value.id.Some? && body.value.id.value in t.albums && !unlinkFails && !removeFails
    ensures r.after.nextId == t.nextId
  {
    if body.Unparsable? then Response(500, t)
    else if body.value.id.None? then Response(400, t)
    else if unlinkFails then Response(500, t)
    else
      var id := body.value.id.value;
      var media := Unlink(t.media, id);
      if id !in t.albums || removeFails then Response(500, t.(media := media))
      else Response(200, Tables(t.albums - {id}, media, t.nextId))
  }

  /**
   * Once the id is known, every media row survives; exactly the album's rows
   * lose their link and nothing else about any row changes; no row still
   * names the album. On success the album is gone and the others keep their
   * rows, `order` included (no renumbering). The store stays valid.
   */
  lemma DeleteUnlinksThenRemoves(t: Tables, id: Id, removeFails: bool)
    requires ValidTables(t)
    ensures var r := DeleteReply(t, Parsed(DeleteBody(Some(id))), false, removeFails);
      && ValidTables(r.after)
      && r.after.media.Keys == t.media.Keys
      && (forall m :: m in t.media && t.media[m].albumId == Some(id) ==> r.after.media[m] == t.media[m].(albumId := None))
      && (forall m :: m in t.media && t.media[m].albumId != Some(id) ==> r.after.media[m] == t.media[m])
      && (forall m :: m in r.after.media ==> r.after.media[m].albumId != Some(id))
      && (r.status == 200 ==> r.after.albums == t.albums - {id})
      && (r.status == 500 ==> r.after.albums == t.albums)
  {
    var r := DeleteReply(t, Parsed(DeleteBody(Some(id))), false, removeFails);
    forall m | m in r.after.media && r.after.media[m].albumId.Some?
      ensures r.after.media[m].albumId.value in r.after.albums
    {
      assert t.media[m].albumId == r.after.media[m].albumId;
    }
  }

  /** When the unlink fails nothing has been written: the reply is 500 and the store is as it was. */
  lemma DeleteUnlinkFailureChangesNothing(t: Tables, body: Json<DeleteBody>, removeFails: bool)
    requires body.Parsed? && body.value.id.Some?
    ensures DeleteReply(t, body, true, removeFails) == Response(500, t)
  {
  }

  /** Deleting an album that does not exist answers 500 and, in a valid store, changes nothing. */
  lemma DeleteUnknownChangesNothing(t: Tables, id: Id, unlinkFails: bool, removeFails: bool)
    requires ValidTables(t) && id !in t.albums
    ensures DeleteReply(t, Parsed(DeleteBody(Some(id))), unlinkFails, removeFails) == Response(500, t)
  {
    assert Unlink(t.media, id) == t.media;
  }

  /** When removing the album fails, its media stay unlinked although the album remains. */
  lemma DeleteFailureKeepsUnlink(album: AlbumRow, photo: MediaRow)
    requires photo.albumId == Some(0)
    ensures var t := Tables(map[0 := album], map[1 := photo], 2);
      var r := DeleteReply(t, Parsed(DeleteBody(Some(0))), false, true);
      && r.status == 500 && 0 in r.after.albums
      && r.after.media[1].albumId == None
  {
  }

  /** DELETE on the database: first the media, then the album. */
  method Delete(db: Database, body: Json<DeleteBody>, unlinkFails: bool, removeFails: bool) returns (status: int)
    requires db.Valid()
    modifies db
    ensures db.Valid()
    ensures Response(status, db.State()) == DeleteReply(old(db.State()), body, unlinkFails, removeFails)
  {
    if body.Unparsable? {
      return 500;
    }
    if body.value.id.None? {
      return 400;
    }
    if unlinkFails {
      return 500;
    }
    var id := body.value.id.value;
    ghost var before := db.State();
    DeleteUnlinksThenRemoves(before, id, removeFails);
    db.media := Unlink(db.media, id);
    if id !in db.albums || removeFails {
      return 500;
    }
    db.albums := db.albums - {id};
    status := 200;
  }
}
