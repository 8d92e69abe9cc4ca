/**
 * The two database tables the core reads and writes (Album and Media),
 * modelled as maps from row id to row.
 *
 * Row ids are opaque in the source (generated strings of which only
 * equality is used); here they are numbers that the database issues from
 * a counter, so that a freshly created row never collides with an
 * existing one.
 */
module Store {
  import opened Wrappers

  type Id = nat

  datatype MediaKind = Image | Video

  datatype AlbumRow = AlbumRow(
    title: string,
    slug: string,
    description: Option<string>,
    coverUrl: Option<string>,
    order: int,
    createdAt: int)

  datatype MediaRow = MediaRow(
    url: string,
    kind: MediaKind,
    caption: Option<string>,
    albumId: Option<Id>,
    order: int,
    createdAt: int)

  /** No id occurs twice. */
  ghost predicate Distinct(ids: seq<Id>) {
    forall i, j :: 0 <= i < j < |ids| ==> ids[i] != ids[j]
  }

  /** A handler's HTTP status together with the table it leaves behind. */
  datatype Reply<R> = Reply(status: int, after: map<Id, R>)

  /** A snapshot of the whole store. */
  datatype Tables = Tables(albums: map<Id, AlbumRow>, media: map<Id, MediaRow>, nextId: nat)

  /** Every id was issued by the counter. */
  ghost predicate IdsIssued(t: Tables) {
    && (forall id :: id in t.albums ==> id < t.nextId)
    && (forall id :: id in t.media ==> id < t.nextId)
  }

  /** The media-to-album foreign key: a linked media row names an existing album. */
  ghost predicate LinksResolve(t: Tables) {
    forall id :: id in t.media && t.media[id].albumId.Some? ==> t.media[id].albumId.value in t.albums
  }

  /** The unique constraint on `Album.slug`. */
  ghost predicate SlugsUnique(albums: map<Id, AlbumRow>) {
    forall a, b :: a in albums && b in albums && a != b ==> albums[a].slug != albums[b].slug
  }

  ghost predicate ValidTables(t: Tables) {
    IdsIssued(t) && LinksResolve(t) && SlugsUnique(t.albums)
  }

  /** Rewriting only the `order` column of rows keeps every invariant. */
  lemma OrderRewriteKeepsValid(t: Tables, albums: map<Id, AlbumRow>, media: map<Id, MediaRow>)
    requires ValidTables(t)
    requires albums.Keys == t.albums.Keys && media.Keys == t.media.Keys
    requires forall id :: id in albums ==> albums[id] == t.albums[id].(order := albums[id].order)
    requires forall id :: id in media ==> media[id] == t.media[id].(order := media[id].order)
    ensures ValidTables(Tables(albums, media, t.nextId))
  {
    var u := Tables(albums, media, t.nextId);
    forall id | id in media && media[id].albumId.Some?
      ensures media[id].albumId.value in albums
    {
      assert media[id].albumId == t.media[id].albumId;
    }
    forall a, b | a in albums && b in albums && a != b
      ensures albums[a].slug != albums[b].slug
    {
      assert albums[a].slug == t.albums[a].slug && albums[b].slug == t.albums[b].slug;
    }
  }

  /** True when some album already carries `slug`. */
  predicate SlugTaken(albums: map<Id, AlbumRow>, slug: string) {
    exists id :: id in albums && albums[id].slug == slug
  }

  /** Inserting an album under the next id, with a slug no album holds, keeps every invariant. */
  lemma InsertAlbumKeepsValid(t: Tables, row: AlbumRow)
    requires ValidTables(t) && !SlugTaken(t.albums, row.slug)
    ensures t.nextId !in t.albums
    ensures ValidTables(Tables(t.albums[t.nextId := row], t.media, t.nextId + 1))
  {
    var albums := t.albums[t.nextId := row];
    forall a, b | a in albums && b in albums && a != b
      ensures albums[a].slug != albums[b].slug
    {
      if a == t.nextId {
        assert albums[b] == t.albums[b];
      } else if b == t.nextId {
        assert albums[a] == t.albums[a];
      }
    }
  }

  /** The database: two tables updated in place, and the id counter. */
  class Database {
    var albums: map<Id, AlbumRow>
    var media: map<Id, MediaRow>
    var nextId: nat

    function State(): Tables
      reads this
    {
      Tables(albums, media, nextId)
    }

    ghost predicate Valid()
      reads this
    {
      ValidTables(State())
    }

    constructor (t: Tables)
      requires ValidTables(t)
      ensures Valid() && State() == t
    {
      albums, media, nextId := t.albums, t.media, t.nextId;
    }
  }
}
