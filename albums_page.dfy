/**
 * The albums index page: every album newest first, each with its total
 * media count and up to three of its newest media as a preview, drawn as a
 * card whose picture is the cover, a collage of the previews, or "Empty".
 * The persisted `order` column plays no part here.
 */
module AlbumsPage {
  import opened Wrappers
  import opened Store
  import opened Listing

  /** Sort key of a single descending column. */
  function Newest(createdAt: int): SortKey {
    SortKey(-createdAt, 0)
  }

  /** The page's album sort: `createdAt` descending, nothing else. */
  function AlbumsByDate(albums: map<Id, AlbumRow>): (keys: map<Id, SortKey>)
    ensures keys.Keys == albums.Keys
  {
    map id | id in albums :: Newest(albums[id].createdAt)
  }

  /** The album's media, keyed for the preview sort: `createdAt` descending. */
  function MediaByDate(media: map<Id, MediaRow>, albumId: Id): (keys: map<Id, SortKey>)
    ensures forall id :: id in keys <==> id in media && media[id].albumId == Some(albumId)
  {
    map id | id in media && media[id].albumId == Some(albumId) :: Newest(media[id].createdAt)
  }

  /** What the query returns per album: its id, its media count and its preview media. */
  datatype AlbumEntry = AlbumEntry(id: Id, mediaCount: nat, preview: seq<Id>)

  function EntryIds(entries: seq<AlbumEntry>): (ids: seq<Id>)
    ensures |ids| == |entries| && forall k :: 0 <= k < |entries| ==> ids[k] == entries[k].id
  {
    seq(|entries|, k requires 0 <= k < |entries| => entries[k].id)
  }

  function Min(a: nat, b: nat): nat {
    if a < b then a else b
  }

  /** `take: 3` of a newest-first listing of the album's media. */
  ghost predicate IsPreview(media: map<Id, MediaRow>, albumId: Id, preview: seq<Id>) {
    exists l :: IsListing(MediaByDate(media, albumId), l) && preview == l[..Min(3, |l|)]
  }

  /** `result` is a possible answer of the page's query on the store `t`. */
  ghost predicate IsAlbumsQuery(t: Tables, result: seq<AlbumEntry>) {
    && IsListing(AlbumsByDate(t.albums), EntryIds(result))
    && forall k :: 0 <= k < |result| ==>
         && result[k].mediaCount == |MediaByDate(t.media, result[k].id)|
         && IsPreview(t.media, result[k].id, result[k].preview)
  }

  /** One preview the query can return: the first three of a newest-first listing. */
  ghost function NewestThree(media: map<Id, MediaRow>, albumId: Id): (p: seq<Id>)
    ensures IsPreview(media, albumId, p)
  {
    var l := SortedListing(MediaByDate(media, albumId));
    assert IsListing(MediaByDate(media, albumId), l) && l[..Min(3, |l|)] == l[..Min(3, |l|)];
    l[..Min(3, |l|)]
  }

  /** One answer the query can return. */
  ghost function AlbumsQuery(t: Tables): (result: seq<AlbumEntry>)
    ensures IsAlbumsQuery(t, result)
  {
    var ids := SortedListing(AlbumsByDate(t.albums));
    var result := seq(|ids|, k requires 0 <= k < |ids| =>
      AlbumEntry(ids[k], |MediaByDate(t.media, ids[k])|, NewestThree(t.media, ids[k])));
    assert EntryIds(result) == ids;
    forall k | 0 <= k < |result|
      ensures result[k].mediaCount == |MediaByDate(t.media, result[k].id)|
      ensures IsPreview(t.media, result[k].id, result[k].preview)
    {
      assert result[k].id == ids[k] && result[k].preview == NewestThree(t.media, ids[k]);
    }
    result
  }

  /** Albums come newest first. */
  lemma AlbumsNewestFirst(t: Tables, result: seq<AlbumEntry>, i: nat, j: nat)
    requires IsAlbumsQuery(t, result) && i < j < |result|
    ensures result[i].id in t.albums && result[j].id in t.albums
    ensures t.albums[result[i].id].createdAt >= t.albums[result[j].id].createdAt
  {
    var ids := EntryIds(result);
    assert KeyLe(AlbumsByDate(t.albums)[ids[i]], AlbumsByDate(t.albums)[ids[j]]);
  }

  /** Rewriting `order` values (as an album reorder does) changes none of the page's possible answers. */
  lemma OrderHasNoEffect(t: Tables, albums: map<Id, AlbumRow>, result: seq<AlbumEntry>)
    requires albums.Keys == t.albums.Keys
    requires forall id :: id in albums ==> albums[id] == t.albums[id].(order := albums[id].order)
    ensures IsAlbumsQuery(t, result) <==> IsAlbumsQuery(t.(albums := albums), result)
  {
    assert AlbumsByDate(albums) == AlbumsByDate(t.albums);
  }

  /** The preview: at most three of the album's media, and none newer than it left out. */
  lemma PreviewIsNewestThree(t: Tables, albumId: Id, preview: seq<Id>)
    requires IsPreview(t.media, albumId, preview)
    ensures |preview| <= 3 && Distinct(preview)
    ensures forall x :: x in preview ==> x in t.media && t.media[x].albumId == Some(albumId)
    ensures forall x, y :: x in preview && y in t.media && t.media[y].albumId == Some(albumId) && y !in preview
              ==> t.media[x].createdAt >= t.media[y].createdAt
    ensures |preview| == Min(3, |MediaByDate(t.media, albumId)|)
  {
    var keys := MediaByDate(t.media, albumId);
    var l :| IsListing(keys, l) && preview == l[..Min(3, |l|)];
    PrefixIsNewest(t, albumId, l, Min(3, |l|));
    ListingLength(keys, l);
  }

  /** A prefix of a newest-first listing holds no row older than one left out. */
  lemma PrefixIsNewest(t: Tables, albumId: Id, l: seq<Id>, n: nat)
    requires IsListing(MediaByDate(t.media, albumId), l) && n <= |l|
    ensures forall x, y :: x in l[..n] && y in t.media && t.media[y].albumId == Some(albumId) && y !in l[..n]
              ==> t.media[x].createdAt >= t.media[y].createdAt
  {
    var keys := MediaByDate(t.media, albumId);
    forall x, y | x in l[..n] && y in t.media && t.media[y].albumId == Some(albumId) && y !in l[..n]
      ensures t.media[x].createdAt >= t.media[y].createdAt
    {
      var i :| 0 <= i < n && l[i] == x;
      assert y in keys;
      var j :| 0 <= j < |l| && l[j] == y;
      assert i < j;
      assert KeyLe(keys[l[i]], keys[l[j]]);
    }
  }

  /** A listing names every selected row once, so it is as long as the selection. */
  lemma ListingLength(keys: map<Id, SortKey>, l: seq<Id>)
    requires IsListing(keys, l)
    ensures |l| == |keys|
  {
    assert Elems(l) == keys.Keys;
    DistinctCard(l);
  }

  /** The "No Albums Yet" block appears exactly when the store has no album. */
  lemma EmptyStateExactlyWithoutAlbums(t: Tables, result: seq<AlbumEntry>)
    requires IsAlbumsQuery(t, result)
    ensures |result| == 0 <==> |t.albums| == 0
  {
    ListingLength(AlbumsByDate(t.albums), EntryIds(result));
  }

  /** A preview thumbnail: the selected `{url, type}` of a media row. */
  datatype Thumb = Thumb(url: string, kind: MediaKind)

  /** The picture area of an album card. */
  datatype Face = Cover(url: string) | Collage(thumbs: seq<Thumb>) | Empty

  /**
   * The card's picture: the cover if `coverUrl` is set (a non-empty
   * string), else a collage of the first three thumbnails if there are
   * any, else "Empty".
   */
  function CardFace(coverUrl: Option<string>, thumbs: seq<Thumb>): (f: Face)
    ensures coverUrl.Some? && coverUrl.value != "" <==> f.Cover?
    ensures f.Cover? ==> f == Cover(coverUrl.value)
    ensures f.Collage? <==> !f.Cover? && |thumbs| > 0
    ensures f.Collage? ==> |f.thumbs| == Min(3, |thumbs|) && f.thumbs == thumbs[..|f.thumbs|]
  {
    if coverUrl.Some? && coverUrl.value != "" then Cover(coverUrl.value)
    else if |thumbs| > 0 then Collage(thumbs[..Min(3, |thumbs|)])
    else Empty
  }
}
