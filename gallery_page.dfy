/**
 * The public gallery page: every album, sorted by `order` ascending and,
 * among equal orders, newest first; under each album its media sorted by
 * `order` ascending. Also the round trip of the reorder flow: what a drag
 * persisted is what this query lists.
 */
module GalleryPage {
  import opened Wrappers
  import opened Store
  import opened Ordering
  import opened Listing
  import MediaReorderRoute
  import AlbumsReorderRoute

  /** The album sort: `order` ascending, then `createdAt` descending. */
  function AlbumKeys(albums: map<Id, AlbumRow>): (keys: map<Id, SortKey>)
    ensures keys.Keys == albums.Keys
  {
    map id | id in albums :: SortKey(albums[id].order, -albums[id].createdAt)
  }

  /** The media of one album, sorted by `order` ascending with no second key. */
  function MediaKeys(media: map<Id, MediaRow>, albumId: Id): (keys: map<Id, SortKey>)
    ensures forall id :: id in keys <==> id in media && media[id].albumId == Some(albumId)
  {
    map id | id in media && media[id].albumId == Some(albumId) :: SortKey(media[id].order, 0)
  }

  /** One album of the page with the ids of its media, in display order. */
  datatype Section = Section(albumId: Id, media: seq<Id>)

  function AlbumIds(sections: seq<Section>): (ids: seq<Id>)
    ensures |ids| == |sections| && forall k :: 0 <= k < |sections| ==> ids[k] == sections[k].albumId
  {
    seq(|sections|, k requires 0 <= k < |sections| => sections[k].albumId)
  }

  /** `sections` is a possible answer of the page's query on the store `t`. */
  ghost predicate IsGalleryQuery(t: Tables, sections: seq<Section>) {
    && IsListing(AlbumKeys(t.albums), AlbumIds(sections))
    && forall k :: 0 <= k < |sections| ==> IsListing(MediaKeys(t.media, sections[k].albumId), sections[k].media)
  }

  /** One answer the query can return. */
  ghost function GalleryQuery(t: Tables): (sections: seq<Section>)
    ensures IsGalleryQuery(t, sections)
  {
    var ids := SortedListing(AlbumKeys(t.albums));
    var sections := seq(|ids|, k requires 0 <= k < |ids| => Section(ids[k], SortedListing(MediaKeys(t.media, ids[k]))));
    assert AlbumIds(sections) == ids;
    forall k | 0 <= k < |sections|
      ensures IsListing(MediaKeys(t.media, sections[k].albumId), sections[k].media)
    {
      assert sections[k].albumId == ids[k] && sections[k].media == SortedListing(MediaKeys(t.media, ids[k]));
    }
    sections
  }

  /** What a section shows under its heading: the grid of its media, or the "no photos" line. */
  datatype SectionBody = Grid(items: seq<Id>) | NoPhotos

  /** The section's count label and body. */
  function Render(s: Section): (r: (nat, SectionBody))
    ensures r.0 == |s.media|
    ensures r.1 == NoPhotos <==> |s.media| == 0
    ensures r.1.Grid? ==> r.1.items == s.media
  {
    (|s.media|, if |s.media| > 0 then Grid(s.media) else NoPhotos)
  }

  /** Albums come by `order` ascending; equal orders come newest first. */
  lemma AlbumsByOrderThenNewest(t: Tables, sections: seq<Section>, i: nat, j: nat)
    requires IsGalleryQuery(t, sections) && i < j < |sections|
    ensures var a, b := sections[i].albumId, sections[j].albumId;
      && a in t.albums && b in t.albums
      && t.albums[a].order <= t.albums[b].order
      && (t.albums[a].order == t.albums[b].order ==> t.albums[a].createdAt >= t.albums[b].createdAt)
  {
    var ids := AlbumIds(sections);
    assert KeyLe(AlbumKeys(t.albums)[ids[i]], AlbumKeys(t.albums)[ids[j]]);
  }

  /** Every album has a section, empty ones included, and no album has two. */
  lemma EveryAlbumShownOnce(t: Tables, sections: seq<Section>)
    requires IsGalleryQuery(t, sections)
    ensures forall id :: id in t.albums ==> exists k :: 0 <= k < |sections| && sections[k].albumId == id
    ensures forall i, j :: 0 <= i < j < |sections| ==> sections[i].albumId != sections[j].albumId
  {
    var ids := AlbumIds(sections);
    forall id | id in t.albums
      ensures exists k :: 0 <= k < |sections| && sections[k].albumId == id
    {
      assert id in ids;
      var k :| 0 <= k < |ids| && ids[k] == id;
      assert sections[k].albumId == id;
    }
    forall i, j | 0 <= i < j < |sections|
      ensures sections[i].albumId != sections[j].albumId
    {
      assert ids[i] != ids[j];
    }
  }

  /** A section lists exactly the media attached to its album, in `order`; unattached media appear nowhere. */
  lemma SectionHoldsItsMedia(t: Tables, sections: seq<Section>, k: nat)
    requires IsGalleryQuery(t, sections) && k < |sections|
    ensures var s := sections[k];
      && (forall id :: id in s.media <==> id in t.media && t.media[id].albumId == Some(s.albumId))
      && (forall i, j :: 0 <= i < j < |s.media| ==> t.media[s.media[i]].order <= t.media[s.media[j]].order)
  {
    var s := sections[k];
    var keys := MediaKeys(t.media, s.albumId);
    forall i, j | 0 <= i < j < |s.media|
      ensures t.media[s.media[i]].order <= t.media[s.media[j]].order
    {
      assert KeyLe(keys[s.media[i]], keys[s.media[j]]);
    }
  }

  /**
   * Round trip for media: when the batch a drag sends for an album covers
   * exactly that album's media and the server applies it, the gallery lists
   * the album's media in the order the client showed.
   */
  lemma MediaRoundTrip(t: Tables, albumId: Id, ids: seq<Id>, dbFails: bool, sections: seq<Section>, k: nat)
    requires Distinct(ids)
    requires forall id :: id in ids <==> id in t.media && t.media[id].albumId == Some(albumId)
    requires var reply := MediaReorderRoute.PutReply(t.media, Batch(Payload(ids)), dbFails);
      reply.status == 200 && IsGalleryQuery(t.(media := reply.after), sections)
    requires k < |sections| && sections[k].albumId == albumId
    ensures sections[k].media == ids
  {
    var p := Payload(ids);
    var after := MediaReorderRoute.PutReply(t.media, Batch(p), dbFails).after;
    MediaReorderRoute.PutSetsOrders(t.media, p, dbFails);
    var keys := MediaKeys(after, albumId);
    forall x
      ensures x in keys <==> x in ids
    {
      if x in t.media {
        assert after[x].albumId == t.media[x].albumId;
      }
    }
    forall i | 0 <= i < |ids|
      ensures keys[ids[i]].primary == i
    {
      assert p[i].id == ids[i];
      PayloadLastOrder(ids, i);
    }
    ListingOfPositions(keys, ids, sections[k].media);
  }

  /**
   * Round trip for albums: when the batch a drag sends covers every album
   * and every update succeeds, the gallery lists the albums in the order the
   * client showed, whatever their creation times.
   */
  lemma AlbumsRoundTrip(t: Tables, ids: seq<Id>, dbFailures: set<nat>, sections: seq<Section>)
    requires Distinct(ids)
    requires forall id :: id in ids <==> id in t.albums
    requires var reply := AlbumsReorderRoute.PostReply(t.albums, true, Batch(Payload(ids)), dbFailures);
      reply.status == 200 && IsGalleryQuery(t.(albums := reply.after), sections)
    ensures AlbumIds(sections) == ids
  {
    var p := Payload(ids);
    var after := AlbumsReorderRoute.PostReply(t.albums, true, Batch(p), dbFailures).after;
    AlbumsReorderRoute.PostSetsOrders(t.albums, p, dbFailures);
    var keys := AlbumKeys(after);
    forall i | 0 <= i < |ids|
      ensures keys[ids[i]].primary == i
    {
      assert p[i].id == ids[i];
      PayloadLastOrder(ids, i);
    }
    ListingOfPositions(keys, ids, AlbumIds(sections));
  }
}
