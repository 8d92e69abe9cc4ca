/**
 * The sortable albums grid: a locally owned copy of the album cards that an
 * admin reorders by drag and drop, with the new order shown at once and
 * sent to `POST /api/albums/reorder` without waiting. For other viewers the
 * cards are not sortable and carry no drag handle.
 */
module SortableAlbumsGrid {
  import opened Wrappers
  import opened Store
  import opened Ordering
  import AlbumsPage

  /** An album card as the grid holds it (the `AlbumWithMedia` shape). */
  datatype AlbumCard = AlbumCard(
    id: Id,
    title: string,
    description: Option<string>,
    slug: string,
    coverUrl: Option<string>,
    order: int,
    mediaCount: nat,
    thumbs: seq<AlbumsPage.Thumb>)

  /**
   * The ids of the album cards, in list order. The gallery has the same
   * projection for its own item type, `SortableGallery.Ids`; each component
   * keeps one for the record type it holds.
   */
  function Ids(albums: seq<AlbumCard>): (ids: seq<Id>)
    ensures |ids| == |albums|
    ensures forall k :: 0 <= k < |albums| ==> ids[k] == albums[k].id
  {
    seq(|albums|, k requires 0 <= k < |albums| => albums[k].id)
  }

  /**
   * What a card offers: whether it can be dragged (`useSortable` is
   * disabled otherwise) and whether the grip handle is drawn; its picture
   * follows the same cover, collage or "Empty" rule as the albums page.
   */
  datatype CardView = CardView(sortable: bool, dragHandle: bool, face: AlbumsPage.Face, href: string)

  function ViewCard(album: AlbumCard, isSortable: bool): (v: CardView)
    ensures v.sortable == isSortable && v.dragHandle == isSortable
    ensures v.face == AlbumsPage.CardFace(album.coverUrl, album.thumbs)
    ensures v.href == "/albums/" + album.slug
  {
    CardView(isSortable, isSortable, AlbumsPage.CardFace(album.coverUrl, album.thumbs), "/albums/" + album.slug)
  }

  class AlbumsGrid {
    var albums: seq<AlbumCard>
    const isAdmin: bool

    /** Local state starts as the snapshot passed in. */
    constructor (initialAlbums: seq<AlbumCard>, isAdmin: bool)
      ensures albums == initialAlbums && this.isAdmin == isAdmin
    {
      albums := initialAlbums;
      this.isAdmin := isAdmin;
    }

    /** The `initialAlbums` prop changed: local state is reset to that snapshot. */
    method InitialAlbumsChanged(initialAlbums: seq<AlbumCard>)
      modifies this
      ensures albums == initialAlbums
    {
      albums := initialAlbums;
    }

    /** Each card as drawn: sortable, with a handle, exactly for an admin. */
    function Cards(): (cards: seq<CardView>)
      reads this
      ensures |cards| == |albums|
      ensures forall k :: 0 <= k < |cards| ==> cards[k] == ViewCard(albums[k], isAdmin)
    {
      seq(|albums|, k requires 0 <= k < |albums| reads this => ViewCard(albums[k], isAdmin))
    }

    /**
     * `handleDragEnd`: the album `active` was dropped on `over`, or on
     * nothing. Both are cards of the grid when present. With no target the
     * handler throws at `over!.id` before touching state or sending
     * anything. Returns the batch sent to the server, if any. The new list
     * is kept whatever `outcome` the request has.
     */
    method HandleDragEnd(active: Id, over: Option<Id>, outcome: FetchOutcome) returns (request: Option<seq<OrderUpdate>>)
      requires active in Ids(albums) && (over.Some? ==> over.value in Ids(albums))
      modifies this
      ensures over.None? || over == Some(active) ==> albums == old(albums) && request == None
      ensures over.Some? && over.value != active ==>
        && albums == DropMove(old(albums), Ids(old(albums)), active, over.value)
        && request == Some(Payload(Ids(albums)))
    {
      request := None;
      if over != Some(active) {
        var ids := Ids(albums);
        var oldIndex := IndexOf(ids, active);
        if over.None? {
          return;
        }
        var newIndex := IndexOf(ids, over.value);
        var newOrder := ArrayMove(albums, oldIndex, newIndex);
        albums := newOrder;
        var orders := Payload(Ids(newOrder));
        request := Some(orders);
      }
    }

    /**
     * A drag gesture on the grid. Sortables are disabled for a viewer who is
     * not admin, so no drag reaches the handler and nothing happens.
     */
    method Drag(active: Id, over: Option<Id>, outcome: FetchOutcome) returns (request: Option<seq<OrderUpdate>>)
      requires active in Ids(albums) && (over.Some? ==> over.value in Ids(albums))
      modifies this
      ensures !isAdmin ==> albums == old(albums) && request == None
      ensures isAdmin && over.Some? && over.value != active ==>
        && albums == DropMove(old(albums), Ids(old(albums)), active, over.value)
        && request == Some(Payload(Ids(albums)))
      ensures isAdmin && (over.None? || over == Some(active)) ==> albums == old(albums) && request == None
    {
      if isAdmin {
        request := HandleDragEnd(active, over, outcome);
      } else {
        request := None;
      }
    }
  }

  /**
   * The scenario of three albums A, B, C with orders 0, 1, 2: dragging A onto
   * C gives B, C, A locally and sends [(B, 0), (C, 1), (A, 2)].
   */
  lemma DragFirstToLast(a: AlbumCard, b: AlbumCard, c: AlbumCard)
    requires a.id != b.id && a.id != c.id && b.id != c.id
    ensures var albums := [a, b, c];
      Ids(albums) == [a.id, b.id, c.id] &&
      var moved := DropMove(albums, Ids(albums), a.id, c.id);
      && moved == [b, c, a]
      && Payload(Ids(moved)) == [OrderUpdate(b.id, 0), OrderUpdate(c.id, 1), OrderUpdate(a.id, 2)]
  {
    var albums := [a, b, c];
    IdsOfThree(a, b, c);
    assert IndexOf([a.id, b.id, c.id], a.id) == 0;
    assert IndexOf([a.id, b.id, c.id], c.id) == 2;
    MoveFirstOfThree(a, b, c);
    IdsOfThree(b, c, a);
    PayloadOfThree(b.id, c.id, a.id);
  }

  lemma IdsOfThree(a: AlbumCard, b: AlbumCard, c: AlbumCard)
    ensures Ids([a, b, c]) == [a.id, b.id, c.id]
  {
  }

  lemma MoveFirstOfThree<T>(x: T, y: T, z: T)
    ensures ArrayMove([x, y, z], 0, 2) == [y, z, x]
  {
    var s := [x, y, z];
    var rest := s[..0] + s[1..];
    assert rest == [y, z];
    assert rest[..2] + [s[0]] + rest[2..] == [y, z, x];
  }

  lemma PayloadOfThree(x: Id, y: Id, z: Id)
    ensures Payload([x, y, z]) == [OrderUpdate(x, 0), OrderUpdate(y, 1), OrderUpdate(z, 2)]
  {
  }
}
