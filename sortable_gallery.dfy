/**
 * The sortable media grid of an album page: a locally owned copy of the
 * album's media that the user reorders by drag and drop, with the new order
 * shown at once and sent to `PUT /api/media/reorder` without waiting.
 */
module SortableGallery {
  import opened Wrappers
  import opened Store
  import opened Ordering

  /** A media item as the grid holds it. */
  datatype MediaItem = MediaItem(id: Id, url: string, kind: MediaKind, caption: Option<string>, order: int)

  /** The ids of the media items, in list order (the grid's `items.map(i => i.id)`). */
  function Ids(items: seq<MediaItem>): (ids: seq<Id>)
    ensures |ids| == |items|
    ensures forall k :: 0 <= k < |items| ==> ids[k] == items[k].id
  {
    seq(|items|, k requires 0 <= k < |items| => items[k].id)
  }

  /** The first item with id `id`, if any (`Array.prototype.find`). */
  function Find(items: seq<MediaItem>, id: Id): (r: Option<MediaItem>)
    ensures r.None? <==> id !in Ids(items)
    ensures r.Some? ==> r.value == items[IndexOf(Ids(items), id)]
  {
    var i := IndexOf(Ids(items), id);
    if i < 0 then None else Some(items[i])
  }

  class Gallery {
    var mediaItems: seq<MediaItem>
    var selectedId: Option<Id>

    /** Local state starts as the snapshot passed in, with no item open. */
    constructor (items: seq<MediaItem>)
      ensures mediaItems == items && selectedId == None
    {
      mediaItems := items;
      selectedId := None;
    }

    /** The `items` prop changed: the local list is replaced wholesale, earlier drags are discarded. */
    method ItemsChanged(items: seq<MediaItem>)
      modifies this
      ensures mediaItems == items && selectedId == old(selectedId)
    {
      mediaItems := items;
    }

    /**
     * `handleDragEnd`: the item `active` was dropped on the item `over`.
     * Both are items of the grid (the sortable context reports nothing else)
     * and a drop target is present: the handler dereferences it
     * unconditionally. Returns the batch sent to the server, if any. The new
     * list is kept whatever `outcome` the request has.
     */
    method HandleDragEnd(active: Id, over: Id, outcome: FetchOutcome) returns (request: Option<seq<OrderUpdate>>)
      requires active in Ids(mediaItems) && over in Ids(mediaItems)
      modifies this
      ensures selectedId == old(selectedId)
      ensures active == over ==> mediaItems == old(mediaItems) && request == None
      ensures active != over ==>
        && mediaItems == DropMove(old(mediaItems), Ids(old(mediaItems)), active, over)
        && request == Some(Payload(Ids(mediaItems)))
    {
      if active != over {
        var ids := Ids(mediaItems);
        var oldIndex := IndexOf(ids, active);
        var newIndex := IndexOf(ids, over);
        var newOrder := ArrayMove(mediaItems, oldIndex, newIndex);
        request := PersistOrder(newOrder, outcome);
        mediaItems := newOrder;
      } else {
        request := None;
      }
    }

    /** `persistOrder`: one batch pairing every item with its position; a failure is only logged. */
    static method PersistOrder(orderedItems: seq<MediaItem>, outcome: FetchOutcome) returns (request: Option<seq<OrderUpdate>>)
      ensures request == Some(Payload(Ids(orderedItems)))
    {
      request := Some(Payload(Ids(orderedItems)));
    }

    /** Clicking an item opens it in the lightbox. */
    method Select(id: Id)
      modifies this
      ensures selectedId == Some(id) && mediaItems == old(mediaItems)
    {
      selectedId := Some(id);
    }

    /** The lightbox's close button. */
    method CloseLightbox()
      modifies this
      ensures selectedId == None && mediaItems == old(mediaItems)
    {
      selectedId := None;
    }

    /** A key press: Escape with an item open clears the selection; anything else changes nothing. */
    method KeyDown(key: string)
      modifies this
      ensures mediaItems == old(mediaItems)
      ensures selectedId == if key == "Escape" then None else old(selectedId)
    {
      if key == "Escape" && selectedId.Some? {
        selectedId := None;
      }
    }

    /** The item the lightbox shows: the selected one, or nothing when none is selected or it is gone. */
    function LightboxItem(): (r: Option<MediaItem>)
      reads this
      ensures r.Some? ==> selectedId.Some? && r.value.id == selectedId.value && r.value in mediaItems
      ensures selectedId.Some? && selectedId.value in Ids(mediaItems) ==> r.Some?
    {
      if selectedId.None? then None else Find(mediaItems, selectedId.value)
    }
  }

  /**
   * A real drop, item by item: the list keeps its length and its items,
   * the dragged item lands on the target's position, the items between the
   * two positions shift by one, and all others stay where they were.
   */
  lemma DropShifts(items: seq<MediaItem>, active: Id, over: Id, k: nat)
    requires active in Ids(items) && over in Ids(items) && k < |items|
    ensures var from, to := IndexOf(Ids(items), active), IndexOf(Ids(items), over);
      var r := DropMove(items, Ids(items), active, over);
      && multiset(r) == multiset(items)
      && r[to].id == active
      && (from < to && from <= k < to ==> r[k] == items[k + 1])
      && (to < from && to < k <= from ==> r[k] == items[k - 1])
      && ((k < from && k < to) || (from < k && to < k) ==> r[k] == items[k])
  {
    ArrayMoveAt(items, IndexOf(Ids(items), active), IndexOf(Ids(items), over), k);
  }
}
