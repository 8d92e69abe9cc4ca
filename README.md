# goldie-memories in Dafny

A model of the core of **goldie-memories**, a private Next.js photo and video gallery. It covers:

- **Albums and media.** Albums (title, unique slug, description, cover, `order`, creation time) own media (url, image or video, caption, album link, `order`, creation time).
- **Drag-and-drop reordering** of albums and of the media of one album:
  - The client moves one item (`arrayMove`) and updates its local list at once.
  - It then sends one batch of `{id, order}` pairs, pairing every item with its new position.
  - The media endpoint applies a batch in one transaction.
  - The album endpoint applies each pair on its own, after a session check.
- **Listing queries:**
  - the gallery page: albums by `order` then newest, media by `order`;
  - the albums page: albums newest first, with a three-item preview.
- **The album CRUD endpoint**, including the slug derived from the title.
- **The presigned-upload endpoint** and its object key.
- **The upload page**: its queue, its per-file progress labels, and its metadata saves.
- **Authentication:** the credential check and the `jwt`/`session` callbacks.
- **The route guard** of the middleware.
- **Two scripts:**
  - the local seed importer (directories become albums, files become media, and a second run adds nothing);
  - the schema initialiser (split on `;`, trim, drop empty pieces, execute in order, stop at the first failure).

## Layout

One module per source file, plus shared modules:

| file | module | models |
|---|---|---|
| wrappers.dfy | `Wrappers` | `Option` |
| store.dfy | `Store` | rows, the `Tables` snapshot and its invariants (ids issued by a counter, links resolve, unique slugs), the `Database` class |
| ordering.dfy | `Ordering` | `findIndex`, `arrayMove`, the batch payload |
| listing.dfy | `Listing` | SQL `ORDER BY`: any arrangement of the selected rows sorted by a key |
| http.dfy | `Http` | parsed JSON bodies and their optional string fields |
| text.dfy | `Text` | ASCII case mapping, `split('.').pop()` |
| slugs.dfy | `Slugs` | the slug expression and its properties |
| sortable_gallery.dfy | `SortableGallery` | src/components/SortableGallery.tsx |
| sortable_albums_grid.dfy | `SortableAlbumsGrid` | src/components/SortableAlbumsGrid.tsx |
| media_reorder_route.dfy | `MediaReorderRoute` | src/app/api/media/reorder/route.ts |
| albums_reorder_route.dfy | `AlbumsReorderRoute` | src/app/api/albums/reorder/route.ts |
| gallery_page.dfy | `GalleryPage` | src/app/gallery/page.tsx |
| albums_page.dfy | `AlbumsPage` | src/app/albums/page.tsx |
| albums_route.dfy | `AlbumsRoute` | src/app/api/albums/route.ts |
| upload_url_route.dfy | `UploadUrlRoute` | src/app/api/upload/url/route.ts |
| upload_page.dfy | `UploadPage` | src/app/admin/upload/page.tsx |
| middleware.dfy | `Middleware` | src/middleware.ts |
| auth.dfy | `Auth` | src/lib/auth.ts |
| seed_local.dfy | `SeedLocal` | prisma/seed-local.ts |
| init_turso.dfy | `InitTurso` | scripts/init-turso.ts |

The model takes the form of the code it models:

- React components become classes whose fields are the component state; their handlers are methods with `modifies`.
- The route handlers and scripts write a `Database` object in place. Each such method is proved equal to a reply function over `Tables` snapshots, and the properties are lemmas about those functions.
- Pure helpers (slug, object key, trim and split) are functions.

### Behaviour worth knowing

- A request body that is not JSON, or is the JSON `null`, makes every JSON endpoint throw while reading or destructuring it, so it is answered 500, not with a client error.
- A reorder body whose `updates`/`orders` member is missing or not an array gets 400. That includes a body that is itself an array of pairs, since it has no such member.
- An empty batch is accepted, and answered 200.
- The two-key sort (`order` ascending, then `createdAt` descending) is used only for the albums of the gallery page:
  - the media of a section are sorted by `order` alone;
  - the albums page and `GET /api/albums` sort by `createdAt` descending and ignore `order` (`AlbumsPage.OrderHasNoEffect`).
- A drop is a no-op when the dragged item and the target have the same id. The handler compares ids, not indexes.

## Model

| member | source | states |
|---|---|---|
| Store.OrderRewriteKeepsValid | src/app/api/media/reorder/route.ts:13-20 | rewriting only the `order` column of existing rows keeps ids issued, links resolving and slugs unique |
| Store.InsertAlbumKeepsValid | src/app/api/albums/route.ts:24-31 | inserting an album under the next id with a slug no album holds keeps every invariant, and the id is fresh |
| Ordering.LastOrder | src/app/api/media/reorder/route.ts:13-20 | the order a batch leaves for an id is that of the last pair naming it, None when no pair does |
| Ordering.IndexOf | src/components/SortableGallery.tsx:129-130 | `findIndex`: -1 exactly when absent, otherwise the first position holding the id |
| Ordering.ArrayMove | src/components/SortableGallery.tsx:131 | same length, same multiset, and the moved item lands at `to` |
| Ordering.ArrayMoveAt | src/components/SortableGallery.tsx:131 | position by position: items between `from` and `to` shift by one, the others stay put |
| Ordering.ArrayMoveInverse | src/components/SortableGallery.tsx:131 | moving back from `to` to `from` restores the list |
| Ordering.ArrayMoveSame | src/components/SortableGallery.tsx:127-131 | a move onto the item's own position changes nothing |
| Ordering.ArrayMoveMap | src/components/SortableGallery.tsx:131 | taking ids commutes with the move |
| Ordering.Payload | src/components/SortableGallery.tsx:142-145 | one pair per item, in list order, with the item's id and its index |
| Ordering.PayloadOrdersArePositions | src/components/SortableGallery.tsx:142-145 | the payload's orders are exactly 0..n-1, with no gap and no repeat |
| Ordering.PayloadLastOrder | src/components/SortableGallery.tsx:142-145 | with distinct ids, the order the payload gives an id is its position |
| Ordering.DropMove | src/components/SortableGallery.tsx:129-131 | the list after a drop is a permutation with the dragged item at the target's old index |
| Listing.SortedListing | src/app/gallery/page.tsx:11-15 | an `ORDER BY` answer exists for every table: each row once, keys non-decreasing |
| Listing.ListingOfPositions | src/app/gallery/page.tsx:12-18 | when every key's primary part is the row's position in a list, the only sorted answer is that list |
| SortableGallery.Find | src/components/SortableGallery.tsx:192-193 | `find`: None exactly when no item has the id, otherwise the first such item |
| SortableGallery.Gallery.constructor | src/components/SortableGallery.tsx:93-94 | local state starts as the snapshot, with nothing selected |
| SortableGallery.Gallery.ItemsChanged | src/components/SortableGallery.tsx:97-99 | a new `items` prop replaces the local list wholesale |
| SortableGallery.Gallery.HandleDragEnd | src/components/SortableGallery.tsx:124-139 | same id: nothing changes and nothing is sent. Otherwise the list becomes the moved list and the request is its payload, whatever the fetch outcome (no rollback) |
| SortableGallery.Gallery.PersistOrder | src/components/SortableGallery.tsx:141-157 | the request is the payload of the list; a failed fetch is only logged |
| SortableGallery.Gallery.Select | src/components/SortableGallery.tsx:173 | clicking an item selects it, and the list is unchanged |
| SortableGallery.Gallery.CloseLightbox | src/components/SortableGallery.tsx:184 | the close button clears the selection |
| SortableGallery.Gallery.KeyDown | src/components/SortableGallery.tsx:103-107 | Escape clears the selection; any other key changes nothing |
| SortableGallery.Gallery.LightboxItem | src/components/SortableGallery.tsx:191-193 | the lightbox shows the selected item while it is in the list, and nothing otherwise |
| SortableGallery.DropShifts | src/components/SortableGallery.tsx:129-131 | a real drop, item by item: permutation, dragged id at the target index, the range between shifted by one, the rest in place |
| SortableAlbumsGrid.ViewCard | src/components/SortableAlbumsGrid.tsx:44-120 | a card is sortable and has a drag handle exactly when sortable; its face is the albums-page face; it links to `/albums/<slug>` |
| SortableAlbumsGrid.AlbumsGrid.constructor | src/components/SortableAlbumsGrid.tsx:132 | local state starts as the snapshot |
| SortableAlbumsGrid.AlbumsGrid.InitialAlbumsChanged | src/components/SortableAlbumsGrid.tsx:134-136 | a new `initialAlbums` prop replaces the local list |
| SortableAlbumsGrid.AlbumsGrid.Cards | src/components/SortableAlbumsGrid.tsx:185-191 | one card per album, in list order, sortable exactly for an admin |
| SortableAlbumsGrid.AlbumsGrid.HandleDragEnd | src/components/SortableAlbumsGrid.tsx:149-175 | no target or the same id: nothing changes and nothing is sent. Otherwise the list is the moved list and the request is its payload, whatever the fetch outcome |
| SortableAlbumsGrid.AlbumsGrid.Drag | src/components/SortableAlbumsGrid.tsx:44 | a viewer who is not admin cannot drag, so nothing changes; an admin's drag is `HandleDragEnd` |
| SortableAlbumsGrid.DragFirstToLast | src/components/SortableAlbumsGrid.tsx:152-164 | [A,B,C] with A dropped on C gives [B,C,A] and the payload [(B,0),(C,1),(A,2)] |
| MediaReorderRoute.ApplyAll | src/app/api/media/reorder/route.ts:13-20 | the transaction succeeds exactly when every pair names a media row; it then keeps the keys and changes only `order` |
| MediaReorderRoute.ApplyAllValues | src/app/api/media/reorder/route.ts:13-20 | after a successful batch each row holds the order of the last pair naming it, or its old row |
| MediaReorderRoute.Put | src/app/api/media/reorder/route.ts:4-27 | the staged loop, committed only when no pair failed and the database does not abort, equals `PutReply`; albums and the id counter are untouched; the store stays valid |
| MediaReorderRoute.PutAllOrNothing | src/app/api/media/reorder/route.ts:12-25 | the status is 200, 400 or 500; any status but 200 leaves the media table as it was; 200 exactly for an array whose ids all exist and whose transaction the database does not abort |
| MediaReorderRoute.PutSetsOrders | src/app/api/media/reorder/route.ts:13-22 | on 200, every listed row has its last paired order, unlisted rows are unchanged, and only `order` changes |
| MediaReorderRoute.PutEmptyBatch | src/app/api/media/reorder/route.ts:13-22 | an empty array changes nothing, and is answered 200 unless the database aborts the transaction |
| MediaReorderRoute.PutReply | src/app/api/media/reorder/route.ts:4-27 | definition of the handler's reply: 500 for an unparsable body, 400 for a non-array, otherwise the transaction; stated by `PutAllOrNothing` and `PutSetsOrders` |
| AlbumsReorderRoute.AnyFails | src/app/api/albums/reorder/route.ts:19-26 | some update among the first n fails, by an unknown id or a database error |
| AlbumsReorderRoute.ApplyIndependent | src/app/api/albums/reorder/route.ts:19-26 | the surviving updates keep the album keys and change only `order` |
| AlbumsReorderRoute.Post | src/app/api/albums/reorder/route.ts:5-33 | the loop equals the reply function: 401 without a session, 500 if any update failed, and the album table holds every update that went through |
| AlbumsReorderRoute.PostNeedsSession | src/app/api/albums/reorder/route.ts:6-9 | without a session the answer is 401 and nothing is written |
| AlbumsReorderRoute.ApplyIndependentValues | src/app/api/albums/reorder/route.ts:19-26 | when nothing fails, each album holds the order of the last pair naming it |
| AlbumsReorderRoute.PostSetsOrders | src/app/api/albums/reorder/route.ts:19-28 | on 200 every listed id is an album holding its last paired order, and unlisted albums are unchanged |
| AlbumsReorderRoute.PartialBatchStaysApplied | src/app/api/albums/reorder/route.ts:19-32 | a batch whose second pair names no album is answered 500, yet the first pair stays applied |
| AlbumsReorderRoute.PostEmptyBatch | src/app/api/albums/reorder/route.ts:19-28 | an empty array is answered 200 and changes nothing |
| AlbumsReorderRoute.PostReply | src/app/api/albums/reorder/route.ts:5-33 | definition of the handler's reply: 401, 500 or 400 before any write, otherwise the independent updates; stated by `PostNeedsSession`, `PostSetsOrders` and `PartialBatchStaysApplied` |
| GalleryPage.AlbumKeys | src/app/gallery/page.tsx:12-15 | one sort key per album |
| GalleryPage.MediaKeys | src/app/gallery/page.tsx:17-19 | exactly the media linked to the album are selected |
| GalleryPage.GalleryQuery | src/app/gallery/page.tsx:11-21 | the page's query always has an answer |
| GalleryPage.Render | src/app/gallery/page.tsx:44-55 | definition of one section's view: the count label is the number of media, "No photos" when there are none, otherwise the grid of those media; which media a section holds is stated by `SectionHoldsItsMedia` |
| GalleryPage.AlbumsByOrderThenNewest | src/app/gallery/page.tsx:12-15 | sections come by `order` ascending, and equal orders newest first |
| GalleryPage.EveryAlbumShownOnce | src/app/gallery/page.tsx:11-21 | every album has exactly one section, empty ones included |
| GalleryPage.SectionHoldsItsMedia | src/app/gallery/page.tsx:16-20 | a section lists exactly its album's media, by `order` |
| GalleryPage.MediaRoundTrip | src/app/gallery/page.tsx:16-20 | after a successful media reorder with an album's ids, the page lists that album's media in exactly that sequence |
| GalleryPage.AlbumsRoundTrip | src/app/gallery/page.tsx:11-15 | after a 200 album reorder with all album ids, the page lists the albums in exactly that sequence |
| AlbumsPage.AlbumsByDate | src/app/albums/page.tsx:9-10 | one key per album |
| AlbumsPage.MediaByDate | src/app/albums/page.tsx:13-17 | exactly the album's media are selected for the preview |
| AlbumsPage.EntryIds | src/app/albums/page.tsx:41 | definition: the ids of the listed albums, in order; which albums and in what order is stated by `AlbumsNewestFirst` and `ListingLength` |
| AlbumsPage.NewestThree | src/app/albums/page.tsx:13-17 | a preview answer always exists |
| AlbumsPage.AlbumsQuery | src/app/albums/page.tsx:9-19 | the page's query always has an answer |
| AlbumsPage.AlbumsNewestFirst | src/app/albums/page.tsx:9-10 | the albums come newest `createdAt` first |
| AlbumsPage.OrderHasNoEffect | src/app/albums/page.tsx:9-19 | rewriting `order` values changes none of the page's possible answers |
| AlbumsPage.PreviewIsNewestThree | src/app/albums/page.tsx:13-17 | at most three distinct media of the album, min(3, count) of them, none older than one left out |
| AlbumsPage.ListingLength | src/app/albums/page.tsx:9-19 | a listing names each selected row once |
| AlbumsPage.EmptyStateExactlyWithoutAlbums | src/app/albums/page.tsx:102-111 | "No Albums Yet" appears exactly when there is no album |
| AlbumsPage.CardFace | src/app/albums/page.tsx:45-87 | the cover when `coverUrl` is a non-empty string; else a collage of the first min(3, n) previews when there are any; else "Empty" |
| Text.Lower | src/app/api/albums/route.ts:22 | `toLowerCase` on ASCII: A-Z map to a-z, everything else is kept |
| Text.Upper | prisma/seed-local.ts:20 | `toUpperCase` on ASCII: a-z map to A-Z, everything else is kept |
| Text.LowerAll | src/app/api/albums/route.ts:22 | same length, and each character is lowered |
| Text.LowerAllFixes | prisma/seed-local.ts:21 | a text without capitals is its own lower case |
| Text.AfterLastDot | src/app/api/upload/url/route.ts:16 | `split('.').pop()`: a dot-free suffix that follows the last dot, or the whole text when there is none |
| Text.AfterLastDotOf | src/app/api/upload/url/route.ts:16 | `stem + "." + ext`, with ext dot-free, gives back ext |
| Slugs.WordsEmptyIff | src/app/api/albums/route.ts:22 | a text has no slug words exactly when it has no slug character |
| Slugs.JoinEnds | src/app/api/albums/route.ts:22 | joined words are empty exactly when there are none, and otherwise start and end with a slug character |
| Slugs.JoinWellFormed | src/app/api/albums/route.ts:22 | words joined by '-' form a well-formed slug |
| Slugs.CollapseShape | src/app/api/albums/route.ts:22 | `replace(/[^a-z0-9]+/g, "-")` gives an optional dash, the words joined by single dashes, then an optional dash |
| Slugs.SlugIsJoinedWords | src/app/api/albums/route.ts:22 | the slug is the lower-cased title's runs of [a-z0-9] joined by single '-' |
| Slugs.SlugWellFormed | src/app/api/albums/route.ts:22 | a slug has only [a-z0-9-], no dash at either end, and never two dashes in a row |
| Slugs.WordsOfJoin | src/app/api/albums/route.ts:22 | splitting joined words gives them back |
| Slugs.SlugIdempotent | src/app/api/albums/route.ts:22 | the slug of a slug is itself |
| Slugs.SlugEmptyIff | src/app/api/albums/route.ts:22 | the slug is empty exactly when no title character lowers to an ASCII letter or digit |
| Slugs.Collapse | src/app/api/albums/route.ts:22 | definition of `replace(/[^a-z0-9]+/g, "-")`; its result is characterised by `CollapseShape` |
| Slugs.TrimDashes | src/app/api/albums/route.ts:22 | definition of the second `replace`: at most one leading and one trailing dash removed |
| Slugs.Slug | src/app/api/albums/route.ts:22 | definition of the slug expression: lower-case, collapse, trim dashes; its meaning is stated by `SlugIsJoinedWords`, `SlugWellFormed` and `SlugIdempotent` |
| AlbumsRoute.Described | src/app/api/albums/route.ts:24-31 | the description written is a value exactly when the body gave a string |
| AlbumsRoute.NewAlbum | src/app/api/albums/route.ts:22-31 | definition of the row `create` writes: the title, its slug, the described description, no cover, `order` 0, the current time; stated by `CreateAddsOneAlbum` |
| AlbumsRoute.Redescribed | src/app/api/albums/route.ts:48-55 | an update keeps the description when the body omits it, and writes the body's value otherwise |
| AlbumsRoute.Get | src/app/api/albums/route.ts:5-14 | GET always has an answer: the albums newest first, or 500 |
| AlbumsRoute.GetNewestFirst | src/app/api/albums/route.ts:7-10 | a successful GET lists every album once, newest first |
| AlbumsRoute.CreateReply | src/app/api/albums/route.ts:17-38 | the status is 200, 400 or 500; 400 exactly for a parsed body with a falsy title; any failure leaves the store as it was |
| AlbumsRoute.CreateSucceedsIff | src/app/api/albums/route.ts:17-38 | 200 exactly when the body parses, the title is set, its slug is free and the insert succeeds |
| AlbumsRoute.CreateAddsOneAlbum | src/app/api/albums/route.ts:22-33 | a success adds one album under a fresh id, with the title, the derived slug and `order` 0; all else is unchanged and the store stays valid |
| AlbumsRoute.CreateWithEmptySlug | src/app/api/albums/route.ts:20-31 | the title "!?" passes validation and is stored with the empty slug |
| AlbumsRoute.Create | src/app/api/albums/route.ts:17-38 | the database method equals the reply function and keeps the store valid |
| AlbumsRoute.UpdateReply | src/app/api/albums/route.ts:41-62 | the status is 200, 400 or 500; 400 exactly for a parsed body missing the id or the title; any failure changes nothing |
| AlbumsRoute.UpdateSucceedsIff | src/app/api/albums/route.ts:41-62 | 200 exactly when the album exists and no other album holds the new slug (and the write succeeds) |
| AlbumsRoute.UpdateRenamesOneAlbum | src/app/api/albums/route.ts:46-57 | only that album's title, slug and description change; `order`, cover and date stay; the store stays valid |
| AlbumsRoute.UpdateSameTitle | src/app/api/albums/route.ts:44-57 | re-saving an album under its own title never clashes with itself |
| AlbumsRoute.Update | src/app/api/albums/route.ts:41-62 | the database method equals the reply function and keeps the store valid |
| AlbumsRoute.DeleteReply | src/app/api/albums/route.ts:65-86 | the status is 200, 400 or 500; 400 exactly for a parsed body without an id; 200 exactly for a known id whose unlink and removal both succeed; the id counter is untouched |
| AlbumsRoute.Unlink | src/app/api/albums/route.ts:71-74 | definition of the `updateMany`: rows of the album lose their link, all others are kept; stated by `DeleteUnlinksThenRemoves` |
| AlbumsRoute.DeleteUnlinksThenRemoves | src/app/api/albums/route.ts:70-81 | once the unlink succeeds: every media row survives and exactly the album's rows lose their link; on success the album alone is gone, with no renumbering of `order`; the store stays valid |
| AlbumsRoute.DeleteUnlinkFailureChangesNothing | src/app/api/albums/route.ts:70-85 | when the unlink fails nothing has been written: the reply is 500 and the store is as it was |
| AlbumsRoute.DeleteUnknownChangesNothing | src/app/api/albums/route.ts:77-85 | deleting an unknown id answers 500 and changes nothing |
| AlbumsRoute.DeleteFailureKeepsUnlink | src/app/api/albums/route.ts:70-85 | when the removal fails, the media stay unlinked although the album remains |
| AlbumsRoute.Delete | src/app/api/albums/route.ts:65-86 | unlink, then remove, each of which may fail: equals `DeleteReply` and keeps the store valid |
| UploadUrlRoute.Post | src/app/api/upload/url/route.ts:6-33 | refusals are 400 or 500; 400 exactly for a parsed body with a falsy filename or content type |
| UploadUrlRoute.IssuedTicket | src/app/api/upload/url/route.ts:14-28 | a ticket has key `uploads/<uuid>.<last extension>`, the public URL `<prefix>/<key>`, and the signed URL of a PUT of that key and content type for 3600 s |
| UploadUrlRoute.TrailingDotKey | src/app/api/upload/url/route.ts:16-17 | a file name ending in '.' gives a key ending in '.' |
| UploadUrlRoute.LastDotExample | src/app/api/upload/url/route.ts:16 | "archive.tar.gz" has extension "gz" |
| UploadUrlRoute.KeysDiffer | src/app/api/upload/url/route.ts:15-17 | different UUIDs give different keys, whatever the file names |
| UploadUrlRoute.LastDotSplit | src/app/api/upload/url/route.ts:17 | a key splits one way only at its last dot |
| UploadUrlRoute.ObjectKey | src/app/api/upload/url/route.ts:15-17 | definition of the key `uploads/<uuid>.<ext>`; its uniqueness is stated by `KeysDiffer` and its shape by `IssuedTicket` |
| UploadPage.Steps | src/app/admin/upload/page.tsx:59-103 | each file starts "processing" and ends "done" exactly when signing, the PUT and the save all answered, else "error" |
| UploadPage.Final | src/app/admin/upload/page.tsx:98-101 | definition: the last label of a file's steps, "done" or "error" |
| UploadPage.Events | src/app/admin/upload/page.tsx:59-105 | definition: every file's label updates, file after file; stated by `RunStep` and `ProgressAfterRun` |
| UploadPage.Apply | src/app/admin/upload/page.tsx:62 | definition of a run of `setProgress` updates on the map; stated by `ApplyConcat`, `ApplySameName` and `ApplyFileEvents` |
| UploadPage.Finals | src/app/admin/upload/page.tsx:59-105 | definition: each file's final label, a later file of a name winning; stated by `FinalsPerFile` and `FinalsElsewhere` |
| UploadPage.KindOf | src/app/admin/upload/page.tsx:92 | definition of `file.type.startsWith("video") ? "video" : "image"`; stated by `KindIsVideoIff` |
| UploadPage.AlbumOf | src/app/admin/upload/page.tsx:94 | definition of the `albumId` sent: null exactly for the empty selection, else the selected id |
| UploadPage.SaveOf | src/app/admin/upload/page.tsx:87-96 | definition of one metadata save: the public URL, the kind, the name as caption and the album |
| UploadPage.Saves | src/app/admin/upload/page.tsx:59-105 | definition: the saves of the run, in queue order; stated by `SavesAreForUploadedFiles` and `SavesCount` |
| UploadPage.Without | src/app/admin/upload/page.tsx:56 | the queue without the files of one name is no longer than the queue; stated exactly by `WithoutExactly`, `WithoutSplits` and `WithoutAbsent` |
| UploadPage.FileEvents | src/app/admin/upload/page.tsx:62-101 | definition: the label updates of one file, all under its name; their order is stated by `StepsInOrder` and their effect by `ApplyFileEvents` |
| UploadPage.WithoutExactly | src/app/admin/upload/page.tsx:55-57 | a file is kept exactly when it was queued and has another name |
| UploadPage.Page.constructor | src/app/admin/upload/page.tsx:10-30 | the initial state: empty queue, no progress, no albums, no selection |
| UploadPage.Page.AlbumsLoaded | src/app/admin/upload/page.tsx:33-37 | the albums list is taken only when the answer is an array |
| UploadPage.Page.OnDrop | src/app/admin/upload/page.tsx:14-16 | dropped files join the end of the queue |
| UploadPage.Page.RemoveFile | src/app/admin/upload/page.tsx:55-57 | every queued file of that name leaves the queue |
| UploadPage.Page.HandleCreateAlbum | src/app/admin/upload/page.tsx:39-53 | an empty name sends nothing; a created album goes first in the list and is selected, and the form resets; a failure changes nothing |
| UploadPage.Page.HandleUpload | src/app/admin/upload/page.tsx:59-105 | the updates shown, the saves sent and the final progress map equal the run's specification; `uploading` ends false |
| UploadPage.Page.UploadFile | src/app/admin/upload/page.tsx:61-102 | one file: its label updates, and a save exactly when signing and the PUT succeeded |
| UploadPage.Page.Show | src/app/admin/upload/page.tsx:62 | one `setProgress` call overwrites the name's label |
| UploadPage.RunStep | src/app/admin/upload/page.tsx:61-103 | files are handled one after another, in queue order |
| UploadPage.StepsInOrder | src/app/admin/upload/page.tsx:62-101 | the labels follow processing → uploading → saving → done, cut short by an error |
| UploadPage.SaveStatusIgnored | src/app/admin/upload/page.tsx:87-98 | a save answered 500 still ends "done" |
| UploadPage.ApplyFileEvents | src/app/admin/upload/page.tsx:62-101 | after one file's updates its name shows its final label |
| UploadPage.ApplySameName | src/app/admin/upload/page.tsx:62-101 | updates all for one name leave that name's last label |
| UploadPage.ApplyConcat | src/app/admin/upload/page.tsx:62 | applying two runs of updates is applying their concatenation |
| UploadPage.ProgressAfterRun | src/app/admin/upload/page.tsx:59-105 | after a run the map holds each file's final label, a later file of the same name winning |
| UploadPage.FinalsPerFile | src/app/admin/upload/page.tsx:59-105 | a file that no later queued file shares its name with ends showing its own final label, whatever happened to the files before it; for a repeated name that is the last file of the name |
| UploadPage.FinalsElsewhere | src/app/admin/upload/page.tsx:59-105 | names of no queued file keep their earlier labels |
| UploadPage.SavesAreForUploadedFiles | src/app/admin/upload/page.tsx:83-96 | every save sent is for a file whose signing and PUT succeeded, with its URL, its kind, its name as caption and the selected album |
| UploadPage.SavesCount | src/app/admin/upload/page.tsx:76-96 | there are exactly as many saves as files whose signing and PUT succeeded |
| UploadPage.KindIsVideoIff | src/app/admin/upload/page.tsx:92 | the kind is "video" exactly when the MIME type starts with "video", and "image" otherwise |
| UploadPage.WithoutSplits | src/app/admin/upload/page.tsx:56 | removal keeps the order of the other files |
| UploadPage.WithoutAbsent | src/app/admin/upload/page.tsx:56 | removing a name that no queued file has changes nothing |
| Middleware.Handle | src/middleware.ts:4-19 | definition of one request: the matcher, then the guard; what it does to each path is stated by `RedirectExactly`, `ApiUnguarded` and `LoggedInPasses` |
| Middleware.ProtectedPathsAreMatched | src/middleware.ts:9-19 | every `/albums…` and `/admin…` path reaches the guard |
| Middleware.RedirectExactly | src/middleware.ts:9-13 | a redirect happens exactly for a protected path without a login, to `/login` with the path as `callbackUrl` |
| Middleware.LoggedInPasses | src/middleware.ts:9-15 | a logged-in visitor is never redirected |
| Middleware.ApiUnguarded | src/middleware.ts:19 | API routes are never guarded |
| Middleware.PrefixProtects | src/middleware.ts:9 | the test is a plain prefix: `/albumsX` and `/administrator` are guarded too |
| Middleware.Excluded | src/middleware.ts:19 | definition of the matcher's negative look-ahead: paths starting `/api`, `/_next/static`, `/_next/image` or `/favicon?ico` |
| Middleware.Matched | src/middleware.ts:19 | definition: a path starting '/' that is not excluded; `ProtectedPathsAreMatched` relates it to the guard |
| Middleware.Protected | src/middleware.ts:9 | definition of the `startsWith('/albums')` or `startsWith('/admin')` test; `PrefixProtects` shows it is a plain prefix test |
| Middleware.Guard | src/middleware.ts:9-15 | definition of the middleware body; `RedirectExactly` and `LoggedInPasses` state what it does |
| Auth.Authorize | src/lib/auth.ts:12-28 | the only user ever returned is the fixed admin with id "1" |
| Auth.AuthorizeExactly | src/lib/auth.ts:16-19 | sign-in succeeds exactly when both configured values are set and both submitted fields equal them |
| Auth.UnconfiguredRejectsAll | src/lib/auth.ts:19 | with either configured value unset or empty, nothing signs in |
| Auth.Truthy | src/lib/auth.ts:19 | definition of JavaScript truthiness for an optional string: set and non-empty |
| Auth.Jwt | src/lib/auth.ts:35-40 | on sign-in the user's id is copied into the token; otherwise the token is unchanged |
| Auth.SessionCallback | src/lib/auth.ts:41-46 | a session with a user gets the token's id; nothing else changes |
| Auth.SignInFlow | src/lib/auth.ts:12-46 | after an accepted login the session's user id is "1" |
| SeedLocal.Capitalized | prisma/seed-local.ts:20 | the first character is upper-cased and the rest kept |
| SeedLocal.Extname | prisma/seed-local.ts:44 | `path.extname`: empty, or a dot followed by a dot-free suffix of the name |
| SeedLocal.KindOfFile | prisma/seed-local.ts:44-46 | video exactly when the lower-cased extension is .mp4, .mov or .webm |
| SeedLocal.UpsertAlbum | prisma/seed-local.ts:26-34 | the album with the lower-cased name as slug exists afterwards; an existing one is reused with no write; the store stays valid and only grows |
| SeedLocal.SeedFile | prisma/seed-local.ts:41-59 | ".DS_Store" and a URL already present change nothing; albums never change |
| SeedLocal.SeedFileKeepsValid | prisma/seed-local.ts:51-59 | a created media row is linked to the album and keeps the store valid |
| SeedLocal.SeedFiles | prisma/seed-local.ts:40-62 | a directory's files only add rows and keep the store valid |
| SeedLocal.SeedEntry | prisma/seed-local.ts:18-62 | an entry that is not a directory changes nothing; the store only grows and stays valid |
| SeedLocal.SeedEntries | prisma/seed-local.ts:16-64 | all entries, in listing order: the store only grows and stays valid |
| SeedLocal.Seed | prisma/seed-local.ts:7-65 | a missing uploads directory changes nothing; the store only grows and stays valid |
| SeedLocal.Run | prisma/seed-local.ts:7-65 | the nested loops over directories and files equal the seed function |
| SeedLocal.UpsertAlbumIn | prisma/seed-local.ts:26-34 | the upsert on the database equals its specification |
| SeedLocal.AddFile | prisma/seed-local.ts:41-59 | one file on the database equals its specification |
| SeedLocal.AddFiles | prisma/seed-local.ts:38-62 | the inner loop over one directory's files equals `SeedFiles` and keeps the store valid |
| SeedLocal.WebPath | prisma/seed-local.ts:43 | definition of the URL `/uploads/<directory>/<file>` |
| SeedLocal.NewAlbumRow | prisma/seed-local.ts:20-33 | definition of the album `upsert` creates: the capitalised title, the lower-cased name as slug, "Memories from <title>" |
| SeedLocal.NewMediaRow | prisma/seed-local.ts:43-58 | definition of the media row created for a file: its URL, its kind, the file name as caption, the album's id |
| SeedLocal.ExtnameOf | prisma/seed-local.ts:44 | a name with a stem has the text from its last dot as extension |
| SeedLocal.LeadingDotNoExtname | prisma/seed-local.ts:44 | a name whose only dot leads it has no extension |
| SeedLocal.UpperCaseVideo | prisma/seed-local.ts:44-46 | "clip.MOV" is a video |
| SeedLocal.HiddenFileIsImage | prisma/seed-local.ts:44-46 | ".mp4" is an image |
| SeedLocal.LastExtensionCounts | prisma/seed-local.ts:44-46 | "clip.mp4.jpg" is an image |
| SeedLocal.PresentGrows | prisma/seed-local.ts:49-59 | an album slug or media URL, once present, stays present as rows are added |
| SeedLocal.SeedFilesAddsUrls | prisma/seed-local.ts:40-62 | after a directory is seeded, each of its files' URLs is present |
| SeedLocal.SeedFilesPresent | prisma/seed-local.ts:49-59 | seeding files whose URLs are present changes nothing |
| SeedLocal.SeedEntryAdds | prisma/seed-local.ts:18-62 | seeding an entry puts its album and its URLs in place |
| SeedLocal.SeedEntryPresent | prisma/seed-local.ts:26-59 | seeding an entry already in place changes nothing |
| SeedLocal.SeedEntriesAdds | prisma/seed-local.ts:16-64 | after a run, every directory's slug and every file's URL is present |
| SeedLocal.SeedEntriesPresent | prisma/seed-local.ts:16-64 | a run over entries already in place changes nothing |
| SeedLocal.SeedTwice | prisma/seed-local.ts:7-65 | running the importer again, at any later time, adds no album and no media row |
| InitTurso.Split | scripts/init-turso.ts:26 | `split(";")` always yields at least one piece |
| InitTurso.Trim | scripts/init-turso.ts:27 | the result has no white space at either end |
| InitTurso.TrimKeepsChars | scripts/init-turso.ts:27 | trimming only removes characters |
| InitTurso.Trims | scripts/init-turso.ts:27 | one trimmed piece per piece |
| InitTurso.StatementShape | scripts/init-turso.ts:25-28 | every statement is non-empty, contains no ';' and is trimmed |
| InitTurso.SplitPieces | scripts/init-turso.ts:26 | no piece contains ';' |
| InitTurso.KeepShape | scripts/init-turso.ts:28 | the filter keeps only non-empty members of its input |
| InitTurso.TrimsShape | scripts/init-turso.ts:27 | trimmed ';'-free pieces stay ';'-free and are trimmed |
| InitTurso.JoinSplit | scripts/init-turso.ts:26 | joining the pieces with ';' gives back the text |
| InitTurso.SplitConcat | scripts/init-turso.ts:26 | a ';' separates the pieces before it from those after it |
| InitTurso.SplitFree | scripts/init-turso.ts:26 | a text without ';' is a single piece |
| InitTurso.SplitJoin | scripts/init-turso.ts:26 | ';'-free pieces joined with ';' split back into the same pieces |
| InitTurso.TrimKeepsInner | scripts/init-turso.ts:27 | trimming removes exactly the white space around a trimmed middle |
| InitTurso.KeepConcat | scripts/init-turso.ts:28 | the filter distributes over concatenation |
| InitTurso.KeepAll | scripts/init-turso.ts:28 | a list with no empty string passes the filter unchanged |
| InitTurso.TrimsConcat | scripts/init-turso.ts:27 | trimming distributes over concatenation |
| InitTurso.StatementsConcat | scripts/init-turso.ts:25-28 | statements keep file order: those before a ';' come first |
| InitTurso.StatementsOfPiece | scripts/init-turso.ts:25-28 | a ';'-free text yields its trimmed self when that is not empty |
| InitTurso.TrimOfTrimmed | scripts/init-turso.ts:27 | trimming leaves a trimmed text as it is |
| InitTurso.TrimsTrimmed | scripts/init-turso.ts:27 | trimming leaves trimmed pieces as they are |
| InitTurso.BlankIsNoStatement | scripts/init-turso.ts:28 | a piece of only white space is dropped |
| InitTurso.StatementsOfJoin | scripts/init-turso.ts:25-28 | round trip: non-empty, trimmed, ';'-free statements joined with ';' are read back as they were |
| InitTurso.EverySemicolonCuts | scripts/init-turso.ts:23-26 | any ';' cuts, even one inside a string literal: "SELECT 'a;b'" becomes "SELECT 'a" and "b'" |
| InitTurso.TrimStart | scripts/init-turso.ts:27 | the result is a suffix of the text that does not start with white space |
| InitTurso.TrimEnd | scripts/init-turso.ts:27 | the result is a prefix of the text that does not end with white space |
| InitTurso.Keep | scripts/init-turso.ts:28 | definition of `filter((s) => s.length > 0)`; stated by `KeepShape`, `KeepAll` and `KeepConcat` |
| InitTurso.Statements | scripts/init-turso.ts:25-28 | definition of the split, trim and filter pipeline; stated by `StatementShape`, `StatementsConcat` and `StatementsOfJoin` |
| InitTurso.Completed | scripts/init-turso.ts:30-33 | the number of statements before the first failing one: none of them fails, and the next one (if any) does |
| InitTurso.Client.Execute | scripts/init-turso.ts:32 | a statement that succeeds is appended to what the database executed; one that fails is not |
| InitTurso.Init | scripts/init-turso.ts:30-33 | the statements run in order up to the first failure; success exactly when none fails |
| InitTurso.Script | scripts/init-turso.ts:8-41 | exit code 1 with nothing executed when the URL or token is missing or the file is unreadable; exit code 0 exactly when every statement succeeds; the executed statements are the prefix before the first failure |

## Left out

- Rendering and animation are left out: JSX, Tailwind classes, framer-motion, and the lightbox and collage markup. Only the data each view is drawn from is modelled.
- dnd-kit internals are left out: sensors, the 8-pixel activation distance, collision detection, and keyboard coordinates. The drop event (`active`, `over`) is an input.
- The gallery's handler dereferences `over!`, so a drop with no target is a precondition of `SortableGallery.Gallery.HandleDragEnd`.
- SortableGallery.Gallery.HandleDragEnd, SortableAlbumsGrid.AlbumsGrid.HandleDragEnd: both require the dragged id (and the target id) to be in the local list. The drag library only reports items registered from that same list. For an id not in the list, `findIndex` would give -1 and `arrayMove` would then move the last item; that case is not modelled.
- I/O is replaced by inputs. These are fetch outcomes, database errors (`dbFails`, `unlinkFails`, `removeFails`, a set of failing batch indexes), the presigner, the UUID, directory listings, the schema file's text and the environment.
- Prisma `$transaction` is all-or-nothing. Each update run by `Promise.all` either succeeds or fails on its own.
- AlbumsReorderRoute.ApplyIndependent: applies the surviving pairs in array order, so when a batch names one album twice the later pair wins. The source runs the pairs side by side under `Promise.all`, and which of two writes to one row lands last is not determined. The client's payloads never repeat an id.
- AlbumsReorderRoute.ApplyIndependentValues: its "last pair naming the album" holds for the source only when the batch names each album once; for a repeated id it states the array-order outcome the model picks.
- AlbumsReorderRoute.PostSetsOrders: the same holds for its "last paired order" on a repeated id.
- Concurrency is left out: overlapping fire-and-forget reorder requests and the order in which they complete. One request is handled at a time.
- Ids are natural numbers issued by a counter, not cuid strings. Only their equality matters, and the counter gives fresh ids for inserts.
- The clock (`now`) is an input.
- Case mapping covers ASCII only; `toLowerCase` and `toUpperCase` on other characters are not modelled. JavaScript strings are sequences of characters, not UTF-16 units.
- JSON fields of other types (numbers or objects where a string is expected) are not modelled. A field is absent, null or a string.
- The middleware's matcher regex is modelled as its prefix exclusions. Its '.' in `favicon.ico` matches any one character; newlines in paths are not considered.
- The redirect's origin (`req.url`) and URL encoding of `callbackUrl` are left out.
- Of the token and session, only the user id is modelled. Name, email and expiry are left out.
- Media width and height are not modelled. No core code sets them.
- Logging (`console.log` and `console.error`) is left out.
- In the seed importer, a database error that aborts the script is left out: every write succeeds.
- In the schema initialiser, a failing statement writes nothing; what a failing statement partly did inside the database is not modelled.
- `process.exit` is modelled as the returned exit code.
- The albums page's card collage index maths (rotation, offset, scale) is left out.
- The unreachable second `return` in the PUT handler of src/app/api/albums/route.ts (line 58) has no effect and is not modelled.
