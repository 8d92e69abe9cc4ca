/**
 * The local seed script: every sub-directory of `public/uploads` becomes
 * an album (found or created by slug), and every file in it a media row
 * of that album, unless a row with the same URL already exists.
 *
 * The directory listing is an input (`None` when `public/uploads` does
 * not exist); the clock is the parameter `now`.
 */
module SeedLocal {
  import opened Wrappers
  import opened Store
  import opened Text

  /** An entry of `public/uploads`: a directory with the names inside it, or anything else. */
  datatype Entry = Dir(name: string, files: seq<string>) | Other(name: string)

  /** `name.charAt(0).toUpperCase() + name.slice(1)`. */
  function Capitalized(name: string): (t: string)
    ensures |t| == |name|
    ensures name != [] ==> t[0] == Upper(name[0]) && t[1..] == name[1..]
  {
    if name == [] then [] else [Upper(name[0])] + name[1..]
  }

  /** Node's `path.extname` on a bare file name: from the last '.', except for a leading-dot name and "..". */
  function Extname(file: string): (e: string)
    ensures e == [] || (|e| <= |file| && e[0] == '.' && e == file[|file| - |e|..] && '.' !in e[1..])
  {
    if '.' !in file then []
    else
      var after := AfterLastDot(file);
      var dot := |file| - |after| - 1;
      if dot == 0 || file == ".." then []
      else
        assert file[dot..][0] == '.' && file[dot..][1..] == after;
        file[dot..]
  }

  /** `['.mp4', '.mov', '.webm'].includes(ext.toLowerCase())`. */
  function KindOfFile(file: string): (k: MediaKind)
    ensures k == Video <==> LowerAll(Extname(file)) in [".mp4", ".mov", ".webm"]
  {
    if LowerAll(Extname(file)) in [".mp4", ".mov", ".webm"] then Video else Image
  }

  /** The public URL of a file of a directory. */
  function WebPath(dir: string, file: string): string {
    "/uploads/" + dir + "/" + file
  }

  /** Some media row already has this URL (`findFirst({where: {url}})`). */
  predicate UrlTaken(media: map<Id, MediaRow>, url: string) {
    exists id :: id in media && media[id].url == url
  }

  /** The album found by a unique slug. */
  ghost function SlugOwner(albums: map<Id, AlbumRow>, slug: string): (id: Id)
    requires SlugTaken(albums, slug)
    ensures id in albums && albums[id].slug == slug
  {
    var id :| id in albums && albums[id].slug == slug; id
  }

  /** The album row the script creates for a directory. */
  function NewAlbumRow(name: string, now: int): AlbumRow {
    var title := Capitalized(name);
    AlbumRow(title, LowerAll(name), Some("Memories from " + title), None, 0, now)
  }

  /** The media row the script creates for a file. */
  function NewMediaRow(albumId: Id, dir: string, file: string, now: int): MediaRow {
    MediaRow(WebPath(dir, file), KindOfFile(file), Some(file), Some(albumId), 0, now)
  }

  /** Nothing is lost or rewritten from `t` to `u`: rows are only added. */
  ghost predicate Grows(t: Tables, u: Tables) {
    && (forall id :: id in t.albums ==> id in u.albums && u.albums[id] == t.albums[id])
    && (forall id :: id in t.media ==> id in u.media && u.media[id] == t.media[id])
    && t.nextId <= u.nextId
  }

  datatype Upserted = Upserted(after: Tables, albumId: Id)

  /** `album.upsert({where: {slug}, update: {}, create: ...})`. */
  ghost function UpsertAlbum(t: Tables, name: string, now: int): (r: Upserted)
    requires ValidTables(t)
    ensures Grows(t, r.after) && r.after.media == t.media && ValidTables(r.after)
    ensures r.albumId in r.after.albums && r.after.albums[r.albumId].slug == LowerAll(name)
    ensures SlugTaken(t.albums, LowerAll(name)) ==> r.after == t
  {
    var slug := LowerAll(name);
    if SlugTaken(t.albums, slug) then Upserted(t, SlugOwner(t.albums, slug))
    else
      var row := NewAlbumRow(name, now);
      var u := Tables(t.albums[t.nextId := row], t.media, t.nextId + 1);
      InsertAlbumKeepsValid(t, row);
      Upserted(u, t.nextId)
  }

  /** One file of a directory: skipped for ".DS_Store" or a URL already present, else created. */
  function SeedFile(t: Tables, albumId: Id, dir: string, file: string, now: int): (u: Tables)
    ensures u.albums == t.albums
    ensures file == ".DS_Store" || UrlTaken(t.media, WebPath(dir, file)) ==> u == t
  {
    if file == ".DS_Store" || UrlTaken(t.media, WebPath(dir, file)) then t
    else Tables(t.albums, t.media[t.nextId := NewMediaRow(albumId, dir, file, now)], t.nextId + 1)
  }

  /** A new media row keeps the store valid when its album exists. */
  lemma SeedFileKeepsValid(t: Tables, albumId: Id, dir: string, file: string, now: int)
    requires ValidTables(t) && albumId in t.albums
    ensures Grows(t, SeedFile(t, albumId, dir, file, now))
    ensures ValidTables(SeedFile(t, albumId, dir, file, now))
  {
    assert t.nextId !in t.media;
  }

  /** The files of one directory, in listing order. */
  ghost function SeedFiles(t: Tables, albumId: Id, dir: string, files: seq<string>, now: int): (u: Tables)
    requires ValidTables(t) && albumId in t.albums
    ensures u.albums == t.albums && Grows(t, u) && ValidTables(u)
  {
    if files == [] then t
    else
      var before := SeedFiles(t, albumId, dir, files[..|files| - 1], now);
      SeedFileKeepsValid(before, albumId, dir, files[|files| - 1], now);
      SeedFile(before, albumId, dir, files[|files| - 1], now)
  }

  /** One entry: a directory is upserted as an album and its files seeded; anything else is ignored. */
  ghost function SeedEntry(t: Tables, e: Entry, now: int): (u: Tables)
    requires ValidTables(t)
    ensures Grows(t, u) && ValidTables(u)
    ensures e.Other? ==> u == t
  {
    match e
    case Other(_) => t
    case Dir(name, files) =>
      var up := UpsertAlbum(t, name, now);
      SeedFiles(up.after, up.albumId, name, files, now)
  }

  ghost function SeedEntries(t: Tables, entries: seq<Entry>, now: int): (u: Tables)
    requires ValidTables(t)
    ensures Grows(t, u) && ValidTables(u)
  {
    if entries == [] then t
    else SeedEntry(SeedEntries(t, entries[..|entries| - 1], now), entries[|entries| - 1], now)
  }

  /** The whole script: nothing at all without an uploads directory. */
  ghost function Seed(t: Tables, uploads: Option<seq<Entry>>, now: int): (u: Tables)
    requires ValidTables(t)
    ensures uploads.None? ==> u == t
    ensures Grows(t, u) && ValidTables(u)
  {
    if uploads.None? then t else SeedEntries(t, uploads.value, now)
  }

  // ------------------------------------------------------------ the script

  /** `main`: the nested loops over directories and their files. */
  method Run(db: Database, uploads: Option<seq<Entry>>, now: int)
    requires db.Valid()
    modifies db
    ensures db.Valid()
    ensures db.State() == Seed(old(db.State()), uploads, now)
  {
    if uploads.None? {
      return;
    }
    var items := uploads.value;
    ghost var t0 := db.State();
    var i := 0;
    while i < |items|
      invariant 0 <= i <= |items| && db.Valid()
      invariant db.State() == SeedEntries(t0, items[..i], now)
    {
      var item := items[i];
      SeedEntriesStep(t0, items, i, now);
      if item.Dir? {
        var albumId := UpsertAlbumIn(db, item.name, now);
        AddFiles(db, albumId, item.name, item.files, now);
      }
      i := i + 1;
    }
    assert items[..i] == items;
  }

  /** The inner loop of `main`: every file of one directory, in listing order. */
  method AddFiles(db: Database, albumId: Id, dir: string, files: seq<string>, now: int)
    requires db.Valid() && albumId in db.albums
    modifies db
    ensures db.Valid()
    ensures db.State() == SeedFiles(old(db.State()), albumId, dir, files, now)
  {
    ghost var t1 := db.State();
    var j := 0;
    while j < |files|
      invariant 0 <= j <= |files| && db.Valid()
      invariant albumId in t1.albums && ValidTables(t1)
      invariant db.State() == SeedFiles(t1, albumId, dir, files[..j], now)
    {
      SeedFilesStep(t1, albumId, dir, files, j, now);
      AddFile(db, albumId, dir, files[j], now);
      j := j + 1;
    }
    assert files[..j] == files;
  }

  lemma SeedEntriesStep(t: Tables, entries: seq<Entry>, i: nat, now: int)
    requires ValidTables(t) && i < |entries|
    ensures SeedEntries(t, entries[..i + 1], now) == SeedEntry(SeedEntries(t, entries[..i], now), entries[i], now)
  {
    assert entries[..i + 1][..i] == entries[..i];
  }

  lemma SeedFilesStep(t: Tables, albumId: Id, dir: string, files: seq<string>, j: nat, now: int)
    requires ValidTables(t) && albumId in t.albums && j < |files|
    ensures SeedFiles(t, albumId, dir, files[..j + 1], now) == SeedFile(SeedFiles(t, albumId, dir, files[..j], now), albumId, dir, files[j], now)
  {
    assert files[..j + 1][..j] == files[..j];
  }

  /** The upsert: the album holding the directory's slug, or a new one. */
  method UpsertAlbumIn(db: Database, name: string, now: int) returns (albumId: Id)
    requires db.Valid()
    modifies db
    ensures db.Valid()
    ensures Upserted(db.State(), albumId) == UpsertAlbum(old(db.State()), name, now)
  {
    var slug := LowerAll(name);
    if SlugTaken(db.albums, slug) {
      albumId :| albumId in db.albums && db.albums[albumId].slug == slug;
      assert albumId == SlugOwner(db.albums, slug);
    } else {
      var row := NewAlbumRow(name, now);
      InsertAlbumKeepsValid(db.State(), row);
      albumId := db.nextId;
      db.albums := db.albums[db.nextId := row];
      db.nextId := db.nextId + 1;
    }
  }

  /** One file: skip ".DS_Store", look the URL up, create the row if it is new. */
  method AddFile(db: Database, albumId: Id, dir: string, file: string, now: int)
    requires db.Valid() && albumId in db.albums
    modifies db
    ensures db.Valid()
    ensures db.State() == SeedFile(old(db.State()), albumId, dir, file, now)
  {
    if file == ".DS_Store" {
      return;
    }
    var webPath := WebPath(dir, file);
    if UrlTaken(db.media, webPath) {
      return;
    }
    SeedFileKeepsValid(db.State(), albumId, dir, file, now);
    db.media := db.media[db.nextId := NewMediaRow(albumId, dir, file, now)];
    db.nextId := db.nextId + 1;
  }

  // ------------------------------------------------------------ properties

  /** A file name with a stem keeps what follows its last dot, dot included, as extension. */
  lemma ExtnameOf(stem: string, ext: string)
    requires stem != [] && '.' !in ext && !(stem == "." && ext == [])
    ensures Extname(stem + "." + ext) == "." + ext
  {
    var file := stem + "." + ext;
    AfterLastDotOf(stem, ext);
    NotDotDot(stem, ext);
    assert file[|stem|] == '.';
    assert file[|stem|..] == "." + ext;
  }

  lemma NotDotDot(stem: string, ext: string)
    requires stem != [] && !(stem == "." && ext == [])
    ensures stem + "." + ext != ".."
  {
    var file := stem + "." + ext;
    if |file| == 2 {
      assert ext == [] && stem == [stem[0]];
      assert file[0] == stem[0] != '.';
    }
  }

  /** A name whose only dot leads it has no extension. */
  lemma LeadingDotNoExtname(ext: string)
    requires '.' !in ext
    ensures Extname("." + ext) == []
  {
    var file := "." + ext;
    assert file == [] + "." + ext;
    AfterLastDotOf([], ext);
    assert AfterLastDot(file) == ext;
  }

  /** The extension is compared case-blind: "clip.MOV" is a video. */
  lemma UpperCaseVideo()
    ensures KindOfFile("clip.MOV") == Video
  {
    ExtnameOf("clip", "MOV");
    assert "clip" + "." + "MOV" == "clip.MOV";
    LowerMov();
  }

  lemma LowerMov()
    ensures LowerAll(".MOV") == ".mov"
  {
    var lower := LowerAll(".MOV");
    assert lower[1] == 'm' && lower[2] == 'o' && lower[3] == 'v';
  }

  /** A hidden file has no extension: ".mp4" is an image. */
  lemma HiddenFileIsImage()
    ensures KindOfFile(".mp4") == Image
  {
    LeadingDotNoExtname("mp4");
    assert "." + "mp4" == ".mp4";
  }

  /** Only the last extension counts: "clip.mp4.jpg" is an image. */
  lemma LastExtensionCounts()
    ensures KindOfFile("clip.mp4.jpg") == Image
  {
    ExtnameOf("clip.mp4", "jpg");
    assert "clip.mp4" + "." + "jpg" == "clip.mp4.jpg";
    assert LowerAll(".jpg")[1] == 'j';
  }

  /** The script's effect is already in `t` for this entry: its slug and each of its file URLs. */
  ghost predicate EntryPresent(t: Tables, e: Entry) {
    e.Dir? ==>
      && SlugTaken(t.albums, LowerAll(e.name))
      && forall f :: f in e.files && f != ".DS_Store" ==> UrlTaken(t.media, WebPath(e.name, f))
  }

  ghost predicate AllPresent(t: Tables, entries: seq<Entry>) {
    forall k :: 0 <= k < |entries| ==> EntryPresent(t, entries[k])
  }

  /** What is present stays present as rows are added. */
  lemma PresentGrows(t: Tables, u: Tables, e: Entry)
    requires Grows(t, u) && EntryPresent(t, e)
    ensures EntryPresent(u, e)
  {
    if e.Dir? {
      var id :| id in t.albums && t.albums[id].slug == LowerAll(e.name);
      assert id in u.albums && u.albums[id].slug == LowerAll(e.name);
      forall f | f in e.files && f != ".DS_Store"
        ensures UrlTaken(u.media, WebPath(e.name, f))
      {
        UrlStaysTaken(t, u, WebPath(e.name, f));
      }
    }
  }

  /** A URL present in a store stays present in any store that grows from it. */
  lemma UrlStaysTaken(t: Tables, u: Tables, url: string)
    requires Grows(t, u) && UrlTaken(t.media, url)
    ensures UrlTaken(u.media, url)
  {
    var m :| m in t.media && t.media[m].url == url;
    assert m in u.media && u.media[m].url == url;
  }

  /** Seeding one file other than ".DS_Store" leaves its URL present. */
  lemma SeedFileAddsUrl(t: Tables, albumId: Id, dir: string, file: string, now: int)
    requires file != ".DS_Store"
    ensures UrlTaken(SeedFile(t, albumId, dir, file, now).media, WebPath(dir, file))
  {
    if !UrlTaken(t.media, WebPath(dir, file)) {
      assert SeedFile(t, albumId, dir, file, now).media[t.nextId].url == WebPath(dir, file);
    }
  }

  /** Seeding one more file keeps every URL present so far and adds the file's own. */
  lemma SeedFileKeepsUrls(t: Tables, albumId: Id, dir: string, prev: seq<string>, file: string, now: int)
    requires ValidTables(t) && albumId in t.albums
    requires forall f :: f in prev && f != ".DS_Store" ==> UrlTaken(t.media, WebPath(dir, f))
    ensures forall f :: f in prev + [file] && f != ".DS_Store" ==> UrlTaken(SeedFile(t, albumId, dir, file, now).media, WebPath(dir, f))
  {
    var u := SeedFile(t, albumId, dir, file, now);
    SeedFileKeepsValid(t, albumId, dir, file, now);
    forall f | f in prev + [file] && f != ".DS_Store"
      ensures UrlTaken(u.media, WebPath(dir, f))
    {
      if f in prev {
        UrlStaysTaken(t, u, WebPath(dir, f));
      } else {
        SeedFileAddsUrl(t, albumId, dir, f, now);
      }
    }
  }

  /** After a directory's files are seeded, each file's URL is present. */
  lemma {:induction false} SeedFilesAddsUrls(t: Tables, albumId: Id, dir: string, files: seq<string>, now: int)
    requires ValidTables(t) && albumId in t.albums
    ensures forall f :: f in files && f != ".DS_Store" ==> UrlTaken(SeedFiles(t, albumId, dir, files, now).media, WebPath(dir, f))
  {
    if files != [] {
      var n := |files| - 1;
      SeedFilesAddsUrls(t, albumId, dir, files[..n], now);
      SeedFileKeepsUrls(SeedFiles(t, albumId, dir, files[..n], now), albumId, dir, files[..n], files[n], now);
      assert files == files[..n] + [files[n]];
    }
  }

  /** Seeding files whose URLs are all present changes nothing. */
  lemma {:induction false} SeedFilesPresent(t: Tables, albumId: Id, dir: string, files: seq<string>, now: int)
    requires ValidTables(t) && albumId in t.albums
    requires forall f :: f in files && f != ".DS_Store" ==> UrlTaken(t.media, WebPath(dir, f))
    ensures SeedFiles(t, albumId, dir, files, now) == t
  {
    if files != [] {
      var n := |files| - 1;
      assert forall f :: f in files[..n] ==> f in files;
      SeedFilesPresent(t, albumId, dir, files[..n], now);
    }
  }

  /** Seeding an entry puts its effect in place. */
  lemma SeedEntryAdds(t: Tables, e: Entry, now: int)
    requires ValidTables(t)
    ensures EntryPresent(SeedEntry(t, e, now), e)
  {
    if e.Dir? {
      var up := UpsertAlbum(t, e.name, now);
      SeedFilesAddsUrls(up.after, up.albumId, e.name, e.files, now);
      assert SeedEntry(t, e, now).albums == up.after.albums;
    }
  }

  /** Seeding an entry whose effect is in place changes nothing. */
  lemma SeedEntryPresent(t: Tables, e: Entry, now: int)
    requires ValidTables(t) && EntryPresent(t, e)
    ensures SeedEntry(t, e, now) == t
  {
    if e.Dir? {
      var up := UpsertAlbum(t, e.name, now);
      SeedFilesPresent(up.after, up.albumId, e.name, e.files, now);
    }
  }

  /** After a run, every directory's slug and every file's URL is present. */
  lemma {:induction false} SeedEntriesAdds(t: Tables, entries: seq<Entry>, now: int)
    requires ValidTables(t)
    ensures AllPresent(SeedEntries(t, entries, now), entries)
  {
    if entries != [] {
      var n := |entries| - 1;
      var before := SeedEntries(t, entries[..n], now);
      var after := SeedEntries(t, entries, now);
      SeedEntriesAdds(t, entries[..n], now);
      SeedEntryAdds(before, entries[n], now);
      forall k | 0 <= k < n
        ensures EntryPresent(after, entries[k])
      {
        assert entries[..n][k] == entries[k];
        PresentGrows(before, after, entries[k]);
      }
    }
  }

  /** A run over entries whose effect is all in place changes nothing. */
  lemma {:induction false} SeedEntriesPresent(t: Tables, entries: seq<Entry>, now: int)
    requires ValidTables(t) && AllPresent(t, entries)
    ensures SeedEntries(t, entries, now) == t
  {
    if entries != [] {
      var n := |entries| - 1;
      assert forall k :: 0 <= k < n ==> entries[..n][k] == entries[k];
      SeedEntriesPresent(t, entries[..n], now);
      SeedEntryPresent(t, entries[n], now);
    }
  }

  /** Running the script again, at any later time, adds nothing: no album and no media row twice. */
  lemma SeedTwice(t: Tables, uploads: Option<seq<Entry>>, now: int, later: int)
    requires ValidTables(t)
    ensures Seed(Seed(t, uploads, now), uploads, later) == Seed(t, uploads, now)
  {
    if uploads.Some? {
      SeedEntriesAdds(t, uploads.value, now);
      SeedEntriesPresent(Seed(t, uploads, now), uploads.value, later);
    }
  }
}
