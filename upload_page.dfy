/**
 * The admin upload page: files are dropped into a queue, can be removed
 * by name, and are then uploaded one after another. Each file gets a
 * presigned URL, is PUT to the bucket, and is recorded through
 * `POST /api/media`; its progress label moves through "processing",
 * "uploading", "saving" and "done", or ends at "error". The page also
 * lists the albums and can create a new one.
 *
 * Network outcomes are inputs: one `Attempt` per file, and the answer to
 * the album creation.
 */
module UploadPage {
  import opened Wrappers

  /** A dropped file: its name and its MIME type (`file.type`). */
  datatype File = File(name: string, mimeType: string)

  datatype Status = Processing | Uploading | Saving | Done | Error

  /** One `setProgress` call: the label shown for a file name. */
  datatype ProgressEvent = ProgressEvent(name: string, status: Status)

  /** The two URLs the sign-URL endpoint answers with. */
  datatype SignedUrls = SignedUrls(uploadUrl: string, publicUrl: string)

  /**
   * What the network does for one file: the sign-URL call (`None` when it
   * throws, is not ok, or its body does not parse), whether the PUT to the
   * bucket is ok, and the metadata save's HTTP status (`None` when that
   * fetch throws).
   */
  datatype Attempt = Attempt(signed: Option<SignedUrls>, putOk: bool, saveStatus: Option<int>)

  /** The body of `POST /api/media`. */
  datatype MediaPost = MediaPost(url: string, kind: string, caption: string, albumId: Option<string>)

  datatype AlbumOption = AlbumOption(id: string, title: string)

  /** The page's answer from `POST /api/albums`: not ok, or the created album. */
  datatype CreateOutcome = NotOk | Created(album: AlbumOption)

  // ------------------------------------------------------------ specification

  /** The labels one file passes through, in order. */
  function Steps(a: Attempt): (s: seq<Status>)
    ensures 2 <= |s| <= 4 && s[0] == Processing
    ensures s[|s| - 1] == Done <==> a.signed.Some? && a.putOk && a.saveStatus.Some?
    ensures s[|s| - 1] != Done ==> s[|s| - 1] == Error
  {
    if a.signed.None? then [Processing, Error]
    else if !a.putOk then [Processing, Uploading, Error]
    else if a.saveStatus.None? then [Processing, Uploading, Saving, Error]
    else [Processing, Uploading, Saving, Done]
  }

  /** The last label a file shows. */
  function Final(a: Attempt): Status {
    var s := Steps(a);
    s[|s| - 1]
  }

  /** The progress updates for one file. */
  function FileEvents(f: File, a: Attempt): (es: seq<ProgressEvent>)
    ensures |es| == |Steps(a)|
    ensures forall k :: 0 <= k < |es| ==> es[k] == ProgressEvent(f.name, Steps(a)[k])
  {
    seq(|Steps(a)|, k requires 0 <= k < |Steps(a)| => ProgressEvent(f.name, Steps(a)[k]))
  }

  /** All progress updates of an upload run, file after file. */
  function Events(files: seq<File>, attempts: seq<Attempt>): seq<ProgressEvent>
    requires |attempts| == |files|
  {
    if files == [] then []
    else Events(files[..|files| - 1], attempts[..|files| - 1]) + FileEvents(files[|files| - 1], attempts[|files| - 1])
  }

  /** The progress map after a sequence of updates, each overwriting its name's label. */
  function Apply(progress: map<string, Status>, events: seq<ProgressEvent>): map<string, Status> {
    if events == [] then progress
    else
      var e := events[|events| - 1];
      Apply(progress, events[..|events| - 1])[e.name := e.status]
  }

  /** The progress map seen file by file: each file's final label, later files winning. */
  function Finals(progress: map<string, Status>, files: seq<File>, attempts: seq<Attempt>): map<string, Status>
    requires |attempts| == |files|
  {
    if files == [] then progress
    else Finals(progress, files[..|files| - 1], attempts[..|files| - 1])[files[|files| - 1].name := Final(attempts[|files| - 1])]
  }

  /** `file.type.startsWith("video") ? "video" : "image"`. */
  function KindOf(mimeType: string): string {
    if "video" <= mimeType then "video" else "image"
  }

  /** `selectedAlbumId || null`. */
  function AlbumOf(selectedAlbumId: string): Option<string> {
    if selectedAlbumId == "" then None else Some(selectedAlbumId)
  }

  /** The metadata save a file makes once its PUT succeeded. */
  function SaveOf(f: File, a: Attempt, selectedAlbumId: string): MediaPost
    requires a.signed.Some?
  {
    MediaPost(a.signed.value.publicUrl, KindOf(f.mimeType), f.name, AlbumOf(selectedAlbumId))
  }

  /** The metadata saves sent during an upload run, in file order. */
  function Saves(files: seq<File>, attempts: seq<Attempt>, selectedAlbumId: string): seq<MediaPost>
    requires |attempts| == |files|
  {
    if files == [] then []
    else
      var f, a := files[|files| - 1], attempts[|files| - 1];
      Saves(files[..|files| - 1], attempts[..|files| - 1], selectedAlbumId)
        + (if a.signed.Some? && a.putOk then [SaveOf(f, a, selectedAlbumId)] else [])
  }

  /** `files.filter((f) => f.name !== name)`. */
  function Without(files: seq<File>, name: string): (r: seq<File>)
    ensures |r| <= |files|
  {
    if files == [] then []
    else
      var rest := Without(files[..|files| - 1], name);
      var f := files[|files| - 1];
      if f.name == name then rest else rest + [f]
  }

  /** The filter keeps exactly the queued files of another name. */
  lemma {:induction false} WithoutExactly(files: seq<File>, name: string)
    ensures forall f :: f in Without(files, name) <==> f in files && f.name != name
    decreases |files|
  {
    if files != [] {
      var init, last := files[..|files| - 1], files[|files| - 1];
      WithoutExactly(init, name);
      assert files == init + [last];
      assert forall g :: g in files <==> g in init || g == last;
    }
  }

  // ------------------------------------------------------------ the page

  class Page {
    var files: seq<File>
    var uploading: bool
    var progress: map<string, Status>
    var albums: seq<AlbumOption>
    var selectedAlbumId: string
    var newAlbumName: string
    var isCreatingAlbum: bool

    constructor ()
      ensures files == [] && !uploading && progress == map[]
      ensures albums == [] && selectedAlbumId == "" && newAlbumName == "" && !isCreatingAlbum
    {
      files, uploading, progress := [], false, map[];
      albums, selectedAlbumId, newAlbumName, isCreatingAlbum := [], "", "", false;
    }

    /** The albums request on mount: the list is taken only when the answer is an array. */
    method AlbumsLoaded(data: Option<seq<AlbumOption>>)
      modifies this
      ensures albums == if data.Some? then data.value else old(albums)
      ensures files == old(files) && progress == old(progress) && selectedAlbumId == old(selectedAlbumId)
    {
      if data.Some? {
        albums := data.value;
      }
    }

    /** Dropped files join the queue after those already there. */
    method OnDrop(accepted: seq<File>)
      modifies this
      ensures files == old(files) + accepted
      ensures progress == old(progress) && uploading == old(uploading)
    {
      files := files + accepted;
    }

    /** Every queued file with this name leaves the queue. */
    method RemoveFile(name: string)
      modifies this
      ensures files == Without(old(files), name)
      ensures progress == old(progress) && uploading == old(uploading)
    {
      files := Without(files, name);
    }

    /**
     * Creating an album: nothing is sent for an empty name; otherwise the
     * name is posted as the title, and an ok answer puts the new album at
     * the head of the list, selects it, closes the form and clears the name.
     */
    method HandleCreateAlbum(outcome: CreateOutcome) returns (sentTitle: Option<string>)
      modifies this
      ensures sentTitle == if old(newAlbumName) == "" then None else Some(old(newAlbumName))
      ensures old(newAlbumName) != "" && outcome.Created? ==>
        && albums == [outcome.album] + old(albums) && selectedAlbumId == outcome.album.id
        && !isCreatingAlbum && newAlbumName == ""
      ensures old(newAlbumName) == "" || outcome.NotOk? ==>
        && albums == old(albums) && selectedAlbumId == old(selectedAlbumId)
        && isCreatingAlbum == old(isCreatingAlbum) && newAlbumName == old(newAlbumName)
      ensures files == old(files) && progress == old(progress)
    {
      if newAlbumName == "" {
        return None;
      }
      sentTitle := Some(newAlbumName);
      if outcome.Created? {
        albums := [outcome.album] + albums;
        selectedAlbumId := outcome.album.id;
        isCreatingAlbum := false;
        newAlbumName := "";
      }
    }

    /**
     * The upload run: every queued file in order, whatever happened to the
     * files before it. Returns every progress update shown and every
     * metadata save sent.
     */
    method HandleUpload(attempts: seq<Attempt>) returns (shown: seq<ProgressEvent>, saved: seq<MediaPost>)
      requires |attempts| == |files|
      modifies this
      ensures files == old(files) && albums == old(albums) && selectedAlbumId == old(selectedAlbumId)
      ensures shown == Events(files, attempts)
      ensures saved == Saves(files, attempts, selectedAlbumId)
      ensures progress == Apply(old(progress), shown)
      ensures !uploading
    {
      uploading := true;
      shown, saved := [], [];
      ghost var start := progress;
      var i := 0;
      while i < |files|
        invariant 0 <= i <= |files| && uploading
        invariant files == old(files) && albums == old(albums) && selectedAlbumId == old(selectedAlbumId)
        invariant shown == Events(files[..i], attempts[..i])
        invariant saved == Saves(files[..i], attempts[..i], selectedAlbumId)
        invariant progress == Apply(start, shown)
      {
        var file, attempt := files[i], attempts[i];
        var events, save := UploadFile(file, attempt);
        ApplyConcat(start, shown, events);
        RunStep(files, attempts, selectedAlbumId, i);
        shown := shown + events;
        saved := saved + save;
        i := i + 1;
      }
      assert files[..i] == files && attempts[..i] == attempts;
      uploading := false;
    }

    /**
     * One file: sign, PUT, save. Returns the labels shown and the save sent,
     * if any. The save's answer is not checked; only a thrown fetch is an
     * error.
     */
    method UploadFile(file: File, attempt: Attempt) returns (events: seq<ProgressEvent>, save: seq<MediaPost>)
      modifies this
      ensures events == FileEvents(file, attempt)
      ensures save == if attempt.signed.Some? && attempt.putOk then [SaveOf(file, attempt, selectedAlbumId)] else []
      ensures progress == Apply(old(progress), events)
      ensures files == old(files) && albums == old(albums) && selectedAlbumId == old(selectedAlbumId)
      ensures uploading == old(uploading)
    {
      ghost var p := progress;
      events, save := [], [];
      events := Show(file.name, Processing, p, events);
      if attempt.signed.None? {
        events := Show(file.name, Error, p, events);
      } else {
        events := Show(file.name, Uploading, p, events);
        if !attempt.putOk {
          events := Show(file.name, Error, p, events);
        } else {
          events := Show(file.name, Saving, p, events);
          save := [SaveOf(file, attempt, selectedAlbumId)];
          var status := if attempt.saveStatus.Some? then Done else Error;
          events := Show(file.name, status, p, events);
        }
      }
    }

    /** One `setProgress` call, recorded after the updates `shown` made since `p`. */
    method Show(name: string, status: Status, ghost p: map<string, Status>, shown: seq<ProgressEvent>)
      returns (shown': seq<ProgressEvent>)
      requires progress == Apply(p, shown)
      modifies this
      ensures shown' == shown + [ProgressEvent(name, status)]
      ensures progress == Apply(p, shown')
      ensures files == old(files) && albums == old(albums) && selectedAlbumId == old(selectedAlbumId)
      ensures uploading == old(uploading)
    {
      progress := progress[name := status];
      shown' := shown + [ProgressEvent(name, status)];
      assert shown'[..|shown'| - 1] == shown;
    }
  }

  /** One more file of the run: its updates and its save come after those of the files before it. */
  lemma RunStep(files: seq<File>, attempts: seq<Attempt>, selectedAlbumId: string, i: nat)
    requires |attempts| == |files| && i < |files|
    ensures Events(files[..i + 1], attempts[..i + 1]) == Events(files[..i], attempts[..i]) + FileEvents(files[i], attempts[i])
    ensures Saves(files[..i + 1], attempts[..i + 1], selectedAlbumId) == Saves(files[..i], attempts[..i], selectedAlbumId)
      + (if attempts[i].signed.Some? && attempts[i].putOk then [SaveOf(files[i], attempts[i], selectedAlbumId)] else [])
  {
    assert files[..i + 1][..i] == files[..i] && attempts[..i + 1][..i] == attempts[..i];
  }

  // ------------------------------------------------------------ properties

  /**
   * A file's labels go processing, uploading, saving, done in that order;
   * a failure shows "error" instead of the next label and nothing after it.
   */
  lemma StepsInOrder(a: Attempt)
    ensures var s := Steps(a);
      && s[..|s| - 1] == [Processing, Uploading, Saving][..|s| - 1]
      && (s[|s| - 1] == Done ==> s == [Processing, Uploading, Saving, Done])
  {
  }

  /** The save's HTTP status is never looked at: a file whose save answers 500 still ends "done". */
  lemma SaveStatusIgnored(urls: SignedUrls)
    ensures Final(Attempt(Some(urls), true, Some(500))) == Done
  {
  }

  /** Updating the progress map with one file's labels leaves that file's final label. */
  lemma {:induction false} ApplyFileEvents(p: map<string, Status>, es: seq<ProgressEvent>, f: File, a: Attempt)
    ensures Apply(p, es + FileEvents(f, a)) == Apply(p, es)[f.name := Final(a)]
  {
    var fe := FileEvents(f, a);
    ApplySameName(Apply(p, es), fe, f.name, Final(a));
    ApplyConcat(p, es, fe);
  }

  /** Updates all for one name leave that name at the last label. */
  lemma {:induction false} ApplySameName(p: map<string, Status>, es: seq<ProgressEvent>, name: string, last: Status)
    requires es != [] && es[|es| - 1] == ProgressEvent(name, last)
    requires forall k :: 0 <= k < |es| ==> es[k].name == name
    ensures Apply(p, es) == p[name := last]
    decreases |es|
  {
    var front := es[..|es| - 1];
    if front != [] {
      ApplySameName(p, front, name, front[|front| - 1].status);
    }
  }

  /** Applying two runs of updates is applying their concatenation. */
  lemma {:induction false} ApplyConcat(p: map<string, Status>, a: seq<ProgressEvent>, b: seq<ProgressEvent>)
    ensures Apply(p, a + b) == Apply(Apply(p, a), b)
    decreases |b|
  {
    if b != [] {
      assert (a + b)[..|a + b| - 1] == a + b[..|b| - 1];
      ApplyConcat(p, a, b[..|b| - 1]);
    } else {
      assert a + b == a;
    }
  }

  /** After a run, the progress map holds each file's final label, a later file of the same name winning. */
  lemma {:induction false} ProgressAfterRun(p: map<string, Status>, files: seq<File>, attempts: seq<Attempt>)
    requires |attempts| == |files|
    ensures Apply(p, Events(files, attempts)) == Finals(p, files, attempts)
    decreases |files|
  {
    if files != [] {
      var n := |files| - 1;
      ProgressAfterRun(p, files[..n], attempts[..n]);
      ApplyFileEvents(p, Events(files[..n], attempts[..n]), files[n], attempts[n]);
    }
  }

  /**
   * A file that no later file of the queue shares its name with ends with
   * its own final label, so one file's failure does not stop the others; for
   * a name queued twice the later file's label is the one shown.
   */
  lemma {:induction false} FinalsPerFile(p: map<string, Status>, files: seq<File>, attempts: seq<Attempt>, k: nat)
    requires |attempts| == |files| && k < |files|
    requires forall j :: k < j < |files| ==> files[j].name != files[k].name
    ensures files[k].name in Finals(p, files, attempts) && Finals(p, files, attempts)[files[k].name] == Final(attempts[k])
    decreases |files|
  {
    var n := |files| - 1;
    if k < n {
      FinalsPerFile(p, files[..n], attempts[..n], k);
    }
  }

  /** Labels of names that no queued file carries are left as they were. */
  lemma {:induction false} FinalsElsewhere(p: map<string, Status>, files: seq<File>, attempts: seq<Attempt>, name: string)
    requires |attempts| == |files|
    requires forall k :: 0 <= k < |files| ==> files[k].name != name
    ensures name in Finals(p, files, attempts) <==> name in p
    ensures name in p ==> Finals(p, files, attempts)[name] == p[name]
    decreases |files|
  {
    if files != [] {
      FinalsElsewhere(p, files[..|files| - 1], attempts[..|files| - 1], name);
    }
  }

  /**
   * A metadata save is sent exactly for the files whose PUT succeeded: its
   * url is the public URL, its type is "video" exactly for video MIME
   * types, its caption is the file name and its album is the selected one,
   * or null when none is selected.
   */
  lemma {:induction false} SavesAreForUploadedFiles(files: seq<File>, attempts: seq<Attempt>, selectedAlbumId: string)
    requires |attempts| == |files|
    ensures forall m :: m in Saves(files, attempts, selectedAlbumId) ==>
      exists k :: 0 <= k < |files| && attempts[k].signed.Some? && attempts[k].putOk && m == SaveOf(files[k], attempts[k], selectedAlbumId)
    decreases |files|
  {
    if files != [] {
      var n := |files| - 1;
      var earlier := Saves(files[..n], attempts[..n], selectedAlbumId);
      SavesAreForUploadedFiles(files[..n], attempts[..n], selectedAlbumId);
      forall m | m in Saves(files, attempts, selectedAlbumId)
        ensures exists k :: 0 <= k < |files| && attempts[k].signed.Some? && attempts[k].putOk && m == SaveOf(files[k], attempts[k], selectedAlbumId)
      {
        if m in earlier {
          var k :| 0 <= k < n && attempts[..n][k].signed.Some? && attempts[..n][k].putOk && m == SaveOf(files[..n][k], attempts[..n][k], selectedAlbumId);
          assert files[..n][k] == files[k] && attempts[..n][k] == attempts[k];
        } else {
          assert m == SaveOf(files[n], attempts[n], selectedAlbumId);
        }
      }
    }
  }

  /** The positions among the first `n` whose signing and upload succeeded. */
  ghost function Succeeded(attempts: seq<Attempt>, n: nat): set<nat>
    requires n <= |attempts|
  {
    set k | 0 <= k < n && attempts[k].signed.Some? && attempts[k].putOk
  }

  lemma SucceededStep(attempts: seq<Attempt>, n: nat)
    requires n < |attempts|
    ensures n !in Succeeded(attempts, n)
    ensures Succeeded(attempts, n + 1) ==
      Succeeded(attempts, n) + (if attempts[n].signed.Some? && attempts[n].putOk then {n} else {})
  {
  }

  /** One save per file whose signing and upload succeeded. */
  lemma SavesCount(files: seq<File>, attempts: seq<Attempt>, selectedAlbumId: string)
    requires |attempts| == |files|
    ensures |Saves(files, attempts, selectedAlbumId)| == |Succeeded(attempts, |files|)|
  {
    SavesCountUpTo(files, attempts, selectedAlbumId, |files|);
    assert files[..|files|] == files && attempts[..|files|] == attempts;
  }

  lemma {:induction false} SavesCountUpTo(files: seq<File>, attempts: seq<Attempt>, selectedAlbumId: string, n: nat)
    requires |attempts| == |files| && n <= |files|
    ensures |Saves(files[..n], attempts[..n], selectedAlbumId)| == |Succeeded(attempts, n)|
    decreases n
  {
    if n > 0 {
      var m := n - 1;
      SavesCountUpTo(files, attempts, selectedAlbumId, m);
      assert files[..n][..m] == files[..m] && attempts[..n][..m] == attempts[..m];
      assert files[..n][m] == files[m] && attempts[..n][m] == attempts[m];
      SucceededStep(attempts, m);
    }
  }

  /** The type sent is "video" exactly when the MIME type starts with "video". */
  lemma KindIsVideoIff(mimeType: string)
    ensures KindOf(mimeType) == "video" <==> "video" <= mimeType
    ensures KindOf(mimeType) != "video" ==> KindOf(mimeType) == "image"
  {
  }

  /** Removing a name keeps the other files in their order: removal splits over concatenation. */
  lemma {:induction false} WithoutSplits(a: seq<File>, b: seq<File>, name: string)
    ensures Without(a + b, name) == Without(a, name) + Without(b, name)
    decreases |b|
  {
    if b == [] {
      assert a + b == a;
    } else {
      var n := |b| - 1;
      assert (a + b)[..|a + b| - 1] == a + b[..n];
      WithoutSplits(a, b[..n], name);
    }
  }

  /** A name no queued file has removes nothing. */
  lemma {:induction false} WithoutAbsent(files: seq<File>, name: string)
    requires forall k :: 0 <= k < |files| ==> files[k].name != name
    ensures Without(files, name) == files
    decreases |files|
  {
    if files != [] {
      var init, last := files[..|files| - 1], files[|files| - 1];
      assert forall k :: 0 <= k < |init| ==> init[k].name != name by {
        assert forall k :: 0 <= k < |init| ==> init[k] == files[k];
      }
      WithoutAbsent(init, name);
      assert Without(files, name) == init + [last];
      assert files == init + [last];
    }
  }
}
