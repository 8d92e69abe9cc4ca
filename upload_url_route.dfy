/**
 * `POST /api/upload/url`: hands the browser a presigned PUT URL for a new
 * object in the bucket, together with the object's key and public URL.
 * The object key is `uploads/<uuid>.<ext>`, where `ext` is what follows
 * the last '.' of the file name.
 *
 * The random UUID, the bucket name, the public URL prefix and the presigner
 * are parameters; the presigner answers `None` when signing throws.
 */
module UploadUrlRoute {
  import opened Wrappers
  import opened Http
  import opened Text

  /** The object key of an upload: `uploads/${uuid}.${ext}` with `ext = filename.split('.').pop()`. */
  function ObjectKey(uuid: string, filename: string): string {
    "uploads/" + uuid + "." + AfterLastDot(filename)
  }

  /** What is signed: a PUT of `key` with the declared content type, valid for an hour. */
  datatype SignedPut = SignedPut(bucket: string, key: string, contentType: string, expiresIn: int)

  /** The three URLs and names handed back on success. */
  datatype Ticket = Ticket(uploadUrl: string, publicUrl: string, key: string)

  datatype UrlReply = Refused(status: int) | Issued(ticket: Ticket)

  datatype UrlBody = UrlBody(filename: Field, contentType: Field)

  function Post(body: Json<UrlBody>, uuid: string, bucket: string, prefix: string,
                presign: SignedPut -> Option<string>): (r: UrlReply)
    ensures r.Refused? ==> r.status in {400, 500}
    ensures r == Refused(400) <==> body.Parsed? && (Falsy(body.value.filename) || Falsy(body.value.contentType))
  {
    if body.Unparsable? then Refused(500)
    else if Falsy(body.value.filename) || Falsy(body.value.contentType) then Refused(400)
    else
      var key := ObjectKey(uuid, body.value.filename.s);
      var command := SignedPut(bucket, key, body.value.contentType.s, 3600);
      match presign(command)
      case None => Refused(500)
      case Some(uploadUrl) => Issued(Ticket(uploadUrl, prefix + "/" + key, key))
  }

  /**
   * A ticket is issued exactly when the body names both fields and signing
   * succeeds; its key is the one signed (with the declared content type and
   * a one-hour expiry), it lies under `uploads/` and is named by the UUID and
   * the extension, and the public URL is the prefix, '/', and the key.
   */
  lemma IssuedTicket(body: Json<UrlBody>, uuid: string, bucket: string, prefix: string,
                     presign: SignedPut -> Option<string>)
    requires Post(body, uuid, bucket, prefix, presign).Issued?
    ensures body.Parsed? && !Falsy(body.value.filename) && !Falsy(body.value.contentType)
    ensures var t := Post(body, uuid, bucket, prefix, presign).ticket;
      var command := SignedPut(bucket, t.key, body.value.contentType.s, 3600);
      && t.key == "uploads/" + uuid + "." + AfterLastDot(body.value.filename.s)
      && presign(command) == Some(t.uploadUrl)
      && t.publicUrl == prefix + "/" + t.key
  {
  }

  /** A file name ending in '.' gives an empty extension, so the key ends in '.'. */
  lemma TrailingDotKey(uuid: string, stem: string)
    ensures ObjectKey(uuid, stem + ".") == "uploads/" + uuid + "."
  {
    assert (stem + ".")[|stem + "."| - 1] == '.';
  }

  /** For example, "archive.tar.gz" has extension "gz". */
  lemma LastDotExample()
    ensures AfterLastDot("archive.tar.gz") == "gz"
  {
    assert "archive.tar.gz" == "archive.tar" + "." + "gz";
    AfterLastDotOf("archive.tar", "gz");
  }

  /** Different UUIDs give different keys, whatever the file names. */
  lemma {:induction false} KeysDiffer(u1: string, u2: string, f1: string, f2: string)
    requires u1 != u2
    ensures ObjectKey(u1, f1) != ObjectKey(u2, f2)
  {
    var e1, e2 := AfterLastDot(f1), AfterLastDot(f2);
    if ObjectKey(u1, f1) == ObjectKey(u2, f2) {
      KeyParts(u1, f1);
      KeyParts(u2, f2);
      PrefixCancel("uploads/", u1 + "." + e1, u2 + "." + e2);
      LastDotSplit(u1, e1, u2, e2);
    }
  }

  lemma KeyParts(uuid: string, filename: string)
    ensures ObjectKey(uuid, filename) == "uploads/" + (uuid + "." + AfterLastDot(filename))
  {
  }

  /** A common prefix can be taken off both sides of an equation. */
  lemma PrefixCancel(p: string, a: string, b: string)
    requires p + a == p + b
    ensures a == b
  {
    assert a == (p + a)[|p|..] && b == (p + b)[|p|..];
  }

  /** A text ending in '.' and a dot-free tail splits only one way at that dot. */
  lemma LastDotSplit(u1: string, e1: string, u2: string, e2: string)
    requires '.' !in e1 && '.' !in e2
    requires u1 + "." + e1 == u2 + "." + e2
    ensures u1 == u2 && e1 == e2
  {
    var s := u1 + "." + e1;
    DotThenDotFree(u1, e1);
    DotThenDotFree(u2, e2);
    assert |u1| == |u2|;
    assert u1 == s[..|u1|] && u2 == s[..|u2|];
    assert e1 == s[|u1| + 1..] && e2 == s[|u2| + 1..];
  }

  /** In `u + "." + e` with a dot-free `e`, the dot after `u` is the last one. */
  lemma DotThenDotFree(u: string, e: string)
    requires '.' !in e
    ensures (u + "." + e)[|u|] == '.'
    ensures forall i :: |u| < i < |u + "." + e| ==> (u + "." + e)[i] != '.'
  {
    var s := u + "." + e;
    forall i | |u| < i < |s|
      ensures s[i] != '.'
    {
      assert s[i] == e[i - |u| - 1];
    }
  }
}
