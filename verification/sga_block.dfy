/** The Staff Graded Assignment block: its fields, the student-facing view of
    a submission, the upload and download handlers, the staff-interface gate,
    the settings handler and the maximum score. */
module SgaBlock {
  import opened Wrappers
  import opened Json
  import opened ChunkedRead
  import opened StoragePath
  import opened BlobStore

  /** The upload instant (`_now()`, UTC), supplied by the caller. */
  datatype Timestamp = Timestamp(utcMicros: int)

  /** The settings-scoped fields. `save_sga` stores whatever JSON value the
      editor sends, unconverted, so each field is a JSON value. */
  datatype Settings = Settings(displayName: JsonValue, points: JsonValue, weight: JsonValue)

  const DefaultSettings: Settings := Settings(JString("Staff Graded Assignment"), JNumber(100.0), JNull)

  /** The user-state fields: one student's current submission and grade. */
  datatype Submission = Submission(
    sha1: Option<string>,
    filename: Option<string>,
    mimetype: Option<string>,
    timestamp: Option<Timestamp>,
    score: real)

  const NoSubmission: Submission := Submission(None, None, None, None, 0.0)

  /** One block instance as one student sees it: its location URL
      (`self.location.url()`), its settings and that student's state. */
  datatype Block = Block(location: string, settings: Settings, state: Submission)

  /** What a handler raises: the location assertion, a `None` reaching string
      code, and a blob missing from storage. */
  datatype HandlerError = PathNotI4x | NoneArgument | BlobNotFound

  /** `max_score`. */
  function MaxScore(b: Block): JsonValue {
    b.settings.points
  }

  /** Python truthiness of an optional string: neither `None` nor "". */
  predicate Truthy(s: Option<string>) {
    s.Some? && s.value != ""
  }

  function OptionalString(s: Option<string>): JsonValue {
    match s
    case None => JNull
    case Some(v) => JString(v)
  }

  /** `student_state`: `{"uploaded": null}` before a submission, otherwise
      `{"uploaded": {"filename": ...}}`. */
  function StudentState(st: Submission): (v: JsonValue)
    ensures v.JObject? && v.fields.Keys == {"uploaded"}
    ensures v.fields["uploaded"] == JNull <==> !Truthy(st.sha1)
    ensures Truthy(st.sha1) ==> v.fields["uploaded"].JObject?
                                && v.fields["uploaded"].fields.Keys == {"filename"}
                                && v.fields["uploaded"].fields["filename"] == OptionalString(st.filename)
  {
    var uploaded := if Truthy(st.sha1) then JObject(map["filename" := OptionalString(st.filename)]) else JNull;
    JObject(map["uploaded" := uploaded])
  }

  /** The view depends on nothing but whether a digest is present and the
      filename: the digest itself, the MIME type, the timestamp and the score
      never show through. */
  lemma StudentStateHidesRecord(a: Submission, b: Submission)
    requires Truthy(a.sha1) == Truthy(b.sha1)
    requires Truthy(a.sha1) ==> a.filename == b.filename
    ensures StudentState(a) == StudentState(b)
  {
  }

  /** The record after a successful upload: the four upload fields replaced
      together, the score, settings and location as they were. */
  ghost predicate UploadRecorded(before: Block, after: Block, file: Stream,
                                 mimetype: Option<string>, now: Timestamp, digest: string)
  {
    && after.state.sha1 == Some(digest)
    && after.state.filename == Some(file.name)
    && after.state.mimetype == mimetype
    && after.state.timestamp == Some(now)
    && after.state.score == before.state.score
    && after.settings == before.settings
    && after.location == before.location
  }

  /** The block, storage and response after an upload. */
  datatype Uploaded = Uploaded(block: Block, store: Store, response: JsonValue)

  /** `upload_assignment`, as intended: hash the uploaded file, record the four
      upload fields, and save the file's bytes under the derived path unless a
      blob is already stored there. The MIME guess, the clock and SHA-1 are
      parameters. A failure leaves block and storage as they were. */
  function UploadAssignment(b: Block, store: Store, file: Stream, mimetype: Option<string>,
                            now: Timestamp, sha1: seq<byte> -> string): (r: Result<Uploaded, HandlerError>)
    ensures r.Success? <==> HasPrefix(b.location, LocationScheme)
    ensures r.Failure? ==> r.error == PathNotI4x
    ensures r.Success? ==> UploadRecorded(b, r.value.block, file, mimetype, now, sha1(Remaining(file)))
    ensures r.Success? ==> r.value.response == StudentState(r.value.block.state)
    ensures r.Success? && sha1(Remaining(file)) != "" ==>
              r.value.response == JObject(map["uploaded" := JObject(map["filename" := JString(file.name)])])
    ensures r.Success? ==>
              var path := FileStoragePath(b.location, sha1(Remaining(file)), file.name).value;
              && r.value.store.Keys == store.Keys + {path}
              && (forall p :: p in store ==> r.value.store[p] == store[p])
              && (!Exists(store, path) ==> r.value.store[path] == file.content)
  {
    var (digest, rewound) := GetSha1(file, sha1);
    var state := b.state.(sha1 := Some(digest), filename := Some(file.name),
                          mimetype := mimetype, timestamp := Some(now));
    match FileStoragePath(b.location, digest, file.name)
    case Failure(_) => Failure(PathNotI4x)
    case Success(path) =>
      var stored := SaveIfAbsent(store, path, Remaining(rewound));
      Success(Uploaded(b.(state := state), stored, StudentState(state)))
  }

  /** The response of a download: the body as the blocks the iterator
      yields, the content type and the content disposition. */
  datatype Response = Response(body: seq<seq<byte>>, contentType: Option<string>, contentDisposition: string)

  const AttachmentPrefix: string := "attachment; filename="

  /** `download`: open the blob and stream it in 8 KiB blocks. */
  function Download(store: Store, path: string, mimetype: Option<string>, filename: string): (r: Result<Response, HandlerError>)
    ensures r.Success? <==> Exists(store, path)
    ensures r.Failure? ==> r.error == BlobNotFound
    ensures r.Success? ==> Flatten(r.value.body) == store[path]
    ensures r.Success? ==> forall i :: 0 <= i < |r.value.body| ==> 0 < |r.value.body[i]| <= BlockSize
    ensures r.Success? ==> r.value.contentType == mimetype
    ensures r.Success? ==> HasPrefix(r.value.contentDisposition, AttachmentPrefix)
                           && r.value.contentDisposition[|AttachmentPrefix|..] == filename
  {
    match Open(store, path)
    case None => Failure(BlobNotFound)
    case Some(f) => Success(Response(Blocks(f, BlockSize), mimetype, AttachmentPrefix + filename))
  }

  /** `download_assignment`: the student's own file. The location assertion
      fires first; a missing digest or filename is a `None` in string code. */
  function DownloadAssignment(b: Block, store: Store): (r: Result<Response, HandlerError>)
    ensures !HasPrefix(b.location, LocationScheme) ==> r == Failure(PathNotI4x)
    ensures (HasPrefix(b.location, LocationScheme) && (b.state.sha1.None? || b.state.filename.None?))
            ==> r == Failure(NoneArgument)
    ensures r.Success? <==>
              && HasPrefix(b.location, LocationScheme)
              && b.state.sha1.Some? && b.state.filename.Some?
              && Exists(store, FileStoragePath(b.location, b.state.sha1.value, b.state.filename.value).value)
    ensures r.Success? ==>
              && Flatten(r.value.body)
                 == store[FileStoragePath(b.location, b.state.sha1.value, b.state.filename.value).value]
              && r.value.contentType == b.state.mimetype
              && r.value.contentDisposition == AttachmentPrefix + b.state.filename.value
  {
    if !HasPrefix(b.location, LocationScheme) then Failure(PathNotI4x)
    else if b.state.sha1.None? || b.state.filename.None? then Failure(NoneArgument)
    else
      var path := FileStoragePath(b.location, b.state.sha1.value, b.state.filename.value).value;
      Download(store, path, b.state.mimetype, b.state.filename.value)
  }

  /** Upload then download gives back the uploaded bytes, MIME type and name,
      provided no different blob already sat at the path (that is, no SHA-1
      collision between files with the same extension). */
  lemma UploadThenDownload(b: Block, store: Store, file: Stream, mimetype: Option<string>,
                           now: Timestamp, sha1: seq<byte> -> string)
    requires HasPrefix(b.location, LocationScheme)
    requires var path := FileStoragePath(b.location, sha1(Remaining(file)), file.name).value;
             Exists(store, path) ==> store[path] == file.content
    ensures var u := UploadAssignment(b, store, file, mimetype, now, sha1).value;
            var d := DownloadAssignment(u.block, u.store);
            && d.Success?
            && Flatten(d.value.body) == file.content
            && d.value.contentType == mimetype
            && d.value.contentDisposition == AttachmentPrefix + file.name
  {
    var u := UploadAssignment(b, store, file, mimetype, now, sha1).value;
    var path := FileStoragePath(b.location, sha1(Remaining(file)), file.name).value;
    assert u.block.state.sha1 == Some(sha1(Remaining(file)));
    assert u.block.state.filename == Some(file.name);
    assert path in u.store && u.store[path] == file.content;
  }

  /** Two students of one block who upload the same bytes under names with the
      same extension share one blob: the second save is skipped and at most
      one path is added in all. */
  lemma SameContentSharesBlob(a: Block, b: Block, store: Store, fa: Stream, fb: Stream,
                              ma: Option<string>, mb: Option<string>, ta: Timestamp, tb: Timestamp,
                              sha1: seq<byte> -> string)
    requires HasPrefix(a.location, LocationScheme) && b.location == a.location
    requires Remaining(fa) == Remaining(fb)
    requires Ext(fa.name) == Ext(fb.name)
    ensures var ua := UploadAssignment(a, store, fa, ma, ta, sha1).value;
            var ub := UploadAssignment(b, ua.store, fb, mb, tb, sha1).value;
            && ub.store == ua.store
            && |ub.store.Keys| <= |store.Keys| + 1
            && ua.block.state.sha1 == ub.block.state.sha1
            && ua.block.state.filename == Some(fa.name)
            && ub.block.state.filename == Some(fb.name)
  {
    var digest := sha1(Remaining(fa));
    var pa := FileStoragePath(a.location, digest, fa.name).value;
    var ua := UploadAssignment(a, store, fa, ma, ta, sha1).value;
    assert FileStoragePath(b.location, digest, fb.name).value == pa;
    assert Exists(ua.store, pa);
    AddOneKey(store, pa);
  }

  lemma AddOneKey(store: Store, path: string)
    ensures |store.Keys + {path}| <= |store.Keys| + 1
  {
    if path in store {
      assert store.Keys + {path} == store.Keys;
    }
  }

  /** Two uploads to one block, with a SHA-1 that yields hex digests, get
      the same storage path exactly when their digests and their filename
      extensions agree. */
  lemma UploadsSharePathIff(b: Block, fa: Stream, fb: Stream, sha1: seq<byte> -> string)
    requires HasPrefix(b.location, LocationScheme)
    requires forall bs :: IsHexDigest(sha1(bs))
    ensures FileStoragePath(b.location, sha1(Remaining(fa)), fa.name)
              == FileStoragePath(b.location, sha1(Remaining(fb)), fb.name)
            <==> sha1(Remaining(fa)) == sha1(Remaining(fb)) && Ext(fa.name) == Ext(fb.name)
  {
    SamePathIff(b.location, sha1(Remaining(fa)), fa.name, sha1(Remaining(fb)), fb.name);
  }

  /** With a SHA-1 that yields hex digests, the blob an upload adds sits
      directly in the directory named by the block's location. */
  lemma UploadBlobInLocationDirectory(b: Block, store: Store, file: Stream, mimetype: Option<string>,
                                      now: Timestamp, sha1: seq<byte> -> string)
    requires HasPrefix(b.location, LocationScheme)
    requires forall bs :: IsHexDigest(sha1(bs))
    ensures var u := UploadAssignment(b, store, file, mimetype, now, sha1).value;
            forall p :: p in u.store && p !in store ==>
              RFind(p, '/') == |b.location| - |LocationScheme|
              && p[..RFind(p, '/')] == b.location[|LocationScheme|..]
  {
    var digest := sha1(Remaining(file));
    assert IsHexDigest(digest);
    assert '/' !in digest;
    PathDirectoryIsLocation(b.location, digest, file.name);
  }

  /** A student who has not uploaded sees `{"uploaded": null}`, has no file
      to download, and a block with default settings scores out of 100. */
  lemma FreshBlock(location: string, store: Store)
    ensures StudentState(NoSubmission) == JObject(map["uploaded" := JNull])
    ensures DownloadAssignment(Block(location, DefaultSettings, NoSubmission), store).Failure?
    ensures MaxScore(Block(location, DefaultSettings, NoSubmission)) == JNumber(100.0)
  {
  }

  /** `show_staff_grading_interface`: the runtime must say the user is staff
      (a missing attribute counts as not staff) and there must be a user id
      (none means a studio preview). */
  function ShowStaffGradingInterface(userIsStaff: Option<bool>, userId: Option<int>): (r: bool)
    ensures r ==> userIsStaff == Some(true)
    ensures userId.None? ==> !r
    ensures userIsStaff == Some(true) && userId.Some? ==> r
  {
    var isCourseStaff := match userIsStaff case Some(v) => v case None => false;
    var inStudioPreview := userId.None?;
    isCourseStaff && !inStudioPreview
  }

  /** `save_sga`: each of `display_name`, `points` and `weight` takes the value
      sent for it, or keeps its own when none was sent; nothing else changes. */
  function SaveSga(b: Block, data: map<string, JsonValue>): (r: Block)
    ensures r.state == b.state && r.location == b.location
    ensures "display_name" in data ==> r.settings.displayName == data["display_name"]
    ensures "display_name" !in data ==> r.settings.displayName == b.settings.displayName
    ensures "points" in data ==> r.settings.points == data["points"]
    ensures "points" !in data ==> r.settings.points == b.settings.points
    ensures "weight" in data ==> r.settings.weight == data["weight"]
    ensures "weight" !in data ==> r.settings.weight == b.settings.weight
  {
    b.(settings := Settings(
      GetOr(data, "display_name", b.settings.displayName),
      GetOr(data, "points", b.settings.points),
      GetOr(data, "weight", b.settings.weight)))
  }

  const SettingNames: set<string> := {"display_name", "points", "weight"}

  /** Saving the same data twice is saving it once, and keys other than the
      three setting names have no effect. */
  lemma SaveSgaIdempotent(b: Block, data: map<string, JsonValue>)
    ensures SaveSga(SaveSga(b, data), data) == SaveSga(b, data)
    ensures SaveSga(b, data) == SaveSga(b, map k | k in data && k in SettingNames :: data[k])
  {
  }

  /** The maximum score follows `points` through `save_sga` and is untouched
      by an upload. */
  lemma MaxScoreFollowsPoints(b: Block, data: map<string, JsonValue>, store: Store, file: Stream,
                              mimetype: Option<string>, now: Timestamp, sha1: seq<byte> -> string)
    ensures MaxScore(SaveSga(b, data)) == if "points" in data then data["points"] else MaxScore(b)
    ensures var u := UploadAssignment(b, store, file, mimetype, now, sha1);
            u.Success? ==> MaxScore(u.value.block) == MaxScore(b)
  {
  }

  /** Uploading and saving settings touch disjoint fields, so they commute. */
  lemma UploadCommutesWithSaveSga(b: Block, data: map<string, JsonValue>, store: Store, file: Stream,
                                  mimetype: Option<string>, now: Timestamp, sha1: seq<byte> -> string)
    requires HasPrefix(b.location, LocationScheme)
    ensures UploadAssignment(SaveSga(b, data), store, file, mimetype, now, sha1).value.block
            == SaveSga(UploadAssignment(b, store, file, mimetype, now, sha1).value.block, data)
  {
  }
}
