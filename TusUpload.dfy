// The tusd webhook route of the backend (backend/src/routes/tusUpload.ts,
// `POST /hooks`) and the speed fallback of `POST /telegram-notify`.
//
// The database is a value: the uploaded-file rows in creation order and the
// upload links keyed by token; the projects that exist are a set of ids. The
// handler is a function from that state and the hook body to the response
// status, the new state and the call it makes on the upload ledger. A write
// the handler made before an exception is thrown stays in the new state, as
// it does in the database.

module TusUpload {
  import opened Strings
  import opened UploadTracker
  import opened TusdHooksController

  datatype UploadStatus = Uploading | Completed | Cancelled | Error

  datatype FileRecord = FileRecord(
    projectId: string,
    name: string,
    size: int,
    status: UploadStatus,
    tusId: string,
    path: Option<string>,
    completedAt: Option<int>)

  datatype UploadLink = UploadLink(id: string, projectId: string, usedCount: int)

  datatype Db = Db(files: seq<FileRecord>, links: map<string, UploadLink>)

  /** `Upload.Storage`; `path` is `Storage.Path`. */
  datatype StorageInfo = StorageInfo(path: Option<string>)

  /** `Upload` of a tusd hook event; each part may be missing. */
  datatype TusUploadInfo = TusUploadInfo(
    id: string,
    size: Option<int>,
    offset: Option<int>,
    metaData: Option<map<string, string>>,
    storage: Option<StorageInfo>)

  datatype HookEvent = HookEvent(upload: Option<TusUploadInfo>, hookType: Option<string>)

  datatype HooksOutcome = HooksOutcome(status: int, db: Db, call: LedgerCall)

  const RejectedPath: string := "REJECTED: .turbosort files are not allowed"
  const UnnamedFile: string := "unnamed-file"
  const DefaultProject: string := "default"

  /** The `.turbosort` test applied at every stage of the hook handler. */
  predicate IsTurbosort(filename: string)
  {
    filename == ".turbosort" || EndsWith(ToLower(filename), ".turbosort")
  }

  /** The rule needs only its second half: ".turbosort" already ends with itself. */
  lemma TurbosortIsSuffixRule(filename: string)
    ensures IsTurbosort(filename) <==> EndsWith(ToLower(filename), ".turbosort")
  {
    if filename == ".turbosort" {
      var t := ToLower(filename);
      assert forall i | 0 <= i < |t| :: t[i] == filename[i];
      assert t == filename;
    }
  }

  function MetaValue(u: Option<TusUploadInfo>, key: string): Option<string>
  {
    if u.Some? && u.value.metaData.Some? && key in u.value.metaData.value then Some(u.value.metaData.value[key])
    else None
  }

  /** `Upload?.MetaData?.filename || 'unnamed-file'` */
  function FileNameOf(u: Option<TusUploadInfo>): (r: string)
    ensures r != ""
  {
    OrElse(MetaValue(u, "filename"), UnnamedFile)
  }

  /** The link the token resolves to, if the metadata carries a truthy token. */
  function LinkOf(db: Db, u: Option<TusUploadInfo>): Option<UploadLink>
  {
    var token := MetaValue(u, "token");
    if Truthy(token) && token.value in db.links then Some(db.links[token.value]) else None
  }

  /** projectId: the link's when the token resolves, else the metadata's, else "default". */
  function ProjectIdOf(db: Db, u: Option<TusUploadInfo>): string
  {
    var link := LinkOf(db, u);
    if link.Some? then link.value.projectId else OrElse(MetaValue(u, "projectId"), DefaultProject)
  }

  /** The link table after the token lookup: post-finish counts one use. */
  function CountUse(db: Db, u: Option<TusUploadInfo>, hookType: Option<string>): (r: Db)
    ensures r.files == db.files && r.links.Keys == db.links.Keys
  {
    var token := MetaValue(u, "token");
    if Truthy(token) && token.value in db.links && hookType == Some("post-finish") then
      var l := db.links[token.value];
      db.(links := db.links[token.value := l.(usedCount := l.usedCount + 1)])
    else db
  }

  /** `updateMany({ where: { tusId } })`: every row of that upload gets `f`. */
  function UpdateByTusId(files: seq<FileRecord>, tusId: string, status: UploadStatus, path: Option<Option<string>>, completedAt: Option<int>): (r: seq<FileRecord>)
    ensures |r| == |files|
    ensures forall i :: 0 <= i < |files| ==>
      if files[i].tusId == tusId then
        r[i].status == status && r[i].tusId == tusId && r[i].name == files[i].name &&
        r[i].path == (if path.Some? then path.value else files[i].path) &&
        r[i].completedAt == (if completedAt.Some? then completedAt else files[i].completedAt)
      else r[i] == files[i]
  {
    if files == [] then []
    else
      var f := files[0];
      var g := if f.tusId != tusId then f
               else f.(status := status,
                       path := if path.Some? then path.value else f.path,
                       completedAt := if completedAt.Some? then completedAt else f.completedAt);
      [g] + UpdateByTusId(files[1..], tusId, status, path, completedAt)
  }

  /**
   * The row created by post-create, or None when building it throws:
   * `Upload.Size.toString()`, `Upload.MetaData.filetype` and `Upload.Storage.Key`
   * need Size, MetaData and Storage, and connecting the project needs it to exist.
   */
  function CreatedRow(u: Option<TusUploadInfo>, projects: set<string>, projectId: string, filename: string, status: UploadStatus, path: Option<string>): Option<FileRecord>
  {
    if u.None? || u.value.size.None? || u.value.metaData.None? || u.value.storage.None? || projectId !in projects then None
    else Some(FileRecord(projectId, filename, u.value.size.value, status, u.value.id, path, None))
  }

  /** What a hook does to the file rows, the answer and the ledger call. */
  datatype FilesOutcome = FilesOutcome(status: int, files: seq<FileRecord>, call: LedgerCall)

  /**
   * The `/hooks` handler. `body` is None when the request body is not an
   * object; `uploadsDir` is UPLOADS_DIR. The token lookup runs first, for
   * every hook, and is the only writer of the link table.
   */
  function HandleHook(db: Db, projects: set<string>, body: Option<HookEvent>, uploadsDir: string, now: int): HooksOutcome
  {
    if body.None? then HooksOutcome(400, db, NoCall)
    else
      var db1 := CountUse(db, body.value.upload, body.value.hookType);
      var f := HookOnFiles(db1.files, projects, body.value.upload, ProjectIdOf(db, body.value.upload),
                           body.value.hookType, uploadsDir, now);
      HooksOutcome(f.status, Db(f.files, db1.links), f.call)
  }

  /** The switch on `Type`, given the project id the token lookup chose. */
  function HookOnFiles(files: seq<FileRecord>, projects: set<string>, u: Option<TusUploadInfo>, projectId: string,
                       hookType: Option<string>, uploadsDir: string, now: int): FilesOutcome
  {
    var filename := FileNameOf(u);
    if hookType.None? then FilesOutcome(200, files, NoCall)
    else if hookType.value == "pre-create" then
      if IsTurbosort(filename) then FilesOutcome(400, files, NoCall)
      else if projectId != DefaultProject && projectId !in projects then FilesOutcome(404, files, NoCall)
      else FilesOutcome(200, files, NoCall)
    else if hookType.value == "post-create" then
      var rejected := IsTurbosort(filename);
      var row := CreatedRow(u, projects, projectId, filename,
                            if rejected then Error else Uploading,
                            if rejected then Some(RejectedPath) else if u.Some? && u.value.storage.Some? then u.value.storage.value.path else None);
      if row.None? then FilesOutcome(500, files, NoCall)
      else if rejected then FilesOutcome(200, files + [row.value], NoCall)
      else FilesOutcome(200, files + [row.value], Track(TrackRequest(u.value.id, u.value.size.value, 0, u.value.metaData, now, None, None, None)))
    else if hookType.value == "post-receive" then
      if u.None? then FilesOutcome(500, files, NoCall)
      else if IsTurbosort(filename) then
        FilesOutcome(200, UpdateByTusId(files, u.value.id, Error, Some(Some(RejectedPath)), None), NoCall)
      else
        FilesOutcome(200, files, Track(TrackRequest(u.value.id, OrZero(u.value.size), OrZero(u.value.offset), u.value.metaData, now, None, None, None)))
    else if hookType.value == "post-finish" then
      if u.None? then FilesOutcome(500, files, NoCall)
      else if IsTurbosort(filename) then
        FilesOutcome(400, UpdateByTusId(files, u.value.id, Error, Some(Some(RejectedPath)), Some(now)), NoCall)
      else if u.value.storage.None? then FilesOutcome(500, files, NoCall)
      else
        var destPath := uploadsDir + "/" + u.value.id + "_" + filename;
        FilesOutcome(200, UpdateByTusId(files, u.value.id, Completed, Some(Some(destPath)), Some(now)), Complete(u.value.id))
    else if hookType.value == "post-terminate" then
      if u.None? then FilesOutcome(500, files, NoCall)
      else FilesOutcome(200, UpdateByTusId(files, u.value.id, Cancelled, None, None), NoCall)
    else FilesOutcome(200, files, NoCall)
  }

  /** The route: decide, then make the ledger call. */
  method Hooks(t: Tracker, db: Db, projects: set<string>, body: Option<HookEvent>, uploadsDir: string, now: int)
    returns (status: int, db': Db)
    requires t.Valid()
    modifies t
    ensures t.Valid()
    ensures status == HandleHook(db, projects, body, uploadsDir, now).status
    ensures db' == HandleHook(db, projects, body, uploadsDir, now).db
    ensures HandleHook(db, projects, body, uploadsDir, now).call.NoCall? ==>
      t.uploads == old(t.uploads) && t.scheduledCleanups == old(t.scheduledCleanups)
    ensures HandleHook(db, projects, body, uploadsDir, now).call.Track? ==>
      var req := HandleHook(db, projects, body, uploadsDir, now).call.req;
      t.uploads == old(t.uploads)[req.id := Tracked(req, old(t.GetUpload(req.id)), now)]
    ensures HandleHook(db, projects, body, uploadsDir, now).call.Complete? ==>
      var id := HandleHook(db, projects, body, uploadsDir, now).call.id;
      id in old(t.uploads) ==> t.uploads == old(t.uploads)[id := UploadTracker.Completed(old(t.uploads)[id], now)]
    ensures t.State() == AfterCall(old(t.State()), HandleHook(db, projects, body, uploadsDir, now).call, now)
  {
    var r := HandleHook(db, projects, body, uploadsDir, now);
    status, db' := r.status, r.db;
    match r.call
    case NoCall =>
    case Track(req) => t.TrackUpload(req, now);
    case Complete(id) => t.CompleteUpload(id, now);
  }

  // ---------------------------------------------------------------------
  // Properties of the handler

  /** A `.turbosort` upload never reaches the ledger, whatever the hook. */
  lemma TurbosortNeverTracked(db: Db, projects: set<string>, e: HookEvent, dir: string, now: int)
    requires IsTurbosort(FileNameOf(e.upload))
    ensures HandleHook(db, projects, Some(e), dir, now).call.NoCall?
    ensures e.hookType == Some("pre-create") || e.hookType == Some("post-finish") ==>
      HandleHook(db, projects, Some(e), dir, now).status in {400, 500}
  {
    var db1 := CountUse(db, e.upload, e.hookType);
    TurbosortOnFiles(db1.files, projects, e.upload, ProjectIdOf(db, e.upload), e.hookType, dir, now);
  }

  /** The switch makes no ledger call for a `.turbosort` file, and refuses it on pre-create and post-finish. */
  lemma TurbosortOnFiles(files: seq<FileRecord>, projects: set<string>, u: Option<TusUploadInfo>, projectId: string,
                         hookType: Option<string>, dir: string, now: int)
    requires IsTurbosort(FileNameOf(u))
    ensures HookOnFiles(files, projects, u, projectId, hookType, dir, now).call.NoCall?
    ensures hookType == Some("pre-create") || hookType == Some("post-finish") ==>
      HookOnFiles(files, projects, u, projectId, hookType, dir, now).status in {400, 500}
  {
    var r := HookOnFiles(files, projects, u, projectId, hookType, dir, now);
    if hookType.Some? {
      var h := hookType.value;
      if h == "pre-create" {
        assert r.status == 400 && r.call.NoCall?;
      } else if h == "post-create" {
        assert r.call.NoCall?;
      } else if h == "post-receive" {
        assert r.call.NoCall?;
      } else if h == "post-finish" {
        assert r.status in {400, 500} && r.call.NoCall?;
      } else {
        assert r.call.NoCall?;
      }
    }
  }

  /**
   * The link's use count goes up by one exactly on post-finish with a
   * resolving token, also for a rejected `.turbosort` file; nothing else
   * about the links changes.
   */
  lemma UsageCountRule(db: Db, projects: set<string>, e: HookEvent, dir: string, now: int, token: string)
    requires token in db.links
    ensures var links := HandleHook(db, projects, Some(e), dir, now).db.links;
      links.Keys == db.links.Keys &&
      links[token].id == db.links[token].id && links[token].projectId == db.links[token].projectId &&
      links[token].usedCount == db.links[token].usedCount +
        (if e.hookType == Some("post-finish") && token != "" && MetaValue(e.upload, "token") == Some(token) then 1 else 0)
  {
  }

  /** pre-create answers 400, 404 or 200 and writes nothing but the use count. */
  lemma PreCreateAnswers(db: Db, projects: set<string>, e: HookEvent, dir: string, now: int)
    requires e.hookType == Some("pre-create")
    ensures var r := HandleHook(db, projects, Some(e), dir, now);
      r.db.files == db.files && r.call.NoCall? &&
      (r.status == 400 <==> IsTurbosort(FileNameOf(e.upload))) &&
      (r.status == 404 <==> !IsTurbosort(FileNameOf(e.upload)) &&
                            ProjectIdOf(db, e.upload) != DefaultProject && ProjectIdOf(db, e.upload) !in projects) &&
      r.status in {200, 400, 404}
  {
  }

  /**
   * post-create of an accepted file adds one "uploading" row at the end and
   * tracks the upload at offset 0, not complete; a `.turbosort` file adds an
   * "error" row with the rejection path and is not tracked.
   */
  lemma PostCreateEffect(db: Db, projects: set<string>, e: HookEvent, dir: string, now: int)
    requires e.hookType == Some("post-create")
    requires HandleHook(db, projects, Some(e), dir, now).status == 200
    ensures var r := HandleHook(db, projects, Some(e), dir, now);
      |r.db.files| == |db.files| + 1 && r.db.files[..|db.files|] == db.files &&
      var row := r.db.files[|db.files|];
      row.name == FileNameOf(e.upload) && row.projectId == ProjectIdOf(db, e.upload) &&
      row.projectId in projects &&
      (IsTurbosort(row.name) ==> row.status == Error && row.path == Some(RejectedPath) && r.call.NoCall?) &&
      (!IsTurbosort(row.name) ==>
        row.status == Uploading && r.call.Track? && r.call.req.offset == 0 && r.call.req.isComplete.None?)
  {
    var r := HandleHook(db, projects, Some(e), dir, now);
    assert (CountUse(db, e.upload, e.hookType).files + [r.db.files[|db.files|]])[..|db.files|] == db.files;
  }

  /**
   * post-finish of an accepted file marks every row of the upload "completed"
   * at the link path UPLOADS_DIR/<ID>_<filename> and completes the ledger record.
   */
  lemma PostFinishEffect(db: Db, projects: set<string>, e: HookEvent, dir: string, now: int, i: nat)
    requires e.hookType == Some("post-finish") && e.upload.Some? && e.upload.value.storage.Some?
    requires !IsTurbosort(FileNameOf(e.upload))
    requires i < |db.files| && db.files[i].tusId == e.upload.value.id
    ensures var r := HandleHook(db, projects, Some(e), dir, now);
      r.status == 200 && r.call == Complete(e.upload.value.id) &&
      |r.db.files| == |db.files| && r.db.files[i].status == Completed &&
      r.db.files[i].path == Some(dir + "/" + e.upload.value.id + "_" + FileNameOf(e.upload)) &&
      r.db.files[i].completedAt == Some(now)
  {
  }

  /** A hook without a Type is answered 200 and changes no file row. */
  lemma MissingTypeIsNoOp(db: Db, projects: set<string>, u: Option<TusUploadInfo>, dir: string, now: int)
    ensures var r := HandleHook(db, projects, Some(HookEvent(u, None)), dir, now);
      r.status == 200 && r.db == db && r.call.NoCall?
  {
  }

  // ---------------------------------------------------------------------
  // POST /telegram-notify

  /**
   * The speed the notify endpoint computes when the hook script supplied
   * none: only for "upload_progress" with an upload id whose ledger record
   * has a previous offset and time, and only when the clock moved on.
   * `uploadSpeed` is the supplied speed (0 counts as none).
   */
  function NotifySpeed(notifyType: string, uploadSpeed: Option<real>, uploadId: Option<string>,
                       offset: Option<int>, existing: Option<UploadInfo>, now: int): (r: Option<real>)
    ensures r.Some? ==>
      notifyType == "upload_progress" && (uploadSpeed.None? || uploadSpeed.value == 0.0) && Truthy(uploadId) &&
      existing.Some? && existing.value.previousOffset.Some? && existing.value.previousUpdateTime.Some? &&
      now > existing.value.previousUpdateTime.value &&
      r.value * (now - existing.value.previousUpdateTime.value) as real ==
        (OrZero(offset) - existing.value.previousOffset.value) as real * 1000.0
    ensures (notifyType == "upload_progress" && (uploadSpeed.None? || uploadSpeed.value == 0.0) && Truthy(uploadId) &&
             existing.Some? && existing.value.previousOffset.Some? && existing.value.previousUpdateTime.Some? &&
             now > existing.value.previousUpdateTime.value) ==> r.Some?
  {
    if notifyType == "upload_progress" && (uploadSpeed.None? || uploadSpeed.value == 0.0) && Truthy(uploadId) &&
       existing.Some? && existing.value.previousOffset.Some? && existing.value.previousUpdateTime.Some?
    then
      var bytesDiff := OrZero(offset) - existing.value.previousOffset.value;
      var timeDiffMs := now - existing.value.previousUpdateTime.value;
      if timeDiffMs > 0 then Some(bytesDiff as real / timeDiffMs as real * 1000.0) else None
    else None
  }
}
