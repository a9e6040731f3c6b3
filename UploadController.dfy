// The finished-upload processing of backend/src/controllers/uploadController.ts:
// the path sanitiser, the chain of checks a finished tusd upload goes through,
// the `client/project/file` destination it is moved to and the database row
// it leaves behind. The .info file, the upload-link lookup, the file system,
// the hash and the database write are answers handed in as parameters; the
// ledger is the UploadTracker class.

module UploadController {
  import opened Strings
  import opened UploadTracker

  // ---------------------------------------------------------------------
  // sanitizePathString

  /** The characters `[a-zA-Z0-9_.-]` a sanitised path component may hold. */
  predicate Allowed(c: char)
  {
    'a' <= c <= 'z' || 'A' <= c <= 'Z' || '0' <= c <= '9' || c == '_' || c == '.' || c == '-'
  }

  /** `s.replace(/[^a-zA-Z0-9_.-]/g, '_')`: one '_' per disallowed character. */
  function ReplaceDisallowed(s: string): (r: string)
    ensures |r| == |s|
    ensures forall i :: 0 <= i < |s| ==> r[i] == (if Allowed(s[i]) then s[i] else '_')
  {
    seq(|s|, i requires 0 <= i < |s| => if Allowed(s[i]) then s[i] else '_')
  }

  /** No two consecutive dots. */
  predicate NoDotDot(s: string)
  {
    forall i :: 0 <= i < |s| - 1 ==> !(s[i] == '.' && s[i + 1] == '.')
  }

  /**
   * `s.replace(/\.\./g, '_')`: scanning left to right, each pair of dots is
   * replaced and the scan resumes after it, so "..." becomes "_.".
   */
  function ReplaceDotDot(s: string): (r: string)
    ensures |r| <= |s|
    ensures r == [] <==> s == []
    ensures r != [] ==> r[0] == (if |s| >= 2 && s[0] == '.' && s[1] == '.' then '_' else s[0])
    decreases |s|
  {
    if |s| >= 2 && s[0] == '.' && s[1] == '.' then "_" + ReplaceDotDot(s[2..])
    else if s == [] then []
    else [s[0]] + ReplaceDotDot(s[1..])
  }

  /** No two dots in a row remain, and every character is '_' or one of the input's. */
  lemma {:induction false} ReplaceDotDotShape(s: string)
    ensures var r := ReplaceDotDot(s);
      NoDotDot(r) && forall i :: 0 <= i < |r| ==> r[i] == '_' || r[i] in s
    decreases |s|
  {
    var r := ReplaceDotDot(s);
    if |s| >= 2 && s[0] == '.' && s[1] == '.' {
      var rest := ReplaceDotDot(s[2..]);
      ReplaceDotDotShape(s[2..]);
      assert r == "_" + rest;
      forall i | 1 <= i < |r|
        ensures r[i] == rest[i - 1] && (r[i] == '_' || r[i] in s)
      {
        assert rest[i - 1] == '_' || rest[i - 1] in s[2..];
      }
    } else if s != [] {
      var rest := ReplaceDotDot(s[1..]);
      ReplaceDotDotShape(s[1..]);
      assert r == [s[0]] + rest;
      forall i | 1 <= i < |r|
        ensures r[i] == rest[i - 1] && (r[i] == '_' || r[i] in s)
      {
        assert rest[i - 1] == '_' || rest[i - 1] in s[1..];
      }
      assert s[0] == '.' && rest != [] ==> rest[0] != '.';
    }
  }

  /**
   * The rewrite read run by run: a stretch without dots is copied, and the
   * maximal run of n dots after it becomes n / 2 underscores followed by one
   * dot when n is odd; the rest is rewritten the same way. Every string
   * splits into such a stretch, run and rest, so this determines the result.
   */
  lemma ReplaceDotDotMeans(w: string, ds: string, t: string)
    requires '.' !in w
    requires forall i :: 0 <= i < |ds| ==> ds[i] == '.'
    requires t == [] || t[0] != '.'
    ensures ReplaceDotDot(w + ds + t) ==
      w + Repeat('_', |ds| / 2) + Repeat('.', |ds| % 2) + ReplaceDotDot(t)
  {
    ReplaceDotDotAssoc(w, ds, t);
    ReplaceDotDotPrefix(w, ds + t);
    ReplaceDotDotRun(ds, t);
    DotRunIs(|ds|);
    Regroup(w, DotRun(|ds|), ReplaceDotDot(t), Repeat('_', |ds| / 2), Repeat('.', |ds| % 2));
  }

  /** Concatenation is associative under the rewrite. */
  lemma ReplaceDotDotAssoc(w: string, ds: string, t: string)
    ensures ReplaceDotDot(w + ds + t) == ReplaceDotDot(w + (ds + t))
  {
    assert w + ds + t == w + (ds + t);
  }

  /** Regrouping a concatenation whose middle part is split in two. */
  lemma Regroup(w: string, d: string, z: string, x: string, y: string)
    requires d == x + y
    ensures w + (d + z) == w + x + y + z
  {
  }

  /** A stretch without dots is copied in front of the rewrite of what follows it. */
  lemma {:induction false} ReplaceDotDotPrefix(w: string, u: string)
    requires '.' !in w
    ensures ReplaceDotDot(w + u) == w + ReplaceDotDot(u)
    decreases |w|
  {
    if w != [] {
      assert '.' !in w[1..];
      ReplaceDotDotPrefix(w[1..], u);
      ReplaceDotDotHead(w, u);
      assert [w[0]] + (w[1..] + ReplaceDotDot(u)) == w + ReplaceDotDot(u);
    } else {
      assert w + u == u && w + ReplaceDotDot(u) == ReplaceDotDot(u);
    }
  }

  /** A first character other than '.' is copied and the scan moves on by one. */
  lemma ReplaceDotDotHead(w: string, u: string)
    requires w != [] && w[0] != '.'
    ensures ReplaceDotDot(w + u) == [w[0]] + ReplaceDotDot(w[1..] + u)
  {
    assert (w + u)[0] == w[0] && (w + u)[1..] == w[1..] + u;
  }

  /** What a run of n dots becomes: '_' for each pair, then '.' if one is left over. */
  function DotRun(n: nat): string
  {
    if n >= 2 then "_" + DotRun(n - 2) else if n == 1 then "." else ""
  }

  /** A run of n dots becomes n / 2 underscores, then a dot when n is odd. */
  lemma {:induction false} DotRunIs(n: nat)
    ensures DotRun(n) == Repeat('_', n / 2) + Repeat('.', n % 2)
    decreases n
  {
    if n >= 2 {
      DotRunIs(n - 2);
      RepeatPairStep(n - 2);
    } else if n == 1 {
      assert Repeat('.', 1) == ".";
    }
  }

  /** A maximal dot run is rewritten pair by pair, an odd dot left at its end. */
  lemma {:induction false} ReplaceDotDotRun(ds: string, t: string)
    requires forall i :: 0 <= i < |ds| ==> ds[i] == '.'
    requires t == [] || t[0] != '.'
    ensures ReplaceDotDot(ds + t) == DotRun(|ds|) + ReplaceDotDot(t)
    decreases |ds|
  {
    if |ds| == 0 {
      assert ds + t == t;
    } else if |ds| == 1 {
      assert ds + t == ['.'] + t;
      ReplaceDotDotKeep('.', t);
    } else {
      var rest := ds[2..];
      ReplaceDotDotPairHead(ds, t);
      ReplaceDotDotRun(rest, t);
      assert "_" + (DotRun(|rest|) + ReplaceDotDot(t)) == ("_" + DotRun(|rest|)) + ReplaceDotDot(t);
    }
  }

  /** A pair of dots at the front becomes '_' and the scan resumes after it. */
  lemma ReplaceDotDotPairHead(ds: string, u: string)
    requires |ds| >= 2 && ds[0] == '.' && ds[1] == '.'
    ensures ReplaceDotDot(ds + u) == "_" + ReplaceDotDot(ds[2..] + u)
  {
    assert (ds + u)[0] == '.' && (ds + u)[1] == '.' && (ds + u)[2..] == ds[2..] + u;
  }

  /** n copies of c. */
  function Repeat(c: char, n: nat): (r: string)
    ensures |r| == n && forall i :: 0 <= i < n ==> r[i] == c
  {
    if n == 0 then [] else [c] + Repeat(c, n - 1)
  }

  /** Two more dots make one more '_' and leave the odd dot as it was. */
  lemma RepeatPairStep(n: nat)
    ensures Repeat('_', (n + 2) / 2) + Repeat('.', (n + 2) % 2) == "_" + (Repeat('_', n / 2) + Repeat('.', n % 2))
  {
    assert (n + 2) / 2 == n / 2 + 1 && (n + 2) % 2 == n % 2;
    assert Repeat('_', n / 2 + 1) == "_" + Repeat('_', n / 2);
  }

  /** A pair of dots at the front becomes '_' and the scan resumes after it. */
  lemma ReplaceDotDotPair(t: string)
    ensures ReplaceDotDot(".." + t) == "_" + ReplaceDotDot(t)
  {
    assert (".." + t)[2..] == t;
  }

  /** A character that does not start a pair of dots is kept and the scan moves on by one. */
  lemma ReplaceDotDotKeep(c: char, t: string)
    requires !(c == '.' && t != [] && t[0] == '.')
    ensures ReplaceDotDot([c] + t) == [c] + ReplaceDotDot(t)
  {
    assert ([c] + t)[1..] == t;
  }

  /** A string without two consecutive dots is left as it is. */
  lemma {:induction false} ReplaceDotDotFixed(s: string)
    requires NoDotDot(s)
    ensures ReplaceDotDot(s) == s
    decreases |s|
  {
    if s != [] {
      assert NoDotDot(s[1..]) by {
        forall i | 0 <= i < |s[1..]| - 1
          ensures !(s[1..][i] == '.' && s[1..][i + 1] == '.')
        {
          assert s[1..][i] == s[i + 1] && s[1..][i + 1] == s[i + 2];
        }
      }
      ReplaceDotDotFixed(s[1..]);
      assert s == [s[0]] + s[1..];
    }
  }

  /**
   * sanitizePathString: a missing or empty string is "unknown"; otherwise
   * every character outside `[a-zA-Z0-9_.-]` becomes '_' and then every
   * ".." becomes '_'.
   */
  function SanitizePathString(str: Option<string>): (r: string)
    ensures r != ""
    ensures forall i :: 0 <= i < |r| ==> Allowed(r[i])
    ensures NoDotDot(r)
    ensures !Truthy(str) ==> r == "unknown"
    ensures Truthy(str) ==> |r| <= |str.value|
    ensures Truthy(str) && NoDotDot(str.value) ==>
      |r| == |str.value| && forall i :: 0 <= i < |r| ==> r[i] == (if Allowed(str.value[i]) then str.value[i] else '_')
  {
    if !Truthy(str) then "unknown"
    else
      SanitizeInPlace(str.value);
      ReplaceDotDotShape(ReplaceDisallowed(str.value));
      ReplaceDotDot(ReplaceDisallowed(str.value))
  }

  /** Without "..", replacing the disallowed characters makes none, so the second pass keeps all. */
  lemma SanitizeInPlace(s: string)
    ensures NoDotDot(s) ==> ReplaceDotDot(ReplaceDisallowed(s)) == ReplaceDisallowed(s)
  {
    var t := ReplaceDisallowed(s);
    if NoDotDot(s) {
      assert NoDotDot(t) by {
        forall i | 0 <= i < |t| - 1
          ensures !(t[i] == '.' && t[i + 1] == '.')
        {
          assert t[i] == '.' ==> s[i] == '.';
          assert t[i + 1] == '.' ==> s[i + 1] == '.';
        }
      }
      ReplaceDotDotFixed(t);
    }
  }

  /** Sanitising twice is sanitising once. */
  lemma SanitizeIdempotent(str: Option<string>)
    ensures SanitizePathString(Some(SanitizePathString(str))) == SanitizePathString(str)
  {
    SanitizeFixedPoints(SanitizePathString(str));
  }

  /**
   * Exactly the non-empty strings of allowed characters without ".." come
   * out of the sanitiser unchanged.
   */
  lemma SanitizeFixedPoints(s: string)
    ensures SanitizePathString(Some(s)) == s <==>
      s != "" && (forall i :: 0 <= i < |s| ==> Allowed(s[i])) && NoDotDot(s)
  {
    if s != "" && (forall i :: 0 <= i < |s| ==> Allowed(s[i])) && NoDotDot(s) {
      assert ReplaceDisallowed(s) == s;
      ReplaceDotDotFixed(s);
    }
  }

  // ---------------------------------------------------------------------
  // The destination path

  /** Drop the "." components, as `path.join` does. */
  function DropDots(parts: seq<string>): (r: seq<string>)
    ensures |r| <= |parts|
    ensures forall i :: 0 <= i < |r| ==> r[i] != "." && r[i] in parts
    ensures (forall i :: 0 <= i < |parts| ==> parts[i] != ".") ==> r == parts
  {
    if parts == [] then []
    else if parts[0] == "." then DropDots(parts[1..])
    else [parts[0]] + DropDots(parts[1..])
  }

  /**
   * `path.join(client, project, file)` for components that hold no '/' and
   * no "..": the "." components vanish, and "." is what is left of nothing.
   */
  function DestPath(client: string, project: string, file: string): string
  {
    var parts := DropDots([client, project, file]);
    if parts == [] then "." else Join(parts, "/")
  }

  /**
   * The destination below the data directory has no ".." component and
   * no empty one; when none of the three sanitised names is ".", it is
   * exactly `client/project/file`.
   */
  lemma DestPathSafe(client: Option<string>, project: Option<string>, file: Option<string>)
    ensures var c, p, f := SanitizePathString(client), SanitizePathString(project), SanitizePathString(file);
      var parts := Split(DestPath(c, p, f), '/');
      (forall i :: 0 <= i < |parts| ==> parts[i] != ".." && parts[i] != "") &&
      (c != "." && p != "." && f != "." ==> parts == [c, p, f])
  {
    var c, p, f := SanitizePathString(client), SanitizePathString(project), SanitizePathString(file);
    SanitizedComponent(client);
    SanitizedComponent(project);
    SanitizedComponent(file);
    var kept := DropDots([c, p, f]);
    assert forall i :: 0 <= i < |kept| ==> '/' !in kept[i] && kept[i] != ".." && kept[i] != "" by {
      forall i | 0 <= i < |kept|
        ensures '/' !in kept[i] && kept[i] != ".." && kept[i] != ""
      {
        assert kept[i] in [c, p, f];
      }
    }
    if kept == [] {
      SplitFree(".", '/');
    } else {
      SplitJoin(kept, '/');
    }
  }

  /** A sanitised component is a single non-empty path segment other than "..". */
  lemma SanitizedComponent(str: Option<string>)
    ensures var s := SanitizePathString(str); '/' !in s && s != ".." && s != ""
  {
    var s := SanitizePathString(str);
    assert forall j :: 0 <= j < |s| ==> Allowed(s[j]) && s[j] != '/';
    if |s| == 2 {
      assert !(s[0] == '.' && s[1] == '.');
    }
  }

  // ---------------------------------------------------------------------
  // The records handleProcessFinishedUpload reads and writes

  /** The `.info` file tusd wrote next to the data; each field may be missing. */
  datatype InfoPayload = InfoPayload(
    id: Option<string>,
    size: int,
    metaData: Option<map<string, string>>,
    storagePath: Option<string>,
    storageInfoPath: Option<string>,
    storageType: Option<string>)

  datatype ClientRow = ClientRow(code: string)
  datatype ProjectRow = ProjectRow(id: string, name: string, client: Option<ClientRow>)

  /** An `uploadLink` row found by its token, with its project and client. */
  datatype LinkRow = LinkRow(expiresAt: Option<int>, maxUses: Option<int>, usedCount: int, project: Option<ProjectRow>)

  /** The columns of an `uploadedFile` row this handler writes, keyed by id. */
  datatype FileRow = FileRow(
    name: string,
    path: string,
    url: Option<string>,
    size: int,
    mimeType: string,
    hash: string,
    status: string,
    storage: string,
    projectId: string,
    completedAt: Option<int>)

  /**
   * What the file system and the hasher answer: whether the data file was
   * copied into place and its source deleted, whether the info file was
   * moved, and the xxhash64 hex digest (None when reading the moved file fails).
   */
  datatype FsAnswers = FsAnswers(dataMoved: bool, infoMoved: bool, hash: Option<string>)

  /**
   * The response status, the rows afterwards, the id completeUpload is called
   * with (if any) and the relative path the data now lives at (if it was moved).
   */
  datatype Finished = Finished(status: int, files: map<string, FileRow>, completes: Option<string>, dest: Option<string>)

  const Filestore: string := "filestore"
  const OctetStream: string := "application/octet-stream"

  function Meta(m: map<string, string>, key: string): Option<string>
  {
    if key in m then Some(m[key]) else None
  }

  /** The fields the .info file must carry for processing to go on. */
  predicate ValidInfo(info: InfoPayload)
  {
    Truthy(info.id) && info.metaData.Some? && Truthy(Meta(info.metaData.value, "token")) &&
    Truthy(info.storagePath) && Truthy(info.storageInfoPath) && Truthy(info.storageType)
  }

  datatype TokenCheck = Rejected | Accepted(project: ProjectRow, clientCode: string)

  /**
   * The token checks, in order: the link exists, has not expired, has a
   * project with a client, and the client code and project name are set.
   * The usage limit is not looked at.
   */
  function CheckToken(link: Option<LinkRow>, now: int): (r: TokenCheck)
    ensures r.Accepted? <==>
      link.Some? && !(link.value.expiresAt.Some? && now > link.value.expiresAt.value) &&
      link.value.project.Some? && link.value.project.value.client.Some? &&
      link.value.project.value.client.value.code != "" && link.value.project.value.name != ""
    ensures r.Accepted? ==>
      r.project == link.value.project.value && r.clientCode == r.project.client.value.code
  {
    if link.None? then Rejected
    else if link.value.expiresAt.Some? && now > link.value.expiresAt.value then Rejected
    else if link.value.project.None? then Rejected
    else if link.value.project.value.client.None? then Rejected
    else
      var project := link.value.project.value;
      var code := project.client.value.code;
      if code == "" || project.name == "" then Rejected else Accepted(project, code)
  }

  /** The catch block: the row, if there is one, becomes "failed"; nothing else changes. */
  function MarkFailed(files: map<string, FileRow>, id: string): (r: map<string, FileRow>)
  {
    if id in files then files[id := files[id].(status := "failed")] else files
  }

  /** `prisma.uploadedFile.upsert` keyed by the upload id. */
  function Upsert(files: map<string, FileRow>, id: string, name: string, path: string, size: int,
                  mimeType: string, hash: string, projectId: string, now: int): map<string, FileRow>
  {
    if id in files then
      files[id := files[id].(status := "completed", path := path, url := None, storage := Filestore,
                             name := name, projectId := projectId, completedAt := Some(now))]
    else
      files[id := FileRow(name, path, None, size, mimeType, hash, "completed", Filestore, projectId, Some(now))]
  }

  /** The file name the upload is stored under. */
  function StoredName(meta: map<string, string>, uploadId: string): string
  {
    SanitizePathString(Some(OrElse(OrOption(Meta(meta, "filename"), Meta(meta, "name")), uploadId)))
  }

  /**
   * handleProcessFinishedUpload. `bodyId` and `eventId` are `req.body.uploadId`
   * and `req.body.Event.Upload.ID`; `dataDir` is TUSD_DATA_DIR; `info` is the
   * parsed .info file (None when it cannot be read or parsed); `link` is the
   * link found by the file's token; `upsertOk` says whether the database
   * write went through.
   */
  function ProcessFinished(files: map<string, FileRow>, bodyId: Option<string>, eventId: Option<string>,
                           dataDir: Option<string>, info: Option<InfoPayload>, link: Option<LinkRow>,
                           fs: FsAnswers, upsertOk: bool, now: int): (r: Finished)
  {
    var uploadId := OrOption(bodyId, eventId);
    if !Truthy(uploadId) then Finished(400, files, None, None)
    else if !Truthy(dataDir) || info.None? || !ValidInfo(info.value) then Finished(500, files, None, None)
    else
      var id := uploadId.value;
      var check := CheckToken(link, now);
      if check.Rejected? || info.value.storageType != Some(Filestore) then
        Finished(500, MarkFailed(files, id), None, None)
      else
        var meta := info.value.metaData.value;
        var name := StoredName(meta, id);
        var path := DestPath(SanitizePathString(Some(check.clientCode)), SanitizePathString(Some(check.project.name)), name);
        if !fs.dataMoved then Finished(500, MarkFailed(files, id), None, None)
        else if !upsertOk then Finished(500, MarkFailed(files, id), None, Some(path))
        else
          var hash := if fs.hash.Some? then fs.hash.value else "error-" + id;
          var mimeType := OrElse(OrOption(Meta(meta, "filetype"), Meta(meta, "type")), OctetStream);
          Finished(200, Upsert(files, id, name, path, info.value.size, mimeType, hash, check.project.id, now),
                   Some(id), Some(path))
  }

  /** Every step passes: the id, the data directory, the .info file, the token, the storage type, the move, the write. */
  predicate AllChecksPass(bodyId: Option<string>, eventId: Option<string>, dataDir: Option<string>,
                          info: Option<InfoPayload>, link: Option<LinkRow>, fs: FsAnswers, upsertOk: bool, now: int)
  {
    Truthy(OrOption(bodyId, eventId)) && Truthy(dataDir) && info.Some? && ValidInfo(info.value) &&
    CheckToken(link, now).Accepted? && info.value.storageType == Some(Filestore) && fs.dataMoved && upsertOk
  }

  /**
   * 400 exactly when no upload id is given; 200 exactly when every check
   * passes, and only then is the upload completed in the ledger; otherwise
   * 500. A request turned away before the token check leaves the rows alone.
   */
  lemma FinishedStatus(files: map<string, FileRow>, bodyId: Option<string>, eventId: Option<string>,
                       dataDir: Option<string>, info: Option<InfoPayload>, link: Option<LinkRow>,
                       fs: FsAnswers, upsertOk: bool, now: int)
    ensures var r := ProcessFinished(files, bodyId, eventId, dataDir, info, link, fs, upsertOk, now);
      (r.status == 400 <==> !Truthy(OrOption(bodyId, eventId))) &&
      (r.status == 200 <==> AllChecksPass(bodyId, eventId, dataDir, info, link, fs, upsertOk, now)) &&
      (r.status == 200 || r.status == 400 || r.status == 500) &&
      (r.completes.Some? <==> r.status == 200) &&
      (r.completes.Some? ==> r.completes == OrOption(bodyId, eventId)) &&
      (!Truthy(OrOption(bodyId, eventId)) || !Truthy(dataDir) || info.None? || !ValidInfo(info.value) ==> r.files == files)
  {
  }

  /**
   * A failure after the .info file was read marks the upload's row "failed"
   * (if it has one) and changes nothing else.
   */
  lemma FailureMarksFailed(files: map<string, FileRow>, bodyId: Option<string>, eventId: Option<string>,
                           dataDir: Option<string>, info: Option<InfoPayload>, link: Option<LinkRow>,
                           fs: FsAnswers, upsertOk: bool, now: int)
    requires Truthy(OrOption(bodyId, eventId)) && Truthy(dataDir) && info.Some? && ValidInfo(info.value)
    requires !AllChecksPass(bodyId, eventId, dataDir, info, link, fs, upsertOk, now)
    ensures var r := ProcessFinished(files, bodyId, eventId, dataDir, info, link, fs, upsertOk, now);
      var id := OrOption(bodyId, eventId).value;
      r.status == 500 && r.files.Keys == files.Keys &&
      (forall k :: k in files && k != id ==> r.files[k] == files[k]) &&
      (id in files ==> r.files[id] == files[id].(status := "failed"))
  {
  }

  /**
   * On success the upload's row is "completed", lives at the sanitised
   * destination, carries the sanitised name and the link's project, and no
   * other row changes. A new row also takes the size, the MIME type (or
   * application/octet-stream) and the hash, "error-<id>" when hashing
   * failed; an existing row keeps its size, type and hash.
   */
  lemma SuccessRow(files: map<string, FileRow>, bodyId: Option<string>, eventId: Option<string>,
                   dataDir: Option<string>, info: Option<InfoPayload>, link: Option<LinkRow>,
                   fs: FsAnswers, upsertOk: bool, now: int)
    requires AllChecksPass(bodyId, eventId, dataDir, info, link, fs, upsertOk, now)
    ensures var r := ProcessFinished(files, bodyId, eventId, dataDir, info, link, fs, upsertOk, now);
      var id := OrOption(bodyId, eventId).value;
      var meta := info.value.metaData.value;
      var project := link.value.project.value;
      r.files.Keys == files.Keys + {id} &&
      (forall k :: k in files && k != id ==> r.files[k] == files[k]) &&
      r.dest == Some(DestPath(SanitizePathString(Some(project.client.value.code)),
                              SanitizePathString(Some(project.name)), StoredName(meta, id))) &&
      r.files[id].status == "completed" && Some(r.files[id].path) == r.dest &&
      r.files[id].name == StoredName(meta, id) && r.files[id].url.None? &&
      r.files[id].storage == Filestore && r.files[id].projectId == project.id &&
      r.files[id].completedAt == Some(now) &&
      (id in files ==> r.files[id].size == files[id].size && r.files[id].hash == files[id].hash &&
                       r.files[id].mimeType == files[id].mimeType) &&
      (id !in files ==> r.files[id].size == info.value.size &&
                        r.files[id].hash == (if fs.hash.Some? then fs.hash.value else "error-" + id) &&
                        r.files[id].mimeType != "")
  {
    var id := OrOption(bodyId, eventId).value;
    var meta := info.value.metaData.value;
    var mimeType := OrElse(OrOption(Meta(meta, "filetype"), Meta(meta, "type")), OctetStream);
    assert mimeType != "";
  }

  /** Whether the info file could be moved does not change the outcome. */
  lemma InfoMoveNonFatal(files: map<string, FileRow>, bodyId: Option<string>, eventId: Option<string>,
                         dataDir: Option<string>, info: Option<InfoPayload>, link: Option<LinkRow>,
                         fs: FsAnswers, upsertOk: bool, now: int)
    ensures ProcessFinished(files, bodyId, eventId, dataDir, info, link, fs.(infoMoved := false), upsertOk, now) ==
            ProcessFinished(files, bodyId, eventId, dataDir, info, link, fs.(infoMoved := true), upsertOk, now)
  {
  }

  /** A link that is used up is still accepted: the use count is never compared with the limit. */
  lemma UsageLimitIgnored(files: map<string, FileRow>, bodyId: Option<string>, eventId: Option<string>,
                          dataDir: Option<string>, info: Option<InfoPayload>, link: LinkRow,
                          fs: FsAnswers, upsertOk: bool, now: int)
    requires link.maxUses.Some? && link.usedCount >= link.maxUses.value
    ensures ProcessFinished(files, bodyId, eventId, dataDir, info, Some(link), fs, upsertOk, now) ==
            ProcessFinished(files, bodyId, eventId, dataDir, info, Some(link.(maxUses := None, usedCount := 0)), fs, upsertOk, now)
  {
  }

  /** An expired link fails the upload even when everything else is in order. */
  lemma ExpiredLinkFails(files: map<string, FileRow>, bodyId: Option<string>, eventId: Option<string>,
                         dataDir: Option<string>, info: Option<InfoPayload>, link: LinkRow,
                         fs: FsAnswers, upsertOk: bool, now: int)
    requires link.expiresAt.Some? && now > link.expiresAt.value
    ensures ProcessFinished(files, bodyId, eventId, dataDir, info, Some(link), fs, upsertOk, now).status != 200
  {
  }

  /**
   * The handler: decide, then tell the ledger the upload is complete when
   * the processing succeeded.
   */
  method HandleProcessFinishedUpload(t: Tracker, files: map<string, FileRow>, bodyId: Option<string>,
                                     eventId: Option<string>, dataDir: Option<string>, info: Option<InfoPayload>,
                                     link: Option<LinkRow>, fs: FsAnswers, upsertOk: bool, now: int)
    returns (r: Finished)
    requires t.Valid()
    modifies t
    ensures t.Valid()
    ensures r == ProcessFinished(files, bodyId, eventId, dataDir, info, link, fs, upsertOk, now)
    ensures r.completes.None? ==>
      t.uploads == old(t.uploads) && t.order == old(t.order) && t.scheduledCleanups == old(t.scheduledCleanups)
    ensures r.completes.Some? && r.completes.value in old(t.uploads) ==>
      t.uploads == old(t.uploads)[r.completes.value := Completed(old(t.uploads)[r.completes.value], now)]
    ensures t.State() == if r.completes.Some? then AfterComplete(old(t.State()), r.completes.value, now) else old(t.State())
  {
    r := ProcessFinished(files, bodyId, eventId, dataDir, info, link, fs, upsertOk, now);
    if r.completes.Some? {
      t.CompleteUpload(r.completes.value, now);
    }
  }
}
