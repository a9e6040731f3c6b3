// The upload routes of the backend (backend/src/routes/upload.ts): the
// upload-link token format, the stored-filename sanitiser, the derived client
// code, the link checks, the batch upload with its hash de-duplication and
// usage count, and the S3 completion callback with its UUID stripping.
//
// Database rows are values; UUIDs, file hashes, S3 answers and database ids
// come in as parameters. The ledger is the UploadTracker class.

module UploadRoutes {
  import opened Strings
  import opened Uuid
  import opened UploadTracker

  // ---------------------------------------------------------------------
  // generateUploadToken

  /** The first four hyphen-separated groups of a UUID, rejoined and upper-cased. */
  function UploadToken(uuid: string): string
  {
    var parts := Split(uuid, '-');
    ToUpper(Join(parts[..if |parts| < 4 then |parts| else 4], "-"))
  }

  /** The hex groups of a UUID between its hyphens hold no hyphen. */
  lemma GroupHasNoHyphen(uuid: string, lo: nat, hi: nat)
    requires |uuid| == 36 && UuidAt(uuid, 0)
    requires lo <= hi <= 36
    requires forall k :: lo <= k < hi ==> !HyphenOffset(k)
    ensures '-' !in uuid[lo..hi]
  {
    forall k | 0 <= k < hi - lo
      ensures uuid[lo..hi][k] != '-'
    {
      var m := lo + k;
      assert !HyphenOffset(m);
      assert HexDigit(uuid[0 + m]);
      assert uuid[lo..hi][k] == uuid[m];
    }
  }

  lemma HyphensOfUuid(uuid: string)
    requires |uuid| == 36 && UuidAt(uuid, 0)
    ensures uuid[8] == '-' && uuid[13] == '-' && uuid[18] == '-' && uuid[23] == '-'
  {
    assert HyphenOffset(8) && HyphenOffset(13) && HyphenOffset(18) && HyphenOffset(23);
    assert uuid[0 + 8] == uuid[8] && uuid[0 + 13] == uuid[13] && uuid[0 + 18] == uuid[18] && uuid[0 + 23] == uuid[23];
  }

  lemma SplitFive(g1: string, g2: string, g3: string, g4: string, g5: string)
    requires '-' !in g1 && '-' !in g2 && '-' !in g3 && '-' !in g4 && '-' !in g5
    ensures Split(g1 + "-" + (g2 + "-" + (g3 + "-" + (g4 + "-" + g5))), '-') == [g1, g2, g3, g4, g5]
  {
    var t4 := g4 + "-" + g5;
    var t3 := g3 + "-" + t4;
    var t2 := g2 + "-" + t3;
    SplitFree(g5, '-');
    SplitAtFirst(g4, g5, '-');
    assert Split(t4, '-') == [g4, g5];
    SplitAtFirst(g3, t4, '-');
    assert Split(t3, '-') == [g3, g4, g5];
    SplitAtFirst(g2, t3, '-');
    assert Split(t2, '-') == [g2, g3, g4, g5];
    SplitAtFirst(g1, t2, '-');
  }

  /** A UUID splits at its four hyphens into its five hex groups. */
  lemma SplitUuid(uuid: string)
    requires |uuid| == 36 && UuidAt(uuid, 0)
    ensures Split(uuid, '-') == [uuid[..8], uuid[9..13], uuid[14..18], uuid[19..23], uuid[24..]]
  {
    GroupHasNoHyphen(uuid, 0, 8);
    GroupHasNoHyphen(uuid, 9, 13);
    GroupHasNoHyphen(uuid, 14, 18);
    GroupHasNoHyphen(uuid, 19, 23);
    GroupHasNoHyphen(uuid, 24, 36);
    HyphensOfUuid(uuid);
    assert uuid == uuid[..8] + "-" + (uuid[9..13] + "-" + (uuid[14..18] + "-" + (uuid[19..23] + "-" + uuid[24..])));
    SplitFive(uuid[..8], uuid[9..13], uuid[14..18], uuid[19..23], uuid[24..]);
  }

  lemma JoinFirstFour(uuid: string)
    requires |uuid| == 36 && UuidAt(uuid, 0)
    ensures Join([uuid[..8], uuid[9..13], uuid[14..18], uuid[19..23]], "-") == uuid[..23]
  {
    assert uuid[8] == '-' && uuid[13] == '-' && uuid[18] == '-' by {
      assert HyphenOffset(8) && HyphenOffset(13) && HyphenOffset(18);
      assert uuid[0 + 8] == uuid[8] && uuid[0 + 13] == uuid[13] && uuid[0 + 18] == uuid[18];
    }
    var parts := [uuid[..8], uuid[9..13], uuid[14..18], uuid[19..23]];
    assert parts[1..][1..][1..] == [uuid[19..23]];
    assert Join(parts[1..][1..], "-") == uuid[14..18] + "-" + uuid[19..23];
    assert Join(parts[1..], "-") == uuid[9..13] + "-" + (uuid[14..18] + "-" + uuid[19..23]);
  }

  /**
   * For a UUID in the 8-4-4-4-12 form the token is its first 23 characters
   * upper-cased: four upper-case hex groups of 8, 4, 4 and 4 digits.
   */
  lemma UploadTokenOfUuid(uuid: string)
    requires |uuid| == 36 && UuidAt(uuid, 0)
    ensures UploadToken(uuid) == ToUpper(uuid[..23])
    ensures |UploadToken(uuid)| == 23
    ensures forall i :: 0 <= i < 23 ==>
      if HyphenOffset(i) then UploadToken(uuid)[i] == '-'
      else HexDigit(UploadToken(uuid)[i]) && !('a' <= UploadToken(uuid)[i] <= 'z')
  {
    SplitUuid(uuid);
    JoinFirstFour(uuid);
    var parts := Split(uuid, '-');
    assert parts[..4] == [uuid[..8], uuid[9..13], uuid[14..18], uuid[19..23]];
    var t := UploadToken(uuid);
    forall i | 0 <= i < 23
      ensures if HyphenOffset(i) then t[i] == '-' else HexDigit(t[i]) && !('a' <= t[i] <= 'z')
    {
      assert t[i] == UpperChar(uuid[i]);
      assert uuid[0 + i] == uuid[i];
    }
  }

  // ---------------------------------------------------------------------
  // multer `filename`: the stored name of a batch-uploaded file

  /** The characters `/[\/\\:*?"<>|]/g` replaces. */
  predicate Unsafe(c: char)
  {
    c == '/' || c == '\\' || c == ':' || c == '*' || c == '?' || c == '\"' || c == '<' || c == '>' || c == '|'
  }

  function SafeName(name: string): (r: string)
    ensures |r| == |name|
    ensures forall i :: 0 <= i < |r| ==> r[i] == (if Unsafe(name[i]) then '_' else name[i])
  {
    if name == [] then [] else [if Unsafe(name[0]) then '_' else name[0]] + SafeName(name[1..])
  }

  /** A stored name holds no unsafe character, and sanitising it again changes nothing. */
  lemma SafeNameIsSafe(name: string)
    ensures forall i :: 0 <= i < |SafeName(name)| ==> !Unsafe(SafeName(name)[i])
    ensures SafeName(SafeName(name)) == SafeName(name)
  {
  }

  // ---------------------------------------------------------------------
  // POST /clients: the client code derived from the name

  predicate CodeChar(c: char)
  {
    'A' <= c <= 'Z' || IsDigit(c)
  }

  /** `.replace(/[^A-Z0-9]/g, '')` */
  function KeepCodeChars(s: string): (r: string)
    ensures |r| <= |s|
    ensures forall i :: 0 <= i < |r| ==> CodeChar(r[i])
    ensures |s| == 1 ==> r == (if CodeChar(s[0]) then s else [])
  {
    if s == [] then []
    else if CodeChar(s[0]) then [s[0]] + KeepCodeChars(s[1..])
    else KeepCodeChars(s[1..])
  }

  /**
   * The filter distributes over concatenation; with the one-character case
   * above this pins it down: the code characters, in order, each as often as
   * it occurs.
   */
  lemma {:induction false} KeepCodeCharsAppend(a: string, b: string)
    ensures KeepCodeChars(a + b) == KeepCodeChars(a) + KeepCodeChars(b)
    decreases |a|
  {
    if a != [] {
      var ab := a + b;
      assert ab[0] == a[0] && ab[1..] == a[1..] + b;
      KeepCodeCharsAppend(a[1..], b);
      assert KeepCodeChars(ab) == (if CodeChar(a[0]) then [a[0]] else []) + KeepCodeChars(a[1..] + b);
    } else {
      assert a + b == b;
    }
  }

  /**
   * What one character contributes to `toUpperCase().replace(/[^A-Z0-9]/g,
   * '')`. toUpperCase maps every character on its own, to its full upper-case
   * form, so the filtered result is these pieces in order. Capitals and
   * digits stay and a-z give their capitals; the characters whose full
   * upper-case form holds Latin capitals give those (sharp s to "SS", the
   * dotless i and the long s to "I" and "S", the apostrophe-n to "N", j with
   * caron to "J", the h, t, w, y and a with marks of U+1E96 to U+1E9A to their
   * letters, and the ligatures U+FB00 to U+FB06 to their letters). Every other
   * character's upper-case form holds no A-Z or 0-9, so it contributes nothing.
   */
  function UpperCodeChars(c: char): (r: string)
    ensures |r| <= 3
    ensures forall i :: 0 <= i < |r| ==> CodeChar(r[i])
    ensures CodeChar(c) ==> r == [c]
    ensures c as int < 128 ==> r == KeepCodeChars([UpperChar(c)])
  {
    var n := c as int;
    if CodeChar(c) then [c]
    else if 'a' <= c <= 'z' then [UpperChar(c)]
    else if n == 0xDF then "SS"
    else if n == 0x131 then "I"
    else if n == 0x149 then "N"
    else if n == 0x17F then "S"
    else if n == 0x1F0 then "J"
    else if n == 0x1E96 then "H"
    else if n == 0x1E97 then "T"
    else if n == 0x1E98 then "W"
    else if n == 0x1E99 then "Y"
    else if n == 0x1E9A then "A"
    else if n == 0xFB00 then "FF"
    else if n == 0xFB01 then "FI"
    else if n == 0xFB02 then "FL"
    else if n == 0xFB03 then "FFI"
    else if n == 0xFB04 then "FFL"
    else if n == 0xFB05 || n == 0xFB06 then "ST"
    else ""
  }

  /** `name.toUpperCase().replace(/[^A-Z0-9]/g, '')`, character by character. */
  function CodeLetters(name: string): (r: string)
    ensures forall i :: 0 <= i < |r| ==> CodeChar(r[i])
  {
    if name == [] then [] else UpperCodeChars(name[0]) + CodeLetters(name[1..])
  }

  /** `name.toUpperCase().replace(/[^A-Z0-9]/g, '').slice(0, 10)` */
  function DerivedCode(name: string): (r: string)
    ensures |r| == if |CodeLetters(name)| <= 10 then |CodeLetters(name)| else 10
    ensures r == CodeLetters(name)[..|r|]
  {
    var k := CodeLetters(name);
    if |k| <= 10 then k else k[..10]
  }

  /**
   * On ASCII names the character-by-character reading is upper-casing
   * followed by the filter.
   */
  lemma {:induction false} CodeLettersAscii(name: string)
    requires forall i :: 0 <= i < |name| ==> name[i] as int < 128
    ensures CodeLetters(name) == KeepCodeChars(ToUpper(name))
    decreases |name|
  {
    if name != [] {
      var u := ToUpper(name);
      assert u == [UpperChar(name[0])] + ToUpper(name[1..]);
      KeepCodeCharsAppend([UpperChar(name[0])], ToUpper(name[1..]));
      CodeLettersAscii(name[1..]);
    }
  }

  /** Outside ASCII the sharp s becomes two letters: "Straße" gives "STRASSE". */
  lemma DerivedCodeSharpS()
    ensures DerivedCode("Stra\U{00DF}e") == "STRASSE"
  {
    var name := "Stra\U{00DF}e";
    assert name[1..] == "tra\U{00DF}e";
    assert name[1..][1..] == "ra\U{00DF}e";
    assert name[1..][1..][1..] == "a\U{00DF}e";
    assert name[1..][1..][1..][1..] == "\U{00DF}e";
    assert name[1..][1..][1..][1..][1..] == "e";
    assert CodeLetters("e") == "E";
    assert CodeLetters("\U{00DF}e") == "SSE";
    assert CodeLetters(name) == "STRASSE";
  }

  /** `code || <derived>` */
  function ClientCode(code: Option<string>, name: string): (r: string)
    ensures !Truthy(code) ==> |r| <= 10 && forall i :: 0 <= i < |r| ==> CodeChar(r[i])
    ensures Truthy(code) ==> r == code.value
  {
    OrElse(code, DerivedCode(name))
  }

  /** A string of code characters reads back as itself. */
  lemma {:induction false} CodeLettersFixed(s: string)
    requires forall i :: 0 <= i < |s| ==> CodeChar(s[i])
    ensures CodeLetters(s) == s
    decreases |s|
  {
    if s != [] {
      assert CodeChar(s[0]);
      CodeLettersFixed(s[1..]);
      assert s == [s[0]] + s[1..];
    }
  }

  /** A derived code is already in derived form: deriving again gives it back. */
  lemma DerivedCodeStable(name: string)
    ensures DerivedCode(DerivedCode(name)) == DerivedCode(name)
  {
    var d := DerivedCode(name);
    CodeLettersFixed(d);
  }

  // ---------------------------------------------------------------------
  // Upload-link checks (GET /upload-links/:token and POST /upload/:token)

  /** An upload link with the client and project it belongs to. */
  datatype Link = Link(
    id: string,
    projectId: string,
    projectName: string,
    clientName: string,
    clientCode: Option<string>,
    expiresAt: int,
    maxUses: Option<int>,
    usedCount: int)

  datatype LinkVerdict = NotFound | Expired | UsedUp | Usable(link: Link)

  /** The three checks in their order; a null maxUses means unlimited. */
  function CheckLink(link: Option<Link>, now: int): (r: LinkVerdict)
    ensures r == NotFound <==> link.None?
    ensures r == Expired <==> link.Some? && link.value.expiresAt < now
    ensures r == UsedUp <==>
      link.Some? && link.value.expiresAt >= now &&
      link.value.maxUses.Some? && link.value.usedCount >= link.value.maxUses.value
    ensures r.Usable? <==>
      link.Some? && link.value.expiresAt >= now &&
      (link.value.maxUses.None? || link.value.usedCount < link.value.maxUses.value)
    ensures r.Usable? ==> r.link == link.value
  {
    if link.None? then NotFound
    else if link.value.expiresAt < now then Expired
    else if link.value.maxUses.Some? && link.value.usedCount >= link.value.maxUses.value then UsedUp
    else Usable(link.value)
  }

  function VerdictStatus(v: LinkVerdict): (status: int)
    ensures status == 200 <==> v.Usable?
    ensures status == 404 <==> v == NotFound
  {
    match v
    case NotFound => 404
    case Expired => 403
    case UsedUp => 403
    case Usable(_) => 200
  }

  /**
   * A link limited to n uses stays usable, until it expires, for exactly the
   * counts 0 .. n-1; an unlimited link is never used up.
   */
  lemma LinkUseLimit(link: Link, now: int)
    requires link.expiresAt >= now
    ensures link.maxUses.None? ==> CheckLink(Some(link), now).Usable?
    ensures link.maxUses.Some? ==>
      (CheckLink(Some(link), now).Usable? <==> link.usedCount < link.maxUses.value) &&
      (CheckLink(Some(link.(usedCount := link.usedCount + 1)), now).Usable? ==>
         CheckLink(Some(link), now).Usable?)
  {
  }

  // ---------------------------------------------------------------------
  // POST /upload/:token: the batch upload

  /**
   * A file multer stored for the request. `hash` is the xxhash64 of its
   * content, None when reading it fails; `s3Url` is what the S3 upload
   * returned, None when it fails; `failure` is the message of the error.
   */
  datatype Incoming = Incoming(
    originalName: string,
    path: string,
    size: int,
    mimeType: string,
    hash: Option<string>,
    s3Url: Option<string>,
    failure: string)

  /** An `uploadedFile` row. */
  datatype StoredFile = StoredFile(
    projectId: string,
    name: string,
    path: string,
    size: int,
    mimeType: string,
    hash: string,
    status: string,
    storage: string,
    url: Option<string>,
    completedAt: int)

  datatype FileOutcome = Reused(existing: StoredFile) | Stored(file: StoredFile) | Failed

  /** `findFirst({ where: { projectId, hash } })` */
  function FindByHash(files: seq<StoredFile>, projectId: string, hash: string): (r: Option<StoredFile>)
    ensures r.Some? ==> r.value in files && r.value.projectId == projectId && r.value.hash == hash
    ensures r.None? <==> forall f :: f in files ==> !(f.projectId == projectId && f.hash == hash)
  {
    if files == [] then None
    else if files[0].projectId == projectId && files[0].hash == hash then Some(files[0])
    else FindByHash(files[1..], projectId, hash)
  }

  /** One file's processing: its outcome, the rows after it and the files it deleted. */
  datatype Step = Step(outcome: FileOutcome, files: seq<StoredFile>, unlinked: seq<string>)

  /**
   * One file's processing. The files of a request run concurrently
   * (`Promise.all`), and the model takes the schedule in which every file's
   * hash lookup answers before any file's row is created: the lookup sees
   * `before`, the rows as they were when the request came in, while a new
   * row is appended to `files`, the rows created so far.
   */
  function StoreFile(before: seq<StoredFile>, files: seq<StoredFile>, projectId: string, f: Incoming, useS3: bool, now: int): (r: Step)
    ensures r.outcome.Reused? <==> f.hash.Some? && FindByHash(before, projectId, f.hash.value).Some?
    ensures r.outcome.Reused? ==>
      r.files == files && r.unlinked == [f.path] &&
      r.outcome.existing in before && r.outcome.existing.projectId == projectId && r.outcome.existing.hash == f.hash.value
    ensures r.outcome.Failed? <==>
      f.hash.None? || (FindByHash(before, projectId, f.hash.value).None? && useS3 && f.s3Url.None?)
    ensures r.outcome.Failed? ==> r.files == files && r.unlinked == []
    ensures r.outcome.Stored? ==>
      r.files == files + [r.outcome.file] &&
      r.outcome.file.projectId == projectId && r.outcome.file.hash == f.hash.value &&
      r.outcome.file.name == f.originalName && r.outcome.file.status == "completed" &&
      r.outcome.file.path == (if useS3 then f.s3Url.value else f.path) &&
      r.unlinked == (if useS3 then [f.path] else [])
  {
    if f.hash.None? then Step(Failed, files, [])
    else
      var existing := FindByHash(before, projectId, f.hash.value);
      if existing.Some? then Step(Reused(existing.value), files, [f.path])
      else if useS3 && f.s3Url.None? then Step(Failed, files, [])
      else
        var row := StoredFile(projectId, f.originalName, if useS3 then f.s3Url.value else f.path, f.size, f.mimeType,
                              f.hash.value, "completed", if useS3 then "s3" else "local",
                              if useS3 then f.s3Url else None, now);
        Step(Stored(row), files + [row], if useS3 then [f.path] else [])
  }

  datatype BatchState = BatchState(outcomes: seq<FileOutcome>, files: seq<StoredFile>, unlinked: seq<string>)

  /** The files of a request, each looked up against the rows stored before the request. */
  function Batch(before: seq<StoredFile>, projectId: string, incoming: seq<Incoming>, useS3: bool, now: int): (r: BatchState)
    ensures |r.outcomes| == |incoming|
    decreases |incoming|
  {
    if incoming == [] then BatchState([], before, [])
    else
      var prev := Batch(before, projectId, incoming[..|incoming| - 1], useS3, now);
      var s := StoreFile(before, prev.files, projectId, incoming[|incoming| - 1], useS3, now);
      BatchState(prev.outcomes + [s.outcome], s.files, prev.unlinked + s.unlinked)
  }

  predicate AllSucceeded(outcomes: seq<FileOutcome>)
  {
    forall i :: 0 <= i < |outcomes| ==> !outcomes[i].Failed?
  }

  /** No two rows of one project share a hash. */
  predicate HashesUnique(files: seq<StoredFile>)
  {
    forall i, j :: 0 <= i < j < |files| && files[i].projectId == files[j].projectId ==> files[i].hash != files[j].hash
  }

  /**
   * The de-duplication the route achieves: a batch only appends rows, and
   * every row it appends belongs to the project and carries a hash that no
   * row of the project had before the request.
   */
  lemma {:induction false} BatchDedupesStored(before: seq<StoredFile>, projectId: string, incoming: seq<Incoming>, useS3: bool, now: int)
    ensures var r := Batch(before, projectId, incoming, useS3, now);
      |r.files| >= |before| && r.files[..|before|] == before &&
      forall j :: |before| <= j < |r.files| ==>
        r.files[j].projectId == projectId &&
        forall f :: f in before && f.projectId == projectId ==> f.hash != r.files[j].hash
    decreases |incoming|
  {
    if incoming != [] {
      var prev := Batch(before, projectId, incoming[..|incoming| - 1], useS3, now);
      BatchDedupesStored(before, projectId, incoming[..|incoming| - 1], useS3, now);
      var s := StoreFile(before, prev.files, projectId, incoming[|incoming| - 1], useS3, now);
      assert s.files[..|before|] == s.files[..|prev.files|][..|before|];
      forall j | |before| <= j < |s.files|
        ensures s.files[j].projectId == projectId &&
          forall f :: f in before && f.projectId == projectId ==> f.hash != s.files[j].hash
      {
        if j < |prev.files| {
          assert s.files[j] == prev.files[j];
        }
      }
    }
  }

  /**
   * Within one request nothing is de-duplicated: two files with the same
   * content, sent together to a project without that hash, are both stored.
   */
  lemma BatchStoresTwins(projectId: string, f: Incoming, now: int)
    requires f.hash.Some?
    ensures var r := Batch([], projectId, [f, f], false, now);
      |r.files| == 2 && r.files[0].hash == r.files[1].hash == f.hash.value && !HashesUnique(r.files)
  {
    assert [f, f][..1] == [f] && [f][..0] == [];
    var s1 := StoreFile([], [], projectId, f, false, now);
    assert s1.outcome.Stored? && s1.files == [s1.outcome.file];
    assert Batch([], projectId, [f], false, now).files == s1.files;
    var s2 := StoreFile([], s1.files, projectId, f, false, now);
    assert s2.outcome.Stored? && s2.files == s1.files + [s2.outcome.file];
    assert Batch([], projectId, [f, f], false, now).files == s2.files;
  }

  /** The response of the batch route and what it leaves behind. */
  datatype UploadResult = UploadResult(status: int, files: seq<StoredFile>, usedCount: Option<int>, unlinked: seq<string>)

  /**
   * The route's decision. `incoming` is None when multer delivered no file
   * list; `link` is the row the token resolved to. Multer's storage looks
   * the token up before it writes the first file: for an unknown token it
   * aborts the request with an error, which Express answers with 500, so
   * the handler's 404 is only reached by a request without files.
   */
  function UploadOutcome(files: seq<StoredFile>, link: Option<Link>, incoming: Option<seq<Incoming>>, useS3: bool, now: int): (r: UploadResult)
    ensures incoming.None? ==> r.status == 400 && r.files == files && r.usedCount.None?
    ensures incoming.Some? && incoming.value != [] && link.None? ==>
      r.status == 500 && r.files == files && r.usedCount.None? && r.unlinked == []
    ensures incoming.Some? && !CheckLink(link, now).Usable? && (incoming.value == [] || link.Some?) ==>
      r.status == VerdictStatus(CheckLink(link, now)) && r.files == files && r.usedCount.None? &&
      r.unlinked == PathsOf(incoming.value)
    ensures r.usedCount.Some? <==>
      incoming.Some? && CheckLink(link, now).Usable? &&
      AllSucceeded(Batch(files, link.value.projectId, incoming.value, useS3, now).outcomes)
    ensures r.usedCount.Some? ==> r.status == 200 && r.usedCount.value == link.value.usedCount + 1
  {
    if incoming.None? then UploadResult(400, files, None, [])
    else if incoming.value != [] && link.None? then UploadResult(500, files, None, [])
    else
      var v := CheckLink(link, now);
      if !v.Usable? then UploadResult(VerdictStatus(v), files, None, PathsOf(incoming.value))
      else
        var b := Batch(files, v.link.projectId, incoming.value, useS3, now);
        if AllSucceeded(b.outcomes) then UploadResult(200, b.files, Some(v.link.usedCount + 1), b.unlinked)
        else UploadResult(500, b.files, None, b.unlinked)
  }

  /**
   * An unknown token with files fails in multer's storage, before the
   * handler: 500, no row, no use, and nothing for the handler to unlink.
   */
  lemma UnknownTokenFailsInStorage(files: seq<StoredFile>, incoming: seq<Incoming>, useS3: bool, now: int)
    requires incoming != []
    ensures UploadOutcome(files, None, Some(incoming), useS3, now) == UploadResult(500, files, None, [])
  {
  }

  function PathsOf(incoming: seq<Incoming>): (r: seq<string>)
    ensures |r| == |incoming|
    ensures forall i :: 0 <= i < |r| ==> r[i] == incoming[i].path
  {
    if incoming == [] then [] else [incoming[0].path] + PathsOf(incoming[1..])
  }

  /** The ledger metadata of a batch-uploaded file. */
  function XhrMetadata(f: Incoming, token: string, link: Link, useS3: bool): map<string, string>
  {
    map["filename" := f.originalName, "filetype" := f.mimeType, "token" := token,
        "clientName" := link.clientName, "projectName" := link.projectName,
        "storage" := if useS3 then "s3" else "local"]
  }

  /** What trackUpload receives when a file's callback starts: offset 0. */
  function StartRequest(id: string, f: Incoming, meta: map<string, string>, now: int): TrackRequest
  {
    TrackRequest(id, f.size, 0, Some(meta), now, None, None, None)
  }

  /**
   * The ledger call that ends a file's callback: completeUpload for a reused
   * or stored file, trackUpload as complete with the error for a failed one.
   */
  function FinishCall(id: string, f: Incoming, meta: map<string, string>, failed: bool, now: int): LedgerCall
  {
    if failed then Track(TrackRequest(id, f.size, 0, Some(meta["error" := f.failure]), now, None, Some(true), None))
    else Complete(id)
  }

  /**
   * The ledger after the synchronous start of every callback: each file is
   * tracked at offset 0 under its id, in the order of the files.
   */
  function StartAll(l: Ledger, ids: seq<string>, incoming: seq<Incoming>, token: string, link: Link, useS3: bool, now: int): Ledger
    requires |ids| == |incoming|
    decreases |ids|
  {
    if ids == [] then l
    else
      var n := |ids| - 1;
      AfterTrack(StartAll(l, ids[..n], incoming[..n], token, link, useS3, now),
                 StartRequest(ids[n], incoming[n], XhrMetadata(incoming[n], token, link, useS3), now), now)
  }

  /** The ledger after every callback's final call, taken in the order of the files. */
  function FinishAll(l: Ledger, ids: seq<string>, incoming: seq<Incoming>, outcomes: seq<FileOutcome>,
                     token: string, link: Link, useS3: bool, now: int): Ledger
    requires |ids| == |incoming| == |outcomes|
    decreases |ids|
  {
    if ids == [] then l
    else
      var n := |ids| - 1;
      AfterCall(FinishAll(l, ids[..n], incoming[..n], outcomes[..n], token, link, useS3, now),
                FinishCall(ids[n], incoming[n], XhrMetadata(incoming[n], token, link, useS3), outcomes[n].Failed?, now), now)
  }

  /** The record a file leaves in the ledger: complete at its size, at full offset unless it failed. */
  predicate FinalRecord(u: UploadInfo, f: Incoming, meta: map<string, string>, failed: bool)
  {
    u.size == f.size && u.isComplete &&
    u.offset == (if failed then 0 else f.size) &&
    u.metadata == Some(if failed then meta["error" := f.failure] else meta)
  }

  /** A file's record once its callback has started: its size, offset 0 and its metadata. */
  predicate StartedRecord(u: UploadInfo, f: Incoming, meta: map<string, string>)
  {
    u.size == f.size && u.offset == 0 && u.metadata == Some(meta)
  }

  /** Starting the files leaves every entry of another id as it was. */
  lemma {:induction false} StartAllOther(l: Ledger, ids: seq<string>, incoming: seq<Incoming>, k: string,
                                         token: string, link: Link, useS3: bool, now: int)
    requires |ids| == |incoming| && k in l.uploads && k !in ids
    ensures var s := StartAll(l, ids, incoming, token, link, useS3, now);
      k in s.uploads && s.uploads[k] == l.uploads[k]
    decreases |ids|
  {
    if ids != [] {
      var n := |ids| - 1;
      assert k !in ids[..n] by {
        assert forall x :: x in ids[..n] ==> x in ids;
      }
      StartAllOther(l, ids[..n], incoming[..n], k, token, link, useS3, now);
      assert k != ids[n];
    }
  }

  /** After the starts, the id of file j holds that file's started record. */
  lemma {:induction false} StartAllAt(l: Ledger, ids: seq<string>, incoming: seq<Incoming>, j: nat,
                                      token: string, link: Link, useS3: bool, now: int)
    requires |ids| == |incoming| && Distinct(ids) && j < |ids|
    ensures var s := StartAll(l, ids, incoming, token, link, useS3, now);
      ids[j] in s.uploads && StartedRecord(s.uploads[ids[j]], incoming[j], XhrMetadata(incoming[j], token, link, useS3))
    decreases |ids|
  {
    var n := |ids| - 1;
    var p := StartAll(l, ids[..n], incoming[..n], token, link, useS3, now);
    var meta := XhrMetadata(incoming[n], token, link, useS3);
    if j == n {
      StartCallRecord(p, ids[n], incoming[n], meta, now);
    } else {
      DistinctPrefix(ids, n);
      StartAllAt(l, ids[..n], incoming[..n], j, token, link, useS3, now);
      assert ids[..n][j] == ids[j] && incoming[..n][j] == incoming[j];
      DistinctAt(ids, n);
      assert ids[j] in ids[..n];
      StartCallFrame(p, ids[n], incoming[n], meta, ids[j], now);
    }
  }

  /** The call that starts one file's callback gives its id the started record. */
  lemma StartCallRecord(p: Ledger, id: string, f: Incoming, meta: map<string, string>, now: int)
    ensures var s := AfterTrack(p, StartRequest(id, f, meta, now), now);
      id in s.uploads && StartedRecord(s.uploads[id], f, meta)
  {
  }

  /** The call that starts one file's callback touches no other id. */
  lemma StartCallFrame(p: Ledger, id: string, f: Incoming, meta: map<string, string>, k: string, now: int)
    requires k in p.uploads && k != id
    ensures var s := AfterTrack(p, StartRequest(id, f, meta, now), now);
      k in s.uploads && s.uploads[k] == p.uploads[k]
  {
  }

  /** Finishing the files leaves every entry of another id as it was. */
  lemma {:induction false} FinishAllOther(l: Ledger, ids: seq<string>, incoming: seq<Incoming>, outcomes: seq<FileOutcome>,
                                          k: string, token: string, link: Link, useS3: bool, now: int)
    requires |ids| == |incoming| == |outcomes| && k in l.uploads && k !in ids
    ensures var s := FinishAll(l, ids, incoming, outcomes, token, link, useS3, now);
      k in s.uploads && s.uploads[k] == l.uploads[k]
    decreases |ids|
  {
    if ids != [] {
      var n := |ids| - 1;
      assert k !in ids[..n] by {
        assert forall x :: x in ids[..n] ==> x in ids;
      }
      FinishAllOther(l, ids[..n], incoming[..n], outcomes[..n], k, token, link, useS3, now);
      assert k != ids[n];
    }
  }

  /** After the final calls, the id of file j holds the record that file leaves. */
  lemma {:induction false} FinishAllAt(l: Ledger, ids: seq<string>, incoming: seq<Incoming>, outcomes: seq<FileOutcome>,
                                       j: nat, token: string, link: Link, useS3: bool, now: int)
    requires |ids| == |incoming| == |outcomes| && Distinct(ids) && j < |ids|
    requires ids[j] in l.uploads && StartedRecord(l.uploads[ids[j]], incoming[j], XhrMetadata(incoming[j], token, link, useS3))
    ensures var s := FinishAll(l, ids, incoming, outcomes, token, link, useS3, now);
      ids[j] in s.uploads &&
      FinalRecord(s.uploads[ids[j]], incoming[j], XhrMetadata(incoming[j], token, link, useS3), outcomes[j].Failed?)
    decreases |ids|
  {
    var n := |ids| - 1;
    var p := FinishAll(l, ids[..n], incoming[..n], outcomes[..n], token, link, useS3, now);
    var meta := XhrMetadata(incoming[n], token, link, useS3);
    DistinctAt(ids, n);
    if j == n {
      FinishAllOther(l, ids[..n], incoming[..n], outcomes[..n], ids[n], token, link, useS3, now);
      FinishCallRecord(p, ids[n], incoming[n], meta, outcomes[n].Failed?, now);
    } else {
      DistinctPrefix(ids, n);
      assert ids[..n][j] == ids[j] && incoming[..n][j] == incoming[j] && outcomes[..n][j] == outcomes[j];
      FinishAllAt(l, ids[..n], incoming[..n], outcomes[..n], j, token, link, useS3, now);
      assert ids[j] in ids[..n];
      FinishCallFrame(p, ids[n], incoming[n], meta, outcomes[n].Failed?, ids[j], now);
    }
  }

  /** The call that ends one file's callback touches no other id. */
  lemma FinishCallFrame(p: Ledger, id: string, f: Incoming, meta: map<string, string>, failed: bool, k: string, now: int)
    requires k in p.uploads && k != id
    ensures var s := AfterCall(p, FinishCall(id, f, meta, failed, now), now);
      k in s.uploads && s.uploads[k] == p.uploads[k]
  {
  }

  /** The call that ends one file's callback turns its started record into its final record. */
  lemma FinishCallRecord(p: Ledger, id: string, f: Incoming, meta: map<string, string>, failed: bool, now: int)
    requires id in p.uploads && StartedRecord(p.uploads[id], f, meta)
    ensures var s := AfterCall(p, FinishCall(id, f, meta, failed, now), now);
      id in s.uploads && FinalRecord(s.uploads[id], f, meta, failed)
  {
  }

  /**
   * The batch's ledger calls, started then finished, leave each file's
   * final record under its id and every other entry as it was.
   */
  lemma BatchLedgerRecords(l: Ledger, ids: seq<string>, all: seq<Incoming>, outcomes: seq<FileOutcome>,
                           token: string, link: Link, useS3: bool, now: int)
    requires |ids| == |all| == |outcomes| && Distinct(ids)
    ensures var s := FinishAll(StartAll(l, ids, all, token, link, useS3, now), ids, all, outcomes, token, link, useS3, now);
      (forall k :: k in l.uploads && k !in ids ==> k in s.uploads && s.uploads[k] == l.uploads[k]) &&
      forall j :: 0 <= j < |ids| ==>
        ids[j] in s.uploads && FinalRecord(s.uploads[ids[j]], all[j], XhrMetadata(all[j], token, link, useS3), outcomes[j].Failed?)
  {
    var m := StartAll(l, ids, all, token, link, useS3, now);
    forall k | k in l.uploads && k !in ids
      ensures var s := FinishAll(m, ids, all, outcomes, token, link, useS3, now);
        k in s.uploads && s.uploads[k] == l.uploads[k]
    {
      StartAllOther(l, ids, all, k, token, link, useS3, now);
      FinishAllOther(m, ids, all, outcomes, k, token, link, useS3, now);
    }
    forall j | 0 <= j < |ids|
      ensures var s := FinishAll(m, ids, all, outcomes, token, link, useS3, now);
        ids[j] in s.uploads && FinalRecord(s.uploads[ids[j]], all[j], XhrMetadata(all[j], token, link, useS3), outcomes[j].Failed?)
    {
      StartAllAt(l, ids, all, j, token, link, useS3, now);
      FinishAllAt(m, ids, all, outcomes, j, token, link, useS3, now);
    }
  }

  lemma {:induction false} DistinctPrefix(s: seq<string>, n: nat)
    requires Distinct(s) && n <= |s|
    ensures Distinct(s[..n])
    decreases n
  {
    if n > 0 {
      DistinctPrefix(s[1..], n - 1);
      assert s[..n] == [s[0]] + s[1..][..n - 1];
      assert s[..n][1..] == s[1..][..n - 1];
    }
  }

  lemma BatchSnoc(files: seq<StoredFile>, projectId: string, all: seq<Incoming>, i: nat, useS3: bool, now: int)
    requires i < |all|
    ensures var prev := Batch(files, projectId, all[..i], useS3, now);
      var s := StoreFile(files, prev.files, projectId, all[i], useS3, now);
      Batch(files, projectId, all[..i + 1], useS3, now) == BatchState(prev.outcomes + [s.outcome], s.files, prev.unlinked + s.unlinked)
  {
    assert all[..i + 1][..i] == all[..i];
  }

  /**
   * The synchronous start of every callback: each file is tracked at offset
   * 0 under its ledger id, in the order of the files.
   */
  method StartFiles(t: Tracker, ids: seq<string>, all: seq<Incoming>, token: string, link: Link, useS3: bool, now: int)
    requires t.Valid() && |ids| == |all|
    modifies t
    ensures t.Valid()
    ensures t.State() == StartAll(old(t.State()), ids, all, token, link, useS3, now)
    ensures forall j :: 0 <= j < |ids| ==> ids[j] in t.uploads
  {
    ghost var l0 := t.State();
    var i := 0;
    while i < |all|
      invariant 0 <= i <= |all|
      invariant t.Valid()
      invariant t.State() == StartAll(l0, ids[..i], all[..i], token, link, useS3, now)
    {
      ghost var l := t.State();
      t.TrackUpload(StartRequest(ids[i], all[i], XhrMetadata(all[i], token, link, useS3), now), now);
      StartAllSnoc(l0, ids, all, i, token, link, useS3, now);
      i := i + 1;
    }
    assert ids[..i] == ids && all[..i] == all;
    StartAllHasIds(l0, ids, all, token, link, useS3, now);
  }

  /** Every started file's id is in the ledger. */
  lemma {:induction false} StartAllHasIds(l: Ledger, ids: seq<string>, all: seq<Incoming>, token: string, link: Link, useS3: bool, now: int)
    requires |ids| == |all|
    ensures forall j :: 0 <= j < |ids| ==> ids[j] in StartAll(l, ids, all, token, link, useS3, now).uploads
    decreases |ids|
  {
    if ids != [] {
      var n := |ids| - 1;
      StartAllHasIds(l, ids[..n], all[..n], token, link, useS3, now);
      assert forall j :: 0 <= j < n ==> ids[..n][j] == ids[j];
    }
  }

  lemma StartAllSnoc(l: Ledger, ids: seq<string>, all: seq<Incoming>, i: nat, token: string, link: Link, useS3: bool, now: int)
    requires i < |ids| == |all|
    ensures StartAll(l, ids[..i + 1], all[..i + 1], token, link, useS3, now) ==
      AfterTrack(StartAll(l, ids[..i], all[..i], token, link, useS3, now),
                 StartRequest(ids[i], all[i], XhrMetadata(all[i], token, link, useS3), now), now)
  {
    assert ids[..i + 1][..i] == ids[..i] && all[..i + 1][..i] == all[..i];
  }

  /**
   * The rest of every callback, in the order of the files: store or reuse
   * the file, then make the ledger call that ends it.
   */
  method FinishFiles(t: Tracker, files: seq<StoredFile>, projectId: string, ids: seq<string>, all: seq<Incoming>,
                     token: string, link: Link, useS3: bool, now: int)
    returns (b: BatchState)
    requires t.Valid() && |ids| == |all|
    requires forall j :: 0 <= j < |ids| ==> ids[j] in t.uploads
    modifies t
    ensures t.Valid()
    ensures b == Batch(files, projectId, all, useS3, now)
    ensures t.State() == FinishAll(old(t.State()), ids, all, b.outcomes, token, link, useS3, now)
    ensures forall j :: 0 <= j < |ids| ==> ids[j] in t.uploads && t.uploads[ids[j]].isComplete
  {
    ghost var l1 := t.State();
    var outcomes: seq<FileOutcome> := [];
    var rows := files;
    var unlinked: seq<string> := [];
    var i := 0;
    while i < |all|
      invariant 0 <= i <= |all|
      invariant t.Valid()
      invariant BatchState(outcomes, rows, unlinked) == Batch(files, projectId, all[..i], useS3, now)
      invariant t.State() == FinishAll(l1, ids[..i], all[..i], outcomes, token, link, useS3, now)
      invariant t.uploads.Keys == l1.uploads.Keys
    {
      var s := StoreFile(files, rows, projectId, all[i], useS3, now);
      ghost var l := t.State();
      var call := FinishCall(ids[i], all[i], XhrMetadata(all[i], token, link, useS3), s.outcome.Failed?, now);
      match call {
        case Track(req) => t.TrackUpload(req, now);
        case Complete(id) => t.CompleteUpload(id, now);
      }
      assert t.State() == AfterCall(l, call, now);
      BatchSnoc(files, projectId, all, i, useS3, now);
      FinishAllSnoc(l1, ids, all, outcomes, s.outcome, i, token, link, useS3, now);
      outcomes, rows, unlinked := outcomes + [s.outcome], s.files, unlinked + s.unlinked;
      i := i + 1;
    }
    assert ids[..i] == ids && all[..i] == all;
    b := BatchState(outcomes, rows, unlinked);
    FinishAllComplete(l1, ids, all, outcomes, token, link, useS3, now);
  }

  /**
   * Every file's final call leaves its id complete, whatever happened to the
   * other files, even when ids repeat.
   */
  lemma {:induction false} FinishAllComplete(l: Ledger, ids: seq<string>, all: seq<Incoming>, outcomes: seq<FileOutcome>,
                                             token: string, link: Link, useS3: bool, now: int)
    requires |ids| == |all| == |outcomes|
    requires forall j :: 0 <= j < |ids| ==> ids[j] in l.uploads
    ensures var s := FinishAll(l, ids, all, outcomes, token, link, useS3, now);
      s.uploads.Keys == l.uploads.Keys &&
      forall j :: 0 <= j < |ids| ==> s.uploads[ids[j]].isComplete
    decreases |ids|
  {
    if ids != [] {
      var n := |ids| - 1;
      assert forall j :: 0 <= j < n ==> ids[..n][j] == ids[j];
      FinishAllComplete(l, ids[..n], all[..n], outcomes[..n], token, link, useS3, now);
    }
  }

  lemma FinishAllSnoc(l: Ledger, ids: seq<string>, all: seq<Incoming>, outcomes: seq<FileOutcome>, o: FileOutcome,
                      i: nat, token: string, link: Link, useS3: bool, now: int)
    requires i < |ids| == |all| && |outcomes| == i
    ensures FinishAll(l, ids[..i + 1], all[..i + 1], outcomes + [o], token, link, useS3, now) ==
      AfterCall(FinishAll(l, ids[..i], all[..i], outcomes, token, link, useS3, now),
                FinishCall(ids[i], all[i], XhrMetadata(all[i], token, link, useS3), o.Failed?, now), now)
  {
    assert ids[..i + 1][..i] == ids[..i] && all[..i + 1][..i] == all[..i] && (outcomes + [o])[..i] == outcomes;
  }

  /** Every file's callback under its ledger id: all start, then each finishes. */
  method RunBatch(t: Tracker, files: seq<StoredFile>, lk: Link, token: string, all: seq<Incoming>, ledgerIds: seq<string>,
                  useS3: bool, now: int)
    returns (b: BatchState)
    requires t.Valid() && |ledgerIds| == |all|
    modifies t
    ensures t.Valid()
    ensures b == Batch(files, lk.projectId, all, useS3, now)
    ensures t.State() == FinishAll(StartAll(old(t.State()), ledgerIds, all, token, lk, useS3, now),
                                   ledgerIds, all, b.outcomes, token, lk, useS3, now)
    ensures forall j :: 0 <= j < |ledgerIds| ==> ledgerIds[j] in t.uploads && t.uploads[ledgerIds[j]].isComplete
    ensures Distinct(ledgerIds) ==>
      (forall k :: k in old(t.uploads) && k !in ledgerIds ==> k in t.uploads && t.uploads[k] == old(t.uploads)[k]) &&
      forall j :: 0 <= j < |ledgerIds| ==>
        ledgerIds[j] in t.uploads && FinalRecord(t.uploads[ledgerIds[j]], all[j], XhrMetadata(all[j], token, lk, useS3), b.outcomes[j].Failed?)
  {
    ghost var l0 := t.State();
    StartFiles(t, ledgerIds, all, token, lk, useS3, now);
    b := FinishFiles(t, files, lk.projectId, ledgerIds, all, token, lk, useS3, now);
    if Distinct(ledgerIds) {
      BatchLedgerRecords(l0, ledgerIds, all, b.outcomes, token, lk, useS3, now);
    }
  }

  /**
   * The route: check the link, then run every file's callback under its own
   * ledger id `xhr-<uuid>` (`ledgerIds`). Each callback first tracks its file
   * at offset 0, before anything is awaited, so all files are tracked first;
   * then a reused or stored file is completed and a failed one is tracked
   * again as complete with its error. The use count moves only when every
   * file succeeded.
   */
  method UploadFiles(t: Tracker, files: seq<StoredFile>, link: Option<Link>, token: string,
                     incoming: Option<seq<Incoming>>, ledgerIds: seq<string>, useS3: bool, now: int)
    returns (r: UploadResult)
    requires t.Valid()
    requires incoming.Some? ==> |ledgerIds| == |incoming.value|
    modifies t
    ensures t.Valid()
    ensures r == UploadOutcome(files, link, incoming, useS3, now)
    ensures (incoming.None? || !CheckLink(link, now).Usable?) ==> t.State() == old(t.State())
    ensures incoming.Some? && CheckLink(link, now).Usable? ==>
      t.State() == FinishAll(StartAll(old(t.State()), ledgerIds, incoming.value, token, link.value, useS3, now),
                             ledgerIds, incoming.value, Batch(files, link.value.projectId, incoming.value, useS3, now).outcomes,
                             token, link.value, useS3, now)
    ensures incoming.Some? && CheckLink(link, now).Usable? ==>
      forall j :: 0 <= j < |ledgerIds| ==> ledgerIds[j] in t.uploads && t.uploads[ledgerIds[j]].isComplete
    ensures incoming.Some? && CheckLink(link, now).Usable? && Distinct(ledgerIds) ==>
      (forall k :: k in old(t.uploads) && k !in ledgerIds ==> k in t.uploads && t.uploads[k] == old(t.uploads)[k]) &&
      forall j :: 0 <= j < |ledgerIds| ==>
        ledgerIds[j] in t.uploads && FinalRecord(t.uploads[ledgerIds[j]], incoming.value[j], XhrMetadata(incoming.value[j], token, link.value, useS3),
                    Batch(files, link.value.projectId, incoming.value, useS3, now).outcomes[j].Failed?)
  {
    if incoming.None? {
      return UploadResult(400, files, None, []);
    }
    if incoming.value != [] && link.None? {
      return UploadResult(500, files, None, []);
    }
    var v := CheckLink(link, now);
    if !v.Usable? {
      return UploadResult(VerdictStatus(v), files, None, PathsOf(incoming.value));
    }
    r := UploadUsable(t, files, v.link, token, incoming.value, ledgerIds, useS3, now);
  }

  /** The route once the link is usable: the batch runs and the answer follows its outcomes. */
  method UploadUsable(t: Tracker, files: seq<StoredFile>, lk: Link, token: string, all: seq<Incoming>,
                      ledgerIds: seq<string>, useS3: bool, now: int)
    returns (r: UploadResult)
    requires t.Valid() && |ledgerIds| == |all| && CheckLink(Some(lk), now).Usable?
    modifies t
    ensures t.Valid()
    ensures r == UploadOutcome(files, Some(lk), Some(all), useS3, now)
    ensures t.State() == FinishAll(StartAll(old(t.State()), ledgerIds, all, token, lk, useS3, now),
                                   ledgerIds, all, Batch(files, lk.projectId, all, useS3, now).outcomes, token, lk, useS3, now)
    ensures forall j :: 0 <= j < |ledgerIds| ==> ledgerIds[j] in t.uploads && t.uploads[ledgerIds[j]].isComplete
    ensures Distinct(ledgerIds) ==>
      (forall k :: k in old(t.uploads) && k !in ledgerIds ==> k in t.uploads && t.uploads[k] == old(t.uploads)[k]) &&
      forall j :: 0 <= j < |ledgerIds| ==>
        ledgerIds[j] in t.uploads && FinalRecord(t.uploads[ledgerIds[j]], all[j], XhrMetadata(all[j], token, lk, useS3),
                                                 Batch(files, lk.projectId, all, useS3, now).outcomes[j].Failed?)
  {
    var b := RunBatch(t, files, lk, token, all, ledgerIds, useS3, now);
    r := Answer(b, lk);
    AnswerIsOutcome(b, files, lk, all, useS3, now);
  }

  /** The answer to the batch the route runs is the route's outcome. */
  lemma AnswerIsOutcome(b: BatchState, files: seq<StoredFile>, lk: Link, all: seq<Incoming>, useS3: bool, now: int)
    requires CheckLink(Some(lk), now).Usable?
    requires b == Batch(files, lk.projectId, all, useS3, now)
    ensures Answer(b, lk) == UploadOutcome(files, Some(lk), Some(all), useS3, now)
  {
    UploadOutcomeUsable(files, Some(lk), all, useS3, now);
  }

  /** The answer to a batch run under a usable link. */
  function Answer(b: BatchState, lk: Link): UploadResult
  {
    if AllSucceeded(b.outcomes) then UploadResult(200, b.files, Some(lk.usedCount + 1), b.unlinked)
    else UploadResult(500, b.files, None, b.unlinked)
  }

  /** With a usable link the answer is 200 and one more use when every file succeeded, 500 otherwise. */
  lemma UploadOutcomeUsable(files: seq<StoredFile>, link: Option<Link>, all: seq<Incoming>, useS3: bool, now: int)
    requires CheckLink(link, now).Usable?
    ensures var b := Batch(files, link.value.projectId, all, useS3, now);
      UploadOutcome(files, link, Some(all), useS3, now) ==
        if AllSucceeded(b.outcomes) then UploadResult(200, b.files, Some(link.value.usedCount + 1), b.unlinked)
        else UploadResult(500, b.files, None, b.unlinked)
  {
  }

  // ---------------------------------------------------------------------
  // POST /s3-callback/:token

  /** The JSON body the browser posts after a direct S3 upload. */
  datatype CallbackBody = CallbackBody(
    key: Option<string>,
    size: Option<int>,
    filename: Option<string>,
    mimeType: Option<string>,
    hash: Option<string>)

  datatype CallbackResult = CallbackResult(
    status: int,
    record: Option<StoredFile>,
    rename: Option<(string, string)>)

  /**
   * The key and name a callback records. Only a key holding a UUID followed
   * by a hyphen is rewritten: the filename loses every such UUID and the key
   * becomes client/project/filename; a failed rename restores the key but
   * not the filename. `renameOk` is the S3 rename's success.
   */
  function CleanNames(key: string, filename: string, link: Link, renameOk: bool): (r: (string, string))
    ensures !HasUuidDash(key) ==> r == (key, filename)
    ensures HasUuidDash(key) ==>
      r.1 == StripUuidDashes(filename) &&
      var cleanKey := OrElse(link.clientCode, "default") + "/" + OrElse(Some(link.projectName), "default") + "/" + r.1;
      r.0 == (if renameOk || cleanKey == key then cleanKey else key)
  {
    if !HasUuidDash(key) then (key, filename)
    else
      var cleanFilename := StripUuidDashes(filename);
      var cleanKey := OrElse(link.clientCode, "default") + "/" + OrElse(Some(link.projectName), "default") + "/" + cleanFilename;
      if cleanKey != key && !renameOk then (key, cleanFilename) else (cleanKey, cleanFilename)
  }

  /**
   * The callback's decision: 400 without a key or filename, 404 for an
   * unknown token, otherwise a completed S3 row and one more use of the link.
   * Expiry and the use limit are not checked here.
   */
  function S3Callback(body: CallbackBody, link: Option<Link>, renameOk: bool, s3Endpoint: string, s3Bucket: string, now: int): (r: CallbackResult)
    ensures r.status == 400 <==> !Truthy(body.key) || !Truthy(body.filename)
    ensures r.status == 404 <==> Truthy(body.key) && Truthy(body.filename) && link.None?
    ensures r.record.Some? <==> r.status == 200
    ensures r.status in {200, 400, 404}
    ensures r.record.Some? ==>
      var names := CleanNames(body.key.value, body.filename.value, link.value, renameOk);
      r.record.value.path == names.0 && r.record.value.name == names.1 &&
      r.record.value.url == Some(s3Endpoint + "/" + s3Bucket + "/" + names.0) &&
      r.record.value.status == "completed" && r.record.value.storage == "s3" &&
      r.record.value.projectId == link.value.projectId && r.record.value.size == OrZeroSize(body.size)
    ensures r.record.Some? ==>
      r.record.value.mimeType == OrElse(body.mimeType, "application/octet-stream") &&
      r.record.value.hash == OrElse(body.hash, "unknown") && r.record.value.completedAt == now
    ensures r.rename.Some? ==> r.status == 200 && HasUuidDash(body.key.value) && r.rename.value.0 == body.key.value
    ensures r.status == 200 ==>
      var cleanKey := OrElse(link.value.clientCode, "default") + "/" + OrElse(Some(link.value.projectName), "default") + "/" +
                      StripUuidDashes(body.filename.value);
      (r.rename.Some? <==> HasUuidDash(body.key.value) && cleanKey != body.key.value) &&
      (r.rename.Some? ==> r.rename.value.1 == cleanKey)
  {
    if !Truthy(body.key) || !Truthy(body.filename) then CallbackResult(400, None, None)
    else if link.None? then CallbackResult(404, None, None)
    else
      var key := body.key.value;
      var names := CleanNames(key, body.filename.value, link.value, renameOk);
      var cleanKey := OrElse(link.value.clientCode, "default") + "/" + OrElse(Some(link.value.projectName), "default") + "/" + names.1;
      var rename := if HasUuidDash(key) && cleanKey != key then Some((key, cleanKey)) else None;
      var row := StoredFile(link.value.projectId, names.1, names.0, OrZeroSize(body.size),
                            OrElse(body.mimeType, "application/octet-stream"), OrElse(body.hash, "unknown"),
                            "completed", "s3", Some(s3Endpoint + "/" + s3Bucket + "/" + names.0), now);
      CallbackResult(200, Some(row), rename)
  }

  /** `size ? parseFloat(size.toString()) : 0` */
  function OrZeroSize(size: Option<int>): int
  {
    if size.Some? then size.value else 0
  }

  /**
   * A key without a UUID-and-hyphen is recorded as sent; a cleaned filename is
   * shorter by at least one UUID-and-hyphen whenever it held one.
   */
  lemma CallbackKeepsPlainKeys(body: CallbackBody, link: Link, renameOk: bool, s3Endpoint: string, s3Bucket: string, now: int)
    requires Truthy(body.key) && Truthy(body.filename)
    ensures var r := S3Callback(body, Some(link), renameOk, s3Endpoint, s3Bucket, now);
      r.status == 200 &&
      (!HasUuidDash(body.key.value) ==>
        r.record.value.path == body.key.value && r.record.value.name == body.filename.value && r.rename.None?) &&
      (HasUuidDash(body.key.value) && HasUuidDash(body.filename.value) ==>
        |r.record.value.name| <= |body.filename.value| - 37)
  {
    StripUuidDashesChanges(body.filename.value);
  }

  /** The ledger metadata of a callback's upload. */
  function S3Metadata(row: StoredFile, token: string, link: Link): map<string, string>
  {
    map["filename" := row.name, "filetype" := row.mimeType, "token" := token,
        "clientName" := link.clientName, "projectName" := link.projectName, "storage" := "s3"]
  }

  /**
   * The route: record the row, count the use, then track the upload as
   * `s3-<row id>` complete at full size and complete it once more, which
   * schedules the S3 file-name clean-up. `fileId` is the id the database gave the row.
   */
  method S3CallbackRoute(t: Tracker, body: CallbackBody, link: Option<Link>, token: string, renameOk: bool,
                         s3Endpoint: string, s3Bucket: string, fileId: string, now: int)
    returns (r: CallbackResult, usedCount: Option<int>)
    requires t.Valid()
    modifies t
    ensures t.Valid()
    ensures r == S3Callback(body, link, renameOk, s3Endpoint, s3Bucket, now)
    ensures t.State() ==
      if r.status == 200 then
        var row := r.record.value;
        var req := TrackRequest("s3-" + fileId, row.size, row.size, Some(S3Metadata(row, token, link.value)), now, None, Some(true), None);
        AfterComplete(AfterTrack(old(t.State()), req, now), "s3-" + fileId, now)
      else old(t.State())
    ensures r.status != 200 ==> usedCount.None? && t.uploads == old(t.uploads) && t.scheduledCleanups == old(t.scheduledCleanups)
    ensures r.status == 200 ==>
      usedCount == Some(link.value.usedCount + 1) &&
      var id := "s3-" + fileId;
      id in t.uploads && t.uploads[id].isComplete && t.uploads[id].offset == t.uploads[id].size == r.record.value.size &&
      IsS3(t.uploads[id]) && t.scheduledCleanups == old(t.scheduledCleanups) + [id]
  {
    r := S3Callback(body, link, renameOk, s3Endpoint, s3Bucket, now);
    usedCount := None;
    if r.status == 200 {
      var row := r.record.value;
      usedCount := Some(link.value.usedCount + 1);
      var id := "s3-" + fileId;
      t.TrackUpload(TrackRequest(id, row.size, row.size, Some(S3Metadata(row, token, link.value)), now, None, Some(true), None), now);
      t.CompleteUpload(id, now);
    }
  }
}
