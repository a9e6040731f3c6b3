// The browser side of an upload (frontend/src/pages/UploadPortal.tsx): the
// chunk size handed to the tus client, the object keys the portal asks for
// and reports back after an S3 upload, the throttle on progress messages and
// the `.turbosort` filter. The clock and the upload library's answers are
// parameters.

module UploadPortal {
  import opened Strings
  import opened Uuid
  import TusUpload
  import UploadRoutes
  import FixS3Filenames

  // ---------------------------------------------------------------------
  // getChunkSize

  const MiB: int := 1024 * 1024

  /**
   * 10 MiB for a known size under 100 MiB, 25 MiB under 1 GiB, else 50 MiB;
   * an unknown or zero size is not truthy and gets 50 MiB.
   */
  function ChunkSize(size: Option<int>): (r: int)
    ensures r == 10 * MiB || r == 25 * MiB || r == 50 * MiB
    ensures r == 10 * MiB <==> size.Some? && size.value != 0 && size.value < 100 * MiB
    ensures r == 25 * MiB <==> size.Some? && size.value != 0 && 100 * MiB <= size.value < 1024 * MiB
  {
    if size.Some? && size.value != 0 && size.value < 100 * MiB then 10 * MiB
    else if size.Some? && size.value != 0 && size.value < 1024 * MiB then 25 * MiB
    else 50 * MiB
  }

  /** A larger file never gets a smaller chunk. */
  lemma ChunkSizeMonotone(a: int, b: int)
    requires 0 < a <= b
    ensures ChunkSize(Some(a)) <= ChunkSize(Some(b))
  {
  }

  // ---------------------------------------------------------------------
  // Object keys

  /** `v ? String(v).replace(/\s+/g, '_') : 'default'` */
  function Folder(v: Option<string>): (r: string)
    ensures r != ""
    ensures forall i :: 0 <= i < |r| ==> !JsSpace(r[i])
    ensures !Truthy(v) ==> r == "default"
  {
    if Truthy(v) then UnderscoreSpaces(v.value) else "default"
  }

  /** `${client}/${project}/${filename}` with both folders made safe. */
  function PortalKey(client: Option<string>, project: Option<string>, filename: string): string
  {
    Folder(client) + "/" + Folder(project) + "/" + filename
  }

  /**
   * The clean-up script reads the portal's folders back out of its key, as
   * long as the client and project names hold no '/'.
   */
  lemma PortalKeyReadBack(client: Option<string>, project: Option<string>, filename: string)
    requires client.Some? ==> '/' !in client.value
    requires project.Some? ==> '/' !in project.value
    ensures FixS3Filenames.ExtractPathInfo(PortalKey(client, project, filename)) ==
      FixS3Filenames.PathInfo(Some(Folder(client)), Some(Folder(project)))
  {
    var c, p := Folder(client), Folder(project);
    if Truthy(client) {
      UnderscoreSpacesAvoids(client.value, '/');
    }
    if Truthy(project) {
      UnderscoreSpacesAvoids(project.value, '/');
    }
    FixS3Filenames.ExtractPathInfoOfKey(c, p, filename);
    assert c + "/" + (p + "/" + filename) == PortalKey(client, project, filename);
  }

  /** `url.split('?')[0].split('/').slice(3).join('/')` */
  function UrlKeyPath(url: string): string
  {
    var parts := Split(Split(url, '?')[0], '/');
    if |parts| <= 3 then "" else Join(parts[3..], "/")
  }

  /**
   * For `scheme//host/path?query` the key is the whole path after the host
   * (the bucket included, for a path-style URL), with the query dropped.
   */
  lemma UrlKeyPathOfUrl(scheme: string, host: string, path: string, query: string)
    requires '/' !in scheme && '/' !in host
    requires '?' !in scheme && '?' !in host && '?' !in path
    ensures UrlKeyPath(scheme + "//" + host + "/" + path + "?" + query) == path
    ensures UrlKeyPath(scheme + "//" + host + "/" + path) == path
  {
    var u := scheme + "//" + host + "/" + path;
    assert '?' !in u by {
      assert forall i :: 0 <= i < |u| ==> u[i] == '/' || u[i] in scheme || u[i] in host || u[i] in path;
    }
    SplitFree(u, '?');
    SplitAtFirst(u, query, '?');
    assert u + "?" + query == u + ['?'] + query;
    UrlPieces(scheme, host, path);
    JoinSplit(path, '/');
    assert Split(u, '/')[3..] == Split(path, '/');
  }

  /** The pieces of `scheme//host/path` between slashes: the scheme, an empty piece, the host, then the path's. */
  lemma UrlPieces(scheme: string, host: string, path: string)
    requires '/' !in scheme && '/' !in host
    ensures Split(scheme + "//" + host + "/" + path, '/') == [scheme, "", host] + Split(path, '/')
  {
    SplitAtFirst(host, path, '/');
    SplitAtFirst([], host + ['/'] + path, '/');
    SplitAtFirst(scheme, [] + ['/'] + (host + ['/'] + path), '/');
    assert scheme + "//" + host + "/" + path == scheme + ['/'] + ([] + ['/'] + (host + ['/'] + path));
  }

  /** The key of a multipart (Companion) upload's callback. */
  function CompanionKey(name: Option<string>, client: Option<string>, project: Option<string>,
                        uploadUrl: Option<string>, now: nat): string
  {
    if Truthy(name) then PortalKey(client, project, name.value)
    else if Truthy(uploadUrl) then UrlKeyPath(uploadUrl.value)
    else "unknown/" + Decimal(now) + ".bin"
  }

  /** The key a direct S3 upload asks the backend to sign. */
  function ParamsKey(name: Option<string>, client: Option<string>, project: Option<string>): string
  {
    PortalKey(client, project, if name.Some? then name.value else TusUpload.UnnamedFile)
  }

  /**
   * The key a direct S3 upload reports: the path of the returned URL, else
   * the portal's key with every UUID-and-hyphen stripped from the name.
   */
  function S3SuccessKey(name: string, client: Option<string>, project: Option<string>, uploadUrl: Option<string>): string
  {
    if Truthy(uploadUrl) then UrlKeyPath(uploadUrl.value)
    else PortalKey(client, project, StripUuidDashes(name))
  }

  /**
   * Without a returned URL the reported key is the key that was signed
   * exactly when the name holds no UUID followed by a hyphen; otherwise the
   * name part is shorter by at least 37 characters.
   */
  lemma FallbackKeyMatchesSigned(name: string, client: Option<string>, project: Option<string>)
    ensures !HasUuidDash(name) ==> S3SuccessKey(name, client, project, None) == ParamsKey(Some(name), client, project)
    ensures HasUuidDash(name) ==> |S3SuccessKey(name, client, project, None)| <= |ParamsKey(Some(name), client, project)| - 37
  {
    StripUuidDashesChanges(name);
  }

  /** The JSON body posted to /upload/s3-callback after a direct S3 upload. */
  function CallbackBodyOf(key: string, size: Option<int>, name: string, mimeType: Option<string>, fileId: string): UploadRoutes.CallbackBody
  {
    UploadRoutes.CallbackBody(
      Some(key),
      Some(if size.Some? && size.value != 0 then size.value else 0),
      Some(name),
      Some(OrElse(mimeType, "application/octet-stream")),
      Some("s3-" + fileId))
  }

  /**
   * A callback the portal builds without a returned URL is never refused
   * as malformed: with a known token the backend records it (200).
   */
  lemma FallbackCallbackAccepted(name: string, client: Option<string>, project: Option<string>, size: Option<int>,
                                 mimeType: Option<string>, fileId: string, link: UploadRoutes.Link,
                                 renameOk: bool, s3Endpoint: string, s3Bucket: string, now: int)
    requires name != ""
    ensures var body := CallbackBodyOf(S3SuccessKey(name, client, project, None), size, name, mimeType, fileId);
      UploadRoutes.S3Callback(body, Some(link), renameOk, s3Endpoint, s3Bucket, now).status == 200
  {
    var key := S3SuccessKey(name, client, project, None);
    assert key[|Folder(client)|] == '/';
  }

  // ---------------------------------------------------------------------
  // The upload-progress throttle

  const MinProgressUpdateInterval: int := 3000
  const PercentageUpdateThreshold: int := 10

  /** A JavaScript number that a percentage can come out as. */
  datatype Percent = Num(n: int) | Infinite | NotANumber

  /**
   * `Math.floor(bytesUploaded / bytesTotal * 100)`: the whole percentage for
   * a known total; x/0 is Infinity, and 0/0 is NaN.
   */
  function PercentOf(uploaded: nat, total: nat): (r: Percent)
    ensures total > 0 ==> r.Num? && 0 <= r.n && r.n * total <= uploaded * 100 < (r.n + 1) * total
    ensures total == 0 ==> (r == Infinite <==> uploaded > 0) && !r.Num?
  {
    if total == 0 then (if uploaded > 0 then Infinite else NotANumber)
    else Num(uploaded * 100 / total)
  }

  /**
   * shouldSendUpdate: enough time has passed, and the percentage rose by the
   * threshold or is 100, and it is above 0 or nothing above 0 was reported.
   * Comparisons with NaN are false; Infinity passes every test.
   */
  predicate ShouldSend(p: Percent, lastPercent: int, elapsed: int)
  {
    elapsed >= MinProgressUpdateInterval &&
    match p
    case Num(n) => (n - lastPercent >= PercentageUpdateThreshold || n == 100) && (n > 0 || lastPercent == 0)
    case Infinite => true
    case NotANumber => false
  }

  /**
   * With a stored percentage in [0, 100) the third condition never decides:
   * the decision is time plus rise-or-100, and a 0% update is never sent.
   */
  lemma ThirdConditionIdle(n: int, lastPercent: int, elapsed: int)
    requires 0 <= lastPercent < 100
    ensures ShouldSend(Num(n), lastPercent, elapsed) <==>
      elapsed >= MinProgressUpdateInterval && (n - lastPercent >= PercentageUpdateThreshold || n == 100)
    ensures !ShouldSend(Num(0), lastPercent, elapsed)
  {
  }

  /** The two refs: time of the last message and the last percentage stored. */
  datatype Throttle = Throttle(lastTime: int, lastPercent: int)

  /** One progress event: whether a message goes out, and the refs after it. */
  function Step(s: Throttle, p: Percent, now: int): (r: (Throttle, bool))
  {
    if !ShouldSend(p, s.lastPercent, now - s.lastTime) then (s, false)
    else (Throttle(now, if p.Num? && p.n < 100 then p.n else s.lastPercent), true)
  }

  /** A run of progress events through the shared refs, and the messages sent. */
  function Run(s: Throttle, events: seq<(Percent, int)>): (r: (Throttle, seq<(Percent, int)>))
    decreases |events|
  {
    if events == [] then (s, [])
    else
      var (s1, sent) := Step(s, events[0].0, events[0].1);
      var (s2, log) := Run(s1, events[1..]);
      (s2, if sent then [events[0]] + log else log)
  }

  /** The number of messages below 100%. */
  function BelowHundred(log: seq<(Percent, int)>): nat
  {
    if log == [] then 0
    else (if log[0].0.Num? && log[0].0.n < 100 then 1 else 0) + BelowHundred(log[1..])
  }

  /**
   * Over any run the stored percentage stays in [0, 100) and never falls;
   * messages are at least 3000 ms apart, the first 3000 ms after the last
   * one; and each message below 100% raises the stored percentage by at
   * least 10, so one page session sends at most nine of them.
   */
  lemma {:induction false} RunThrottled(s: Throttle, events: seq<(Percent, int)>)
    requires 0 <= s.lastPercent < 100
    requires forall i :: 0 <= i < |events| ==> (events[i].0.Num? ==> events[i].0.n >= 0)
    ensures var (s2, log) := Run(s, events);
      s.lastPercent <= s2.lastPercent < 100 &&
      (log != [] ==> log[0].1 >= s.lastTime + MinProgressUpdateInterval) &&
      (forall i :: 0 <= i < |log| - 1 ==> log[i + 1].1 >= log[i].1 + MinProgressUpdateInterval) &&
      BelowHundred(log) * PercentageUpdateThreshold <= s2.lastPercent - s.lastPercent
    decreases |events|
  {
    if events != [] {
      var (s1, sent) := Step(s, events[0].0, events[0].1);
      RunThrottled(s1, events[1..]);
      var (s2, log) := Run(s1, events[1..]);
      if sent {
        assert s1.lastTime == events[0].1;
        assert Run(s, events).1 == [events[0]] + log;
        assert ([events[0]] + log)[1..] == log;
      }
    }
  }

  /**
   * The refs of the page, shared by every file it uploads. Time is in
   * milliseconds; the stored percentage stays below 100.
   */
  class ProgressThrottle {
    var lastProgressUpdate: int
    var lastPercentage: int

    ghost predicate Valid()
      reads this
    {
      0 <= lastPercentage < 100
    }

    constructor ()
      ensures Valid()
      ensures lastProgressUpdate == 0 && lastPercentage == 0
    {
      lastProgressUpdate := 0;
      lastPercentage := 0;
    }

    /**
     * The upload-progress handler: a file without a name or a progress
     * report without byte counts is ignored; otherwise the percentage is
     * computed and `sent` is the percentage posted, if one is.
     */
    method OnProgress(name: Option<string>, uploaded: Option<nat>, total: Option<nat>, now: int)
      returns (sent: Option<Percent>)
      requires Valid()
      modifies this
      ensures Valid()
      ensures sent.Some? <==>
        Truthy(name) && uploaded.Some? && total.Some? &&
        Step(Throttle(old(lastProgressUpdate), old(lastPercentage)), PercentOf(uploaded.value, total.value), now).1
      ensures sent.Some? ==> sent.value == PercentOf(uploaded.value, total.value)
      ensures sent.Some? ==>
        Throttle(lastProgressUpdate, lastPercentage) ==
        Step(Throttle(old(lastProgressUpdate), old(lastPercentage)), sent.value, now).0
      ensures sent.None? ==> lastProgressUpdate == old(lastProgressUpdate) && lastPercentage == old(lastPercentage)
    {
      sent := None;
      if !Truthy(name) || uploaded.None? || total.None? {
        return;
      }
      var currentPercent := PercentOf(uploaded.value, total.value);
      var timeSinceLastUpdate := now - lastProgressUpdate;
      if ShouldSend(currentPercent, lastPercentage, timeSinceLastUpdate) {
        lastProgressUpdate := now;
        if currentPercent.Num? && currentPercent.n < 100 {
          lastPercentage := currentPercent.n;
        }
        sent := Some(currentPercent);
      }
    }
  }

  // ---------------------------------------------------------------------
  // The file-added filter

  /** The files left in the queue after a file is added. */
  function AddFile(queue: seq<string>, name: Option<string>): (r: seq<string>)
  {
    var fileName := OrElse(name, "");
    if TusUpload.IsTurbosort(fileName) then queue else queue + [fileName]
  }

  /**
   * A `.turbosort` file is removed as soon as it is added, and every other
   * file joins the queue: the queue never holds one.
   */
  lemma AddFileFilters(queue: seq<string>, name: Option<string>)
    requires forall i :: 0 <= i < |queue| ==> !TusUpload.IsTurbosort(queue[i])
    ensures var r := AddFile(queue, name);
      (forall i :: 0 <= i < |r| ==> !TusUpload.IsTurbosort(r[i])) &&
      (|r| == |queue| + 1 <==> !TusUpload.IsTurbosort(OrElse(name, ""))) &&
      r[..|queue|] == queue
  {
  }
}
