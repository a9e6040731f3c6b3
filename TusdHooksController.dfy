// The tusd webhook controller (backend/src/controllers/tusdHooksController.ts):
// each hook type is answered with a status code and mapped to at most one
// call on the upload ledger. A null or undefined request body makes the
// first property access throw, which every handler turns into a 500; any
// other body reaches the handler's answer of 200.

module TusdHooksController {
  import opened Strings
  import opened UploadTracker

  datatype HookType = PreCreate | PostCreate | PostReceive | PostFinish | PostTerminate

  /** The `Upload` object of a tusd hook body. */
  datatype HookUpload = HookUpload(
    id: string,
    size: Option<int>,
    offset: Option<int>,
    metaData: Option<map<string, string>>)

  datatype HookResult = HookResult(status: int, call: LedgerCall)

  const StatusOk: int := 200
  const StatusServerError: int := 500

  /** `x || 0` on an optional number. */
  function OrZero(x: Option<int>): int
  {
    if x.Some? then x.value else 0
  }

  /** `x || {}` on optional metadata. */
  function OrEmpty(m: Option<map<string, string>>): map<string, string>
  {
    if m.Some? then m.value else map[]
  }

  /**
   * The decision each handler takes. `body` is None when the request body
   * is null or undefined.
   */
  function Dispatch(kind: HookType, body: Option<HookUpload>, now: int): (r: HookResult)
    ensures r.status == StatusOk || r.status == StatusServerError
    ensures r.status == StatusServerError <==> body.None?
    ensures r.status == StatusServerError ==> r.call.NoCall?
    ensures (kind == PreCreate || kind == PostTerminate) ==> r.call.NoCall?
    ensures kind == PostFinish && body.Some? ==> r.call == Complete(body.value.id)
    ensures (kind == PostCreate || kind == PostReceive) && body.Some? ==>
      r.call.Track? && r.call.req.id == body.value.id && r.call.req.metadata.Some? &&
      r.call.req.size == OrZero(body.value.size)
    ensures kind == PostCreate && body.Some? ==> r.call.req.offset == 0 && r.call.req.isComplete == Some(false)
    ensures kind == PostReceive && body.Some? ==>
      r.call.req.offset == OrZero(body.value.offset) && r.call.req.isComplete.None?
  {
    if body.None? then HookResult(StatusServerError, NoCall)
    else
      var u := body.value;
      match kind
      case PreCreate => HookResult(StatusOk, NoCall)
      case PostCreate =>
        HookResult(StatusOk, Track(TrackRequest(u.id, OrZero(u.size), 0, Some(OrEmpty(u.metaData)), now, None, Some(false), None)))
      case PostReceive =>
        HookResult(StatusOk, Track(TrackRequest(u.id, OrZero(u.size), OrZero(u.offset), Some(OrEmpty(u.metaData)), now, None, None, None)))
      case PostFinish => HookResult(StatusOk, Complete(u.id))
      case PostTerminate => HookResult(StatusOk, NoCall)
  }

  /** A handler: take the decision, then make its ledger call. */
  method Handle(t: Tracker, kind: HookType, body: Option<HookUpload>, now: int) returns (status: int)
    requires t.Valid()
    modifies t
    ensures t.Valid()
    ensures status == Dispatch(kind, body, now).status
    ensures Dispatch(kind, body, now).call.NoCall? ==>
      t.uploads == old(t.uploads) && t.order == old(t.order) && t.scheduledCleanups == old(t.scheduledCleanups)
    ensures Dispatch(kind, body, now).call.Track? ==>
      var req := Dispatch(kind, body, now).call.req;
      t.uploads == old(t.uploads)[req.id := Tracked(req, old(t.GetUpload(req.id)), now)]
    ensures Dispatch(kind, body, now).call.Complete? && body.Some? && body.value.id in old(t.uploads) ==>
      t.uploads == old(t.uploads)[body.value.id := Completed(old(t.uploads)[body.value.id], now)]
    ensures t.State() == AfterCall(old(t.State()), Dispatch(kind, body, now).call, now)
  {
    var r := Dispatch(kind, body, now);
    status := r.status;
    match r.call
    case NoCall =>
    case Track(req) => t.TrackUpload(req, now);
    case Complete(id) => t.CompleteUpload(id, now);
  }

  /**
   * A chunk report after a completed upload re-opens its ledger record:
   * post-receive never says the upload is complete.
   */
  lemma PostReceiveReopens(u: HookUpload, prev: UploadInfo, now: int)
    ensures var r := Dispatch(PostReceive, Some(u), now);
      r.call.Track? && !Tracked(r.call.req, Some(prev), now).isComplete
  {
  }

  /** A created upload enters the ledger active, at offset 0, first seen now. */
  lemma PostCreateStartsActive(u: HookUpload, now: int)
    ensures var r := Dispatch(PostCreate, Some(u), now);
      r.call.Track? && var rec := Tracked(r.call.req, None, now);
      !rec.isComplete && rec.offset == 0 && rec.createdAt == now && rec.uploadSpeed.None?
  {
  }
}
