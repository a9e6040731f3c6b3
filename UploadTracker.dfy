// The in-memory upload ledger of the backend (backend/src/services/uploads/
// uploadTracker.ts): a JavaScript Map from upload id to the latest progress
// record, updated in place by trackUpload / completeUpload and pruned by
// cleanupOldUploads. Times are milliseconds since the epoch; the clock is a
// parameter. Upload speeds are real numbers of bytes per second.

module UploadTracker {
  import opened Strings

  datatype UploadInfo = UploadInfo(
    id: string,
    size: int,
    offset: int,
    metadata: Option<map<string, string>>,
    createdAt: int,
    lastUpdated: int,
    previousOffset: Option<int>,
    previousUpdateTime: Option<int>,
    uploadSpeed: Option<real>,
    storage: Option<string>,
    isComplete: bool,
    completedAt: Option<int>)

  /**
   * What a caller hands to trackUpload: a record without lastUpdated and with
   * an optional isComplete. The caller's createdAt is part of the type but is
   * always replaced.
   */
  datatype TrackRequest = TrackRequest(
    id: string,
    size: int,
    offset: int,
    metadata: Option<map<string, string>>,
    createdAt: int,
    storage: Option<string>,
    isComplete: Option<bool>,
    completedAt: Option<int>)

  /** Default age after which a completed record may be pruned: one day. */
  const DefaultMaxAgeMs: int := 24 * 60 * 60 * 1000

  /** Delay of the S3 file-name clean-up timer started by completeUpload. */
  const S3CleanupDelayMs: int := 5000

  /**
   * The speed trackUpload records: bytes gained per elapsed millisecond times
   * 1000, defined only when there was an earlier record, the offset moved and
   * the clock advanced.
   */
  function Speed(existing: Option<UploadInfo>, offset: int, now: int): (r: Option<real>)
    ensures r.Some? <==> existing.Some? && existing.value.offset != offset && now > existing.value.lastUpdated
    ensures r.Some? ==>
      r.value * (now - existing.value.lastUpdated) as real == (offset - existing.value.offset) as real * 1000.0
  {
    if existing.Some? && existing.value.offset != offset then
      var timeDiffMs := now - existing.value.lastUpdated;
      if timeDiffMs > 0 then
        Some((offset - existing.value.offset) as real / timeDiffMs as real * 1000.0)
      else None
    else None
  }

  /** The record trackUpload stores, given the record it replaces (if any). */
  function Tracked(req: TrackRequest, existing: Option<UploadInfo>, now: int): UploadInfo
  {
    UploadInfo(
      req.id, req.size, req.offset, req.metadata,
      if existing.Some? then existing.value.createdAt else now,
      now,
      if existing.Some? then Some(existing.value.offset) else None,
      if existing.Some? then Some(existing.value.lastUpdated) else None,
      Speed(existing, req.offset, now),
      req.storage,
      if req.isComplete.Some? then req.isComplete.value else false,
      req.completedAt)
  }

  /** The record completeUpload stores in place of u. */
  function Completed(u: UploadInfo, now: int): UploadInfo
  {
    u.(offset := u.size, lastUpdated := now, isComplete := true, completedAt := Some(now))
  }

  /** The metadata test that makes completeUpload schedule the S3 clean-up. */
  predicate IsS3(u: UploadInfo)
  {
    u.metadata.Some? && "storage" in u.metadata.value && u.metadata.value["storage"] == "s3"
  }

  /**
   * The whole state of the ledger: the Map's entries, its keys in insertion
   * order, and the ids whose S3 clean-up has been scheduled.
   */
  datatype Ledger = Ledger(uploads: map<string, UploadInfo>, order: seq<string>, scheduledCleanups: seq<string>)

  /** The Map invariant: every key listed once, and exactly the keys of the entries. */
  predicate WellFormed(l: Ledger)
  {
    Distinct(l.order) && l.uploads.Keys == Elems(l.order)
  }

  /** The ledger after trackUpload(req): only req.id's entry changes, a new id goes last. */
  function AfterTrack(l: Ledger, req: TrackRequest, now: int): (r: Ledger)
    ensures r.uploads.Keys == l.uploads.Keys + {req.id}
    ensures r.uploads[req.id] == Tracked(req, if req.id in l.uploads then Some(l.uploads[req.id]) else None, now)
    ensures forall k :: k in l.uploads && k != req.id ==> r.uploads[k] == l.uploads[k]
    ensures r.order == if req.id in l.uploads then l.order else l.order + [req.id]
    ensures r.scheduledCleanups == l.scheduledCleanups
  {
    var existing := if req.id in l.uploads then Some(l.uploads[req.id]) else None;
    Ledger(l.uploads[req.id := Tracked(req, existing, now)],
           if req.id in l.uploads then l.order else l.order + [req.id],
           l.scheduledCleanups)
  }

  /**
   * The ledger after completeUpload(id): an unknown id changes nothing; a
   * known one is marked complete at full size, and an S3 upload has its
   * clean-up scheduled.
   */
  function AfterComplete(l: Ledger, id: string, now: int): (r: Ledger)
    ensures id !in l.uploads ==> r == l
    ensures r.uploads.Keys == l.uploads.Keys && r.order == l.order
    ensures forall k :: k in l.uploads && k != id ==> r.uploads[k] == l.uploads[k]
    ensures id in l.uploads ==>
      r.uploads[id] == Completed(l.uploads[id], now) &&
      r.scheduledCleanups == l.scheduledCleanups + (if IsS3(l.uploads[id]) then [id] else [])
  {
    if id !in l.uploads then l
    else
      var u := l.uploads[id];
      Ledger(l.uploads[id := Completed(u, now)], l.order,
             l.scheduledCleanups + (if IsS3(u) then [id] else []))
  }

  /** What a route or hook handler asks of the ledger: nothing, trackUpload or completeUpload. */
  datatype LedgerCall = NoCall | Track(req: TrackRequest) | Complete(id: string)

  function AfterCall(l: Ledger, call: LedgerCall, now: int): Ledger
  {
    match call
    case NoCall => l
    case Track(req) => AfterTrack(l, req, now)
    case Complete(id) => AfterComplete(l, id, now)
  }

  /** The id a ledger call names, if any. */
  function CallId(call: LedgerCall): Option<string>
  {
    match call
    case NoCall => None
    case Track(req) => Some(req.id)
    case Complete(id) => Some(id)
  }

  /**
   * Every ledger call keeps the Map invariant and leaves every entry except
   * the one it names as it was.
   */
  lemma AfterCallKeeps(l: Ledger, call: LedgerCall, now: int)
    requires WellFormed(l)
    ensures WellFormed(AfterCall(l, call, now))
    ensures forall k :: k in l.uploads && Some(k) != CallId(call) ==>
      k in AfterCall(l, call, now).uploads && AfterCall(l, call, now).uploads[k] == l.uploads[k]
    ensures AfterCall(l, call, now).uploads.Keys ==
      l.uploads.Keys + (if call.Track? then {call.req.id} else {})
  {
    if call.Track? && call.req.id !in l.uploads {
      ElemsMembers(l.order);
      DistinctSnoc(l.order, call.req.id);
    }
  }

  /** cleanupOldUploads removes a record exactly when this holds. */
  predicate Stale(u: UploadInfo, now: int, maxAgeMs: int)
  {
    u.isComplete && now - u.lastUpdated > maxAgeMs
  }

  function Survivors(uploads: map<string, UploadInfo>, now: int, maxAgeMs: int): map<string, UploadInfo>
  {
    map k | k in uploads && !Stale(uploads[k], now, maxAgeMs) :: uploads[k]
  }

  /** The keys of `order` whose records survive, in the same order. */
  function KeptKeys(order: seq<string>, uploads: map<string, UploadInfo>, now: int, maxAgeMs: int): (r: seq<string>)
    ensures |r| <= |order|
  {
    if order == [] then []
    else
      var rest := KeptKeys(order[1..], uploads, now, maxAgeMs);
      if order[0] in uploads && Stale(uploads[order[0]], now, maxAgeMs) then rest else [order[0]] + rest
  }

  /** The records of `order`, in order (`Array.from(map.values())`). */
  function ValuesOf(order: seq<string>, uploads: map<string, UploadInfo>): (r: seq<UploadInfo>)
    requires forall k :: k in order ==> k in uploads
    ensures |r| == |order|
    ensures forall i :: 0 <= i < |order| ==> r[i] == uploads[order[i]]
  {
    if order == [] then [] else [uploads[order[0]]] + ValuesOf(order[1..], uploads)
  }

  /** getActiveUploads' filter: the records not yet complete, in order. */
  function Active(vals: seq<UploadInfo>): (r: seq<UploadInfo>)
    ensures forall u :: u in r <==> u in vals && !u.isComplete
    ensures |r| <= |vals|
  {
    if vals == [] then []
    else if vals[0].isComplete then Active(vals[1..])
    else [vals[0]] + Active(vals[1..])
  }

  /** The keys listed in s, as a set. */
  function Elems(s: seq<string>): set<string>
  {
    if s == [] then {} else {s[0]} + Elems(s[1..])
  }

  /** No key is listed twice (a Map's keys are unique). */
  predicate Distinct(s: seq<string>)
  {
    s == [] || (s[0] !in s[1..] && Distinct(s[1..]))
  }

  lemma {:induction false} ElemsMembers(s: seq<string>)
    ensures forall k :: k in Elems(s) <==> k in s
  {
    if s != [] {
      ElemsMembers(s[1..]);
    }
  }

  lemma {:induction false} DistinctAt(s: seq<string>, i: nat)
    requires Distinct(s) && i < |s|
    ensures s[i] !in s[..i]
  {
    if i > 0 {
      DistinctAt(s[1..], i - 1);
      assert s[..i] == [s[0]] + s[1..][..i - 1];
      assert s[i] == s[1..][i - 1];
    }
  }

  lemma {:induction false} DistinctSnoc(s: seq<string>, k: string)
    requires Distinct(s) && k !in s
    ensures Distinct(s + [k]) && Elems(s + [k]) == Elems(s) + {k}
  {
    if s != [] {
      assert (s + [k])[1..] == s[1..] + [k];
      DistinctSnoc(s[1..], k);
    } else {
      assert [k][1..] == [];
    }
  }

  class Tracker {
    /** The Map's entries, and its keys in insertion order. */
    var uploads: map<string, UploadInfo>
    var order: seq<string>
    /** Ids for which completeUpload started the delayed S3 clean-up, oldest first. */
    var scheduledCleanups: seq<string>

    ghost predicate Valid()
      reads this
    {
      Distinct(order) && uploads.Keys == Elems(order)
    }

    /** The fields as one ledger value. */
    function State(): Ledger
      reads this
    {
      Ledger(uploads, order, scheduledCleanups)
    }

    constructor ()
      ensures Valid()
      ensures uploads == map[] && order == [] && scheduledCleanups == []
    {
      uploads := map[];
      order := [];
      scheduledCleanups := [];
    }

    /** getUpload */
    function GetUpload(id: string): (r: Option<UploadInfo>)
      reads this
      ensures r.Some? <==> id in uploads
      ensures r.Some? ==> r.value == uploads[id]
    {
      if id in uploads then Some(uploads[id]) else None
    }

    /** getAllUploads */
    function AllUploads(): (r: seq<UploadInfo>)
      reads this
      requires Valid()
      ensures |r| == |order|
      ensures forall u :: u in r <==> exists k :: k in uploads && uploads[k] == u
    {
      ElemsMembers(order);
      var r := ValuesOf(order, uploads);
      assert forall k :: k in uploads ==> r[IndexOf(order, k)] == uploads[k];
      r
    }

    /** getActiveUploads */
    function ActiveUploads(): (r: seq<UploadInfo>)
      reads this
      requires Valid()
      ensures forall u :: u in r <==> !u.isComplete && exists k :: k in uploads && uploads[k] == u
    {
      Active(AllUploads())
    }

    /** trackUpload: store the new record under req.id; a new id goes last. */
    method TrackUpload(req: TrackRequest, now: int)
      requires Valid()
      modifies this
      ensures Valid()
      ensures uploads == old(uploads)[req.id := Tracked(req, old(GetUpload(req.id)), now)]
      ensures order == if req.id in old(uploads) then old(order) else old(order) + [req.id]
      ensures scheduledCleanups == old(scheduledCleanups)
      ensures State() == AfterTrack(old(State()), req, now)
    {
      var existing := GetUpload(req.id);
      var record := Tracked(req, existing, now);
      if req.id !in uploads {
        ElemsMembers(order);
        DistinctSnoc(order, req.id);
        order := order + [req.id];
      }
      uploads := uploads[req.id := record];
    }

    /**
     * completeUpload: an unknown id changes nothing; a known one is marked
     * complete at full size, and an S3 upload also schedules the clean-up.
     */
    method CompleteUpload(id: string, now: int)
      requires Valid()
      modifies this
      ensures Valid()
      ensures order == old(order)
      ensures id !in old(uploads) ==> uploads == old(uploads) && scheduledCleanups == old(scheduledCleanups)
      ensures id in old(uploads) ==> uploads == old(uploads)[id := Completed(old(uploads)[id], now)]
      ensures id in old(uploads) ==>
        scheduledCleanups == old(scheduledCleanups) + (if IsS3(old(uploads)[id]) then [id] else [])
      ensures State() == AfterComplete(old(State()), id, now)
    {
      var upload := GetUpload(id);
      if upload.Some? {
        uploads := uploads[id := Completed(upload.value, now)];
        if IsS3(upload.value) {
          scheduledCleanups := scheduledCleanups + [id];
        }
      }
    }

    /**
     * cleanupOldUploads: walk the entries in order and delete every complete
     * record older than maxAgeMs; the count of deletions is returned.
     */
    method CleanupOldUploads(maxAgeMs: int, now: int) returns (cleanupCount: nat)
      requires Valid()
      modifies this
      ensures Valid()
      ensures uploads == Survivors(old(uploads), now, maxAgeMs)
      ensures order == KeptKeys(old(order), old(uploads), now, maxAgeMs)
      ensures cleanupCount == |old(order)| - |order|
      ensures scheduledCleanups == old(scheduledCleanups)
    {
      var kept, survivors, n := PruneEntries(order, uploads, now, maxAgeMs);
      order, uploads, cleanupCount := kept, survivors, n;
    }
  }

  /**
   * The walk of cleanupOldUploads over the entries in insertion order: each
   * stale record is deleted as it is visited and counted.
   */
  method PruneEntries(snapshot: seq<string>, original: map<string, UploadInfo>, now: int, maxAgeMs: int)
    returns (o: seq<string>, u: map<string, UploadInfo>, cleanupCount: nat)
    requires Distinct(snapshot) && original.Keys == Elems(snapshot)
    ensures o == KeptKeys(snapshot, original, now, maxAgeMs)
    ensures u == Survivors(original, now, maxAgeMs)
    ensures Distinct(o) && u.Keys == Elems(o)
    ensures cleanupCount == |snapshot| - |o|
  {
    o, u := snapshot, original;
    cleanupCount := 0;
    var i := 0;
    while i < |snapshot|
      invariant 0 <= cleanupCount <= i <= |snapshot|
      invariant o == KeptUpTo(snapshot, i, original, now, maxAgeMs) + snapshot[i..]
      invariant |KeptUpTo(snapshot, i, original, now, maxAgeMs)| == i - cleanupCount
      invariant u == PrunedUpTo(snapshot, i, original, now, maxAgeMs)
    {
      o, u, cleanupCount := VisitEntry(snapshot, original, now, maxAgeMs, i, o, u, cleanupCount);
      i := i + 1;
    }
    PruneDone(original, snapshot, now, maxAgeMs);
  }

  /** One visit of the walk: the entry at i is deleted and counted when stale, kept otherwise. */
  method VisitEntry(snapshot: seq<string>, original: map<string, UploadInfo>, now: int, maxAgeMs: int,
                    i: nat, o: seq<string>, u: map<string, UploadInfo>, cleanupCount: nat)
    returns (o': seq<string>, u': map<string, UploadInfo>, cleanupCount': nat)
    requires Distinct(snapshot) && original.Keys == Elems(snapshot)
    requires cleanupCount <= i < |snapshot|
    requires o == KeptUpTo(snapshot, i, original, now, maxAgeMs) + snapshot[i..]
    requires |KeptUpTo(snapshot, i, original, now, maxAgeMs)| == i - cleanupCount
    requires u == PrunedUpTo(snapshot, i, original, now, maxAgeMs)
    ensures cleanupCount' <= i + 1
    ensures o' == KeptUpTo(snapshot, i + 1, original, now, maxAgeMs) + snapshot[i + 1..]
    ensures |KeptUpTo(snapshot, i + 1, original, now, maxAgeMs)| == i + 1 - cleanupCount'
    ensures u' == PrunedUpTo(snapshot, i + 1, original, now, maxAgeMs)
  {
    ghost var kept := KeptUpTo(snapshot, i, original, now, maxAgeMs);
    var id := o[i - cleanupCount];
    assert id == snapshot[i];
    PrunedUpToHolds(snapshot, i, original, now, maxAgeMs);
    if Stale(u[id], now, maxAgeMs) {
      SpliceOut(kept, snapshot, i);
      o', u', cleanupCount' := o[..i - cleanupCount] + o[i - cleanupCount + 1..], u - {id}, cleanupCount + 1;
    } else {
      SpliceKeep(kept, snapshot, i);
      o', u', cleanupCount' := o, u, cleanupCount;
    }
  }

  /** The map after the first i entries of the walk have been visited. */
  ghost function PrunedUpTo(s: seq<string>, i: nat, original: map<string, UploadInfo>, now: int, maxAgeMs: int): map<string, UploadInfo>
    requires i <= |s|
  {
    if i == 0 then original
    else
      var p := PrunedUpTo(s, i - 1, original, now, maxAgeMs);
      if s[i - 1] in original && Stale(original[s[i - 1]], now, maxAgeMs) then p - {s[i - 1]} else p
  }

  /** The keys kept among the first i entries of the walk. */
  ghost function KeptUpTo(s: seq<string>, i: nat, original: map<string, UploadInfo>, now: int, maxAgeMs: int): seq<string>
    requires i <= |s|
  {
    if i == 0 then []
    else
      KeptUpTo(s, i - 1, original, now, maxAgeMs) +
        (if s[i - 1] in original && Stale(original[s[i - 1]], now, maxAgeMs) then [] else [s[i - 1]])
  }

  lemma {:induction false} PrunedUpToIsPruned(s: seq<string>, i: nat, original: map<string, UploadInfo>, now: int, maxAgeMs: int)
    requires i <= |s|
    ensures PrunedUpTo(s, i, original, now, maxAgeMs) == Pruned(original, s[..i], now, maxAgeMs)
  {
    if i == 0 {
      assert s[..0] == [];
    } else {
      PrunedUpToIsPruned(s, i - 1, original, now, maxAgeMs);
      assert s[..i] == s[..i - 1] + [s[i - 1]];
      var p, q := Pruned(original, s[..i - 1], now, maxAgeMs), Pruned(original, s[..i], now, maxAgeMs);
      if s[i - 1] in original && Stale(original[s[i - 1]], now, maxAgeMs) {
        assert q == p - {s[i - 1]};
      } else {
        assert q == p;
      }
    }
  }

  lemma {:induction false} KeptUpToIsKeptKeys(s: seq<string>, i: nat, original: map<string, UploadInfo>, now: int, maxAgeMs: int)
    requires i <= |s|
    ensures KeptUpTo(s, i, original, now, maxAgeMs) == KeptKeys(s[..i], original, now, maxAgeMs)
  {
    if i == 0 {
      assert s[..0] == [];
    } else {
      KeptUpToIsKeptKeys(s, i - 1, original, now, maxAgeMs);
      assert s[..i] == s[..i - 1] + [s[i - 1]];
      KeptKeysSnoc(s[..i - 1], s[i - 1], original, now, maxAgeMs);
    }
  }

  /** The entry the walk visits next is still in the map, unchanged. */
  lemma PrunedUpToHolds(s: seq<string>, i: nat, original: map<string, UploadInfo>, now: int, maxAgeMs: int)
    requires i < |s| && Distinct(s) && original.Keys == Elems(s)
    ensures s[i] in original && s[i] in PrunedUpTo(s, i, original, now, maxAgeMs)
    ensures PrunedUpTo(s, i, original, now, maxAgeMs)[s[i]] == original[s[i]]
  {
    ElemsMembers(s);
    PrunedUpToIsPruned(s, i, original, now, maxAgeMs);
    DistinctAt(s, i);
  }

  lemma PruneDone(original: map<string, UploadInfo>, snapshot: seq<string>, now: int, maxAgeMs: int)
    requires Distinct(snapshot) && original.Keys == Elems(snapshot)
    ensures PrunedUpTo(snapshot, |snapshot|, original, now, maxAgeMs) == Survivors(original, now, maxAgeMs)
    ensures KeptUpTo(snapshot, |snapshot|, original, now, maxAgeMs) == KeptKeys(snapshot, original, now, maxAgeMs)
    ensures Distinct(KeptKeys(snapshot, original, now, maxAgeMs))
    ensures Survivors(original, now, maxAgeMs).Keys == Elems(KeptKeys(snapshot, original, now, maxAgeMs))
  {
    ElemsMembers(snapshot);
    ElemsMembers(KeptKeys(snapshot, original, now, maxAgeMs));
    assert snapshot[..|snapshot|] == snapshot;
    PrunedUpToIsPruned(snapshot, |snapshot|, original, now, maxAgeMs);
    KeptUpToIsKeptKeys(snapshot, |snapshot|, original, now, maxAgeMs);
    KeptKeysDistinct(snapshot, original, now, maxAgeMs);
    KeptKeysMembers(snapshot, original, now, maxAgeMs);
  }

  lemma SpliceOut<T>(kept: seq<T>, s: seq<T>, i: nat)
    requires i < |s|
    ensures (kept + s[i..])[..|kept|] + (kept + s[i..])[|kept| + 1..] == kept + s[i + 1..]
  {
    assert (kept + s[i..])[..|kept|] == kept;
    assert (kept + s[i..])[|kept| + 1..] == s[i + 1..];
  }

  lemma SpliceKeep<T>(kept: seq<T>, s: seq<T>, i: nat)
    requires i < |s|
    ensures kept + s[i..] == (kept + [s[i]]) + s[i + 1..]
  {
    assert s[i..] == [s[i]] + s[i + 1..];
  }

  /** The map after the entries of `seen` have been visited by the prune. */
  ghost function Pruned(original: map<string, UploadInfo>, seen: seq<string>, now: int, maxAgeMs: int): map<string, UploadInfo>
  {
    map k | k in original && (k in seen ==> !Stale(original[k], now, maxAgeMs)) :: original[k]
  }

  function IndexOf(s: seq<string>, k: string): (i: nat)
    requires k in s
    ensures i < |s| && s[i] == k
  {
    if s[0] == k then 0 else 1 + IndexOf(s[1..], k)
  }

  lemma {:induction false} KeptKeysSnoc(s: seq<string>, k: string, uploads: map<string, UploadInfo>, now: int, maxAgeMs: int)
    ensures KeptKeys(s + [k], uploads, now, maxAgeMs) ==
      KeptKeys(s, uploads, now, maxAgeMs) + (if k in uploads && Stale(uploads[k], now, maxAgeMs) then [] else [k])
  {
    if s != [] {
      assert (s + [k])[1..] == s[1..] + [k];
      KeptKeysSnoc(s[1..], k, uploads, now, maxAgeMs);
    }
  }

  lemma {:induction false} KeptKeysMembers(order: seq<string>, uploads: map<string, UploadInfo>, now: int, maxAgeMs: int)
    ensures forall k :: k in KeptKeys(order, uploads, now, maxAgeMs) <==>
      k in order && (k in uploads ==> !Stale(uploads[k], now, maxAgeMs))
  {
    if order != [] {
      KeptKeysMembers(order[1..], uploads, now, maxAgeMs);
    }
  }

  lemma {:induction false} KeptKeysDistinct(s: seq<string>, uploads: map<string, UploadInfo>, now: int, maxAgeMs: int)
    requires Distinct(s)
    ensures Distinct(KeptKeys(s, uploads, now, maxAgeMs))
  {
    if s != [] {
      KeptKeysDistinct(s[1..], uploads, now, maxAgeMs);
      KeptKeysMembers(s[1..], uploads, now, maxAgeMs);
    }
  }

  // ---------------------------------------------------------------------
  // Properties of the ledger's records

  /**
   * A re-tracked upload keeps the time it was first seen, remembers the
   * offset and time it replaces, and drops back to incomplete unless the
   * caller says otherwise.
   */
  lemma TrackedKeepsHistory(req: TrackRequest, prev: UploadInfo, now: int)
    ensures Tracked(req, Some(prev), now).createdAt == prev.createdAt
    ensures Tracked(req, Some(prev), now).previousOffset == Some(prev.offset)
    ensures Tracked(req, Some(prev), now).previousUpdateTime == Some(prev.lastUpdated)
    ensures req.isComplete.None? ==> !Tracked(req, Some(prev), now).isComplete
    ensures Tracked(req, Some(prev), now).createdAt != req.createdAt ==> prev.createdAt != req.createdAt
  {
  }

  /** A speed is positive exactly when the upload moved forward. */
  lemma SpeedSign(prev: UploadInfo, offset: int, now: int)
    requires now > prev.lastUpdated && offset != prev.offset
    ensures Speed(Some(prev), offset, now).Some?
    ensures Speed(Some(prev), offset, now).value > 0.0 <==> offset > prev.offset
  {
    var r := Speed(Some(prev), offset, now).value;
    var dt := (now - prev.lastUpdated) as real;
    assert r * dt == (offset - prev.offset) as real * 1000.0;
    RealSign(r, dt);
  }

  lemma RealSign(r: real, dt: real)
    requires dt > 0.0
    ensures r > 0.0 <==> r * dt > 0.0
  {
    if r > 0.0 {
      assert r * dt > 0.0;
    } else {
      assert r * dt <= 0.0;
    }
  }

  /** Tracking the same offset twice in a row clears the recorded speed. */
  lemma RepeatedOffsetClearsSpeed(req: TrackRequest, prev: UploadInfo, now: int)
    requires prev.offset == req.offset
    ensures Tracked(req, Some(prev), now).uploadSpeed.None?
  {
  }

  /** A completed record is at full size, complete, and otherwise unchanged. */
  lemma CompletedIsFull(u: UploadInfo, now: int)
    ensures Completed(u, now).offset == Completed(u, now).size == u.size
    ensures Completed(u, now).isComplete && Completed(u, now).completedAt == Some(now)
    ensures Completed(u, now).createdAt == u.createdAt && Completed(u, now).metadata == u.metadata
    ensures Completed(u, now).uploadSpeed == u.uploadSpeed && Completed(u, now).id == u.id
    ensures Completed(Completed(u, now), now) == Completed(u, now)
  {
  }

  /** Pruning never touches an upload that is still in progress. */
  lemma {:induction false} SurvivorsKeepActive(uploads: map<string, UploadInfo>, order: seq<string>, now: int, maxAgeMs: int)
    requires forall k :: k in order ==> k in uploads
    ensures forall k :: k in KeptKeys(order, uploads, now, maxAgeMs) ==> k in Survivors(uploads, now, maxAgeMs)
    ensures Active(ValuesOf(KeptKeys(order, uploads, now, maxAgeMs), Survivors(uploads, now, maxAgeMs))) ==
            Active(ValuesOf(order, uploads))
  {
    if order != [] {
      SurvivorsKeepActive(uploads, order[1..], now, maxAgeMs);
      var rest := KeptKeys(order[1..], uploads, now, maxAgeMs);
      var surv := Survivors(uploads, now, maxAgeMs);
      assert ValuesOf(order, uploads) == [uploads[order[0]]] + ValuesOf(order[1..], uploads);
      if !(order[0] in uploads && Stale(uploads[order[0]], now, maxAgeMs)) {
        assert KeptKeys(order, uploads, now, maxAgeMs) == [order[0]] + rest;
        assert ValuesOf([order[0]] + rest, surv) == [surv[order[0]]] + ValuesOf(rest, surv) by {
          assert ([order[0]] + rest)[1..] == rest;
        }
      }
    }
  }

  /** With the default age a record completed now survives a prune a day later. */
  lemma FreshCompletionSurvivesOneDay(u: UploadInfo, now: int)
    ensures !Stale(Completed(u, now), now + DefaultMaxAgeMs, DefaultMaxAgeMs)
    ensures Stale(Completed(u, now), now + DefaultMaxAgeMs + 1, DefaultMaxAgeMs)
  {
  }
}
