// RtpFrameJitterBuffer: RTP packets grouped into frames by timestamp. The
// 32-bit RTP timestamp is extended by a wrap-around counter, frames are kept
// ordered by the extended timestamp, incomplete frames that precede a
// complete one are discarded, and complete frames leave in timestamp order.
//
// The buffer's frames are modelled as a sequence of (extended timestamp,
// frame) entries kept sorted by key, which is how the ordered map behaves.
// Each method is proved to transform View(), the entries' keys with the
// frames' states, as a pure function of the previous view specifies.

module RtpFrameJitterBuffer {
  import opened Strings
  import opened RtpFrame

  const Two32: nat := 0x1_0000_0000

  /** `GetExtentedTimestamp`: the cycle counter (a `uint32_t`) after the call, and the extended timestamp. */
  function Extend(cycle: u32, last: u32, timestamp: u32): (u32, nat)
  {
    var c: u32 := if timestamp < last && last - timestamp > 0x8000_0000 then (cycle + 1) % Two32 else cycle;
    (c, c * Two32 + timestamp)
  }

  /** The extended timestamp carries the RTP timestamp in its low 32 bits and the cycle above them. */
  lemma ExtendSplits(cycle: u32, last: u32, timestamp: u32)
    ensures var (c, ext) := Extend(cycle, last, timestamp);
      ext % Two32 == timestamp && ext / Two32 == c
    ensures Extend(cycle, last, timestamp).0 != cycle <==> timestamp < last && last - timestamp > 0x8000_0000
  {
  }

  /**
   * Before the cycle counter overflows, the extended timestamp moves forward
   * exactly when the RTP timestamp moved forward or wrapped (went back by
   * more than half the range); a small step back stays a step back.
   */
  lemma ExtendOrder(cycle: u32, last: u32, timestamp: u32)
    requires cycle < Two32 - 1
    ensures var ext := Extend(cycle, last, timestamp).1;
      ext >= cycle * Two32 + last <==> timestamp >= last || last - timestamp > 0x8000_0000
  {
  }

  /** One entry of the buffer as it is seen: its key and the state of its frame. */
  type Slot = (nat, FrameState)

  ghost predicate Sorted(v: seq<Slot>)
  {
    forall i, j :: 0 <= i < j < |v| ==> v[i].0 < v[j].0
  }

  /** A frame is valid and carries the low 32 bits of its key as its RTP timestamp. */
  ghost predicate SlotValid(e: Slot)
  {
    RtpFrame.Valid(e.1) && e.1.timestamp == e.0 % Two32
  }

  /** Keys ascend and every slot is valid. */
  ghost predicate ViewValid(v: seq<Slot>)
  {
    Sorted(v) && forall e :: e in v ==> SlotValid(e)
  }

  function Keys(v: seq<Slot>): set<nat>
  {
    set i | 0 <= i < |v| :: v[i].0
  }

  /** The position `std::map` finds or inserts `key` at: the number of keys below it. */
  function LowerBound(v: seq<Slot>, key: nat): (j: nat)
    ensures j <= |v|
    ensures forall i :: 0 <= i < j ==> v[i].0 < key
    ensures j < |v| ==> v[j].0 >= key
  {
    if v == [] || v[0].0 >= key then 0 else 1 + LowerBound(v[1..], key)
  }

  /** In a sorted view, the lower bound is the only position between the smaller and the larger keys. */
  lemma LowerBoundUnique(v: seq<Slot>, key: nat, j: nat)
    requires Sorted(v) && j <= |v|
    requires forall i :: 0 <= i < j ==> v[i].0 < key
    requires j < |v| ==> v[j].0 >= key
    ensures LowerBound(v, key) == j
  {
  }

  /** `InsertPacket(packet)` on the view: into the frame with that extended timestamp, created if absent. */
  function InsertView(v: seq<Slot>, ext: nat, p: Packet): seq<Slot>
  {
    var j := LowerBound(v, ext);
    if j < |v| && v[j].0 == ext then v[j := (ext, Insert(v[j].1, p).0)]
    else InsertAt(v, j, (ext, Insert(Initial(p.timestamp), p).0))
  }

  /** The entries of v with x put at position j. */
  function InsertAt(v: seq<Slot>, j: nat, x: Slot): (w: seq<Slot>)
    requires j <= |v|
    ensures |w| == |v| + 1 && w[j] == x
    ensures forall i :: 0 <= i < j ==> w[i] == v[i]
    ensures forall i :: j < i < |w| ==> w[i] == v[i - 1]
  {
    v[..j] + [x] + v[j..]
  }

  /** Putting a new key between the smaller and the larger ones keeps the keys sorted. */
  lemma InsertSorted(v: seq<Slot>, j: nat, x: Slot)
    requires Sorted(v) && j <= |v|
    requires forall i :: 0 <= i < j ==> v[i].0 < x.0
    requires j < |v| ==> v[j].0 > x.0
    ensures Sorted(InsertAt(v, j, x))
  {
    var w := InsertAt(v, j, x);
    forall a, b | 0 <= a < b < |w|
      ensures w[a].0 < w[b].0
    {
      if a < j && j < b {
        assert v[a].0 < x.0 && x.0 < v[j].0 <= v[b - 1].0;
      }
    }
  }

  /** Putting an entry in adds just its key and its slot. */
  lemma InsertKeys(v: seq<Slot>, j: nat, x: Slot)
    requires j <= |v|
    ensures Keys(InsertAt(v, j, x)) == Keys(v) + {x.0}
    ensures forall e :: e in InsertAt(v, j, x) ==> e == x || e in v
  {
    var w := InsertAt(v, j, x);
    forall k | k in Keys(w)
      ensures k in Keys(v) + {x.0}
    {
      var i :| 0 <= i < |w| && w[i].0 == k;
      if i > j {
        assert v[i - 1].0 == k;
      }
    }
    forall k | k in Keys(v)
      ensures k in Keys(w)
    {
      var i :| 0 <= i < |v| && v[i].0 == k;
      if i >= j {
        assert w[i + 1].0 == k;
      } else {
        assert w[i].0 == k;
      }
    }
    forall e | e in w
      ensures e == x || e in v
    {
      var i :| 0 <= i < |w| && w[i] == e;
      if i < j {
        assert v[i] == e;
      } else if i > j {
        assert v[i - 1] == e;
      }
    }
  }

  /** Replacing the frame at an existing key keeps keys and order. */
  lemma ReplaceSorted(v: seq<Slot>, j: nat, x: Slot)
    requires Sorted(v) && j < |v| && v[j].0 == x.0
    ensures Sorted(v[j := x]) && Keys(v[j := x]) == Keys(v)
    ensures forall e :: e in v[j := x] ==> e == x || e in v
  {
    var w := v[j := x];
    assert forall i :: 0 <= i < |w| ==> w[i].0 == v[i].0;
    assert Keys(w) == Keys(v) by {
      forall k | k in Keys(v)
        ensures k in Keys(w)
      {
        var i :| 0 <= i < |v| && v[i].0 == k;
        assert w[i].0 == k;
      }
    }
    forall e | e in w
      ensures e == x || e in v
    {
      var i :| 0 <= i < |w| && w[i] == e;
      if i != j {
        assert v[i] == e;
      }
    }
  }

  /**
   * Filing a packet under its extended timestamp keeps the view valid, adds
   * exactly that key, and the frame it reaches never rejects the packet:
   * the frame's RTP timestamp is the key's low 32 bits, which are the
   * packet's.
   */
  lemma InsertViewValid(v: seq<Slot>, ext: nat, p: Packet)
    requires ViewValid(v) && ext % Two32 == p.timestamp
    ensures ViewValid(InsertView(v, ext, p))
    ensures Keys(InsertView(v, ext, p)) == Keys(v) + {ext}
    ensures var j := LowerBound(v, ext);
      if j < |v| && v[j].0 == ext then Insert(v[j].1, p).1 else Insert(Initial(p.timestamp), p).1
  {
    var j := LowerBound(v, ext);
    if j < |v| && v[j].0 == ext {
      var x := (ext, Insert(v[j].1, p).0);
      assert v[j] in v;
      InsertValid(v[j].1, p);
      assert SlotValid(x);
      ReplaceSorted(v, j, x);
    } else {
      var x := (ext, Insert(Initial(p.timestamp), p).0);
      InitialValid(p.timestamp);
      InsertValid(Initial(p.timestamp), p);
      assert SlotValid(x);
      InsertSorted(v, j, x);
      InsertKeys(v, j, x);
    }
  }

  /** Whether the frame would report itself complete now (`IsCompleted()`). */
  predicate Completes(s: FrameState)
  {
    Check(s).completed
  }

  /** The position of the first frame that completes, or |v| when none does. */
  function FirstComplete(v: seq<Slot>): (c: nat)
    ensures c <= |v|
    ensures forall i :: 0 <= i < c ==> !Completes(v[i].1)
    ensures c < |v| ==> Completes(v[c].1)
  {
    if v == [] then 0
    else if Completes(v[0].1) then 0
    else 1 + FirstComplete(v[1..])
  }

  /** The first complete frame is the one preceded only by frames that do not complete. */
  lemma FirstCompleteIs(v: seq<Slot>, c: nat)
    requires c <= |v|
    requires forall i :: 0 <= i < c ==> !Completes(v[i].1)
    requires c < |v| ==> Completes(v[c].1)
    ensures FirstComplete(v) == c
  {
  }

  /** `BurnOutExpiredFrames()`: drop the frames before the first complete one, which `IsCompleted()` marks complete. */
  function BurnOut(v: seq<Slot>): seq<Slot>
  {
    var c := FirstComplete(v);
    if c == |v| then v
    else [(v[c].0, Check(v[c].1))] + v[c + 1..]
  }

  /** Burning out is: check the first complete frame in place, then drop every frame before it. */
  lemma BurnOutAt(v: seq<Slot>, c: nat)
    requires c == FirstComplete(v)
    ensures BurnOut(v) == if c == |v| then v else v[c := (v[c].0, Check(v[c].1))][c..]
  {
    if c < |v| {
      UpdateSuffix(v, c, (v[c].0, Check(v[c].1)));
    }
  }

  /** The suffix from an updated position is the new element followed by the old rest. */
  lemma UpdateSuffix<T>(v: seq<T>, c: nat, x: T)
    requires c < |v|
    ensures v[c := x][c..] == [x] + v[c + 1..]
  {
    var w := v[c := x];
    assert w[c..] == [w[c]] + w[c + 1..];
    assert w[c + 1..] == v[c + 1..];
  }

  /**
   * When no frame completes, burning out changes nothing; otherwise exactly
   * the frames before the first complete frame are gone, none of which
   * could complete, and the new front frame is complete.
   */
  lemma BurnOutMeans(v: seq<Slot>)
    ensures (forall i :: 0 <= i < |v| ==> !Completes(v[i].1)) ==> BurnOut(v) == v
    ensures forall c :: 0 <= c < |v| && Completes(v[c].1) && (forall i :: 0 <= i < c ==> !Completes(v[i].1)) ==>
      |BurnOut(v)| == |v| - c && BurnOut(v)[1..] == v[c + 1..] &&
      BurnOut(v)[0].0 == v[c].0 && BurnOut(v)[0].1.completed &&
      BurnOut(v)[0].1 == v[c].1.(completed := true)
  {
    var c := FirstComplete(v);
    forall d | 0 <= d < |v| && Completes(v[d].1) && (forall i :: 0 <= i < d ==> !Completes(v[i].1))
      ensures d == c
    {
    }
    if c < |v| {
      CheckMeans(v[c].1);
    }
  }

  /** Dropping a prefix and replacing the new front frame keeps keys sorted and only ever removes keys. */
  lemma DropSorted(v: seq<Slot>, c: nat, x: Slot)
    requires Sorted(v) && c < |v| && x.0 == v[c].0
    ensures Sorted([x] + v[c + 1..]) && Keys([x] + v[c + 1..]) <= Keys(v)
    ensures forall e :: e in [x] + v[c + 1..] ==> e == x || e in v
  {
    var w := [x] + v[c + 1..];
    assert forall i :: 0 <= i < |w| ==> w[i].0 == v[c + i].0;
    forall k | k in Keys(w)
      ensures k in Keys(v)
    {
      var i :| 0 <= i < |w| && w[i].0 == k;
      assert v[c + i].0 == k;
    }
  }

  /** Burning out keeps the view valid and only ever removes keys. */
  lemma BurnOutValid(v: seq<Slot>)
    requires ViewValid(v)
    ensures ViewValid(BurnOut(v))
    ensures Keys(BurnOut(v)) <= Keys(v)
  {
    var c := FirstComplete(v);
    if c < |v| {
      assert v[c] in v;
      CheckValid(v[c].1);
      var x := (v[c].0, Check(v[c].1));
      assert SlotValid(x);
      DropSorted(v, c, x);
      var w := [x] + v[c + 1..];
      assert w == BurnOut(v);
      forall e | e in w
        ensures SlotValid(e)
      {
        if e != x {
          assert e in v;
        }
      }
    }
  }

  /** `HasAvailableFrame()`: burn out, then ask the front frame whether it is complete. */
  function Available(v: seq<Slot>): (seq<Slot>, bool)
  {
    var b := BurnOut(v);
    if b == [] then (b, false)
    else (b[0 := (b[0].0, Check(b[0].1))], Completes(b[0].1))
  }

  /** The front-frame check keeps the view valid. */
  lemma AvailableValid(v: seq<Slot>)
    requires ViewValid(v)
    ensures ViewValid(Available(v).0)
  {
    BurnOutValid(v);
    var b := BurnOut(v);
    if b != [] {
      assert b[0] in b;
      CheckValid(b[0].1);
      ReplaceSorted(b, 0, (b[0].0, Check(b[0].1)));
    }
  }

  /** `PopAvailableFrame()`: the remaining view and the frame handed out, if any. */
  function Pop(v: seq<Slot>): (seq<Slot>, Option<Slot>)
  {
    var (b, ok) := Available(v);
    if !ok then (b, None) else (b[1..], Some(b[0]))
  }

  /**
   * A frame is available exactly when some frame completes; the one handed
   * out is then the first such frame (marked complete), and the buffer keeps
   * only the frames after it. Otherwise nothing at all changes.
   */
  lemma PopMeans(v: seq<Slot>)
    ensures Available(v).1 <==> exists i :: 0 <= i < |v| && Completes(v[i].1)
    ensures Pop(v).1.Some? <==> Available(v).1
    ensures Pop(v).1.None? ==> Pop(v).0 == v
    ensures var c := FirstComplete(v);
      Pop(v).1.Some? ==>
        c < |v| && Pop(v).1.value == (v[c].0, v[c].1.(completed := true)) && Pop(v).0 == v[c + 1..]
  {
    var c := FirstComplete(v);
    if c < |v| {
      AvailableSome(v);
      assert Completes(v[c].1);
    } else {
      AvailableNone(v);
    }
  }

  /** With no frame that completes, asking for an available frame changes nothing. */
  lemma AvailableNone(v: seq<Slot>)
    requires FirstComplete(v) == |v|
    ensures Available(v) == (v, false)
  {
    if v != [] {
      CheckMeans(v[0].1);
      assert v[0 := (v[0].0, Check(v[0].1))] == v;
    }
  }

  /** With a frame that completes, the first such frame (marked complete) is at the front and available. */
  lemma AvailableSome(v: seq<Slot>)
    requires FirstComplete(v) < |v|
    ensures var c := FirstComplete(v);
      Available(v) == ([(v[c].0, v[c].1.(completed := true))] + v[c + 1..], true)
  {
    BurnOutSome(v);
    var c := FirstComplete(v);
    FrontSettled([(v[c].0, v[c].1.(completed := true))] + v[c + 1..]);
  }

  lemma BurnOutSome(v: seq<Slot>)
    requires FirstComplete(v) < |v|
    ensures var c := FirstComplete(v);
      BurnOut(v) == [(v[c].0, v[c].1.(completed := true))] + v[c + 1..]
  {
    CheckComplete(v[FirstComplete(v)].1);
  }

  /** A frame that completes is only marked complete by the check. */
  lemma CheckComplete(s: FrameState)
    requires Completes(s)
    ensures Check(s) == s.(completed := true)
  {
    CheckMeans(s);
  }

  /** Checking a front frame that is already complete changes nothing. */
  lemma FrontSettled(b: seq<Slot>)
    requires b != [] && b[0].1.completed
    ensures b[0 := (b[0].0, Check(b[0].1))] == b && Completes(b[0].1)
  {
  }

  /** Frames leave in order: the frame handed out has a smaller key than every frame left behind. */
  lemma PopInOrder(v: seq<Slot>)
    requires Sorted(v)
    ensures Pop(v).1.Some? ==> forall i :: 0 <= i < |Pop(v).0| ==> Pop(v).1.value.0 < Pop(v).0[i].0
  {
    PopMeans(v);
    var c := FirstComplete(v);
    if Pop(v).1.Some? {
      forall i | 0 <= i < |Pop(v).0|
        ensures Pop(v).1.value.0 < Pop(v).0[i].0
      {
        assert Pop(v).0[i] == v[c + 1 + i];
      }
    }
  }

  /**
   * `RtpFrameJitterBuffer`. The entries of `_rtp_frames` are held as
   * (extended timestamp, frame state) slots in key order; a frame's own
   * operations act on its slot through the transitions the class
   * RtpFrame.Frame is proved to perform.
   */
  class JitterBuffer {
    var lastTimestamp: u32
    var timestampCycle: u32
    var frames: seq<Slot>

    ghost predicate Valid()
      reads this
    {
      ViewValid(frames)
    }

    constructor()
      ensures Valid() && frames == [] && lastTimestamp == 0 && timestampCycle == 0
    {
      lastTimestamp := 0;
      timestampCycle := 0;
      frames := [];
    }

    method GetExtendedTimestamp(timestamp: u32) returns (ext: nat)
      modifies this
      ensures (timestampCycle, ext) == Extend(old(timestampCycle), old(lastTimestamp), timestamp)
      ensures lastTimestamp == timestamp && frames == old(frames)
    {
      if timestamp < lastTimestamp && lastTimestamp - timestamp > 0x8000_0000 {
        timestampCycle := (timestampCycle + 1) % Two32;
      }
      lastTimestamp := timestamp;
      return timestampCycle * Two32 + timestamp;
    }

    /** The search `std::map` does for `key`. */
    method Find(key: nat) returns (j: nat)
      requires Valid()
      ensures j == LowerBound(frames, key)
    {
      j := 0;
      while j < |frames| && frames[j].0 < key
        invariant j <= |frames|
        invariant forall i :: 0 <= i < j ==> frames[i].0 < key
      {
        j := j + 1;
      }
      LowerBoundUnique(frames, key, j);
    }

    method InsertPacket(p: Packet) returns (ok: bool)
      requires Valid()
      modifies this
      ensures Valid() && ok
      ensures (timestampCycle, lastTimestamp) == (Extend(old(timestampCycle), old(lastTimestamp), p.timestamp).0, p.timestamp)
      ensures frames == InsertView(old(frames), Extend(old(timestampCycle), old(lastTimestamp), p.timestamp).1, p)
    {
      var ext := GetExtendedTimestamp(p.timestamp);
      ExtendSplits(old(timestampCycle), old(lastTimestamp), p.timestamp);
      InsertViewValid(frames, ext, p);
      var j := Find(ext);
      if j < |frames| && frames[j].0 == ext {
        var (frame, _) := Insert(frames[j].1, p);
        frames := frames[j := (ext, frame)];
      } else {
        var (frame, _) := Insert(Initial(p.timestamp), p);
        frames := InsertAt(frames, j, (ext, frame));
      }
      return true;
    }

    /** The search loop of `BurnOutExpiredFrames`: ask each frame in turn whether it is complete. */
    method FindFirstCompleted() returns (c: nat)
      modifies this
      ensures c == FirstComplete(old(frames))
      ensures frames == if c == |old(frames)| then old(frames) else old(frames)[c := (old(frames)[c].0, Check(old(frames)[c].1))]
      ensures lastTimestamp == old(lastTimestamp) && timestampCycle == old(timestampCycle)
    {
      c := 0;
      while c < |frames|
        invariant c <= |frames| && frames == old(frames)
        invariant forall i :: 0 <= i < c ==> !Completes(frames[i].1)
        invariant lastTimestamp == old(lastTimestamp) && timestampCycle == old(timestampCycle)
      {
        var checked := Check(frames[c].1);
        CheckMeans(frames[c].1);
        frames := frames[c := (frames[c].0, checked)];
        if checked.completed {
          break;
        }
        c := c + 1;
      }
      FirstCompleteIs(old(frames), c);
    }

    /** The erase loop of `BurnOutExpiredFrames`: remove the first `count` frames one by one. */
    method EraseFront(count: nat)
      requires count <= |frames|
      modifies this
      ensures frames == old(frames)[count..]
      ensures lastTimestamp == old(lastTimestamp) && timestampCycle == old(timestampCycle)
    {
      var removed := 0;
      while removed < count
        invariant removed <= count && frames == old(frames)[removed..]
        invariant lastTimestamp == old(lastTimestamp) && timestampCycle == old(timestampCycle)
      {
        frames := frames[1..];
        removed := removed + 1;
      }
    }

    method BurnOutExpiredFrames()
      requires Valid()
      modifies this
      ensures Valid() && frames == BurnOut(old(frames))
      ensures lastTimestamp == old(lastTimestamp) && timestampCycle == old(timestampCycle)
    {
      BurnOutValid(frames);
      BurnOutAt(frames, FirstComplete(frames));
      var c := FindFirstCompleted();
      if c == 0 || c == |frames| {
        return;
      }
      EraseFront(c);
    }

    method HasAvailableFrame() returns (r: bool)
      requires Valid()
      modifies this
      ensures Valid() && (frames, r) == Available(old(frames))
      ensures lastTimestamp == old(lastTimestamp) && timestampCycle == old(timestampCycle)
    {
      BurnOutExpiredFrames();
      if |frames| == 0 {
        return false;
      }
      var first := Check(frames[0].1);
      frames := frames[0 := (frames[0].0, first)];
      AvailableValid(old(frames));
      return first.completed;
    }

    method PopAvailableFrame() returns (r: Option<Slot>)
      requires Valid()
      modifies this
      ensures Valid() && (frames, r) == Pop(old(frames))
      ensures lastTimestamp == old(lastTimestamp) && timestampCycle == old(timestampCycle)
    {
      var ok := HasAvailableFrame();
      if !ok {
        return None;
      }
      r := Some(frames[0]);
      frames := frames[1..];
    }
  }
}
