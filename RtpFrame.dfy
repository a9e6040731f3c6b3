// RtpFrame: the RTP packets (section 5.1 of RFC 3550) of one video frame,
// that is, of one RTP timestamp. Packets are filed under an "order number"
// derived from their 16-bit sequence number relative to the frame's first
// packet, so that a frame spanning the 65535 -> 0 wrap still sorts. The frame
// is complete once a marker packet has arrived and the order numbers from the
// smallest to the largest are all present.
//
// The state of a frame is the value FrameState; each method of the class
// Frame is proved to perform the matching transition function on it.

module RtpFrame {
  import opened Strings
  import opened Bytes

  type u16 = x: nat | x < 0x1_0000
  type u32 = x: nat | x < 0x1_0000_0000

  /** The fields of an RTP packet this code reads. */
  datatype Packet = Packet(timestamp: u32, sequenceNumber: u16, marker: bool, payload: seq<byte>)

  /** `std::numeric_limits<uint16_t>::max() / 2`: the order number of a frame's first packet. */
  const BaseOrder: u16 := 0xFFFF / 2

  /** The fields of an RtpFrame, with their defaults from the class declaration. */
  datatype FrameState = FrameState(
    timestamp: u32,
    markerSequenceNumber: nat,
    marked: bool,
    completed: bool,
    firstSequenceNumber: u16,
    firstPacket: bool,
    baseOrderNumber: u16,
    currOrderNumber: u16,
    minOrderNumber: u16,
    maxOrderNumber: u16,
    packets: map<u16, Packet>)

  /** `RtpFrame(timestamp)`. */
  function Initial(timestamp: u32): FrameState
  {
    FrameState(timestamp, 0, false, false, 0, true, 0, 0, 0xFFFF, 0, map[])
  }

  /**
   * The four branches of `GetOrderNumber` after the first packet; every
   * `uint16_t` result (a gap, the returned order) is taken modulo 2^16.
   */
  function OrderNumber(first: u16, base: u16, sn: u16): u16
  {
    if sn > first then
      if sn - first > 0xFFFF / 2 then
        var gap := (0xFFFF - sn + first + 1) % 0x1_0000;
        (base - gap) % 0x1_0000
      else
        (base + (sn - first)) % 0x1_0000
    else
      if first - sn > 0xFFFF / 2 then
        var gap := (0xFFFF - first + sn + 1) % 0x1_0000;
        (base + gap) % 0x1_0000
      else
        (base - (first - sn)) % 0x1_0000
  }

  /** All four branches agree: the order number is `(32767 + sn - first) mod 2^16`. */
  lemma OrderNumberUniform(first: u16, sn: u16)
    ensures OrderNumber(first, BaseOrder, sn) == (BaseOrder + sn - first) % 0x1_0000
  {
    var d := sn - first;
    if sn > first && d > 0xFFFF / 2 {
      assert (0xFFFF - sn + first + 1) % 0x1_0000 == 0x1_0000 - d;
      assert BaseOrder - (0x1_0000 - d) == BaseOrder + d - 0x1_0000;
    } else if sn <= first && -d > 0xFFFF / 2 {
      assert (0xFFFF - first + sn + 1) % 0x1_0000 == 0x1_0000 + d;
      assert BaseOrder + (0x1_0000 + d) == BaseOrder + d + 0x1_0000;
    }
  }

  /** Distinct sequence numbers get distinct order numbers in the same frame. */
  lemma OrderNumberInjective(first: u16, a: u16, b: u16)
    requires a != b
    ensures OrderNumber(first, BaseOrder, a) != OrderNumber(first, BaseOrder, b)
  {
    OrderNumberUniform(first, a);
    OrderNumberUniform(first, b);
  }

  /** `GetOrderNumber(sequenceNumber)`: the new state and the order number. */
  function AssignOrder(s: FrameState, sn: u16): (FrameState, u16)
  {
    if s.firstPacket then
      (s.(firstPacket := false, firstSequenceNumber := sn, baseOrderNumber := BaseOrder), BaseOrder)
    else
      (s, OrderNumber(s.firstSequenceNumber, s.baseOrderNumber, sn))
  }

  /** `_max_order_number - _min_order_number + 1` as the `uint16_t` it is stored in. */
  function Need(s: FrameState): u16
  {
    (s.maxOrderNumber - s.minOrderNumber + 1) % 0x1_0000
  }

  /** `CheckCompleted()` (and `IsCompleted()`, which does the same): marks the frame complete when the count fits. */
  function Check(s: FrameState): FrameState
  {
    if s.completed then s
    else if !s.marked then s
    else if Need(s) == |s.packets| then s.(completed := true)
    else s
  }

  /** After a check the frame is complete iff it was, or it is marked and the packet count fills min..max. */
  lemma CheckMeans(s: FrameState)
    ensures Check(s).completed <==> s.completed || (s.marked && Need(s) == |s.packets|)
    ensures Check(s) == s.(completed := Check(s).completed)
  {
  }

  function Min(a: u16, b: u16): u16 { if a < b then a else b }
  function Max(a: u16, b: u16): u16 { if a < b then b else a }

  /** `InsertPacket(packet)`: the new state and whether the packet was accepted. */
  function Insert(s: FrameState, p: Packet): (FrameState, bool)
  {
    if p.timestamp != s.timestamp then (s, false)
    else
      var (s1, order) := AssignOrder(s, p.sequenceNumber);
      var s2 := s1.(packets := if order in s1.packets then s1.packets else s1.packets[order := p],
                    minOrderNumber := Min(s1.minOrderNumber, order),
                    maxOrderNumber := Max(s1.maxOrderNumber, order));
      var s3 := if p.marker then s2.(marked := true, markerSequenceNumber := p.sequenceNumber) else s2;
      (if s3.marked then Check(s3) else s3, true)
  }

  /** The order number Insert files a packet under. */
  function OrderOf(s: FrameState, p: Packet): u16
  {
    AssignOrder(s, p.sequenceNumber).1
  }

  /**
   * What holds between operations: the first-packet flag tells whether any
   * packet is stored, every stored packet carries the frame's timestamp,
   * min and max are the smallest and largest order numbers, and a completed
   * frame is marked.
   */
  ghost predicate Valid(s: FrameState)
  {
    s.firstPacket == (s.packets == map[]) &&
    (forall k :: k in s.packets ==> s.packets[k].timestamp == s.timestamp) &&
    (s.packets == map[] ==> s.minOrderNumber == 0xFFFF && s.maxOrderNumber == 0 && !s.marked) &&
    (s.packets != map[] ==>
      s.minOrderNumber in s.packets && s.maxOrderNumber in s.packets && s.baseOrderNumber == BaseOrder &&
      forall k :: k in s.packets ==> s.minOrderNumber <= k <= s.maxOrderNumber) &&
    (s.completed ==> s.marked)
  }

  lemma InitialValid(timestamp: u32)
    ensures Valid(Initial(timestamp))
  {
  }

  lemma CheckValid(s: FrameState)
    requires Valid(s)
    ensures Valid(Check(s))
  {
  }

  /** Inserting keeps the frame valid. */
  lemma InsertValid(s: FrameState, p: Packet)
    requires Valid(s)
    ensures Valid(Insert(s, p).0)
  {
    if p.timestamp == s.timestamp {
      var (s1, order) := AssignOrder(s, p.sequenceNumber);
      var s2 := s1.(packets := if order in s1.packets then s1.packets else s1.packets[order := p],
                    minOrderNumber := Min(s1.minOrderNumber, order),
                    maxOrderNumber := Max(s1.maxOrderNumber, order));
      assert Valid(s2);
    }
  }

  /** A packet with another timestamp is rejected and leaves the frame as it was. */
  lemma InsertRejects(s: FrameState, p: Packet)
    ensures Insert(s, p).1 <==> p.timestamp == s.timestamp
    ensures p.timestamp != s.timestamp ==> Insert(s, p).0 == s
  {
  }

  /** The first packet of a frame gets order number 32767 and fixes the reference sequence number. */
  lemma InsertFirst(s: FrameState, p: Packet)
    requires Valid(s) && s.firstPacket && p.timestamp == s.timestamp
    ensures Insert(s, p).0.packets == map[BaseOrder := p]
    ensures Insert(s, p).0.firstSequenceNumber == p.sequenceNumber && !Insert(s, p).0.firstPacket
  {
  }

  /** A later packet is filed under `(32767 + sn - first) mod 2^16`; a taken order number keeps its first packet. */
  lemma InsertLater(s: FrameState, p: Packet)
    requires Valid(s) && !s.firstPacket && p.timestamp == s.timestamp
    ensures OrderOf(s, p) == (BaseOrder + p.sequenceNumber - s.firstSequenceNumber) % 0x1_0000
    ensures OrderOf(s, p) in s.packets ==> Insert(s, p).0.packets == s.packets
    ensures OrderOf(s, p) !in s.packets ==> Insert(s, p).0.packets == s.packets[OrderOf(s, p) := p]
  {
    OrderNumberUniform(s.firstSequenceNumber, p.sequenceNumber);
  }

  /** Once completed, a frame stays completed, whatever is inserted or checked. */
  lemma CompletedStays(s: FrameState, p: Packet)
    requires s.completed
    ensures Insert(s, p).0.completed && Check(s).completed
  {
  }

  /** An accepted packet's frame is complete afterwards iff it was, or it is marked and the count fills min..max. */
  lemma InsertCompletes(s: FrameState, p: Packet)
    requires p.timestamp == s.timestamp
    ensures var t := Insert(s, p).0;
      t.completed <==> s.completed || (t.marked && Need(t) == |t.packets|)
  {
  }

  /** The integers a..b. */
  function Interval(a: nat, b: nat): (r: set<nat>)
    ensures forall k :: k in r <==> a <= k <= b
    ensures a <= b + 1 ==> |r| == b + 1 - a
    decreases b + 1 - a
  {
    if a > b then {} else {a} + Interval(a + 1, b)
  }

  lemma {:induction false} SubsetSize<T>(x: set<T>, y: set<T>)
    requires x <= y
    ensures |x| <= |y|
    ensures |x| == |y| ==> x == y
    decreases |y|
  {
    if y != {} {
      var e :| e in y;
      SubsetSize(x - {e}, y - {e});
      assert |y - {e}| == |y| - 1;
      if e in x {
        assert |x - {e}| == |x| - 1;
        assert x == (x - {e}) + {e} && y == (y - {e}) + {e};
      } else {
        assert x - {e} == x;
      }
    }
  }

  /**
   * When the completion condition holds, the order numbers are exactly
   * min..max: the count cannot fill the range while one is missing.
   */
  lemma CompleteIsContiguous(s: FrameState)
    requires Valid(s) && s.packets != map[] && Need(s) == |s.packets|
    ensures forall k: u16 :: k in s.packets <==> s.minOrderNumber <= k <= s.maxOrderNumber
  {
    var lo, hi := s.minOrderNumber, s.maxOrderNumber;
    var keys: set<nat> := s.packets.Keys;
    assert keys <= Interval(lo, hi);
    SubsetSize(keys, Interval(lo, hi));
  }

  /** A lookup in the packet table. */
  function Lookup(packets: map<u16, Packet>, order: u16): Option<Packet>
  {
    if order in packets then Some(packets[order]) else None
  }

  /** `GetFirstRtpPacket()`: nothing unless completed; else restart at the minimum order number. */
  function First(s: FrameState): (FrameState, Option<Packet>)
  {
    var c := Check(s);
    if !c.completed then (c, None)
    else (c.(currOrderNumber := c.minOrderNumber), Lookup(c.packets, c.minOrderNumber))
  }

  /** `GetNextRtpPacket()`: nothing unless completed; else step to the next order number (wrapping at 2^16). */
  function Next(s: FrameState): (FrameState, Option<Packet>)
  {
    var c := Check(s);
    if !c.completed then (c, None)
    else
      var n: u16 := (c.currOrderNumber + 1) % 0x1_0000;
      (c.(currOrderNumber := n), Lookup(c.packets, n))
  }

  /** Neither read of a packet returns one from a frame that is not complete. */
  lemma ReadsNeedCompletion(s: FrameState)
    ensures !Check(s).completed ==> First(s).1 == None && Next(s).1 == None
    ensures First(s).0.packets == s.packets && Next(s).0.packets == s.packets
  {
  }

  /** The first read of a complete frame returns the packet with the smallest order number. */
  lemma FirstOfComplete(s: FrameState)
    requires Valid(s) && s.packets != map[] && Check(s).completed
    ensures First(s).1 == Some(s.packets[s.minOrderNumber])
    ensures First(s).0.currOrderNumber == s.minOrderNumber
  {
  }

  /**
   * Reading on from order number min + j of a complete, contiguous frame
   * returns the packet at min + j + 1 while there is one, and nothing after
   * the maximum.
   */
  lemma NextOfComplete(s: FrameState)
    requires Valid(s) && s.packets != map[] && s.completed && Need(s) == |s.packets|
    requires s.minOrderNumber <= s.currOrderNumber <= s.maxOrderNumber
    ensures s.currOrderNumber < s.maxOrderNumber ==>
      Next(s).1 == Lookup(s.packets, s.currOrderNumber + 1) && Next(s).1.Some? &&
      Next(s).0.currOrderNumber == s.currOrderNumber + 1
    ensures s.currOrderNumber == s.maxOrderNumber ==> Next(s).1 == None
  {
    CompleteIsContiguous(s);
  }

  /** `RtpFrame`: the fields of FrameState, updated in place. */
  class Frame {
    const timestamp: u32
    var markerSequenceNumber: nat
    var marked: bool
    var completed: bool
    var firstSequenceNumber: u16
    var firstPacket: bool
    var baseOrderNumber: u16
    var currOrderNumber: u16
    var minOrderNumber: u16
    var maxOrderNumber: u16
    var packets: map<u16, Packet>

    function Snapshot(): FrameState
      reads this
    {
      FrameState(timestamp, markerSequenceNumber, marked, completed, firstSequenceNumber, firstPacket,
                 baseOrderNumber, currOrderNumber, minOrderNumber, maxOrderNumber, packets)
    }

    constructor(timestamp: u32)
      ensures Snapshot() == Initial(timestamp)
    {
      this.timestamp := timestamp;
      markerSequenceNumber := 0;
      marked := false;
      completed := false;
      firstSequenceNumber := 0;
      firstPacket := true;
      baseOrderNumber := 0;
      currOrderNumber := 0;
      minOrderNumber := 0xFFFF;
      maxOrderNumber := 0;
      packets := map[];
    }

    method GetOrderNumber(sn: u16) returns (order: u16)
      modifies this
      ensures (Snapshot(), order) == AssignOrder(old(Snapshot()), sn)
    {
      if firstPacket {
        firstPacket := false;
        firstSequenceNumber := sn;
        baseOrderNumber := 0xFFFF / 2;
        return baseOrderNumber;
      }
      if sn > firstSequenceNumber {
        if sn - firstSequenceNumber > 0xFFFF / 2 {
          var gap: u16 := (0xFFFF - sn + firstSequenceNumber + 1) % 0x1_0000;
          return (baseOrderNumber - gap) % 0x1_0000;
        } else {
          return (baseOrderNumber + (sn - firstSequenceNumber)) % 0x1_0000;
        }
      } else {
        if firstSequenceNumber - sn > 0xFFFF / 2 {
          var gap: u16 := (0xFFFF - firstSequenceNumber + sn + 1) % 0x1_0000;
          return (baseOrderNumber + gap) % 0x1_0000;
        } else {
          return (baseOrderNumber - (firstSequenceNumber - sn)) % 0x1_0000;
        }
      }
    }

    method CheckCompleted() returns (r: bool)
      modifies this
      ensures Snapshot() == Check(old(Snapshot())) && r == completed
    {
      if completed {
        return true;
      }
      if !marked {
        return false;
      }
      var needNumberOfPackets: u16 := (maxOrderNumber - minOrderNumber + 1) % 0x1_0000;
      if needNumberOfPackets == |packets| {
        completed := true;
      }
      return completed;
    }

    method IsCompleted() returns (r: bool)
      modifies this
      ensures Snapshot() == Check(old(Snapshot())) && r == completed
    {
      if completed {
        return true;
      }
      if marked {
        r := CheckCompleted();
        return;
      }
      return false;
    }

    predicate IsMarked()
      reads this
    {
      marked
    }

    method InsertPacket(p: Packet) returns (ok: bool)
      modifies this
      ensures (Snapshot(), ok) == Insert(old(Snapshot()), p)
    {
      if p.timestamp != timestamp {
        return false;
      }
      var order := GetOrderNumber(p.sequenceNumber);
      if order !in packets {
        packets := packets[order := p];
      }
      minOrderNumber := Min(minOrderNumber, order);
      maxOrderNumber := Max(maxOrderNumber, order);
      if p.marker {
        marked := true;
        markerSequenceNumber := p.sequenceNumber;
      }
      if marked {
        var _ := CheckCompleted();
      }
      return true;
    }

    method GetFirstRtpPacket() returns (r: Option<Packet>)
      modifies this
      ensures (Snapshot(), r) == First(old(Snapshot()))
    {
      var done := IsCompleted();
      if !done {
        return None;
      }
      currOrderNumber := minOrderNumber;
      if currOrderNumber !in packets {
        return None;
      }
      return Some(packets[currOrderNumber]);
    }

    method GetNextRtpPacket() returns (r: Option<Packet>)
      modifies this
      ensures (Snapshot(), r) == Next(old(Snapshot()))
    {
      var done := IsCompleted();
      if !done {
        return None;
      }
      currOrderNumber := (currOrderNumber + 1) % 0x1_0000;
      if currOrderNumber !in packets {
        return None;
      }
      return Some(packets[currOrderNumber]);
    }
  }
}
