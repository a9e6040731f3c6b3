// NalStreamConverter: conversion between the two carriages of H.264/H.265
// NAL units. The Annex B byte stream (Annex B of ITU-T H.264) puts a start
// code `00 00 00 01` (or `00 00 01`) before each NAL unit; the form of
// ISO/IEC 14496-15 ("avcC"/"hvcC", here "xvcc") puts a 4-byte big-endian
// length before each NAL unit.

module NalStreamConverter {
  import opened Strings
  import opened Bytes

  /** `START_CODE`. */
  const StartCode: seq<byte> := [0x00, 0x00, 0x00, 0x01]

  /** Each NAL unit preceded by a 4-byte start code. */
  function AnnexB(nals: seq<seq<byte>>): seq<byte>
  {
    if nals == [] then [] else StartCode + nals[0] + AnnexB(nals[1..])
  }

  /** The low `count` octets of v, most significant first. */
  function Octets(v: nat, count: nat): (r: seq<byte>)
    ensures |r| == count
  {
    if count == 0 then [] else Octets(v / 0x100, count - 1) + [v % 0x100]
  }

  /** Below 2^32, the low four octets are the big-endian 32-bit encoding. */
  lemma OctetsAre(v: nat)
    requires v < Two32
    ensures Octets(v, 4) == BigEndian32(v)
  {
    var a := v / 0x100;
    var b := a / 0x100;
    var c := b / 0x100;
    assert b == v / 0x1_0000;
    assert c == v / 0x100_0000;
    assert Octets(v, 4) == Octets(a, 3) + [v % 0x100];
    assert Octets(a, 3) == Octets(b, 2) + [a % 0x100];
    assert Octets(b, 2) == Octets(c, 1) + [b % 0x100];
    assert Octets(c, 1) == [c % 0x100];
  }

  /**
   * `WriteBE32(length)` then the bytes: the length is written as its low
   * four octets, that is modulo 2^32, as the 32-bit write does.
   */
  function LengthUnit(nal: seq<byte>): seq<byte>
  {
    Octets(|nal|, 4) + nal
  }

  /** Each NAL unit preceded by its 4-byte big-endian length. */
  function LengthPrefixed(nals: seq<seq<byte>>): seq<byte>
  {
    if nals == [] then [] else LengthUnit(nals[0]) + LengthPrefixed(nals[1..])
  }

  /** Writing one more unit appends its length-prefixed form. */
  lemma {:induction false} LengthPrefixedSnoc(nals: seq<seq<byte>>, nal: seq<byte>)
    ensures LengthPrefixed(nals + [nal]) == LengthPrefixed(nals) + LengthUnit(nal)
    decreases |nals|
  {
    if nals == [] {
      assert [] + [nal] == [nal] && [nal][1..] == [];
    } else {
      assert (nals + [nal])[1..] == nals[1..] + [nal];
      LengthPrefixedSnoc(nals[1..], nal);
    }
  }

  /**
   * The NAL units of a length-prefixed buffer, or None when fewer than four
   * bytes remain where a length is due or a length exceeds what remains.
   */
  function ParseXvcc(data: seq<byte>): Option<seq<seq<byte>>>
    decreases |data|
  {
    if |data| == 0 then Some([])
    else if |data| < 4 then None
    else
      var n := ReadBigEndian32(data[..4]);
      if |data| - 4 < n then None
      else match ParseXvcc(data[4 + n..])
        case None => None
        case Some(rest) => Some([data[4..4 + n]] + rest)
  }

  /** `ConvertXvccToAnnexb`: the Annex B stream of the parsed NAL units, or None. */
  function XvccToAnnexB(data: seq<byte>): Option<seq<byte>>
  {
    match ParseXvcc(data)
    case None => None
    case Some(nals) => Some(AnnexB(nals))
  }

  /** One step of the parse: the first unit in front of the parse of what follows it. */
  lemma ParseStep(d: seq<byte>)
    requires |d| >= 4 && ReadBigEndian32(d[..4]) <= |d| - 4
    ensures var n := ReadBigEndian32(d[..4]);
      ParseXvcc(d) == Prepend([d[4..4 + n]], ParseXvcc(d[4 + n..]))
  {
  }

  /** The first unit of a buffer, written back with its length, is the buffer's first bytes. */
  lemma FirstUnitBytes(data: seq<byte>)
    requires |data| >= 4 && ReadBigEndian32(data[..4]) <= |data| - 4
    ensures var n := ReadBigEndian32(data[..4]);
      LengthUnit(data[4..4 + n]) == data[..4 + n]
  {
    var n := ReadBigEndian32(data[..4]);
    assert BigEndian32(n) == data[..4] by {
      WriteRead32(data[..4]);
    }
    OctetsAre(n);
    assert data[..4] + data[4..4 + n] == data[..4 + n];
  }

  /** A non-empty buffer that parses starts with a unit and its length, and the rest parses too. */
  lemma ParseFirst(data: seq<byte>) returns (unit: seq<byte>, tail: seq<byte>)
    requires data != [] && ParseXvcc(data).Some?
    ensures data == LengthUnit(unit) + tail
    ensures ParseXvcc(tail).Some? && ParseXvcc(data).value == [unit] + ParseXvcc(tail).value
  {
    var n := ReadBigEndian32(data[..4]);
    unit, tail := data[4..4 + n], data[4 + n..];
    ParseStep(data);
    FirstUnitBytes(data);
    assert data[..4 + n] + tail == data;
  }

  /** Writing a unit in front writes its length-prefixed form in front. */
  lemma LengthPrefixedCons(unit: seq<byte>, rest: seq<seq<byte>>)
    ensures LengthPrefixed([unit] + rest) == LengthUnit(unit) + LengthPrefixed(rest)
  {
    assert ([unit] + rest)[0] == unit && ([unit] + rest)[1..] == rest;
  }

  /** Writing back the NAL units of a parse with their lengths gives the buffer. */
  lemma {:induction false} ParseXvccInverse(data: seq<byte>)
    requires ParseXvcc(data).Some?
    ensures LengthPrefixed(ParseXvcc(data).value) == data
    decreases |data|
  {
    if data != [] {
      var unit, tail := ParseFirst(data);
      ParseXvccInverse(tail);
      LengthPrefixedCons(unit, ParseXvcc(tail).value);
    }
  }

  /** Each unit takes four bytes more in either form: a start code or a length. */
  lemma {:induction false} SameSize(nals: seq<seq<byte>>)
    ensures |AnnexB(nals)| == |LengthPrefixed(nals)|
    decreases |nals|
  {
    if nals != [] {
      SameSize(nals[1..]);
    }
  }

  /** The NAL units of a parse together make up the input less one 4-byte length each. */
  lemma ParseXvccSize(data: seq<byte>)
    requires ParseXvcc(data).Some?
    ensures |AnnexB(ParseXvcc(data).value)| == |data|
    ensures LengthPrefixed(ParseXvcc(data).value) == data
  {
    ParseXvccInverse(data);
    SameSize(ParseXvcc(data).value);
  }

  /** Writing back the value read from four bytes gives the same bytes. */
  lemma WriteRead32(b: seq<byte>)
    requires |b| == 4
    ensures BigEndian32(ReadBigEndian32(b)) == b
  {
    var v := ReadBigEndian32(b);
    var b0, b1, b2, b3 := b[0] as int, b[1] as int, b[2] as int, b[3] as int;
    assert v == ((b0 * 0x100 + b1) * 0x100 + b2) * 0x100 + b3;
    assert v / 0x100 == (b0 * 0x100 + b1) * 0x100 + b2;
    assert v / 0x1_0000 == b0 * 0x100 + b1;
    assert v / 0x100_0000 == b0;
  }

  /** Converting to Annex B keeps the length: each 4-byte length becomes a 4-byte start code. */
  lemma XvccToAnnexBSize(data: seq<byte>)
    ensures XvccToAnnexB(data).Some? ==> |XvccToAnnexB(data).value| == |data|
  {
    if ParseXvcc(data).Some? {
      ParseXvccSize(data);
    }
  }

  /** Parsing the length-prefixed form of NAL units shorter than 2^32 bytes gives them back. */
  lemma {:induction false} ParseLengthPrefixed(nals: seq<seq<byte>>)
    requires forall i :: 0 <= i < |nals| ==> |nals[i]| < Two32
    ensures ParseXvcc(LengthPrefixed(nals)) == Some(nals)
    decreases |nals|
  {
    if nals != [] {
      var d := LengthPrefixed(nals);
      var n := |nals[0]|;
      var tail := LengthPrefixed(nals[1..]);
      assert LengthUnit(nals[0]) == BigEndian32(n) + nals[0] by {
        OctetsAre(n);
      }
      assert d == LengthUnit(nals[0]) + tail;
      assert ReadBigEndian32(d[..4]) == n by {
        assert d[..4] == BigEndian32(n);
        ReadWrite32(n);
      }
      assert d[4..4 + n] == nals[0] && d[4 + n..] == tail;
      ParseStep(d);
      assert ParseXvcc(tail) == Some(nals[1..]) by {
        ParseLengthPrefixed(nals[1..]);
      }
      assert nals == [nals[0]] + nals[1..];
    }
  }

  /** Fewer than four bytes where a length is due: the parse fails. */
  lemma ParseShort(d: seq<byte>)
    requires 0 < |d| < 4
    ensures ParseXvcc(d) == None
  {
  }

  /** A length beyond the bytes that remain: the parse fails. */
  lemma ParseTooLong(d: seq<byte>)
    requires |d| >= 4 && |d| - 4 < ReadBigEndian32(d[..4])
    ensures ParseXvcc(d) == None
  {
  }

  /** One step of the parse at `pos`: the unit there in front of the parse of what follows it. */
  lemma ParseAt(data: seq<byte>, pos: nat, n: nat)
    requires pos + 4 + n <= |data| && n == ReadBigEndian32(data[pos..pos + 4])
    ensures ParseXvcc(data[pos..]) == Prepend([data[pos + 4..pos + 4 + n]], ParseXvcc(data[pos + 4 + n..]))
  {
    var rest := data[pos..];
    assert rest[..4] == data[pos..pos + 4];
    assert rest[4..4 + n] == data[pos + 4..pos + 4 + n];
    assert rest[4 + n..] == data[pos + 4 + n..];
    ParseStep(rest);
  }

  /** A short buffer or a length beyond it at `pos` makes the whole conversion fail. */
  lemma ParseFailsAt(data: seq<byte>, pos: nat, nals: seq<seq<byte>>)
    requires pos < |data| && ParseXvcc(data) == Prepend(nals, ParseXvcc(data[pos..]))
    requires |data| - pos < 4 || |data| - pos - 4 < ReadBigEndian32(data[pos..pos + 4])
    ensures XvccToAnnexB(data) == None
  {
    ParseRestFails(data, pos);
  }

  /** A buffer that is short, or whose first length runs past its end, does not parse. */
  lemma ParseRestFails(data: seq<byte>, pos: nat)
    requires pos < |data|
    requires |data| - pos < 4 || |data| - pos - 4 < ReadBigEndian32(data[pos..pos + 4])
    ensures ParseXvcc(data[pos..]) == None
  {
    var d := data[pos..];
    if |d| < 4 {
      ParseShort(d);
    } else {
      assert d[..4] == data[pos..pos + 4];
      ParseTooLong(d);
    }
  }

  /** The unit at `pos` moves from the rest of the buffer to the units read so far. */
  lemma ParseAdvance(data: seq<byte>, pos: nat, nals: seq<seq<byte>>, n: nat)
    requires pos + 4 + n <= |data| && n == ReadBigEndian32(data[pos..pos + 4])
    requires ParseXvcc(data) == Prepend(nals, ParseXvcc(data[pos..]))
    ensures ParseXvcc(data) == Prepend(nals + [data[pos + 4..pos + 4 + n]], ParseXvcc(data[pos + 4 + n..]))
  {
    ParseAt(data, pos, n);
    PrependAppend(nals, data[pos + 4..pos + 4 + n], ParseXvcc(data[pos + 4 + n..]));
  }

  /** One more unit appends a start code and the unit to the Annex B stream. */
  lemma {:induction false} AnnexBSnoc(nals: seq<seq<byte>>, nal: seq<byte>)
    ensures AnnexB(nals + [nal]) == AnnexB(nals) + StartCode + nal
    decreases |nals|
  {
    if nals == [] {
      assert [] + [nal] == [nal] && [nal][1..] == [];
    } else {
      assert (nals + [nal])[1..] == nals[1..] + [nal];
      AnnexBSnoc(nals[1..], nal);
    }
  }

  /** `ConvertXvccToAnnexb`. */
  method ConvertXvccToAnnexb(data: seq<byte>) returns (r: Option<seq<byte>>)
    ensures r == XvccToAnnexB(data)
  {
    var annexb: seq<byte> := [];
    ghost var nals: seq<seq<byte>> := [];
    var pos := 0;
    ParseStart(data);
    while pos < |data|
      invariant pos <= |data| && annexb == AnnexB(nals)
      invariant ParseXvcc(data) == Prepend(nals, ParseXvcc(data[pos..]))
      decreases |data| - pos
    {
      if |data| - pos < 4 || |data| - pos - 4 < ReadBigEndian32(data[pos..pos + 4]) {
        ParseFailsAt(data, pos, nals);
        return None;
      }
      var nalLength := ReadBigEndian32(data[pos..pos + 4]);
      var next := pos + 4 + nalLength;
      var nal := data[pos + 4..next];
      ghost var more := nals + [nal];
      assert ParseXvcc(data) == Prepend(more, ParseXvcc(data[next..])) by {
        ParseAdvance(data, pos, nals, nalLength);
      }
      assert annexb + StartCode + nal == AnnexB(more) by {
        AnnexBSnoc(nals, nal);
      }
      pos, annexb, nals := next, annexb + StartCode + nal, more;
    }
    ParseDone(data, nals);
    return Some(annexb);
  }

  /** Before the loop: nothing read, the whole buffer still to parse. */
  lemma ParseStart(data: seq<byte>)
    ensures ParseXvcc(data) == Prepend([], ParseXvcc(data[0..]))
  {
    assert data[0..] == data;
    if ParseXvcc(data).Some? {
      assert [] + ParseXvcc(data).value == ParseXvcc(data).value;
    }
  }

  /** After the loop: with nothing left, the units read are the whole parse. */
  lemma ParseDone(data: seq<byte>, nals: seq<seq<byte>>)
    requires ParseXvcc(data) == Prepend(nals, ParseXvcc(data[|data|..]))
    ensures XvccToAnnexB(data) == Some(AnnexB(nals))
  {
    assert data[|data|..] == [];
    assert nals + [] == nals;
  }

  lemma PrependAppend(nals: seq<seq<byte>>, nal: seq<byte>, rest: Option<seq<seq<byte>>>)
    ensures Prepend(nals, Prepend([nal], rest)) == Prepend(nals + [nal], rest)
  {
    if rest.Some? {
      assert nals + ([nal] + rest.value) == (nals + [nal]) + rest.value;
    }
  }

  /** The units found so far in front of what the rest of the buffer parses to. */
  function Prepend(nals: seq<seq<byte>>, rest: Option<seq<seq<byte>>>): Option<seq<seq<byte>>>
  {
    match rest
    case None => None
    case Some(more) => Some(nals + more)
  }

  /**
   * `GetStartPatternSize(buffer, length, first_pattern_size)` on the
   * remaining bytes: 4 or 3 for the start code it sees, -1 otherwise. With
   * a positive first_pattern_size only that size is accepted; the first two
   * bytes are read without a length check there.
   */
  function StartPatternSize(buffer: seq<byte>, firstPatternSize: int): int
    requires firstPatternSize > 0 ==> |buffer| >= 2
  {
    if firstPatternSize > 0 then
      if buffer[0] == 0x00 && buffer[1] == 0x00 then
        if firstPatternSize == 4 && |buffer| >= 4 && buffer[2] == 0x00 && buffer[3] == 0x01 then 4
        else if firstPatternSize == 3 && |buffer| >= 3 && buffer[2] == 0x01 then 3
        else -1
      else -1
    else
      if |buffer| >= 4 && buffer[0] == 0x00 && buffer[1] == 0x00 && buffer[2] == 0x00 && buffer[3] == 0x01 then 4
      else if |buffer| >= 3 && buffer[0] == 0x00 && buffer[1] == 0x00 && buffer[2] == 0x01 then 3
      else -1
  }

  /**
   * Probing recognises `00 00 00 01` first and `00 00 01` otherwise; with a
   * first pattern size, only a start code of that size is recognised.
   */
  lemma StartPatternMeans(buffer: seq<byte>, firstPatternSize: int)
    requires firstPatternSize > 0 ==> |buffer| >= 2
    ensures firstPatternSize <= 0 ==>
      (StartPatternSize(buffer, firstPatternSize) == 4 <==> |buffer| >= 4 && buffer[..4] == [0, 0, 0, 1])
    ensures firstPatternSize <= 0 ==>
      (StartPatternSize(buffer, firstPatternSize) == 3 <==> |buffer| >= 3 && buffer[..3] == [0, 0, 1])
    ensures firstPatternSize > 0 ==>
      StartPatternSize(buffer, firstPatternSize) in {-1, firstPatternSize}
    ensures StartPatternSize(buffer, firstPatternSize) in {-1, 3, 4}
  {
    if |buffer| >= 4 {
      assert buffer[..4] == [buffer[0], buffer[1], buffer[2], buffer[3]];
    }
    if |buffer| >= 3 {
      assert buffer[..3] == [buffer[0], buffer[1], buffer[2]];
    }
  }

  /** A run between start codes as a unit, or nothing when it is empty. */
  function NonEmpty(run: seq<byte>): seq<seq<byte>>
  {
    if run == [] then [] else [run]
  }

  /**
   * The runs of an Annex B stream between start codes, in order, with the
   * leading and the trailing run and without the empty ones: the bytes are
   * read from the front, a start code the probe recognises closes the run
   * read so far (`run`) and is skipped, any other byte joins the run.
   */
  function Scan(s: seq<byte>, run: seq<byte>): seq<seq<byte>>
    decreases |s|
  {
    if s == [] then NonEmpty(run)
    else if StartPatternSize(s, 0) > 0 then NonEmpty(run) + Scan(s[StartPatternSize(s, 0)..], [])
    else Scan(s[1..], run + [s[0]])
  }

  /** The runs of a whole Annex B stream. */
  function Runs(s: seq<byte>): seq<seq<byte>>
  {
    Scan(s, [])
  }

  /** `ConvertAnnexbToXvcc(data)`: each non-empty run length-prefixed. */
  function AnnexBToXvcc(s: seq<byte>): seq<byte>
  {
    LengthPrefixed(Runs(s))
  }

  /** A start code the probe finds at `offset` closes the pending run; the scan resumes after it with an empty run. */
  lemma ScanAtStart(data: seq<byte>, last: nat, offset: nat)
    requires last <= offset < |data| && StartPatternSize(data[offset..], 0) > 0
    ensures offset + StartPatternSize(data[offset..], 0) <= |data|
    ensures var next := offset + StartPatternSize(data[offset..], 0);
      Scan(data[offset..], data[last..offset]) == NonEmpty(data[last..offset]) + Scan(data[next..], data[next..next])
  {
    var size := StartPatternSize(data[offset..], 0);
    assert data[offset..][size..] == data[offset + size..];
    assert data[offset + size..offset + size] == [];
  }

  /** A byte where no start code begins joins the pending run. */
  lemma ScanPast(data: seq<byte>, last: nat, offset: nat)
    requires last <= offset < |data| && StartPatternSize(data[offset..], 0) <= 0
    ensures Scan(data[offset..], data[last..offset]) == Scan(data[offset + 1..], data[last..offset + 1])
  {
    assert data[offset..][1..] == data[offset + 1..];
    assert data[last..offset] + [data[offset..][0]] == data[last..offset + 1];
  }

  /** At the end of the data the pending run is the last one. */
  lemma ScanAtEnd(data: seq<byte>, last: nat)
    requires last <= |data|
    ensures Scan(data[|data|..], data[last..|data|]) == NonEmpty(data[last..])
  {
    assert data[|data|..] == [];
    assert data[last..|data|] == data[last..];
  }

  /** Moving the run just closed from the rest of the stream to the runs found so far. */
  lemma Regroup(whole: seq<seq<byte>>, runs: seq<seq<byte>>, rest: seq<seq<byte>>, closed: seq<seq<byte>>, after: seq<seq<byte>>)
    requires whole == runs + rest && rest == closed + after
    ensures whole == (runs + closed) + after
  {
    assert runs + (closed + after) == (runs + closed) + after;
  }

  /** `WriteBE32(nalu->GetLength())` then `Write(nalu)` on the output stream. */
  method AppendUnit(avcc: seq<byte>, ghost nals: seq<seq<byte>>, nalu: seq<byte>) returns (out: seq<byte>)
    requires avcc == LengthPrefixed(nals)
    ensures out == LengthPrefixed(nals + [nalu])
  {
    LengthPrefixedSnoc(nals, nalu);
    out := avcc + Octets(|nalu|, 4) + nalu;
  }

  /**
   * The pending run `data[last..offset]`, when there is one, written as its
   * length then its bytes; the runs written so far grow by it.
   */
  method WritePending(avcc: seq<byte>, ghost runs: seq<seq<byte>>, data: seq<byte>, last: nat, offset: nat)
    returns (out: seq<byte>, ghost written: seq<seq<byte>>)
    requires last <= offset <= |data|
    requires avcc == LengthPrefixed(runs)
    ensures written == runs + NonEmpty(data[last..offset])
    ensures out == LengthPrefixed(written)
  {
    out, written := avcc, runs;
    if last < offset {
      var nalu := data[last..offset];
      out := AppendUnit(avcc, runs, nalu);
      written := runs + [nalu];
    } else {
      assert runs + NonEmpty(data[last..offset]) == runs;
    }
  }

  /** `ConvertAnnexbToXvcc(data)` without a fragmentation header. */
  method ConvertAnnexbToXvcc(data: seq<byte>) returns (avcc: seq<byte>)
    ensures avcc == AnnexBToXvcc(data)
  {
    avcc := [];
    ghost var runs: seq<seq<byte>> := [];
    var offset := 0;
    var lastOffset := 0;
    ghost var whole := Runs(data);
    assert data[0..] == data && data[0..0] == [];
    while offset < |data|
      invariant lastOffset <= offset <= |data|
      invariant avcc == LengthPrefixed(runs)
      invariant whole == runs + Scan(data[offset..], data[lastOffset..offset])
      decreases |data| - offset
    {
      if data[offset] == 0x00 {
        var patternSize := StartPatternSize(data[offset..], 0);
        if patternSize > 0 {
          ScanAtStart(data, lastOffset, offset);
          ghost var after := Scan(data[offset + patternSize..], data[offset + patternSize..offset + patternSize]);
          Regroup(whole, runs, Scan(data[offset..], data[lastOffset..offset]), NonEmpty(data[lastOffset..offset]), after);
          avcc, runs := WritePending(avcc, runs, data, lastOffset, offset);
          lastOffset := offset;
          offset := offset + patternSize;
          lastOffset := lastOffset + patternSize;
          continue;
        }
      }
      ScanPast(data, lastOffset, offset);
      offset := offset + 1;
    }
    ScanAtEnd(data, lastOffset);
    avcc, runs := WritePending(avcc, runs, data, lastOffset, offset);
  }

  /** No start code begins inside the unit, that is, it holds no `00 00 01`. */
  predicate FreeOfStartCodes(nal: seq<byte>)
  {
    forall i :: 0 <= i < |nal| ==> StartPatternSize(nal[i..], 0) < 0
  }

  /**
   * A unit without `00 00 01`, followed by nothing or by a start code, has
   * no start code beginning inside it: the zeros of a following start code
   * cannot complete one.
   */
  lemma NoStartInside(nal: seq<byte>, t: seq<byte>, i: nat)
    requires FreeOfStartCodes(nal) && i < |nal|
    requires t == [] || (|t| >= 4 && t[..4] == StartCode)
    ensures StartPatternSize(nal[i..] + t, 0) < 0
  {
    var v := nal[i..];
    assert StartPatternSize(v, 0) < 0;
    if t != [] {
      assert t[0] == 0 && t[1] == 0 && t[2] == 0 && t[3] == 1 by {
        assert t[..4][0] == t[0] && t[..4][1] == t[1] && t[..4][2] == t[2] && t[..4][3] == t[3];
      }
    }
  }

  /** Bytes where no start code begins all join the current run. */
  lemma {:induction false} ScanThrough(nal: seq<byte>, t: seq<byte>, run: seq<byte>)
    requires forall i :: 0 <= i < |nal| ==> StartPatternSize(nal[i..] + t, 0) < 0
    ensures Scan(nal + t, run) == Scan(t, run + nal)
    decreases |nal|
  {
    if nal == [] {
      assert nal + t == t && run + nal == run;
    } else {
      var u := nal + t;
      assert nal[0..] == nal;
      assert u[1..] == nal[1..] + t;
      forall i | 0 <= i < |nal[1..]|
        ensures StartPatternSize(nal[1..][i..] + t, 0) < 0
      {
        assert nal[1..][i..] == nal[i + 1..];
      }
      ScanThrough(nal[1..], t, run + [nal[0]]);
      assert run + [nal[0]] + nal[1..] == run + nal;
    }
  }

  /** A unit without `00 00 01` read from an empty run, up to nothing or a start code, becomes the run. */
  lemma UnitThrough(nal: seq<byte>, t: seq<byte>)
    requires FreeOfStartCodes(nal)
    requires t == [] || (|t| >= 4 && t[..4] == StartCode)
    ensures Scan(nal + t, []) == Scan(t, nal)
  {
    forall i | 0 <= i < |nal|
      ensures StartPatternSize(nal[i..] + t, 0) < 0
    {
      NoStartInside(nal, t, i);
    }
    ScanThrough(nal, t, []);
    assert [] + nal == nal;
  }

  /** A start code closes the current run. */
  lemma ScanStartCode(x: seq<byte>, run: seq<byte>)
    ensures Scan(StartCode + x, run) == NonEmpty(run) + Scan(x, [])
  {
    var u := StartCode + x;
    assert u[0] == 0 && u[1] == 0 && u[2] == 0 && u[3] == 1;
    assert u[4..] == x;
  }

  /** A sequence that starts with no start code has no start code at its front once anything is cut off its end. */
  lemma NoStartInPrefix(v: seq<byte>, w: seq<byte>)
    requires StartPatternSize(v + w, 0) < 0
    ensures StartPatternSize(v, 0) < 0
  {
    var u := v + w;
    if |v| >= 4 {
      assert u[0] == v[0] && u[1] == v[1] && u[2] == v[2] && u[3] == v[3];
    } else if |v| >= 3 {
      assert u[0] == v[0] && u[1] == v[1] && u[2] == v[2];
    }
  }

  /** Every unit of `runs` is non-empty and holds no start code. */
  predicate AllFree(runs: seq<seq<byte>>)
  {
    forall k :: 0 <= k < |runs| ==> runs[k] != [] && FreeOfStartCodes(runs[k])
  }

  /** The run read so far, closed, is non-empty and free of start codes when no start code began inside it. */
  lemma ClosedRunFree(run: seq<byte>, s: seq<byte>)
    requires forall i :: 0 <= i < |run| ==> StartPatternSize(run[i..] + s, 0) < 0
    ensures AllFree(NonEmpty(run))
  {
    forall i | 0 <= i < |run|
      ensures StartPatternSize(run[i..], 0) < 0
    {
      NoStartInPrefix(run[i..], s);
    }
  }

  /** The runs the scan finds are non-empty and hold no start code. */
  lemma {:induction false} ScanRunsFree(s: seq<byte>, run: seq<byte>)
    requires forall i :: 0 <= i < |run| ==> StartPatternSize(run[i..] + s, 0) < 0
    ensures AllFree(Scan(s, run))
    decreases |s|
  {
    ClosedRunFree(run, s);
    if s != [] {
      var size := StartPatternSize(s, 0);
      if size > 0 {
        ScanRunsFree(s[size..], []);
        assert AllFree(NonEmpty(run) + Scan(s[size..], []));
      } else {
        var run' := run + [s[0]];
        forall i | 0 <= i < |run'|
          ensures StartPatternSize(run'[i..] + s[1..], 0) < 0
        {
          if i < |run| {
            assert run'[i..] + s[1..] == run[i..] + s;
          } else {
            assert run'[i..] + s[1..] == s;
          }
        }
        ScanRunsFree(s[1..], run');
      }
    }
  }

  /** Every unit `ConvertAnnexbToXvcc` writes is non-empty and holds no start code. */
  lemma RunsFree(s: seq<byte>)
    ensures AllFree(Runs(s))
  {
    ScanRunsFree(s, []);
  }

  /** The units are what the round trip needs: non-empty, shorter than 2^32 bytes, without `00 00 01`. */
  ghost predicate Separable(nals: seq<seq<byte>>)
  {
    forall i :: 0 <= i < |nals| ==> nals[i] != [] && |nals[i]| < Two32 && FreeOfStartCodes(nals[i])
  }

  /** Scanning the Annex B stream of separable units yields the current run, then the units. */
  lemma {:induction false} ScanAnnexB(nals: seq<seq<byte>>, run: seq<byte>)
    requires Separable(nals)
    ensures Scan(AnnexB(nals), run) == NonEmpty(run) + nals
    decreases |nals|
  {
    if nals == [] {
      assert NonEmpty(run) + nals == NonEmpty(run);
    } else {
      var nal, rest := nals[0], nals[1..];
      var t := AnnexB(rest);
      assert AnnexB(nals) == StartCode + (nal + t);
      if rest != [] {
        assert t == StartCode + (rest[0] + AnnexB(rest[1..]));
        assert t[..4] == StartCode;
      }
      ScanStartCode(nal + t, run);
      UnitThrough(nal, t);
      assert Scan(t, nal) == [nal] + rest by {
        ScanAnnexB(rest, nal);
      }
      assert nals == [nal] + rest;
    }
  }

  /** The runs of the Annex B stream of non-empty units without `00 00 01` are those units. */
  lemma RunsOfAnnexB(nals: seq<seq<byte>>)
    requires Separable(nals)
    ensures Runs(AnnexB(nals)) == nals
  {
    ScanAnnexB(nals, []);
  }

  /**
   * For non-empty units without `00 00 01`, converting their length-prefixed
   * form to Annex B and back gives the length-prefixed form again.
   */
  lemma RoundTrip(nals: seq<seq<byte>>)
    requires Separable(nals)
    ensures XvccToAnnexB(LengthPrefixed(nals)) == Some(AnnexB(nals))
    ensures AnnexBToXvcc(AnnexB(nals)) == LengthPrefixed(nals)
  {
    ParseLengthPrefixed(nals);
    RunsOfAnnexB(nals);
  }

  /**
   * Converting any Annex B stream to the length-prefixed form, back to
   * Annex B and to the length-prefixed form again gives the same bytes as
   * the first conversion, when every run is shorter than 2^32 bytes.
   */
  lemma ConversionStable(s: seq<byte>)
    requires forall k :: 0 <= k < |Runs(s)| ==> |Runs(s)[k]| < Two32
    ensures XvccToAnnexB(AnnexBToXvcc(s)) == Some(AnnexB(Runs(s)))
    ensures AnnexBToXvcc(AnnexB(Runs(s))) == AnnexBToXvcc(s)
  {
    RunsFree(s);
    RoundTrip(Runs(s));
  }

  /** One entry of a fragmentation header: where a NAL unit starts and how long it is. */
  datatype Fragment = Fragment(offset: nat, length: nat)

  /** Every range the header marks lies inside the data. */
  predicate InData(data: seq<byte>, header: seq<Fragment>)
  {
    forall i :: 0 <= i < |header| ==> header[i].offset + header[i].length <= |data|
  }

  /** The bytes one header entry marks out. */
  function Marked(data: seq<byte>, f: Fragment): (r: seq<byte>)
    requires f.offset + f.length <= |data|
    ensures |r| == f.length
  {
    data[f.offset..f.offset + f.length]
  }

  /** The units the first n header entries mark out, in header order. */
  function FirstFragments(data: seq<byte>, header: seq<Fragment>, n: nat): (r: seq<seq<byte>>)
    requires InData(data, header) && n <= |header|
    ensures |r| == n
  {
    if n == 0 then [] else FirstFragments(data, header, n - 1) + [Marked(data, header[n - 1])]
  }

  /** The units a fragmentation header marks out, in header order. */
  function Fragments(data: seq<byte>, header: seq<Fragment>): seq<seq<byte>>
    requires InData(data, header)
  {
    FirstFragments(data, header, |header|)
  }

  /** The i-th of the first n units is the range the i-th header entry marks. */
  lemma {:induction false} FirstFragmentAt(data: seq<byte>, header: seq<Fragment>, n: nat, i: nat)
    requires InData(data, header) && i < n <= |header|
    ensures FirstFragments(data, header, n)[i] == Marked(data, header[i])
    decreases n
  {
    if i < n - 1 {
      FirstFragmentAt(data, header, n - 1, i);
    }
  }

  /** Each unit a fragmentation header marks out, written length-prefixed in header order. */
  method WriteFragments(data: seq<byte>, entries: seq<Fragment>) returns (avcc: seq<byte>)
    requires InData(data, entries)
    ensures avcc == LengthPrefixed(Fragments(data, entries))
  {
    avcc := [];
    for i := 0 to |entries|
      invariant avcc == LengthPrefixed(FirstFragments(data, entries, i))
    {
      var offset := entries[i].offset;
      var length := entries[i].length;
      avcc := AppendUnit(avcc, FirstFragments(data, entries, i), data[offset..offset + length]);
    }
  }

  /**
   * `ConvertAnnexbToXvcc(data, frag_header)`: with no header, the scan;
   * with one, each marked unit written length-prefixed in header order
   * (the header's ranges are read unchecked, so they must lie in the data).
   */
  method ConvertAnnexbToXvccWithHeader(data: seq<byte>, header: Option<seq<Fragment>>) returns (avcc: seq<byte>)
    requires header.Some? ==> InData(data, header.value)
    ensures header.None? ==> avcc == AnnexBToXvcc(data)
    ensures header.Some? ==> avcc == LengthPrefixed(Fragments(data, header.value))
  {
    if header.None? {
      avcc := ConvertAnnexbToXvcc(data);
    } else {
      avcc := WriteFragments(data, header.value);
    }
  }

  /** Parsing what the header overload writes gives back exactly the marked units, in header order. */
  lemma FragmentsRecovered(data: seq<byte>, header: seq<Fragment>)
    requires InData(data, header)
    requires forall i :: 0 <= i < |header| ==> header[i].length < Two32
    ensures ParseXvcc(LengthPrefixed(Fragments(data, header))) == Some(Fragments(data, header))
  {
    var units := Fragments(data, header);
    forall i | 0 <= i < |units|
      ensures |units[i]| < Two32
    {
      FirstFragmentAt(data, header, |header|, i);
    }
    ParseLengthPrefixed(units);
  }
}
