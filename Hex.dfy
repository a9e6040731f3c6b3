// ov::Hex: upper-case hexadecimal text for a block of bytes, and the decoding
// back that also accepts the hyphenated UUID layout.

module Hex {
  import opened Strings
  import opened Bytes

  /** `0-9`, `A-F` or `a-f`. */
  predicate IsHexChar(c: char)
  {
    '0' <= c <= '9' || 'A' <= c <= 'F' || 'a' <= c <= 'f'
  }

  predicate IsUpperHexChar(c: char)
  {
    '0' <= c <= '9' || 'A' <= c <= 'F'
  }

  /** The upper-case digit `%X` prints for a value below 16. */
  function HexDigit(v: int): (c: char)
    requires 0 <= v < 16
    ensures IsUpperHexChar(c)
  {
    if v < 10 then ('0' as int + v) as char else ('A' as int + v - 10) as char
  }

  /**
   * The value `strtol(…, 16)` gives one hexadecimal digit; 0 for any other
   * character, which Decode never converts because it checks every digit
   * first.
   */
  function DigitValue(c: char): (v: int)
    ensures 0 <= v < 16
  {
    if '0' <= c <= '9' then c as int - '0' as int
    else if 'A' <= c <= 'F' then c as int - 'A' as int + 10
    else if 'a' <= c <= 'f' then c as int - 'a' as int + 10
    else 0
  }

  lemma DigitValueOfHexDigit(v: int)
    requires 0 <= v < 16
    ensures DigitValue(HexDigit(v)) == v
  {
  }

  lemma HexDigitOfDigitValue(c: char)
    requires IsHexChar(c)
    ensures HexDigit(DigitValue(c)) == UpperChar(c)
  {
  }

  /** `%02X` of one byte: the high digit, then the low digit. */
  function EncodeByte(b: byte): (r: string)
    ensures |r| == 2
  {
    [HexDigit(b / 16), HexDigit(b % 16)]
  }

  /** The text Encode produces, one byte after another. */
  function Encoded(data: seq<byte>): (r: string)
  {
    if data == [] then [] else Encoded(data[..|data| - 1]) + EncodeByte(data[|data| - 1])
  }

  /** Encoded writes exactly two upper-case digits per byte, byte i at offsets 2i and 2i+1. */
  lemma {:induction false} EncodedMeans(data: seq<byte>)
    ensures |Encoded(data)| == 2 * |data|
    ensures forall i :: 0 <= i < |data| ==>
      Encoded(data)[2 * i] == HexDigit(data[i] / 16) && Encoded(data)[2 * i + 1] == HexDigit(data[i] % 16)
    ensures forall k :: 0 <= k < |Encoded(data)| ==> IsUpperHexChar(Encoded(data)[k])
  {
    if data != [] {
      var init := data[..|data| - 1];
      EncodedMeans(init);
      assert forall i :: 0 <= i < |init| ==> data[i] == init[i];
    }
  }

  /** Every character of an encoding is a hex digit, two per byte. */
  lemma EncodedAllHex(data: seq<byte>)
    ensures |Encoded(data)| == 2 * |data| && AllHex(Encoded(data))
  {
    EncodedMeans(data);
  }

  /** `Hex::Encode(data, length)`: appends `%02X` of each byte in turn. */
  method Encode(data: seq<byte>) returns (hex: string)
    ensures hex == Encoded(data)
  {
    hex := [];
    var index := 0;
    while index < |data|
      invariant 0 <= index <= |data|
      invariant hex == Encoded(data[..index])
    {
      assert data[..index + 1][..index] == data[..index];
      hex := hex + EncodeByte(data[index]);
      index := index + 1;
    }
    assert data[..index] == data;
  }

  /** `hex_string.Replace("-", "")`. */
  function RemoveHyphens(s: string): (r: string)
    ensures '-' !in r
    ensures |r| <= |s|
    ensures forall c :: c in r ==> c in s
  {
    if s == [] then []
    else if s[|s| - 1] == '-' then RemoveHyphens(s[..|s| - 1])
    else RemoveHyphens(s[..|s| - 1]) + [s[|s| - 1]]
  }

  lemma {:induction false} RemoveHyphensIdle(s: string)
    requires '-' !in s
    ensures RemoveHyphens(s) == s
  {
    if s != [] {
      assert s[..|s| - 1] + [s[|s| - 1]] == s;
      RemoveHyphensIdle(s[..|s| - 1]);
    }
  }

  /**
   * The removal equals erasing '-' read from the front: the other characters
   * stay, in order and each as often as it occurs.
   */
  lemma {:induction false} RemoveHyphensErases(s: string)
    ensures RemoveHyphens(s) == Erase(s, '-')
    decreases |s|
  {
    if s != [] {
      var init, last := s[..|s| - 1], s[|s| - 1];
      RemoveHyphensErases(init);
      EraseAppend(init, [last], '-');
      assert init + [last] == s;
      assert Erase([last], '-') == (if last == '-' then [] else [last]) + Erase([], '-');
    }
  }

  /**
   * The bytes of a run of hexadecimal digits, two digits per byte counted
   * from the end; Decode applies it to an even number of digits only.
   */
  function Pairs(s: string): (r: seq<byte>)
    ensures |r| == |s| / 2
  {
    if |s| < 2 then []
    else Pairs(s[..|s| - 2]) + [DigitValue(s[|s| - 2]) * 16 + DigitValue(s[|s| - 1])]
  }

  lemma {:induction false} PairsAt(s: string)
    requires |s| % 2 == 0
    ensures forall i :: 0 <= i < |s| / 2 ==> Pairs(s)[i] == DigitValue(s[2 * i]) * 16 + DigitValue(s[2 * i + 1])
  {
    if s != [] {
      var init := s[..|s| - 2];
      PairsAt(init);
      assert forall k :: 0 <= k < |init| ==> init[k] == s[k];
    }
  }

  predicate AllHex(s: string)
  {
    forall k :: 0 <= k < |s| ==> IsHexChar(s[k])
  }

  /** Decode on a string without hyphens: odd length or a non-hex character give null. */
  function DecodeDigits(s: string): (r: Option<seq<byte>>)
    ensures r.Some? <==> |s| % 2 == 0 && AllHex(s)
    ensures r.Some? ==> |r.value| == |s| / 2
  {
    if |s| % 2 != 0 then None
    else if !AllHex(s) then None
    else Some(Pairs(s))
  }

  /** What `Hex::Decode` returns: every hyphen is dropped before the digits are checked. */
  function Decoded(s: string): (r: Option<seq<byte>>)
  {
    DecodeDigits(RemoveHyphens(s))
  }

  /**
   * Decoded fails exactly on an odd digit count or a non-hex character once
   * the hyphens are gone; otherwise byte i is the value of digits 2i and 2i+1.
   */
  lemma DecodedMeans(s: string)
    ensures var t := RemoveHyphens(s);
      Decoded(s).Some? <==> |t| % 2 == 0 && forall k :: 0 <= k < |t| ==> IsHexChar(t[k])
    ensures var t := RemoveHyphens(s);
      Decoded(s).Some? ==> (|Decoded(s).value| == |t| / 2 &&
        forall i :: 0 <= i < |t| / 2 ==> Decoded(s).value[i] == DigitValue(t[2 * i]) * 16 + DigitValue(t[2 * i + 1]))
  {
    var t := RemoveHyphens(s);
    if Decoded(s).Some? {
      PairsAt(t);
    }
  }

  /** A character other than a hex digit or '-' makes Decode fail. */
  lemma DecodeRejectsNonHex(s: string, k: nat)
    requires k < |s| && s[k] != '-' && !IsHexChar(s[k])
    ensures Decoded(s).None?
  {
    RemoveHyphensKeeps(s, k);
  }

  /** A character that is not a hyphen survives the removal. */
  lemma {:induction false} RemoveHyphensKeeps(s: string, k: nat)
    requires k < |s| && s[k] != '-'
    ensures s[k] in RemoveHyphens(s)
  {
    if k < |s| - 1 {
      assert s[..|s| - 1][k] == s[k];
      RemoveHyphensKeeps(s[..|s| - 1], k);
    }
  }

  /** The two digits written for a byte read back as that byte. */
  lemma ByteOfEncodeByte(b: byte)
    ensures IsHexChar(EncodeByte(b)[0]) && IsHexChar(EncodeByte(b)[1])
    ensures DigitValue(EncodeByte(b)[0]) * 16 + DigitValue(EncodeByte(b)[1]) == b
  {
    DigitValueOfHexDigit(b / 16);
    DigitValueOfHexDigit(b % 16);
  }

  /** The byte read from two digits is written back as those digits, upper-cased. */
  lemma EncodeByteOfDigits(c1: char, c2: char)
    requires IsHexChar(c1) && IsHexChar(c2)
    ensures EncodeByte(DigitValue(c1) * 16 + DigitValue(c2)) == [UpperChar(c1), UpperChar(c2)]
  {
    var hi, lo := DigitValue(c1), DigitValue(c2);
    assert (hi * 16 + lo) / 16 == hi && (hi * 16 + lo) % 16 == lo;
    HexDigitOfDigitValue(c1);
    HexDigitOfDigitValue(c2);
  }

  /** One step of Pairs: the last two digits make the last byte. */
  lemma PairsStep(e: string)
    requires |e| >= 2
    ensures Pairs(e) == Pairs(e[..|e| - 2]) + [DigitValue(e[|e| - 2]) * 16 + DigitValue(e[|e| - 1])]
  {
  }

  /** Pairing up digits followed by the two digits of a byte gives the bytes before, then that byte. */
  lemma PairsSnoc(s: string, b: byte)
    ensures Pairs(s + EncodeByte(b)) == Pairs(s) + [b]
  {
    var e := s + EncodeByte(b);
    ByteOfEncodeByte(b);
    PairsStep(e);
    assert e[..|e| - 2] == s;
    assert e[|e| - 2] == EncodeByte(b)[0] && e[|e| - 1] == EncodeByte(b)[1];
  }

  /** Pairing up the digits of an encoding gives back the bytes. */
  lemma {:induction false} PairsOfEncoded(data: seq<byte>)
    ensures |Encoded(data)| % 2 == 0 && AllHex(Encoded(data))
    ensures Pairs(Encoded(data)) == data
  {
    EncodedAllHex(data);
    if data != [] {
      var init := data[..|data| - 1];
      var b := data[|data| - 1];
      assert Encoded(data) == Encoded(init) + EncodeByte(b);
      EncodedAllHex(init);
      PairsSnoc(Encoded(init), b);
      assert Pairs(Encoded(init)) == init by {
        PairsOfEncoded(init);
      }
      assert init + [b] == data;
    }
  }

  /** `Decode(Encode(d)) == d` for every byte block. */
  lemma DecodeEncode(data: seq<byte>)
    ensures Decoded(Encoded(data)) == Some(data)
  {
    var e := Encoded(data);
    PairsOfEncoded(data);
    assert forall k :: 0 <= k < |e| ==> e[k] != '-';
    RemoveHyphensIdle(e);
  }

  lemma LastTwo(s: string)
    requires |s| >= 2
    ensures s == s[..|s| - 2] + [s[|s| - 2], s[|s| - 1]]
  {
  }

  /** Upper-casing distributes over concatenation. */
  lemma ToUpperAppend(a: string, b: string)
    ensures ToUpper(a + b) == ToUpper(a) + ToUpper(b)
  {
    var u, v := ToUpper(a + b), ToUpper(a) + ToUpper(b);
    forall k | 0 <= k < |u|
      ensures u[k] == v[k]
    {
      if k < |a| {
        assert (a + b)[k] == a[k];
      } else {
        assert (a + b)[k] == b[k - |a|];
      }
    }
  }

  /** Two characters upper-case one by one. */
  lemma ToUpperPair(c1: char, c2: char)
    ensures ToUpper([c1, c2]) == [UpperChar(c1), UpperChar(c2)]
  {
    var w := ToUpper([c1, c2]);
    assert w == [w[0], w[1]];
  }

  /** Encoding the bytes of a run of digits writes the digits again, upper-cased. */
  lemma {:induction false} EncodedOfPairs(s: string)
    requires |s| % 2 == 0 && AllHex(s)
    ensures Encoded(Pairs(s)) == ToUpper(s)
  {
    if s != [] {
      var init, c1, c2 := s[..|s| - 2], s[|s| - 2], s[|s| - 1];
      assert AllHex(init) by {
        assert forall k :: 0 <= k < |init| ==> init[k] == s[k];
      }
      var b: byte := DigitValue(c1) * 16 + DigitValue(c2);
      var p := Pairs(s);
      assert p == Pairs(init) + [b];
      assert Encoded(p) == Encoded(Pairs(init)) + EncodeByte(b) by {
        assert p[..|p| - 1] == Pairs(init);
      }
      assert Encoded(Pairs(init)) == ToUpper(init) by {
        EncodedOfPairs(init);
      }
      var pair := [UpperChar(c1), UpperChar(c2)];
      assert EncodeByte(b) == pair by {
        EncodeByteOfDigits(c1, c2);
      }
      assert ToUpper(s) == ToUpper(init) + pair by {
        LastTwo(s);
        ToUpperAppend(init, [c1, c2]);
        ToUpperPair(c1, c2);
      }
    }
  }

  /** `Encode(Decode(s))` is the upper-case form of a valid hyphen-free s. */
  lemma EncodeDecode(s: string)
    requires '-' !in s
    requires Decoded(s).Some?
    ensures Encoded(Decoded(s).value) == ToUpper(s)
  {
    RemoveHyphensIdle(s);
    EncodedOfPairs(s);
  }

  /** The validation loop of Decode: the first character that is not a hex digit fails it. */
  method CheckDigits(s: string) returns (ok: bool)
    ensures ok == AllHex(s)
  {
    var i := 0;
    while i < |s|
      invariant 0 <= i <= |s|
      invariant forall k :: 0 <= k < i ==> IsHexChar(s[k])
    {
      if !IsHexChar(s[i]) {
        return false;
      }
      i := i + 1;
    }
    return true;
  }

  /** The filling loop of Decode: byte i/2 from the two digits at i and i+1. */
  method FillBytes(s: string) returns (buffer: array<byte>)
    requires |s| % 2 == 0 && AllHex(s)
    ensures fresh(buffer)
    ensures buffer[..] == Pairs(s)
  {
    buffer := new byte[|s| / 2];
    PairsAt(s);
    var i := 0;
    while i < |s|
      invariant 0 <= i <= |s| && i % 2 == 0
      invariant forall j :: 0 <= j < i / 2 ==> buffer[j] == Pairs(s)[j]
    {
      buffer[i / 2] := DigitValue(s[i]) * 16 + DigitValue(s[i + 1]);
      i := i + 2;
    }
  }

  /** `Hex::Decode(hex_string)`. */
  method Decode(s: string) returns (r: Option<seq<byte>>)
    ensures r == Decoded(s)
    decreases if '-' in s then 1 else 0
  {
    if '-' in s {
      r := Decode(RemoveHyphens(s));
      RemoveHyphensIdle(RemoveHyphens(s));
      return;
    }
    RemoveHyphensIdle(s);
    if |s| % 2 != 0 {
      return None;
    }
    var ok := CheckDigits(s);
    if !ok {
      return None;
    }
    var buffer := FillBytes(s);
    return Some(buffer[..]);
  }
}
