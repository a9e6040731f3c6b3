// Shared vocabulary: optional values, JavaScript truthiness of strings,
// splitting and joining on a separator character, ASCII case mapping and the
// whitespace runs that `/\s+/g` replaces.

module Strings {

  datatype Option<T> = None | Some(value: T)

  /** A prefix one element longer is the prefix with that element appended. */
  lemma TakeSnoc<T>(s: seq<T>, j: nat)
    requires j < |s|
    ensures s[..j + 1] == s[..j] + [s[j]]
  {
  }

  /** A non-empty sequence is its front followed by its last element. */
  lemma SplitLast<T>(s: seq<T>)
    requires s != []
    ensures s == s[..|s| - 1] + [s[|s| - 1]]
  {
  }

  /** A JavaScript string value is truthy when it is present and non-empty. */
  predicate Truthy(o: Option<string>)
  {
    o.Some? && o.value != ""
  }

  /** `o || d` on an optional string. */
  function OrElse(o: Option<string>, d: string): (r: string)
    ensures Truthy(o) ==> r == o.value
    ensures !Truthy(o) ==> r == d
  {
    if Truthy(o) then o.value else d
  }

  /** `o || d` on two optional strings. */
  function OrOption(o: Option<string>, d: Option<string>): (r: Option<string>)
    ensures Truthy(o) ==> r == o
    ensures !Truthy(o) ==> r == d
  {
    if Truthy(o) then o else d
  }

  predicate StartsWith(s: string, p: string)
  {
    |p| <= |s| && s[..|p|] == p
  }

  predicate EndsWith(s: string, p: string)
  {
    |p| <= |s| && s[|s| - |p|..] == p
  }

  /** `s.includes(p)`: p occurs somewhere in s. */
  predicate Contains(s: string, p: string)
  {
    StartsWith(s, p) || (s != [] && Contains(s[1..], p))
  }

  function LowerChar(c: char): char
  {
    if 'A' <= c <= 'Z' then (c as int + 32) as char else c
  }

  function UpperChar(c: char): char
  {
    if 'a' <= c <= 'z' then (c as int - 32) as char else c
  }

  function ToLower(s: string): (r: string)
    ensures |r| == |s|
    ensures forall i :: 0 <= i < |s| ==> r[i] == LowerChar(s[i])
  {
    if s == [] then [] else [LowerChar(s[0])] + ToLower(s[1..])
  }

  function ToUpper(s: string): (r: string)
    ensures |r| == |s|
    ensures forall i :: 0 <= i < |s| ==> r[i] == UpperChar(s[i])
  {
    if s == [] then [] else [UpperChar(s[0])] + ToUpper(s[1..])
  }

  /** Space, tab, line feed, carriage return, vertical tab and form feed. */
  predicate AsciiSpace(c: char)
  {
    c == ' ' || c == '\t' || c == '\n' || c == '\r' || c as int == 11 || c as int == 12
  }

  /**
   * Python's whitespace, which `str.strip()` removes and the `\s` of a `re`
   * pattern on `str` matches: the ASCII spaces, the separators U+001C-001F,
   * U+0085, U+00A0, U+1680, U+2000-200A, U+2028, U+2029, U+202F, U+205F and
   * U+3000.
   */
  predicate IsSpace(c: char)
  {
    AsciiSpace(c) || 0x1C <= c as int <= 0x1F || c as int == 0x85 || c as int == 0xA0
    || c as int == 0x1680 || 0x2000 <= c as int <= 0x200A || c as int == 0x2028 || c as int == 0x2029
    || c as int == 0x202F || c as int == 0x205F || c as int == 0x3000
  }

  predicate IsDigit(c: char)
  {
    '0' <= c <= '9'
  }

  /** `s.split(c)`: the pieces between occurrences of c, at least one. */
  function Split(s: string, c: char): (r: seq<string>)
    ensures |r| >= 1
    ensures forall i :: 0 <= i < |r| ==> c !in r[i]
  {
    if s == [] then [""]
    else
      var rest := Split(s[1..], c);
      if s[0] == c then [""] + rest
      else [[s[0]] + rest[0]] + rest[1..]
  }

  /** `parts.join(sep)`. */
  function Join(parts: seq<string>, sep: string): string
  {
    if parts == [] then ""
    else if |parts| == 1 then parts[0]
    else parts[0] + sep + Join(parts[1..], sep)
  }

  /** Joining the pieces of a split with the separator gives back the string. */
  lemma {:induction false} JoinSplit(s: string, c: char)
    ensures Join(Split(s, c), [c]) == s
  {
    if s != [] {
      var rest := Split(s[1..], c);
      JoinSplit(s[1..], c);
      if s[0] != c {
        if |rest| == 1 {
          assert Split(s, c) == [[s[0]] + rest[0]];
        } else {
          assert Split(s, c) == [[s[0]] + rest[0]] + rest[1..];
          assert Split(s, c)[1..] == rest[1..];
          assert Join(rest, [c]) == rest[0] + [c] + Join(rest[1..], [c]);
        }
      } else {
        assert Split(s, c) == [""] + rest;
        assert Split(s, c)[1..] == rest;
      }
    }
  }

  /** A string without the separator splits into itself alone. */
  lemma {:induction false} SplitFree(a: string, c: char)
    requires c !in a
    ensures Split(a, c) == [a]
  {
    if a != [] {
      SplitFree(a[1..], c);
      assert a == [a[0]] + a[1..];
    }
  }

  /** Splitting at the first separator peels off the piece before it. */
  lemma {:induction false} SplitAtFirst(a: string, rest: string, c: char)
    requires c !in a
    ensures Split(a + [c] + rest, c) == [a] + Split(rest, c)
  {
    if a == [] {
      assert (a + [c] + rest)[1..] == rest;
    } else {
      SplitAtFirst(a[1..], rest, c);
      assert (a + [c] + rest)[1..] == a[1..] + [c] + rest;
      assert [a[0]] + a[1..] == a;
    }
  }

  /** Pieces free of the separator come back out of their join. */
  lemma {:induction false} SplitJoin(parts: seq<string>, c: char)
    requires |parts| >= 1
    requires forall i :: 0 <= i < |parts| ==> c !in parts[i]
    ensures Split(Join(parts, [c]), c) == parts
    decreases |parts|
  {
    if |parts| == 1 {
      SplitFree(parts[0], c);
    } else {
      SplitJoin(parts[1..], c);
      SplitAtFirst(parts[0], Join(parts[1..], [c]), c);
      assert parts == [parts[0]] + parts[1..];
    }
  }

  /** `parts.filter(Boolean)` on strings: drop the empty ones. */
  function NonEmpty(parts: seq<string>): (r: seq<string>)
    ensures |r| <= |parts|
    ensures forall i :: 0 <= i < |r| ==> r[i] != "" && r[i] in parts
    ensures forall p :: p in parts && p != "" ==> p in r
    ensures |parts| == 1 ==> r == (if parts[0] == "" then [] else parts)
  {
    if parts == [] then []
    else if parts[0] == "" then NonEmpty(parts[1..])
    else [parts[0]] + NonEmpty(parts[1..])
  }

  /**
   * The filter distributes over concatenation; with the one-piece case above
   * this pins it down: the non-empty pieces, in their order, each as often as
   * it occurs.
   */
  lemma {:induction false} NonEmptyAppend(a: seq<string>, b: seq<string>)
    ensures NonEmpty(a + b) == NonEmpty(a) + NonEmpty(b)
    decreases |a|
  {
    if a != [] {
      var ab := a + b;
      assert ab[0] == a[0] && ab[1..] == a[1..] + b;
      NonEmptyAppend(a[1..], b);
      if a[0] == "" {
        assert NonEmpty(ab) == NonEmpty(a[1..] + b);
      } else {
        assert NonEmpty(ab) == [a[0]] + NonEmpty(a[1..] + b);
      }
    } else {
      assert a + b == b;
    }
  }

  function Last(parts: seq<string>): string
    requires |parts| >= 1
  {
    parts[|parts| - 1]
  }

  /**
   * The members of the JavaScript regular-expression class `\s`: the ASCII
   * whitespace, the no-break space, the other Unicode space separators
   * (U+1680, U+2000 to U+200A, U+202F, U+205F, U+3000), the line and
   * paragraph separators and the byte-order mark.
   */
  predicate JsSpace(c: char)
  {
    AsciiSpace(c) || c as int == 0xA0 || c as int == 0x1680 || 0x2000 <= c as int <= 0x200A
    || c as int == 0x2028 || c as int == 0x2029 || c as int == 0x202F || c as int == 0x205F
    || c as int == 0x3000 || c as int == 0xFEFF
  }

  /** `s.replace(/\s+/g, '_')`: every maximal run of whitespace becomes one '_'. */
  function UnderscoreSpaces(s: string): (r: string)
    ensures forall i :: 0 <= i < |r| ==> !JsSpace(r[i])
    ensures |r| <= |s|
    ensures s != [] ==> r != []
    decreases |s|
  {
    if s == [] then []
    else if JsSpace(s[0]) then ['_'] + UnderscoreSpaces(DropJsSpaces(s[1..]))
    else [s[0]] + UnderscoreSpaces(s[1..])
  }

  /**
   * The rewrite read run by run: a stretch without whitespace is copied, the
   * maximal whitespace run after it becomes a single '_', and the rest is
   * rewritten the same way. Every string splits into such a stretch, run and
   * rest, so this determines the result.
   */
  lemma UnderscoreSpacesMeans(w: string, ws: string, t: string)
    requires forall i :: 0 <= i < |w| ==> !JsSpace(w[i])
    requires forall i :: 0 <= i < |ws| ==> JsSpace(ws[i])
    requires t == [] || !JsSpace(t[0])
    ensures UnderscoreSpaces(w + ws + t) == w + (if ws == [] then "" else "_") + UnderscoreSpaces(t)
  {
    var k := if ws == [] then "" else "_";
    assert w + ws + t == w + (ws + t);
    UnderscoreSpacesPrefix(w, ws + t);
    if ws == [] {
      assert ws + t == t;
    } else {
      UnderscoreSpacesRun(ws, t);
    }
    assert w + (k + UnderscoreSpaces(t)) == w + k + UnderscoreSpaces(t);
  }

  /** A stretch without whitespace is copied in front of the rewrite of what follows it. */
  lemma {:induction false} UnderscoreSpacesPrefix(w: string, u: string)
    requires forall i :: 0 <= i < |w| ==> !JsSpace(w[i])
    ensures UnderscoreSpaces(w + u) == w + UnderscoreSpaces(u)
    decreases |w|
  {
    if w != [] {
      assert forall i :: 0 <= i < |w[1..]| ==> w[1..][i] == w[i + 1];
      UnderscoreSpacesPrefix(w[1..], u);
      UnderscoreSpacesStep(w, u, UnderscoreSpaces(u));
    } else {
      assert w + u == u && w + UnderscoreSpaces(u) == UnderscoreSpaces(u);
    }
  }

  /** A first character other than whitespace is copied ahead of the rewrite of the rest. */
  lemma UnderscoreSpacesStep(w: string, u: string, x: string)
    requires w != [] && !JsSpace(w[0])
    requires UnderscoreSpaces(w[1..] + u) == w[1..] + x
    ensures UnderscoreSpaces(w + u) == w + x
  {
    var c, v := w[0], w[1..];
    assert w + u == [c] + (v + u);
    assert ([c] + (v + u))[1..] == v + u;
    assert w + x == [c] + (v + x);
  }

  /** A whitespace run before a non-space becomes a single '_'. */
  lemma UnderscoreSpacesRun(ws: string, t: string)
    requires ws != [] && forall i :: 0 <= i < |ws| ==> JsSpace(ws[i])
    requires t == [] || !JsSpace(t[0])
    ensures UnderscoreSpaces(ws + t) == "_" + UnderscoreSpaces(t)
  {
    assert forall i :: 0 <= i < |ws[1..]| ==> ws[1..][i] == ws[i + 1];
    DropJsSpacesRun(ws[1..], t);
    assert (ws + t)[0] == ws[0] && (ws + t)[1..] == ws[1..] + t;
    assert JsSpace(ws[0]);
  }

  /** A string without whitespace is left as it is. */
  lemma {:induction false} UnderscoreSpacesFixed(s: string)
    requires forall i :: 0 <= i < |s| ==> !JsSpace(s[i])
    ensures UnderscoreSpaces(s) == s
    decreases |s|
  {
    if s != [] {
      assert !JsSpace(s[0]);
      assert forall i :: 0 <= i < |s[1..]| ==> s[1..][i] == s[i + 1];
      UnderscoreSpacesFixed(s[1..]);
      assert s == [s[0]] + s[1..];
    }
  }

  /** Only '_' is added: any other character absent from s stays absent. */
  lemma {:induction false} UnderscoreSpacesAvoids(s: string, c: char)
    requires c !in s && c != '_'
    ensures c !in UnderscoreSpaces(s)
    decreases |s|
  {
    if s != [] {
      if JsSpace(s[0]) {
        var d := DropJsSpaces(s[1..]);
        assert c !in s[1..];
        UnderscoreSpacesAvoids(d, c);
      } else {
        assert c !in s[1..];
        UnderscoreSpacesAvoids(s[1..], c);
      }
    }
  }

  /** The leading `\s*` of a string removed. */
  function DropJsSpaces(s: string): (r: string)
    ensures |r| <= |s|
    ensures r == [] || !JsSpace(r[0])
    ensures forall c :: c in r ==> c in s
  {
    if s != [] && JsSpace(s[0]) then DropJsSpaces(s[1..]) else s
  }

  /** A whitespace run followed by a non-space (or nothing) is dropped exactly. */
  lemma {:induction false} DropJsSpacesRun(ws: string, t: string)
    requires forall i :: 0 <= i < |ws| ==> JsSpace(ws[i])
    requires t == [] || !JsSpace(t[0])
    ensures DropJsSpaces(ws + t) == t
    decreases |ws|
  {
    if ws == [] {
      assert ws + t == t;
    } else {
      DropJsSpacesRun(ws[1..], t);
      assert (ws + t)[1..] == ws[1..] + t;
    }
  }

  /** `s.lstrip()`: the leading whitespace removed. */
  function DropSpaces(s: string): (r: string)
    ensures |r| <= |s|
    ensures r == [] || !IsSpace(r[0])
    ensures forall i :: 0 <= i < |s| - |r| ==> IsSpace(s[i])
    ensures forall c :: c in r ==> c in s
    ensures s == [] || !IsSpace(s[0]) ==> r == s
  {
    if s != [] && IsSpace(s[0]) then DropSpaces(s[1..]) else s
  }

  /** What is left is the input after the dropped whitespace. */
  lemma {:induction false} DropSpacesSuffix(s: string)
    ensures var r := DropSpaces(s); r == s[|s| - |r|..]
    decreases |s|
  {
    if s != [] && IsSpace(s[0]) {
      var r := DropSpaces(s[1..]);
      DropSpacesSuffix(s[1..]);
      assert s[1..][|s[1..]| - |r|..] == s[|s| - |r|..];
    }
  }

  /** A whitespace run followed by a non-space is dropped exactly. */
  lemma {:induction false} DropSpacesRun(ws: string, t: string)
    requires forall i :: 0 <= i < |ws| ==> IsSpace(ws[i])
    requires t == [] || !IsSpace(t[0])
    ensures DropSpaces(ws + t) == t
    decreases |ws|
  {
    if ws == [] {
      assert ws + t == t;
    } else {
      DropSpacesRun(ws[1..], t);
      assert (ws + t)[1..] == ws[1..] + t;
    }
  }

  /** s with every occurrence of c deleted, the other characters kept in order. */
  function Erase(s: string, c: char): (r: string)
    ensures c !in r
    ensures |r| <= |s|
    ensures c !in s ==> r == s
  {
    if s == [] then [] else (if s[0] == c then [] else [s[0]]) + Erase(s[1..], c)
  }

  /** Erasing distributes over concatenation. */
  lemma {:induction false} EraseAppend(a: string, b: string, c: char)
    ensures Erase(a + b, c) == Erase(a, c) + Erase(b, c)
    decreases |a|
  {
    if a != [] {
      var ab := a + b;
      assert ab[0] == a[0] && ab[1..] == a[1..] + b;
      EraseAppend(a[1..], b, c);
      assert Erase(ab, c) == (if a[0] == c then [] else [a[0]]) + Erase(a[1..] + b, c);
    } else {
      assert a + b == b;
    }
  }

  /** Python `str.strip()`: the whitespace at both ends removed. */
  function Strip(s: string): (r: string)
    ensures r == [] || (!IsSpace(r[0]) && !IsSpace(r[|r| - 1]))
  {
    RStrip(DropSpaces(s))
  }

  /** Python `str.rstrip()`: the trailing whitespace removed. */
  function RStrip(s: string): (r: string)
    ensures StartsWith(s, r)
    ensures r == [] || !IsSpace(r[|r| - 1])
    ensures forall i :: |r| <= i < |s| ==> IsSpace(s[i])
    decreases |s|
  {
    if s != [] && IsSpace(s[|s| - 1]) then RStrip(s[..|s| - 1]) else s
  }

  /** Trailing whitespace after a part that does not end in whitespace is removed exactly. */
  lemma {:induction false} RStripRun(m: string, ws: string)
    requires m == [] || !IsSpace(m[|m| - 1])
    requires forall i :: 0 <= i < |ws| ==> IsSpace(ws[i])
    ensures RStrip(m + ws) == m
    decreases |ws|
  {
    if ws == [] {
      assert m + ws == m;
    } else {
      var u := m + ws;
      assert u[|u| - 1] == ws[|ws| - 1];
      assert u[..|u| - 1] == m + ws[..|ws| - 1];
      RStripRun(m, ws[..|ws| - 1]);
    }
  }

  /** Stripping removes exactly the surrounding whitespace and keeps the middle. */
  lemma StripMeans(ws1: string, m: string, ws2: string)
    requires forall i :: 0 <= i < |ws1| ==> IsSpace(ws1[i])
    requires forall i :: 0 <= i < |ws2| ==> IsSpace(ws2[i])
    requires m == [] || (!IsSpace(m[0]) && !IsSpace(m[|m| - 1]))
    ensures Strip(ws1 + m + ws2) == m
  {
    assert ws1 + m + ws2 == ws1 + (m + ws2);
    if m == [] {
      assert m + ws2 == ws2 && ws2 == ws2 + [];
      DropSpacesRun(ws1 + ws2, []);
      assert ws1 + ws2 + [] == ws1 + (m + ws2);
    } else {
      assert (m + ws2)[0] == m[0];
      DropSpacesRun(ws1, m + ws2);
      RStripRun(m, ws2);
    }
  }

  /** Every line is its strip surrounded by whitespace. */
  lemma StripParts(s: string)
    ensures var k := |s| - |DropSpaces(s)|; var r := Strip(s);
      k + |r| <= |s| && s[k..k + |r|] == r &&
      (forall i :: 0 <= i < k ==> IsSpace(s[i])) &&
      forall i :: k + |r| <= i < |s| ==> IsSpace(s[i])
  {
    var d := DropSpaces(s);
    var k := |s| - |d|;
    var r := RStrip(d);
    assert Strip(s) == r;
    DropSpacesSuffix(s);
    StripTail(s, d, k, r);
  }

  /** The trailing part of a line cut off after its leading whitespace is whitespace. */
  lemma StripTail(s: string, d: string, k: nat, r: string)
    requires k <= |s| && d == s[k..]
    requires StartsWith(d, r)
    requires forall i :: |r| <= i < |d| ==> IsSpace(d[i])
    ensures k + |r| <= |s| && s[k..k + |r|] == r
    ensures forall i :: k + |r| <= i < |s| ==> IsSpace(s[i])
  {
    assert d[..|r|] == r;
    assert s[k..k + |r|] == d[..|r|];
    forall i | k + |r| <= i < |s|
      ensures IsSpace(s[i])
    {
      assert s[i] == d[i - k];
    }
  }

  /** A natural number written in decimal, as `String(n)` and `str(n)` write it. */
  function Decimal(n: nat): (r: string)
    ensures r != []
    ensures forall i :: 0 <= i < |r| ==> IsDigit(r[i])
    ensures r[0] == '0' ==> n == 0 && r == "0"
  {
    if n < 10 then [DigitChar(n)] else Decimal(n / 10) + [DigitChar(n % 10)]
  }

  /** The value of a string of decimal digits, as `int(s)` reads it. */
  function DigitsValue(s: string): nat
    requires forall i :: 0 <= i < |s| ==> IsDigit(s[i])
    decreases |s|
  {
    if s == [] then 0 else DigitsValue(s[..|s| - 1]) * 10 + DecimalDigit(s[|s| - 1])
  }

  /** Reading back the decimal form of n gives n. */
  lemma {:induction false} DecimalValue(n: nat)
    ensures DigitsValue(Decimal(n)) == n
    decreases n
  {
    if n >= 10 {
      var x := Decimal(n / 10);
      DecimalValue(n / 10);
      assert (x + [DigitChar(n % 10)])[..|x|] == x;
    }
  }

  /** A digit string without a leading zero (other than "0" itself) is the decimal form of its value. */
  lemma {:induction false} DecimalOfValue(s: string)
    requires s != [] && forall i :: 0 <= i < |s| ==> IsDigit(s[i])
    requires s[0] == '0' ==> s == "0"
    ensures Decimal(DigitsValue(s)) == s
    decreases |s|
  {
    var p, d := s[..|s| - 1], s[|s| - 1];
    if p != [] {
      assert p[0] == s[0];
      DecimalOfValue(p);
      LeadingDigitPositive(p);
      var v := DigitsValue(s);
      assert v / 10 == DigitsValue(p) && v % 10 == DecimalDigit(d);
      assert s == p + [d];
    }
  }

  /** A digit string starting with a non-zero digit has a positive value. */
  lemma {:induction false} LeadingDigitPositive(s: string)
    requires s != [] && forall i :: 0 <= i < |s| ==> IsDigit(s[i])
    requires s[0] != '0'
    ensures DigitsValue(s) > 0
    decreases |s|
  {
    if |s| > 1 {
      assert s[..|s| - 1][0] == s[0];
      LeadingDigitPositive(s[..|s| - 1]);
    }
  }

  /** The value of a decimal digit. */
  function DecimalDigit(c: char): (d: nat)
    requires IsDigit(c)
    ensures d < 10 && DigitChar(d) == c
  {
    (c as int - '0' as int) as nat
  }

  function DigitChar(d: nat): (c: char)
    requires d < 10
    ensures IsDigit(c)
  {
    ('0' as int + d) as char
  }
}
