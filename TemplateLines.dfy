// Line normalisation of scripts/template_checker/template_checker.py: the
// value-hiding regular expressions of IGNORE_PATTERNS and normalize_line,
// each written out as the deterministic scan its regular expression
// performs. Lines are modelled without their line terminators; `\s` is
// Python's whitespace (IsSpace) and `\d` the ASCII digits.

module TemplateLines {
  import opened Strings

  /** `[a-zA-Z0-9_]` */
  predicate WordChar(c: char)
  {
    'a' <= c <= 'z' || 'A' <= c <= 'Z' || '0' <= c <= '9' || c == '_'
  }

  /** `[A-Z0-9_]` */
  predicate EnvChar(c: char)
  {
    'A' <= c <= 'Z' || '0' <= c <= '9' || c == '_'
  }

  /** The end of the longest run of characters satisfying p from position i. */
  function SkipWhile(s: string, i: nat, p: char -> bool): (j: nat)
    requires i <= |s|
    ensures i <= j <= |s|
    ensures forall k :: i <= k < j ==> p(s[k])
    ensures j == |s| || !p(s[j])
    decreases |s| - i
  {
    if i < |s| && p(s[i]) then SkipWhile(s, i + 1, p) else i
  }

  /** The first position at or after `from` holding c. */
  function FirstIndex(s: string, c: char, from: nat): (r: Option<nat>)
    requires from <= |s|
    ensures r.Some? ==> from <= r.value < |s| && s[r.value] == c && forall k :: from <= k < r.value ==> s[k] != c
    ensures r.None? ==> forall k :: from <= k < |s| ==> s[k] != c
    decreases |s| - from
  {
    if from == |s| then None
    else if s[from] == c then Some(from)
    else FirstIndex(s, c, from + 1)
  }

  predicate OccursAt(s: string, m: string, k: int)
  {
    0 <= k && k + |m| <= |s| && s[k..k + |m|] == m
  }

  /** The last occurrence of m in s at or before position `upTo`. */
  function LastBefore(s: string, m: string, upTo: int): (r: Option<nat>)
    ensures r.Some? ==> r.value <= upTo && OccursAt(s, m, r.value)
    ensures r.Some? ==> forall k :: r.value < k <= upTo ==> !OccursAt(s, m, k)
    ensures r.None? ==> forall k :: 0 <= k <= upTo ==> !OccursAt(s, m, k)
    decreases upTo + 1
  {
    if upTo < 0 then None
    else if OccursAt(s, m, upTo) then Some(upTo)
    else LastBefore(s, m, upTo - 1)
  }

  /** The last occurrence of m in s: where a greedy `.*` before m stops. */
  function LastIndexOf(s: string, m: string): (r: Option<nat>)
    ensures r.Some? ==> OccursAt(s, m, r.value)
    ensures r.Some? ==> forall k :: r.value < k ==> !OccursAt(s, m, k)
    ensures r.None? ==> forall k :: !OccursAt(s, m, k)
  {
    LastBefore(s, m, |s|)
  }

  // ---------------------------------------------------------------------
  // The matchers, shared by is_value_line and normalize_line

  /** `^([A-Z0-9_]+)=`: the position of the '=' after a non-empty name. */
  function EnvMatch(s: string): (r: Option<nat>)
    ensures r.Some? ==> 1 <= r.value < |s| && s[r.value] == '=' && forall k :: 0 <= k < r.value ==> EnvChar(s[k])
  {
    var k := SkipWhile(s, 0, EnvChar);
    if 1 <= k < |s| && s[k] == '=' then Some(k) else None
  }

  /**
   * `^\s*"?[a-zA-Z0-9_]+"?\s*:\s*`: the end of a JSON or YAML key and its
   * colon. Each part can match in one way only, so the scan is greedy.
   */
  function JsonKey(s: string): (r: Option<nat>)
    ensures r.Some? ==> r.value <= |s| && (r.value == |s| || !IsSpace(s[r.value]))
  {
    var i0 := SkipWhile(s, 0, IsSpace);
    var i1 := if i0 < |s| && s[i0] == '"' then i0 + 1 else i0;
    var i2 := SkipWhile(s, i1, WordChar);
    if i2 == i1 then None else KeyColon(s, i2)
  }

  /** `"?\s*:\s*` from position i: the rest of a key after its word. */
  function KeyColon(s: string, i: nat): (r: Option<nat>)
    requires i <= |s|
    ensures r.Some? ==> i < r.value <= |s| && (r.value == |s| || !IsSpace(s[r.value]))
  {
    var i3 := if i < |s| && s[i] == '"' then i + 1 else i;
    var i4 := SkipWhile(s, i3, IsSpace);
    if i4 < |s| && s[i4] == ':' then Some(SkipWhile(s, i4 + 1, IsSpace)) else None
  }

  /**
   * The key followed by `"[^"]*"`: the key's end, where the opening quote
   * stands, and the first quote after it, which closes the string.
   */
  function JsonStringMatch(s: string): (r: Option<(nat, nat)>)
    ensures r.Some? ==> JsonKey(s) == Some(r.value.0)
    ensures r.Some? ==> r.value.0 < r.value.1 < |s| && s[r.value.0] == '"' && s[r.value.1] == '"'
    ensures r.Some? ==> forall k :: r.value.0 < k < r.value.1 ==> s[k] != '"'
    ensures r.None? ==> JsonKey(s).None? || JsonKey(s).value == |s| || s[JsonKey(s).value] != '"' ||
                        forall k :: JsonKey(s).value < k < |s| ==> s[k] != '"'
  {
    var p := JsonKey(s);
    if p.None? || p.value >= |s| || s[p.value] != '"' then None
    else
      var close := FirstIndex(s, '"', p.value + 1);
      if close.None? then None else Some((p.value, close.value))
  }

  /** The key followed by `\d+`: the key's end, where a digit stands. */
  function JsonNumberMatch(s: string): (r: Option<nat>)
    ensures r.Some? ==> JsonKey(s) == r && r.value < |s| && IsDigit(s[r.value])
    ensures r.None? ==> JsonKey(s).None? || JsonKey(s).value == |s| || !IsDigit(s[JsonKey(s).value])
  {
    var p := JsonKey(s);
    if p.Some? && p.value < |s| && IsDigit(s[p.value]) then p else None
  }

  /**
   * `^\s*-\s*"[^"]*=[^"]*"$`: a quoted list item holding '=' and ending the
   * line; the result is the end of the group `^\s*-\s*"[^"]*=`, which ends at
   * the last '='.
   */
  function DockerMatch(s: string): (r: Option<nat>)
    ensures r.Some? ==> 1 <= r.value < |s| && s[r.value - 1] == '=' && s[|s| - 1] == '"'
  {
    var i0 := SkipWhile(s, 0, IsSpace);
    if i0 >= |s| || s[i0] != '-' then None
    else
      var i1 := SkipWhile(s, i0 + 1, IsSpace);
      if i1 + 2 > |s| || s[i1] != '"' || s[|s| - 1] != '"' then None
      else
        var body := s[i1 + 1..|s| - 1];
        if '"' in body then None
        else
          var e := LastIndexOf(body, "=");
          if e.None? then None
          else
            assert body[e.value] == '=';
            Some(i1 + 1 + e.value + 1)
  }

  // ---------------------------------------------------------------------
  // What the matchers match, stated on the parts of a line

  predicate AllSpace(w: string)
  {
    forall i :: 0 <= i < |w| ==> IsSpace(w[i])
  }

  predicate AllWord(w: string)
  {
    forall i :: 0 <= i < |w| ==> WordChar(w[i])
  }

  predicate AllDigits(w: string)
  {
    forall i :: 0 <= i < |w| ==> IsDigit(w[i])
  }

  /** A run of characters with the property, then one without it (or the end), is where the scan stops. */
  lemma SkipWhileIs(s: string, i: nat, j: nat, p: char -> bool)
    requires i <= j <= |s|
    requires forall k :: i <= k < j ==> p(s[k])
    requires j == |s| || !p(s[j])
    ensures SkipWhile(s, i, p) == j
  {
  }

  lemma WordNotSpace(c: char)
    requires WordChar(c) || c == '"' || c == ':' || c == '-'
    ensures !IsSpace(c)
  {
  }

  /** The tail of a key laid out by position: the scan stops after the whitespace behind the colon. */
  lemma KeyColonAt(s: string, i2: nat, i3: nat, i4: nat, e: nat)
    requires i2 <= i3 <= i4 < e <= |s|
    requires i3 == i2 || (i3 == i2 + 1 && s[i2] == '"')
    requires forall k :: i3 <= k < i4 ==> IsSpace(s[k])
    requires s[i4] == ':'
    requires forall k :: i4 < k < e ==> IsSpace(s[k])
    requires e == |s| || !IsSpace(s[e])
    ensures KeyColon(s, i2) == Some(e)
  {
    assert !IsSpace(':');
    if i2 == i3 && i2 < i4 {
      assert IsSpace(s[i2]);
      assert s[i2] != '"';
    }
    SkipWhileIs(s, i3, i4, IsSpace);
    SkipWhileIs(s, i4 + 1, e, IsSpace);
  }

  /** Where the tail of a key the scan found lies in s. */
  lemma KeyColonPositions(s: string, i2: nat) returns (i3: nat, i4: nat)
    requires i2 <= |s| && KeyColon(s, i2).Some?
    ensures i2 <= i3 <= i4 < KeyColon(s, i2).value
    ensures i3 == i2 || (i3 == i2 + 1 && s[i2] == '"')
    ensures forall k :: i3 <= k < i4 ==> IsSpace(s[k])
    ensures s[i4] == ':'
    ensures forall k :: i4 < k < KeyColon(s, i2).value ==> IsSpace(s[k])
  {
    i3 := if i2 < |s| && s[i2] == '"' then i2 + 1 else i2;
    i4 := SkipWhile(s, i3, IsSpace);
  }

  /** The head of a key laid out by position: JsonKey goes on with the tail after the word. */
  lemma JsonKeyHeadAt(s: string, i0: nat, i1: nat, i2: nat)
    requires i0 <= i1 < i2 <= |s|
    requires forall k :: 0 <= k < i0 ==> IsSpace(s[k])
    requires i1 == i0 || (i1 == i0 + 1 && s[i0] == '"')
    requires forall k :: i1 <= k < i2 ==> WordChar(s[k])
    requires i2 == |s| || !WordChar(s[i2])
    ensures JsonKey(s) == KeyColon(s, i2)
  {
    WordNotSpace(s[i0]);
    SkipWhileIs(s, 0, i0, IsSpace);
    SkipWhileIs(s, i1, i2, WordChar);
  }

  /** Where the head of a key the matcher found lies in s. */
  lemma JsonKeyHead(s: string) returns (i0: nat, i1: nat, i2: nat)
    requires JsonKey(s).Some?
    ensures i0 <= i1 < i2 <= |s|
    ensures forall k :: 0 <= k < i0 ==> IsSpace(s[k])
    ensures i1 == i0 || (i1 == i0 + 1 && s[i0] == '"')
    ensures forall k :: i1 <= k < i2 ==> WordChar(s[k])
    ensures i2 == |s| || !WordChar(s[i2])
    ensures JsonKey(s) == KeyColon(s, i2)
  {
    i0 := SkipWhile(s, 0, IsSpace);
    i1 := if i0 < |s| && s[i0] == '"' then i0 + 1 else i0;
    i2 := SkipWhile(s, i1, WordChar);
  }

  /** Text matching `^\s*"?[a-zA-Z0-9_]+"?\s*:\s*`, given its parts. */
  function KeyText(ws1: string, q1: string, k: string, q2: string, ws2: string, ws3: string): string
  {
    ws1 + q1 + k + q2 + ws2 + ":" + ws3
  }

  /** Parts that make up a key: whitespace, an optional quote, a word, an optional quote, whitespace, ':' and whitespace. */
  predicate KeyParts(ws1: string, q1: string, k: string, q2: string, ws2: string, ws3: string)
  {
    AllSpace(ws1) && (q1 == "" || q1 == "\"") && k != [] && AllWord(k) &&
    (q2 == "" || q2 == "\"") && AllSpace(ws2) && AllSpace(ws3)
  }

  /** Every key the matcher finds is made of those parts. */
  lemma JsonKeyParts(s: string) returns (ws1: string, q1: string, k: string, q2: string, ws2: string, ws3: string)
    requires JsonKey(s).Some?
    ensures KeyParts(ws1, q1, k, q2, ws2, ws3)
    ensures JsonKey(s).value == |KeyText(ws1, q1, k, q2, ws2, ws3)|
    ensures s == KeyText(ws1, q1, k, q2, ws2, ws3) + s[JsonKey(s).value..]
  {
    var i0, i1, i2 := JsonKeyHead(s);
    var i3, i4 := KeyColonPositions(s, i2);
    ws1, q1, k, q2, ws2, ws3 := KeyCut(s, i0, i1, i2, i3, i4, JsonKey(s).value);
  }

  /** The parts of a key laid out by position in s. */
  lemma KeyCut(s: string, i0: nat, i1: nat, i2: nat, i3: nat, i4: nat, e: nat)
    returns (ws1: string, q1: string, k: string, q2: string, ws2: string, ws3: string)
    requires i0 <= i1 < i2 <= i3 <= i4 < e <= |s|
    requires forall k :: 0 <= k < i0 ==> IsSpace(s[k])
    requires i1 == i0 || (i1 == i0 + 1 && s[i0] == '"')
    requires forall k :: i1 <= k < i2 ==> WordChar(s[k])
    requires i3 == i2 || (i3 == i2 + 1 && s[i2] == '"')
    requires forall k :: i3 <= k < i4 ==> IsSpace(s[k])
    requires s[i4] == ':'
    requires forall k :: i4 < k < e ==> IsSpace(s[k])
    ensures KeyParts(ws1, q1, k, q2, ws2, ws3)
    ensures e == |KeyText(ws1, q1, k, q2, ws2, ws3)|
    ensures s == KeyText(ws1, q1, k, q2, ws2, ws3) + s[e..]
  {
    ws1, q1, k, q2, ws2, ws3 := s[..i0], s[i0..i1], s[i1..i2], s[i2..i3], s[i3..i4], s[i4 + 1..e];
    SpaceSlice(s, 0, i0);
    WordSlice(s, i1, i2);
    SpaceSlice(s, i3, i4);
    SpaceSlice(s, i4 + 1, e);
    assert i1 > i0 ==> q1 == [s[i0]];
    assert i3 > i2 ==> q2 == [s[i2]];
    SplitSix(s, i0, i1, i2, i3, i4, e);
  }

  /** s cut at six positions, the fifth part being one ':'. */
  lemma SplitSix(s: string, i0: nat, i1: nat, i2: nat, i3: nat, i4: nat, e: nat)
    requires i0 <= i1 <= i2 <= i3 <= i4 < e <= |s| && s[i4] == ':'
    ensures s == s[..i0] + s[i0..i1] + s[i1..i2] + s[i2..i3] + s[i3..i4] + ":" + s[i4 + 1..e] + s[e..]
  {
    assert s[..i1] == s[..i0] + s[i0..i1];
    assert s[..i2] == s[..i1] + s[i1..i2];
    assert s[..i3] == s[..i2] + s[i2..i3];
    assert s[..i4] == s[..i3] + s[i3..i4];
    assert s[..i4 + 1] == s[..i4] + ":";
    assert s[..e] == s[..i4 + 1] + s[i4 + 1..e];
    assert s == s[..e] + s[e..];
  }

  lemma SpaceSlice(s: string, lo: nat, hi: nat)
    requires lo <= hi <= |s|
    requires forall k :: lo <= k < hi ==> IsSpace(s[k])
    ensures AllSpace(s[lo..hi])
  {
    assert forall j :: 0 <= j < hi - lo ==> s[lo..hi][j] == s[lo + j];
  }

  lemma WordSlice(s: string, lo: nat, hi: nat)
    requires lo <= hi <= |s|
    requires forall k :: lo <= k < hi ==> WordChar(s[k])
    ensures AllWord(s[lo..hi])
  {
    assert forall j :: 0 <= j < hi - lo ==> s[lo..hi][j] == s[lo + j];
  }

  /** The last '=' of `a=v` with no '=' in v is the one after a. */
  lemma LastEquals(a: string, v: string)
    requires '=' !in v
    ensures LastIndexOf(a + "=" + v, "=") == Some(|a|)
  {
    var b := a + "=" + v;
    assert b[|a|..|a| + 1] == "=";
    assert OccursAt(b, "=", |a|);
    forall j | |a| < j
      ensures !OccursAt(b, "=", j)
    {
      if j < |b| {
        assert b[j] == v[j - |a| - 1];
        assert b[j..j + 1][0] == b[j];
      }
    }
  }

  /** A list item laid out by position in s: DockerMatch ends after the last '=' inside the quotes. */
  lemma DockerAt(s: string, i0: nat, i1: nat, e: nat)
    requires i0 < i1 < e < |s| - 1
    requires forall k :: 0 <= k < i0 ==> IsSpace(s[k])
    requires s[i0] == '-'
    requires forall k :: i0 < k < i1 ==> IsSpace(s[k])
    requires s[i1] == '"' && s[e] == '=' && s[|s| - 1] == '"'
    requires forall k :: i1 < k < |s| - 1 ==> s[k] != '"'
    requires forall k :: e < k < |s| - 1 ==> s[k] != '='
    ensures DockerMatch(s) == Some(e + 1)
  {
    WordNotSpace('-');
    SkipWhileIs(s, 0, i0, IsSpace);
    WordNotSpace('"');
    SkipWhileIs(s, i0 + 1, i1, IsSpace);
    var body := s[i1 + 1..|s| - 1];
    assert '"' !in body;
    assert body == body[..e - i1 - 1] + "=" + body[e - i1..];
    LastEquals(body[..e - i1 - 1], body[e - i1..]);
  }

  /** A quoted list item `- "a=v"` with no quote inside and no '=' in v is matched up to its last '='. */
  lemma DockerMeans(ws1: string, ws2: string, a: string, v: string)
    requires AllSpace(ws1) && AllSpace(ws2)
    requires '"' !in a && '"' !in v && '=' !in v
    ensures DockerMatch(ws1 + "-" + ws2 + "\"" + a + "=" + v + "\"") == Some(|ws1| + |ws2| + |a| + 3)
  {
    var s := ws1 + "-" + ws2 + "\"" + a + "=" + v + "\"";
    var i0 := |ws1|;
    var i1 := i0 + 1 + |ws2|;
    var e := i1 + 1 + |a|;
    assert forall j :: 0 <= j < i0 ==> s[j] == ws1[j];
    assert s[i0] == '-';
    assert forall j :: i0 < j < i1 ==> s[j] == ws2[j - i0 - 1];
    assert s[i1] == '"' && s[e] == '=' && s[|s| - 1] == '"';
    assert forall j :: i1 < j < e ==> s[j] == a[j - i1 - 1];
    assert forall j :: e < j < |s| - 1 ==> s[j] == v[j - e - 1];
    DockerAt(s, i0, i1, e);
  }

  /** Where the parts of a list item the matcher found lie in s. */
  lemma DockerPositions(s: string) returns (i0: nat, i1: nat)
    requires DockerMatch(s).Some?
    ensures i0 < i1 < DockerMatch(s).value - 1 < |s| - 1
    ensures forall k :: 0 <= k < i0 ==> IsSpace(s[k])
    ensures s[i0] == '-'
    ensures forall k :: i0 < k < i1 ==> IsSpace(s[k])
    ensures s[i1] == '"' && s[DockerMatch(s).value - 1] == '=' && s[|s| - 1] == '"'
    ensures forall k :: i1 < k < |s| - 1 ==> s[k] != '"'
    ensures forall k :: DockerMatch(s).value - 1 < k < |s| - 1 ==> s[k] != '='
  {
    i0 := SkipWhile(s, 0, IsSpace);
    i1 := SkipWhile(s, i0 + 1, IsSpace);
    var body := s[i1 + 1..|s| - 1];
    var e := LastIndexOf(body, "=").value;
    assert forall k :: i1 < k < |s| - 1 ==> s[k] == body[k - i1 - 1];
    forall k | e < k < |body|
      ensures body[k] != '='
    {
      assert !OccursAt(body, "=", k);
      assert body[k..k + 1] == [body[k]];
    }
  }

  lemma NotInSlice(s: string, lo: nat, hi: nat, c: char)
    requires lo <= hi <= |s|
    requires forall k :: lo <= k < hi ==> s[k] != c
    ensures c !in s[lo..hi]
  {
    assert forall j :: 0 <= j < hi - lo ==> s[lo..hi][j] == s[lo + j];
  }

  /** s cut around a list item's '-', opening quote, '=' and closing quote. */
  lemma SplitItem(s: string, i0: nat, i1: nat, e: nat)
    requires i0 < i1 < e < |s| - 1
    requires s[i0] == '-' && s[i1] == '"' && s[e] == '=' && s[|s| - 1] == '"'
    ensures s == s[..i0] + "-" + s[i0 + 1..i1] + "\"" + s[i1 + 1..e] + "=" + s[e + 1..|s| - 1] + "\""
  {
    assert s[..i0 + 1] == s[..i0] + "-";
    assert s[..i1] == s[..i0 + 1] + s[i0 + 1..i1];
    assert s[..i1 + 1] == s[..i1] + "\"";
    assert s[..e] == s[..i1 + 1] + s[i1 + 1..e];
    assert s[..e + 1] == s[..e] + "=";
    assert s[..|s| - 1] == s[..e + 1] + s[e + 1..|s| - 1];
    assert s == s[..|s| - 1] + "\"";
  }

  /** Every list item the matcher finds has that form. */
  lemma DockerParts(s: string) returns (ws1: string, ws2: string, a: string, v: string)
    requires DockerMatch(s).Some?
    ensures AllSpace(ws1) && AllSpace(ws2)
    ensures '"' !in a && '"' !in v && '=' !in v
    ensures s == ws1 + "-" + ws2 + "\"" + a + "=" + v + "\""
    ensures DockerMatch(s).value == |ws1| + |ws2| + |a| + 3
  {
    var i0, i1 := DockerPositions(s);
    var e := DockerMatch(s).value - 1;
    ws1, ws2, a, v := s[..i0], s[i0 + 1..i1], s[i1 + 1..e], s[e + 1..|s| - 1];
    NotInSlice(s, i1 + 1, e, '"');
    NotInSlice(s, e + 1, |s| - 1, '"');
    NotInSlice(s, e + 1, |s| - 1, '=');
    SplitItem(s, i0, i1, e);
  }

  // ---------------------------------------------------------------------
  // IGNORE_PATTERNS and the substitutions of normalize_line, rule by rule:
  // the i-th substitution rewrites exactly the lines the i-th pattern matches

  datatype Rule =
    | EnvAssign                          // `^([A-Z0-9_]+)=.*$`
    | Secret(marker: string, placeholder: string)  // `.*_SECRET=.*$` and its kin
    | JsonString                         // `^\s*"?[a-zA-Z0-9_]+"?\s*:\s*"[^"]*"`
    | JsonNumber                         // `^\s*"?[a-zA-Z0-9_]+"?\s*:\s*\d+`
    | DockerEnv                          // `^\s*-\s*"[^"]*=[^"]*"$`

  const IgnorePatterns: seq<Rule> := [
    EnvAssign,
    Secret("_SECRET=", "<SECRET>"), Secret("_KEY=", "<KEY>"),
    Secret("_TOKEN=", "<TOKEN>"), Secret("_PASSWORD=", "<PASSWORD>"),
    JsonString, JsonNumber, DockerEnv]

  /** `re.match(pattern, s)` succeeds. */
  predicate Matches(rule: Rule, s: string)
  {
    match rule
    case EnvAssign => EnvMatch(s).Some?
    case Secret(m, _) => LastIndexOf(s, m).Some?
    case JsonString => JsonStringMatch(s).Some?
    case JsonNumber => JsonNumberMatch(s).Some?
    case DockerEnv => DockerMatch(s).Some?
  }

  /** The substitution normalize_line makes for the rule. */
  function Substitute(rule: Rule, s: string): (r: string)
    ensures !Matches(rule, s) ==> r == s
  {
    match rule
    case EnvAssign =>
      // `^([A-Z0-9_]+)=.*$` → `\1=<VALUE>`
      var m := EnvMatch(s);
      if m.Some? then s[..m.value] + "=<VALUE>" else s
    case Secret(marker, placeholder) =>
      // `^(.*M).*$` → `\1` + placeholder: cut after the last M
      var j := LastIndexOf(s, marker);
      if j.Some? then s[..j.value + |marker|] + placeholder else s
    case JsonString =>
      // the key, then `"[^"]*"` → `"<VALUE>"`
      var m := JsonStringMatch(s);
      if m.Some? then s[..m.value.0] + "\"<VALUE>\"" + s[m.value.1 + 1..] else s
    case JsonNumber =>
      // the key, then `\d+` → `<NUMBER>`
      var m := JsonNumberMatch(s);
      if m.Some? then s[..m.value] + "<NUMBER>" + s[SkipWhile(s, m.value, IsDigit)..] else s
    case DockerEnv =>
      // `(^\s*-\s*"[^"]*=)[^"]*"$` → `\1<VALUE>"`
      var m := DockerMatch(s);
      if m.Some? then s[..m.value] + "<VALUE>\"" else s
  }

  /** The substitutions applied one after another. */
  function SubstituteAll(rules: seq<Rule>, s: string): string
  {
    if rules == [] then s else SubstituteAll(rules[1..], Substitute(rules[0], s))
  }

  /** normalize_line: strip, then every substitution in order. */
  function Normalize(line: string): string
  {
    SubstituteAll(IgnorePatterns, Strip(line))
  }

  /** is_value_line: some pattern matches the line. */
  predicate IsValueLine(line: string)
  {
    exists i :: 0 <= i < |IgnorePatterns| && Matches(IgnorePatterns[i], line)
  }

  /** is_value_line as its loop: the patterns are tried in order until one matches. */
  method CheckValueLine(line: string) returns (isValue: bool)
    ensures isValue == IsValueLine(line)
  {
    var i := 0;
    while i < |IgnorePatterns|
      invariant i <= |IgnorePatterns|
      invariant forall k :: 0 <= k < i ==> !Matches(IgnorePatterns[k], line)
    {
      if Matches(IgnorePatterns[i], line) {
        return true;
      }
      i := i + 1;
    }
    return false;
  }

  /** Substitutions of rules that match nothing leave a line as it is. */
  lemma {:induction false} SubstituteAllIdle(rules: seq<Rule>, s: string)
    requires forall i :: 0 <= i < |rules| ==> !Matches(rules[i], s)
    ensures SubstituteAll(rules, s) == s
    decreases |rules|
  {
    if rules != [] {
      SubstituteAllIdle(rules[1..], s);
    }
  }

  /**
   * Normalisation only ever rewrites a value line: a stripped line that
   * matches none of IGNORE_PATTERNS comes out unchanged.
   */
  lemma NormalizeChangesOnlyValueLines(line: string)
    ensures Normalize(line) != Strip(line) ==> IsValueLine(Strip(line))
  {
    if !IsValueLine(Strip(line)) {
      SubstituteAllIdle(IgnorePatterns, Strip(line));
    }
  }

  // ---------------------------------------------------------------------
  // Environment lines

  /** The placeholder an upper-case `NAME=value` line ends with. */
  function Placeholder(name: string): string
  {
    if EndsWith(name, "_SECRET") then "<SECRET>"
    else if EndsWith(name, "_KEY") then "<KEY>"
    else if EndsWith(name, "_TOKEN") then "<TOKEN>"
    else if EndsWith(name, "_PASSWORD") then "<PASSWORD>"
    else "<VALUE>"
  }

  /** In `name=tail`, with '=' in neither part, the only '=' is the one after the name. */
  lemma OnlyEquals(name: string, tail: string)
    requires '=' !in name && '=' !in tail
    ensures var t := name + "=" + tail;
      forall j :: 0 <= j < |t| && j != |name| ==> t[j] != '='
  {
    var t := name + "=" + tail;
    forall j | 0 <= j < |t| && j != |name|
      ensures t[j] != '='
    {
      if j < |name| {
        assert t[j] == name[j];
      } else {
        assert t[j] == tail[j - |name| - 1];
      }
    }
  }

  /**
   * In `name=tail`, with '=' in neither part, a marker `X=` occurs exactly
   * when the name ends with X, and then right before the '='.
   */
  lemma MarkerAtEquals(name: string, tail: string, m: string)
    requires '=' !in name && '=' !in tail
    requires |m| >= 1 && m[|m| - 1] == '='
    ensures var t := name + "=" + tail;
      LastIndexOf(t, m) == if EndsWith(name, m[..|m| - 1]) then Some(|name| - (|m| - 1)) else None
  {
    var t := name + "=" + tail;
    var x := m[..|m| - 1];
    OnlyEquals(name, tail);
    forall k | OccursAt(t, m, k)
      ensures k == |name| - |x| && EndsWith(name, x)
    {
      assert t[k + |m| - 1] == m[|m| - 1];
      assert k + |m| - 1 == |name|;
      assert t[k..k + |x|] == x;
      assert t[k..k + |x|] == name[|name| - |x|..];
    }
    if EndsWith(name, x) {
      assert t[|name| - |x|..|name| - |x| + |m|] == name[|name| - |x|..] + "=";
      assert m == x + "=";
      assert OccursAt(t, m, |name| - |x|);
    }
  }

  /** One secret substitution on `name=tail`: it replaces the tail when the name ends with X. */
  lemma MarkerStep(name: string, tail: string, m: string, placeholder: string)
    requires '=' !in name && '=' !in tail
    requires |m| >= 1 && m[|m| - 1] == '='
    ensures Substitute(Secret(m, placeholder), name + "=" + tail)
         == name + "=" + (if EndsWith(name, m[..|m| - 1]) then placeholder else tail)
  {
    MarkerAtEquals(name, tail, m);
    var t := name + "=" + tail;
    assert t[..|name| + 1] == name + "=";
  }

  lemma EnvNameFacts(name: string)
    requires forall k :: 0 <= k < |name| ==> EnvChar(name[k])
    ensures '=' !in name && '"' !in name
  {
    forall k | 0 <= k < |name|
      ensures name[k] != '=' && name[k] != '"'
    {
      assert EnvChar(name[k]);
    }
  }

  /** A name ends with at most one of the four secret suffixes. */
  lemma SuffixesExclusive(name: string)
    ensures EndsWith(name, "_SECRET") ==> !EndsWith(name, "_KEY") && !EndsWith(name, "_TOKEN") && !EndsWith(name, "_PASSWORD")
    ensures EndsWith(name, "_KEY") ==> !EndsWith(name, "_TOKEN") && !EndsWith(name, "_PASSWORD")
    ensures EndsWith(name, "_TOKEN") ==> !EndsWith(name, "_PASSWORD")
  {
    if EndsWith(name, "_SECRET") {
      assert name[|name| - 1] == 'T';
    }
    if EndsWith(name, "_KEY") {
      assert name[|name| - 1] == 'Y';
    }
    if EndsWith(name, "_TOKEN") {
      assert name[|name| - 1] == 'N';
    }
  }

  /** A secret rule at the head of a rule list, applied to `name=tail`. */
  lemma SecretRuleStep(rules: seq<Rule>, name: string, tail: string, x: string, placeholder: string)
    requires rules != [] && rules[0] == Secret(x + "=", placeholder)
    requires '=' !in name && '=' !in tail && '=' !in x
    ensures SubstituteAll(rules, name + "=" + tail)
         == SubstituteAll(rules[1..], name + "=" + (if EndsWith(name, x) then placeholder else tail))
  {
    var m := x + "=";
    assert m[..|m| - 1] == x;
    MarkerStep(name, tail, m, placeholder);
  }

  /** What the four secret substitutions leave after `name=`: the tail, or the placeholder the name's suffix selects. */
  function SecretTail(name: string, tail: string): string
  {
    if Placeholder(name) == "<VALUE>" then tail else Placeholder(name)
  }

  /** The four secret substitutions on `name=tail`: the tail gives way to the placeholder of a secret suffix. */
  lemma SecretSteps(rs: seq<Rule>, name: string, tail: string)
    requires |rs| >= 4
    requires rs[0] == Secret("_SECRET=", "<SECRET>") && rs[1] == Secret("_KEY=", "<KEY>")
    requires rs[2] == Secret("_TOKEN=", "<TOKEN>") && rs[3] == Secret("_PASSWORD=", "<PASSWORD>")
    requires '=' !in name && '=' !in tail
    ensures SubstituteAll(rs, name + "=" + tail) == SubstituteAll(rs[4..], name + "=" + SecretTail(name, tail))
  {
    assert "_SECRET=" == "_SECRET" + "=" && "_KEY=" == "_KEY" + "=";
    SecretRuleStep(rs, name, tail, "_SECRET", "<SECRET>");
    var tail1 := if EndsWith(name, "_SECRET") then "<SECRET>" else tail;
    SecretRuleStep(rs[1..], name, tail1, "_KEY", "<KEY>");
    var tail2 := if EndsWith(name, "_KEY") then "<KEY>" else tail1;
    assert rs[1..][1..] == rs[2..];
    LaterSecretSteps(rs[2..], name, tail2);
    assert rs[2..][2..] == rs[4..];
    SuffixesExclusive(name);
  }

  /** The token and password substitutions, applied to `name=tail`. */
  lemma LaterSecretSteps(rs: seq<Rule>, name: string, tail: string)
    requires |rs| >= 2
    requires rs[0] == Secret("_TOKEN=", "<TOKEN>") && rs[1] == Secret("_PASSWORD=", "<PASSWORD>")
    requires '=' !in name && '=' !in tail
    ensures SubstituteAll(rs, name + "=" + tail) ==
      SubstituteAll(rs[2..], name + "=" + (if EndsWith(name, "_PASSWORD") then "<PASSWORD>"
                                            else if EndsWith(name, "_TOKEN") then "<TOKEN>" else tail))
  {
    assert "_TOKEN=" == "_TOKEN" + "=" && "_PASSWORD=" == "_PASSWORD" + "=";
    SecretRuleStep(rs, name, tail, "_TOKEN", "<TOKEN>");
    var tail3 := if EndsWith(name, "_TOKEN") then "<TOKEN>" else tail;
    SecretRuleStep(rs[1..], name, tail3, "_PASSWORD", "<PASSWORD>");
    assert rs[1..][1..] == rs[2..];
    SuffixesExclusive(name);
  }

  /** The secret substitutions, then the rest, turn `name=<VALUE>` into `name=` and its placeholder. */
  lemma SecretsOfEnvLine(rs: seq<Rule>, name: string)
    requires |rs| == 7
    requires rs[0] == Secret("_SECRET=", "<SECRET>") && rs[1] == Secret("_KEY=", "<KEY>")
    requires rs[2] == Secret("_TOKEN=", "<TOKEN>") && rs[3] == Secret("_PASSWORD=", "<PASSWORD>")
    requires rs[4] == JsonString && rs[5] == JsonNumber && rs[6] == DockerEnv
    requires name != "" && forall k :: 0 <= k < |name| ==> EnvChar(name[k])
    ensures SubstituteAll(rs, name + "=<VALUE>") == name + "=" + Placeholder(name)
  {
    EnvNameFacts(name);
    assert name + "=<VALUE>" == name + "=" + "<VALUE>";
    SecretSteps(rs, name, "<VALUE>");
    var s := name + "=" + Placeholder(name);
    EnvLineIsNoJson(name, Placeholder(name));
    JsonRulesIdle(rs[4..], s);
    SubstituteAllIdle(rs[4..], s);
  }

  /** A line with no JSON key and no list item is left alone by the last three rules. */
  lemma JsonRulesIdle(rest: seq<Rule>, s: string)
    requires |rest| == 3 && rest[0] == JsonString && rest[1] == JsonNumber && rest[2] == DockerEnv
    requires JsonKey(s).None? && DockerMatch(s).None?
    ensures forall i :: 0 <= i < |rest| ==> !Matches(rest[i], s)
  {
    forall i | 0 <= i < |rest|
      ensures !Matches(rest[i], s)
    {
      if i == 0 {
        assert JsonStringMatch(s).None?;
      } else if i == 1 {
        assert JsonNumberMatch(s).None?;
      }
    }
  }

  /** No key, list item or further rewrite applies to `name=tail` for an upper-case name. */
  lemma EnvLineIsNoJson(name: string, tail: string)
    requires name != "" && forall k :: 0 <= k < |name| ==> EnvChar(name[k])
    ensures JsonKey(name + "=" + tail).None? && DockerMatch(name + "=" + tail).None?
  {
    var t := name + "=" + tail;
    assert !IsSpace(t[0]) && t[0] != '"' && t[0] != '-';
    assert SkipWhile(t, 0, IsSpace) == 0;
    var i2 := SkipWhile(t, 0, WordChar);
    assert forall k :: 0 <= k < |name| ==> WordChar(t[k]);
    assert t[|name|] == '=';
    assert i2 == |name|;
  }

  /** A line with no surrounding whitespace is its own strip. */
  lemma StripFixed(s: string)
    requires s == [] || (!IsSpace(s[0]) && !IsSpace(s[|s| - 1]))
    ensures Strip(s) == s
  {
    assert DropSpaces(s) == s;
  }

  /** The first substitution on an upper-case `NAME=value` line. */
  lemma SubEnvOfEnvLine(name: string, value: string)
    requires name != "" && forall k :: 0 <= k < |name| ==> EnvChar(name[k])
    ensures Substitute(EnvAssign, name + "=" + value) == name + "=<VALUE>"
  {
    var line := name + "=" + value;
    var k := SkipWhile(line, 0, EnvChar);
    assert forall j :: 0 <= j < |name| ==> line[j] == name[j];
    assert line[|name|] == '=';
    assert k == |name|;
    assert line[..|name|] == name;
  }

  /**
   * An upper-case `NAME=value` line normalises to `NAME=<VALUE>`, or to the
   * secret placeholder when NAME ends in _SECRET, _KEY, _TOKEN or _PASSWORD.
   */
  lemma EnvLineNormalized(name: string, value: string)
    requires name != "" && forall k :: 0 <= k < |name| ==> EnvChar(name[k])
    requires value == [] || !IsSpace(value[|value| - 1])
    ensures Normalize(name + "=" + value) == name + "=" + Placeholder(name)
  {
    var line := name + "=" + value;
    assert line[0] == name[0] && EnvChar(name[0]);
    assert line[|line| - 1] == if value == [] then '=' else value[|value| - 1];
    StripFixed(line);
    SubEnvOfEnvLine(name, value);
    SecretsOfEnvLine(IgnorePatterns[1..], name);
  }

  // ---------------------------------------------------------------------
  // JSON, YAML and list-item lines

  /** The JSON-string substitution: the quoted value after the key becomes `"<VALUE>"`, the rest stays. */
  lemma SubJsonString(s: string, key: string, v: string, rest: string)
    requires s == key + "\"" + v + "\"" + rest
    requires JsonKey(s) == Some(|key|) && '"' !in v
    ensures Substitute(JsonString, s) == key + "\"<VALUE>\"" + rest
  {
    var c := |key| + 1 + |v|;
    assert s[|key|] == '"' && s[c] == '"';
    assert forall k :: |key| < k < c ==> s[k] == v[k - |key| - 1];
    assert FirstIndex(s, '"', |key| + 1) == Some(c);
    assert s[..|key|] == key;
    assert s[c + 1..] == rest;
  }

  /** The JSON-number substitution: the digits after the key become `<NUMBER>`, the rest stays. */
  lemma SubJsonNumber(s: string, key: string, ds: string, rest: string)
    requires s == key + ds + rest
    requires JsonKey(s) == Some(|key|)
    requires ds != [] && AllDigits(ds) && (rest == [] || !IsDigit(rest[0]))
    ensures Substitute(JsonNumber, s) == key + "<NUMBER>" + rest
  {
    assert forall k :: |key| <= k < |key| + |ds| ==> s[k] == ds[k - |key|];
    assert rest != [] ==> s[|key| + |ds|] == rest[0];
    SkipWhileIs(s, |key|, |key| + |ds|, IsDigit);
    assert s[..|key|] == key;
    assert s[|key| + |ds|..] == rest;
  }

  /** The list-item substitution: the value after the last '=' becomes `<VALUE>`, the closing quote stays. */
  lemma SubDocker(ws1: string, ws2: string, a: string, v: string)
    requires AllSpace(ws1) && AllSpace(ws2)
    requires '"' !in a && '"' !in v && '=' !in v
    ensures Substitute(DockerEnv, ws1 + "-" + ws2 + "\"" + a + "=" + v + "\"")
         == ws1 + "-" + ws2 + "\"" + a + "=<VALUE>\""
  {
    DockerMeans(ws1, ws2, a, v);
    var s := ws1 + "-" + ws2 + "\"" + a + "=" + v + "\"";
    assert s[..|ws1| + |ws2| + |a| + 3] == ws1 + "-" + ws2 + "\"" + a + "=";
  }

  lemma {:induction false} SubstituteAllAppend(a: seq<Rule>, b: seq<Rule>, s: string)
    ensures SubstituteAll(a + b, s) == SubstituteAll(b, SubstituteAll(a, s))
    decreases |a|
  {
    if a == [] {
      assert a + b == b;
    } else {
      assert (a + b)[1..] == a[1..] + b;
      SubstituteAllAppend(a[1..], b, Substitute(a[0], s));
    }
  }

  /** The four secret rules of IGNORE_PATTERNS. */
  const SecretRules: seq<Rule> := [
    Secret("_SECRET=", "<SECRET>"), Secret("_KEY=", "<KEY>"),
    Secret("_TOKEN=", "<TOKEN>"), Secret("_PASSWORD=", "<PASSWORD>")]

  /** The JSON and list-item rules of IGNORE_PATTERNS, in order. */
  const ValueRules: seq<Rule> := [JsonString, JsonNumber, DockerEnv]

  /** normalize_line's substitutions in their groups: upper-case names, secrets, JSON values and list items. */
  lemma NormalizeSteps(line: string)
    ensures Normalize(line) == SubstituteAll(ValueRules, SubstituteAll(SecretRules, SubstituteAll([EnvAssign], Strip(line))))
  {
    assert IgnorePatterns == [EnvAssign] + SecretRules + ValueRules;
    SubstituteAllAppend([EnvAssign] + SecretRules, ValueRules, Strip(line));
    SubstituteAllAppend([EnvAssign], SecretRules, Strip(line));
  }

  /** A stripped line through the rule groups, given what each group leaves. */
  lemma NormalizeVia(line: string, y: string, out: string)
    requires Strip(line) == line
    requires SubstituteAll(SecretRules, SubstituteAll([EnvAssign], line)) == y
    requires SubstituteAll(ValueRules, y) == out
    ensures Normalize(line) == out
  {
    NormalizeSteps(line);
  }

  /** A marker ending in '=' does not occur in a line without '='. */
  lemma NoMarker(s: string, m: string)
    requires '=' !in s && |m| >= 1 && m[|m| - 1] == '='
    ensures LastIndexOf(s, m).None?
  {
    forall k | 0 <= k
      ensures !OccursAt(s, m, k)
    {
      if k + |m| <= |s| {
        assert s[k..k + |m|][|m| - 1] == s[k + |m| - 1];
      }
    }
  }

  /** A line without '=' passes the upper-case and secret rules unchanged. */
  lemma NoEqualsIdle(s: string)
    requires '=' !in s
    ensures SubstituteAll(SecretRules, SubstituteAll([EnvAssign], s)) == s
  {
    assert !Matches(EnvAssign, s);
    SubstituteAllIdle([EnvAssign], s);
    forall i | 0 <= i < |SecretRules|
      ensures !Matches(SecretRules[i], s)
    {
      NoMarker(s, SecretRules[i].marker);
    }
    SubstituteAllIdle(SecretRules, s);
  }

  /** A line starting with a character other than whitespace or '-' is no list item. */
  lemma NoItem(s: string)
    requires s != [] && !IsSpace(s[0]) && s[0] != '-'
    ensures DockerMatch(s).None?
  {
    SkipWhileIs(s, 0, 0, IsSpace);
  }

  /** `"k": ` followed by anything but whitespace is a key ending there. */
  lemma QuotedKey(s: string, k: string, tail: string)
    requires s == "\"" + k + "\": " + tail
    requires k != [] && AllWord(k)
    requires tail == [] || !IsSpace(tail[0])
    ensures JsonKey(s) == Some(|k| + 4)
  {
    assert forall j :: 1 <= j < |k| + 1 ==> s[j] == k[j - 1];
    assert s[0] == '"' && s[|k| + 1] == '"' && s[|k| + 2] == ':' && s[|k| + 3] == ' ';
    assert |k| + 4 < |s| ==> s[|k| + 4] == tail[0];
    JsonKeyHeadAt(s, 0, 1, |k| + 1);
    KeyColonAt(s, |k| + 1, |k| + 2, |k| + 2, |k| + 4);
  }

  /** `k: ` followed by anything but whitespace is a key ending there. */
  lemma PlainKey(s: string, k: string, tail: string)
    requires s == k + ": " + tail
    requires k != [] && AllWord(k)
    requires tail == [] || !IsSpace(tail[0])
    ensures JsonKey(s) == Some(|k| + 2)
  {
    assert forall j :: 0 <= j < |k| ==> s[j] == k[j];
    assert s[|k|] == ':' && s[|k| + 1] == ' ';
    assert |k| + 2 < |s| ==> s[|k| + 2] == tail[0];
    JsonKeyHeadAt(s, 0, 0, |k|);
    KeyColonAt(s, |k|, |k|, |k|, |k| + 2);
  }

  lemma WordHasNoEquals(k: string)
    requires AllWord(k)
    ensures '=' !in k && '"' !in k
  {
    forall j | 0 <= j < |k|
      ensures k[j] != '=' && k[j] != '"'
    {
      assert WordChar(k[j]);
    }
  }

  /** Three rules, one after another. */
  lemma ThreeSteps(rs: seq<Rule>, y: string, r1: string, r2: string, r3: string)
    requires |rs| == 3
    requires Substitute(rs[0], y) == r1 && Substitute(rs[1], r1) == r2 && Substitute(rs[2], r2) == r3
    ensures SubstituteAll(rs, y) == r3
  {
    assert SubstituteAll(rs, y) == SubstituteAll(rs[1..], r1);
    assert SubstituteAll(rs[1..], r1) == SubstituteAll(rs[1..][1..], r2);
    assert SubstituteAll(rs[1..][1..], r2) == SubstituteAll(rs[1..][1..][1..], r3);
  }

  /** The JSON and list-item rules, one after another. */
  lemma ValuesOf(y: string, r1: string, r2: string, r3: string)
    requires Substitute(JsonString, y) == r1 && Substitute(JsonNumber, r1) == r2 && Substitute(DockerEnv, r2) == r3
    ensures SubstituteAll(ValueRules, y) == r3
  {
    ThreeSteps(ValueRules, y, r1, r2, r3);
  }

  /** The JSON-string rule on `"k": "v"`. */
  lemma JsonLineString(k: string, v: string)
    requires k != [] && AllWord(k) && '"' !in v
    ensures Substitute(JsonString, "\"" + k + "\": \"" + v + "\"") == "\"" + k + "\": \"<VALUE>\""
  {
    var line := "\"" + k + "\": \"" + v + "\"";
    var key := "\"" + k + "\": ";
    assert line == "\"" + k + "\": " + ("\"" + v + "\"");
    assert line == key + "\"" + v + "\"" + "";
    assert "\"" + k + "\": \"<VALUE>\"" == key + "\"<VALUE>\"" + "";
    QuotedKey(line, k, "\"" + v + "\"");
    SubJsonString(line, key, v, "");
  }

  /** `"k": "<VALUE>"` is left alone by the JSON-number and list-item rules. */
  lemma QuotedValueIdle(k: string)
    requires k != [] && AllWord(k)
    ensures var r := "\"" + k + "\": \"<VALUE>\"";
      Substitute(JsonNumber, r) == r && Substitute(DockerEnv, r) == r
  {
    var r := "\"" + k + "\": \"<VALUE>\"";
    assert r == "\"" + k + "\": " + "\"<VALUE>\"";
    assert r[|k| + 4] == '"' && r[0] == '"';
    QuotedKey(r, k, "\"<VALUE>\"");
    assert !Matches(JsonNumber, r);
    NoItem(r);
  }

  /** The JSON and list-item rules turn `"k": "v"` into `"k": "<VALUE>"`. */
  lemma JsonLineValues(k: string, v: string)
    requires k != [] && AllWord(k) && '"' !in v
    ensures SubstituteAll(ValueRules, "\"" + k + "\": \"" + v + "\"") == "\"" + k + "\": \"<VALUE>\""
  {
    JsonLineString(k, v);
    QuotedValueIdle(k);
    var r := "\"" + k + "\": \"<VALUE>\"";
    ValuesOf("\"" + k + "\": \"" + v + "\"", r, r, r);
  }

  lemma JsonLineNoEquals(k: string, v: string)
    requires '=' !in k && '=' !in v
    ensures '=' !in "\"" + k + "\": \"" + v + "\""
  {
  }

  lemma NumberLineNoEquals(k: string, ds: string)
    requires '=' !in k && AllDigits(ds)
    ensures '=' !in k + ": " + ds
  {
    assert '=' !in ds by {
      forall j | 0 <= j < |ds|
        ensures ds[j] != '='
      {
        assert IsDigit(ds[j]);
      }
    }
  }

  /** A JSON line `"k": "v"` normalises to `"k": "<VALUE>"`. */
  lemma JsonLineNormalized(k: string, v: string)
    requires k != [] && AllWord(k)
    requires '"' !in v && '=' !in v
    ensures Normalize("\"" + k + "\": \"" + v + "\"") == "\"" + k + "\": \"<VALUE>\""
  {
    var line := "\"" + k + "\": \"" + v + "\"";
    WordHasNoEquals(k);
    JsonLineNoEquals(k, v);
    NoEqualsIdle(line);
    StripFixed(line);
    NormalizeSteps(line);
    JsonLineValues(k, v);
  }

  /** The JSON-string and JSON-number rules on `k: digits`. */
  lemma NumberLineNumber(k: string, ds: string)
    requires k != [] && AllWord(k)
    requires ds != [] && AllDigits(ds)
    ensures Substitute(JsonString, k + ": " + ds) == k + ": " + ds
    ensures Substitute(JsonNumber, k + ": " + ds) == k + ": <NUMBER>"
  {
    var line := k + ": " + ds;
    var key := k + ": ";
    assert line == key + ds + "";
    assert k + ": <NUMBER>" == key + "<NUMBER>" + "";
    assert line[|key|] == ds[0] && IsDigit(ds[0]);
    PlainKey(line, k, ds);
    assert !Matches(JsonString, line);
    SubJsonNumber(line, key, ds, "");
  }

  /** `k: <NUMBER>` is no list item. */
  lemma NumberIdle(k: string)
    requires k != [] && AllWord(k)
    ensures Substitute(DockerEnv, k + ": <NUMBER>") == k + ": <NUMBER>"
  {
    var r := k + ": <NUMBER>";
    assert r[0] == k[0] && WordChar(k[0]);
    NoItem(r);
  }

  /** The JSON and list-item rules turn `k: digits` into `k: <NUMBER>`. */
  lemma NumberLineValues(k: string, ds: string)
    requires k != [] && AllWord(k)
    requires ds != [] && AllDigits(ds)
    ensures SubstituteAll(ValueRules, k + ": " + ds) == k + ": <NUMBER>"
  {
    NumberLineNumber(k, ds);
    NumberIdle(k);
    ValuesOf(k + ": " + ds, k + ": " + ds, k + ": <NUMBER>", k + ": <NUMBER>");
  }

  /** A YAML line `k: digits` normalises to `k: <NUMBER>`. */
  lemma NumberLineNormalized(k: string, ds: string)
    requires k != [] && AllWord(k)
    requires ds != [] && AllDigits(ds)
    ensures Normalize(k + ": " + ds) == k + ": <NUMBER>"
  {
    var line := k + ": " + ds;
    WordHasNoEquals(k);
    NumberLineNoEquals(k, ds);
    assert line[0] == k[0] && WordChar(k[0]);
    assert line[|line| - 1] == ds[|ds| - 1] && IsDigit(ds[|ds| - 1]);
    StripFixed(line);
    NoEqualsIdle(line);
    NormalizeSteps(line);
    NumberLineValues(k, ds);
  }

  /** The char before a behind `- "` cannot be part of a suffix without a quote. */
  lemma EndsWithBehindQuote(a: string, x: string)
    requires '"' !in x
    ensures EndsWith("- \"" + a, x) <==> EndsWith(a, x)
  {
    var t := "- \"" + a;
    if |x| <= |a| {
      assert t[|t| - |x|..] == a[|a| - |x|..];
    } else if |x| <= |t| {
      assert t[|t| - |x|..][|x| - |a| - 1] == t[|t| - |a| - 1] == '"';
    }
  }

  lemma PlaceholderBehindQuote(a: string)
    ensures Placeholder("- \"" + a) == Placeholder(a)
  {
    EndsWithBehindQuote(a, "_SECRET");
    EndsWithBehindQuote(a, "_KEY");
    EndsWithBehindQuote(a, "_TOKEN");
    EndsWithBehindQuote(a, "_PASSWORD");
  }

  /** A line starting with '-' has no JSON key. */
  lemma NoKeyAtDash(s: string)
    requires s != [] && s[0] == '-'
    ensures JsonKey(s).None?
  {
    SkipWhileIs(s, 0, 0, IsSpace);
    SkipWhileIs(s, 0, 0, WordChar);
  }

  /** The upper-case and secret rules on `- "A=v"`: a secret suffix of A replaces `v"` by its placeholder. */
  lemma DockerLineSecrets(a: string, v: string)
    requires '"' !in a && '=' !in a && '"' !in v && '=' !in v
    ensures SubstituteAll(SecretRules, SubstituteAll([EnvAssign], "- \"" + a + "=" + v + "\""))
         == "- \"" + a + "=" + SecretTail(a, v + "\"")
  {
    var name := "- \"" + a;
    var line := "- \"" + a + "=" + v + "\"";
    assert line == name + "=" + (v + "\"");
    SkipWhileIs(line, 0, 0, EnvChar);
    assert !Matches(EnvAssign, line);
    SubstituteAllIdle([EnvAssign], line);
    assert '=' !in name && '=' !in v + "\"";
    SecretSteps(SecretRules, name, v + "\"");
    PlaceholderBehindQuote(a);
  }

  /** The secret rules leave `- "A=v"` alone when A has no secret suffix. */
  lemma PlainItemSecrets(a: string, v: string)
    requires '"' !in a && '=' !in a && '"' !in v && '=' !in v
    requires Placeholder(a) == "<VALUE>"
    ensures SubstituteAll(SecretRules, SubstituteAll([EnvAssign], "- \"" + a + "=" + v + "\""))
         == "- \"" + a + "=" + (v + "\"")
  {
    DockerLineSecrets(a, v);
  }

  /** The secret rules cut `- "A=v"` after the '=' and add the placeholder when A has a secret suffix. */
  lemma SecretItemSecrets(a: string, v: string)
    requires '"' !in a && '=' !in a && '"' !in v && '=' !in v
    requires Placeholder(a) != "<VALUE>"
    ensures SubstituteAll(SecretRules, SubstituteAll([EnvAssign], "- \"" + a + "=" + v + "\""))
         == "- \"" + a + "=" + Placeholder(a)
  {
    DockerLineSecrets(a, v);
  }

  /** The JSON rules leave a line starting with '-' alone. */
  lemma DashIdle(y: string)
    requires y != [] && y[0] == '-'
    ensures Substitute(JsonString, y) == y && Substitute(JsonNumber, y) == y
  {
    NoKeyAtDash(y);
    assert !Matches(JsonString, y) && !Matches(JsonNumber, y);
  }

  /** The list-item rule on `- "A=v"`. */
  lemma DockerLineItem(a: string, v: string)
    requires '"' !in a && '"' !in v && '=' !in v
    ensures Substitute(DockerEnv, "- \"" + a + "=" + (v + "\"")) == "- \"" + a + "=" + "<VALUE>\""
  {
    assert "- \"" + a + "=" + (v + "\"") == "" + "-" + " " + "\"" + a + "=" + v + "\"";
    assert "- \"" + a + "=" + "<VALUE>\"" == "" + "-" + " " + "\"" + a + "=<VALUE>\"";
    SubDocker("", " ", a, v);
  }

  /** The list-item rule leaves a line not ending in a quote alone. */
  lemma UnquotedIdle(y: string)
    requires y != [] && y[|y| - 1] != '"'
    ensures Substitute(DockerEnv, y) == y
  {
    assert !Matches(DockerEnv, y);
  }

  /** The JSON and list-item rules on `- "A=v"`. */
  lemma PlainItemValues(a: string, v: string)
    requires '"' !in a && '"' !in v && '=' !in v
    ensures SubstituteAll(ValueRules, "- \"" + a + "=" + (v + "\"")) == "- \"" + a + "=" + "<VALUE>\""
  {
    var y := "- \"" + a + "=" + (v + "\"");
    assert y[0] == '-';
    DashIdle(y);
    DockerLineItem(a, v);
    ValuesOf(y, y, y, "- \"" + a + "=" + "<VALUE>\"");
  }

  /** The JSON and list-item rules on `- "A=` and a placeholder. */
  lemma SecretItemValues(a: string, p: string)
    requires p != [] && p[|p| - 1] == '>'
    ensures SubstituteAll(ValueRules, "- \"" + a + "=" + p) == "- \"" + a + "=" + p
  {
    var y := "- \"" + a + "=" + p;
    assert y[0] == '-' && y[|y| - 1] == '>';
    DashIdle(y);
    UnquotedIdle(y);
    ValuesOf(y, y, y, y);
  }

  /** Every placeholder ends with '>'. */
  lemma PlaceholderEnds(name: string)
    ensures Placeholder(name) != [] && Placeholder(name)[|Placeholder(name)| - 1] == '>'
  {
  }

  /** A list item `- "A=v"` whose name has no secret suffix normalises to `- "A=<VALUE>"`. */
  lemma PlainItemNormalized(a: string, v: string)
    requires '"' !in a && '=' !in a && '"' !in v && '=' !in v
    requires Placeholder(a) == "<VALUE>"
    ensures Normalize("- \"" + a + "=" + v + "\"") == "- \"" + a + "=" + "<VALUE>\""
  {
    var line := "- \"" + a + "=" + v + "\"";
    assert line[0] == '-' && line[|line| - 1] == '"';
    StripFixed(line);
    NormalizeSteps(line);
    PlainItemSecrets(a, v);
    PlainItemValues(a, v);
  }

  /** A list item `- "A=v"` whose name has a secret suffix normalises to `- "A=` and the placeholder. */
  lemma SecretItemNormalized(a: string, v: string)
    requires '"' !in a && '=' !in a && '"' !in v && '=' !in v
    requires Placeholder(a) != "<VALUE>"
    ensures Normalize("- \"" + a + "=" + v + "\"") == "- \"" + a + "=" + Placeholder(a)
  {
    var line := "- \"" + a + "=" + v + "\"";
    assert line[0] == '-' && line[|line| - 1] == '"';
    StripFixed(line);
    PlaceholderEnds(a);
    SecretItemValues(a, Placeholder(a));
    SecretItemSecrets(a, v);
    NormalizeVia(line, "- \"" + a + "=" + Placeholder(a), "- \"" + a + "=" + Placeholder(a));
  }

  /**
   * A Docker Compose list item `- "A=v"` normalises to `- "A=<VALUE>"`;
   * when A ends in _SECRET, _KEY, _TOKEN or _PASSWORD the secret rule
   * rewrites it first, to `- "A=` and the placeholder, which drops the
   * closing quote, and the list-item rule then no longer matches.
   */
  lemma DockerLineNormalized(a: string, v: string)
    requires '"' !in a && '=' !in a && '"' !in v && '=' !in v
    ensures Normalize("- \"" + a + "=" + v + "\"")
         == "- \"" + a + "=" + (if Placeholder(a) == "<VALUE>" then "<VALUE>\"" else Placeholder(a))
  {
    if Placeholder(a) == "<VALUE>" {
      PlainItemNormalized(a, v);
    } else {
      SecretItemNormalized(a, v);
    }
  }
}
