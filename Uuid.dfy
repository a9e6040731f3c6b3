// The UUID patterns the upload code matches in object keys and filenames:
// the 8-4-4-4-12 hexadecimal layout of section 3 of RFC 4122, matched
// case-insensitively. Two regular expressions use it:
//   /UUID-?/i   (non-global, optional trailing hyphen) in fix-s3-filenames.ts
//   /(UUID-)/gi (global, required trailing hyphen) in upload.ts and UploadPortal.tsx

module Uuid {
  import opened Strings

  predicate HexDigit(c: char)
  {
    '0' <= c <= '9' || 'a' <= c <= 'f' || 'A' <= c <= 'F'
  }

  /** Offsets 8, 13, 18 and 23 of the 36-character form hold the hyphens. */
  predicate HyphenOffset(k: int)
  {
    k == 8 || k == 13 || k == 18 || k == 23
  }

  /** A UUID starts at position i of s. */
  predicate UuidAt(s: string, i: nat)
  {
    i + 36 <= |s| &&
    forall k :: 0 <= k < 36 ==> (if HyphenOffset(k) then s[i + k] == '-' else HexDigit(s[i + k]))
  }

  /** A UUID followed by a hyphen starts at position i of s. */
  predicate UuidDashAt(s: string, i: nat)
  {
    UuidAt(s, i) && i + 37 <= |s| && s[i + 36] == '-'
  }

  /** The leftmost UUID at or after `from`, as a regular-expression search finds it. */
  function FindUuid(s: string, from: nat): (r: Option<nat>)
    requires from <= |s|
    ensures r.Some? ==> from <= r.value && UuidAt(s, r.value)
    ensures r.Some? ==> forall j :: from <= j < r.value ==> !UuidAt(s, j)
    ensures r.None? <==> forall j :: from <= j <= |s| ==> !UuidAt(s, j)
    decreases |s| - from
  {
    if UuidAt(s, from) then Some(from)
    else if from == |s| then None
    else FindUuid(s, from + 1)
  }

  /** `UUID_REGEX.test(s)`: the string contains a UUID somewhere. */
  predicate HasUuid(s: string)
  {
    FindUuid(s, 0).Some?
  }

  lemma HasUuidMeans(s: string)
    ensures HasUuid(s) <==> exists i :: 0 <= i <= |s| && UuidAt(s, i)
  {
    if !HasUuid(s) {
      assert forall j :: 0 <= j <= |s| ==> !UuidAt(s, j);
    }
  }

  /**
   * `s.replace(/UUID-?/i, '')`: the first UUID, with the hyphen right after
   * it when there is one, is removed; the rest of s is kept.
   */
  function RemoveFirstUuid(s: string): (r: string)
    ensures !HasUuid(s) ==> r == s
    ensures HasUuid(s) ==>
      var i := FindUuid(s, 0).value;
      var n := if i + 36 < |s| && s[i + 36] == '-' then 37 else 36;
      r == s[..i] + s[i + n..] && |r| == |s| - n
  {
    var found := FindUuid(s, 0);
    if found.None? then s
    else
      var i := found.value;
      if i + 36 < |s| && s[i + 36] == '-' then s[..i] + s[i + 37..] else s[..i] + s[i + 36..]
  }

  /** A UUID-with-hyphen occurs in s. */
  predicate HasUuidDash(s: string)
  {
    exists i :: 0 <= i < |s| && UuidDashAt(s, i)
  }

  /**
   * `s.replace(/(UUID-)/gi, '')`: scanning left to right, every UUID followed
   * by a hyphen is removed and the scan resumes after it.
   */
  function StripUuidDashes(s: string): (r: string)
    ensures |r| <= |s|
    decreases |s|
  {
    if s == [] then []
    else if UuidDashAt(s, 0) then StripUuidDashes(s[37..])
    else [s[0]] + StripUuidDashes(s[1..])
  }

  /**
   * The global strip read match by match: the text before the leftmost
   * UUID-with-hyphen is kept, the 37 matched characters are removed, and the
   * scan resumes right after them. With StripUuidDashesChanges, which keeps a
   * string without a match, this determines the result.
   */
  lemma {:induction false} StripUuidDashesMeans(a: string, m: string, t: string)
    requires |m| == 37 && UuidDashAt(m, 0)
    requires forall i :: 0 <= i < |a| ==> !UuidDashAt(a + m + t, i)
    ensures StripUuidDashes(a + m + t) == a + StripUuidDashes(t)
    decreases |a|
  {
    var s := a + m + t;
    if a == [] {
      assert s == m + t;
      UuidDashExtends(m, t);
      assert s[37..] == t;
    } else {
      assert !UuidDashAt(s, 0);
      assert s[0] == a[0] && s[1..] == a[1..] + m + t;
      NoUuidDashShift(s, |a|);
      StripUuidDashesMeans(a[1..], m, t);
      assert a == [a[0]] + a[1..];
    }
  }

  /** A UUID-with-hyphen at the head of m stays one whatever follows m. */
  lemma UuidDashExtends(m: string, t: string)
    requires |m| == 37 && UuidDashAt(m, 0)
    ensures UuidDashAt(m + t, 0)
  {
    forall k | 0 <= k < 37
      ensures (m + t)[k] == m[k]
    {
    }
  }

  /** No match in the first n positions of s leaves none in the first n - 1 of s[1..]. */
  lemma NoUuidDashShift(s: string, n: nat)
    requires 0 < n <= |s|
    requires forall i :: 0 <= i < n ==> !UuidDashAt(s, i)
    ensures forall i :: 0 <= i < n - 1 ==> !UuidDashAt(s[1..], i)
  {
    forall i | 0 <= i < n - 1
      ensures !UuidDashAt(s[1..], i)
    {
      UuidDashShift(s, i);
    }
  }

  lemma UuidDashShift(s: string, i: nat)
    requires s != [] && i + 1 <= |s|
    ensures UuidDashAt(s[1..], i) <==> UuidDashAt(s, i + 1)
  {
    if UuidDashAt(s, i + 1) {
      forall k | 0 <= k < 36
        ensures (if HyphenOffset(k) then s[1..][i + k] == '-' else HexDigit(s[1..][i + k]))
      {
        assert s[1..][i + k] == s[i + 1 + k];
      }
    }
    if UuidDashAt(s[1..], i) {
      forall k | 0 <= k < 36
        ensures (if HyphenOffset(k) then s[i + 1 + k] == '-' else HexDigit(s[i + 1 + k]))
      {
        assert s[1..][i + k] == s[i + 1 + k];
      }
    }
  }

  /**
   * The global strip changes a string exactly when it holds a UUID followed
   * by a hyphen, and then removes at least those 37 characters.
   */
  lemma {:induction false} StripUuidDashesChanges(s: string)
    ensures !HasUuidDash(s) ==> StripUuidDashes(s) == s
    ensures HasUuidDash(s) ==> |StripUuidDashes(s)| <= |s| - 37
    decreases |s|
  {
    if s == [] {
    } else if UuidDashAt(s, 0) {
      assert HasUuidDash(s);
    } else {
      StripUuidDashesChanges(s[1..]);
      HasUuidDashTail(s);
    }
  }

  /** Without a match at the front, s holds a UUID-with-hyphen exactly when its tail does. */
  lemma HasUuidDashTail(s: string)
    requires s != [] && !UuidDashAt(s, 0)
    ensures HasUuidDash(s) <==> HasUuidDash(s[1..])
  {
    if HasUuidDash(s) {
      var i :| 0 <= i < |s| && UuidDashAt(s, i);
      assert i >= 1;
      UuidDashShift(s, i - 1);
    }
    if HasUuidDash(s[1..]) {
      var i :| 0 <= i < |s[1..]| && UuidDashAt(s[1..], i);
      UuidDashShift(s, i);
    }
  }
}
