// The S3 file-name repair script (backend/src/scripts/fix-s3-filenames.ts):
// find object keys holding a UUID, compute a clean CLIENT/PROJECT/filename
// key for each, and rename the object, skipping system files and renames
// that would lose a better folder structure.
//
// The object listing, the database lookups and the S3 rename are answers
// given per object; the database's file paths are a sequence of rows.

module FixS3Filenames {
  import opened Strings
  import opened Uuid

  /** Client and project codes; None is JavaScript's null. */
  datatype PathInfo = PathInfo(clientCode: Option<string>, projectCode: Option<string>)

  /** A database row's client code and project name. */
  datatype DbMatch = DbMatch(clientCode: string, projectName: string)

  /** The last `/`-segment of a key: `key.split('/').pop() || ''`. */
  function LastSegment(key: string): (r: string)
    ensures '/' !in r
  {
    Last(Split(key, '/'))
  }

  /**
   * extractPathInfo: the first two non-empty segments when there are at
   * least two, else both null.
   */
  function ExtractPathInfo(path: string): (r: PathInfo)
    ensures r.clientCode.Some? <==> |NonEmpty(Split(path, '/'))| >= 2
    ensures r.projectCode.Some? <==> r.clientCode.Some?
    ensures r.clientCode.Some? ==>
      r.clientCode.value == NonEmpty(Split(path, '/'))[0] && r.projectCode.value == NonEmpty(Split(path, '/'))[1]
    ensures r.clientCode.Some? ==>
      r.clientCode.value != "" && '/' !in r.clientCode.value && r.projectCode.value != "" && '/' !in r.projectCode.value
  {
    var parts := NonEmpty(Split(path, '/'));
    if |parts| >= 2 then PathInfo(Some(parts[0]), Some(parts[1])) else PathInfo(None, None)
  }

  /** A key `c/p/rest` with non-empty c and p yields exactly c and p. */
  lemma ExtractPathInfoOfKey(c: string, p: string, rest: string)
    requires c != "" && p != "" && '/' !in c && '/' !in p
    ensures ExtractPathInfo(c + "/" + (p + "/" + rest)) == PathInfo(Some(c), Some(p))
  {
    SplitAtFirst(c, p + "/" + rest, '/');
    SplitAtFirst(p, rest, '/');
    var parts := Split(c + "/" + (p + "/" + rest), '/');
    assert parts == [c, p] + Split(rest, '/');
    assert NonEmpty(parts) == [c] + NonEmpty(parts[1..]);
    assert parts[1..] == [p] + Split(rest, '/');
    assert NonEmpty(parts[1..]) == [p] + NonEmpty(Split(rest, '/'));
  }

  /** `s.replace(/^-+/, '')` */
  function DropLeadingHyphens(s: string): (r: string)
    ensures r == [] || r[0] != '-'
    ensures |r| <= |s|
    ensures forall i :: 0 <= i < |s| - |r| ==> s[i] == '-'
    ensures s == [] || s[0] != '-' ==> r == s
  {
    if s != [] && s[0] == '-' then DropLeadingHyphens(s[1..]) else s
  }

  /** What is left is a suffix of the input: only the leading hyphens go. */
  lemma {:induction false} DropLeadingHyphensSuffix(s: string)
    ensures var r := DropLeadingHyphens(s); r == s[|s| - |r|..]
    decreases |s|
  {
    if s != [] && s[0] == '-' {
      var r := DropLeadingHyphens(s[1..]);
      DropLeadingHyphensSuffix(s[1..]);
      assert s[1..][|s[1..]| - |r|..] == s[|s| - |r|..];
    }
  }

  /** A hyphen run followed by a non-hyphen (or nothing) is dropped exactly. */
  lemma {:induction false} DropLeadingHyphensRun(hs: string, t: string)
    requires forall i :: 0 <= i < |hs| ==> hs[i] == '-'
    requires t == [] || t[0] != '-'
    ensures DropLeadingHyphens(hs + t) == t
    decreases |hs|
  {
    if hs == [] {
      assert hs + t == t;
    } else {
      DropLeadingHyphensRun(hs[1..], t);
      assert (hs + t)[0] == '-' && (hs + t)[1..] == hs[1..] + t;
    }
  }

  /** Dropping the leading hyphens keeps every other character, in order. */
  lemma {:induction false} DropLeadingHyphensErase(s: string)
    ensures Erase(DropLeadingHyphens(s), '-') == Erase(s, '-')
    decreases |s|
  {
    if s != [] && s[0] == '-' {
      DropLeadingHyphensErase(s[1..]);
      assert Erase(s, '-') == Erase(s[1..], '-');
    }
  }

  predicate NoDoubleHyphen(s: string)
  {
    forall i :: 0 <= i < |s| - 1 ==> !(s[i] == '-' && s[i + 1] == '-')
  }

  /** `s.replace(/-+/g, '-')`: every run of hyphens becomes one. */
  function CollapseHyphens(s: string): (r: string)
    ensures NoDoubleHyphen(r)
    ensures |r| <= |s|
    ensures (r != [] && r[0] == '-') <==> (s != [] && s[0] == '-')
    decreases |s|
  {
    if s == [] then []
    else if s[0] == '-' then ['-'] + CollapseHyphens(DropLeadingHyphens(s[1..]))
    else [s[0]] + CollapseHyphens(s[1..])
  }

  /**
   * The rewrite read run by run: a stretch without hyphens is copied, the
   * maximal hyphen run after it becomes a single '-', and the rest is
   * rewritten the same way. Every string splits into such a stretch, run and
   * rest, so this determines the result.
   */
  lemma CollapseHyphensMeans(w: string, hs: string, t: string)
    requires '-' !in w
    requires forall i :: 0 <= i < |hs| ==> hs[i] == '-'
    requires t == [] || t[0] != '-'
    ensures CollapseHyphens(w + hs + t) == w + (if hs == [] then "" else "-") + CollapseHyphens(t)
  {
    var k := if hs == [] then "" else "-";
    assert w + hs + t == w + (hs + t);
    CollapseHyphensPrefix(w, hs + t);
    if hs == [] {
      assert hs + t == t;
    } else {
      CollapseHyphensRun(hs, t);
    }
    assert w + (k + CollapseHyphens(t)) == w + k + CollapseHyphens(t);
  }

  /** A stretch without hyphens is copied in front of the rewrite of what follows it. */
  lemma {:induction false} CollapseHyphensPrefix(w: string, u: string)
    requires '-' !in w
    ensures CollapseHyphens(w + u) == w + CollapseHyphens(u)
    decreases |w|
  {
    if w != [] {
      assert '-' !in w[1..];
      CollapseHyphensPrefix(w[1..], u);
      CollapseHyphensStep(w, u, CollapseHyphens(u));
    } else {
      assert w + u == u && w + CollapseHyphens(u) == CollapseHyphens(u);
    }
  }

  /** A hyphen run before a non-hyphen (or nothing) becomes a single '-'. */
  lemma CollapseHyphensRun(hs: string, t: string)
    requires hs != [] && forall i :: 0 <= i < |hs| ==> hs[i] == '-'
    requires t == [] || t[0] != '-'
    ensures CollapseHyphens(hs + t) == "-" + CollapseHyphens(t)
  {
    assert (hs + t)[0] == '-';
    assert (hs + t)[1..] == hs[1..] + t;
    assert forall i :: 0 <= i < |hs[1..]| ==> hs[1..][i] == hs[i + 1];
    DropLeadingHyphensRun(hs[1..], t);
  }

  /** A first character other than '-' is copied ahead of the rest's rewrite. */
  lemma CollapseHyphensStep(w: string, u: string, x: string)
    requires w != [] && w[0] != '-'
    requires CollapseHyphens(w[1..] + u) == w[1..] + x
    ensures CollapseHyphens(w + u) == w + x
  {
    var c, v := w[0], w[1..];
    assert w + u == [c] + (v + u);
    CollapseHyphensKeep(c, v + u);
    assert w + x == [c] + (v + x);
  }

  /** A character other than '-' is copied. */
  lemma CollapseHyphensKeep(c: char, u: string)
    requires c != '-'
    ensures CollapseHyphens([c] + u) == [c] + CollapseHyphens(u)
  {
    assert ([c] + u)[0] == c && ([c] + u)[1..] == u;
  }

  /** Collapsing keeps every character other than '-', in order. */
  lemma {:induction false} CollapseHyphensErase(s: string)
    ensures Erase(CollapseHyphens(s), '-') == Erase(s, '-')
    decreases |s|
  {
    if s != [] {
      if s[0] == '-' {
        var d := DropLeadingHyphens(s[1..]);
        CollapseHyphensErase(d);
        DropLeadingHyphensErase(s[1..]);
        EraseAppend(['-'], CollapseHyphens(d), '-');
        assert Erase(s, '-') == Erase(s[1..], '-');
      } else {
        CollapseHyphensErase(s[1..]);
        EraseAppend([s[0]], CollapseHyphens(s[1..]), '-');
        assert Erase(s, '-') == [s[0]] + Erase(s[1..], '-');
      }
    }
  }

  lemma {:induction false} CollapseHyphensFixed(s: string)
    requires NoDoubleHyphen(s)
    ensures CollapseHyphens(s) == s
    decreases |s|
  {
    if s != [] {
      assert NoDoubleHyphen(s[1..]) by {
        forall i | 0 <= i < |s[1..]| - 1
          ensures !(s[1..][i] == '-' && s[1..][i + 1] == '-')
        {
          assert s[1..][i] == s[i + 1] && s[1..][i + 1] == s[i + 2];
        }
      }
      if s[0] == '-' {
        assert |s| == 1 || s[1] != '-';
        assert DropLeadingHyphens(s[1..]) == s[1..];
      }
      CollapseHyphensFixed(s[1..]);
    }
  }

  /**
   * The clean filename: the first UUID (and one hyphen after it) removed,
   * leading hyphens dropped, hyphen runs collapsed.
   */
  function CleanFilename(filename: string): (r: string)
    ensures r == [] || r[0] != '-'
    ensures NoDoubleHyphen(r)
    ensures |r| <= |filename|
    ensures Erase(r, '-') == Erase(RemoveFirstUuid(filename), '-')
  {
    var u := RemoveFirstUuid(filename);
    DropLeadingHyphensErase(u);
    CollapseHyphensErase(DropLeadingHyphens(u));
    CollapseHyphens(DropLeadingHyphens(u))
  }

  /** A filename that is already tidy and holds no UUID is its own clean form. */
  lemma CleanFilenameFixed(filename: string)
    requires !HasUuid(filename) && (filename == [] || filename[0] != '-') && NoDoubleHyphen(filename)
    ensures CleanFilename(filename) == filename
  {
    CollapseHyphensFixed(filename);
  }

  /**
   * The preserve rule: no database client code, and the key's first two
   * segments exist and are both different from "default".
   */
  predicate KeepsStructure(key: string, db: PathInfo)
  {
    var path := ExtractPathInfo(key);
    !Truthy(db.clientCode) && path.clientCode.Some? && path.projectCode.Some? &&
    path.clientCode.value != "default" && path.projectCode.value != "default"
  }

  /** generateCleanKey, given the answer of findFileInDatabase. */
  function GenerateCleanKey(key: string, db: PathInfo): string
  {
    CleanFolders(key, db) + "/" + CleanFilename(LastSegment(key))
  }

  /** The CLIENT/PROJECT part of the clean key. */
  function CleanFolders(key: string, db: PathInfo): string
  {
    var path := ExtractPathInfo(key);
    if KeepsStructure(key, db) then
      path.clientCode.value + "/" + path.projectCode.value
    else
      var clientCode := if Truthy(db.clientCode) then db.clientCode.value
                        else if path.clientCode.Some? then path.clientCode.value else "default";
      var projectCode := if Truthy(db.projectCode) then db.projectCode.value
                         else if path.projectCode.Some? then path.projectCode.value else "default";
      UnderscoreSpaces(clientCode) + "/" + UnderscoreSpaces(projectCode)
  }

  /**
   * With no database information, an organised key `c/p/.../name` keeps its
   * two leading segments verbatim and only its last segment is cleaned.
   */
  lemma OrganisedKeyKeepsFolders(c: string, p: string, rest: string)
    requires c != "" && p != "" && '/' !in c && '/' !in p
    requires c != "default" && p != "default"
    ensures GenerateCleanKey(c + "/" + (p + "/" + rest), PathInfo(None, None)) ==
      c + "/" + p + "/" + CleanFilename(LastSegment(c + "/" + (p + "/" + rest)))
  {
    ExtractPathInfoOfKey(c, p, rest);
    assert c + "/" + p + "/" + CleanFilename(LastSegment(c + "/" + (p + "/" + rest))) ==
      (c + "/" + p) + "/" + CleanFilename(LastSegment(c + "/" + (p + "/" + rest)));
  }

  /**
   * Otherwise the folders are the database values, else the path segments,
   * else "default", with whitespace runs turned into '_': they hold no
   * whitespace, and a key with no information at all lands in default/default.
   */
  lemma CleanKeyFolders(key: string, db: PathInfo)
    requires !KeepsStructure(key, db)
    ensures forall i :: 0 <= i < |CleanFolders(key, db)| ==> !JsSpace(CleanFolders(key, db)[i])
  {
    var path := ExtractPathInfo(key);
    var clientCode := if Truthy(db.clientCode) then db.clientCode.value
                      else if path.clientCode.Some? then path.clientCode.value else "default";
    var projectCode := if Truthy(db.projectCode) then db.projectCode.value
                       else if path.projectCode.Some? then path.projectCode.value else "default";
    assert CleanFolders(key, db) == UnderscoreSpaces(clientCode) + "/" + UnderscoreSpaces(projectCode);
    NoSpaceAround(UnderscoreSpaces(clientCode), UnderscoreSpaces(projectCode));
  }

  /** A key with fewer than two segments and no database values lands in default/default. */
  lemma NoInformationDefault(key: string, db: PathInfo)
    requires !Truthy(db.clientCode) && !Truthy(db.projectCode)
    requires |NonEmpty(Split(key, '/'))| < 2
    ensures CleanFolders(key, db) == "default/default"
  {
    var path := ExtractPathInfo(key);
    assert path.clientCode.None? && path.projectCode.None?;
    assert !KeepsStructure(key, db);
    DefaultFolders(key, db, path);
  }

  /** Without database values and without path segments both folders fall back to "default". */
  lemma DefaultFolders(key: string, db: PathInfo, path: PathInfo)
    requires path == ExtractPathInfo(key) && path.clientCode.None? && path.projectCode.None?
    requires !Truthy(db.clientCode) && !Truthy(db.projectCode) && !KeepsStructure(key, db)
    ensures CleanFolders(key, db) == "default/default"
  {
    var d := "default";
    DefaultHasNoSpace();
    assert CleanFolders(key, db) == UnderscoreSpaces(d) + "/" + UnderscoreSpaces(d);
  }

  lemma DefaultHasNoSpace()
    ensures UnderscoreSpaces("default") == "default"
  {
    var d := "default";
    forall i | 0 <= i < |d|
      ensures !JsSpace(d[i])
    {
      assert d[i] in {'d', 'e', 'f', 'a', 'u', 'l', 't'};
    }
    UnderscoreSpacesFixed(d);
  }

  lemma NoSpaceAround(u1: string, u2: string)
    requires forall i :: 0 <= i < |u1| ==> !JsSpace(u1[i])
    requires forall i :: 0 <= i < |u2| ==> !JsSpace(u2[i])
    ensures forall i :: 0 <= i < |u1 + "/" + u2| ==> !JsSpace((u1 + "/" + u2)[i])
  {
    forall i | 0 <= i < |u1 + "/" + u2|
      ensures !JsSpace((u1 + "/" + u2)[i])
    {
      if i < |u1| {
        assert (u1 + "/" + u2)[i] == u1[i];
      } else if i > |u1| {
        assert (u1 + "/" + u2)[i] == u2[i - |u1| - 1];
      }
    }
  }

  /** The clean key always ends in "/" and the cleaned last segment of the key. */
  lemma CleanKeyEndsWithFilename(key: string, db: PathInfo)
    ensures EndsWith(GenerateCleanKey(key, db), "/" + CleanFilename(LastSegment(key)))
  {
    EndsWithJoined(CleanFolders(key, db), CleanFilename(LastSegment(key)));
  }

  lemma EndsWithJoined(a: string, b: string)
    ensures EndsWith(a + "/" + b, "/" + b)
  {
    assert a + "/" + b == a + ("/" + b);
    assert (a + ("/" + b))[|a|..] == "/" + b;
  }

  /**
   * findFileInDatabase. `exact` is the row whose path is the key (with its
   * project and client), `byName` the most recent row whose name contains the
   * key's filename without its UUID; the second lookup happens only when
   * that filename had a UUID. Failing both, a key of three or more segments
   * whose first two are non-empty and not "default" supplies them.
   */
  function FindFileInDatabase(key: string, exact: Option<DbMatch>, byName: Option<DbMatch>): (r: PathInfo)
    ensures exact.Some? ==> r == PathInfo(Some(exact.value.clientCode), Some(exact.value.projectName))
    ensures exact.None? && HasUuid(LastSegment(key)) && byName.Some? ==>
      r == PathInfo(Some(byName.value.clientCode), Some(byName.value.projectName))
    ensures exact.None? && !(HasUuid(LastSegment(key)) && byName.Some?) ==>
      var parts := Split(key, '/');
      r == if |parts| >= 3 && parts[0] != "" && parts[1] != "" && parts[0] != "default" && parts[1] != "default"
           then PathInfo(Some(parts[0]), Some(parts[1])) else PathInfo(None, None)
    ensures r.clientCode.Some? <==> r.projectCode.Some?
  {
    var filename := LastSegment(key);
    if exact.Some? then PathInfo(Some(exact.value.clientCode), Some(exact.value.projectName))
    else if RemoveFirstUuid(filename) != filename && byName.Some? then
      PathInfo(Some(byName.value.clientCode), Some(byName.value.projectName))
    else
      var parts := Split(key, '/');
      if |parts| >= 3 && parts[0] != "" && parts[1] != "" && parts[0] != "default" && parts[1] != "default" then
        PathInfo(Some(parts[0]), Some(parts[1]))
      else PathInfo(None, None)
  }

  // ---------------------------------------------------------------------
  // The batch run of fixS3Filenames

  /**
   * One listed object and the answers the run gets for it: the database
   * lookups and whether the S3 rename succeeds.
   */
  datatype S3Object = S3Object(key: Option<string>, exact: Option<DbMatch>, byName: Option<DbMatch>, renameOk: bool)

  /** Thumbnails and dot-files are left alone. */
  predicate SystemFile(key: string)
  {
    Contains(key, "/_thumb/") || StartsWith(LastSegment(key), ".")
  }

  /**
   * The guard against renaming into a default folder: the clean key has
   * "default" as its first or second segment while the original has at least
   * three segments and neither of its first two is "default".
   */
  predicate LosesStructure(key: string, cleanKey: string)
  {
    var cleanParts := Split(cleanKey, '/');
    var originalParts := Split(key, '/');
    (cleanParts[0] == "default" || (|cleanParts| > 1 && cleanParts[1] == "default")) &&
    |originalParts| >= 3 && originalParts[0] != "default" && originalParts[1] != "default"
  }

  /** The clean key the run computes for a key. */
  function CleanKeyOf(o: S3Object): string
    requires o.key.Some?
  {
    GenerateCleanKey(o.key.value, FindFileInDatabase(o.key.value, o.exact, o.byName))
  }

  /** The position of the first row with path p. */
  function FirstIndex(paths: seq<string>, p: string): (i: nat)
    requires p in paths
    ensures i < |paths| && paths[i] == p && p !in paths[..i]
  {
    if paths[0] == p then 0
    else
      var j := FirstIndex(paths[1..], p);
      assert paths[..j + 1] == [paths[0]] + paths[1..][..j];
      j + 1
  }

  /** `findFirst({ where: { path: key } })` then update: the first row with that path gets the new one. */
  function ReplaceFirst(paths: seq<string>, old_: string, new_: string): (r: seq<string>)
    ensures old_ !in paths ==> r == paths
    ensures old_ in paths ==> r == paths[FirstIndex(paths, old_) := new_]
  {
    if paths == [] then []
    else if paths[0] == old_ then [new_] + paths[1..]
    else [paths[0]] + ReplaceFirst(paths[1..], old_, new_)
  }

  datatype RunState = RunState(renamed: nat, skipped: nat, paths: seq<string>, moves: seq<(string, string)>)

  /** What the run does with one object. */
  function Visit(st: RunState, o: S3Object): (r: RunState)
    ensures |r.paths| == |st.paths|
    ensures r.renamed + r.skipped <= st.renamed + st.skipped + 1
    ensures r.renamed - st.renamed == |r.moves| - |st.moves|
  {
    if o.key.None? || o.key.value == "" || SystemFile(o.key.value) || !HasUuid(o.key.value) then st
    else
      var key := o.key.value;
      var cleanKey := CleanKeyOf(o);
      if cleanKey == key || LosesStructure(key, cleanKey) then st.(skipped := st.skipped + 1)
      else if !o.renameOk then st
      else RunState(st.renamed + 1, st.skipped, ReplaceFirst(st.paths, key, cleanKey), st.moves + [(key, cleanKey)])
  }

  /** The objects visited in listing order. */
  function Run(objects: seq<S3Object>, paths: seq<string>): (r: RunState)
    decreases |objects|
  {
    if objects == [] then RunState(0, 0, paths, [])
    else Visit(Run(objects[..|objects| - 1], paths), objects[|objects| - 1])
  }

  /**
   * A system file, a key without a UUID or one whose clean key is itself is
   * never renamed, nor is one whose clean key would lose its folders; a
   * rename that fails changes nothing but is not counted as skipped.
   */
  lemma VisitRules(st: RunState, o: S3Object)
    ensures (o.key.None? || o.key.value == "" || SystemFile(o.key.value) || !HasUuid(o.key.value)) ==> Visit(st, o) == st
    ensures Visit(st, o).moves != st.moves ==>
      o.key.Some? && o.renameOk && HasUuid(o.key.value) && !SystemFile(o.key.value) &&
      CleanKeyOf(o) != o.key.value && !LosesStructure(o.key.value, CleanKeyOf(o)) &&
      Visit(st, o).moves == st.moves + [(o.key.value, CleanKeyOf(o))]
    ensures Visit(st, o).paths != st.paths ==> Visit(st, o).moves != st.moves
  {
  }

  /**
   * Over the whole run: every rename is counted, every object adds at most
   * one to the counts, and every move goes from a key with a UUID to a
   * different key that does not lose its folders.
   */
  lemma {:induction false} RunCounts(objects: seq<S3Object>, paths: seq<string>)
    ensures Run(objects, paths).renamed == |Run(objects, paths).moves|
    ensures Run(objects, paths).renamed + Run(objects, paths).skipped <= |objects|
    ensures |Run(objects, paths).paths| == |paths|
    ensures forall m :: m in Run(objects, paths).moves ==>
      HasUuid(m.0) && m.1 != m.0 && !LosesStructure(m.0, m.1)
    decreases |objects|
  {
    if objects != [] {
      RunCounts(objects[..|objects| - 1], paths);
      VisitRules(Run(objects[..|objects| - 1], paths), objects[|objects| - 1]);
    }
  }

  lemma RunSnoc(objects: seq<S3Object>, i: nat, paths: seq<string>)
    requires i < |objects|
    ensures Run(objects[..i + 1], paths) == Visit(Run(objects[..i], paths), objects[i])
  {
    assert objects[..i + 1][..i] == objects[..i];
  }

  /**
   * fixS3Filenames: walk the listing, skip or rename each object and, after
   * a successful rename, repoint the database row that had the old key.
   */
  method FixS3FilenamesRun(objects: seq<S3Object>, paths: seq<string>)
    returns (renamedCount: nat, skippedCount: nat, newPaths: seq<string>, moves: seq<(string, string)>)
    ensures RunState(renamedCount, skippedCount, newPaths, moves) == Run(objects, paths)
  {
    renamedCount, skippedCount, newPaths, moves := 0, 0, paths, [];
    var i := 0;
    while i < |objects|
      invariant 0 <= i <= |objects|
      invariant RunState(renamedCount, skippedCount, newPaths, moves) == Run(objects[..i], paths)
    {
      var o := objects[i];
      RunSnoc(objects, i, paths);
      i := i + 1;
      if o.key.None? || o.key.value == "" {
        continue;
      }
      var key := o.key.value;
      if SystemFile(key) {
        continue;
      }
      if HasUuid(key) {
        var cleanKey := CleanKeyOf(o);
        if cleanKey == key {
          skippedCount := skippedCount + 1;
          continue;
        }
        if LosesStructure(key, cleanKey) {
          skippedCount := skippedCount + 1;
          continue;
        }
        if o.renameOk {
          renamedCount := renamedCount + 1;
          newPaths := ReplaceFirst(newPaths, key, cleanKey);
          moves := moves + [(key, cleanKey)];
        }
      }
    }
    assert objects[..i] == objects;
  }
}
