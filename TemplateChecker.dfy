// The TemplateChecker class of scripts/template_checker/template_checker.py:
// finding template files in a directory walk, pairing them with their
// parent files, collecting the parent lines a template lacks, and writing
// the Markdown report. The walk and the file contents are given as values;
// Python dicts, which keep insertion order, are association lists.

module TemplateChecker {
  import opened Strings
  import opened TemplateNames
  import opened TemplateLines
  import opened PosixPaths

  // ---------------------------------------------------------------------
  // Insertion-ordered dictionaries

  function Keys<V>(m: seq<(string, V)>): (r: seq<string>)
    ensures |r| == |m|
    ensures forall i :: 0 <= i < |m| ==> r[i] == m[i].0
  {
    if m == [] then [] else Keys(m[..|m| - 1]) + [m[|m| - 1].0]
  }

  predicate Distinct(ks: seq<string>)
  {
    forall i, j :: 0 <= i < j < |ks| ==> ks[i] != ks[j]
  }

  predicate DistinctKeys<V>(m: seq<(string, V)>)
  {
    Distinct(Keys(m))
  }

  lemma KeysSnoc<V>(m: seq<(string, V)>, e: (string, V))
    ensures Keys(m + [e]) == Keys(m) + [e.0]
  {
    assert (m + [e])[..|m|] == m;
  }

  /** `d.get(k)`. */
  function Lookup<V>(m: seq<(string, V)>, k: string): (r: Option<V>)
    ensures r.Some? <==> k in Keys(m)
    ensures r.Some? ==> (k, r.value) in m
  {
    if m == [] then None
    else
      var init := m[..|m| - 1];
      KeysSnoc(init, m[|m| - 1]);
      assert m == init + [m[|m| - 1]];
      if m[|m| - 1].0 == k then Some(m[|m| - 1].1) else Lookup(init, k)
  }

  /** Every entry for k takes the value v. */
  function Replace<V>(m: seq<(string, V)>, k: string, v: V): (r: seq<(string, V)>)
    ensures Keys(r) == Keys(m)
  {
    seq(|m|, i requires 0 <= i < |m| => if m[i].0 == k then (k, v) else m[i])
  }

  /** `d[k] = v`: a present key keeps its place and takes the new value; a new key goes last. */
  function Put<V>(m: seq<(string, V)>, k: string, v: V): (r: seq<(string, V)>)
    ensures Keys(r) == if k in Keys(m) then Keys(m) else Keys(m) + [k]
  {
    if k in Keys(m) then Replace(m, k, v)
    else
      KeysSnoc(m, (k, v));
      m + [(k, v)]
  }

  lemma {:induction false} ReplaceLookup<V>(m: seq<(string, V)>, k: string, v: V, k2: string)
    requires k in Keys(m)
    ensures Lookup(Replace(m, k, v), k2) == if k2 == k then Some(v) else Lookup(m, k2)
    decreases |m|
  {
    var r := Replace(m, k, v);
    var init := m[..|m| - 1];
    assert r[..|r| - 1] == Replace(init, k, v);
    KeysSnoc(init, m[|m| - 1]);
    assert m == init + [m[|m| - 1]];
    if k in Keys(init) {
      ReplaceLookup(init, k, v, k2);
    } else {
      assert Replace(init, k, v) == init by {
        forall i | 0 <= i < |init| ensures init[i].0 != k {
          assert Keys(init)[i] == init[i].0;
        }
      }
    }
  }

  /** After `d[k] = v`, k reads v and every other key reads as before. */
  lemma PutLookup<V>(m: seq<(string, V)>, k: string, v: V, k2: string)
    ensures Lookup(Put(m, k, v), k2) == if k2 == k then Some(v) else Lookup(m, k2)
  {
    if k in Keys(m) {
      ReplaceLookup(m, k, v, k2);
    } else {
      assert (m + [(k, v)])[..|m|] == m;
    }
  }

  /** `d[k] = v` never creates a second entry for a key. */
  /** Every entry after `d[k] = v` is the new one or an old one. */
  lemma PutEntry<V>(m: seq<(string, V)>, k: string, v: V, i: nat)
    requires i < |Put(m, k, v)|
    ensures Put(m, k, v)[i] == (k, v) || Put(m, k, v)[i] in m
  {
    if k in Keys(m) {
      assert Replace(m, k, v)[i] == if m[i].0 == k then (k, v) else m[i];
    }
  }

  lemma PutDistinct<V>(m: seq<(string, V)>, k: string, v: V)
    requires DistinctKeys(m)
    ensures DistinctKeys(Put(m, k, v))
  {
  }

  // ---------------------------------------------------------------------
  // find_template_files

  /** `os.path.relpath(os.path.join(root, name), base)`, with root given relative to base ("" for base). */
  function RelPath(dir: string, name: string): string
  {
    if dir == "" then name else dir + "/" + name
  }

  /** What one name contributes for one pattern. */
  function Keep(dir: string, name: string, pat: string): seq<string>
  {
    if Match(pat, name) && !IsExcluded(RelPath(dir, name)) then [RelPath(dir, name)] else []
  }

  /** `fnmatch.filter(names, pat)` in one directory, excluded paths dropped. */
  function FoundFiles(dir: string, names: seq<string>, pat: string): seq<string>
  {
    if names == [] then [] else FoundFiles(dir, names[..|names| - 1], pat) + Keep(dir, names[|names| - 1], pat)
  }

  /** One directory, pattern after pattern. */
  function FoundPatterns(dir: string, names: seq<string>, pats: seq<string>): seq<string>
  {
    if pats == [] then [] else FoundPatterns(dir, names, pats[..|pats| - 1]) + FoundFiles(dir, names, pats[|pats| - 1])
  }

  /** The whole walk, directory after directory: (root relative to base, file names). */
  function Found(walk: seq<(string, seq<string>)>): seq<string>
  {
    if walk == [] then []
    else Found(walk[..|walk| - 1]) + FoundPatterns(walk[|walk| - 1].0, walk[|walk| - 1].1, TemplatePatterns)
  }

  /** A path is listed for a pattern exactly when some name of the directory matches and it is not excluded. */
  lemma {:induction false} FoundFilesMeans(dir: string, names: seq<string>, pat: string, x: string)
    ensures x in FoundFiles(dir, names, pat) <==>
      exists n :: n in names && Match(pat, n) && x == RelPath(dir, n) && !IsExcluded(x)
    decreases |names|
  {
    if names != [] {
      var init, n := names[..|names| - 1], names[|names| - 1];
      FoundFilesMeans(dir, init, pat, x);
      SplitLast(names);
      if x in FoundFiles(dir, names, pat) && x !in FoundFiles(dir, init, pat) {
        assert Match(pat, n) && x == RelPath(dir, n);
      }
    }
  }

  function CountMatching(pats: seq<string>, name: string): (r: nat)
    ensures r <= |pats|
  {
    if pats == [] then 0 else CountMatching(pats[..|pats| - 1], name) + (if Match(pats[|pats| - 1], name) then 1 else 0)
  }

  function Repeat(x: string, n: nat): (r: seq<string>)
    ensures |r| == n && forall i :: 0 <= i < n ==> r[i] == x
  {
    if n == 0 then [] else Repeat(x, n - 1) + [x]
  }

  /** A file name is listed once per pattern it matches, unless its path is excluded. */
  lemma {:induction false} FoundOneName(dir: string, name: string, pats: seq<string>)
    ensures FoundPatterns(dir, [name], pats)
         == if IsExcluded(RelPath(dir, name)) then [] else Repeat(RelPath(dir, name), CountMatching(pats, name))
    decreases |pats|
  {
    if pats != [] {
      FoundOneName(dir, name, pats[..|pats| - 1]);
      assert [name][..0] == [];
      assert FoundFiles(dir, [name], pats[|pats| - 1]) == Keep(dir, name, pats[|pats| - 1]);
    }
  }

  /** Two different patterns that both match give at least two matches. */
  lemma {:induction false} CountTwo(pats: seq<string>, name: string, i: nat, j: nat)
    requires i < j < |pats| && Match(pats[i], name) && Match(pats[j], name)
    ensures CountMatching(pats, name) >= 2
    decreases |pats|
  {
    var init := pats[..|pats| - 1];
    if j < |pats| - 1 {
      CountTwo(init, name, i, j);
    } else {
      CountOne(init, name, i);
    }
  }

  lemma {:induction false} CountOne(pats: seq<string>, name: string, i: nat)
    requires i < |pats| && Match(pats[i], name)
    ensures CountMatching(pats, name) >= 1
    decreases |pats|
  {
    if i < |pats| - 1 {
      CountOne(pats[..|pats| - 1], name, i);
    }
  }

  /**
   * A top-level `X.env.template` matches both `*.template` and
   * `*.env.template`, so it is listed at least twice.
   */
  lemma EnvTemplateListedTwice(name: string)
    requires '/' !in name && EndsWith(name, EnvTemplate)
    ensures var found := Found([("", [name])]);
      |found| >= 2 && found[0] == name && found[1] == name
  {
    MatchStarLiteral(EnvTemplate, name);
    EnvTemplateMatchesTwice(name);
    CountTwo(TemplatePatterns, name, 1, 2);
    TopLevelNeverExcluded(name);
    FoundOneName("", name, TemplatePatterns);
    FoundTopLevel(name);
  }

  /** A walk of the top directory alone lists what the patterns list for its files. */
  lemma FoundTopLevel(name: string)
    ensures Found([("", [name])]) == FoundPatterns("", [name], TemplatePatterns)
  {
    var walk := [("", [name])];
    assert walk[..0] == [];
  }

  // ---------------------------------------------------------------------
  // find_parent_files

  /** The parent map after each template in turn. */
  function ParentsOf(ts: seq<string>, fs: FileSystem): seq<(string, string)>
  {
    if ts == [] then []
    else
      var m := ParentsOf(ts[..|ts| - 1], fs);
      var p := ParentOf(ts[|ts| - 1], fs);
      if p.Some? then Put(m, ts[|ts| - 1], p.value) else m
  }

  /**
   * The map holds one entry per template that has a parent, and exactly
   * that parent; duplicates in the template list collapse.
   */
  lemma {:induction false} ParentsOfMeans(ts: seq<string>, fs: FileSystem, t: string)
    ensures Lookup(ParentsOf(ts, fs), t) == if t in ts then ParentOf(t, fs) else None
    ensures DistinctKeys(ParentsOf(ts, fs))
    decreases |ts|
  {
    if ts != [] {
      var init, last := ts[..|ts| - 1], ts[|ts| - 1];
      ParentsOfMeans(init, fs, t);
      SplitLast(ts);
      var p := ParentOf(last, fs);
      if p.Some? {
        PutLookup(ParentsOf(init, fs), last, p.value, t);
        PutDistinct(ParentsOf(init, fs), last, p.value);
      }
    }
  }

  // ---------------------------------------------------------------------
  // find_missing_lines

  /** A line takes part in the comparison unless it is blank or a comment. */
  predicate Kept(line: string)
  {
    Strip(line) != "" && !StartsWith(Strip(line), "#")
  }

  /** The normalised forms of the kept lines, in order. */
  function NormKept(lines: seq<string>): (r: seq<string>)
    ensures |r| <= |lines|
  {
    if lines == [] then []
    else NormKept(lines[..|lines| - 1]) + (if Kept(lines[|lines| - 1]) then [Normalize(lines[|lines| - 1])] else [])
  }

  function NormSet(lines: seq<string>): set<string>
  {
    set x | x in NormKept(lines)
  }

  /** A normalised form is in the set iff some kept line has it. */
  lemma {:induction false} NormSetMeans(lines: seq<string>, x: string)
    ensures x in NormSet(lines) <==> exists l :: l in lines && Kept(l) && Normalize(l) == x
    decreases |lines|
  {
    if lines != [] {
      var init := lines[..|lines| - 1];
      NormSetMeans(init, x);
      assert lines == init + [lines[|lines| - 1]];
    }
  }

  /**
   * The lines a template lacks: each kept parent line whose normalised form
   * is not in the template's set, rstripped, in parent order.
   */
  function MissingIntended(template: seq<string>, parent: seq<string>): seq<string>
  {
    MissingBySet(NormSet(template), parent)
  }

  function MissingBySet(s: set<string>, parent: seq<string>): seq<string>
  {
    if parent == [] then []
    else
      var l := parent[|parent| - 1];
      MissingBySet(s, parent[..|parent| - 1]) + (if Kept(l) && Normalize(l) !in s then [RStrip(l)] else [])
  }

  /** A line is reported iff a kept parent line with no normalised twin in the template gives it. */
  lemma {:induction false} MissingIntendedMeans(template: seq<string>, parent: seq<string>, x: string)
    ensures x in MissingIntended(template, parent) <==>
      exists l :: l in parent && Kept(l) && Normalize(l) !in NormSet(template) && x == RStrip(l)
    decreases |parent|
  {
    if parent != [] {
      var init := parent[..|parent| - 1];
      MissingIntendedMeans(template, init, x);
      assert parent == init + [parent[|parent| - 1]];
    }
  }

  /** At most one report per kept parent line. */
  lemma {:induction false} MissingIntendedBound(template: seq<string>, parent: seq<string>)
    ensures |MissingIntended(template, parent)| <= |NormKept(parent)|
    decreases |parent|
  {
    if parent != [] {
      MissingIntendedBound(template, parent[..|parent| - 1]);
    }
  }

  /** A file compared with itself lacks nothing. */
  lemma {:induction false} NothingMissingFromItself(lines: seq<string>, parent: seq<string>)
    requires forall l :: l in parent ==> l in lines
    ensures MissingIntended(lines, parent) == []
    decreases |parent|
  {
    if parent != [] {
      var l := parent[|parent| - 1];
      NothingMissingFromItself(lines, parent[..|parent| - 1]);
      if Kept(l) {
        NormSetMeans(lines, Normalize(l));
      }
    }
  }

  /**
   * find_missing_lines as written: the i-th kept, normalised parent line is
   * reported as `parent_lines[i].rstrip()`, the i-th line of the whole
   * file, comments and blank lines included.
   */
  function MissingAsWritten(template: seq<string>, parent: seq<string>): seq<string>
  {
    AsWrittenScan(NormSet(template), NormKept(parent), parent)
  }

  function AsWrittenScan(templateSet: set<string>, norm: seq<string>, parent: seq<string>): seq<string>
  {
    if norm == [] then []
    else
      var i := |norm| - 1;
      AsWrittenScan(templateSet, norm[..i], parent) +
        (if norm[i] !in templateSet && i < |parent| then [RStrip(parent[i])] else [])
  }

  /** The guard `i < len(parent_lines)` always holds: there are never more kept lines than lines. */
  lemma GuardAlwaysHolds(parent: seq<string>)
    ensures |NormKept(parent)| <= |parent|
  {
  }

  /** With no blank or comment line in the parent, the code as written reports the right lines. */
  lemma AsWrittenAgreesWithoutSkips(template: seq<string>, parent: seq<string>)
    requires forall i :: 0 <= i < |parent| ==> Kept(parent[i])
    ensures MissingAsWritten(template, parent) == MissingIntended(template, parent)
  {
    AsWrittenAligned(NormSet(template), parent, |parent|);
    assert parent[..|parent|] == parent;
  }

  /** When every line is kept, there is one normalised line per line. */
  lemma {:induction false} AllKeptLength(lines: seq<string>)
    requires forall i :: 0 <= i < |lines| ==> Kept(lines[i])
    ensures |NormKept(lines)| == |lines|
    decreases |lines|
  {
    if lines != [] {
      AllKeptLength(lines[..|lines| - 1]);
    }
  }

  lemma {:induction false} AsWrittenAligned(s: set<string>, parent: seq<string>, n: nat)
    requires n <= |parent| && forall i :: 0 <= i < |parent| ==> Kept(parent[i])
    ensures AsWrittenScan(s, NormKept(parent[..n]), parent) == MissingBySet(s, parent[..n])
    decreases n
  {
    if n > 0 {
      var pre, l := parent[..n - 1], parent[n - 1];
      assert parent[..n] == pre + [l];
      AsWrittenAligned(s, parent, n - 1);
      AllKeptLength(pre);
      AsWrittenAlignedStep(s, pre, l, parent);
    }
  }

  /** One more kept line, found at its own index of the parent, keeps the scan as written aligned. */
  lemma AsWrittenAlignedStep(s: set<string>, pre: seq<string>, l: string, parent: seq<string>)
    requires |pre| < |parent| && parent[|pre|] == l && Kept(l) && |NormKept(pre)| == |pre|
    requires AsWrittenScan(s, NormKept(pre), parent) == MissingBySet(s, pre)
    ensures AsWrittenScan(s, NormKept(pre + [l]), parent) == MissingBySet(s, pre + [l])
  {
    NormKeptSnoc(pre, l);
    AsWrittenScanSnoc(s, NormKept(pre), Normalize(l), parent);
    MissingBySetSnoc(s, pre, l);
  }

  /** One step of the scan as written: the next normalised line is checked against line i of the parent. */
  lemma AsWrittenScanSnoc(s: set<string>, norm: seq<string>, x: string, parent: seq<string>)
    ensures AsWrittenScan(s, norm + [x], parent) ==
      AsWrittenScan(s, norm, parent) + (if x !in s && |norm| < |parent| then [RStrip(parent[|norm|])] else [])
  {
    var e := norm + [x];
    assert e[..|e| - 1] == norm;
    assert e[|e| - 1] == x;
  }

  /**
   * A comment before a missing line makes the code as written report the
   * comment instead: with an empty template and the parent `# note`,
   * `FOO=1`, it reports `# note` where `FOO=1` is missing.
   */
  lemma AsWrittenReportsComment()
    ensures MissingAsWritten([], ["# note", "FOO=1"]) == ["# note"]
    ensures MissingIntended([], ["# note", "FOO=1"]) == ["FOO=1"]
  {
    AsWrittenOnNote();
    IntendedOnNote();
  }

  /** The comment is dropped and the setting kept, both unchanged by stripping. */
  lemma NoteLines()
    ensures !Kept("# note") && Kept("FOO=1")
    ensures RStrip("# note") == "# note" && RStrip("FOO=1") == "FOO=1"
  {
    StripFixed("# note");
    StripFixed("FOO=1");
  }

  /** The scan as written pairs the one kept line with the comment at index 0. */
  lemma AsWrittenOnNote()
    ensures MissingAsWritten([], ["# note", "FOO=1"]) == ["# note"]
  {
    var parent := ["# note", "FOO=1"];
    NoteLines();
    assert parent[..1] == ["# note"] && parent[..1][..0] == [];
    assert NormKept(parent) == [Normalize("FOO=1")];
    assert NormKept(parent)[..0] == [];
  }

  /** Reporting each line from its own parent line gives the setting. */
  lemma IntendedOnNote()
    ensures MissingIntended([], ["# note", "FOO=1"]) == ["FOO=1"]
  {
    var parent := ["# note", "FOO=1"];
    NoteLines();
    assert NormKept([]) == [] && NormSet([]) == {};
    assert parent[..1] == ["# note"] && parent[..1][..0] == [];
    assert MissingBySet({}, parent[..1]) == [];
    assert MissingBySet({}, parent) == [RStrip("FOO=1")];
  }

  /** One step of the set the template's kept lines normalise to. */
  lemma NormKeptSnoc(lines: seq<string>, l: string)
    ensures NormKept(lines + [l]) == NormKept(lines) + (if Kept(l) then [Normalize(l)] else [])
  {
    assert (lines + [l])[..|lines|] == lines;
  }

  lemma MissingBySetSnoc(s: set<string>, parent: seq<string>, l: string)
    ensures MissingBySet(s, parent + [l]) == MissingBySet(s, parent) + (if Kept(l) && Normalize(l) !in s then [RStrip(l)] else [])
  {
    assert (parent + [l])[..|parent|] == parent;
  }

  // ---------------------------------------------------------------------
  // analyze_all_files

  /** find_missing_lines on two paths: nothing when either is not a regular file. */
  function Missing(templateFile: string, parentFile: string, fs: FileSystem): seq<string>
  {
    if templateFile in fs.files && parentFile in fs.files then MissingIntended(fs.files[templateFile], fs.files[parentFile])
    else []
  }

  /** The differences map after each (template, parent) pair in turn. */
  function Diffs(pairs: seq<(string, string)>, fs: FileSystem): seq<(string, seq<string>)>
  {
    if pairs == [] then []
    else
      var d := Diffs(pairs[..|pairs| - 1], fs);
      var (t, p) := pairs[|pairs| - 1];
      var lines := Missing(t, p, fs);
      if lines != [] then Put(d, t, lines) else d
  }

  /**
   * `differences` holds a template exactly when it has a parent and misses
   * at least one line, and then holds those lines.
   */
  lemma {:induction false} DiffsMeans(pairs: seq<(string, string)>, fs: FileSystem, t: string)
    requires DistinctKeys(pairs)
    ensures Lookup(Diffs(pairs, fs), t)
         == if Lookup(pairs, t).Some? && Missing(t, Lookup(pairs, t).value, fs) != []
            then Some(Missing(t, Lookup(pairs, t).value, fs)) else None
    decreases |pairs|
  {
    if pairs != [] {
      var init, last := pairs[..|pairs| - 1], pairs[|pairs| - 1];
      KeysSnoc(init, last);
      SplitLast(pairs);
      assert DistinctKeys(init) by {
        forall i, j | 0 <= i < j < |init| ensures Keys(init)[i] != Keys(init)[j] {
          assert Keys(pairs)[i] == Keys(init)[i] && Keys(pairs)[j] == Keys(init)[j];
        }
      }
      DiffsMeans(init, fs, t);
      var lines := Missing(last.0, last.1, fs);
      if lines != [] {
        PutLookup(Diffs(init, fs), last.0, lines, t);
      }
      if last.0 == t {
        assert t !in Keys(init) by {
          forall i | 0 <= i < |init| ensures Keys(init)[i] != t {
            assert Keys(pairs)[i] == Keys(init)[i] && Keys(pairs)[|pairs| - 1] == t;
          }
        }
        DiffsAvoids(init, fs, t);
      }
    }
  }

  /** A template with no pair never gets a differences entry. */
  lemma {:induction false} DiffsAvoids(pairs: seq<(string, string)>, fs: FileSystem, t: string)
    requires t !in Keys(pairs)
    ensures t !in Keys(Diffs(pairs, fs))
    decreases |pairs|
  {
    if pairs != [] {
      var init := pairs[..|pairs| - 1];
      KeysSnoc(init, pairs[|pairs| - 1]);
      SplitLast(pairs);
      DiffsAvoids(init, fs, t);
    }
  }

  /** Every differences entry names a paired template and holds at least one line. */
  lemma {:induction false} DiffsWellFormed(pairs: seq<(string, string)>, fs: FileSystem)
    ensures var d := Diffs(pairs, fs);
      DistinctKeys(d) && forall i :: 0 <= i < |d| ==> d[i].0 in Keys(pairs) && d[i].1 != []
    decreases |pairs|
  {
    if pairs != [] {
      var init, last := pairs[..|pairs| - 1], pairs[|pairs| - 1];
      KeysSnoc(init, last);
      SplitLast(pairs);
      DiffsWellFormed(init, fs);
      var d0 := Diffs(init, fs);
      var lines := Missing(last.0, last.1, fs);
      if lines != [] {
        PutDistinct(d0, last.0, lines);
        var d := Put(d0, last.0, lines);
        forall i | 0 <= i < |d|
          ensures d[i].0 in Keys(pairs) && d[i].1 != []
        {
          PutEntry(d0, last.0, lines, i);
          if d[i] != (last.0, lines) {
            var j :| 0 <= j < |d0| && d0[j] == d[i];
          }
        }
      }
    }
  }

  // ---------------------------------------------------------------------
  // generate_report

  const NoMissingSummary := "No missing content found in template files compared to their parent files."

  function Header(timestamp: string, baseDir: string, templates: nat, parents: nat, diffs: nat): seq<string>
  {
    ["# Template File Missing Content Report", "",
     "Generated: " + timestamp, "",
     "Base directory: " + baseDir,
     "Template files found: " + Decimal(templates),
     "Parent files matched: " + Decimal(parents),
     "Files with missing content: " + Decimal(diffs), ""]
  }

  /** The report section of one template. */
  function Section(template: string, parent: string, missing: seq<string>): seq<string>
  {
    ["### " + template, "*Compared to: " + parent + "*", ""] +
    (if missing == [] then ["No missing content found."]
     else ["Missing lines that should be added to the template:", "```"] + missing + ["```"]) +
    [""]
  }

  predicate KeysIn<V, W>(d: seq<(string, V)>, parents: seq<(string, W)>)
  {
    forall i :: 0 <= i < |d| ==> d[i].0 in Keys(parents)
  }

  function Sections(diffs: seq<(string, seq<string>)>, parents: seq<(string, string)>): seq<string>
    requires KeysIn(diffs, parents)
  {
    if diffs == [] then []
    else
      var (t, missing) := diffs[|diffs| - 1];
      Sections(diffs[..|diffs| - 1], parents) + Section(t, Lookup(parents, t).value, missing)
  }

  /** The lines of the report, before they are joined with newlines. */
  function ReportLines(timestamp: string, baseDir: string, templates: seq<string>,
                       parents: seq<(string, string)>, diffs: seq<(string, seq<string>)>): seq<string>
    requires KeysIn(diffs, parents)
  {
    Header(timestamp, baseDir, |templates|, |parents|, |diffs|) +
    if diffs == [] then ["## Summary", "", NoMissingSummary]
    else ["## Missing Content", ""] + Sections(diffs, parents)
  }

  /** With no differences the report is the header and the summary, ending with its sentence. */
  lemma SummaryWhenNothingMissing(timestamp: string, baseDir: string, templates: seq<string>, parents: seq<(string, string)>)
    ensures var r := ReportLines(timestamp, baseDir, templates, parents, []);
      |r| == 12 && r[9] == "## Summary" && r[11] == NoMissingSummary && NoMissingSummary in r
  {
  }

  /** Every missing line of every template is a line of the report, under its template's heading. */
  lemma {:induction false} SectionsListMissing(diffs: seq<(string, seq<string>)>, parents: seq<(string, string)>, i: nat, l: string)
    requires KeysIn(diffs, parents)
    requires i < |diffs| && l in diffs[i].1
    ensures l in Sections(diffs, parents) && "### " + diffs[i].0 in Sections(diffs, parents)
    decreases |diffs|
  {
    var init := diffs[..|diffs| - 1];
    assert KeysIn(init, parents);
    var (t, missing) := diffs[|diffs| - 1];
    var sec := Section(t, Lookup(parents, t).value, missing);
    if i < |diffs| - 1 {
      SectionsListMissing(init, parents, i, l);
    } else {
      assert sec[0] == "### " + t;
      assert missing != [];
      assert l in sec;
    }
  }

  // ---------------------------------------------------------------------
  // The checker

  class Checker {
    const baseDir: string
    var templateFiles: seq<string>
    var parentFiles: seq<(string, string)>
    var differences: seq<(string, seq<string>)>

    /** `TemplateChecker(base_dir)` run from the working directory cwd. */
    constructor (baseDir: string, cwd: string)
      requires StartsWith(cwd, "/")
      ensures this.baseDir == AbsPath(cwd, baseDir)
      ensures templateFiles == [] && parentFiles == [] && differences == []
    {
      this.baseDir := AbsPath(cwd, baseDir);
      templateFiles := [];
      parentFiles := [];
      differences := [];
    }

    /** is_excluded_file: the exclude patterns are tried in order until one matches. */
    method IsExcludedFile(path: string) returns (excluded: bool)
      ensures excluded == IsExcluded(path)
    {
      var k := 0;
      while k < |ExcludePatterns|
        invariant k <= |ExcludePatterns|
        invariant forall i :: 0 <= i < k ==> !Match(ExcludePatterns[i], path)
      {
        if Match(ExcludePatterns[k], path) {
          return true;
        }
        k := k + 1;
      }
      return false;
    }

    /** `fnmatch.filter(names, pat)` in one directory, keeping the paths not excluded. */
    method FilterNames(dir: string, names: seq<string>, pat: string) returns (found: seq<string>)
      ensures found == FoundFiles(dir, names, pat)
    {
      found := [];
      var i := 0;
      while i < |names|
        invariant i <= |names|
        invariant found == FoundFiles(dir, names[..i], pat)
      {
        var path := RelPath(dir, names[i]);
        if Match(pat, names[i]) {
          var excluded := IsExcludedFile(path);
          if !excluded {
            found := found + [path];
          }
        }
        assert names[..i + 1][..i] == names[..i];
        i := i + 1;
      }
      assert names[..i] == names;
    }

    /** One directory of the walk, pattern after pattern. */
    method ScanDirectory(dir: string, names: seq<string>) returns (found: seq<string>)
      ensures found == FoundPatterns(dir, names, TemplatePatterns)
    {
      found := [];
      var p := 0;
      while p < |TemplatePatterns|
        invariant p <= |TemplatePatterns|
        invariant found == FoundPatterns(dir, names, TemplatePatterns[..p])
      {
        var more := FilterNames(dir, names, TemplatePatterns[p]);
        found := found + more;
        assert TemplatePatterns[..p + 1][..p] == TemplatePatterns[..p];
        p := p + 1;
      }
      assert TemplatePatterns[..p] == TemplatePatterns;
    }

    /** find_template_files over a walk of (directory relative to the base, file names). */
    method FindTemplateFiles(walk: seq<(string, seq<string>)>) returns (found: seq<string>)
      modifies this
      ensures found == Found(walk) && templateFiles == found
      ensures parentFiles == old(parentFiles) && differences == old(differences)
    {
      found := [];
      var d := 0;
      while d < |walk|
        invariant d <= |walk|
        invariant found == Found(walk[..d])
        invariant parentFiles == old(parentFiles) && differences == old(differences)
      {
        var more := ScanDirectory(walk[d].0, walk[d].1);
        found := found + more;
        assert walk[..d + 1][..d] == walk[..d];
        d := d + 1;
      }
      assert walk[..d] == walk;
      templateFiles := found;
    }

    /** find_parent_files: the parent of each template, in template order. */
    method FindParentFiles(fs: FileSystem) returns (parents: seq<(string, string)>)
      modifies this
      ensures parents == ParentsOf(templateFiles, fs) && parentFiles == parents
      ensures templateFiles == old(templateFiles) && differences == old(differences)
    {
      parents := [];
      var i := 0;
      while i < |templateFiles|
        invariant i <= |templateFiles|
        invariant parents == ParentsOf(templateFiles[..i], fs)
      {
        var t := templateFiles[i];
        var c1 := Candidate(fs, Rule1(t));
        var parent := c1;
        if parent.None? {
          parent := Candidate(fs, Rule2(t));
        }
        if parent.None? {
          parent := Candidate(fs, Rule3(t));
        }
        if parent.Some? && parent.value in fs.files {
          parents := Put(parents, t, parent.value);
        }
        assert templateFiles[..i + 1][..i] == templateFiles[..i];
        i := i + 1;
      }
      assert templateFiles[..i] == templateFiles;
      parentFiles := parents;
    }

    /** The normalised forms of the kept lines of a file. */
    method NormalizeKeptLines(lines: seq<string>) returns (norm: seq<string>)
      ensures norm == NormKept(lines)
    {
      norm := [];
      var i := 0;
      while i < |lines|
        invariant i <= |lines|
        invariant norm == NormKept(lines[..i])
      {
        var line := lines[i];
        NormKeptSnoc(lines[..i], line);
        TakeSnoc(lines, i);
        if Kept(line) {
          norm := norm + [Normalize(line)];
        }
        i := i + 1;
      }
      assert lines[..i] == lines;
    }

    /** The kept parent lines whose normalised form is not in the set, rstripped. */
    method CollectMissing(templateSet: set<string>, parentLines: seq<string>) returns (missing: seq<string>)
      ensures missing == MissingBySet(templateSet, parentLines)
    {
      missing := [];
      var j := 0;
      while j < |parentLines|
        invariant j <= |parentLines|
        invariant missing == MissingBySet(templateSet, parentLines[..j])
      {
        var line := parentLines[j];
        MissingBySetSnoc(templateSet, parentLines[..j], line);
        TakeSnoc(parentLines, j);
        if Kept(line) && Normalize(line) !in templateSet {
          missing := missing + [RStrip(line)];
        }
        j := j + 1;
      }
      assert parentLines[..j] == parentLines;
    }

    /**
     * The reporting loop of find_missing_lines as written: the i-th normalised
     * kept line is checked against the set and reported as the rstripped i-th
     * line of the whole parent file.
     */
    method CollectMissingAsWritten(templateSet: set<string>, norm: seq<string>, parentLines: seq<string>)
      returns (missing: seq<string>)
      ensures missing == AsWrittenScan(templateSet, norm, parentLines)
    {
      missing := [];
      var i := 0;
      while i < |norm|
        invariant i <= |norm|
        invariant missing == AsWrittenScan(templateSet, norm[..i], parentLines)
      {
        AsWrittenScanSnoc(templateSet, norm[..i], norm[i], parentLines);
        TakeSnoc(norm, i);
        if norm[i] !in templateSet && i < |parentLines| {
          missing := missing + [RStrip(parentLines[i])];
        }
        i := i + 1;
      }
      assert norm[..i] == norm;
    }

    /** find_missing_lines with each missing line reported from its own parent line. */
    method FindMissingLines(templateFile: string, parentFile: string, fs: FileSystem) returns (missing: seq<string>)
      ensures missing == Missing(templateFile, parentFile, fs)
    {
      if templateFile !in fs.files || parentFile !in fs.files {
        return [];
      }
      var normTemplate := NormalizeKeptLines(fs.files[templateFile]);
      var templateSet := set x | x in normTemplate;
      missing := CollectMissing(templateSet, fs.files[parentFile]);
    }

    /** analyze_all_files: the missing lines of every paired template that lacks any. */
    method AnalyzeAllFiles(fs: FileSystem) returns (diffs: seq<(string, seq<string>)>)
      modifies this
      ensures diffs == Diffs(parentFiles, fs) && differences == diffs
      ensures templateFiles == old(templateFiles) && parentFiles == old(parentFiles)
    {
      diffs := [];
      var i := 0;
      while i < |parentFiles|
        invariant i <= |parentFiles|
        invariant diffs == Diffs(parentFiles[..i], fs)
        invariant templateFiles == old(templateFiles) && parentFiles == old(parentFiles)
      {
        var (t, p) := parentFiles[i];
        var lines := FindMissingLines(t, p, fs);
        if lines != [] {
          diffs := Put(diffs, t, lines);
        }
        assert parentFiles[..i + 1][..i] == parentFiles[..i];
        i := i + 1;
      }
      assert parentFiles[..i] == parentFiles;
      differences := diffs;
    }

    /** The lines of one template's section, appended to the report so far. */
    method AppendSection(lines: seq<string>, t: string, parent: string, missing: seq<string>) returns (out: seq<string>)
      ensures out == lines + Section(t, parent, missing)
    {
      out := lines + ["### " + t, "*Compared to: " + parent + "*", ""];
      if missing == [] {
        out := out + ["No missing content found."];
      } else {
        out := out + ["Missing lines that should be added to the template:", "```"];
        var before := out;
        var j := 0;
        while j < |missing|
          invariant j <= |missing|
          invariant out == before + missing[..j]
        {
          out := out + [missing[j]];
          TakeSnoc(missing, j);
          j := j + 1;
        }
        assert missing[..j] == missing;
        out := out + ["```"];
      }
      out := out + [""];
    }

    /** The sections of the given differences, one after another. */
    method BuildSections(diffs: seq<(string, seq<string>)>) returns (lines: seq<string>)
      requires KeysIn(diffs, parentFiles)
      ensures lines == Sections(diffs, parentFiles)
    {
      lines := [];
      var k := 0;
      while k < |diffs|
        invariant k <= |diffs|
        invariant KeysIn(diffs[..k], parentFiles)
        invariant lines == Sections(diffs[..k], parentFiles)
      {
        var (t, missing) := diffs[k];
        assert diffs[..k + 1][..k] == diffs[..k];
        assert KeysIn(diffs[..k + 1], parentFiles);
        lines := AppendSection(lines, t, Lookup(parentFiles, t).value, missing);
        k := k + 1;
      }
      assert diffs[..k] == diffs;
    }

    /** generate_report; the caller supplies the timestamp. */
    method GenerateReport(timestamp: string) returns (report: string)
      requires KeysIn(differences, parentFiles)
      ensures report == Join(ReportLines(timestamp, baseDir, templateFiles, parentFiles, differences), "\n")
    {
      var lines := Header(timestamp, baseDir, |templateFiles|, |parentFiles|, |differences|);
      if differences == [] {
        lines := lines + ["## Summary", "", NoMissingSummary];
      } else {
        var sections := BuildSections(differences);
        lines := lines + (["## Missing Content", ""] + sections);
      }
      report := Join(lines, "\n");
    }

    /** run: find, pair, compare, report. */
    method Run(walk: seq<(string, seq<string>)>, fs: FileSystem, timestamp: string) returns (report: string)
      modifies this
      ensures templateFiles == Found(walk)
      ensures parentFiles == ParentsOf(templateFiles, fs)
      ensures differences == Diffs(parentFiles, fs)
      ensures KeysIn(differences, parentFiles)
      ensures report == Join(ReportLines(timestamp, baseDir, templateFiles, parentFiles, differences), "\n")
    {
      var _ := FindTemplateFiles(walk);
      var _ := FindParentFiles(fs);
      var _ := AnalyzeAllFiles(fs);
      DiffsWellFormed(parentFiles, fs);
      report := GenerateReport(timestamp);
    }
  }
}
