// File-name rules of scripts/template_checker/template_checker.py: the
// shell-style patterns of `fnmatch` (on POSIX, where it is case-sensitive),
// TEMPLATE_PATTERNS and EXCLUDE_PATTERNS, and the three parent-naming
// rules of find_parent_files.

module TemplateNames {
  import opened Strings

  /**
   * `fnmatch.fnmatch(s, pat)` for patterns built from `*` (any run of
   * characters, '/' included), `?` (any one character) and literal characters.
   */
  predicate Match(pat: string, s: string)
    decreases |pat|, |s|
  {
    if pat == [] then s == []
    else if pat[0] == '*' then Match(pat[1..], s) || (s != [] && Match(pat, s[1..]))
    else if pat[0] == '?' then s != [] && Match(pat[1..], s[1..])
    else s != [] && s[0] == pat[0] && Match(pat[1..], s[1..])
  }

  predicate Literal(p: string)
  {
    '*' !in p && '?' !in p
  }

  /** A pattern with no wildcard matches exactly itself. */
  lemma {:induction false} MatchLiteral(p: string, s: string)
    requires Literal(p)
    ensures Match(p, s) <==> s == p
    decreases |p|
  {
    if p != [] && s != [] {
      MatchLiteral(p[1..], s[1..]);
      if s[0] == p[0] && s[1..] == p[1..] {
        assert s == [s[0]] + s[1..] && p == [p[0]] + p[1..];
      }
    }
  }

  /** `*` followed by a literal matches exactly the names ending with that literal. */
  lemma {:induction false} MatchStarLiteral(lit: string, s: string)
    requires Literal(lit)
    ensures Match("*" + lit, s) <==> EndsWith(s, lit)
    decreases |s|
  {
    var p := "*" + lit;
    assert p[1..] == lit;
    MatchLiteral(lit, s);
    if s != [] {
      MatchStarLiteral(lit, s[1..]);
      if |lit| < |s| {
        assert s[|s| - |lit|..] == s[1..][|s[1..]| - |lit|..];
      }
    }
  }

  /** A literal character of the pattern occurs in every name it matches. */
  lemma {:induction false} MatchKeepsLiteral(pat: string, s: string, c: char)
    requires c != '*' && c != '?' && c in pat
    requires Match(pat, s)
    ensures c in s
    decreases |pat|, |s|
  {
    if pat[0] == '*' {
      if Match(pat[1..], s) {
        MatchKeepsLiteral(pat[1..], s, c);
      } else {
        MatchKeepsLiteral(pat, s[1..], c);
      }
    } else if pat[0] != c {
      MatchKeepsLiteral(pat[1..], s[1..], c);
    }
  }

  /** `**` matches what `*` matches. */
  lemma {:induction false} DoubleStar(q: string, s: string)
    ensures Match("**" + q, s) <==> Match("*" + q, s)
    decreases |s|
  {
    var p2, p1 := "**" + q, "*" + q;
    assert p2[1..] == p1 && p1[1..] == q;
    if s != [] {
      DoubleStar(q, s[1..]);
    }
  }

  const Template := ".template"
  const EnvTemplate := ".env" + Template
  const ConfigTemplate := "/config.template.js"

  const TemplatePatterns: seq<string> := [
    "*" + Template + ".*", "*" + Template, "*" + EnvTemplate,
    "*/*" + Template + ".*", "*/*" + Template, "*/*" + EnvTemplate]

  const ExcludePatterns: seq<string> := [
    "**" + ConfigTemplate,
    "**" + ("/mirotalk/app/src" + ConfigTemplate),
    "**" + ("/mirotalk_backup/app/src" + ConfigTemplate),
    "**/.git*/**"]

  /** is_excluded_file: some exclude pattern matches the relative path. */
  predicate IsExcluded(path: string)
  {
    exists i :: 0 <= i < |ExcludePatterns| && Match(ExcludePatterns[i], path)
  }

  lemma EndsWithTail(s: string, a: string, b: string)
    requires EndsWith(s, a + b)
    ensures EndsWith(s, b)
  {
    assert s[|s| - |b|..] == s[|s| - |a + b|..][|a|..];
  }

  /** Every exclude pattern holds a literal '/'. */
  lemma ExcludePatternsHaveSlash()
    ensures forall i :: 0 <= i < |ExcludePatterns| ==> '/' in ExcludePatterns[i]
  {
    assert ExcludePatterns[0][2] == '/';
    assert ExcludePatterns[1][2] == '/';
    assert ExcludePatterns[2][2] == '/';
    assert ExcludePatterns[3][2] == '/';
  }

  /**
   * A path at the top of the searched directory is never excluded: each
   * exclude pattern needs a '/', so a top-level config.template.js is kept.
   */
  lemma TopLevelNeverExcluded(path: string)
    requires '/' !in path
    ensures !IsExcluded(path)
  {
    ExcludePatternsHaveSlash();
    forall i | 0 <= i < |ExcludePatterns|
      ensures !Match(ExcludePatterns[i], path)
    {
      if Match(ExcludePatterns[i], path) {
        MatchKeepsLiteral(ExcludePatterns[i], path, '/');
      }
    }
  }

  /** How many times c occurs in s. */
  function CountOf(c: char, s: string): (r: nat)
    ensures c !in s ==> r == 0
    ensures c in s ==> r > 0
  {
    if s == [] then 0 else (if s[0] == c then 1 else 0) + CountOf(c, s[1..])
  }

  lemma {:induction false} CountOfAppend(c: char, a: string, b: string)
    ensures CountOf(c, a + b) == CountOf(c, a) + CountOf(c, b)
    decreases |a|
  {
    if a == [] {
      assert a + b == b;
    } else {
      assert (a + b)[0] == a[0] && (a + b)[1..] == a[1..] + b;
      CountOfAppend(c, a[1..], b);
    }
  }

  /** A name matched by a pattern holds each literal character at least as often as the pattern does. */
  lemma {:induction false} MatchCountsLiteral(pat: string, s: string, c: char)
    requires c != '*' && c != '?'
    requires Match(pat, s)
    ensures CountOf(c, s) >= CountOf(c, pat)
    decreases |pat|, |s|
  {
    if pat == [] {
    } else if pat[0] == '*' {
      if Match(pat[1..], s) {
        MatchCountsLiteral(pat[1..], s, c);
      } else {
        MatchCountsLiteral(pat, s[1..], c);
      }
    } else {
      MatchCountsLiteral(pat[1..], s[1..], c);
    }
  }

  /**
   * The `.git` exclusion needs a '/' before `.git`, so a template in a
   * top-level `.git` directory is kept, unless it is a config.template.js,
   * which the first pattern excludes wherever it lies.
   */
  lemma TopLevelGitKept(name: string)
    requires '/' !in name
    ensures IsExcluded(".git/" + name) <==> name == "config.template.js"
  {
    if name == "config.template.js" {
      GitConfigExcluded(name);
    } else if IsExcluded(".git/" + name) {
      GitExcludedIsConfig(name);
    }
  }

  lemma GitConfigExcluded(name: string)
    requires name == "config.template.js"
    ensures IsExcluded(".git/" + name)
  {
    var path := ".git/" + name;
    assert EndsWith(path, ConfigTemplate) by {
      assert path[|path| - |ConfigTemplate|..] == ConfigTemplate;
    }
    NestedConfigExcluded(path);
  }

  lemma GitExcludedIsConfig(name: string)
    requires '/' !in name && IsExcluded(".git/" + name)
    ensures name == "config.template.js"
  {
    var path := ".git/" + name;
    GitPatternMissesTopLevel(name);
    MirotalkExclusionsRedundant(path);
    assert Match(ExcludePatterns[0], path);
    ExcludeLiterals();
    StarStarLiteral(ConfigTemplate, path);
    GitConfigSuffix(name);
  }

  // The .git exclusion pattern holds two '/', and `.git/<name>` only one.
  lemma GitPatternMissesTopLevel(name: string)
    requires '/' !in name
    ensures !Match(ExcludePatterns[3], ".git/" + name)
  {
    GitPathSlashes(name);
    GitPatternSlashes();
    if Match(ExcludePatterns[3], ".git/" + name) {
      MatchCountsLiteral(ExcludePatterns[3], ".git/" + name, '/');
    }
  }

  lemma GitPathSlashes(name: string)
    requires '/' !in name
    ensures CountOf('/', ".git/" + name) == 1
  {
    CountOfAppend('/', ".git/", name);
    assert ".git/"[1..] == "git/" && "git/"[1..] == "it/" && "it/"[1..] == "t/" && "t/"[1..] == "/";
  }

  lemma GitPatternSlashes()
    ensures CountOf('/', ExcludePatterns[3]) == 2
  {
    assert ExcludePatterns[3] == "**/" + ".git*" + "/**";
    CountOfAppend('/', "**/", ".git*");
    CountOfAppend('/', "**/" + ".git*", "/**");
    assert "**/"[1..] == "*/" && "*/"[1..] == "/";
    assert ".git*"[1..] == "git*" && "git*"[1..] == "it*" && "it*"[1..] == "t*" && "t*"[1..] == "*";
    assert "/**"[1..] == "**" && "**"[1..] == "*";
  }

  /** `.git/<name>` ends with `/config.template.js` only for that very name. */
  lemma GitConfigSuffix(name: string)
    requires '/' !in name && EndsWith(".git/" + name, ConfigTemplate)
    ensures name == "config.template.js"
  {
    var path := ".git/" + name;
    var k := |path| - |ConfigTemplate|;
    assert path[k] == ConfigTemplate[0] == '/';
    assert k == 4;
    assert name == path[5..] == path[k..][1..];
  }

  /** `**` followed by a literal matches exactly the paths ending with that literal. */
  lemma StarStarLiteral(lit: string, path: string)
    requires Literal(lit)
    ensures Match("**" + lit, path) <==> EndsWith(path, lit)
  {
    DoubleStar(lit, path);
    MatchStarLiteral(lit, path);
  }

  lemma ExcludeLiterals()
    ensures ExcludePatterns[0] == "**" + ConfigTemplate && Literal(ConfigTemplate)
    ensures ExcludePatterns[1] == "**" + ("/mirotalk/app/src" + ConfigTemplate)
    ensures ExcludePatterns[2] == "**" + ("/mirotalk_backup/app/src" + ConfigTemplate)
    ensures Literal("/mirotalk/app/src" + ConfigTemplate) && Literal("/mirotalk_backup/app/src" + ConfigTemplate)
  {
  }

  /** A config.template.js below any directory is excluded. */
  lemma NestedConfigExcluded(path: string)
    requires EndsWith(path, ConfigTemplate)
    ensures IsExcluded(path)
  {
    ExcludeLiterals();
    StarStarLiteral(ConfigTemplate, path);
    assert Match(ExcludePatterns[0], path);
  }

  /** The two mirotalk exclusions are covered by the first one. */
  lemma MirotalkExclusionsRedundant(path: string)
    ensures Match(ExcludePatterns[1], path) ==> Match(ExcludePatterns[0], path)
    ensures Match(ExcludePatterns[2], path) ==> Match(ExcludePatterns[0], path)
  {
    ExcludeLiterals();
    var a1, a2 := "/mirotalk/app/src", "/mirotalk_backup/app/src";
    StarStarLiteral(ConfigTemplate, path);
    StarStarLiteral(a1 + ConfigTemplate, path);
    StarStarLiteral(a2 + ConfigTemplate, path);
    if EndsWith(path, a1 + ConfigTemplate) {
      EndsWithTail(path, a1, ConfigTemplate);
    }
    if EndsWith(path, a2 + ConfigTemplate) {
      EndsWithTail(path, a2, ConfigTemplate);
    }
  }

  /**
   * The last three template patterns need a '/', so they never match a
   * bare file name as os.walk yields it.
   */
  lemma SlashPatternsNeverMatchNames(name: string)
    requires '/' !in name
    ensures forall i :: 3 <= i < |TemplatePatterns| ==> !Match(TemplatePatterns[i], name)
  {
    forall i | 3 <= i < |TemplatePatterns|
      ensures !Match(TemplatePatterns[i], name)
    {
      assert TemplatePatterns[i][1] == '/';
      if Match(TemplatePatterns[i], name) {
        MatchKeepsLiteral(TemplatePatterns[i], name, '/');
      }
    }
  }

  /** Every name matching `*.env.template` also matches `*.template`. */
  lemma EnvTemplateMatchesTwice(name: string)
    requires Match(TemplatePatterns[2], name)
    ensures Match(TemplatePatterns[1], name)
  {
    MatchStarLiteral(EnvTemplate, name);
    MatchStarLiteral(Template, name);
    EndsWithTail(name, ".env", Template);
  }

  // ---------------------------------------------------------------------
  // Parent naming

  /** Rule 1 can split the name at j: `(.+)` is t[..j], then `.template`, then `(\..+)`. */
  predicate Rule1At(t: string, j: int)
  {
    1 <= j && j + |Template| + 2 <= |t| && t[j..j + |Template|] == Template && t[j + |Template|] == '.'
  }

  /** The split a greedy `(.+)` picks: the rightmost one that works. */
  function Rule1Split(t: string, upTo: int): (r: Option<nat>)
    ensures r.Some? ==> r.value <= upTo && Rule1At(t, r.value)
    ensures r.Some? ==> forall k :: r.value < k <= upTo ==> !Rule1At(t, k)
    ensures r.None? ==> forall k :: k <= upTo ==> !Rule1At(t, k)
    decreases upTo
  {
    if upTo < 1 then None
    else if Rule1At(t, upTo) then Some(upTo)
    else Rule1Split(t, upTo - 1)
  }

  /** `^(.+)\.template(\..+)$` → `X.EXT` */
  function Rule1(t: string): (r: Option<string>)
    ensures r.Some? ==> |r.value| + |Template| == |t|
  {
    var j := Rule1Split(t, |t|);
    if j.Some? then Some(t[..j.value] + t[j.value + |Template|..]) else None
  }

  /** `^(.+)\.template$` → `X` */
  function Rule2(t: string): (r: Option<string>)
    ensures r.Some? ==> r.value + Template == t && r.value != []
  {
    if |t| > |Template| && EndsWith(t, Template) then
      assert t == t[..|t| - |Template|] + t[|t| - |Template|..];
      Some(t[..|t| - |Template|])
    else None
  }

  /** `^(.+)\.env\.template$` → `X.env` */
  function Rule3(t: string): (r: Option<string>)
  {
    if |t| > |EnvTemplate| && EndsWith(t, EnvTemplate) then Some(t[..|t| - |EnvTemplate|] + ".env")
    else None
  }

  /** Rule 3 offers only the name rule 2 already tried, so it never finds a parent. */
  lemma Rule3Redundant(t: string)
    ensures Rule3(t).Some? ==> Rule2(t) == Rule3(t)
  {
    if Rule3(t).Some? {
      var n := |t| - |EnvTemplate|;
      EndsWithTail(t, ".env", Template);
      assert t[n..n + 4] == t[n..][..4] == EnvTemplate[..4] == ".env";
      assert t[..|t| - |Template|] == t[..n] + t[n..n + 4];
    }
  }

  /** A directory listing: the regular files and the directories, by relative path. */
  datatype FileSystem = FileSystem(files: map<string, seq<string>>, dirs: set<string>)

  predicate Exists(fs: FileSystem, p: string)
  {
    p in fs.files || p in fs.dirs
  }

  function Candidate(fs: FileSystem, o: Option<string>): Option<string>
  {
    if o.Some? && Exists(fs, o.value) then o else None
  }

  /** The first candidate name that exists, trying the rules in order. */
  function ParentCandidate(t: string, fs: FileSystem): (r: Option<string>)
    ensures r.Some? ==> Exists(fs, r.value)
    ensures r.Some? ==> r == Rule1(t) || r == Rule2(t) || r == Rule3(t)
    ensures r.None? ==> Candidate(fs, Rule1(t)).None? && Candidate(fs, Rule2(t)).None? && Candidate(fs, Rule3(t)).None?
  {
    var c1 := Candidate(fs, Rule1(t));
    if c1.Some? then c1
    else
      var c2 := Candidate(fs, Rule2(t));
      if c2.Some? then c2 else Candidate(fs, Rule3(t))
  }

  /** The parent of a template: the first existing candidate, if it is a regular file. */
  function ParentOf(t: string, fs: FileSystem): (r: Option<string>)
    ensures r.Some? ==> r.value in fs.files && r == ParentCandidate(t, fs)
  {
    var c := ParentCandidate(t, fs);
    if c.Some? && c.value in fs.files then c else None
  }

  /**
   * When rule 1's name exists as a directory, the later rules are not
   * tried and the template gets no parent.
   */
  lemma DirectoryBlocksLaterRules(t: string, fs: FileSystem)
    requires Rule1(t).Some? && Rule1(t).value in fs.dirs && Rule1(t).value !in fs.files
    ensures ParentOf(t, fs).None?
  {
  }

  /** Rule 3 never decides: the parent is the first existing file of rules 1 and 2. */
  lemma ParentOfTwoRules(t: string, fs: FileSystem)
    ensures ParentOf(t, fs) == (var c1 := Candidate(fs, Rule1(t));
                                var c := if c1.Some? then c1 else Candidate(fs, Rule2(t));
                                if c.Some? && c.value in fs.files then c else None)
  {
    Rule3Redundant(t);
  }

  /** `app.template.js` names `app.js`; `.env.template` alone names `.env`. */
  lemma ParentNameExamples()
    ensures Rule1("app.template.js") == Some("app.js")
    ensures Rule1(".env.template") == None && Rule2(".env.template") == Some(".env")
  {
    var t := "app.template.js";
    assert t[3..12] == Template;
    assert Rule1At(t, 3);
    assert !Rule1At(t, 4) by { assert t[4] != '.'; }
    assert t[..3] + t[12..] == "app.js";
    var e := ".env.template";
    assert !Rule1At(e, 1) by { assert e[1] != '.'; }
    assert !Rule1At(e, 2) by { assert e[2] != '.'; }
    assert e[4..] == Template;
    assert e[..4] == ".env";
  }
}
