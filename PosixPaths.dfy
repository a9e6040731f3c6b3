// `os.path.abspath` on POSIX, as scripts/template_checker/template_checker.py
// applies it to its base directory: `posixpath.join` with the current working
// directory, then the component loop of `posixpath.normpath`. The working
// directory is a parameter.

module PosixPaths {
  import opened Strings

  /** `posixpath.join(a, b)`: an absolute b replaces a; otherwise one '/' separates them. */
  function JoinPath(a: string, b: string): (r: string)
    ensures StartsWith(b, "/") ==> r == b
    ensures !StartsWith(b, "/") && StartsWith(a, "/") ==> StartsWith(r, "/")
  {
    if |b| > 0 && b[0] == '/' then b
    else if a == [] || a[|a| - 1] == '/' then a + b
    else a + "/" + b
  }

  /** A component that normalisation keeps: not empty, not "." or "..", and free of '/'. */
  predicate NormalName(c: string)
  {
    c != "" && c != "." && c != ".." && '/' !in c
  }

  predicate NormalNames(cs: seq<string>)
  {
    forall i :: 0 <= i < |cs| ==> NormalName(cs[i])
  }

  /**
   * The component loop of `posixpath.normpath` on an absolute path: empty
   * and "." components are dropped, ".." removes the last kept component
   * (at the root there is none, and ".." goes too), any other name is kept.
   */
  function Resolve(kept: seq<string>, comps: seq<string>): (r: seq<string>)
    requires NormalNames(kept)
    requires forall i :: 0 <= i < |comps| ==> '/' !in comps[i]
    ensures NormalNames(r)
    ensures |r| <= |kept| + |comps|
    decreases |comps|
  {
    if comps == [] then kept
    else if comps[0] == "" || comps[0] == "." then Resolve(kept, comps[1..])
    else if comps[0] == ".." then Resolve(if kept == [] then [] else kept[..|kept| - 1], comps[1..])
    else Resolve(kept + [comps[0]], comps[1..])
  }

  /** POSIX keeps exactly two leading slashes; one, or three and more, become one. */
  function Lead(p: string): string
  {
    if |p| >= 2 && p[1] == '/' && !(|p| >= 3 && p[2] == '/') then "//" else "/"
  }

  /** `posixpath.normpath` of an absolute path. */
  function NormAbs(p: string): (r: string)
    requires StartsWith(p, "/")
    ensures StartsWith(r, "/")
  {
    Lead(p) + Join(Resolve([], Split(p, '/')), "/")
  }

  /** `os.path.abspath(p)` with cwd as `os.getcwd()`, which is always absolute. */
  function AbsPath(cwd: string, p: string): (r: string)
    requires StartsWith(cwd, "/")
    ensures StartsWith(r, "/")
  {
    NormAbs(JoinPath(cwd, p))
  }

  /** Names that are already normal pass through the loop unchanged. */
  lemma {:induction false} ResolveNormal(kept: seq<string>, cs: seq<string>)
    requires NormalNames(kept) && NormalNames(cs)
    ensures Resolve(kept, cs) == kept + cs
    decreases |cs|
  {
    if cs != [] {
      ResolveNormal(kept + [cs[0]], cs[1..]);
      assert kept + [cs[0]] + cs[1..] == kept + cs;
    }
  }

  /** A name followed by ".." cancels out. */
  lemma NameThenParent(kept: seq<string>, n: string, rest: seq<string>)
    requires NormalNames(kept) && NormalName(n)
    requires forall i :: 0 <= i < |rest| ==> '/' !in rest[i]
    ensures Resolve(kept, [n, ".."] + rest) == Resolve(kept, rest)
  {
    var cs := [n, ".."] + rest;
    assert cs[0] == n && cs[1..] == [".."] + rest;
    assert ([".."] + rest)[1..] == rest;
    assert (kept + [n])[..|kept + [n]| - 1] == kept;
  }

  /** A leading '/' splits off one empty piece. */
  lemma SplitSlash(x: string)
    ensures Split("/" + x, '/') == [""] + Split(x, '/')
  {
    SplitAtFirst("", x, '/');
    assert "" + ['/'] + x == "/" + x;
  }

  /** Split of a normal path: the empty pieces before the lead's slashes, then its names. */
  lemma SplitNormal(lead: string, cs: seq<string>)
    requires lead == "/" || lead == "//"
    ensures Split(lead + Join(cs, "/"), '/') == (if lead == "/" then [""] else ["", ""]) + Split(Join(cs, "/"), '/')
  {
    var x := Join(cs, "/");
    SplitSlash(x);
    if lead == "//" {
      SplitSlash("/" + x);
      assert lead + x == "/" + ("/" + x);
    }
  }

  /** The pieces of a joined list of normal names are those names, or one empty piece for none. */
  lemma SplitNames(cs: seq<string>)
    requires NormalNames(cs)
    ensures Split(Join(cs, "/"), '/') == (if cs == [] then [""] else cs)
  {
    if cs != [] {
      SplitJoin(cs, '/');
    }
  }

  /** The lead of a normalised path is the lead it was built with. */
  lemma LeadNormal(lead: string, cs: seq<string>)
    requires lead == "/" || lead == "//"
    requires NormalNames(cs)
    ensures Lead(lead + Join(cs, "/")) == lead
  {
    var r := lead + Join(cs, "/");
    if cs != [] {
      assert Join(cs, "/")[0] == cs[0][0];
      assert r[|lead|] == cs[0][0];
      assert cs[0][0] in cs[0];
    }
  }

  /** Leading empty pieces are dropped, and the names of a normal path are kept. */
  lemma ResolvePieces(empties: seq<string>, cs: seq<string>)
    requires empties == [""] || empties == ["", ""]
    requires NormalNames(cs)
    ensures Resolve([], empties + (if cs == [] then [""] else cs)) == cs
  {
    var x := if cs == [] then [""] else cs;
    assert Resolve([], x) == cs by {
      if cs == [] {
        assert x[1..] == [];
      } else {
        ResolveNormal([], cs);
      }
    }
    if empties == [""] {
      assert (empties + x)[1..] == x;
    } else {
      assert (empties + x)[1..] == [""] + x;
      assert ([""] + x)[1..] == x;
    }
  }

  /** A path that is a lead and normal names is its own normal form. */
  lemma NormAbsNormal(lead: string, cs: seq<string>)
    requires lead == "/" || lead == "//"
    requires NormalNames(cs)
    ensures NormAbs(lead + Join(cs, "/")) == lead + Join(cs, "/")
  {
    SplitNormal(lead, cs);
    SplitNames(cs);
    LeadNormal(lead, cs);
    ResolvePieces(if lead == "/" then [""] else ["", ""], cs);
  }

  /** `normpath` is idempotent on absolute paths. */
  lemma NormAbsIdempotent(p: string)
    requires StartsWith(p, "/")
    ensures NormAbs(NormAbs(p)) == NormAbs(p)
  {
    NormAbsNormal(Lead(p), Resolve([], Split(p, '/')));
  }

  /** The stored base directory is already absolute and normal: applying `abspath` again, from any directory, changes nothing. */
  lemma AbsPathIdempotent(cwd: string, cwd2: string, p: string)
    requires StartsWith(cwd, "/") && StartsWith(cwd2, "/")
    ensures AbsPath(cwd2, AbsPath(cwd, p)) == AbsPath(cwd, p)
  {
    NormAbsIdempotent(JoinPath(cwd, p));
  }

  /** Joining two non-empty lists puts one separator between their joins. */
  lemma {:induction false} JoinAppend(a: seq<string>, b: seq<string>, sep: string)
    requires a != [] && b != []
    ensures Join(a + b, sep) == Join(a, sep) + sep + Join(b, sep)
    decreases |a|
  {
    if |a| == 1 {
      assert (a + b)[1..] == b;
    } else {
      JoinAppend(a[1..], b, sep);
      assert (a + b)[1..] == a[1..] + b;
    }
  }

  /** The loop over a + b is the loop over b from where the loop over a stopped. */
  lemma {:induction false} ResolveAppend(kept: seq<string>, a: seq<string>, b: seq<string>)
    requires NormalNames(kept)
    requires forall i :: 0 <= i < |a| ==> '/' !in a[i]
    requires forall i :: 0 <= i < |b| ==> '/' !in b[i]
    ensures Resolve(kept, a + b) == Resolve(Resolve(kept, a), b)
    decreases |a|
  {
    if a != [] {
      assert (a + b)[0] == a[0] && (a + b)[1..] == a[1..] + b;
      var next := if a[0] == "" || a[0] == "." then kept
        else if a[0] == ".." then (if kept == [] then [] else kept[..|kept| - 1])
        else kept + [a[0]];
      ResolveAppend(next, a[1..], b);
    } else {
      assert a + b == b;
    }
  }

  /** A directory of names does not end in '/'. */
  lemma NoTrailingSlash(cs: seq<string>)
    requires cs != [] && NormalNames(cs)
    ensures var cwd := "/" + Join(cs, "/"); cwd[|cwd| - 1] != '/'
  {
    var last := cs[|cs| - 1];
    assert cs == cs[..|cs| - 1] + [last];
    if |cs| > 1 {
      JoinAppend(cs[..|cs| - 1], [last], "/");
    }
    assert last[|last| - 1] in last;
  }

  /** The pieces of "/" and a join of '/'-free pieces: an empty piece, then those pieces. */
  lemma SplitRooted(all: seq<string>)
    requires all != []
    requires forall i :: 0 <= i < |all| ==> '/' !in all[i]
    ensures Split("/" + Join(all, "/"), '/') == [""] + all
  {
    SplitSlash(Join(all, "/"));
    SplitJoin(all, '/');
  }

  /** The loop over a rooted path of names followed by "n/..". */
  lemma ResolveParent(cs: seq<string>, n: string)
    requires NormalNames(cs) && NormalName(n)
    ensures Resolve([], [""] + (cs + [n, ".."])) == cs
  {
    var all := cs + [n, ".."];
    ResolveAppend([], [""], all);
    assert [""][1..] == [];
    assert Resolve([], [""]) == Resolve([], []) == [];
    ResolveAppend([], cs, [n, ".."]);
    ResolveNormal([], cs);
    assert [] + cs == cs;
    NameThenParent(cs, n, []);
    assert [n, ".."] + [] == [n, ".."];
    assert Resolve(cs, []) == cs;
    assert Resolve([], [""] + all) == Resolve([], all) == Resolve(cs, [n, ".."]) == cs;
  }

  /** Joining a working directory of names and a relative path of names. */
  lemma JoinPathNames(cs: seq<string>, ds: seq<string>)
    requires cs != [] && ds != []
    requires NormalNames(cs) && NormalNames(ds)
    ensures JoinPath("/" + Join(cs, "/"), Join(ds, "/")) == "/" + Join(cs + ds, "/")
  {
    NoTrailingSlash(cs);
    assert Join(ds, "/")[0] == ds[0][0];
    assert ds[0][0] in ds[0];
    JoinAppend(cs, ds, "/");
  }

  /** From a working directory of names, a relative base directory of names lies under it. */
  lemma AbsPathOfNames(cs: seq<string>, ds: seq<string>)
    requires cs != [] && ds != []
    requires NormalNames(cs) && NormalNames(ds)
    ensures AbsPath("/" + Join(cs, "/"), Join(ds, "/")) == "/" + Join(cs + ds, "/")
  {
    JoinPathNames(cs, ds);
    assert NormalNames(cs + ds) by {
      forall i | 0 <= i < |cs + ds|
        ensures NormalName((cs + ds)[i])
      {
        if i < |cs| {
          assert (cs + ds)[i] == cs[i];
        } else {
          assert (cs + ds)[i] == ds[i - |cs|];
        }
      }
    }
    NormAbsNormal("/", cs + ds);
  }

  /** Joining a working directory of names and "n/..". */
  lemma JoinPathParent(cs: seq<string>, n: string)
    requires cs != []
    requires NormalNames(cs) && NormalName(n)
    ensures JoinPath("/" + Join(cs, "/"), n + "/..") == "/" + Join(cs + [n, ".."], "/")
  {
    NoTrailingSlash(cs);
    assert n[0] in n;
    assert Join([n, ".."], "/") == n + "/..";
    JoinAppend(cs, [n, ".."], "/");
  }

  /** A rooted path whose first piece is a name has a single leading slash. */
  lemma RootedLead(all: seq<string>)
    requires all != [] && NormalName(all[0])
    ensures Lead("/" + Join(all, "/")) == "/"
  {
    assert Join(all, "/")[0] == all[0][0];
    assert all[0][0] in all[0];
  }

  /** A base directory "name/.." is the working directory itself. */
  lemma AbsPathParent(cs: seq<string>, n: string)
    requires cs != []
    requires NormalNames(cs) && NormalName(n)
    ensures AbsPath("/" + Join(cs, "/"), n + "/..") == "/" + Join(cs, "/")
  {
    var all := cs + [n, ".."];
    JoinPathParent(cs, n);
    SplitRooted(all);
    ResolveParent(cs, n);
    RootedLead(all);
  }
}
