/**
 * The POSIX path functions of Python's `os.path` (posixpath) that the
 * modelled code uses, on '/'-separated strings: `isabs`, `join`,
 * `basename`, `dirname`, `normpath`, `abspath`, `relpath`, `expandvars`
 * and `expanduser`. What they read from the process (the working directory,
 * `os.environ`, the password database) is a `Host` value.
 */
module Paths {
  import opened Wrappers
  import opened Text

  predicate IsAbs(p: string)
  {
    StartsWith(p, "/")
  }

  /** `os.path.join(a, b)`. */
  function Join(a: string, b: string): string
  {
    if IsAbs(b) then b
    else if a == "" || EndsWith(a, "/") then a + b
    else a + "/" + b
  }

  /** The index of the last '/', or -1. */
  function LastSlash(p: string): (r: int)
    ensures -1 <= r < |p|
    ensures r >= 0 ==> p[r] == '/'
    ensures forall j :: r < j < |p| ==> p[j] != '/'
  {
    if p == [] then -1
    else if p[|p| - 1] == '/' then |p| - 1
    else LastSlash(p[..|p| - 1])
  }

  /** `os.path.basename(p)`: the text after the last '/'. */
  function Basename(p: string): (r: string)
    ensures forall i :: 0 <= i < |r| ==> r[i] != '/'
  {
    p[LastSlash(p) + 1..]
  }

  lemma LastSlashAppend(p: string, t: string)
    requires '/' !in t
    ensures LastSlash(p + t) == LastSlash(p)
    decreases |t|
  {
    if t != [] {
      var u := t[..|t| - 1];
      assert (p + t)[..|p + t| - 1] == p + u;
      assert t[|t| - 1] in t;
      LastSlashAppend(p, u);
    } else {
      assert p + t == p;
    }
  }

  /** Appending text without a '/' to a path keeps its directory. */
  lemma DirnameAppend(p: string, t: string)
    requires '/' !in t
    ensures Dirname(p + t) == Dirname(p)
  {
    LastSlashAppend(p, t);
    var k := LastSlash(p) + 1;
    var q := p + t;
    assert q[..k] == p[..k] by {
      assert forall j :: 0 <= j < k ==> q[j] == p[j];
    }
  }

  predicate AllSlashes(s: string)
  {
    forall i :: 0 <= i < |s| ==> s[i] == '/'
  }

  function TrimSlashes(s: string): (r: string)
    ensures StartsWith(s, r)
    ensures r == [] || r[|r| - 1] != '/'
    ensures s != [] && s[|s| - 1] == '/' ==> |r| < |s|
  {
    if s != [] && s[|s| - 1] == '/' then TrimSlashes(s[..|s| - 1]) else s
  }

  /** `os.path.dirname(p)`: the text up to the last '/', without trailing slashes unless it is all slashes. */
  function Dirname(p: string): (r: string)
    ensures StartsWith(p, r)
    ensures r == p || |r| < |p|
  {
    var head := p[..LastSlash(p) + 1];
    if head != "" && !AllSlashes(head) then TrimSlashes(head) else head
  }

  /** The non-empty components of a path: `[x for x in p.split('/') if x]`. */
  function NonEmpty(ps: seq<string>): (r: seq<string>)
    ensures forall x :: x in r ==> x != "" && x in ps
  {
    if ps == [] then []
    else if ps[0] == "" then NonEmpty(ps[1..])
    else [ps[0]] + NonEmpty(ps[1..])
  }

  function Segments(p: string): seq<string>
  {
    NonEmpty(SplitOn(p, "/"))
  }

  lemma SegmentsClean(p: string)
    ensures forall x :: x in Segments(p) ==> x != "" && '/' !in x
  {
    SplitPiecesAvoid(p, "/");
  }

  /** POSIX keeps exactly two leading slashes and collapses three or more to one. */
  function InitialSlashes(p: string): string
  {
    if StartsWith(p, "//") && !StartsWith(p, "///") then "//"
    else if StartsWith(p, "/") then "/"
    else ""
  }

  /** The component loop of `normpath`: drop '' and '.', let '..' cancel the previous component. */
  function NormComps(cs: seq<string>, absolute: bool, acc: seq<string>): seq<string>
    decreases |cs|
  {
    if cs == [] then acc
    else
      var c := cs[0];
      if c == "" || c == "." then NormComps(cs[1..], absolute, acc)
      else if c != ".." || (!absolute && acc == []) || (acc != [] && acc[|acc| - 1] == "..") then
        NormComps(cs[1..], absolute, acc + [c])
      else if acc != [] then NormComps(cs[1..], absolute, acc[..|acc| - 1])
      else NormComps(cs[1..], absolute, acc)
  }

  /** `os.path.normpath(p)`. */
  function NormPath(p: string): string
  {
    if p == "" then "."
    else
      var body := InitialSlashes(p) + JoinWith("/", NormComps(SplitOn(p, "/"), IsAbs(p), []));
      if body == "" then "." else body
  }

  /** `os.path.abspath(p)` with the current working directory given. */
  function Abspath(p: string, cwd: string): string
  {
    if IsAbs(p) then NormPath(p) else NormPath(Join(cwd, p))
  }

  /** With an absolute working directory, `abspath` is absolute. */
  lemma AbspathAbsolute(p: string, cwd: string)
    requires IsAbs(cwd)
    ensures IsAbs(Abspath(p, cwd))
  {
    var q := if IsAbs(p) then p else Join(cwd, p);
    assert IsAbs(q) by {
      if !IsAbs(p) {
        if cwd == "" || EndsWith(cwd, "/") {
          assert (cwd + p)[..1] == cwd[..1];
        } else {
          assert (cwd + "/" + p)[..1] == cwd[..1];
        }
      }
    }
    var i := InitialSlashes(q);
    assert StartsWith(i, "/") by { assert i[..1] == "/"; }
    var body := i + JoinWith("/", NormComps(SplitOn(q, "/"), true, []));
    assert body[..1] == i[..1];
  }

  // ---------------------------------------------------------------------
  // Environment expansion

  /** What the path functions read from the process. */
  datatype Host = Host(
    cwd: string,                    // os.getcwd()
    environ: map<string, string>,   // os.environ
    home: string,                   // pwd.getpwuid(os.getuid()).pw_dir
    passwd: map<string, string>)    // pwd.getpwnam(name).pw_dir, for the names it knows

  /** `\w` of a `re.ASCII` pattern. */
  predicate IsWordChar(c: char)
  {
    ('a' <= c <= 'z') || ('A' <= c <= 'Z') || ('0' <= c <= '9') || c == '_'
  }

  /** The end of the run of word characters starting at `k`. */
  function WordEnd(s: string, k: nat): (e: nat)
    requires k <= |s|
    ensures k <= e <= |s|
    ensures forall j :: k <= j < e ==> IsWordChar(s[j])
    ensures e < |s| ==> !IsWordChar(s[e])
    decreases |s| - k
  {
    if k < |s| && IsWordChar(s[k]) then WordEnd(s, k + 1) else k
  }

  /** The first '}' at or after `k`, or `|s|`. */
  function CloseBrace(s: string, k: nat): (e: nat)
    requires k <= |s|
    ensures k <= e <= |s|
    ensures forall j :: k <= j < e ==> s[j] != '}'
    ensures e < |s| ==> s[e] == '}'
    decreases |s| - k
  {
    if k < |s| && s[k] != '}' then CloseBrace(s, k + 1) else k
  }

  /**
   * The match of `\$(\w+|\{[^}]*\})` at the '$' at `k`: the variable's
   * name and the end of the match.
   */
  function VarRef(s: string, k: nat): (r: Option<(string, nat)>)
    requires k < |s| && s[k] == '$'
    ensures r.Some? ==> k + 2 <= r.value.1 <= |s|
  {
    if k + 1 < |s| && IsWordChar(s[k + 1]) then
      var e := WordEnd(s, k + 1);
      Some((s[k + 1..e], e))
    else if k + 1 < |s| && s[k + 1] == '{' then
      var c := CloseBrace(s, k + 2);
      if c < |s| then Some((s[k + 2..c], c + 1)) else None
    else None
  }

  /**
   * The search loop of `expandvars` from index `k`: a reference to a set
   * variable becomes its value (which is not searched again), any other
   * reference stays as written, and the search resumes after it.
   */
  function ExpandVarsFrom(s: string, k: nat, environ: map<string, string>): string
    requires k <= |s|
    decreases |s| - k
  {
    if k == |s| then []
    else if s[k] == '$' && VarRef(s, k).Some? then
      var name := VarRef(s, k).value.0;
      var e := VarRef(s, k).value.1;
      (if name in environ then environ[name] else s[k..e]) + ExpandVarsFrom(s, e, environ)
    else [s[k]] + ExpandVarsFrom(s, k + 1, environ)
  }

  /** `os.path.expandvars(p)`. */
  function ExpandVars(p: string, environ: map<string, string>): string
  {
    if '$' !in p then p else ExpandVarsFrom(p, 0, environ)
  }

  /** The search finds nothing to replace in a tail without '$'. */
  lemma {:induction false} ExpandVarsFromPlain(s: string, k: nat, environ: map<string, string>)
    requires k <= |s| && '$' !in s[k..]
    ensures ExpandVarsFrom(s, k, environ) == s[k..]
    decreases |s| - k
  {
    if k < |s| {
      assert s[k] == s[k..][0];
      assert s[k + 1..] == s[k..][1..];
      ExpandVarsFromPlain(s, k + 1, environ);
    }
  }

  /** A reference to an unset variable is kept as written. */
  lemma {:induction false} ExpandVarsFromUnset(s: string, k: nat)
    requires k <= |s|
    ensures ExpandVarsFrom(s, k, map[]) == s[k..]
    decreases |s| - k
  {
    if k < |s| {
      if s[k] == '$' && VarRef(s, k).Some? {
        var e := VarRef(s, k).value.1;
        ExpandVarsFromUnset(s, e);
        assert s[k..e] + s[e..] == s[k..];
      } else {
        ExpandVarsFromUnset(s, k + 1);
        assert [s[k]] + s[k + 1..] == s[k..];
      }
    }
  }

  /** With no variable set, `expandvars` leaves every path alone. */
  lemma ExpandVarsUnset(p: string)
    ensures ExpandVars(p, map[]) == p
  {
    if '$' in p {
      ExpandVarsFromUnset(p, 0);
    }
  }

  /**
   * `$name`, a whole run of word characters, becomes the value of a set
   * variable, and what that value contains is not expanded again.
   */
  lemma ExpandVarsName(name: string, t: string, environ: map<string, string>)
    requires name in environ && '$' !in t
    requires name != [] && forall i :: 0 <= i < |name| ==> IsWordChar(name[i])
    requires t == [] || !IsWordChar(t[0])
    ensures ExpandVars("$" + name + t, environ) == environ[name] + t
  {
    var s := "$" + name + t;
    assert s[0] == '$';
    assert s[1] == name[0];
    var e := WordEnd(s, 1);
    assert e == |name| + 1 by {
      forall j | 1 <= j < |name| + 1 ensures IsWordChar(s[j]) {
        assert s[j] == name[j - 1];
      }
      if |name| + 1 < |s| {
        assert s[|name| + 1] == t[0];
      }
    }
    assert s[1..e] == name;
    assert s[e..] == t;
    ExpandVarsFromPlain(s, e, environ);
  }

  /** `${name}` becomes the value of a set variable, which is not expanded again. */
  lemma ExpandVarsBraced(name: string, t: string, environ: map<string, string>)
    requires name in environ && '$' !in t && '}' !in name
    ensures ExpandVars("${" + name + "}" + t, environ) == environ[name] + t
  {
    var b := "${" + name + "}" + t;
    assert b[0] == '$' && b[1] == '{';
    var c := CloseBrace(b, 2);
    assert c == |name| + 2 by {
      assert b[|name| + 2] == '}';
      forall j | 2 <= j < |name| + 2 ensures b[j] != '}' {
        assert b[j] == name[j - 2];
      }
    }
    assert b[2..c] == name;
    assert b[c + 1..] == t;
    ExpandVarsFromPlain(b, c + 1, environ);
  }

  /** `os.path.expanduser(p)`: `~` or `~name` up to the first '/' becomes a home directory. */
  function ExpandUser(p: string, host: Host): string
  {
    if !StartsWith(p, "~") then p
    else
      var slash := Find(p, "/", 1);
      var i := if slash < 0 then |p| else slash;
      var userhome :=
        if i == 1 then Some(if "HOME" in host.environ then host.environ["HOME"] else host.home)
        else if p[1..i] in host.passwd then Some(host.passwd[p[1..i]])
        else None;
      match userhome
      case None => p
      case Some(h) => if TrimSlashes(h) + p[i..] == "" then "/" else TrimSlashes(h) + p[i..]
  }

  /** `~/rest` uses `$HOME`, or the password entry of the current user when it is unset; a path without `~` is kept. */
  lemma ExpandUserHome(rest: string, host: Host)
    ensures !StartsWith(rest, "~") ==> ExpandUser(rest, host) == rest
    ensures ExpandUser("~/" + rest, host)
            == TrimSlashes(if "HOME" in host.environ then host.environ["HOME"] else host.home) + "/" + rest
  {
    var p := "~/" + rest;
    assert StartsWith(p, "~") by { assert p[..1] == "~"; }
    assert Find(p, "/", 1) == 1 by { assert p[1..2] == "/"; }
    assert p[1..] == "/" + rest;
  }

  /** `~name/rest` uses the password entry of `name`, and an unknown user is kept as written. */
  lemma ExpandUserNamed(name: string, rest: string, host: Host)
    requires name != "" && '/' !in name
    ensures name !in host.passwd ==> ExpandUser("~" + name + "/" + rest, host) == "~" + name + "/" + rest
    ensures name in host.passwd ==> ExpandUser("~" + name + "/" + rest, host) == TrimSlashes(host.passwd[name]) + "/" + rest
  {
    var q := "~" + name + "/" + rest;
    var i := |name| + 1;
    assert StartsWith(q, "~") by { assert q[..1] == "~"; }
    assert Find(q, "/", 1) == i by {
      assert q[i..i + 1] == "/";
      assert Occurs(q, "/", i);
      forall j | 1 <= j < i ensures !Occurs(q, "/", j) {
        assert q[j] == name[j - 1] && name[j - 1] in name;
        assert q[j..j + 1] == [q[j]];
      }
    }
    assert q[1..i] == name;
    assert q[i..] == "/" + rest;
  }

  function CommonPrefixLen(a: seq<string>, b: seq<string>): (n: nat)
    ensures n <= |a| && n <= |b|
    ensures a[..n] == b[..n]
    ensures n < |a| && n < |b| ==> a[n] != b[n]
  {
    if a == [] || b == [] || a[0] != b[0] then 0
    else
      var n := 1 + CommonPrefixLen(a[1..], b[1..]);
      assert a == [a[0]] + a[1..] && b == [b[0]] + b[1..];
      n
  }

  /** `|a| <= |b| and b[:len(a)] == a` on component lists. */
  predicate IsPrefixOf(a: seq<string>, b: seq<string>)
  {
    |a| <= |b| && b[..|a|] == a
  }

  /**
   * `os.path.relpath(path, start)`: as many '..' as components of `start`
   * beyond the common prefix, then the rest of `path`, joined with '/'
   * (joining non-empty components without slashes is `'/'.join`).
   * An empty `path` raises ValueError, modelled as None.
   */
  function RelPath(path: string, start: string, cwd: string): (r: Option<string>)
    ensures r.Some? <==> path != ""
  {
    if path == "" then None
    else
      var startList := Segments(Abspath(start, cwd));
      var pathList := Segments(Abspath(path, cwd));
      var i := CommonPrefixLen(startList, pathList);
      var relList := seq(|startList| - i, _ => "..") + pathList[i..];
      Some(if relList == [] then "." else JoinWith("/", relList))
  }

  /** `path` lies at or below `start` once both are made absolute and normalised. */
  predicate Under(path: string, start: string, cwd: string)
  {
    IsPrefixOf(Segments(Abspath(start, cwd)), Segments(Abspath(path, cwd)))
  }

  /** A relative path that leaves its start directory. */
  predicate Climbs(r: string)
  {
    r == ".." || StartsWith(r, "../")
  }

  /** `relpath` never returns an absolute path. */
  lemma RelPathNeverAbsolute(path: string, start: string, cwd: string)
    requires path != ""
    ensures !IsAbs(RelPath(path, start, cwd).value)
  {
    var startList := Segments(Abspath(start, cwd));
    var pathList := Segments(Abspath(path, cwd));
    var i := CommonPrefixLen(startList, pathList);
    var relList := seq(|startList| - i, _ => "..") + pathList[i..];
    if relList != [] {
      SegmentsClean(Abspath(path, cwd));
      var x := relList[0];
      if |startList| - i == 0 {
        assert x == pathList[i] && x in pathList;
      }
      assert x != "" && x[0] != '/';
      JoinStartsWith("/", relList);
    }
  }

  lemma JoinHeadDotDot(more: seq<string>)
    ensures Climbs(JoinWith("/", [".."] + more))
  {
    if more != [] {
      JoinCons("/", "..", more);
    }
  }

  /** A path outside `start` gets a relative path that climbs out of it. */
  lemma RelPathOutside(path: string, start: string, cwd: string)
    requires path != "" && !Under(path, start, cwd)
    ensures Climbs(RelPath(path, start, cwd).value)
  {
    var startList := Segments(Abspath(start, cwd));
    var pathList := Segments(Abspath(path, cwd));
    var i := CommonPrefixLen(startList, pathList);
    assert i < |startList|;
    var ups := seq(|startList| - i, _ => "..");
    assert ups[0] == "..";
    assert ups == [".."] + ups[1..];
    var relList := ups + pathList[i..];
    assert relList == [".."] + (ups[1..] + pathList[i..]);
    JoinHeadDotDot(ups[1..] + pathList[i..]);
  }

  /** A path inside `start` is the rest of its components after those of `start`. */
  lemma RelPathUnder(path: string, start: string, cwd: string)
    requires path != "" && Under(path, start, cwd)
    ensures var startList := Segments(Abspath(start, cwd));
            var rest := Segments(Abspath(path, cwd))[|startList|..];
            RelPath(path, start, cwd).value == if rest == [] then "." else JoinWith("/", rest)
  {
    var startList := Segments(Abspath(start, cwd));
    var pathList := Segments(Abspath(path, cwd));
    var i := CommonPrefixLen(startList, pathList);
    assert i == |startList|;
    var relList := seq(|startList| - i, _ => "..") + pathList[i..];
    assert relList == pathList[|startList|..];
  }

  lemma SplitLeadingSlash(x: string)
    ensures SplitOn("/" + x, "/") == [""] + SplitOn(x, "/")
  {
    var s := "/" + x;
    assert Occurs(s, "/", 0) by { assert s[0..1] == "/"; }
    assert Find(s, "/", 0) == 0;
    assert s[1..] == x;
  }

  lemma SplitLeadingDot(x: string)
    ensures SplitOn("./" + x, "/") == ["."] + SplitOn(x, "/")
  {
    var s := "./" + x;
    assert !Occurs(s, "/", 0) by { assert s[0..1] == "."; }
    assert Occurs(s, "/", 1) by { assert s[1..2] == "/"; }
    assert Find(s, "/", 0) == 1;
    assert s[..1] == "." && s[2..] == x;
  }

  /** `normpath` of a relative path placed under the root directory. */
  lemma NormUnderRoot(y: string)
    requires !IsAbs(y)
    ensures NormPath("/" + y) == "/" + JoinWith("/", NormComps(SplitOn(y, "/"), true, []))
  {
    var p := "/" + y;
    assert IsAbs(p) by { assert p[..1] == "/"; }
    assert InitialSlashes(p) == "/" by {
      assert StartsWith(p, "/") by { assert p[..1] == "/"; }
      if |p| >= 2 {
        assert p[1] == y[0];
        assert y[..1] != "/";
        assert p[..2] != "//";
      }
    }
    SplitLeadingSlash(y);
    assert SplitOn(p, "/")[1..] == SplitOn(y, "/");
  }

  /** Under a leading '/', the archive names `./a/b` and `a/b` normalise to the same path. */
  lemma DotSlashIrrelevant(x: string)
    requires !IsAbs(x)
    ensures NormPath(Join("/", "./" + x)) == NormPath(Join("/", x))
  {
    var d := "./" + x;
    assert !IsAbs(d) by { assert d[..1] == "."; }
    assert EndsWith("/", "/");
    assert Join("/", d) == "/" + d;
    assert Join("/", x) == "/" + x;
    NormUnderRoot(d);
    NormUnderRoot(x);
    SplitLeadingDot(x);
    var rest := SplitOn(x, "/");
    assert (["."] + rest)[1..] == rest;
    assert NormComps(["."] + rest, true, []) == NormComps(rest, true, []);
  }
}
