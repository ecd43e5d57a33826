/**
 * setup.py: the packaging script's two helpers that read files: the
 * requirements of a pip requirements file, without comments or
 * whitespace, deduplicated and sorted; and the version string assigned
 * to `__version__` in the package's `__init__.py`.
 *
 * A file is given as its lines, as iteration over an open file yields
 * them (each with its newline, except perhaps the last).
 */
module SetupScript {
  import opened Wrappers
  import opened Text
  import opened Errors
  import opened Sorting

  // ---------------------------------------------------------------------
  // get_requirements

  /** The length of the text before the first newline: what `.*` matches. */
  function LineLen(s: string): (n: nat)
    ensures n <= |s| && (n < |s| ==> s[n] == '\n')
    ensures forall i :: 0 <= i < n ==> s[i] != '\n'
  {
    if s == [] || s[0] == '\n' then 0 else 1 + LineLen(s[1..])
  }

  /**
   * `re.sub(r'^#.*|\s#.*', '', s)`: scanning left to right, a `#` at the
   * very start (`atStart`) or a whitespace character followed by `#`
   * starts a match that runs to the next newline, which is kept.
   */
  function StripComments(s: string, atStart: bool): string
    decreases |s|
  {
    if s == [] then []
    else if atStart && s[0] == '#' then StripComments(s[LineLen(s)..], false)
    else if |s| >= 2 && IsSpace(s[0]) && s[1] == '#' then StripComments(s[1 + LineLen(s[1..])..], false)
    else [s[0]] + StripComments(s[1..], false)
  }

  /** A character that starts no comment is copied. */
  lemma StripCommentsPlain(s: string, atStart: bool)
    requires s != [] && s[0] != '#' && (|s| >= 2 ==> s[1] != '#')
    ensures StripComments(s, atStart) == [s[0]] + StripComments(s[1..], false)
  {
  }

  lemma NoCommentStart(r: string, u: string)
    requires r != [] && '#' !in r && (u == [] || u[0] != '#')
    ensures (r + u)[0] != '#' && (|r + u| >= 2 ==> (r + u)[1] != '#')
  {
    assert r[0] in r;
    if |r| >= 2 {
      assert r[1] in r;
    }
  }

  /** A text without `#` passes unchanged up to where a comment can start. */
  lemma {:induction false} StripCommentsKeeps(r: string, u: string, atStart: bool)
    requires '#' !in r && (u == [] || u[0] != '#')
    ensures StripComments(r + u, atStart) == r + StripComments(u, atStart && r == [])
    decreases |r|
  {
    if r == [] {
      assert r + u == u;
    } else {
      assert '#' !in r[1..];
      StripCommentsKeeps(r[1..], u, false);
      StripCommentsKeepsStep(r, u, atStart);
    }
  }

  lemma StripCommentsKeepsStep(r: string, u: string, atStart: bool)
    requires r != [] && '#' !in r && (u == [] || u[0] != '#')
    requires StripComments(r[1..] + u, false) == r[1..] + StripComments(u, false)
    ensures StripComments(r + u, atStart) == r + StripComments(u, false)
  {
    var s := r + u;
    NoCommentStart(r, u);
    StripCommentsPlain(s, atStart);
    assert s[0] == r[0] && s[1..] == r[1..] + u;
    ConsConcat(r, StripComments(u, false));
  }

  lemma ConsConcat(r: string, x: string)
    requires r != []
    ensures [r[0]] + (r[1..] + x) == r + x
  {
    assert r == [r[0]] + r[1..];
  }

  /** What a trailing newline (or its absence) stays. */
  predicate LineEnd(nl: string)
  {
    nl == "" || nl == "\n"
  }

  lemma StripCommentsLineEnd(nl: string, atStart: bool)
    requires LineEnd(nl)
    ensures StripComments(nl, atStart) == nl
  {
    if nl == "\n" {
      assert nl[1..] == [];
    }
  }

  /** A comment that runs to the end of the line is removed together with the blank before it. */
  lemma StripCommentsComment(w: char, c: string, nl: string, atStart: bool)
    requires IsSpace(w) && '\n' !in c && LineEnd(nl)
    ensures StripComments([w] + "#" + c + nl, atStart) == nl
    ensures StripComments("#" + c + nl, true) == nl
  {
    var t := "#" + c + nl;
    var s := [w] + t;
    assert s == [w] + "#" + c + nl;
    CommentLen(c, nl);
    assert s[0] == w && s[1] == '#' && w != '#';
    assert s[1..] == t;
    assert s[1 + LineLen(t)..] == nl;
    assert t[LineLen(t)..] == nl;
    StripCommentsLineEnd(nl, false);
  }

  lemma CommentLen(c: string, nl: string)
    requires '\n' !in c && LineEnd(nl)
    ensures LineLen("#" + c + nl) == 1 + |c|
  {
    LineLenOf("#" + c, nl);
  }

  /** The line runs up to the newline that follows a newline-free text. */
  lemma {:induction false} LineLenOf(c: string, rest: string)
    requires '\n' !in c && (rest == [] || rest[0] == '\n')
    ensures LineLen(c + rest) == |c|
    decreases |c|
  {
    if c == [] {
      assert c + rest == rest;
    } else {
      assert (c + rest)[0] == c[0];
      assert (c + rest)[1..] == c[1..] + rest;
      LineLenOf(c[1..], rest);
    }
  }

  /** `re.sub(r'\s+', '', s)`: every whitespace character removed. */
  function RemoveSpaces(s: string): (r: string)
    ensures NoSpace(r) && |r| <= |s|
    ensures forall c :: c in r <==> c in s && !IsSpace(c)
  {
    if s == [] then []
    else (if IsSpace(s[0]) then [] else [s[0]]) + RemoveSpaces(s[1..])
  }

  /** Text without whitespace is left as it is, so the normalisation is idempotent. */
  lemma {:induction false} RemoveSpacesClean(s: string)
    requires NoSpace(s)
    ensures RemoveSpaces(s) == s
  {
    if s != [] {
      RemoveSpacesClean(s[1..]);
      assert s == [s[0]] + s[1..];
    }
  }

  /** `line and not line.isspace()` after the comments are gone. */
  predicate Kept(line: string)
  {
    var l := StripComments(line, true);
    l != [] && !AllSpace(l)
  }

  function Requirement(line: string): string
  {
    RemoveSpaces(StripComments(line, true))
  }

  /** The set `get_requirements` collects. */
  function Requirements(lines: seq<string>): set<string>
  {
    set i | 0 <= i < |lines| && Kept(lines[i]) :: Requirement(lines[i])
  }

  /** Every collected requirement is a non-empty text without whitespace. */
  lemma RequirementsClean(lines: seq<string>)
    ensures forall r :: r in Requirements(lines) ==> r != [] && NoSpace(r)
  {
    forall r | r in Requirements(lines) ensures r != [] && NoSpace(r) {
      var i :| 0 <= i < |lines| && Kept(lines[i]) && Requirement(lines[i]) == r;
      var l := StripComments(lines[i], true);
      var k :| 0 <= k < |l| && !IsSpace(l[k]);
      assert l[k] in r;
    }
  }

  /**
   * A requirement followed by a comment gives the requirement without its
   * whitespace; a comment line or a blank line gives nothing.
   */
  lemma RequirementOfLine(r: string, w: char, c: string, nl: string)
    requires '#' !in r && !AllSpace(r) && IsSpace(w) && '\n' !in c && LineEnd(nl)
    ensures Kept(r + [w] + "#" + c + nl) && Requirement(r + [w] + "#" + c + nl) == RemoveSpaces(r)
    ensures Kept(r + nl) && Requirement(r + nl) == RemoveSpaces(r + nl)
    ensures !Kept("#" + c + nl)
  {
    var u := [w] + "#" + c + nl;
    assert r + [w] + "#" + c + nl == r + u;
    StripCommentsKeeps(r, u, true);
    StripCommentsComment(w, c, nl, r == []);
    assert r + nl == r + nl;
    StripCommentsKeeps(r, nl, true);
    StripCommentsLineEnd(nl, r == []);
    StripCommentsComment(w, c, nl, false);
    NewlineOnlyIsBlank(r, nl);
    RemoveSpacesNewline(r, nl);
  }

  lemma NewlineOnlyIsBlank(r: string, nl: string)
    requires !AllSpace(r) && LineEnd(nl)
    ensures !AllSpace(r + nl) && r + nl != []
  {
    var k :| 0 <= k < |r| && !IsSpace(r[k]);
    assert (r + nl)[k] == r[k];
  }

  lemma RemoveSpacesNewline(r: string, nl: string)
    requires LineEnd(nl)
    ensures RemoveSpaces(r + nl) == RemoveSpaces(r)
  {
    RemoveSpacesConcat(r, nl);
    if nl == "\n" {
      assert RemoveSpaces(nl) == [] + RemoveSpaces(nl[1..]);
    }
  }

  lemma {:induction false} RemoveSpacesConcat(a: string, b: string)
    ensures RemoveSpaces(a + b) == RemoveSpaces(a) + RemoveSpaces(b)
    decreases |a|
  {
    if a == [] {
      assert a + b == b;
    } else {
      assert (a + b)[1..] == a[1..] + b;
      RemoveSpacesConcat(a[1..], b);
    }
  }

  /** `sorted(s)` for a set: its members are listed in some order and then sorted. */
  method SortedSet(s: set<string>) returns (r: seq<string>)
    ensures SortedBy(r, Identity) && multiset(r) == multiset(s)
  {
    var listed: seq<string> := [];
    var rest := s;
    while rest != {}
      invariant multiset(listed) + multiset(rest) == multiset(s)
      invariant rest <= s
      decreases |rest|
    {
      var x :| x in rest;
      listed := listed + [x];
      rest := rest - {x};
    }
    SortByFacts(listed, Identity);
    r := SortStrings(listed);
  }

  /**
   * `get_requirements`: the normalised requirement lines, each once, in
   * ascending order; the order of the lines does not matter.
   */
  method GetRequirements(lines: seq<string>) returns (r: seq<string>)
    ensures SortedBy(r, Identity) && multiset(r) == multiset(Requirements(lines))
  {
    var requirements: set<string> := {};
    for k := 0 to |lines|
      invariant requirements == Requirements(lines[..k])
    {
      assert forall i :: 0 <= i < k ==> lines[..k + 1][i] == lines[..k][i];
      var line := StripComments(lines[k], true);
      if line != [] && !AllSpace(line) {
        requirements := requirements + {RemoveSpaces(line)};
      }
      RequirementsStep(lines, k);
    }
    assert lines[..|lines|] == lines;
    r := SortedSet(requirements);
  }

  lemma RequirementsStep(lines: seq<string>, k: nat)
    requires k < |lines|
    ensures Requirements(lines[..k + 1]) ==
              Requirements(lines[..k]) + (if Kept(lines[k]) then {Requirement(lines[k])} else {})
  {
    var a := lines[..k];
    var b := lines[..k + 1];
    assert forall i :: 0 <= i < k ==> b[i] == a[i];
    assert b[k] == lines[k];
  }

  /** The result has each requirement exactly once and no other text. */
  lemma GetRequirementsUnique(lines: seq<string>, r: seq<string>)
    requires SortedBy(r, Identity) && multiset(r) == multiset(Requirements(lines))
    ensures forall x :: x in r <==> x in Requirements(lines)
    ensures forall i, j :: 0 <= i < j < |r| ==> r[i] != r[j]
  {
    forall x ensures x in r <==> x in Requirements(lines) {
      assert x in r <==> x in multiset(r);
    }
    forall i, j | 0 <= i < j < |r| ensures r[i] != r[j] {
      CountOfRepeat(r, i, j);
    }
  }

  /** An item at two positions occurs at least twice. */
  lemma CountOfRepeat(r: seq<string>, i: nat, j: nat)
    requires i < j < |r|
    ensures r[i] == r[j] ==> multiset(r)[r[i]] >= 2
  {
    assert r == r[..j] + r[j..];
    assert r[i] in r[..j];
    assert r[j..] == [r[j]] + r[j + 1..];
  }

  // ---------------------------------------------------------------------
  // get_version

  predicate IsQuote(c: char)
  {
    c == '"' || c == '\''
  }

  /** The position of the first quote, or `|s|`. */
  function FirstQuote(s: string): (n: nat)
    ensures n <= |s| && (n < |s| ==> IsQuote(s[n]))
    ensures forall i :: 0 <= i < n ==> !IsQuote(s[i])
  {
    if s == [] || IsQuote(s[0]) then 0 else 1 + FirstQuote(s[1..])
  }

  const VersionName: string := "__version__"

  /**
   * `re.match(r'^__version__\s*=\s*["\']([^"\']+)["\']$', line)`: the
   * captured group, or `None`. The blanks and the quoted text leave the
   * expression no choice, and `$` accepts the end or a final newline.
   */
  function VersionOf(line: string): (v: Option<string>)
    ensures v.Some? ==> v.value != [] && '"' !in v.value && '\'' !in v.value
  {
    if StartsWith(line, VersionName) then AfterName(line[|VersionName|..]) else None
  }

  /** `\s*=` and what follows. */
  function AfterName(t: string): (v: Option<string>)
    ensures v.Some? ==> v.value != [] && '"' !in v.value && '\'' !in v.value
  {
    var a := TrimLeft(t);
    if a == [] || a[0] != '=' then None else AfterEquals(a[1..])
  }

  /** `\s*["\']` and what follows. */
  function AfterEquals(t: string): (v: Option<string>)
    ensures v.Some? ==> v.value != [] && '"' !in v.value && '\'' !in v.value
  {
    var b := TrimLeft(t);
    if b == [] || !IsQuote(b[0]) then None else Quoted(b[1..])
  }

  /** `([^"\']+)["\']$`. */
  function Quoted(c: string): (v: Option<string>)
    ensures v.Some? ==> v.value != [] && '"' !in v.value && '\'' !in v.value
  {
    var n := FirstQuote(c);
    if n == 0 || n == |c| || !LineEnd(c[n + 1..]) then None else Some(c[..n])
  }

  /** A line `__version__ = '<v>'`, with any blanks around `=` and either quote, gives `v`. */
  lemma VersionOfLine(ws1: string, ws2: string, q1: char, v: string, q2: char, nl: string)
    requires AllSpace(ws1) && AllSpace(ws2) && IsQuote(q1) && IsQuote(q2) && LineEnd(nl)
    requires v != [] && forall i :: 0 <= i < |v| ==> !IsQuote(v[i])
    ensures VersionOf(VersionName + (ws1 + ("=" + (ws2 + ([q1] + (v + ([q2] + nl))))))) == Some(v)
  {
    var c := v + ([q2] + nl);
    var b := [q1] + c;
    var a := "=" + (ws2 + b);
    var line := VersionName + (ws1 + a);
    assert line[..|VersionName|] == VersionName;
    assert line[|VersionName|..] == ws1 + a;
    TrimLeftSpaces(ws1, a);
    assert a[1..] == ws2 + b;
    TrimLeftSpaces(ws2, b);
    assert b[1..] == c;
    QuotedValue(v, q2, nl);
  }

  lemma QuotedValue(v: string, q: char, nl: string)
    requires IsQuote(q) && LineEnd(nl) && v != [] && forall i :: 0 <= i < |v| ==> !IsQuote(v[i])
    ensures Quoted(v + ([q] + nl)) == Some(v)
  {
    var c := v + ([q] + nl);
    QuoteAt(v, q, nl);
    assert c[..|v|] == v;
    assert c[|v| + 1..] == nl;
  }

  lemma {:induction false} QuoteAt(v: string, q: char, nl: string)
    requires IsQuote(q) && forall i :: 0 <= i < |v| ==> !IsQuote(v[i])
    ensures FirstQuote(v + ([q] + nl)) == |v|
    decreases |v|
  {
    var s := v + ([q] + nl);
    if v == [] {
      assert s[0] == q;
    } else {
      assert s[0] == v[0];
      assert s[1..] == v[1..] + ([q] + nl);
      QuoteAt(v[1..], q, nl);
    }
  }

  /** A line that does not start with `__version__` assigns nothing. */
  lemma VersionOfOther(line: string)
    requires !StartsWith(line, "__version__")
    ensures VersionOf(line) == None
  {
  }

  /** The first answer `f` gives along `xs`: the loop that returns at its first match. */
  function FirstSome<T, U>(xs: seq<T>, f: T -> Option<U>): Option<U>
  {
    if xs == [] then None
    else if f(xs[0]).Some? then f(xs[0])
    else FirstSome(xs[1..], f)
  }

  /** It is the answer for some item, no earlier item has one, and it is absent only when no item has one. */
  lemma {:induction false} FirstSomeMeaning<T, U>(xs: seq<T>, f: T -> Option<U>)
    ensures FirstSome(xs, f).None? <==> forall i :: 0 <= i < |xs| ==> f(xs[i]).None?
    ensures FirstSome(xs, f).Some? ==>
              exists i :: 0 <= i < |xs| && f(xs[i]) == FirstSome(xs, f) && forall j :: 0 <= j < i ==> f(xs[j]).None?
    decreases |xs|
  {
    if xs != [] {
      var rest := xs[1..];
      FirstSomeMeaning(rest, f);
      assert forall i :: 0 < i < |xs| ==> xs[i] == rest[i - 1];
      if f(xs[0]).None? && FirstSome(xs, f).Some? {
        var i :| 0 <= i < |rest| && f(rest[i]) == FirstSome(rest, f) && forall j :: 0 <= j < i ==> f(rest[j]).None?;
        assert f(xs[i + 1]) == FirstSome(xs, f);
      }
    }
  }

  /**
   * `get_version`: the version of the first matching line; an exception
   * naming the module when no line matches.
   */
  method GetVersion(modulePath: string, lines: seq<string>) returns (r: Result<string, Error>)
    ensures FirstSome(lines, VersionOf).Some? ==> r == Ok(FirstSome(lines, VersionOf).value)
    ensures FirstSome(lines, VersionOf).None? ==> r == Err(Raised("Failed to extract version from " + modulePath + "!"))
  {
    for k := 0 to |lines|
      invariant FirstSome(lines[k..], VersionOf) == FirstSome(lines, VersionOf)
    {
      assert lines[k..][1..] == lines[k + 1..];
      var version := VersionOf(lines[k]);
      if version.Some? {
        return Ok(version.value);
      }
    }
    assert lines[|lines|..] == [];
    return Err(Raised("Failed to extract version from " + modulePath + "!"));
  }
}
