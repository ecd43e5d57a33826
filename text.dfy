/**
 * The Python string and bytes operations the modelled code relies on:
 * `startswith`, `in`, `find`, `split`, `join`, `replace`, `strip`, `lower`,
 * `int()` and `'%i' %`, each written out with the semantics CPython gives it.
 */
module Text {
  import opened Wrappers

  /** One byte of a file or stream. */
  newtype byte = x: int | 0 <= x < 256

  /** The bytes of a text whose characters are all below 256 (Latin-1). */
  function Enc(s: string): (r: seq<byte>)
    ensures |r| == |s|
    ensures forall i :: 0 <= i < |s| ==> r[i] as int == s[i] as int % 256
  {
    seq(|s|, i requires 0 <= i < |s| => (s[i] as int % 256) as byte)
  }

  /** The text whose characters are the given bytes (Latin-1). */
  function Dec(b: seq<byte>): (r: string)
    ensures |r| == |b|
    ensures forall i :: 0 <= i < |b| ==> r[i] as int == b[i] as int
  {
    seq(|b|, i requires 0 <= i < |b| => b[i] as int as char)
  }

  predicate Latin1(s: string)
  {
    forall i :: 0 <= i < |s| ==> s[i] as int < 256
  }

  lemma DecEnc(s: string)
    requires Latin1(s)
    ensures Dec(Enc(s)) == s
  {
  }

  // ---------------------------------------------------------------------
  // Prefixes, suffixes and substrings

  predicate StartsWith<T(==)>(s: seq<T>, p: seq<T>)
  {
    |p| <= |s| && s[..|p|] == p
  }

  predicate EndsWith<T(==)>(s: seq<T>, p: seq<T>)
  {
    |p| <= |s| && s[|s| - |p|..] == p
  }

  /** `sub` occurs in `s` at index `i`. */
  predicate Occurs<T(==)>(s: seq<T>, sub: seq<T>, i: int)
  {
    0 <= i && i + |sub| <= |s| && s[i..i + |sub|] == sub
  }

  /** `s.find(sub, from)`: the first occurrence at or after `from`, or -1. */
  function Find<T(==)>(s: seq<T>, sub: seq<T>, from: nat): (r: int)
    ensures r == -1 || (from <= r && Occurs(s, sub, r))
    ensures forall j :: from <= j < (if r == -1 then |s| + 1 else r) ==> !Occurs(s, sub, j)
    decreases |s| - from
  {
    if from + |sub| > |s| then -1
    else if s[from..from + |sub|] == sub then from
    else Find(s, sub, from + 1)
  }

  /** The first occurrence of a single character is where it first appears. */
  lemma FindChar<T>(s: seq<T>, c: T, k: nat)
    requires k < |s| && s[k] == c
    requires forall j :: 0 <= j < k ==> s[j] != c
    ensures Find(s, [c], 0) == k
  {
    assert Occurs(s, [c], k) by { assert s[k..k + 1] == [c]; }
    var r := Find(s, [c], 0);
    assert r != -1 && r <= k;
    assert s[r..r + 1] == [c] && s[r] == s[r..r + 1][0];
  }

  lemma FindCharAbsent<T>(s: seq<T>, c: T)
    requires c !in s
    ensures Find(s, [c], 0) == -1
  {
    forall j | 0 <= j < |s| ensures !Occurs(s, [c], j) {
      assert s[j..j + 1][0] == s[j];
    }
  }

  /** `s.partition(sep)` without the separator: the text before the first occurrence and after it. */
  function Partition<T(==)>(s: seq<T>, sep: seq<T>): (seq<T>, seq<T>)
  {
    var i := Find(s, sep, 0);
    if i == -1 then (s, []) else (s[..i], s[i + |sep|..])
  }

  /** Partitioning at a character that does not occur before it recovers both parts. */
  lemma PartitionAt<T>(a: seq<T>, c: T, b: seq<T>)
    requires c !in a
    ensures Partition(a + [c] + b, [c]) == (a, b)
  {
    var s := a + [c] + b;
    assert s[|a|] == c;
    forall j | 0 <= j < |a| ensures s[j] != c {
      assert s[j] == a[j];
    }
    FindChar(s, c, |a|);
    assert s[..|a|] == a && s[|a| + 1..] == b;
  }

  /** `sub in s` for strings and bytes. */
  predicate Contains<T(==)>(s: seq<T>, sub: seq<T>)
  {
    Find(s, sub, 0) >= 0
  }

  lemma ContainsIff<T>(s: seq<T>, sub: seq<T>)
    ensures Contains(s, sub) <==> exists i :: Occurs(s, sub, i)
  {
    if exists i :: Occurs(s, sub, i) {
      var i :| Occurs(s, sub, i);
      assert i < |s| + 1;
    }
  }

  // ---------------------------------------------------------------------
  // split and join

  /** `sep.join(parts)`. */
  function JoinWith<T>(sep: seq<T>, parts: seq<seq<T>>): seq<T>
  {
    if |parts| == 0 then []
    else if |parts| == 1 then parts[0]
    else parts[0] + sep + JoinWith(sep, parts[1..])
  }

  /** `s.split(sep)` for a non-empty separator: cut at every occurrence, left to right. */
  function SplitOn<T(==)>(s: seq<T>, sep: seq<T>): (r: seq<seq<T>>)
    requires |sep| > 0
    ensures |r| >= 1
    decreases |s|
  {
    var k := Find(s, sep, 0);
    if k < 0 then [s] else [s[..k]] + SplitOn(s[k + |sep|..], sep)
  }

  /** Joining the pieces of a split with its separator gives the original back. */
  lemma {:induction false} JoinSplit<T>(s: seq<T>, sep: seq<T>)
    requires |sep| > 0
    ensures JoinWith(sep, SplitOn(s, sep)) == s
    decreases |s|
  {
    var k := Find(s, sep, 0);
    if k >= 0 {
      var rest := s[k + |sep|..];
      var tail := SplitOn(rest, sep);
      JoinSplit(rest, sep);
      assert SplitOn(s, sep) == [s[..k]] + tail;
      JoinCons(sep, s[..k], tail);
      assert s[k..k + |sep|] == sep;
      assert s == s[..k] + sep + rest;
    }
  }

  lemma JoinCons<T>(sep: seq<T>, head: seq<T>, tail: seq<seq<T>>)
    requires |tail| >= 1
    ensures JoinWith(sep, [head] + tail) == head + sep + JoinWith(sep, tail)
  {
    assert ([head] + tail)[1..] == tail;
  }

  /** No piece of a split contains the separator's first element. */
  lemma {:induction false} SplitPiecesAvoid<T>(s: seq<T>, sep: seq<T>)
    requires |sep| == 1
    ensures forall p :: p in SplitOn(s, sep) ==> sep[0] !in p
    decreases |s|
  {
    var k := Find(s, sep, 0);
    if k < 0 {
      forall j | 0 <= j < |s| ensures s[j] != sep[0] {
        assert !Occurs(s, sep, j);
      }
    } else {
      forall j | 0 <= j < k ensures s[j] != sep[0] {
        assert !Occurs(s, sep, j);
      }
      SplitPiecesAvoid(s[k + |sep|..], sep);
    }
  }

  /**
   * Splitting a join gives the parts back when no part contains the
   * separator's first element (so no occurrence can straddle a boundary).
   */
  lemma {:induction false} SplitJoin<T>(parts: seq<seq<T>>, sep: seq<T>)
    requires |sep| > 0 && |parts| >= 1
    requires forall p :: p in parts ==> sep[0] !in p
    ensures SplitOn(JoinWith(sep, parts), sep) == parts
    decreases |parts|
  {
    var j := JoinWith(sep, parts);
    var p0 := parts[0];
    assert sep[0] !in p0;
    forall i | 0 <= i < |p0| ensures !Occurs(j, sep, i) {
      assert j[i] == p0[i];
      assert p0[i] in p0;
    }
    if |parts| == 1 {
      assert j == p0;
      assert Find(j, sep, 0) == -1;
    } else {
      var rest := JoinWith(sep, parts[1..]);
      assert j == p0 + sep + rest;
      assert Occurs(j, sep, |p0|) by {
        assert j[|p0|..|p0| + |sep|] == sep;
      }
      var k := Find(j, sep, 0);
      assert k == |p0|;
      assert j[k + |sep|..] == rest;
      assert j[..k] == p0;
      SplitJoin(parts[1..], sep);
    }
  }

  /** The first part of a join is a prefix of it. */
  lemma JoinStartsWith<T>(sep: seq<T>, parts: seq<seq<T>>)
    requires |parts| >= 1
    ensures StartsWith(JoinWith(sep, parts), parts[0])
  {
  }

  /** `s.replace(pat, rep)`: CPython's replace equals `rep.join(s.split(pat))`. */
  function Replace<T(==)>(s: seq<T>, pat: seq<T>, rep: seq<T>): seq<T>
    requires |pat| > 0
  {
    JoinWith(rep, SplitOn(s, pat))
  }

  lemma ReplaceAbsent<T>(s: seq<T>, pat: seq<T>, rep: seq<T>)
    requires |pat| > 0 && !Contains(s, pat)
    ensures Replace(s, pat, rep) == s
  {
  }

  // ---------------------------------------------------------------------
  // Whitespace, case and words

  /** `c.isspace()` for CPython 3 strings. */
  predicate IsSpace(c: char)
  {
    c == ' ' || ('\t' <= c <= '\r') || ('\U{1c}' <= c <= '\U{1f}')
    || c == '\U{85}' || c == '\U{a0}' || c == '\U{1680}' || ('\U{2000}' <= c <= '\U{200a}')
    || c == '\U{2028}' || c == '\U{2029}' || c == '\U{202f}' || c == '\U{205f}' || c == '\U{3000}'
  }

  predicate NoSpace(s: string)
  {
    forall i :: 0 <= i < |s| ==> !IsSpace(s[i])
  }

  predicate AllSpace(s: string)
  {
    forall i :: 0 <= i < |s| ==> IsSpace(s[i])
  }

  predicate IsDigit(c: char) { '0' <= c <= '9' }

  predicate IsAsciiLetter(c: char) { ('a' <= c <= 'z') || ('A' <= c <= 'Z') }

  predicate IsAsciiAlnum(c: char) { IsAsciiLetter(c) || IsDigit(c) }

  function LowerChar(c: char): char
  {
    if 'A' <= c <= 'Z' then (c as int + 32) as char else c
  }

  /** `s.lower()` restricted to the ASCII letters. */
  function Lower(s: string): (r: string)
    ensures |r| == |s|
    ensures forall i :: 0 <= i < |s| ==> r[i] == LowerChar(s[i])
  {
    seq(|s|, i requires 0 <= i < |s| => LowerChar(s[i]))
  }

  /** Lower-casing twice is lower-casing once. */
  lemma LowerIdempotent(s: string)
    ensures Lower(Lower(s)) == Lower(s)
  {
    assert forall i :: 0 <= i < |s| ==> LowerChar(LowerChar(s[i])) == LowerChar(s[i]);
  }

  function TrimLeft(s: string): (r: string)
    ensures r == [] || !IsSpace(r[0])
    ensures EndsWith(s, r) && AllSpace(s[..|s| - |r|])
  {
    if s != [] && IsSpace(s[0]) then
      var t := s[1..];
      var r := TrimLeft(t);
      TrimLeftStep(s, r);
      r
    else s
  }

  lemma TrimLeftStep(s: string, r: string)
    requires s != [] && IsSpace(s[0])
    requires EndsWith(s[1..], r) && AllSpace(s[1..][..|s| - 1 - |r|])
    ensures EndsWith(s, r) && AllSpace(s[..|s| - |r|])
  {
    var t := s[1..];
    assert s[|s| - |r|..] == t[|t| - |r|..];
    assert s[..|s| - |r|] == [s[0]] + t[..|t| - |r|];
  }

  function TrimRight(s: string): (r: string)
    ensures r == [] || !IsSpace(r[|r| - 1])
    ensures StartsWith(s, r) && AllSpace(s[|r|..])
  {
    if s != [] && IsSpace(s[|s| - 1]) then TrimRight(s[..|s| - 1]) else s
  }

  /** `s.strip()`. */
  function Strip(s: string): string
  {
    TrimRight(TrimLeft(s))
  }

  /** Leading whitespace before a text that starts with a non-space is dropped. */
  lemma {:induction false} TrimLeftSpaces(pre: string, rest: string)
    requires AllSpace(pre) && rest != [] && !IsSpace(rest[0])
    ensures TrimLeft(pre + rest) == rest
    decreases |pre|
  {
    if pre == [] {
      assert pre + rest == rest;
    } else {
      assert (pre + rest)[1..] == pre[1..] + rest;
      TrimLeftSpaces(pre[1..], rest);
    }
  }

  /** Trailing whitespace after a text that ends with a non-space is dropped. */
  lemma {:induction false} TrimRightSpaces(rest: string, post: string)
    requires AllSpace(post) && rest != [] && !IsSpace(rest[|rest| - 1])
    ensures TrimRight(rest + post) == rest
    decreases |post|
  {
    if post == [] {
      assert rest + post == rest;
    } else {
      assert (rest + post)[..|rest + post| - 1] == rest + post[..|post| - 1];
      TrimRightSpaces(rest, post[..|post| - 1]);
    }
  }

  /** Stripping a text without surrounding whitespace, followed by a newline, drops just the newline. */
  lemma StripNewline(s: string)
    requires s == [] || (!IsSpace(s[0]) && !IsSpace(s[|s| - 1]))
    ensures Strip(s + "\n") == s
  {
    var t := s + "\n";
    if s == [] {
      assert TrimLeft(t) == TrimLeft(t[1..]);
      assert t[1..] == [];
    } else {
      assert TrimLeft(t) == t;
      assert TrimRight(t) == TrimRight(t[..|t| - 1]);
      assert t[..|t| - 1] == s;
    }
  }

  /** The number of leading characters that are not whitespace. */
  function WordLen(s: string): (n: nat)
    ensures n <= |s|
    ensures NoSpace(s[..n])
    ensures n < |s| ==> IsSpace(s[n])
  {
    if s == [] || IsSpace(s[0]) then 0 else 1 + WordLen(s[1..])
  }

  /** `s.split()`: the maximal runs of non-whitespace characters, in order. */
  function Words(s: string): (r: seq<string>)
    ensures forall i :: 0 <= i < |r| ==> r[i] != [] && NoSpace(r[i])
    decreases |s|
  {
    if s == [] then []
    else if IsSpace(s[0]) then Words(s[1..])
    else
      var n := WordLen(s);
      [s[..n]] + Words(s[n..])
  }

  lemma WordLenOfWord(w: string, t: string)
    requires NoSpace(w)
    requires t == [] || IsSpace(t[0])
    ensures WordLen(w + t) == |w|
    decreases |w|
  {
    if w != [] {
      assert (w + t)[1..] == w[1..] + t;
      WordLenOfWord(w[1..], t);
    } else {
      assert w + t == t;
    }
  }

  /** Splitting words joined by single spaces gives the words back. */
  lemma {:induction false} WordsOfJoin(ws: seq<string>)
    requires forall i :: 0 <= i < |ws| ==> ws[i] != [] && NoSpace(ws[i])
    ensures Words(JoinWith(" ", ws)) == ws
    decreases |ws|
  {
    if |ws| == 1 {
      WordLenOfWord(ws[0], []);
      assert ws[0] + [] == ws[0];
      assert ws[0][|ws[0]|..] == [];
    } else if |ws| > 1 {
      var w := ws[0];
      var rest := JoinWith(" ", ws[1..]);
      var s := JoinWith(" ", ws);
      assert s == w + (" " + rest);
      WordLenOfWord(w, " " + rest);
      assert s[..|w|] == w;
      assert s[|w|..] == " " + rest;
      assert Words(" " + rest) == Words(rest) by {
        assert (" " + rest)[1..] == rest;
      }
      WordsOfJoin(ws[1..]);
    }
  }

  // ---------------------------------------------------------------------
  // Integers in decimal

  function DigitChar(d: nat): char
    requires d < 10
  {
    ('0' as int + d) as char
  }

  function DigitValue(c: char): nat
    requires IsDigit(c)
  {
    c as int - '0' as int
  }

  predicate AllDigits(s: string)
  {
    forall i :: 0 <= i < |s| ==> IsDigit(s[i])
  }

  /** The value of a run of decimal digits. */
  function DecimalValue(s: string): nat
    requires AllDigits(s)
  {
    if s == [] then 0 else DecimalValue(s[..|s| - 1]) * 10 + DigitValue(s[|s| - 1])
  }

  /** `'%i' % n` for a natural number. */
  function NatToString(n: nat): (r: string)
    ensures |r| >= 1 && AllDigits(r)
  {
    if n < 10 then [DigitChar(n)] else NatToString(n / 10) + [DigitChar(n % 10)]
  }

  /** `'%i' % i`. */
  function IntToString(i: int): string
  {
    if i < 0 then "-" + NatToString(-i) else NatToString(i)
  }

  lemma {:induction false} DecimalOfNat(n: nat)
    ensures DecimalValue(NatToString(n)) == n
  {
    if n >= 10 {
      var s := NatToString(n);
      DecimalOfNat(n / 10);
      assert s[..|s| - 1] == NatToString(n / 10);
    }
  }

  /**
   * `int(s)` for a text: surrounding whitespace, an optional sign and at least
   * one ASCII digit. Anything else raises ValueError, modelled as None.
   */
  function ParseInt(s: string): (r: Option<int>)
  {
    var t := Strip(s);
    var negative := t != [] && t[0] == '-';
    var body := if t != [] && (t[0] == '-' || t[0] == '+') then t[1..] else t;
    if body != [] && AllDigits(body) then
      Some(if negative then -(DecimalValue(body) as int) else DecimalValue(body) as int)
    else None
  }

  lemma StripClean(s: string)
    requires s != [] && !IsSpace(s[0]) && !IsSpace(s[|s| - 1])
    ensures Strip(s) == s
  {
    assert TrimLeft(s) == s;
  }

  lemma DigitNotSpace(c: char)
    requires IsDigit(c) || c == '-'
    ensures !IsSpace(c)
  {
  }

  /** `int('%i' % i) == i`. */
  lemma ParseIntToString(i: int)
    ensures ParseInt(IntToString(i)) == Some(i)
  {
    var s := IntToString(i);
    if i < 0 {
      var d := NatToString(-i);
      DecimalOfNat(-i);
      assert s == "-" + d;
      assert s[|s| - 1] == d[|d| - 1];
      DigitNotSpace(d[|d| - 1]);
      StripClean(s);
      assert s[1..] == d;
    } else {
      var d := NatToString(i);
      DecimalOfNat(i);
      assert s == d;
      DigitNotSpace(d[0]);
      DigitNotSpace(d[|d| - 1]);
      StripClean(s);
    }
  }
}
