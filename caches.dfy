/**
 * pip_accel/caches/__init__.py: the cache manager that treats the
 * registered cache backends as one cache, asking them in priority order and
 * disabling every backend that raises, and the cache file name scheme.
 *
 * What one backend answers to one `get` or `put` is an input here
 * (`getAnswer`, `putAnswer`); the local and S3 backends themselves are
 * modelled in local.dfy and s3.dfy.
 */
module Caches {
  import opened Wrappers
  import opened Text
  import opened Errors

  /** The classes in the backend registry. The metaclass registers the abstract base class as well. */
  datatype BackendKind =
    | AbstractBase
    | LocalBackend
    | S3Backend
    | EntryPointBackend(name: string, priority: int)

  /** `PRIORITY` of each backend class. */
  function Priority(k: BackendKind): int
  {
    match k
    case AbstractBase => 0
    case LocalBackend => 10
    case S3Backend => 20
    case EntryPointBackend(_, p) => p
  }

  /** One backend instance; `id` tells instances of the same class apart. */
  datatype Backend = Backend(kind: BackendKind, id: nat)

  /**
   * What one backend's `get` did: returned a pathname, returned None, or
   * raised (CacheBackendDisabledError or any other exception: the manager
   * disables the backend either way).
   */
  datatype GetAnswer = Hit(pathname: string) | Miss | GetRaised(error: Error)

  /** What one backend's `put` did. */
  datatype PutAnswer = Stored | PutRaised(error: Error)

  // ---------------------------------------------------------------------
  // Cache file names

  /**
   * `generate_filename`: `v<revision>/<package>:<tag>:<python>.tar.gz`, where
   * the tag is the version, or the SHA1 hex digest of version plus URL when a
   * URL other than a `file://` URL is given. `sha1Hex` stands for that digest.
   */
  function GenerateFilename(package: string, version: string, url: Option<string>,
                            revision: int, pythonVersion: string, sha1Hex: string -> string): string
  {
    var effective := if url.Some? && url.value != "" && StartsWith(url.value, "file://") then None else url;
    var tag := if effective.Some? && effective.value != "" then sha1Hex(version + effective.value) else version;
    "v" + IntToString(revision) + "/" + package + ":" + tag + ":" + pythonVersion + ".tar.gz"
  }

  /** The tag part of a cache file name. */
  function CacheTag(version: string, url: Option<string>, sha1Hex: string -> string): string
  {
    if url.Some? && url.value != "" && !StartsWith(url.value, "file://") then sha1Hex(version + url.value) else version
  }

  /** A `file://` URL, an empty URL and no URL all give the version as the tag. */
  lemma FilenameTag(package: string, version: string, url: Option<string>,
                    revision: int, pythonVersion: string, sha1Hex: string -> string)
    ensures GenerateFilename(package, version, url, revision, pythonVersion, sha1Hex)
            == FilenameOf(revision, package, CacheTag(version, url, sha1Hex), pythonVersion)
    ensures url.Some? && StartsWith(url.value, "file://") ==>
              GenerateFilename(package, version, url, revision, pythonVersion, sha1Hex)
              == GenerateFilename(package, version, None, revision, pythonVersion, sha1Hex)
  {
  }

  lemma ColonSplit(a: string, b: string, a': string, b': string)
    requires ':' !in a && ':' !in a'
    requires a + ":" + b == a' + ":" + b'
    ensures a == a' && b == b'
  {
    var s := a + ":" + b;
    assert s == a' + ":" + b';
    assert s[|a|] == ':' && s[|a'|] == ':';
    assert forall j :: 0 <= j < |a| ==> s[j] == a[j] != ':';
    assert forall j :: 0 <= j < |a'| ==> s[j] == a'[j] != ':';
    assert |a| == |a'|;
    assert a == s[..|a|] == a';
    assert b == s[|a| + 1..] == b';
  }

  lemma CancelAffixes(head: string, x: string, y: string, tail: string)
    requires head + x + tail == head + y + tail
    ensures x == y
  {
    var s := head + x + tail;
    assert |x| == |y|;
    assert x == s[|head|..|head| + |x|];
    assert y == (head + y + tail)[|head|..|head| + |y|];
  }

  /** The cache file name for a package name and a tag. */
  function FilenameOf(revision: int, package: string, tag: string, pythonVersion: string): string
  {
    "v" + IntToString(revision) + "/" + (package + ":" + tag) + (":" + pythonVersion + ".tar.gz")
  }

  /**
   * With names and tags free of ':', the file name determines the package and
   * the tag, so two requirements never share a cache entry by accident.
   */
  lemma FilenameInjective(p1: string, t1: string, p2: string, t2: string, revision: int, pythonVersion: string)
    requires ':' !in p1 && ':' !in t1 && ':' !in p2 && ':' !in t2
    requires FilenameOf(revision, p1, t1, pythonVersion) == FilenameOf(revision, p2, t2, pythonVersion)
    ensures p1 == p2 && t1 == t2
  {
    CancelAffixes("v" + IntToString(revision) + "/", p1 + ":" + t1, p2 + ":" + t2, ":" + pythonVersion + ".tar.gz");
    ColonSplit(p1, t1, p2, t2);
  }

  // ---------------------------------------------------------------------
  // Backend lists

  predicate Distinct<T(==)>(s: seq<T>)
  {
    forall i, j :: 0 <= i < j < |s| ==> s[i] != s[j]
  }

  predicate PrioritySorted(s: seq<Backend>)
  {
    forall i, j :: 0 <= i < j < |s| ==> Priority(s[i].kind) <= Priority(s[j].kind)
  }

  /** The list without the given backends, in the same order. */
  function Without(s: seq<Backend>, gone: set<Backend>): seq<Backend>
  {
    if s == [] then []
    else Without(s[..|s| - 1], gone) + (if s[|s| - 1] in gone then [] else [s[|s| - 1]])
  }

  lemma WithoutMembers(s: seq<Backend>, gone: set<Backend>)
    ensures forall b :: b in Without(s, gone) <==> b in s && b !in gone
  {
    if s != [] {
      WithoutMembers(s[..|s| - 1], gone);
      assert s == s[..|s| - 1] + [s[|s| - 1]];
    }
  }

  lemma WithoutKeepsOrder(s: seq<Backend>, gone: set<Backend>)
    ensures Distinct(s) ==> Distinct(Without(s, gone))
    ensures PrioritySorted(s) ==> PrioritySorted(Without(s, gone))
    ensures |Without(s, gone)| <= |s|
  {
    WithoutLength(s, gone);
    if Distinct(s) {
      WithoutDistinct(s, gone);
    }
    if PrioritySorted(s) {
      WithoutSorted(s, gone);
    }
  }

  lemma {:induction false} WithoutLength(s: seq<Backend>, gone: set<Backend>)
    ensures |Without(s, gone)| <= |s|
  {
    if s != [] {
      WithoutLength(s[..|s| - 1], gone);
    }
  }

  lemma {:induction false} WithoutDistinct(s: seq<Backend>, gone: set<Backend>)
    requires Distinct(s)
    ensures Distinct(Without(s, gone))
  {
    if s != [] {
      var init := s[..|s| - 1];
      assert Distinct(init);
      WithoutDistinct(init, gone);
      WithoutMembers(init, gone);
      var last := s[|s| - 1];
      assert last !in init;
    }
  }

  lemma {:induction false} WithoutSorted(s: seq<Backend>, gone: set<Backend>)
    requires PrioritySorted(s)
    ensures PrioritySorted(Without(s, gone))
  {
    if s != [] {
      var init := s[..|s| - 1];
      assert PrioritySorted(init);
      WithoutSorted(init, gone);
      var w := Without(init, gone);
      WithoutMembers(init, gone);
      if s[|s| - 1] !in gone {
        forall k | 0 <= k < |w| ensures Priority(w[k].kind) <= Priority(s[|s| - 1].kind) {
          assert w[k] in init;
          var m :| 0 <= m < |init| && init[m] == w[k];
          assert s[m] == w[k];
        }
      }
    }
  }

  lemma WithoutEmpty(s: seq<Backend>)
    ensures Without(s, {}) == s
  {
    if s != [] {
      WithoutEmpty(s[..|s| - 1]);
    }
  }

  /** Python's `list.remove(x)`: drop the first occurrence. */
  function RemoveValue(s: seq<Backend>, x: Backend): seq<Backend>
  {
    if s == [] then []
    else if s[0] == x then s[1..]
    else [s[0]] + RemoveValue(s[1..], x)
  }

  lemma WithoutStep(s: seq<Backend>, gone: set<Backend>, x: Backend)
    ensures Without(Without(s, gone), {x}) == Without(s, gone + {x})
  {
    if s != [] {
      WithoutStep(s[..|s| - 1], gone, x);
      var w := Without(s[..|s| - 1], gone);
      var last := if s[|s| - 1] in gone then [] else [s[|s| - 1]];
      assert Without(s, gone) == w + last;
      WithoutAppend(w, last, {x});
    }
  }

  lemma WithoutAppend(a: seq<Backend>, b: seq<Backend>, gone: set<Backend>)
    ensures Without(a + b, gone) == Without(a, gone) + Without(b, gone)
    decreases |b|
  {
    if b == [] {
      assert a + b == a;
    } else {
      assert (a + b)[..|a + b| - 1] == a + b[..|b| - 1];
      WithoutAppend(a, b[..|b| - 1], gone);
    }
  }

  /** In a list without duplicates `remove` drops exactly that backend. */
  lemma RemoveValueIsWithout(s: seq<Backend>, x: Backend)
    requires Distinct(s)
    ensures RemoveValue(s, x) == Without(s, {x})
  {
    if s != [] {
      assert s == [s[0]] + s[1..];
      WithoutAppend([s[0]], s[1..], {x});
      assert Without([s[0]], {x}) == if s[0] == x then [] else [s[0]] by {
        assert [s[0]][..0] == [];
      }
      if s[0] == x {
        assert x !in s[1..];
        WithoutNotIn(s[1..], x);
      } else {
        RemoveValueIsWithout(s[1..], x);
      }
    }
  }

  lemma WithoutNotIn(s: seq<Backend>, x: Backend)
    requires x !in s
    ensures Without(s, {x}) == s
  {
    if s != [] {
      var init := s[..|s| - 1];
      assert s == init + [s[|s| - 1]];
      assert x !in init;
      WithoutNotIn(init, x);
      assert s[|s| - 1] !in {x};
    }
  }

  // ---------------------------------------------------------------------
  // Registration and priority order

  /** One instance per registered class except the abstract base class, in registry order. */
  function Instances(registered: seq<BackendKind>, from: nat): (r: seq<Backend>)
    ensures forall b :: b in r ==> b.kind != AbstractBase && from <= b.id
    ensures Distinct(r)
    decreases |registered|
  {
    if registered == [] then []
    else
      var rest := Instances(registered[1..], from + 1);
      if registered[0] == AbstractBase then rest else [Backend(registered[0], from)] + rest
  }

  function InsertByPriority(b: Backend, s: seq<Backend>): seq<Backend>
  {
    if s == [] then [b]
    else if Priority(b.kind) <= Priority(s[0].kind) then [b] + s
    else [s[0]] + InsertByPriority(b, s[1..])
  }

  /** `sorted(backends, key=lambda b: b.PRIORITY)`. */
  function SortByPriority(s: seq<Backend>): seq<Backend>
  {
    if s == [] then [] else InsertByPriority(s[0], SortByPriority(s[1..]))
  }

  lemma {:induction false} InsertByPriorityMultiset(b: Backend, s: seq<Backend>)
    ensures multiset(InsertByPriority(b, s)) == multiset(s) + multiset{b}
    decreases |s|
  {
    if s != [] && Priority(b.kind) > Priority(s[0].kind) {
      InsertByPriorityMultiset(b, s[1..]);
      assert s == [s[0]] + s[1..];
    }
  }

  lemma {:induction false} InsertByPriorityFacts(b: Backend, s: seq<Backend>)
    requires PrioritySorted(s)
    ensures multiset(InsertByPriority(b, s)) == multiset(s) + multiset{b}
    ensures PrioritySorted(InsertByPriority(b, s))
    decreases |s|
  {
    InsertByPriorityMultiset(b, s);
    if s != [] && Priority(b.kind) > Priority(s[0].kind) {
      InsertByPriorityFacts(b, s[1..]);
      var t := InsertByPriority(b, s[1..]);
      forall k | 0 <= k < |t| ensures Priority(s[0].kind) <= Priority(t[k].kind) {
        assert t[k] in multiset(t);
        if t[k] != b {
          assert t[k] in multiset(s[1..]);
          var m :| 0 <= m < |s[1..]| && s[1..][m] == t[k];
          assert s[m + 1] == t[k];
        }
      }
    }
  }

  /** The sorted list holds the same backends, in ascending priority. */
  lemma {:induction false} SortByPriorityFacts(s: seq<Backend>)
    ensures multiset(SortByPriority(s)) == multiset(s)
    ensures PrioritySorted(SortByPriority(s))
  {
    if s != [] {
      SortByPriorityFacts(s[1..]);
      InsertByPriorityFacts(s[0], SortByPriority(s[1..]));
      assert s == [s[0]] + s[1..];
    }
  }

  /** `PRIORITY` 10 against 20: once sorted, a local backend comes before every S3 backend. */
  lemma LocalBeforeS3(s: seq<Backend>, i: nat, j: nat)
    requires i < |SortByPriority(s)| && j < |SortByPriority(s)|
    requires SortByPriority(s)[i].kind == LocalBackend && SortByPriority(s)[j].kind == S3Backend
    ensures i < j
  {
    SortByPriorityFacts(s);
  }

  lemma {:induction false} DistinctByMultiset(s: seq<Backend>)
    ensures Distinct(s) <==> forall x :: multiset(s)[x] <= 1
  {
    if s != [] {
      var init := s[..|s| - 1];
      var last := s[|s| - 1];
      DistinctByMultiset(init);
      assert s == init + [last];
      assert multiset(s) == multiset(init) + multiset{last};
      if Distinct(s) {
        assert last !in init;
        assert Distinct(init);
      }
      if forall x :: multiset(s)[x] <= 1 {
        forall x ensures multiset(init)[x] <= 1 {
          assert multiset(s)[x] >= multiset(init)[x];
        }
        assert multiset(init)[last] == 0 by {
          assert multiset(s)[last] == multiset(init)[last] + 1;
        }
        forall i, j | 0 <= i < j < |s| ensures s[i] != s[j] {
          if j == |s| - 1 {
            assert s[i] in multiset(init);
          } else {
            assert init[i] != init[j];
          }
        }
      }
    }
  }

  /** A stream the manager rewinds before handing it to each backend. */
  class Stream {
    const data: seq<byte>
    var pos: nat

    constructor(data: seq<byte>)
      ensures this.data == data && pos == 0
    {
      this.data := data;
      this.pos := 0;
    }

    /** `handle.seek(0)`. */
    method Rewind()
      modifies this
      ensures pos == 0
    {
      pos := 0;
    }

    /** The bytes from the current position to the end. */
    function Rest(): seq<byte>
      reads this
    {
      if pos <= |data| then data[pos..] else []
    }

    /** What a backend's `put` reads: everything from the current position to the end. */
    method ReadRest() returns (chunk: seq<byte>)
      modifies this
      ensures chunk == old(Rest())
      ensures pos == |data|
    {
      chunk := Rest();
      pos := |data|;
    }
  }

  // ---------------------------------------------------------------------
  // The answers of one get round

  /**
   * One `get` round over the backends `bs`: what it returns and which
   * backends raised (and so are removed) before the first hit.
   */
  function GetRound(bs: seq<Backend>, filename: string, answer: (Backend, string) -> GetAnswer): (Option<string>, set<Backend>)
  {
    GetRoundFrom(bs, 0, filename, answer)
  }

  /** The same round, starting at the backend at index `k`. */
  function GetRoundFrom(bs: seq<Backend>, k: nat, filename: string, answer: (Backend, string) -> GetAnswer): (Option<string>, set<Backend>)
    requires k <= |bs|
    decreases |bs| - k
  {
    if k == |bs| then (None, {})
    else
      match answer(bs[k], filename)
      case Hit(pathname) => (Some(pathname), {})
      case Miss => GetRoundFrom(bs, k + 1, filename, answer)
      case GetRaised(_) =>
        var rest := GetRoundFrom(bs, k + 1, filename, answer);
        (rest.0, {bs[k]} + rest.1)
  }

  /** No backend from index `k` up to before index `i` hits. */
  ghost predicate NoHitBetween(bs: seq<Backend>, k: int, i: int, filename: string, answer: (Backend, string) -> GetAnswer)
    requires 0 <= k && i <= |bs|
  {
    forall j :: k <= j < i ==> !answer(bs[j], filename).Hit?
  }

  /** No backend before index `i` hits. */
  ghost predicate NoHitBefore(bs: seq<Backend>, i: int, filename: string, answer: (Backend, string) -> GetAnswer)
    requires i <= |bs|
  {
    NoHitBetween(bs, 0, i, filename, answer)
  }

  /**
   * `get` returns the pathname of the first backend that hits, and None when
   * none does; the backends removed are exactly those that raised before
   * the first hit.
   */
  lemma GetRoundMeaning(bs: seq<Backend>, filename: string, answer: (Backend, string) -> GetAnswer)
    ensures GetRound(bs, filename, answer).0.Some? <==> exists i :: 0 <= i < |bs| && answer(bs[i], filename).Hit?
    ensures forall i :: 0 <= i < |bs| && answer(bs[i], filename).Hit? && NoHitBefore(bs, i, filename, answer) ==>
              GetRound(bs, filename, answer).0 == Some(answer(bs[i], filename).pathname)
    ensures forall b :: b in GetRound(bs, filename, answer).1 <==>
              exists i :: 0 <= i < |bs| && bs[i] == b && answer(b, filename).GetRaised? && NoHitBefore(bs, i, filename, answer)
  {
    GetRoundFromMeaning(bs, 0, filename, answer);
  }

  lemma GetRoundFromMeaning(bs: seq<Backend>, k: nat, filename: string, answer: (Backend, string) -> GetAnswer)
    requires k <= |bs|
    ensures GetRoundFrom(bs, k, filename, answer).0.Some? <==> exists i :: k <= i < |bs| && answer(bs[i], filename).Hit?
    ensures forall i :: k <= i < |bs| && answer(bs[i], filename).Hit? && NoHitBetween(bs, k, i, filename, answer) ==>
              GetRoundFrom(bs, k, filename, answer).0 == Some(answer(bs[i], filename).pathname)
    ensures forall b :: b in GetRoundFrom(bs, k, filename, answer).1 <==>
              exists i :: k <= i < |bs| && bs[i] == b && answer(b, filename).GetRaised? && NoHitBetween(bs, k, i, filename, answer)
  {
    GetRoundFromFound(bs, k, filename, answer);
    forall i | k <= i < |bs| && answer(bs[i], filename).Hit? && NoHitBetween(bs, k, i, filename, answer)
      ensures GetRoundFrom(bs, k, filename, answer).0 == Some(answer(bs[i], filename).pathname)
    {
      GetRoundFromFirst(bs, k, i, filename, answer);
    }
    forall b
      ensures b in GetRoundFrom(bs, k, filename, answer).1 <==>
              exists i :: k <= i < |bs| && bs[i] == b && answer(b, filename).GetRaised? && NoHitBetween(bs, k, i, filename, answer)
    {
      GetRoundFromDisabled(bs, k, filename, answer, b);
    }
  }

  lemma {:induction false} GetRoundFromFound(bs: seq<Backend>, k: nat, filename: string, answer: (Backend, string) -> GetAnswer)
    requires k <= |bs|
    ensures GetRoundFrom(bs, k, filename, answer).0.Some? <==> exists i :: k <= i < |bs| && answer(bs[i], filename).Hit?
    decreases |bs| - k
  {
    if k < |bs| {
      GetRoundFromFound(bs, k + 1, filename, answer);
      if answer(bs[k], filename).Hit? {
        assert k <= k < |bs| && answer(bs[k], filename).Hit?;
      } else if exists i :: k <= i < |bs| && answer(bs[i], filename).Hit? {
        var i :| k <= i < |bs| && answer(bs[i], filename).Hit?;
        assert k + 1 <= i;
      }
    }
  }

  lemma {:induction false} GetRoundFromFirst(bs: seq<Backend>, k: nat, i: nat, filename: string, answer: (Backend, string) -> GetAnswer)
    requires k <= i < |bs| && answer(bs[i], filename).Hit? && NoHitBetween(bs, k, i, filename, answer)
    ensures GetRoundFrom(bs, k, filename, answer).0 == Some(answer(bs[i], filename).pathname)
    decreases i - k
  {
    if k < i {
      assert !answer(bs[k], filename).Hit?;
      assert NoHitBetween(bs, k + 1, i, filename, answer);
      GetRoundFromFirst(bs, k + 1, i, filename, answer);
    }
  }

  lemma {:induction false} GetRoundFromDisabled(bs: seq<Backend>, k: nat, filename: string, answer: (Backend, string) -> GetAnswer, b: Backend)
    requires k <= |bs|
    ensures b in GetRoundFrom(bs, k, filename, answer).1 <==>
            exists i :: k <= i < |bs| && bs[i] == b && answer(b, filename).GetRaised? && NoHitBetween(bs, k, i, filename, answer)
    decreases |bs| - k
  {
    if k < |bs| {
      GetRoundFromDisabled(bs, k + 1, filename, answer, b);
      var a := answer(bs[k], filename);
      if a.Hit? {
        forall i | k <= i < |bs| ensures !NoHitBetween(bs, k, i, filename, answer) || i == k {
          if k < i {
            assert !(k <= k < i ==> !answer(bs[k], filename).Hit?);
          }
        }
        assert !answer(bs[k], filename).GetRaised?;
      } else {
        forall i | k < i <= |bs|
          ensures NoHitBetween(bs, k, i, filename, answer) <==> NoHitBetween(bs, k + 1, i, filename, answer)
        {
        }
        assert NoHitBetween(bs, k, k, filename, answer);
      }
    }
  }

  /** The consulted backends that raised on `put`: every backend is consulted. */
  function PutRaisers(bs: seq<Backend>, filename: string, data: seq<byte>,
                      answer: (Backend, string, seq<byte>) -> PutAnswer): set<Backend>
  {
    if bs == [] then {}
    else PutRaisers(bs[..|bs| - 1], filename, data, answer) + (if answer(bs[|bs| - 1], filename, data).PutRaised? then {bs[|bs| - 1]} else {})
  }

  // ---------------------------------------------------------------------
  // The manager

  class CacheManager {
    var backends: seq<Backend>

    /** No backend twice, ascending priority. */
    ghost predicate Valid()
      reads this
    {
      Distinct(backends) && PrioritySorted(backends)
    }

    /** `__init__`: instantiate every registered class but the abstract base, sorted by priority. */
    constructor(registered: seq<BackendKind>)
      ensures Valid()
      ensures backends == SortByPriority(Instances(registered, 0))
      ensures multiset(backends) == multiset(Instances(registered, 0))
    {
      var instances := Instances(registered, 0);
      SortByPriorityFacts(instances);
      DistinctByMultiset(instances);
      DistinctByMultiset(SortByPriority(instances));
      backends := SortByPriority(instances);
    }

    /**
     * `get(package, version, url)`: generate the cache file name and look it
     * up in the backends.
     */
    method Get(package: string, version: string, url: Option<string>, revision: int, pythonVersion: string,
               sha1Hex: string -> string, answer: (Backend, string) -> GetAnswer) returns (r: Option<string>)
      requires Valid()
      modifies this
      ensures Valid()
      ensures var round := GetRound(old(backends), GenerateFilename(package, version, url, revision, pythonVersion, sha1Hex), answer);
              r == round.0 && backends == Without(old(backends), round.1)
    {
      var filename := GenerateFilename(package, version, url, revision, pythonVersion, sha1Hex);
      r := Lookup(filename, answer);
    }

    /**
     * The loop of `get`: ask the backends in order and return the first
     * pathname; every backend that raised before that is removed.
     */
    method Lookup(filename: string, answer: (Backend, string) -> GetAnswer) returns (r: Option<string>)
      requires Valid()
      modifies this
      ensures Valid()
      ensures r == GetRound(old(backends), filename, answer).0
      ensures backends == Without(old(backends), GetRound(old(backends), filename, answer).1)
    {
      var snapshot := backends;
      ghost var gone: set<Backend> := {};
      var i := 0;
      r := None;
      WithoutEmpty(snapshot);
      assert gone + GetRound(snapshot, filename, answer).1 == GetRound(snapshot, filename, answer).1;
      while i < |snapshot| && r.None?
        invariant 0 <= i <= |snapshot|
        invariant r.None? ==> GetRound(snapshot, filename, answer)
                               == (GetRoundFrom(snapshot, i, filename, answer).0, gone + GetRoundFrom(snapshot, i, filename, answer).1)
        invariant r.Some? ==> GetRound(snapshot, filename, answer) == (r, gone)
        invariant backends == Without(snapshot, gone)
      {
        var backend := snapshot[i];
        ghost var rest := GetRoundFrom(snapshot, i + 1, filename, answer);
        match answer(backend, filename) {
        case Hit(pathname) =>
          assert gone + {} == gone;
          r := Some(pathname);
        case Miss =>
          assert GetRoundFrom(snapshot, i, filename, answer) == rest;
        case GetRaised(_) =>
          assert GetRoundFrom(snapshot, i, filename, answer) == (rest.0, {backend} + rest.1);
          assert gone + ({backend} + rest.1) == (gone + {backend}) + rest.1;
          Disable(snapshot, gone, backend);
          gone := gone + {backend};
        }
        i := i + 1;
      }
      LiveValid(snapshot, gone);
    }

    /** `self.backends.remove(backend)` after a backend raised. */
    method Disable(ghost snapshot: seq<Backend>, ghost gone: set<Backend>, backend: Backend)
      requires Distinct(snapshot) && PrioritySorted(snapshot)
      requires backends == Without(snapshot, gone)
      modifies this
      ensures backends == Without(snapshot, gone + {backend})
    {
      RemoveStep(snapshot, gone, backend, backends);
      backends := RemoveValue(backends, backend);
    }

    /**
     * `put(package, version, url, handle)`: generate the cache file name and
     * offer the handle's contents to every backend.
     */
    method Put(package: string, version: string, url: Option<string>, revision: int, pythonVersion: string,
               sha1Hex: string -> string, handle: Stream, answer: (Backend, string, seq<byte>) -> PutAnswer)
      requires Valid()
      modifies this, handle
      ensures Valid()
      ensures var filename := GenerateFilename(package, version, url, revision, pythonVersion, sha1Hex);
              backends == Without(old(backends), PutRaisers(old(backends), filename, handle.data, answer))
      ensures handle.pos == if old(backends) == [] then old(handle.pos) else |handle.data|
    {
      var filename := GenerateFilename(package, version, url, revision, pythonVersion, sha1Hex);
      Store(filename, handle, answer);
    }

    /**
     * The loop of `put`: rewind the handle and offer it to every backend in
     * order; every backend that raised is removed. A backend is taken to read
     * the handle to its end before it answers, so the final position is that
     * of a read-to-the-end stream.
     */
    method Store(filename: string, handle: Stream, answer: (Backend, string, seq<byte>) -> PutAnswer)
      requires Valid()
      modifies this, handle
      ensures Valid()
      ensures backends == Without(old(backends), PutRaisers(old(backends), filename, handle.data, answer))
      ensures handle.pos == if old(backends) == [] then old(handle.pos) else |handle.data|
    {
      var snapshot := backends;
      var i := 0;
      WithoutEmpty(snapshot);
      assert snapshot[..0] == [];
      assert PutRaisers(snapshot[..0], filename, handle.data, answer) == {};
      while i < |snapshot|
        invariant 0 <= i <= |snapshot|
        invariant backends == Without(snapshot, PutRaisers(snapshot[..i], filename, handle.data, answer))
        invariant handle.pos == if i == 0 then old(handle.pos) else |handle.data|
      {
        var backend := snapshot[i];
        ghost var gone := PutRaisers(snapshot[..i], filename, handle.data, answer);
        assert snapshot[..i + 1] == snapshot[..i] + [backend];
        PutRaisersSnoc(snapshot[..i], backend, filename, handle.data, answer);
        handle.Rewind();
        var received := handle.ReadRest();
        assert received == handle.data[0..] == handle.data;
        match answer(backend, filename, received) {
        case Stored =>
          assert !answer(backend, filename, handle.data).PutRaised?;
          assert PutRaisers(snapshot[..i + 1], filename, handle.data, answer) == gone;
        case PutRaised(_) =>
          Disable(snapshot, gone, backend);
          assert backends == Without(snapshot, PutRaisers(snapshot[..i + 1], filename, handle.data, answer));
        }
        i := i + 1;
      }
      assert snapshot[..i] == snapshot;
      LiveValid(snapshot, PutRaisers(snapshot[..i], filename, handle.data, answer));
    }
  }

  /** The live list keeps the manager's invariant. */
  lemma LiveValid(snapshot: seq<Backend>, gone: set<Backend>)
    requires Distinct(snapshot) && PrioritySorted(snapshot)
    ensures Distinct(Without(snapshot, gone)) && PrioritySorted(Without(snapshot, gone))
  {
    WithoutKeepsOrder(snapshot, gone);
  }

  lemma PutRaisersSnoc(prefix: seq<Backend>, b: Backend, filename: string, data: seq<byte>,
                       answer: (Backend, string, seq<byte>) -> PutAnswer)
    ensures PutRaisers(prefix + [b], filename, data, answer)
            == PutRaisers(prefix, filename, data, answer) + (if answer(b, filename, data).PutRaised? then {b} else {})
  {
    assert (prefix + [b])[..|prefix|] == prefix;
  }

  /** Removing one more failed backend from the live list. */
  lemma RemoveStep(snapshot: seq<Backend>, gone: set<Backend>, b: Backend, live: seq<Backend>)
    requires Distinct(snapshot) && PrioritySorted(snapshot)
    requires live == Without(snapshot, gone)
    ensures RemoveValue(live, b) == Without(snapshot, gone + {b})
    ensures Distinct(RemoveValue(live, b)) && PrioritySorted(RemoveValue(live, b))
  {
    WithoutKeepsOrder(snapshot, gone);
    RemoveValueIsWithout(live, b);
    WithoutStep(snapshot, gone, b);
    WithoutKeepsOrder(snapshot, gone + {b});
  }
}
