/**
 * pip_accel/req.py: pip-accel's summary of a requirement pip has unpacked:
 * whether it is a wheel or a source distribution, which archives in the
 * source index belong to it, and how their modification times and contents
 * feed cache invalidation; plus the context manager that brackets an
 * upgrade between uninstalling the conflicting version and committing or
 * rolling back that uninstall.
 *
 * Every cached property here is a function of inputs that do not change
 * while the requirement is in use, so each is modelled as a function.
 */
module Req {
  import opened Wrappers
  import opened Text
  import opened Errors
  import opened Paths
  import opened FileSystem
  import opened Sorting
  import opened Utils

  // ---------------------------------------------------------------------
  // escape_name and the patterns built from it

  /** `escape_name_callback`, and the identity on ASCII letters and digits. */
  function EscapeChar(c: char): string
  {
    if IsAsciiAlnum(c) then [c]
    else if c == '-' || c == '_' then "[-_]"
    else ['\\', c]
  }

  /** `escape_name(name)`: `re.sub('[^A-Za-z0-9]', escape_name_callback, name)`. */
  function EscapeName(name: string): string
  {
    if name == [] then [] else EscapeChar(name[0]) + EscapeName(name[1..])
  }

  /** One single-character element of the regular expressions built here. */
  datatype Atom = Lit(c: char) | DashOrUnderscore

  /**
   * The regular expression language `escape_name` and `re.escape` produce:
   * escaped characters, the class `[-_]` and plain letters and digits.
   * Anything else is not part of this language.
   */
  function ParseEscaped(p: string): Option<seq<Atom>>
    decreases |p|
  {
    if p == [] then Some([])
    else if p[0] == '\\' && |p| >= 2 then
      (match ParseEscaped(p[2..])
       case None => None
       case Some(rest) => Some([Lit(p[1])] + rest))
    else if StartsWith(p, "[-_]") then
      (match ParseEscaped(p[4..])
       case None => None
       case Some(rest) => Some([DashOrUnderscore] + rest))
    else if IsAsciiAlnum(p[0]) then
      (match ParseEscaped(p[1..])
       case None => None
       case Some(rest) => Some([Lit(p[0])] + rest))
    else None
  }

  /** What a requirement name means as a pattern: itself, with '-' and '_' interchangeable. */
  function NameAtoms(name: string): (r: seq<Atom>)
    ensures |r| == |name|
  {
    if name == [] then []
    else [if name[0] == '-' || name[0] == '_' then DashOrUnderscore else Lit(name[0])] + NameAtoms(name[1..])
  }

  /** What `re.escape(s)` means as a pattern: `s` literally. */
  function LiteralAtoms(s: string): (r: seq<Atom>)
    ensures |r| == |s|
  {
    if s == [] then [] else [Lit(s[0])] + LiteralAtoms(s[1..])
  }

  /** Whether one atom matches one character, optionally ignoring ASCII case. */
  predicate MatchAtom(a: Atom, c: char, ignoreCase: bool)
  {
    match a
    case Lit(x) => if ignoreCase then LowerChar(x) == LowerChar(c) else x == c
    case DashOrUnderscore => c == '-' || c == '_'
  }

  /** `re.match(pattern, s)`: the atoms match a prefix of `s`. */
  predicate MatchesPrefix(atoms: seq<Atom>, s: string, ignoreCase: bool)
  {
    |atoms| <= |s| && forall i :: 0 <= i < |atoms| ==> MatchAtom(atoms[i], s[i], ignoreCase)
  }

  /** The pattern `escape_name` writes for a name is the name with '-' and '_' interchangeable. */
  lemma {:induction false} EscapeNameMeaning(name: string)
    ensures ParseEscaped(EscapeName(name)) == Some(NameAtoms(name))
    decreases |name|
  {
    if name != [] {
      EscapeNameMeaning(name[1..]);
      var c := name[0];
      var p := EscapeName(name);
      var tail := EscapeName(name[1..]);
      assert p == EscapeChar(c) + tail;
      if IsAsciiAlnum(c) {
        assert p[1..] == tail;
      } else if c == '-' || c == '_' {
        assert p[..4] == "[-_]" && p[4..] == tail;
      } else {
        assert p[2..] == tail;
      }
    }
  }

  /** A name matches itself, and any spelling that only swaps '-' and '_'. */
  lemma NameSpellings(name: string, s: string)
    requires |s| == |name|
    requires forall i :: 0 <= i < |name| ==>
               if name[i] == '-' || name[i] == '_' then s[i] == '-' || s[i] == '_' else s[i] == name[i]
    ensures MatchesPrefix(NameAtoms(name), s, false)
  {
    forall i | 0 <= i < |name| ensures MatchAtom(NameAtoms(name)[i], s[i], false) {
      NameAtomAt(name, i);
    }
  }

  lemma {:induction false} NameAtomAt(name: string, i: nat)
    requires i < |name|
    ensures NameAtoms(name)[i] == if name[i] == '-' || name[i] == '_' then DashOrUnderscore else Lit(name[i])
    decreases i
  {
    if i > 0 {
      NameAtomAt(name[1..], i - 1);
    }
  }

  lemma {:induction false} LiteralAtomAt(s: string, i: nat)
    requires i < |s|
    ensures LiteralAtoms(s)[i] == Lit(s[i])
    decreases i
  {
    if i > 0 {
      LiteralAtomAt(s[1..], i - 1);
    }
  }

  /**
   * A pattern for a name with a '-' matches the name with that '-' and with
   * a '_' in its place, as for `cached-property` and `cached_property`.
   */
  lemma DashUnderscoreSpellings(a: string, b: string)
    ensures ParseEscaped(EscapeName(a + "-" + b)) == Some(NameAtoms(a + "-" + b))
    ensures MatchesPrefix(NameAtoms(a + "-" + b), a + "-" + b, false)
    ensures MatchesPrefix(NameAtoms(a + "-" + b), a + "_" + b, false)
  {
    var name := a + "-" + b;
    EscapeNameMeaning(name);
    NameSpellings(name, name);
    var other := a + "_" + b;
    forall i | 0 <= i < |name|
      ensures if name[i] == '-' || name[i] == '_' then other[i] == '-' || other[i] == '_' else other[i] == name[i]
    {
      if i < |a| {
        assert name[i] == a[i] == other[i];
      } else if i > |a| {
        assert name[i] == b[i - |a| - 1] == other[i];
      }
    }
    NameSpellings(name, other);
  }

  /** '-' and '_' in a requirement name are interchangeable everywhere. */
  function CanonicalName(name: string): (r: string)
    ensures |r| == |name|
  {
    if name == [] then [] else [if name[0] == '_' then '-' else name[0]] + CanonicalName(name[1..])
  }

  lemma {:induction false} CanonicalAtoms(name: string)
    ensures NameAtoms(CanonicalName(name)) == NameAtoms(name)
    decreases |name|
  {
    if name != [] {
      CanonicalAtoms(name[1..]);
    }
  }

  /**
   * A file in the source index belongs to a requirement when its whole name
   * matches `^<escaped name>-<escaped version>(<extension>|...)$` ignoring
   * case, the extensions being every archive extension except `.whl`.
   */
  predicate IsRelatedArchive(name: string, version: string, extensions: seq<string>, fn: string)
  {
    exists ext :: ext in extensions && ext != ".whl"
      && |fn| == |name| + 1 + |version| + |ext|
      && MatchesPrefix(NameAtoms(name) + [Lit('-')] + LiteralAtoms(version) + LiteralAtoms(ext), fn, true)
  }

  /** An archive named exactly after the requirement belongs to it. */
  lemma ArchiveOfItself(name: string, version: string, extensions: seq<string>, ext: string)
    requires ext in extensions && ext != ".whl"
    ensures IsRelatedArchive(name, version, extensions, name + "-" + version + ext)
  {
    var fn := name + "-" + version + ext;
    var atoms := NameAtoms(name) + [Lit('-')] + LiteralAtoms(version) + LiteralAtoms(ext);
    forall i | 0 <= i < |atoms| ensures MatchAtom(atoms[i], fn[i], true) {
      if i < |name| {
        NameAtomAt(name, i);
      } else if i == |name| {
      } else if i < |name| + 1 + |version| {
        LiteralAtomAt(version, i - |name| - 1);
      } else {
        LiteralAtomAt(ext, i - |name| - 1 - |version|);
      }
    }
  }

  /** Whether a file belongs to a requirement does not depend on how its name spells '-' and '_'. */
  lemma RelatedArchiveSpelling(name: string, version: string, extensions: seq<string>, fn: string)
    ensures IsRelatedArchive(name, version, extensions, fn) <==> IsRelatedArchive(CanonicalName(name), version, extensions, fn)
  {
    CanonicalAtoms(name);
  }

  /** The names of a listing that `keep` accepts, joined to `dir`, in listing order. */
  function KeptPaths(dir: string, listing: seq<string>, keep: string -> bool): seq<string>
  {
    if listing == [] then []
    else (if keep(listing[0]) then [Join(dir, listing[0])] else []) + KeptPaths(dir, listing[1..], keep)
  }

  lemma {:induction false} KeptPathsMeaning(dir: string, listing: seq<string>, keep: string -> bool, p: string)
    ensures p in KeptPaths(dir, listing, keep) <==> exists k :: 0 <= k < |listing| && keep(listing[k]) && p == Join(dir, listing[k])
    decreases |listing|
  {
    if listing != [] {
      var tail := listing[1..];
      KeptPathsMeaning(dir, tail, keep, p);
      if exists k :: 0 <= k < |tail| && keep(tail[k]) && p == Join(dir, tail[k]) {
        var k :| 0 <= k < |tail| && keep(tail[k]) && p == Join(dir, tail[k]);
        assert listing[k + 1] == tail[k];
      }
      if exists k :: 0 <= k < |listing| && keep(listing[k]) && p == Join(dir, listing[k]) {
        var k :| 0 <= k < |listing| && keep(listing[k]) && p == Join(dir, listing[k]);
        if k > 0 {
          assert tail[k - 1] == listing[k];
        }
      }
    }
  }

  /** `related_archives`: the matching names of the listing, joined to the source index, in listing order. */
  function RelatedArchives(sourceIndex: string, listing: seq<string>, name: string, version: string,
                           extensions: seq<string>): seq<string>
  {
    KeptPaths(sourceIndex, listing, fn => IsRelatedArchive(name, version, extensions, fn))
  }

  /** Exactly the matching files of the listing are reported. */
  lemma RelatedArchivesMeaning(sourceIndex: string, listing: seq<string>, name: string,
                               version: string, extensions: seq<string>, p: string)
    ensures p in RelatedArchives(sourceIndex, listing, name, version, extensions)
            <==> exists k :: 0 <= k < |listing| && IsRelatedArchive(name, version, extensions, listing[k]) && p == Join(sourceIndex, listing[k])
  {
    KeptPathsMeaning(sourceIndex, listing, fn => IsRelatedArchive(name, version, extensions, fn), p);
  }

  // ---------------------------------------------------------------------
  // Cache invalidation inputs

  /**
   * `last_modified`: the newest modification time of the related archives,
   * or the current time when there are none.
   */
  function LastModified(mtimes: seq<int>, now: int): (r: int)
    ensures mtimes == [] ==> r == now
    ensures mtimes != [] ==> r in mtimes && forall m :: m in mtimes ==> m <= r
  {
    if mtimes == [] then now
    else if |mtimes| == 1 then mtimes[0]
    else
      var rest := LastModified(mtimes[1..], now);
      assert forall m :: m in mtimes ==> m == mtimes[0] || m in mtimes[1..];
      if mtimes[0] >= rest then mtimes[0] else rest
  }

  /** The modification times of some archives, in their order. */
  function MtimesOf(archives: seq<string>, mtime: string -> int): (r: seq<int>)
    ensures |r| == |archives|
  {
    seq(|archives|, i requires 0 <= i < |archives| => mtime(archives[i]))
  }

  /** The checksum of some archives: their contents hashed in sorted name order. */
  function ChecksumOf(files: map<string, seq<byte>>, archives: seq<string>, digest: seq<byte> -> string): string
    requires forall f :: f in archives ==> f in files
  {
    SortByFacts(archives, Identity);
    assert forall f :: f in SortStrings(archives) ==> f in multiset(archives);
    digest(Concat(FileContents(files, SortStrings(archives))))
  }

  /** The order in which the source index lists the archives does not affect their checksum. */
  lemma ChecksumOrderFree(files: map<string, seq<byte>>, a: seq<string>, b: seq<string>, digest: seq<byte> -> string)
    requires forall f :: f in a ==> f in files
    requires multiset(a) == multiset(b)
    ensures forall f :: f in b ==> f in files
    ensures ChecksumOf(files, a, digest) == ChecksumOf(files, b, digest)
  {
    assert forall f :: f in b ==> f in multiset(a);
    SortStringsOrderFree(a, b);
  }

  /** `checksum`: `hash_files('sha1', *sorted(related_archives))`. */
  method Checksum(fs: Fs, archives: seq<string>, digest: seq<byte> -> string) returns (r: Result<string, Error>)
    ensures (forall f :: f in archives ==> f in fs.files) ==> r == Ok(ChecksumOf(fs.files, archives, digest))
    ensures r.Err? ==> exists f :: f in archives && f !in fs.files
    ensures r.Ok? <==> forall f :: f in archives ==> f in fs.files
  {
    SortByFacts(archives, Identity);
    assert forall f :: f in SortStrings(archives) ==> f in multiset(archives);
    r := HashFiles(fs, SortStrings(archives), digest);
    assert forall f :: f in archives ==> f in multiset(SortStrings(archives));
    if r.Err? {
      var f :| f in SortStrings(archives) && f !in fs.files;
      assert f in multiset(SortStrings(archives));
    }
  }

  // ---------------------------------------------------------------------
  // The requirement

  /** A distribution `pkg_resources` finds in an unpacked wheel. */
  datatype Distribution = Distribution(projectName: string, version: string)

  /** What pip reports about one requirement. */
  datatype PipRequirement = PipRequirement(
    projectName: string,        // req.project_name
    sourceDir: string,          // source_dir
    comesFromRequirement: bool, // comes_from is an InstallRequirement
    editable: bool,
    pkgInfo: map<string, string>,     // pkg_info() of an unpacked source distribution
    distributions: seq<Distribution>  // find_distributions(source_dir)
  )

  /**
   * The wheel marker `*.dist-info/WHEEL`: a `WHEEL` file in a `.dist-info`
   * directory right below the source directory. `glob` skips hidden names,
   * so the directory's name may not start with a dot (and `.dist-info`
   * itself does not count).
   */
  predicate IsWheelMarker(dir: string, p: string)
  {
    var base := Join(dir, "");
    StartsWith(p, base) && EndsWith(p[|base|..], ".dist-info/WHEEL")
    && var stem := p[|base|..][..|p| - |base| - 16];
       '/' !in stem && stem != [] && stem[0] != '.'
  }

  /** A hidden `.dist-info` directory is no wheel marker, and a named one is. */
  lemma WheelMarkerGlob(dir: string, stem: string)
    requires stem != [] && stem[0] != '.' && '/' !in stem
    ensures !IsWheelMarker(dir, Join(dir, "") + ".dist-info/WHEEL")
    ensures !IsWheelMarker(dir, Join(dir, "") + "." + stem + ".dist-info/WHEEL")
    ensures IsWheelMarker(dir, Join(dir, "") + stem + ".dist-info/WHEEL")
  {
    var base := Join(dir, "");
    var hidden := base + ".dist-info/WHEEL";
    assert hidden[|base|..] == ".dist-info/WHEEL";
    assert hidden[|base|..][..|hidden| - |base| - 16] == [];
    var dotted := base + "." + stem + ".dist-info/WHEEL";
    assert dotted[|base|..] == "." + stem + ".dist-info/WHEEL";
    assert dotted[|base|..][..|dotted| - |base| - 16] == "." + stem;
    var named := base + stem + ".dist-info/WHEEL";
    assert named[|base|..] == stem + ".dist-info/WHEEL";
    assert named[|base|..][..|named| - |base| - 16] == stem;
  }

  /**
   * `is_wheel`, given the regular files and all existing paths: a wheel
   * marker without `setup.py` is a wheel, `setup.py` without a marker is a
   * source distribution, and both or neither raise UnknownDistributionFormat.
   */
  function IsWheel(r: PipRequirement, files: set<string>, existing: set<string>): (w: Result<bool, Error>)
    ensures w == Ok(true) <==> (exists p :: p in existing && IsWheelMarker(r.sourceDir, p)) && Join(r.sourceDir, "setup.py") !in files
    ensures w == Ok(false) <==> !(exists p :: p in existing && IsWheelMarker(r.sourceDir, p)) && Join(r.sourceDir, "setup.py") in files
    ensures w.Err? <==> (exists p :: p in existing && IsWheelMarker(r.sourceDir, p)) == (Join(r.sourceDir, "setup.py") in files)
    ensures w.Err? ==> w.error == UnknownDistributionFormat
  {
    var probablySdist := Join(r.sourceDir, "setup.py") in files;
    var probablyWheel := exists p :: p in existing && IsWheelMarker(r.sourceDir, p);
    if probablyWheel && !probablySdist then Ok(true)
    else if probablySdist && !probablyWheel then Ok(false)
    else Err(UnknownDistributionFormat)
  }

  /** `is_transitive`: the requirement was pulled in by another requirement. */
  function IsTransitive(r: PipRequirement): bool
  {
    r.comesFromRequirement
  }

  /** `is_direct`. */
  function IsDirect(r: PipRequirement): (d: bool)
    ensures d <==> !IsTransitive(r)
  {
    !IsTransitive(r)
  }

  /** `sdist_metadata`: refused for a wheel. */
  function SdistMetadata(r: PipRequirement, files: set<string>, existing: set<string>): Result<map<string, string>, Error>
  {
    match IsWheel(r, files, existing)
    case Err(e) => Err(e)
    case Ok(true) => Err(TypeError("Requirement is not a source distribution!"))
    case Ok(false) => Ok(r.pkgInfo)
  }

  /** `wheel_metadata`: refused for a source distribution; the first distribution found, else an error. */
  function WheelMetadata(r: PipRequirement, files: set<string>, existing: set<string>): Result<Distribution, Error>
  {
    match IsWheel(r, files, existing)
    case Err(e) => Err(e)
    case Ok(false) => Err(TypeError("Requirement is not a wheel distribution!"))
    case Ok(true) =>
      if r.distributions == [] then Err(Raised("pkg_resources didn't find a wheel distribution"))
      else Ok(r.distributions[0])
  }

  /**
   * Once the format is known, exactly one of the two metadata accessors
   * refuses with a TypeError: the one for the other format.
   */
  lemma MetadataGuards(r: PipRequirement, files: set<string>, existing: set<string>)
    requires IsWheel(r, files, existing).Ok?
    ensures SdistMetadata(r, files, existing) == Err(TypeError("Requirement is not a source distribution!"))
            <==> IsWheel(r, files, existing).value
    ensures WheelMetadata(r, files, existing) == Err(TypeError("Requirement is not a wheel distribution!"))
            <==> !IsWheel(r, files, existing).value
    ensures IsWheel(r, files, existing).value ==> SdistMetadata(r, files, existing).Err? && WheelMetadata(r, files, existing) != Err(TypeError("Requirement is not a wheel distribution!"))
    ensures !IsWheel(r, files, existing).value ==> SdistMetadata(r, files, existing) == Ok(r.pkgInfo) && WheelMetadata(r, files, existing).Err?
  {
  }

  /**
   * `version`: from the wheel's distribution or the source distribution's
   * `Version` header (None when the header is absent).
   */
  function Version(r: PipRequirement, files: set<string>, existing: set<string>): (v: Result<Option<string>, Error>)
    ensures IsWheel(r, files, existing).Err? ==> v == Err(UnknownDistributionFormat)
    ensures IsWheel(r, files, existing) == Ok(true) && r.distributions != [] ==> v == Ok(Some(r.distributions[0].version))
    ensures IsWheel(r, files, existing) == Ok(false) ==> v == Ok(if "Version" in r.pkgInfo then Some(r.pkgInfo["Version"]) else None)
  {
    match IsWheel(r, files, existing)
    case Err(e) => Err(e)
    case Ok(true) =>
      (match WheelMetadata(r, files, existing)
       case Err(e) => Err(e)
       case Ok(d) => Ok(Some(d.version)))
    case Ok(false) =>
      (match SdistMetadata(r, files, existing)
       case Err(e) => Err(e)
       case Ok(info) => Ok(if "Version" in info then Some(info["Version"]) else None))
  }

  // ---------------------------------------------------------------------
  // TransactionalUpdate

  /** What happens to the conflicting installation. */
  datatype UninstallStep = Uninstall | CommitUninstall | RollbackUninstall

  /** Uninstalls and their conclusions alternate, starting with an uninstall. */
  ghost predicate Bracketed(steps: seq<UninstallStep>)
  {
    forall i :: 0 <= i < |steps| ==> (steps[i] == Uninstall <==> i % 2 == 0)
  }

  class TransactionalUpdate {
    /** Whether pip found an installed version this requirement replaces (`conflicts_with`). */
    const conflicts: bool
    var inTransaction: bool
    /** The calls made on the pip requirement, in order. */
    var steps: seq<UninstallStep>
    /** `pip_requirement.satisfied_by` is set. */
    var satisfied: bool

    /** An open transaction is exactly an uninstall not yet committed or rolled back. */
    ghost predicate Valid()
      reads this
    {
      Bracketed(steps) && (inTransaction <==> |steps| % 2 == 1)
    }

    constructor(conflicts: bool, satisfied: bool)
      ensures Valid()
      ensures this.conflicts == conflicts && this.satisfied == satisfied
      ensures !inTransaction && steps == []
    {
      this.conflicts := conflicts;
      this.inTransaction := false;
      this.steps := [];
      this.satisfied := satisfied;
    }

    /** `__enter__`: remove the conflicting installation, if any, and open the transaction. */
    method Enter()
      requires Valid() && !inTransaction
      modifies this
      ensures Valid()
      ensures conflicts ==> inTransaction && steps == old(steps) + [Uninstall] && !satisfied
      ensures !conflicts ==> !inTransaction && steps == old(steps) && satisfied == old(satisfied)
    {
      if conflicts {
        inTransaction := true;
        steps := steps + [Uninstall];
        satisfied := false;
      }
    }

    /** `__exit__`: commit when the block raised nothing, otherwise roll back; then close the transaction. */
    method Exit(raised: bool)
      requires Valid()
      modifies this
      ensures Valid()
      ensures !inTransaction && satisfied == old(satisfied)
      ensures old(inTransaction) ==> steps == old(steps) + [if raised then RollbackUninstall else CommitUninstall]
      ensures !old(inTransaction) ==> steps == old(steps)
    {
      if inTransaction {
        steps := steps + [if raised then RollbackUninstall else CommitUninstall];
        inTransaction := false;
      }
    }
  }

  /** A whole `with TransactionalUpdate(...)` block: at most one uninstall and its conclusion. */
  method Transaction(conflicts: bool, satisfied: bool, raised: bool) returns (steps: seq<UninstallStep>)
    ensures conflicts ==> steps == [Uninstall, if raised then RollbackUninstall else CommitUninstall]
    ensures !conflicts ==> steps == []
  {
    var t := new TransactionalUpdate(conflicts, satisfied);
    t.Enter();
    t.Exit(raised);
    steps := t.steps;
  }
}
