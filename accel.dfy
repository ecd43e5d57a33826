/**
 * pip_accel/__init__.py: the pip accelerator. It rewrites the command line
 * arguments, asks pip for a requirement set (first from the local source
 * index, then from the package index with retries), filters and sorts what
 * pip reports, installs the requirements one by one and cleans up the
 * temporary directories. It also holds the small helpers that change the
 * behaviour of pip while it runs: the download log filter, attribute
 * patching and attribute overrides.
 *
 * pip itself is an input: what one `pip install` run produced (a requirement
 * set, nothing, or an exception) is a parameter, as is the outcome of each
 * installation step and of `os.path.isfile` and the MD5 digest.
 */
module Accel {
  import opened Wrappers
  import opened Text
  import opened Errors
  import opened Paths
  import opened FileSystem
  import opened Sorting
  import opened Utils
  import opened Req

  // ---------------------------------------------------------------------
  // Command line arguments

  /** `arguments_allow_wheels`: neither `--no-use-wheel` nor `--no-binary` with `:all:`. */
  predicate ArgumentsAllowWheels(arguments: seq<string>)
  {
    !("--no-use-wheel" in arguments || MatchOptionWithValue(arguments, "--no-binary", ":all:"))
  }

  /** Wheels are refused exactly when one of the two spellings of the refusal is given. */
  lemma ArgumentsAllowWheelsIff(arguments: seq<string>)
    ensures !ArgumentsAllowWheels(arguments) <==>
              "--no-use-wheel" in arguments ||
              exists i :: 0 <= i < |arguments| &&
                (arguments[i] == "--no-binary=:all:" ||
                 (i + 1 < |arguments| && arguments[i] == "--no-binary" && arguments[i + 1] == ":all:"))
  {
    assert "--no-binary" + "=" + ":all:" == "--no-binary=:all:";
    MatchOptionWithValueIff(arguments, "--no-binary", ":all:");
  }

  /** `-U` or `--upgrade` was given, possibly bundled with other short options. */
  predicate AsksUpgrade(arguments: seq<string>)
  {
    exists a :: a in arguments && MatchOption(a, "-U", "--upgrade")
  }

  /** The argument names a constraints or requirements file, so the next argument is a file name for pip to read. */
  predicate NamesListFile(arg: string)
  {
    MatchOption(arg, "-c", "--constraint") || MatchOption(arg, "-r", "--requirement")
  }

  /** `create_file_url`: a `file://` URL of the absolute path (percent-encoding is not modelled). */
  function FileUrl(pathname: string, cwd: string): string
  {
    "file://" + Abspath(pathname, cwd)
  }

  /** What `decorate_arguments` puts in place of an existing local file. */
  function HashedUrl(value: string, md5: string -> string, cwd: string): string
  {
    FileUrl(value, cwd) + "#md5=" + md5(value)
  }

  /**
   * The arguments as `decorate_arguments` leaves them. The arguments are
   * visited left to right in the copy being rewritten, so whether an argument
   * follows `-r`/`-c` is decided by the argument before it as already
   * rewritten.
   */
  function Decorated(arguments: seq<string>, isFile: string -> bool, md5: string -> string, cwd: string): (r: seq<string>)
    ensures |r| == |arguments|
  {
    Rewritten(arguments, isFile, v => HashedUrl(v, md5, cwd))
  }

  /** The arguments rewritten, where `url` is what an existing file becomes. */
  function Rewritten(arguments: seq<string>, isFile: string -> bool, url: string -> string): (r: seq<string>)
    ensures |r| == |arguments|
  {
    seq(|arguments|, i requires 0 <= i < |arguments| => RewrittenAt(arguments, isFile, url, i))
  }

  /** Argument `i` as rewritten, which depends on argument `i - 1` as rewritten. */
  function RewrittenAt(arguments: seq<string>, isFile: string -> bool, url: string -> string, i: nat): string
    requires i < |arguments|
  {
    var listed := i >= 1 && NamesListFile(RewrittenAt(arguments, isFile, url, i - 1));
    if !listed && isFile(arguments[i]) then url(arguments[i]) else arguments[i]
  }

  /** `decorate_arguments`: rewrites a copy of the arguments in place and returns it. */
  method DecorateArguments(arguments: seq<string>, isFile: string -> bool, md5: string -> string, cwd: string)
    returns (r: seq<string>)
    ensures r == Decorated(arguments, isFile, md5, cwd)
  {
    r := RewriteArguments(arguments, isFile, v => HashedUrl(v, md5, cwd));
  }

  /** The loop of `decorate_arguments`, with `url` giving the replacement of an existing file. */
  method RewriteArguments(arguments: seq<string>, isFile: string -> bool, url: string -> string)
    returns (r: seq<string>)
    ensures r == Rewritten(arguments, isFile, url)
  {
    r := arguments;
    var i := 0;
    while i < |r|
      invariant 0 <= i <= |r| == |arguments|
      invariant forall k :: 0 <= k < i ==> r[k] == RewrittenAt(arguments, isFile, url, k)
      invariant forall k :: i <= k < |r| ==> r[k] == arguments[k]
    {
      var value := r[i];
      var isConstraintFile := i >= 1 && MatchOption(r[i - 1], "-c", "--constraint");
      var isRequirementFile := i >= 1 && MatchOption(r[i - 1], "-r", "--requirement");
      if !isConstraintFile && !isRequirementFile && isFile(value) {
        r := r[i := url(value)];
      }
      i := i + 1;
    }
  }

  /** The rewritten form of an argument is a URL, which names no list file. */
  lemma HashedUrlNamesNoListFile(value: string, md5: string -> string, cwd: string)
    ensures !NamesListFile(HashedUrl(value, md5, cwd))
  {
    var u := HashedUrl(value, md5, cwd);
    assert u[0] == 'f';
    assert "--constraint"[0] == '-' && "--requirement"[0] == '-';
  }

  /**
   * What `decorate_arguments` promises: the result has the same length; only
   * existing files are rewritten, always to their hashed URL; the file name
   * after a `-r`/`-c` flag is kept (when the flag itself is not the name of
   * an existing file, which would be rewritten too); and any other existing
   * file is rewritten.
   */
  lemma DecoratedMeaning(arguments: seq<string>, isFile: string -> bool, md5: string -> string, cwd: string, i: nat)
    requires i < |arguments|
    ensures |Decorated(arguments, isFile, md5, cwd)| == |arguments|
    ensures var r := Decorated(arguments, isFile, md5, cwd);
            r[i] == arguments[i] || (isFile(arguments[i]) && r[i] == HashedUrl(arguments[i], md5, cwd))
    ensures i >= 1 && NamesListFile(arguments[i - 1]) && !isFile(arguments[i - 1]) ==>
              Decorated(arguments, isFile, md5, cwd)[i] == arguments[i]
    ensures isFile(arguments[i]) && (i == 0 || !NamesListFile(arguments[i - 1])) ==>
              Decorated(arguments, isFile, md5, cwd)[i] == HashedUrl(arguments[i], md5, cwd)
  {
    var url := v => HashedUrl(v, md5, cwd);
    if i >= 1 {
      HashedUrlNamesNoListFile(arguments[i - 1], md5, cwd);
    }
    RewrittenMeaning(arguments, isFile, url, i);
  }

  /** The same, for any replacement that names no list file. */
  lemma RewrittenMeaning(arguments: seq<string>, isFile: string -> bool, url: string -> string, i: nat)
    requires i < |arguments|
    requires i >= 1 ==> !NamesListFile(url(arguments[i - 1]))
    ensures var r := Rewritten(arguments, isFile, url);
            (r[i] == arguments[i] || (isFile(arguments[i]) && r[i] == url(arguments[i])))
            && (i >= 1 && NamesListFile(arguments[i - 1]) && !isFile(arguments[i - 1]) ==> r[i] == arguments[i])
            && (isFile(arguments[i]) && (i == 0 || !NamesListFile(arguments[i - 1])) ==> r[i] == url(arguments[i]))
  {
    if i >= 1 {
      var prev := RewrittenAt(arguments, isFile, url, i - 1);
      assert prev == arguments[i - 1] || prev == url(arguments[i - 1]);
      assert !isFile(arguments[i - 1]) ==> prev == arguments[i - 1];
    }
  }

  /** Without local files on the command line nothing is rewritten. */
  lemma DecoratedWithoutFiles(arguments: seq<string>, isFile: string -> bool, md5: string -> string, cwd: string)
    requires forall k :: 0 <= k < |arguments| ==> !isFile(arguments[k])
    ensures Decorated(arguments, isFile, md5, cwd) == arguments
  {
    var r := Decorated(arguments, isFile, md5, cwd);
    forall k | 0 <= k < |arguments| ensures r[k] == arguments[k] {
      assert r[k] == RewrittenAt(arguments, isFile, v => HashedUrl(v, md5, cwd), k);
    }
  }

  // ---------------------------------------------------------------------
  // The pip command line

  /**
   * The command line `get_pip_requirement_set` gives to `pip install`: the
   * download and find-links options for the source index, `--no-binary=:all:`
   * unless wheels are allowed, `--no-index` when the package index may not be
   * used, `--no-clean`, the build directory, and then the user's arguments.
   */
  function PipCommandLine(sourceIndex: string, cwd: string, buildDirectory: string, arguments: seq<string>,
                          useRemoteIndex: bool, useWheels: bool): seq<string>
  {
    PipOptions(sourceIndex, FileUrl(sourceIndex, cwd), buildDirectory,
               !useWheels && ArgumentsAllowWheels(arguments), !useRemoteIndex)
    + arguments
  }

  /** The options pip-accel puts before the user's arguments. */
  function PipOptions(sourceIndex: string, findLinks: string, buildDirectory: string, noBinary: bool, noIndex: bool): seq<string>
  {
    ["--download=" + sourceIndex, "--find-links=" + findLinks]
    + (if noBinary then ["--no-binary=:all:"] else [])
    + (if noIndex then ["--no-index"] else [])
    + ["--no-clean", "--build-directory=" + buildDirectory]
  }

  /** The options pip-accel adds come first and the user's arguments follow unchanged. */
  lemma PipCommandLineMeaning(sourceIndex: string, cwd: string, buildDirectory: string, arguments: seq<string>,
                              useRemoteIndex: bool, useWheels: bool)
    ensures var c := PipCommandLine(sourceIndex, cwd, buildDirectory, arguments, useRemoteIndex, useWheels);
            var k := |c| - |arguments|;
            4 <= k <= 6 && c[k..] == arguments
            && c[0] == "--download=" + sourceIndex
            && c[k - 2] == "--no-clean" && c[k - 1] == "--build-directory=" + buildDirectory
            && ("--no-index" in c[..k] <==> !useRemoteIndex)
            && ("--no-binary=:all:" in c[..k] <==> !useWheels && ArgumentsAllowWheels(arguments))
  {
    var noBinary := !useWheels && ArgumentsAllowWheels(arguments);
    var o := PipOptions(sourceIndex, FileUrl(sourceIndex, cwd), buildDirectory, noBinary, !useRemoteIndex);
    PipOptionsShape(sourceIndex, FileUrl(sourceIndex, cwd), buildDirectory, noBinary, !useRemoteIndex);
    var c := o + arguments;
    assert c[..|o|] == o && c[|o|..] == arguments;
    assert c[0] == o[0] && c[|o| - 2] == o[|o| - 2] && c[|o| - 1] == o[|o| - 1];
  }

  lemma PipOptionsShape(sourceIndex: string, findLinks: string, buildDirectory: string, noBinary: bool, noIndex: bool)
    ensures var o := PipOptions(sourceIndex, findLinks, buildDirectory, noBinary, noIndex);
            4 <= |o| <= 6
            && o[0] == "--download=" + sourceIndex
            && o[|o| - 2] == "--no-clean" && o[|o| - 1] == "--build-directory=" + buildDirectory
            && ("--no-index" in o <==> noIndex)
            && ("--no-binary=:all:" in o <==> noBinary)
  {
    // The fixed options differ from each other in their third character.
    assert ("--download=" + sourceIndex)[2] == 'd' && ("--find-links=" + findLinks)[2] == 'f';
    assert ("--build-directory=" + buildDirectory)[2] == 'b';
    assert "--no-index"[5] == 'i' && "--no-binary=:all:"[5] == 'b' && "--no-clean"[5] == 'c';
  }

  // ---------------------------------------------------------------------
  // The requirement set reported by pip

  /** One requirement in pip's requirement set, in the set's order. */
  datatype PipEntry = PipEntry(requirement: PipRequirement, satisfiedBy: bool, constraint: bool)

  /** Requirements that are neither installed already nor only constraints are reported. */
  predicate Reported(e: PipEntry)
  {
    !e.satisfiedBy && !e.constraint
  }

  /** The filtering loop of `transform_pip_requirement_set`, keeping the order. */
  function Kept(entries: seq<PipEntry>): (r: seq<PipEntry>)
    ensures forall e :: e in r <==> e in entries && Reported(e)
    ensures |r| <= |entries|
  {
    KeptMembers(entries, |entries|);
    KeptUpTo(entries, |entries|)
  }

  /** The requirements kept among the first `k` entries. */
  function KeptUpTo(entries: seq<PipEntry>, k: nat): (r: seq<PipEntry>)
    requires k <= |entries|
    ensures |r| <= k
  {
    if k == 0 then []
    else KeptUpTo(entries, k - 1) + (if Reported(entries[k - 1]) then [entries[k - 1]] else [])
  }

  lemma {:induction false} KeptMembers(entries: seq<PipEntry>, k: nat)
    requires k <= |entries|
    ensures forall e :: e in KeptUpTo(entries, k) <==> Reported(e) && exists i :: 0 <= i < k && entries[i] == e
  {
    if k > 0 {
      KeptMembers(entries, k - 1);
    }
  }

  /** The sort key: the requirement's name, lowercased. */
  function NameKey(r: PipRequirement): string
  {
    Lower(r.projectName)
  }

  function Wrapped(entries: seq<PipEntry>): (r: seq<PipRequirement>)
  {
    seq(|entries|, i requires 0 <= i < |entries| => entries[i].requirement)
  }

  /** What `transform_pip_requirement_set` returns. */
  function Transformed(entries: seq<PipEntry>): seq<PipRequirement>
  {
    SortBy(Wrapped(Kept(entries)), NameKey)
  }

  /**
   * The returned list holds exactly the reported requirements, each as often
   * as pip listed it, ordered by lowercased name.
   */
  lemma TransformedFacts(entries: seq<PipEntry>)
    ensures SortedBy(Transformed(entries), NameKey)
    ensures multiset(Transformed(entries)) == multiset(Wrapped(Kept(entries)))
    ensures forall x :: x in Transformed(entries) <==> exists e :: e in entries && Reported(e) && e.requirement == x
  {
    var k := Kept(entries);
    var w := Wrapped(k);
    SortByFacts(w, NameKey);
    var t := Transformed(entries);
    WrappedMembers(k);
    forall x ensures x in t <==> x in w {
      assert x in t <==> x in multiset(t);
      assert x in w <==> x in multiset(w);
    }
  }

  lemma WrappedMembers(k: seq<PipEntry>)
    ensures forall x :: x in Wrapped(k) <==> exists e :: e in k && e.requirement == x
  {
    var w := Wrapped(k);
    forall x ensures x in w <==> exists e :: e in k && e.requirement == x {
      if x in w {
        var i :| 0 <= i < |w| && w[i] == x;
        assert k[i] in k;
      }
      if exists e :: e in k && e.requirement == x {
        var e :| e in k && e.requirement == x;
        var i :| 0 <= i < |k| && k[i] == e;
        assert w[i] == x;
      }
    }
  }

  /** What one `pip install` run amounts to: pip's exception, NothingToDoError when pip made no requirement set, or the transformed set. */
  function PipOutcome(run: Result<Option<seq<PipEntry>>, Error>): Result<seq<PipRequirement>, Error>
  {
    match run
    case Err(e) => Err(e)
    case Ok(None) => Err(NothingToDoError)
    case Ok(Some(entries)) => Ok(Transformed(entries))
  }

  // ---------------------------------------------------------------------
  // Retrying downloads

  /**
   * The download loop of `get_requirements`, from attempt `from` on, with
   * `count` attempts in all: the first attempt that succeeds, or the last
   * attempt's exception; exceptions of earlier attempts are only logged.
   * With no attempts at all the method falls off its end and returns None.
   */
  function Attempted<T>(attempt: nat -> Result<T, Error>, from: nat, count: int): Result<Option<T>, Error>
    decreases count - from
  {
    if count <= from then Ok(None)
    else match attempt(from)
      case Ok(x) => Ok(Some(x))
      case Err(e) => if from + 1 < count then Attempted(attempt, from + 1, count) else Err(e)
  }

  /**
   * At most `count` attempts are made. The first success is returned; the
   * exception of the last attempt is raised when every attempt failed; and
   * nothing is returned only when no attempt was allowed.
   */
  lemma {:induction false} AttemptedFacts<T>(attempt: nat -> Result<T, Error>, from: nat, count: int)
    ensures Attempted(attempt, from, count) == Ok(None) <==> count <= from
    ensures Attempted(attempt, from, count).Err? <==> from < count && forall k :: from <= k < count ==> attempt(k).Err?
    ensures Attempted(attempt, from, count).Err? ==>
              count >= 1 && Attempted(attempt, from, count).error == attempt(count - 1).error
    ensures Attempted(attempt, from, count).Ok? && Attempted(attempt, from, count).value.Some? ==>
              exists k :: from <= k < count && attempt(k) == Ok(Attempted(attempt, from, count).value.value)
                          && forall j :: from <= j < k ==> attempt(j).Err?
    decreases count - from
  {
    if count > from && attempt(from).Err? && from + 1 < count {
      AttemptedFacts(attempt, from + 1, count);
      var r := Attempted(attempt, from, count);
      if r.Ok? && r.value.Some? {
        var k :| from + 1 <= k < count && attempt(k) == Ok(r.value.value) && forall j :: from + 1 <= j < k ==> attempt(j).Err?;
        assert forall j :: from <= j < k ==> attempt(j).Err?;
      }
      if forall k :: from + 1 <= k < count ==> attempt(k).Err? {
        assert forall k :: from <= k < count ==> attempt(k).Err?;
      }
    } else if count > from && attempt(from).Ok? {
      assert !attempt(from).Err?;
    }
  }

  lemma AttemptedStep<T>(attempt: nat -> Result<T, Error>, i: nat, count: int)
    requires i < count
    ensures attempt(i).Ok? ==> Attempted(attempt, i, count) == Ok(Some(attempt(i).value))
    ensures attempt(i).Err? && i + 1 >= count ==> Attempted(attempt, i, count) == Err(attempt(i).error)
    ensures attempt(i).Err? && i + 1 < count ==> Attempted(attempt, i, count) == Attempted(attempt, i + 1, count)
  {
  }

  /** One download attempt: pip's run `k`, transformed. */
  function DownloadAttempts(download: nat -> Result<Option<seq<PipEntry>>, Error>): nat -> Result<seq<PipRequirement>, Error>
  {
    (k: nat) => PipOutcome(download(k))
  }

  /**
   * What `get_requirements` returns for the (decorated) arguments. Without
   * `-U`/`--upgrade` the local source index is tried first, and its result is
   * returned unless pip raised DistributionNotFound. Then the downloads are
   * attempted `max_retries` times, the configured number when the caller gave
   * none; a configured None makes `range(None)` raise TypeError.
   */
  function RequirementsOutcome(arguments: seq<string>, maxRetries: Option<int>, configured: Option<int>,
                               unpack: Result<Option<seq<PipEntry>>, Error>,
                               download: nat -> Result<Option<seq<PipEntry>>, Error>): Result<Option<seq<PipRequirement>>, Error>
  {
    var local := PipOutcome(unpack);
    if !AsksUpgrade(arguments) && local.Ok? then Ok(Some(local.value))
    else if !AsksUpgrade(arguments) && local.Err? && local.error != DistributionNotFound then Err(local.error)
    else
      var limit := if maxRetries.Some? then maxRetries else configured;
      if limit.None? then Err(TypeError("range() of None"))
      else Attempted(DownloadAttempts(download), 0, limit.value)
  }

  /** A local source index that has everything keeps pip away from the package index: the downloads play no part. */
  lemma LocalIndexSuffices(arguments: seq<string>, maxRetries: Option<int>, configured: Option<int>,
                           entries: seq<PipEntry>, download: nat -> Result<Option<seq<PipEntry>>, Error>,
                           download': nat -> Result<Option<seq<PipEntry>>, Error>)
    requires !AsksUpgrade(arguments)
    ensures RequirementsOutcome(arguments, maxRetries, configured, Ok(Some(entries)), download) == Ok(Some(Transformed(entries)))
    ensures RequirementsOutcome(arguments, maxRetries, configured, Ok(Some(entries)), download) ==
            RequirementsOutcome(arguments, maxRetries, configured, Ok(Some(entries)), download')
  {
  }

  /**
   * When the downloads are reached with `n` attempts allowed, the requirements
   * come from the first successful pip run among the first `n`, and the
   * exception of run `n - 1` is raised when all of them failed.
   */
  lemma DownloadsRetried(arguments: seq<string>, maxRetries: Option<int>, configured: Option<int>,
                         unpack: Result<Option<seq<PipEntry>>, Error>,
                         download: nat -> Result<Option<seq<PipEntry>>, Error>, n: int)
    requires AsksUpgrade(arguments) || unpack == Err(DistributionNotFound)
    requires (if maxRetries.Some? then maxRetries else configured) == Some(n)
    ensures var r := RequirementsOutcome(arguments, maxRetries, configured, unpack, download);
            (r == Ok(None) <==> n <= 0)
            && (r.Err? <==> n >= 1 && forall k :: 0 <= k < n ==> PipOutcome(download(k)).Err?)
            && (r.Err? ==> r.error == PipOutcome(download(n - 1)).error)
            && (r.Ok? && r.value.Some? ==>
                  exists k :: 0 <= k < n && PipOutcome(download(k)) == Ok(r.value.value)
                              && forall j :: 0 <= j < k ==> PipOutcome(download(j)).Err?)
  {
    var a := DownloadAttempts(download);
    AttemptedFacts(a, 0, n);
    assert forall k: nat :: a(k) == PipOutcome(download(k));
  }

  // ---------------------------------------------------------------------
  // The accelerator's temporary directories

  /** `mkdtemp` puts each build directory right below the temporary directory. */
  predicate InTemp(d: string, root: string)
  {
    Dirname(d) == root && d != root
  }

  /** A build directory is neither empty nor the root, and removing it leaves the temporary directory. */
  lemma InTempSafe(d: string, root: string)
    requires InTemp(d, root)
    ensures d != "" && d != "/" && !InTree(root, d)
  {
    assert Dirname("") == "";
    assert LastSlash("/") == 0 && "/"[..1] == "/" && AllSlashes("/");
  }

  /** Removing the trees below `roots` keeps a path outside all of them. */
  predicate Survives(p: string, roots: seq<string>)
  {
    forall k :: 0 <= k < |roots| ==> !InTree(p, roots[k])
  }

  lemma SurvivesStep(p: string, roots: seq<string>, n: nat)
    requires 0 < n <= |roots|
    ensures Survives(p, roots[n - 1..]) <==> Survives(p, roots[n..]) && !InTree(p, roots[n - 1])
  {
    assert roots[n - 1..] == [roots[n - 1]] + roots[n..];
  }

  class PipAccelerator {
    const fs: Fs
    /** The directory `mkdtemp` creates build directories in. */
    const tempRoot: string
    var buildDirectories: seq<string>
    /** pip's requirement objects that were reported, so that their temporary sources can be removed. */
    var reportedRequirements: seq<PipEntry>
    /** The `.eggs` links created while pip ran `egg_info`. */
    var eggsLinks: seq<string>
    /** The requirements whose `remove_temporary_source` was called. */
    var removedSources: seq<PipEntry>
    var environment: map<string, string>

    ghost predicate Valid()
      reads this, fs
    {
      fs.Valid() && tempRoot in fs.dirs &&
      forall k :: 0 <= k < |buildDirectories| ==> InTemp(buildDirectories[k], tempRoot)
    }

    /** There is a build directory and it is a directory, so clearing it succeeds. */
    ghost predicate Ready()
      reads this, fs
    {
      Valid() && buildDirectories != [] && Current() in fs.dirs && Current() !in fs.links
    }

    /** The current build directory. */
    function Current(): string
      reads this
      requires buildDirectories != []
    {
      buildDirectories[|buildDirectories| - 1]
    }

    /** A name `mkdtemp` may pick: below the temporary directory and not in use. */
    predicate FreshBuildDirectory(d: string)
      reads this, fs
    {
      InTemp(d, tempRoot) && !fs.Exists(d)
    }

    /** The lists the accelerator starts with (after the environment checks and directory set-up, which are not modelled). */
    constructor(fs: Fs, tempRoot: string, environment: map<string, string>)
      requires fs.Valid() && tempRoot in fs.dirs
      ensures Valid()
      ensures this.fs == fs && this.tempRoot == tempRoot && this.environment == environment
      ensures buildDirectories == [] && reportedRequirements == [] && eggsLinks == [] && removedSources == []
    {
      this.fs := fs;
      this.tempRoot := tempRoot;
      this.environment := environment;
      buildDirectories := [];
      reportedRequirements := [];
      eggsLinks := [];
      removedSources := [];
    }

    /** `create_build_directory`: `mkdtemp` makes the new directory `newDir`, which becomes the current build directory. */
    method CreateBuildDirectory(newDir: string)
      requires Valid() && FreshBuildDirectory(newDir)
      modifies this, fs
      ensures Valid()
      ensures buildDirectories == old(buildDirectories) + [newDir]
      ensures fs.dirs == old(fs.dirs) + {newDir}
      ensures fs.files == old(fs.files) && fs.links == old(fs.links) && fs.modes == old(fs.modes)
      ensures reportedRequirements == old(reportedRequirements) && eggsLinks == old(eggsLinks)
      ensures removedSources == old(removedSources) && environment == old(environment)
    {
      InTempSafe(newDir, tempRoot);
      var made := fs.Mkdir(newDir);
      buildDirectories := buildDirectories + [newDir];
    }

    /** The `build_directory` property: the newest build directory, made first when there is none. */
    method BuildDirectory(newDir: string) returns (d: string)
      requires Valid() && (buildDirectories == [] ==> FreshBuildDirectory(newDir))
      modifies this, fs
      ensures Valid()
      ensures buildDirectories != [] && d == buildDirectories[|buildDirectories| - 1]
      ensures old(buildDirectories) != [] ==> buildDirectories == old(buildDirectories) && fs.dirs == old(fs.dirs)
      ensures old(buildDirectories) == [] ==> buildDirectories == [newDir] && fs.dirs == old(fs.dirs) + {newDir}
      ensures fs.files == old(fs.files) && fs.links == old(fs.links) && fs.modes == old(fs.modes)
      ensures reportedRequirements == old(reportedRequirements) && eggsLinks == old(eggsLinks)
      ensures removedSources == old(removedSources) && environment == old(environment)
    {
      if buildDirectories == [] {
        CreateBuildDirectory(newDir);
      }
      d := buildDirectories[|buildDirectories| - 1];
    }

    /**
     * `clear_build_directory`: `os.stat` the build directory (which raises
     * when it does not exist), remove its tree (`rmtree` refuses a symbolic
     * link and a file) and make it again, empty.
     */
    method ClearBuildDirectory(newDir: string) returns (r: Result<(), Error>)
      requires Valid() && (buildDirectories == [] ==> FreshBuildDirectory(newDir))
      modifies this, fs
      ensures Valid() && buildDirectories != []
      ensures old(buildDirectories) != [] ==> buildDirectories == old(buildDirectories)
      ensures old(buildDirectories) == [] ==> buildDirectories == [newDir]
      ensures old(buildDirectories == [] || Ready()) ==>
                r == Ok(()) && Ready()
                && fs.files == map p | p in old(fs.files) && !InTree(p, Current()) :: old(fs.files)[p]
      ensures fs.links == old(fs.links)
      ensures reportedRequirements == old(reportedRequirements) && eggsLinks == old(eggsLinks)
      ensures removedSources == old(removedSources) && environment == old(environment)
    {
      var d := BuildDirectory(newDir);
      if d in fs.links {
        return Err(Raised("Cannot call rmtree on a symbolic link"));
      }
      if d !in fs.dirs {
        return Err(OsError(if d in fs.files then ENOTDIR else ENOENT));
      }
      InTempSafe(d, tempRoot);
      fs.RemoveTree(d);
      r := fs.Mkdir(d);
    }

    /**
     * `transform_pip_requirement_set`: keep the reported requirements,
     * remember them for the clean-up, and return them sorted by name.
     */
    method TransformPipRequirementSet(entries: seq<PipEntry>) returns (r: seq<PipRequirement>)
      modifies this
      ensures reportedRequirements == old(reportedRequirements) + Kept(entries)
      ensures r == Transformed(entries)
      ensures buildDirectories == old(buildDirectories) && eggsLinks == old(eggsLinks)
      ensures removedSources == old(removedSources) && environment == old(environment)
    {
      var filtered := [];
      var i := 0;
      while i < |entries|
        invariant 0 <= i <= |entries|
        invariant filtered == KeptUpTo(entries, i)
        invariant reportedRequirements == old(reportedRequirements) + filtered
        invariant buildDirectories == old(buildDirectories) && eggsLinks == old(eggsLinks)
        invariant removedSources == old(removedSources) && environment == old(environment)
      {
        var requirement := entries[i];
        if !requirement.satisfiedBy && !requirement.constraint {
          filtered := filtered + [requirement];
          reportedRequirements := reportedRequirements + [requirement];
        }
        i := i + 1;
      }
      r := SortBy(Wrapped(filtered), NameKey);
    }

    /**
     * `get_pip_requirement_set`: compose the pip command line, clear the
     * build directory, default `$PIP_EXISTS_ACTION` to `w`, and turn what the
     * pip run produced (`run`) into the result.
     */
    method GetPipRequirementSet(arguments: seq<string>, useRemoteIndex: bool, useWheels: bool,
                                sourceIndex: string, cwd: string, newDir: string,
                                run: Result<Option<seq<PipEntry>>, Error>)
      returns (r: Result<seq<PipRequirement>, Error>, commandLine: seq<string>)
      requires Valid() && (buildDirectories == [] ==> FreshBuildDirectory(newDir))
      modifies this, fs
      ensures Valid() && buildDirectories == if old(buildDirectories) == [] then [newDir] else old(buildDirectories)
      ensures commandLine == PipCommandLine(sourceIndex, cwd, Current(), arguments, useRemoteIndex, useWheels)
      ensures fs.links == old(fs.links)
      ensures old(buildDirectories == [] || Ready()) ==>
                Ready() && r == PipOutcome(run)
                && environment == (if "PIP_EXISTS_ACTION" in old(environment) then old(environment)
                                   else old(environment)["PIP_EXISTS_ACTION" := "w"])
                && reportedRequirements == old(reportedRequirements) + (if run.Ok? && run.value.Some? then Kept(run.value.value) else [])
      ensures eggsLinks == old(eggsLinks) && removedSources == old(removedSources)
    {
      var d := BuildDirectory(newDir);
      commandLine := PipCommandLine(sourceIndex, cwd, d, arguments, useRemoteIndex, useWheels);
      var cleared := ClearBuildDirectory(newDir);
      if cleared.Err? {
        return Err(cleared.error), commandLine;
      }
      r := RunPip(run);
    }

    /** The rest of `get_pip_requirement_set` once the build directory is clear: pip runs and its requirement set is transformed. */
    method RunPip(run: Result<Option<seq<PipEntry>>, Error>) returns (r: Result<seq<PipRequirement>, Error>)
      modifies this
      ensures r == PipOutcome(run)
      ensures environment == (if "PIP_EXISTS_ACTION" in old(environment) then old(environment)
                              else old(environment)["PIP_EXISTS_ACTION" := "w"])
      ensures reportedRequirements == old(reportedRequirements) + (if run.Ok? && run.value.Some? then Kept(run.value.value) else [])
      ensures buildDirectories == old(buildDirectories) && eggsLinks == old(eggsLinks) && removedSources == old(removedSources)
    {
      if "PIP_EXISTS_ACTION" !in environment {
        environment := environment["PIP_EXISTS_ACTION" := "w"];
      }
      match run {
        case Err(e) =>
          r := Err(e);
        case Ok(None) =>
          r := Err(NothingToDoError);
        case Ok(Some(entries)) =>
          var requirements := TransformPipRequirementSet(entries);
          r := Ok(requirements);
      }
    }

    /**
     * The download loop of `get_requirements`: up to `n` pip runs against the
     * package index, where `download(i)` is what run `i` produced.
     */
    method DownloadWithRetries(arguments: seq<string>, n: int, useWheels: bool, sourceIndex: string, cwd: string,
                               download: nat -> Result<Option<seq<PipEntry>>, Error>)
      returns (r: Result<Option<seq<PipRequirement>>, Error>)
      requires Ready()
      modifies this, fs
      ensures Ready() && buildDirectories == old(buildDirectories)
      ensures r == Attempted(DownloadAttempts(download), 0, n)
      ensures eggsLinks == old(eggsLinks) && removedSources == old(removedSources)
    {
      ghost var attempts := DownloadAttempts(download);
      assert forall k: nat :: attempts(k) == PipOutcome(download(k));
      var i := 0;
      while i < n
        invariant Ready() && buildDirectories == old(buildDirectories)
        invariant 0 <= i && (i == 0 || i < n)
        invariant Attempted(attempts, 0, n) == Attempted(attempts, i, n)
        invariant eggsLinks == old(eggsLinks) && removedSources == old(removedSources)
      {
        var outcome, _ := GetPipRequirementSet(arguments, true, useWheels, sourceIndex, cwd, "", download(i));
        if outcome.Ok? {
          AttemptedStep(attempts, i, n);
          return Ok(Some(outcome.value));
        }
        if i + 1 >= n {
          AttemptedStep(attempts, i, n);
          return Err(outcome.error);
        }
        AttemptedStep(attempts, i, n);
        i := i + 1;
      }
      return Ok(None);
    }

    /**
     * `get_requirements`, with the arguments decorated and a new build
     * directory `newDir` for the run. `unpack` is what pip produced from the
     * local source index and `download(i)` what download attempt `i` produced.
     */
    method GetRequirements(arguments: seq<string>, maxRetries: Option<int>, configured: Option<int>, useWheels: bool,
                           isFile: string -> bool, md5: string -> string, cwd: string, sourceIndex: string, newDir: string,
                           unpack: Result<Option<seq<PipEntry>>, Error>,
                           download: nat -> Result<Option<seq<PipEntry>>, Error>)
      returns (r: Result<Option<seq<PipRequirement>>, Error>)
      requires Valid() && FreshBuildDirectory(newDir)
      modifies this, fs
      ensures Valid()
      ensures buildDirectories == old(buildDirectories) + [newDir]
      ensures r == RequirementsOutcome(Decorated(arguments, isFile, md5, cwd), maxRetries, configured, unpack, download)
      ensures eggsLinks == old(eggsLinks) && removedSources == old(removedSources)
    {
      var decorated := DecorateArguments(arguments, isFile, md5, cwd);
      CreateBuildDirectory(newDir);
      if !AsksUpgrade(decorated) {
        var local, _ := GetPipRequirementSet(decorated, false, useWheels, sourceIndex, cwd, newDir, unpack);
        assert local == PipOutcome(unpack);
        if local.Ok? {
          return Ok(Some(local.value));
        }
        if local.error != DistributionNotFound {
          return Err(local.error);
        }
      }
      var limit := if maxRetries.Some? then maxRetries else configured;
      if limit.None? {
        return Err(TypeError("range() of None"));
      }
      r := DownloadWithRetries(decorated, limit.value, useWheels, sourceIndex, cwd, download);
    }

    /** What SetupRequiresPatch does before `egg_info`: link `.eggs` in the source directory and remember the link; a failure is ignored. */
    method CreateEggsLink(sourceDir: string) returns (link: string)
      requires Valid()
      modifies this, fs
      ensures Valid()
      ensures link == Join(sourceDir, ".eggs")
      ensures fs.files == old(fs.files) && fs.dirs == old(fs.dirs) && fs.modes == old(fs.modes)
      ensures var created := !old(fs.Exists(link)) && link != "" && old(fs.ParentExists(link));
              fs.links == old(fs.links) + (if created then {link} else {})
              && eggsLinks == old(eggsLinks) + (if created then [link] else [])
      ensures buildDirectories == old(buildDirectories) && reportedRequirements == old(reportedRequirements)
      ensures removedSources == old(removedSources) && environment == old(environment)
    {
      link := Join(sourceDir, ".eggs");
      var made := fs.Symlink(link);
      if made.Ok? {
        eggsLinks := eggsLinks + [link];
      }
    }

    /**
     * `cleanup_temporary_directories`: remove every build directory (newest
     * first), have pip remove the temporary sources of the reported
     * requirements, and unlink the `.eggs` links that still are links.
     */
    method CleanupTemporaryDirectories()
      requires Valid()
      modifies this, fs
      ensures Valid()
      ensures buildDirectories == [] && eggsLinks == []
      ensures fs.files == map p | p in old(fs.files) && Survives(p, old(buildDirectories)) :: old(fs.files)[p]
      ensures fs.dirs == set p | p in old(fs.dirs) && Survives(p, old(buildDirectories))
      ensures forall l :: l in fs.links <==> l in old(fs.links) && l !in old(eggsLinks)
      ensures removedSources == old(removedSources) + reportedRequirements
      ensures reportedRequirements == old(reportedRequirements) && environment == old(environment)
    {
      RemoveBuildDirectories();
      // remove_temporary_source() of each reported requirement, in order
      removedSources := removedSources + reportedRequirements;
      UnlinkEggsLinks();
    }

    /** The first loop of the clean-up: pop and remove the build directories. */
    method RemoveBuildDirectories()
      requires Valid()
      modifies this, fs
      ensures Valid() && buildDirectories == []
      ensures fs.files == map p | p in old(fs.files) && Survives(p, old(buildDirectories)) :: old(fs.files)[p]
      ensures fs.dirs == set p | p in old(fs.dirs) && Survives(p, old(buildDirectories))
      ensures fs.links == old(fs.links) && eggsLinks == old(eggsLinks)
      ensures reportedRequirements == old(reportedRequirements) && removedSources == old(removedSources)
      ensures environment == old(environment)
    {
      ghost var roots := buildDirectories;
      while buildDirectories != []
        invariant Valid()
        invariant |buildDirectories| <= |roots| && buildDirectories == roots[..|buildDirectories|]
        invariant fs.files == map p | p in old(fs.files) && Survives(p, roots[|buildDirectories|..]) :: old(fs.files)[p]
        invariant fs.dirs == set p | p in old(fs.dirs) && Survives(p, roots[|buildDirectories|..])
        invariant fs.links == old(fs.links) && eggsLinks == old(eggsLinks)
        invariant reportedRequirements == old(reportedRequirements) && removedSources == old(removedSources)
        invariant environment == old(environment)
        decreases |buildDirectories|
      {
        var n := |buildDirectories|;
        var d := buildDirectories[n - 1];
        InTempSafe(d, tempRoot);
        buildDirectories := buildDirectories[..n - 1];
        fs.RemoveTree(d);
        assert roots[..n][n - 1] == d && roots[..n][..n - 1] == roots[..n - 1];
        forall p ensures Survives(p, roots[n - 1..]) <==> Survives(p, roots[n..]) && !InTree(p, d) {
          SurvivesStep(p, roots, n);
        }
      }
      assert roots[|buildDirectories|..] == roots;
    }

    /** The last loop of the clean-up: pop the `.eggs` links and unlink those that still are links. */
    method UnlinkEggsLinks()
      requires Valid()
      modifies this, fs
      ensures Valid() && eggsLinks == []
      ensures forall l :: l in fs.links <==> l in old(fs.links) && l !in old(eggsLinks)
      ensures fs.files == old(fs.files) && fs.dirs == old(fs.dirs)
      ensures buildDirectories == old(buildDirectories) && reportedRequirements == old(reportedRequirements)
      ensures removedSources == old(removedSources) && environment == old(environment)
    {
      ghost var links := eggsLinks;
      while eggsLinks != []
        invariant Valid()
        invariant |eggsLinks| <= |links| && eggsLinks == links[..|eggsLinks|]
        invariant forall l :: l in fs.links <==> l in old(fs.links) && l !in links[|eggsLinks|..]
        invariant fs.files == old(fs.files) && fs.dirs == old(fs.dirs)
        invariant buildDirectories == old(buildDirectories) && reportedRequirements == old(reportedRequirements)
        invariant removedSources == old(removedSources) && environment == old(environment)
        decreases |eggsLinks|
      {
        var n := |eggsLinks|;
        var link := eggsLinks[n - 1];
        eggsLinks := eggsLinks[..n - 1];
        if link in fs.links {
          fs.Unlink(link);
        }
        assert links[n - 1..] == [link] + links[n..];
        assert links[..n][..n - 1] == links[..n - 1];
      }
      assert links[|eggsLinks|..] == links;
    }
  }

  // ---------------------------------------------------------------------
  // Installing the requirements

  /**
   * A requirement as `install_requirements` sees it: its name, whether it is
   * editable, and what its `is_wheel` property gives (it raises for an
   * unknown distribution format; being cached, it gives the same each time).
   */
  datatype Candidate = Candidate(name: string, editable: bool, wheel: Result<bool, Error>)

  /** The pip-accel requirement built from pip's, with `is_wheel` judged from the files of its source directory. */
  function CandidateOf(r: PipRequirement, files: set<string>, existing: set<string>): Candidate
  {
    Candidate(r.projectName, r.editable, IsWheel(r, files, existing))
  }

  /** What is done for one requirement, in order. */
  datatype InstallStep =
    | UninstallDistribute                                  // uninstall('distribute')
    | InstallEditable(name: string)                        // pip install --no-deps --editable
    | InstallWheel(name: string)                           // move_wheel_files
    | InstallBinary(name: string, trackInstalledFiles: bool) // get_binary_dist and install_binary_dist

  /** `any(...)` over the requirements, evaluating `is_wheel` until one gives `wanted`; an exception ends it. */
  function AnyWheel(cs: seq<Candidate>, wanted: bool): Result<bool, Error>
  {
    AnyWheelFrom(cs, 0, wanted)
  }

  /** The same scan, from requirement `k` on. */
  function AnyWheelFrom(cs: seq<Candidate>, k: nat, wanted: bool): Result<bool, Error>
    requires k <= |cs|
    decreases |cs| - k
  {
    if k == |cs| then Ok(false)
    else if cs[k].wheel.Err? then Err(cs[k].wheel.error)
    else if cs[k].wheel.value == wanted then Ok(true)
    else AnyWheelFrom(cs, k + 1, wanted)
  }

  /**
   * When every `is_wheel` has a value the answer is whether one has the
   * wanted value; an exception comes from a requirement all of whose
   * predecessors had the other value.
   */
  lemma AnyWheelMeaning(cs: seq<Candidate>, wanted: bool)
    ensures (forall k :: 0 <= k < |cs| ==> cs[k].wheel.Ok?) ==>
              AnyWheel(cs, wanted) == Ok(exists k :: 0 <= k < |cs| && cs[k].wheel == Ok(wanted))
    ensures AnyWheel(cs, wanted).Err? ==>
              exists k :: 0 <= k < |cs| && cs[k].wheel == Err(AnyWheel(cs, wanted).error)
                          && forall j :: 0 <= j < k ==> cs[j].wheel == Ok(!wanted)
  {
    AnyWheelFromMeaning(cs, 0, wanted);
  }

  lemma {:induction false} AnyWheelFromMeaning(cs: seq<Candidate>, from: nat, wanted: bool)
    requires from <= |cs|
    requires forall j :: 0 <= j < from ==> cs[j].wheel == Ok(!wanted)
    ensures (forall k :: from <= k < |cs| ==> cs[k].wheel.Ok?) ==>
              AnyWheelFrom(cs, from, wanted) == Ok(exists k :: from <= k < |cs| && cs[k].wheel == Ok(wanted))
    ensures AnyWheelFrom(cs, from, wanted).Err? ==>
              exists k :: from <= k < |cs| && cs[k].wheel == Err(AnyWheelFrom(cs, from, wanted).error)
                          && forall j :: 0 <= j < k ==> cs[j].wheel == Ok(!wanted)
    decreases |cs| - from
  {
    if from < |cs| && cs[from].wheel.Ok? && cs[from].wheel.value != wanted {
      assert cs[from].wheel == Ok(!wanted);
      AnyWheelFromMeaning(cs, from + 1, wanted);
    }
  }

  /** How one requirement is installed: pip for editables, the wheel mover for wheels, pip-accel's binary distributions otherwise. */
  function InstallStepOf(c: Candidate, track: bool): Result<InstallStep, Error>
  {
    if c.editable then Ok(InstallEditable(c.name))
    else if c.wheel.Err? then Err(c.wheel.error)
    else if c.wheel.value then Ok(InstallWheel(c.name))
    else Ok(InstallBinary(c.name, track))
  }

  predicate HasSetuptools(cs: seq<Candidate>)
  {
    exists k :: 0 <= k < |cs| && cs[k].name == "setuptools"
  }

  /**
   * The steps taken for one requirement: distribute is uninstalled first
   * when `first` (distribute is still installed and this is the first
   * setuptools), then the requirement is installed when it can be.
   */
  function StepsFor(c: Candidate, first: bool, track: bool): seq<InstallStep>
  {
    (if c.name == "setuptools" && first then [UninstallDistribute] else [])
    + (if InstallStepOf(c, track).Ok? then [InstallStepOf(c, track).value] else [])
  }

  /**
   * The steps taken for the requirements. distribute is uninstalled before
   * the first setuptools when it is installed; after that it no longer is.
   */
  function Planned(cs: seq<Candidate>, distribute: bool, track: bool): seq<InstallStep>
  {
    if cs == [] then []
    else
      var n := |cs| - 1;
      Planned(cs[..n], distribute, track) + StepsFor(cs[n], distribute && !HasSetuptools(cs[..n]), track)
  }

  lemma PlannedStep(cs: seq<Candidate>, distribute: bool, track: bool, i: nat)
    requires i < |cs|
    ensures Planned(cs[..i + 1], distribute, track) ==
              Planned(cs[..i], distribute, track) + StepsFor(cs[i], distribute && !HasSetuptools(cs[..i]), track)
    ensures HasSetuptools(cs[..i + 1]) <==> HasSetuptools(cs[..i]) || cs[i].name == "setuptools"
  {
    assert cs[..i + 1][..i] == cs[..i];
    if HasSetuptools(cs[..i + 1]) {
      var k :| 0 <= k < i + 1 && cs[..i + 1][k].name == "setuptools";
      if k < i {
        assert cs[..i][k].name == "setuptools";
      }
    }
    if HasSetuptools(cs[..i]) {
      var k :| 0 <= k < i && cs[..i][k].name == "setuptools";
      assert cs[..i + 1][k].name == "setuptools";
    }
    if cs[i].name == "setuptools" {
      assert cs[..i + 1][i].name == "setuptools";
    }
  }

  lemma StepsForFacts(c: Candidate, first: bool, track: bool)
    ensures multiset(StepsFor(c, first, track))[UninstallDistribute] == if c.name == "setuptools" && first then 1 else 0
    ensures InstallStepOf(c, track).Ok? ==> |StepsFor(c, first, track)| == 1 + if c.name == "setuptools" && first then 1 else 0
  {
    if InstallStepOf(c, track).Ok? {
      assert InstallStepOf(c, track).value != UninstallDistribute;
    }
  }

  /** distribute is uninstalled at most once: exactly when it was installed and setuptools is among the requirements. */
  lemma {:induction false} PlannedUninstallsOnce(cs: seq<Candidate>, distribute: bool, track: bool)
    ensures multiset(Planned(cs, distribute, track))[UninstallDistribute] == if distribute && HasSetuptools(cs) then 1 else 0
    decreases |cs|
  {
    if cs != [] {
      var n := |cs| - 1;
      assert cs[..n + 1] == cs;
      PlannedUninstallsOnce(cs[..n], distribute, track);
      PlannedStep(cs, distribute, track, n);
      StepsForFacts(cs[n], distribute && !HasSetuptools(cs[..n]), track);
      assert multiset(Planned(cs, distribute, track)) ==
             multiset(Planned(cs[..n], distribute, track)) + multiset(StepsFor(cs[n], distribute && !HasSetuptools(cs[..n]), track));
    }
  }

  /** When every requirement can be installed there is one installation step per requirement, plus the uninstallation. */
  lemma {:induction false} PlannedCount(cs: seq<Candidate>, distribute: bool, track: bool)
    requires forall k :: 0 <= k < |cs| ==> InstallStepOf(cs[k], track).Ok?
    ensures |Planned(cs, distribute, track)| == |cs| + if distribute && HasSetuptools(cs) then 1 else 0
    decreases |cs|
  {
    if cs != [] {
      var n := |cs| - 1;
      assert cs[..n + 1] == cs;
      assert forall k :: 0 <= k < n ==> cs[..n][k] == cs[k];
      PlannedCount(cs[..n], distribute, track);
      PlannedStep(cs, distribute, track, n);
      StepsForFacts(cs[n], distribute && !HasSetuptools(cs[..n]), track);
    }
  }

  /** Binary distributions are installed with the caller's tracking choice. */
  lemma {:induction false} PlannedTracking(cs: seq<Candidate>, distribute: bool, track: bool)
    ensures TracksAsAsked(Planned(cs, distribute, track), track)
    decreases |cs|
  {
    if cs != [] {
      var n := |cs| - 1;
      var first := distribute && !HasSetuptools(cs[..n]);
      var p := Planned(cs[..n], distribute, track);
      var q := StepsFor(cs[n], first, track);
      assert Planned(cs, distribute, track) == p + q;
      PlannedTracking(cs[..n], distribute, track);
      StepsForTracking(cs[n], first, track);
      TrackingConcat(p, q, track);
    }
  }

  /** Every binary installation step of `steps` tracks the installed files as asked. */
  predicate TracksAsAsked(steps: seq<InstallStep>, track: bool)
  {
    forall s :: s in steps && s.InstallBinary? ==> s.trackInstalledFiles == track
  }

  lemma StepsForTracking(c: Candidate, first: bool, track: bool)
    ensures TracksAsAsked(StepsFor(c, first, track), track)
  {
  }

  lemma TrackingConcat(a: seq<InstallStep>, b: seq<InstallStep>, track: bool)
    requires TracksAsAsked(a, track) && TracksAsAsked(b, track)
    ensures TracksAsAsked(a + b, track)
  {
  }

  /** Requirement `k` is the first whose installation fails. */
  predicate FailsAt(cs: seq<Candidate>, track: bool, outcome: nat -> Result<(), Error>, k: int)
  {
    0 <= k < |cs|
    && (forall j :: 0 <= j < k ==> InstallStepOf(cs[j], track).Ok? && outcome(j).Ok?)
    && (InstallStepOf(cs[k], track).Err? || outcome(k).Err?)
  }

  /** The exception installing a requirement raised. */
  function FailureOf(c: Candidate, track: bool, done: Result<(), Error>): Error
    requires InstallStepOf(c, track).Err? || done.Err?
  {
    if InstallStepOf(c, track).Err? then InstallStepOf(c, track).error else done.error
  }

  /** Stopping at the first failing requirement `i` leaves the steps planned up to and including it. */
  lemma FailureWitness(cs: seq<Candidate>, track: bool, outcome: nat -> Result<(), Error>, distribute: bool,
                       i: nat, steps: seq<InstallStep>, e: Error)
    requires FailsAt(cs, track, outcome, i) && e == FailureOf(cs[i], track, outcome(i))
    requires steps == Planned(cs[..i + 1], distribute, track)
    ensures exists k :: FailsAt(cs, track, outcome, k) && e == FailureOf(cs[k], track, outcome(k))
              && StartsWith(steps, Planned(cs[..k], distribute, track))
              && StartsWith(Planned(cs[..k + 1], distribute, track), steps)
  {
    PlannedStep(cs, distribute, track, i);
    var p := Planned(cs[..i], distribute, track);
    assert steps[..|p|] == p;
  }

  /**
   * One round of the loop of `install_requirements`: uninstall distribute
   * before the first setuptools while it is installed, then install the
   * requirement; `done` is what installing it did.
   */
  method InstallOne(c: Candidate, distribute: bool, track: bool, done: Result<(), Error>)
    returns (r: Result<(), Error>, steps: seq<InstallStep>)
    ensures steps == StepsFor(c, distribute, track)
    ensures r.Ok? <==> InstallStepOf(c, track).Ok? && done.Ok?
    ensures r.Err? ==> r.error == FailureOf(c, track, done)
  {
    steps := [];
    if c.name == "setuptools" && distribute {
      steps := steps + [UninstallDistribute];
    }
    var step := InstallStepOf(c, track);
    if step.Err? {
      return Err(step.error), steps;
    }
    steps := steps + [step.value];
    if done.Err? {
      return Err(done.error), steps;
    }
    return Ok(()), steps;
  }

  /**
   * The loop of `install_requirements`: each requirement in order, counting
   * those installed, and stopping at the first exception.
   */
  method InstallEach(cs: seq<Candidate>, track: bool, distributeInstalled: bool,
                     outcome: nat -> Result<(), Error>)
    returns (r: Result<nat, Error>, steps: seq<InstallStep>)
    ensures r.Ok? <==> forall k :: 0 <= k < |cs| ==> InstallStepOf(cs[k], track).Ok? && outcome(k).Ok?
    ensures r.Ok? ==> r.value == |cs| && steps == Planned(cs, distributeInstalled, track)
    ensures r.Err? ==>
              exists k :: FailsAt(cs, track, outcome, k)
                && r.error == FailureOf(cs[k], track, outcome(k))
                && StartsWith(steps, Planned(cs[..k], distributeInstalled, track))
                && StartsWith(Planned(cs[..k + 1], distributeInstalled, track), steps)
  {
    steps := [];
    var distribute := distributeInstalled;
    var count := 0;
    var i := 0;
    while i < |cs|
      invariant 0 <= i <= |cs| && count == i
      invariant steps == Planned(cs[..i], distributeInstalled, track)
      invariant distribute == (distributeInstalled && !HasSetuptools(cs[..i]))
      invariant forall k :: 0 <= k < i ==> InstallStepOf(cs[k], track).Ok? && outcome(k).Ok?
    {
      PlannedStep(cs, distributeInstalled, track, i);
      var done, added := InstallOne(cs[i], distribute, track, outcome(i));
      steps := steps + added;
      if done.Err? {
        FailureWitness(cs, track, outcome, distributeInstalled, i, steps, done.error);
        return Err(done.error), steps;
      }
      distribute := distribute && cs[i].name != "setuptools";
      count := count + 1;
      i := i + 1;
    }
    assert cs[..i] == cs;
    return Ok(count), steps;
  }

  /**
   * `install_requirements`: first the two `any(...)` checks that pick the
   * log message (they evaluate `is_wheel`, which can raise), then each
   * requirement in order. `track` is the `track_installed_files` keyword,
   * True unless the caller gave it; `outcome(i)` is what installing
   * requirement `i` did.
   */
  method InstallRequirements(cs: seq<Candidate>, track: Option<bool>, distributeInstalled: bool,
                             outcome: nat -> Result<(), Error>)
    returns (r: Result<nat, Error>, steps: seq<InstallStep>)
    ensures AnyWheel(cs, false).Err? ==> r == Err(AnyWheel(cs, false).error) && steps == []
    ensures AnyWheel(cs, false).Ok? && AnyWheel(cs, true).Err? ==> r == Err(AnyWheel(cs, true).error) && steps == []
    ensures var t := if track.Some? then track.value else true;
            AnyWheel(cs, false).Ok? && AnyWheel(cs, true).Ok? ==>
              (r.Ok? <==> forall k :: 0 <= k < |cs| ==> InstallStepOf(cs[k], t).Ok? && outcome(k).Ok?)
              && (r.Ok? ==> r.value == |cs| && steps == Planned(cs, distributeInstalled, t))
              && (r.Err? ==>
                    exists k :: FailsAt(cs, t, outcome, k)
                      && r.error == FailureOf(cs[k], t, outcome(k))
                      && StartsWith(steps, Planned(cs[..k], distributeInstalled, t))
                      && StartsWith(Planned(cs[..k + 1], distributeInstalled, t), steps))
  {
    var binary := AnyWheel(cs, false);
    if binary.Err? {
      return Err(binary.error), [];
    }
    var wheel := AnyWheel(cs, true);
    if wheel.Err? {
      return Err(wheel.error), [];
    }
    r, steps := InstallEach(cs, if track.Some? then track.value else true, distributeInstalled, outcome);
  }

  // ---------------------------------------------------------------------
  // DownloadLogFilter

  /** `logging.DEBUG`. */
  const DEBUG: int := 10

  /** `DownloadLogFilter.KEYWORDS`: the words of pip's hash mismatch message. */
  const HashMismatchKeywords: seq<string> := ["doesn't", "match", "expected", "hash"]

  /** The lowercased message contains every keyword. */
  predicate MentionsHashMismatch(message: string)
  {
    forall k :: 0 <= k < |HashMismatchKeywords| ==> Contains(Lower(message), HashMismatchKeywords[k])
  }

  /** The keywords are matched regardless of case. */
  lemma MentionsHashMismatchCaseless(message: string)
    ensures MentionsHashMismatch(Lower(message)) <==> MentionsHashMismatch(message)
  {
    LowerIdempotent(message);
  }

  /** One log record: `msg` is None when the message is not a string. */
  class LogRecord {
    var msg: Option<string>
    var levelname: string
    var levelno: int

    constructor(msg: Option<string>, levelname: string, levelno: int)
      ensures this.msg == msg && this.levelname == levelname && this.levelno == levelno
    {
      this.msg := msg;
      this.levelname := levelname;
      this.levelno := levelno;
    }
  }

  class DownloadLogFilter {
    /** `filter`: keeps every record, demoting pip's hash mismatch messages to DEBUG. */
    method Filter(record: LogRecord) returns (keep: int)
      modifies record
      ensures keep == 1
      ensures record.msg == old(record.msg)
      ensures old(record.msg).Some? && MentionsHashMismatch(old(record.msg).value) ==>
                record.levelname == "DEBUG" && record.levelno == DEBUG
      ensures !(old(record.msg).Some? && MentionsHashMismatch(old(record.msg).value)) ==>
                record.levelname == old(record.levelname) && record.levelno == old(record.levelno)
    {
      if record.msg.Some? {
        var message := Lower(record.msg.value);
        if forall k :: 0 <= k < |HashMismatchKeywords| ==> Contains(message, HashMismatchKeywords[k]) {
          record.levelname := "DEBUG";
          record.levelno := DEBUG;
        }
      }
      return 1;
    }
  }

  // ---------------------------------------------------------------------
  // PatchedAttribute and AttributeOverrides

  /** A Python value, as far as attribute patching is concerned. */
  datatype PyValue = PyNone | PyBool(b: bool) | PyStr(s: string) | PyObject(id: nat)

  /** An object whose attributes are read and set by name. */
  class Namespace {
    var attributes: map<string, PyValue>

    constructor(attributes: map<string, PyValue>)
      ensures this.attributes == attributes
    {
      this.attributes := attributes;
    }

    /** `getattr(obj, name)`, which raises AttributeError for a missing attribute. */
    function GetAttr(name: string): Result<PyValue, Error>
      reads this
    {
      if name in attributes then Ok(attributes[name]) else Err(AttributeError(name))
    }

    /** `setattr(obj, name, value)`. */
    method SetAttr(name: string, value: PyValue)
      modifies this
      ensures attributes == old(attributes)[name := value]
    {
      attributes := attributes[name := value];
    }
  }

  class PatchedAttribute {
    const target: Namespace
    const attribute: string
    const patchedValue: PyValue
    const enabled: bool
    var originalValue: PyValue

    constructor(target: Namespace, attribute: string, value: PyValue, enabled: bool)
      ensures this.target == target && this.attribute == attribute && this.patchedValue == value
      ensures this.enabled == enabled && originalValue == PyNone
    {
      this.target := target;
      this.attribute := attribute;
      this.patchedValue := value;
      this.enabled := enabled;
      this.originalValue := PyNone;
    }

    /** `__enter__`: remember the attribute's value and set the patched one. */
    method Enter() returns (r: Result<(), Error>)
      modifies this, target
      ensures !enabled ==> r == Ok(()) && target.attributes == old(target.attributes) && originalValue == old(originalValue)
      ensures enabled && attribute in old(target.attributes) ==>
                r == Ok(()) && originalValue == old(target.attributes[attribute])
                && target.attributes == old(target.attributes)[attribute := patchedValue]
      ensures enabled && attribute !in old(target.attributes) ==>
                r == Err(AttributeError(attribute)) && target.attributes == old(target.attributes)
                && originalValue == old(originalValue)
    {
      if enabled {
        var original := target.GetAttr(attribute);
        if original.Err? {
          return Err(original.error);
        }
        originalValue := original.value;
        target.SetAttr(attribute, patchedValue);
      }
      return Ok(());
    }

    /** `__exit__`: put the remembered value back. */
    method Exit()
      modifies target
      ensures enabled ==> target.attributes == old(target.attributes)[attribute := originalValue]
      ensures !enabled ==> target.attributes == old(target.attributes)
    {
      if enabled {
        target.SetAttr(attribute, originalValue);
      }
    }
  }

  /**
   * A `with PatchedAttribute(...)` block: inside it the attribute reads as
   * the patched value, and afterwards the object is exactly as before. When
   * the attribute does not exist entering raises, and the block does not run.
   */
  method WithPatchedAttribute(target: Namespace, attribute: string, value: PyValue, enabled: bool)
    returns (inside: Result<PyValue, Error>)
    modifies target
    ensures enabled && attribute in old(target.attributes) ==> inside == Ok(value)
    ensures enabled && attribute !in old(target.attributes) ==> inside == Err(AttributeError(attribute))
    ensures !enabled ==> inside == old(target.GetAttr(attribute))
    ensures target.attributes == old(target.attributes)
  {
    var patch := new PatchedAttribute(target, attribute, value, enabled);
    var entered := patch.Enter();
    if entered.Err? {
      return Err(entered.error);
    }
    inside := target.GetAttr(attribute);
    patch.Exit();
    if enabled {
      assert target.attributes == old(target.attributes)[attribute := old(target.attributes)[attribute]];
    }
  }

  class AttributeOverrides {
    const opts: Namespace
    const overrides: map<string, PyValue>

    constructor(opts: Namespace, overrides: map<string, PyValue>)
      ensures this.opts == opts && this.overrides == overrides
    {
      this.opts := opts;
      this.overrides := overrides;
    }

    /** `__getattr__`: an overridden name reads as its override, any other name is read from `opts`. */
    function GetAttr(name: string): Result<PyValue, Error>
      reads opts
    {
      if name in overrides then Ok(overrides[name]) else opts.GetAttr(name)
    }

    /** `__setattr__`: setting an overridden name is refused, any other name is set on `opts`. */
    method SetAttr(name: string, value: PyValue)
      modifies opts
      ensures name in overrides ==> opts.attributes == old(opts.attributes)
      ensures name !in overrides ==> opts.attributes == old(opts.attributes)[name := value]
    {
      if name !in overrides {
        opts.SetAttr(name, value);
      }
    }
  }

  /**
   * Writing through the overrides and reading back: an overridden name keeps
   * reading as its override whatever is written (this is how pip's own
   * `ignore_installed = True` is hidden), any other name reads as written, and
   * other attributes are untouched.
   */
  method SetThenGet(o: AttributeOverrides, name: string, value: PyValue, other: string)
    returns (seen: Result<PyValue, Error>, otherSeen: Result<PyValue, Error>)
    requires other != name
    modifies o.opts
    ensures name in o.overrides ==> seen == Ok(o.overrides[name])
    ensures name !in o.overrides ==> seen == Ok(value)
    ensures otherSeen == old(o.GetAttr(other))
  {
    o.SetAttr(name, value);
    seen := o.GetAttr(name);
    otherSeen := o.GetAttr(other);
  }
}
