/**
 * pip_accel/deps/__init__.py: when a build fails, look up the system
 * packages a project is known to need, find which of them dpkg does not
 * list as installed, and (with permission) install them with apt-get.
 *
 * The output of `dpkg -l` and `lsb_release -si`, the user's answer to the
 * prompt, the environment switch and the exit status of the install are
 * parameters; the `.ini` file is given as its `dependencies` section.
 */
module SystemDeps {
  import opened Wrappers
  import opened Text
  import opened Errors

  // ---------------------------------------------------------------------
  // The dependency table

  /** `dict((n.lower(), v.split()) for n, v in items)`: a later option with the same lower-case name wins. */
  function DependencyTable(items: seq<(string, string)>): map<string, seq<string>>
  {
    if items == [] then map[]
    else
      var item := items[|items| - 1];
      DependencyTable(items[..|items| - 1])[Lower(item.0) := Words(item.1)]
  }

  /**
   * The keys are lower case and are exactly the lower-cased option names;
   * each maps to the words of the last option with that name.
   */
  lemma {:induction false} DependencyTableFacts(items: seq<(string, string)>)
    ensures forall k :: k in DependencyTable(items) ==> Lower(k) == k
    ensures forall k :: k in DependencyTable(items) <==> exists i :: 0 <= i < |items| && Lower(items[i].0) == k
    ensures forall i :: 0 <= i < |items| && (forall j :: i < j < |items| ==> Lower(items[j].0) != Lower(items[i].0)) ==>
              DependencyTable(items)[Lower(items[i].0)] == Words(items[i].1)
  {
    DependencyTableKeys(items);
    DependencyTableValues(items);
  }

  lemma {:induction false} DependencyTableKeys(items: seq<(string, string)>)
    ensures forall k :: k in DependencyTable(items) ==> Lower(k) == k
    ensures forall k :: k in DependencyTable(items) <==> exists i :: 0 <= i < |items| && Lower(items[i].0) == k
    decreases |items|
  {
    if items != [] {
      var init := items[..|items| - 1];
      var last := items[|items| - 1];
      DependencyTableKeys(init);
      LowerIdempotent(last.0);
      assert DependencyTable(items) == DependencyTable(init)[Lower(last.0) := Words(last.1)];
      forall k | k in DependencyTable(items) ensures exists i :: 0 <= i < |items| && Lower(items[i].0) == k {
        if k != Lower(last.0) {
          var i :| 0 <= i < |init| && Lower(init[i].0) == k;
          assert items[i] == init[i];
        }
      }
      forall k | exists i :: 0 <= i < |items| && Lower(items[i].0) == k ensures k in DependencyTable(items) {
        var i :| 0 <= i < |items| && Lower(items[i].0) == k;
        if i < |init| {
          assert init[i] == items[i];
        }
      }
    }
  }

  lemma DependencyTableValues(items: seq<(string, string)>)
    ensures forall i :: 0 <= i < |items| && (forall j :: i < j < |items| ==> Lower(items[j].0) != Lower(items[i].0)) ==>
              Lower(items[i].0) in DependencyTable(items) && DependencyTable(items)[Lower(items[i].0)] == Words(items[i].1)
  {
    forall i | 0 <= i < |items| && (forall j :: i < j < |items| ==> Lower(items[j].0) != Lower(items[i].0))
      ensures Lower(items[i].0) in DependencyTable(items) && DependencyTable(items)[Lower(items[i].0)] == Words(items[i].1)
    {
      DependencyTableLast(items, i);
    }
  }

  /** The entry of an option no later option shadows. */
  lemma {:induction false} DependencyTableLast(items: seq<(string, string)>, i: nat)
    requires i < |items|
    requires forall j :: i < j < |items| ==> Lower(items[j].0) != Lower(items[i].0)
    ensures Lower(items[i].0) in DependencyTable(items) && DependencyTable(items)[Lower(items[i].0)] == Words(items[i].1)
    decreases |items|
  {
    var init := items[..|items| - 1];
    if i < |init| {
      assert init[i] == items[i];
      assert Lower(items[|items| - 1].0) != Lower(items[i].0);
      forall j | i < j < |init| ensures Lower(init[j].0) != Lower(init[i].0) {
        assert init[j] == items[j];
      }
      DependencyTableLast(init, i);
    }
  }

  /** The loop that builds the table from the section's options. */
  method LoadTable(items: seq<(string, string)>) returns (table: map<string, seq<string>>)
    ensures table == DependencyTable(items)
  {
    table := map[];
    for i := 0 to |items|
      invariant table == DependencyTable(items[..i])
    {
      assert items[..i + 1][..i] == items[..i];
      var (name, value) := items[i];
      table := table[Lower(name) := Words(value)];
    }
    assert items[..|items|] == items;
  }

  // ---------------------------------------------------------------------
  // Platforms

  /** The package manager interfaces, in the order they are tried. */
  datatype Interface = DebianLinux | BasePlatform

  /** `getattr(self, 'config', '')`: only the Debian interface names a configuration file. */
  function ConfigName(kind: Interface): string
  {
    if kind == DebianLinux then "debian" else ""
  }

  /** `is_supported()`: Debian needs `lsb_release` to name Debian or Ubuntu; the fallback always applies. */
  predicate IsSupported(kind: Interface, lsbOutput: string)
  {
    kind == BasePlatform || Lower(Strip(lsbOutput)) in ["debian", "ubuntu"]
  }

  class Platform {
    const kind: Interface
    /** `None` while the `dependencies` attribute was never set. */
    var dependencies: Option<map<string, seq<string>>>

    /** Only an interface with a configuration file can have a table. */
    ghost predicate Valid()
      reads this
    {
      dependencies.Some? ==> ConfigName(kind) != ""
    }

    /**
     * `__init__`: `section` is the option list of the `[dependencies]`
     * section of `<config>.ini` beside the module, `None` when that file
     * does not exist or has no such section.
     */
    constructor(kind: Interface, section: Option<seq<(string, string)>>)
      ensures Valid() && this.kind == kind
      ensures dependencies == if ConfigName(kind) != "" && section.Some? then Some(DependencyTable(section.value)) else None
    {
      this.kind := kind;
      if ConfigName(kind) != "" && section.Some? {
        var table := LoadTable(section.value);
        dependencies := Some(table);
      } else {
        dependencies := None;
      }
    }

    /** `find_dependencies(name)`: the table entry of the lower-cased name, `[]` when unknown. */
    function FindDependencies(projectName: string): (r: Result<seq<string>, Error>)
      reads this
      ensures r.Err? <==> dependencies.None?
      ensures r.Err? ==> r.error == AttributeError("dependencies")
      ensures r.Ok? && r.value != [] ==> Lower(projectName) in dependencies.value
    {
      if dependencies.None? then Err(AttributeError("dependencies"))
      else if Lower(projectName) in dependencies.value then Ok(dependencies.value[Lower(projectName)])
      else Ok([])
    }

    /** `find_installed()`: dpkg's installed packages for Debian, nothing for the fallback. */
    method FindInstalled(dpkgLines: seq<string>) returns (packages: seq<string>)
      ensures packages == if kind == DebianLinux then InstalledPackages(dpkgLines) else []
    {
      if kind == BasePlatform {
        return [];
      }
      packages := ParseDpkgListing(dpkgLines);
    }
  }

  /**
   * The table answers for the name in any case: the words of the last
   * option with that lower-case name, and nothing for an unknown project.
   */
  lemma FindDependenciesMeaning(p: Platform, items: seq<(string, string)>, projectName: string)
    requires p.dependencies == Some(DependencyTable(items))
    ensures p.FindDependencies(projectName) == p.FindDependencies(Lower(projectName))
    ensures (forall i :: 0 <= i < |items| ==> Lower(items[i].0) != Lower(projectName)) ==>
              p.FindDependencies(projectName) == Ok([])
    ensures forall i :: 0 <= i < |items| && Lower(items[i].0) == Lower(projectName)
                        && (forall j :: i < j < |items| ==> Lower(items[j].0) != Lower(projectName)) ==>
              p.FindDependencies(projectName) == Ok(Words(items[i].1))
  {
    LowerIdempotent(projectName);
    DependencyTableFacts(items);
  }

  /** The fallback interface never has a table, so asking it for dependencies raises `AttributeError`. */
  lemma FallbackHasNoTable(p: Platform, projectName: string)
    requires p.Valid() && p.kind == BasePlatform
    ensures p.FindDependencies(projectName) == Err(AttributeError("dependencies"))
  {
  }

  /** The platform selection loop: the first interface that is supported. */
  method SelectPlatform(lsbOutput: string, section: Option<seq<(string, string)>>) returns (p: Platform)
    ensures fresh(p) && p.Valid()
    ensures p.kind == if IsSupported(DebianLinux, lsbOutput) then DebianLinux else BasePlatform
    ensures p.dependencies == if p.kind == DebianLinux && section.Some? then Some(DependencyTable(section.value)) else None
  {
    var interfaces := [DebianLinux, BasePlatform];
    var i := 0;
    while !IsSupported(interfaces[i], lsbOutput)
      invariant 0 <= i <= 1
      invariant forall j :: 0 <= j < i ==> !IsSupported(interfaces[j], lsbOutput)
      decreases 1 - i
    {
      i := i + 1;
    }
    assert i == 1 ==> !IsSupported(interfaces[0], lsbOutput);
    p := new Platform(interfaces[i], section);
  }

  // ---------------------------------------------------------------------
  // dpkg -l

  /** The second token of each line whose first token is `ii`, in order. */
  function InstalledPackages(lines: seq<string>): seq<string>
  {
    if lines == [] then []
    else
      var tokens := Words(lines[|lines| - 1]);
      InstalledPackages(lines[..|lines| - 1]) + (if |tokens| >= 2 && tokens[0] == "ii" then [tokens[1]] else [])
  }

  /** The listing is read line by line: the packages of a concatenation are concatenated. */
  lemma {:induction false} InstalledPackagesConcat(a: seq<string>, b: seq<string>)
    ensures InstalledPackages(a + b) == InstalledPackages(a) + InstalledPackages(b)
    decreases |b|
  {
    if b == [] {
      assert a + b == a;
    } else {
      assert (a + b)[..|a + b| - 1] == a + b[..|b| - 1];
      InstalledPackagesConcat(a, b[..|b| - 1]);
    }
  }

  /** One dpkg line: its status word, the package name and the remaining columns, separated by blanks. */
  function DpkgLine(status: string, name: string, columns: seq<string>): string
  {
    JoinWith(" ", [status, name] + columns)
  }

  /** A line with status `ii` contributes exactly its package name; any other status contributes nothing. */
  lemma DpkgLineParse(status: string, name: string, columns: seq<string>)
    requires status != [] && NoSpace(status) && name != [] && NoSpace(name)
    requires forall i :: 0 <= i < |columns| ==> columns[i] != [] && NoSpace(columns[i])
    ensures InstalledPackages([DpkgLine(status, name, columns)]) == if status == "ii" then [name] else []
  {
    var ws := [status, name] + columns;
    WordsOfJoin(ws);
    assert [DpkgLine(status, name, columns)][..0] == [];
  }

  /** `find_installed`'s loop over dpkg's output. */
  method ParseDpkgListing(lines: seq<string>) returns (packages: seq<string>)
    ensures packages == InstalledPackages(lines)
  {
    packages := [];
    for k := 0 to |lines|
      invariant packages == InstalledPackages(lines[..k])
    {
      assert lines[..k + 1][..k] == lines[..k];
      var tokens := Words(lines[k]);
      if |tokens| >= 2 && tokens[0] == "ii" {
        packages := packages + [tokens[1]];
      }
    }
    assert lines[..|lines|] == lines;
  }

  // ---------------------------------------------------------------------
  // Missing packages and their installation

  /** `['apt-get', 'install', '--yes'] + missing`. */
  function InstallCommand(missing: seq<string>): (r: seq<string>)
    ensures |r| == |missing| + 3 && r[..3] == ["apt-get", "install", "--yes"] && r[3..] == missing
  {
    ["apt-get", "install", "--yes"] + missing
  }

  /** `[p for p in known if p not in installed]`. */
  function Missing(known: seq<string>, installed: set<string>): (r: seq<string>)
    ensures |r| <= |known|
    ensures forall p :: p in r <==> p in known && p !in installed
  {
    if known == [] then []
    else (if known[0] in installed then [] else [known[0]]) + Missing(known[1..], installed)
  }

  /** The comprehension keeps the original order: it distributes over concatenation. */
  lemma {:induction false} MissingConcat(a: seq<string>, b: seq<string>, installed: set<string>)
    ensures Missing(a + b, installed) == Missing(a, installed) + Missing(b, installed)
    decreases |a|
  {
    if a == [] {
      assert a + b == b;
    } else {
      assert (a + b)[1..] == a[1..] + b;
      MissingConcat(a[1..], b, installed);
    }
  }

  /** Every missing package occurs as often as among the known ones; installed ones do not occur. */
  lemma {:induction false} MissingCounts(known: seq<string>, installed: set<string>, p: string)
    ensures multiset(Missing(known, installed))[p] == if p in installed then 0 else multiset(known)[p]
    decreases |known|
  {
    if known != [] {
      var rest := known[1..];
      MissingCounts(rest, installed, p);
      assert multiset(known) == multiset{known[0]} + multiset(rest) by {
        assert known == [known[0]] + rest;
      }
      if known[0] in installed {
        assert Missing(known, installed) == Missing(rest, installed);
      } else {
        assert Missing(known, installed) == [known[0]] + Missing(rest, installed);
      }
    }
  }

  /** `confirm_installation`: the answer, lower-cased and stripped, is `y`; a failed prompt is a refusal. */
  function ConfirmInstallation(answer: Option<string>): bool
  {
    answer.Some? && Strip(Lower(answer.value)) == "y"
  }

  /** `y` or `Y` with any surrounding whitespace is consent; no answer is a refusal. */
  lemma ConfirmInstallationYes(pre: string, y: char, post: string)
    requires AllSpace(pre) && AllSpace(post) && (y == 'y' || y == 'Y')
    ensures ConfirmInstallation(Some(pre + [y] + post))
    ensures !ConfirmInstallation(None)
  {
    LowerSpacedY(pre, y, post);
    StripSpacedY(pre, post);
  }

  lemma LowerSpacedY(pre: string, y: char, post: string)
    requires AllSpace(pre) && AllSpace(post) && (y == 'y' || y == 'Y')
    ensures Lower(pre + [y] + post) == pre + "y" + post
  {
    var s := pre + [y] + post;
    var t := pre + "y" + post;
    forall i | 0 <= i < |s| ensures LowerChar(s[i]) == t[i] {
      if i < |pre| {
        assert s[i] == pre[i] == t[i] && IsSpace(pre[i]);
      } else if i == |pre| {
        assert s[i] == y && t[i] == 'y';
      } else {
        assert s[i] == post[i - |pre| - 1] == t[i] && IsSpace(post[i - |pre| - 1]);
      }
    }
  }

  lemma StripSpacedY(pre: string, post: string)
    requires AllSpace(pre) && AllSpace(post)
    ensures Strip(pre + "y" + post) == "y"
  {
    TrimLeftSpaces(pre, "y" + post);
    assert pre + "y" + post == pre + ("y" + post);
    TrimRightSpaces("y", post);
  }

  /** Any other single word is a refusal, whatever its case: `yes` and `n` are. */
  lemma ConfirmInstallationNo(word: string)
    requires word != [] && NoSpace(word) && Lower(word) != "y"
    ensures !ConfirmInstallation(Some(word))
  {
    var w := Lower(word);
    assert !IsSpace(w[0]) && !IsSpace(w[|w| - 1]) by {
      assert !IsSpace(word[0]) && !IsSpace(word[|word| - 1]);
    }
    StripClean(w);
  }

  /**
   * What one sanity check did: its result (`Some(true)` or nothing, as the
   * function falls off its end otherwise), whether it prompted the user and
   * the `sudo` command line it ran, if any.
   */
  datatype Check = Check(result: Option<bool>, prompted: bool, ran: Option<seq<string>>)

  /** The decisions of `sanity_check_dependencies` once the known and installed packages are in. */
  function Sanity(known: seq<string>, installed: set<string>, autoInstall: bool, answer: Option<string>, exitCode: int): Check
  {
    var missing := Missing(known, installed);
    if known == [] || missing == [] then Check(None, false, None)
    else if !(autoInstall || ConfirmInstallation(answer)) then Check(None, true, None)
    else Check(if exitCode == 0 then Some(true) else None, !autoInstall, Some(["sudo"] + InstallCommand(missing)))
  }

  /**
   * True exactly when something is missing, the installation was allowed
   * and it exited 0; never False. The user is asked only when something is
   * missing and automatic installation is off, and the command run is
   * `sudo apt-get install --yes` followed by the missing packages.
   */
  lemma SanityMeaning(known: seq<string>, installed: set<string>, autoInstall: bool, answer: Option<string>, exitCode: int)
    ensures var c := Sanity(known, installed, autoInstall, answer, exitCode);
            var missing := Missing(known, installed);
            (c.result == Some(true) <==> missing != [] && (autoInstall || ConfirmInstallation(answer)) && exitCode == 0)
            && c.result != Some(false)
            && (c.prompted <==> missing != [] && !autoInstall)
            && (c.ran.Some? <==> missing != [] && (autoInstall || ConfirmInstallation(answer)))
            && (c.ran.Some? ==>
                  c.ran.value[0] == "sudo" && c.ran.value[1..4] == ["apt-get", "install", "--yes"] && c.ran.value[4..] == missing)
  {
    var missing := Missing(known, installed);
    if missing != [] {
      var r := ["sudo"] + InstallCommand(missing);
      assert r[1..4] == InstallCommand(missing)[..3];
      assert r[4..] == InstallCommand(missing)[3..];
    }
  }

  /** `set(packages)`. */
  function AsSet(packages: seq<string>): set<string>
  {
    set q | q in packages
  }

  /** `set(current_platform.find_installed())`. */
  function InstalledSet(kind: Interface, dpkgLines: seq<string>): set<string>
  {
    AsSet(if kind == DebianLinux then InstalledPackages(dpkgLines) else [])
  }

  /**
   * `sanity_check_dependencies(project_name)`: consults the platform's
   * table for the lower-cased name and only then dpkg's listing.
   */
  method SanityCheckDependencies(p: Platform, projectName: string, dpkgLines: seq<string>, autoInstall: bool,
                                 answer: Option<string>, exitCode: int)
    returns (r: Result<Check, Error>)
    ensures p.dependencies.None? ==> r == Err(AttributeError("dependencies"))
    ensures p.dependencies.Some? ==>
              r == Ok(Sanity(p.FindDependencies(Lower(projectName)).value, InstalledSet(p.kind, dpkgLines),
                             autoInstall, answer, exitCode))
  {
    var known := p.FindDependencies(Lower(projectName));
    if known.Err? {
      return Err(known.error);
    }
    if known.value == [] {
      return Ok(Check(None, false, None));
    }
    var listed := p.FindInstalled(dpkgLines);
    var installed := AsSet(listed);
    var missing := Missing(known.value, installed);
    if missing == [] {
      return Ok(Check(None, false, None));
    }
    var commandLine := ["sudo"] + InstallCommand(missing);
    if autoInstall || ConfirmInstallation(answer) {
      var result := if exitCode == 0 then Some(true) else None;
      return Ok(Check(result, !autoInstall, Some(commandLine)));
    }
    return Ok(Check(None, true, None));
  }
}
