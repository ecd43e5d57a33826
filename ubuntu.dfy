/**
 * pip_accel/deps.py: the earlier, Ubuntu-only version of the system
 * dependency extension. Its dpkg parsing, missing-package comprehension,
 * install command and confirmation rule are the ones of pip_accel/deps/
 * __init__.py (module SystemDeps); what differs is the hard-wired table of
 * known projects and how the platform is detected.
 */
module UbuntuDeps {
  import opened Wrappers
  import opened Text
  import opened Errors
  import opened SystemDeps

  /** The projects whose system packages are known, as an independent table. */
  const KnownDependencies: map<string, seq<string>> := map[
    "lxml" := ["libxml2-dev", "libxslt1-dev"],
    "m2crypto" := ["libssl-dev", "swig"],
    "mysql-python" := ["libmysqlclient-dev"],
    "python-mcrypt" := ["libmcrypt-dev"],
    "mercurial" := ["python-dev"]
  ]

  /** `Ubuntu.find_dependencies`: the if-chain over the exact project name, `[]` for any other. */
  function FindDependencies(projectName: string): (r: seq<string>)
    ensures r == if projectName in KnownDependencies then KnownDependencies[projectName] else []
    ensures r != [] <==> projectName in KnownDependencies
  {
    if projectName == "lxml" then ["libxml2-dev", "libxslt1-dev"]
    else if projectName == "m2crypto" then ["libssl-dev", "swig"]
    else if projectName == "mysql-python" then ["libmysqlclient-dev"]
    else if projectName == "python-mcrypt" then ["libmcrypt-dev"]
    else if projectName == "mercurial" then ["python-dev"]
    else []
  }

  /** The lookup is exact: a name that is not lower case is unknown, which is why callers lower-case it first. */
  lemma FindDependenciesExact(projectName: string)
    requires Lower(projectName) != projectName
    ensures FindDependencies(projectName) == []
  {
    forall k | k in KnownDependencies ensures Lower(k) == k {
      assert forall i :: 0 <= i < |k| ==> !('A' <= k[i] <= 'Z');
    }
  }

  /** `detect_platform()`: an Ubuntu interface exactly when `lsb_release` names Ubuntu. */
  predicate DetectPlatform(lsbOutput: string)
  {
    Lower(Strip(lsbOutput)) == "ubuntu"
  }

  /** Where this version finds Ubuntu, the later one picks its Debian interface too. */
  lemma DetectedIsDebian(lsbOutput: string)
    requires DetectPlatform(lsbOutput)
    ensures IsSupported(DebianLinux, lsbOutput)
  {
  }

  /**
   * `sanity_check_dependencies(project_name)` with `current_platform` set
   * by `detect_platform`: `None` on any other system, so the call raises
   * `AttributeError`.
   */
  method SanityCheckDependencies(lsbOutput: string, projectName: string, dpkgLines: seq<string>, autoInstall: bool,
                                 answer: Option<string>, exitCode: int)
    returns (r: Result<Check, Error>)
    ensures !DetectPlatform(lsbOutput) ==> r == Err(AttributeError("find_dependencies"))
    ensures DetectPlatform(lsbOutput) ==>
              r == Ok(Sanity(FindDependencies(Lower(projectName)), AsSet(InstalledPackages(dpkgLines)),
                             autoInstall, answer, exitCode))
  {
    if !DetectPlatform(lsbOutput) {
      return Err(AttributeError("find_dependencies"));
    }
    var known := FindDependencies(Lower(projectName));
    if known == [] {
      return Ok(Check(None, false, None));
    }
    var listed := ParseDpkgListing(dpkgLines);
    var missing := Missing(known, AsSet(listed));
    if missing == [] {
      return Ok(Check(None, false, None));
    }
    var commandLine := ["sudo"] + InstallCommand(missing);
    if autoInstall || ConfirmInstallation(answer) {
      var result := if exitCode == 0 then Some(true) else None;
      return Ok(Check(result, !autoInstall, Some(commandLine)));
    }
    return Ok(Check(None, true, None));
  }
}
