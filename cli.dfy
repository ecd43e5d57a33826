/**
 * pip_accel/cli.py: the `pip-accel` command. Without arguments it prints
 * its usage; without an `install` subcommand it hands the command line to
 * pip; otherwise it drops the `install` words, sets the log verbosity from
 * `-v`/`-q` style options and runs the accelerator, mapping the outcome to
 * an exit status. Its `is_short_option` and `match_option` are the ones in
 * pip_accel/utils.py (`Utils.IsShortOption`, `Utils.MatchOption`).
 *
 * The accelerator's run is a parameter: what `install_from_arguments`
 * gives for the arguments it is passed.
 */
module Cli {
  import opened Wrappers
  import opened Errors
  import opened Utils

  /** How the command ends. */
  datatype Outcome =
    | Usage                              // the usage text, exit status 0
    | ExecPip(commandLine: seq<string>)  // `os.execvp('pip', ...)`: pip replaces the process
    | Exited(status: int)                // after running the accelerator

  /** `[arg for arg in arguments if arg != 'install']`. */
  function WithoutInstall(arguments: seq<string>): (r: seq<string>)
    ensures "install" !in r
    ensures |r| <= |arguments|
  {
    WithoutWordAbsent(arguments, "install", 0);
    WithoutWordFrom(arguments, "install", 0)
  }

  /** The elements from index `k` on that are not `w`. */
  function WithoutWordFrom<T(==)>(s: seq<T>, w: T, k: nat): (r: seq<T>)
    requires k <= |s|
    ensures |r| <= |s| - k
    decreases |s| - k
  {
    if k == |s| then []
    else (if s[k] == w then [] else [s[k]]) + WithoutWordFrom(s, w, k + 1)
  }

  lemma {:induction false} WithoutWordAbsent<T>(s: seq<T>, w: T, k: nat)
    requires k <= |s|
    ensures w !in WithoutWordFrom(s, w, k)
    decreases |s| - k
  {
    if k < |s| {
      WithoutWordAbsent(s, w, k + 1);
    }
  }

  /** Every other argument is kept, as often as it occurs and in the same order. */
  lemma WithoutInstallKeeps(arguments: seq<string>, a: string)
    ensures multiset(WithoutInstall(arguments))[a] == if a == "install" then 0 else multiset(arguments)[a]
  {
    WithoutWordKeeps(arguments, "install", 0, a);
    assert arguments[0..] == arguments;
  }

  lemma {:induction false} WithoutWordKeeps<T>(s: seq<T>, w: T, k: nat, a: T)
    requires k <= |s|
    ensures multiset(WithoutWordFrom(s, w, k))[a] == if a == w then 0 else multiset(s[k..])[a]
    decreases |s| - k
  {
    if k < |s| {
      WithoutWordKeeps(s, w, k + 1, a);
      WithoutWordCount(s, w, k, a);
      SliceCount(s, k, a);
    }
  }

  lemma WithoutWordCount<T>(s: seq<T>, w: T, k: nat, a: T)
    requires k < |s|
    ensures multiset(WithoutWordFrom(s, w, k))[a]
            == (if s[k] != w && s[k] == a then 1 else 0) + multiset(WithoutWordFrom(s, w, k + 1))[a]
  {
    var h := if s[k] == w then [] else [s[k]];
    assert WithoutWordFrom(s, w, k) == h + WithoutWordFrom(s, w, k + 1);
  }

  lemma SliceCount<T>(s: seq<T>, k: nat, a: T)
    requires k < |s|
    ensures multiset(s[k..])[a] == (if s[k] == a then 1 else 0) + multiset(s[k + 1..])[a]
  {
    assert s[k..] == [s[k]] + s[k + 1..];
  }

  lemma WithoutInstallConcat(a: seq<string>, b: seq<string>)
    ensures WithoutInstall(a + b) == WithoutInstall(a) + WithoutInstall(b)
  {
    WithoutWordConcat(a, b, "install", 0);
  }

  lemma {:induction false} WithoutWordConcat<T>(a: seq<T>, b: seq<T>, w: T, k: nat)
    requires k <= |a|
    ensures WithoutWordFrom(a + b, w, k) == WithoutWordFrom(a, w, k) + WithoutWordFrom(b, w, 0)
    decreases |a| - k
  {
    if k == |a| {
      WithoutWordShift(a, b, w, 0);
    } else {
      var h := if a[k] == w then [] else [a[k]];
      var x := WithoutWordFrom(a, w, k + 1);
      var y := WithoutWordFrom(b, w, 0);
      WithoutWordConcat(a, b, w, k + 1);
      WithoutWordStep(a + b, w, k, h);
      WithoutWordStep(a, w, k, h);
      assert h + (x + y) == (h + x) + y;
    }
  }

  lemma WithoutWordStep<T>(s: seq<T>, w: T, k: nat, h: seq<T>)
    requires k < |s| && h == if s[k] == w then [] else [s[k]]
    ensures WithoutWordFrom(s, w, k) == h + WithoutWordFrom(s, w, k + 1)
  {
  }

  lemma {:induction false} WithoutWordShift<T>(a: seq<T>, b: seq<T>, w: T, j: nat)
    requires j <= |b|
    ensures WithoutWordFrom(a + b, w, |a| + j) == WithoutWordFrom(b, w, j)
    decreases |b| - j
  {
    if j < |b| {
      WithoutWordShift(a, b, w, j + 1);
      assert (a + b)[|a| + j] == b[j];
    }
  }

  /** The change one argument makes: `-v` style first, so an argument matching both counts as verbose. */
  function VerbosityStep(argument: string): (d: int)
    ensures -1 <= d <= 1
  {
    if MatchOption(argument, "-v", "--verbose") then 1
    else if MatchOption(argument, "-q", "--quiet") then -1
    else 0
  }

  /** The net change in verbosity over the arguments. */
  function Verbosity(arguments: seq<string>): (n: int)
    ensures -|arguments| <= n <= |arguments|
  {
    if arguments == [] then 0 else Verbosity(arguments[..|arguments| - 1]) + VerbosityStep(arguments[|arguments| - 1])
  }

  /** `-vq` and `-qv` raise the verbosity; `--quiet` lowers it; a positional argument leaves it. */
  lemma VerbosityExamples()
    ensures VerbosityStep("-vq") == 1 && VerbosityStep("-qv") == 1
    ensures VerbosityStep("--quiet") == -1 && VerbosityStep("--verbose") == 1
    ensures VerbosityStep("requests") == 0
  {
    assert "-vq"[1..][0] == 'v';
    assert "-qv"[1..][1] == 'v';
    assert "--quiet" != "--verbose";
    assert "requests" != "--verbose" && "requests" != "--quiet";
  }

  /** Each argument counts on its own: the verbosity of a concatenation is the sum. */
  lemma {:induction false} VerbosityConcat(a: seq<string>, b: seq<string>)
    ensures Verbosity(a + b) == Verbosity(a) + Verbosity(b)
    decreases |b|
  {
    if b == [] {
      assert a + b == a;
    } else {
      assert (a + b)[..|a + b| - 1] == a + b[..|b| - 1];
      VerbosityConcat(a, b[..|b| - 1]);
    }
  }

  /** `NothingToDoError` exits 0 like pip; any other exception exits 1; a normal return exits 0. */
  function ExitStatusOf(r: Result<(), Error>): (status: int)
    ensures status == 1 <==> r.Err? && r.error != NothingToDoError
    ensures status == 0 || status == 1
  {
    match r
    case Ok(_) => 0
    case Err(NothingToDoError) => 0
    case Err(_) => 1
  }

  /** The verbosity loop of `main`. */
  method AdjustVerbosity(arguments: seq<string>) returns (verbosity: int)
    ensures verbosity == Verbosity(arguments)
  {
    verbosity := 0;
    for i := 0 to |arguments|
      invariant verbosity == Verbosity(arguments[..i])
    {
      assert arguments[..i + 1][..i] == arguments[..i];
      if MatchOption(arguments[i], "-v", "--verbose") {
        verbosity := verbosity + 1;
      } else if MatchOption(arguments[i], "-q", "--quiet") {
        verbosity := verbosity - 1;
      }
    }
    assert arguments[..|arguments|] == arguments;
  }

  /**
   * `main` for `sys.argv[1:]`: the outcome, the net verbosity change and the
   * arguments the accelerator was given.
   */
  method RunCommand(argv: seq<string>, install: seq<string> -> Result<(), Error>)
    returns (outcome: Outcome, verbosity: int, passed: seq<string>)
    ensures argv == [] ==> outcome == Usage
    ensures argv != [] && "install" !in argv ==> outcome == ExecPip(["pip"] + argv)
    ensures argv != [] && "install" in argv ==>
              passed == WithoutInstall(argv) && verbosity == Verbosity(passed)
              && outcome == Exited(ExitStatusOf(install(passed)))
  {
    passed := [];
    verbosity := 0;
    if argv == [] {
      return Usage, verbosity, passed;
    }
    if "install" !in argv {
      return ExecPip(["pip"] + argv), verbosity, passed;
    }
    passed := WithoutInstall(argv);
    verbosity := AdjustVerbosity(passed);
    var result := install(passed);
    outcome := Exited(ExitStatusOf(result));
  }
}
