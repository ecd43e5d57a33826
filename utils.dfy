/**
 * pip_accel/utils.py: command line option matching, text compaction,
 * `~` and path expansion, atomic file replacement and file hashing.
 * (`makedirs` and `replace_file` are `Fs.Makedirs` and `Fs.Rename`.)
 */
module Utils {
  import opened Wrappers
  import opened Text
  import opened Errors
  import opened Paths
  import opened FileSystem

  // ---------------------------------------------------------------------
  // Command line options

  /** A single dash followed by something other than a dash: `-U`, `-xU`. */
  predicate IsShortOption(arg: string)
  {
    |arg| >= 2 && arg[0] == '-' && arg[1] != '-'
  }

  /**
   * `match_option(arg, short, long)`: a short-style argument matches when the
   * option letter occurs anywhere after its dash (so bundled flags match);
   * anything else must equal the long option exactly.
   */
  predicate MatchOption(arg: string, short: string, long: string)
    requires |short| >= 2
  {
    if IsShortOption(arg) then short[1] in arg[1..] else arg == long
  }

  lemma MatchOptionMeaning(arg: string, short: string, long: string)
    requires |short| >= 2
    ensures MatchOption(arg, short, long) <==>
              (IsShortOption(arg) && exists i :: 1 <= i < |arg| && arg[i] == short[1])
              || (!IsShortOption(arg) && arg == long)
  {
    if IsShortOption(arg) && short[1] in arg[1..] {
      var k :| 0 <= k < |arg[1..]| && arg[1..][k] == short[1];
      assert arg[k + 1] == short[1];
    }
    if IsShortOption(arg) && exists i :: 1 <= i < |arg| && arg[i] == short[1] {
      var i :| 1 <= i < |arg| && arg[i] == short[1];
      assert arg[1..][i - 1] == short[1];
    }
  }

  /** `-xU` matches `-U`; `--upgrade-strategy` does not match `--upgrade`; a lone `-` matches nothing short. */
  lemma MatchOptionExamples()
    ensures MatchOption("-xU", "-U", "--upgrade")
    ensures MatchOption("--upgrade", "-U", "--upgrade")
    ensures !MatchOption("--upgrade-strategy", "-U", "--upgrade")
    ensures !MatchOption("-", "-U", "--upgrade")
  {
    assert "-xU"[1..][1] == 'U';
    assert "--upgrade" != "--upgrade-strategy";
  }

  /** `contains_sublist(lst, sub)`: some window of `lst` equals `sub`, tried left to right. */
  function ContainsSublist(lst: seq<string>, sub: seq<string>): bool
    decreases |lst|
  {
    if |sub| > |lst| then false
    else if lst[..|sub|] == sub then true
    else ContainsSublist(lst[1..], sub)
  }

  lemma {:induction false} ContainsSublistIff(lst: seq<string>, sub: seq<string>)
    ensures ContainsSublist(lst, sub) <==> exists i :: Occurs(lst, sub, i)
    decreases |lst|
  {
    if |sub| > |lst| {
    } else if lst[..|sub|] == sub {
      assert Occurs(lst, sub, 0);
    } else {
      ContainsSublistIff(lst[1..], sub);
      if exists i :: Occurs(lst, sub, i) {
        var i :| Occurs(lst, sub, i);
        assert i != 0;
        assert lst[1..][i - 1..i - 1 + |sub|] == lst[i..i + |sub|];
        assert Occurs(lst[1..], sub, i - 1);
      }
      if exists i :: Occurs(lst[1..], sub, i) {
        var i :| Occurs(lst[1..], sub, i);
        assert lst[1..][i..i + |sub|] == lst[i + 1..i + 1 + |sub|];
        assert Occurs(lst, sub, i + 1);
      }
    }
  }

  /** The empty list is a sublist of every list. */
  lemma ContainsEmptySublist(lst: seq<string>)
    ensures ContainsSublist(lst, [])
  {
  }

  /** `match_option_with_value(args, opt, val)`: `opt=val` as one argument or `opt val` as two. */
  predicate MatchOptionWithValue(args: seq<string>, option: string, value: string)
  {
    (option + "=" + value) in args || ContainsSublist(args, [option, value])
  }

  lemma MatchOptionWithValueIff(args: seq<string>, option: string, value: string)
    ensures MatchOptionWithValue(args, option, value) <==>
              exists i :: 0 <= i < |args| &&
                (args[i] == option + "=" + value || (i + 1 < |args| && args[i] == option && args[i + 1] == value))
  {
    ContainsSublistIff(args, [option, value]);
    if ContainsSublist(args, [option, value]) {
      var i :| Occurs(args, [option, value], i);
      assert args[i..i + 2][0] == args[i] && args[i..i + 2][1] == args[i + 1];
    }
    if exists i :: 0 <= i < |args| && i + 1 < |args| && args[i] == option && args[i + 1] == value {
      var i :| 0 <= i < |args| && i + 1 < |args| && args[i] == option && args[i + 1] == value;
      assert args[i..i + 2] == [option, value];
      assert Occurs(args, [option, value], i);
    }
  }

  // ---------------------------------------------------------------------
  // Text

  /** One paragraph of `compact`: `' '.join(p.split())`. */
  function CompactParagraph(p: string): string
  {
    JoinWith(" ", Words(p))
  }

  /** `compact(text)`: paragraphs split on blank lines, whitespace runs collapsed, re-joined. */
  function Compact(text: string): string
  {
    var ps := SplitOn(text, "\n\n");
    JoinWith("\n\n", seq(|ps|, i requires 0 <= i < |ps| => CompactParagraph(ps[i])))
  }

  /** A compacted paragraph has the same words as the original. */
  lemma CompactParagraphWords(p: string)
    ensures Words(CompactParagraph(p)) == Words(p)
  {
    WordsOfJoin(Words(p));
  }

  lemma {:induction false} JoinedWordsHaveNoNewline(ws: seq<string>)
    requires forall i :: 0 <= i < |ws| ==> NoSpace(ws[i])
    ensures '\n' !in JoinWith(" ", ws)
    decreases |ws|
  {
    if |ws| == 1 {
      assert IsSpace('\n');
      assert forall j :: 0 <= j < |ws[0]| ==> ws[0][j] != '\n';
    } else if |ws| > 1 {
      JoinedWordsHaveNoNewline(ws[1..]);
      assert forall j :: 0 <= j < |ws[0]| ==> ws[0][j] != '\n';
      assert JoinWith(" ", ws) == ws[0] + " " + JoinWith(" ", ws[1..]);
    }
  }

  /** Compacting twice is compacting once. */
  lemma CompactIdempotent(text: string)
    ensures Compact(Compact(text)) == Compact(text)
  {
    var ps := SplitOn(text, "\n\n");
    var cs := seq(|ps|, i requires 0 <= i < |ps| => CompactParagraph(ps[i]));
    forall c | c in cs ensures '\n' !in c {
      var i :| 0 <= i < |ps| && cs[i] == c;
      JoinedWordsHaveNoNewline(Words(ps[i]));
    }
    SplitJoin(cs, "\n\n");
    var ds := SplitOn(Compact(text), "\n\n");
    assert ds == cs;
    forall i | 0 <= i < |cs| ensures CompactParagraph(cs[i]) == cs[i] {
      CompactParagraphWords(ps[i]);
    }
    assert seq(|ds|, i requires 0 <= i < |ds| => CompactParagraph(ds[i])) == cs;
  }

  /** humanfriendly's `parse_path(p)`: `abspath(expanduser(expandvars(p)))`. */
  function ParsePath(p: string, host: Host): string
  {
    Abspath(ExpandUser(ExpandVars(p, host.environ), host), host.cwd)
  }

  /** `parse_path` makes every path absolute, and a path without `$` or a leading `~` is only made absolute. */
  lemma ParsePathMeaning(p: string, host: Host)
    requires IsAbs(host.cwd)
    ensures IsAbs(ParsePath(p, host))
    ensures '$' !in p && !StartsWith(p, "~") ==> ParsePath(p, host) == Abspath(p, host.cwd)
  {
    AbspathAbsolute(ExpandUser(ExpandVars(p, host.environ), host), host.cwd);
  }

  /**
   * `expand_path(p)`: a leading `~/` becomes the home directory of the
   * effective user (`find_home_directory`), then `parse_path` expands
   * variables and makes the result absolute.
   */
  function ExpandPath(p: string, host: Host): string
  {
    ParsePath(if |p| >= 2 && p[0] == '~' && p[1] == '/' then Join(host.home, p[2..]) else p, host)
  }

  /** The characters of `os.path.join(a, b)` come from `a`, `b` or the separator. */
  lemma JoinChars(a: string, b: string, c: char)
    requires c != '/' && c !in a && c !in b
    ensures c !in Join(a, b)
  {
    if !IsAbs(b) && !(a == "" || EndsWith(a, "/")) {
      assert a + "/" + b == a + ("/" + b);
    }
  }

  /** Below an absolute home directory, `~/rest` becomes an absolute path that `parse_path` only normalises. */
  lemma HomeJoined(p: string, host: Host)
    requires StartsWith(p, "~/") && IsAbs(host.home) && '$' !in p && '$' !in host.home
    ensures IsAbs(Join(host.home, p[2..])) && '$' !in Join(host.home, p[2..])
  {
    var rest := p[2..];
    assert '$' !in rest by {
      forall j | 0 <= j < |rest| ensures rest[j] != '$' {
        assert rest[j] == p[j + 2];
      }
    }
    JoinChars(host.home, rest, '$');
    if !IsAbs(rest) {
      assert Join(host.home, rest)[..1] == host.home[..1];
    }
  }

  /** `expand_path` yields an absolute path. */
  lemma ExpandPathAbsolute(p: string, host: Host)
    requires IsAbs(host.cwd)
    ensures IsAbs(ExpandPath(p, host))
  {
    ParsePathMeaning(if |p| >= 2 && p[0] == '~' && p[1] == '/' then Join(host.home, p[2..]) else p, host);
  }

  /** Without `$` in the path or the home directory, `~/rest` is `rest` normalised under an absolute home directory. */
  lemma ExpandPathHome(p: string, host: Host)
    requires StartsWith(p, "~/") && IsAbs(host.home) && '$' !in p && '$' !in host.home
    ensures ExpandPath(p, host) == NormPath(Join(host.home, p[2..]))
  {
    assert p[0] == '~' && p[1] == '/';
    var q := Join(host.home, p[2..]);
    HomeJoined(p, host);
    assert ExpandPath(p, host) == ParsePath(q, host);
    assert ExpandUser(q, host) == q by { assert q[..1] == "/"; }
    assert ExpandVars(q, host.environ) == q;
  }

  /** A path without `$` that does not start with `~` is only made absolute. */
  lemma ExpandPathPlain(p: string, host: Host)
    requires !StartsWith(p, "~") && '$' !in p
    ensures ExpandPath(p, host) == Abspath(p, host.cwd)
  {
    assert |p| >= 1 ==> p[..1] == [p[0]];
    assert ExpandPath(p, host) == ParsePath(p, host);
  }

  // ---------------------------------------------------------------------
  // Files

  /** `AtomicReplace(filename)`: write to a per-process `.tmp-<pid>` file, move it into place on success. */
  class AtomicReplace {
    const filename: string
    const temporaryFile: string

    constructor(filename: string, pid: nat)
      ensures this.filename == filename
      ensures temporaryFile == filename + ".tmp-" + NatToString(pid)
    {
      this.filename := filename;
      this.temporaryFile := filename + ".tmp-" + NatToString(pid);
    }

    /** `__enter__` yields the temporary file name. */
    method Enter() returns (t: string)
      ensures t == temporaryFile
    {
      return temporaryFile;
    }

    /** `__exit__`: only when the block raised nothing is the temporary file moved over the target. */
    method Exit(raised: bool, fs: Fs) returns (r: Result<(), Error>)
      requires fs.Valid()
      modifies fs
      ensures fs.Valid()
      ensures raised ==> r == Ok(()) && fs.files == old(fs.files) && fs.modes == old(fs.modes)
      ensures !raised && r.Ok? ==>
                temporaryFile in old(fs.files) && fs.files == (old(fs.files) - {temporaryFile})[filename := old(fs.files)[temporaryFile]]
      ensures !raised && temporaryFile in old(fs.files) && filename !in old(fs.dirs) && old(fs.ParentExists(filename)) ==> r.Ok?
      ensures r.Err? ==> fs.files == old(fs.files) && fs.modes == old(fs.modes)
      ensures fs.dirs == old(fs.dirs)
      ensures !raised && r.Ok? ==> fs.ParentExists(filename)
    {
      if raised {
        return Ok(());
      }
      r := fs.Rename(temporaryFile, filename);
    }
  }

  /** Writing through `AtomicReplace` leaves exactly the new contents at the target and no temporary file. */
  method WriteAtomically(fs: Fs, filename: string, pid: nat, data: seq<byte>) returns (r: Result<(), Error>)
    requires fs.Valid()
    modifies fs
    ensures fs.Valid() && fs.dirs == old(fs.dirs)
    ensures r.Ok? ==> fs.files == (old(fs.files) - {filename + ".tmp-" + NatToString(pid)})[filename := data]
    ensures r.Err? ==> fs.files - {filename + ".tmp-" + NatToString(pid)} == old(fs.files) - {filename + ".tmp-" + NatToString(pid)}
    ensures r.Ok? ==> fs.ParentExists(filename)
    ensures (filename !in old(fs.dirs) && (filename + ".tmp-" + NatToString(pid)) !in old(fs.dirs) && old(fs.ParentExists(filename))
              && Dirname(filename + ".tmp-" + NatToString(pid)) == Dirname(filename)) ==> r.Ok?
  {
    var a := new AtomicReplace(filename, pid);
    var t := a.Enter();
    var w := fs.Write(t, data);
    if w.Err? {
      var _ := a.Exit(true, fs);
      return Err(w.error);
    }
    r := a.Exit(false, fs);
  }

  function Concat(chunks: seq<seq<byte>>): seq<byte>
  {
    if chunks == [] then [] else Concat(chunks[..|chunks| - 1]) + chunks[|chunks| - 1]
  }

  /** The contents of the named files, in order. */
  function FileContents(files: map<string, seq<byte>>, names: seq<string>): seq<seq<byte>>
    requires forall f :: f in names ==> f in files
  {
    seq(|names|, i requires 0 <= i < |names| => files[names[i]])
  }

  /**
   * `hash_files(method, *filenames)`: feeds every file, in the order given, to
   * one hash context; `digest` stands for the hash of a byte stream.
   */
  method HashFiles(fs: Fs, filenames: seq<string>, digest: seq<byte> -> string) returns (r: Result<string, Error>)
    ensures (forall f :: f in filenames ==> f in fs.files) ==> r == Ok(digest(Concat(FileContents(fs.files, filenames))))
    ensures r.Err? ==> exists f :: f in filenames && f !in fs.files
    ensures r.Ok? <==> forall f :: f in filenames ==> f in fs.files
  {
    var consumed: seq<byte> := [];
    var i := 0;
    while i < |filenames|
      invariant 0 <= i <= |filenames|
      invariant forall j :: 0 <= j < i ==> filenames[j] in fs.files
      invariant consumed == Concat(FileContents(fs.files, filenames[..i]))
    {
      var contents := fs.Read(filenames[i]);
      if contents.Err? {
        return Err(contents.error);
      }
      assert FileContents(fs.files, filenames[..i + 1])[..i] == FileContents(fs.files, filenames[..i]);
      consumed := consumed + contents.value;
      i := i + 1;
    }
    assert filenames[..i] == filenames;
    return Ok(digest(consumed));
  }
}
