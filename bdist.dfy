/**
 * pip_accel/bdist.py: building "dumb" binary distributions, rewriting them
 * into a relocatable form for the cache, installing them under a prefix,
 * and deciding when a cached archive is stale.
 *
 * Archives are sequences of entries; the builder is an oracle that reports
 * an exit status and the contents of `dist/`.
 */
module BinaryDist {
  import opened Wrappers
  import opened Text
  import opened Errors
  import opened Paths
  import opened FileSystem
  import opened Utils

  // ---------------------------------------------------------------------
  // Archive entries

  datatype EntryKind = RegularFile | HardLink | SymbolicLink | Directory | CharDevice | BlockDevice | Fifo

  /** One member of a tar archive: `TarInfo` and the data behind it. */
  datatype Entry = Entry(name: string, mode: nat, kind: EntryKind, data: seq<byte>)

  /** `TarInfo.isdev()`: character and block devices and FIFOs. */
  predicate IsDev(k: EntryKind)
  {
    k == CharDevice || k == BlockDevice || k == Fifo
  }

  /** `stat.S_IXUSR`, `0o755` and `0o644`. */
  const OwnerExecute: nat := 64
  const ModeExecutable: nat := 493
  const ModeRegular: nat := 420

  /** Everyone may read (and execute, when the owner could); only the owner may write. */
  function NormaliseMode(mode: nat): (m: nat)
    ensures m == ModeExecutable || m == ModeRegular
    ensures m == ModeExecutable <==> (mode / OwnerExecute) % 2 == 1
  {
    if (mode / OwnerExecute) % 2 == 1 then ModeExecutable else ModeRegular
  }

  /** The cleanup after relocation: one leading `local/` goes, and on Debian `/dist-packages/` becomes `/site-packages/`. */
  function Rewrite(rel: string, onDebian: bool): string
  {
    var r := if StartsWith(rel, "local/") then rel[6..] else rel;
    if onDebian then Replace(r, "/dist-packages/", "/site-packages/") else r
  }

  /** `normpath(join('/', name))`: the absolute name of an archive member. */
  function AbsoluteName(name: string): string
  {
    NormPath(Join("/", name))
  }

  /**
   * The name `transform_binary_dist` gives an entry, as written: relative to
   * the install prefix, the entry being dropped only when `relpath`
   * returns an absolute path.
   */
  function TransformNameAsWritten(name: string, prefix: string, cwd: string, onDebian: bool): Option<string>
  {
    var rel := RelPath(AbsoluteName(name), prefix, cwd).value;
    if IsAbs(rel) then None else Some(Rewrite(rel, onDebian))
  }

  /** The guard of the as-written transformation never fires: `relpath` never returns an absolute path. */
  lemma AsWrittenGuardNeverFires(name: string, prefix: string, cwd: string, onDebian: bool)
    ensures TransformNameAsWritten(name, prefix, cwd, onDebian).Some?
  {
    RelPathNeverAbsolute(AbsoluteName(name), prefix, cwd);
  }

  /**
   * So, as written, an entry outside the install prefix is kept, under a
   * name that climbs out of the prefix with `..`.
   */
  lemma AsWrittenKeepsOutsideEntries(name: string, prefix: string, cwd: string, onDebian: bool)
    requires !Under(AbsoluteName(name), prefix, cwd)
    ensures Climbs(RelPath(AbsoluteName(name), prefix, cwd).value)
    ensures TransformNameAsWritten(name, prefix, cwd, onDebian)
            == Some(Rewrite(RelPath(AbsoluteName(name), prefix, cwd).value, onDebian))
  {
    RelPathOutside(AbsoluteName(name), prefix, cwd);
    AsWrittenGuardNeverFires(name, prefix, cwd, onDebian);
  }

  /**
   * The evidently intended transformation: an entry that does not lie
   * below the install prefix cannot be made relative to it and is dropped.
   */
  function TransformName(name: string, prefix: string, cwd: string, onDebian: bool): Option<string>
  {
    if Under(AbsoluteName(name), prefix, cwd) then Some(Rewrite(RelPath(AbsoluteName(name), prefix, cwd).value, onDebian))
    else None
  }

  /** Kept entries are exactly those below the prefix, named by their components below it. */
  lemma TransformNameMeaning(name: string, prefix: string, cwd: string, onDebian: bool)
    ensures TransformName(name, prefix, cwd, onDebian).Some? <==> Under(AbsoluteName(name), prefix, cwd)
    ensures TransformName(name, prefix, cwd, onDebian).Some? ==>
              var below := Segments(Abspath(AbsoluteName(name), cwd))[|Segments(Abspath(prefix, cwd))|..];
              TransformName(name, prefix, cwd, onDebian).value == Rewrite(if below == [] then "." else JoinWith("/", below), onDebian)
  {
    if Under(AbsoluteName(name), prefix, cwd) {
      RelPathUnder(AbsoluteName(name), prefix, cwd);
    }
  }

  /** On entries below the prefix the two transformations agree. */
  lemma TransformNameAgreesUnder(name: string, prefix: string, cwd: string, onDebian: bool)
    requires Under(AbsoluteName(name), prefix, cwd)
    ensures TransformName(name, prefix, cwd, onDebian) == TransformNameAsWritten(name, prefix, cwd, onDebian)
  {
    AsWrittenGuardNeverFires(name, prefix, cwd, onDebian);
  }

  /** `./a/b` and `a/b` name the same entry. */
  lemma TransformNameDotSlash(name: string, prefix: string, cwd: string, onDebian: bool)
    requires !IsAbs(name)
    ensures TransformName("./" + name, prefix, cwd, onDebian) == TransformName(name, prefix, cwd, onDebian)
  {
    DotSlashIrrelevant(name);
  }

  /** What happens to one archive member, for a given naming: devices and directories are dropped, the rest renamed. */
  function TransformEntryBy(e: Entry, naming: string -> Option<string>): (r: Option<Entry>)
    ensures r.Some? <==> !IsDev(e.kind) && e.kind != Directory && naming(e.name).Some?
    ensures r.Some? ==> r.value == Entry(naming(e.name).value, NormaliseMode(e.mode), e.kind, e.data)
  {
    if IsDev(e.kind) || e.kind == Directory then None
    else match naming(e.name)
      case None => None
      case Some(n) => Some(Entry(n, NormaliseMode(e.mode), e.kind, e.data))
  }

  /** The per-entry transformation for a naming. */
  function By(naming: string -> Option<string>): Entry -> Option<Entry>
  {
    e => TransformEntryBy(e, naming)
  }

  /** The naming `transform_binary_dist` applies, as written. */
  function Naming(prefix: string, cwd: string, onDebian: bool): string -> Option<string>
  {
    n => TransformNameAsWritten(n, prefix, cwd, onDebian)
  }

  /** The corrected naming, which drops members outside the install prefix. */
  function CorrectedNaming(prefix: string, cwd: string, onDebian: bool): string -> Option<string>
  {
    n => TransformName(n, prefix, cwd, onDebian)
  }

  /** The per-entry transformation of `transform_binary_dist` for one install prefix, as written. */
  function Transformer(prefix: string, cwd: string, onDebian: bool): Entry -> Option<Entry>
  {
    By(Naming(prefix, cwd, onDebian))
  }

  /** The corrected per-entry transformation. */
  function CorrectedTransformer(prefix: string, cwd: string, onDebian: bool): Entry -> Option<Entry>
  {
    By(CorrectedNaming(prefix, cwd, onDebian))
  }

  /**
   * As written, devices and directories are dropped and every other member
   * is kept, renamed relative to the install prefix (with `..` when it lies
   * outside) and with its mode normalised.
   */
  lemma TransformEntry(e: Entry, prefix: string, cwd: string, onDebian: bool)
    ensures Transformer(prefix, cwd, onDebian)(e).Some? <==> !IsDev(e.kind) && e.kind != Directory
    ensures Transformer(prefix, cwd, onDebian)(e).Some? ==>
              Transformer(prefix, cwd, onDebian)(e).value
              == Entry(Rewrite(RelPath(AbsoluteName(e.name), prefix, cwd).value, onDebian), NormaliseMode(e.mode), e.kind, e.data)
  {
    AsWrittenGuardNeverFires(e.name, prefix, cwd, onDebian);
  }

  /** Corrected: a member is kept exactly when it is neither a device nor a directory and lies below the prefix. */
  lemma CorrectedTransformEntry(e: Entry, prefix: string, cwd: string, onDebian: bool)
    ensures CorrectedTransformer(prefix, cwd, onDebian)(e).Some? <==>
              !IsDev(e.kind) && e.kind != Directory && Under(AbsoluteName(e.name), prefix, cwd)
  {
    TransformNameMeaning(e.name, prefix, cwd, onDebian);
  }

  function Emitted(o: Option<Entry>): seq<Entry>
  {
    match o
    case None => []
    case Some(e) => [e]
  }

  /** The entries `transform_binary_dist` yields, in archive order. */
  function Transformed(entries: seq<Entry>, t: Entry -> Option<Entry>): seq<Entry>
  {
    if entries == [] then []
    else Transformed(entries[..|entries| - 1], t) + Emitted(t(entries[|entries| - 1]))
  }

  lemma TransformedStep(entries: seq<Entry>, i: nat, t: Entry -> Option<Entry>)
    requires i < |entries|
    ensures Transformed(entries[..i + 1], t) == Transformed(entries[..i], t) + Emitted(t(entries[i]))
  {
    assert entries[..i + 1][..i] == entries[..i];
  }

  /** Transformation works entry by entry, so it keeps the archive's order. */
  lemma {:induction false} TransformedAppend(a: seq<Entry>, b: seq<Entry>, t: Entry -> Option<Entry>)
    ensures Transformed(a + b, t) == Transformed(a, t) + Transformed(b, t)
    decreases |b|
  {
    if b == [] {
      assert a + b == a;
    } else {
      var b' := b[..|b| - 1];
      TransformedAppend(a, b', t);
      assert (a + b)[..|a + b| - 1] == a + b';
      assert (a + b)[|a + b| - 1] == b[|b| - 1];
    }
  }

  /** Every emitted entry is the transformation of an input entry. */
  lemma {:induction false} TransformedFrom(entries: seq<Entry>, t: Entry -> Option<Entry>)
    ensures forall e :: e in Transformed(entries, t) ==> exists s :: s in entries && t(s) == Some(e)
    decreases |entries|
  {
    if entries != [] {
      var init := entries[..|entries| - 1];
      TransformedFrom(init, t);
      forall e | e in Transformed(entries, t)
        ensures exists s :: s in entries && t(s) == Some(e)
      {
        if e in Transformed(init, t) {
          var s :| s in init && t(s) == Some(e);
          assert s in entries;
        } else {
          assert entries[|entries| - 1] in entries;
        }
      }
    }
  }

  /** Whatever the naming, the cached archive holds no devices and no directories, and only modes 0o755 and 0o644. */
  lemma TransformedFacts(entries: seq<Entry>, naming: string -> Option<string>)
    ensures forall e :: e in Transformed(entries, By(naming)) ==>
              (e.mode == ModeExecutable || e.mode == ModeRegular) && !IsDev(e.kind) && e.kind != Directory
              && exists s :: s in entries && TransformEntryBy(s, naming) == Some(e)
  {
    var t := By(naming);
    TransformedFrom(entries, t);
    forall e | e in Transformed(entries, t)
      ensures (e.mode == ModeExecutable || e.mode == ModeRegular) && !IsDev(e.kind) && e.kind != Directory
    {
      var s :| s in entries && t(s) == Some(e);
      assert TransformEntryBy(s, naming) == Some(e);
    }
  }

  /** Two per-entry transformations that agree on every member give the same archive. */
  lemma {:induction false} TransformedAgree(entries: seq<Entry>, t: Entry -> Option<Entry>, u: Entry -> Option<Entry>)
    requires forall i :: 0 <= i < |entries| ==> t(entries[i]) == u(entries[i])
    ensures Transformed(entries, t) == Transformed(entries, u)
    decreases |entries|
  {
    if entries != [] {
      var init := entries[..|entries| - 1];
      assert forall i :: 0 <= i < |init| ==> init[i] == entries[i];
      TransformedAgree(init, t, u);
    }
  }

  /** For a member below the prefix, the per-entry transformations as written and corrected agree. */
  lemma TransformerAgreesUnder(e: Entry, prefix: string, cwd: string, onDebian: bool)
    requires Under(AbsoluteName(e.name), prefix, cwd)
    ensures Transformer(prefix, cwd, onDebian)(e) == CorrectedTransformer(prefix, cwd, onDebian)(e)
  {
    TransformNameAgreesUnder(e.name, prefix, cwd, onDebian);
    assert Naming(prefix, cwd, onDebian)(e.name) == CorrectedNaming(prefix, cwd, onDebian)(e.name);
  }

  /** For an archive whose members all lie below the prefix, the code as written and the corrected one agree. */
  lemma TransformedAgreesUnder(entries: seq<Entry>, prefix: string, cwd: string, onDebian: bool)
    requires forall i :: 0 <= i < |entries| ==> Under(AbsoluteName(entries[i].name), prefix, cwd)
    ensures Transformed(entries, Transformer(prefix, cwd, onDebian)) == Transformed(entries, CorrectedTransformer(prefix, cwd, onDebian))
  {
    forall i | 0 <= i < |entries|
      ensures Transformer(prefix, cwd, onDebian)(entries[i]) == CorrectedTransformer(prefix, cwd, onDebian)(entries[i])
    {
      TransformerAgreesUnder(entries[i], prefix, cwd, onDebian);
    }
    TransformedAgree(entries, Transformer(prefix, cwd, onDebian), CorrectedTransformer(prefix, cwd, onDebian));
  }

  /** `transform_binary_dist(archive)`: relocate every member, in order, as the code does. */
  method TransformBinaryDist(archive: seq<Entry>, prefix: string, cwd: string, onDebian: bool) returns (out: seq<Entry>)
    ensures out == Transformed(archive, Transformer(prefix, cwd, onDebian))
  {
    out := [];
    var i := 0;
    while i < |archive|
      invariant 0 <= i <= |archive|
      invariant out == Transformed(archive[..i], Transformer(prefix, cwd, onDebian))
    {
      var member := archive[i];
      TransformedStep(archive, i, Transformer(prefix, cwd, onDebian));
      assert Transformer(prefix, cwd, onDebian)(member) == TransformEntryBy(member, Naming(prefix, cwd, onDebian));
      if !IsDev(member.kind) && member.kind != Directory {
        var mode := if (member.mode / OwnerExecute) % 2 == 1 then ModeExecutable else ModeRegular;
        var absolute := NormPath(Join("/", member.name));
        var modified := RelPath(absolute, prefix, cwd).value;
        if !IsAbs(modified) {
          if StartsWith(modified, "local/") {
            modified := modified[6..];
          }
          if onDebian {
            modified := Replace(modified, "/dist-packages/", "/site-packages/");
          }
          out := out + [Entry(modified, mode, member.kind, member.data)];
        }
      }
      i := i + 1;
    }
    assert archive[..i] == archive;
  }

  // ---------------------------------------------------------------------
  // Hashbangs

  /** The number of leading ASCII digits. */
  function DigitRun(s: string): (n: nat)
    ensures n <= |s| && forall i :: 0 <= i < n ==> IsDigit(s[i])
    ensures n < |s| ==> !IsDigit(s[n])
  {
    if s != [] && IsDigit(s[0]) then 1 + DigitRun(s[1..]) else 0
  }

  /** `\d+(\.\d+)*`: digit runs separated by single dots. */
  predicate DottedNumber(s: string)
    decreases |s|
  {
    var n := DigitRun(s);
    n > 0 && (n == |s| || (s[n] == '.' && DottedNumber(s[n + 1..])))
  }

  /** `re.match('^python(\d+(\.\d+)*)?$', executable)`. */
  predicate IsPythonExecutable(s: string)
  {
    StartsWith(s, "python") && (|s| == 6 || DottedNumber(s[6..]))
  }

  /** The command of a hashbang line: its base name, without a leading `env `. */
  function HashbangCommand(line: seq<byte>): string
  {
    var exe := Basename(Dec(line));
    if StartsWith(exe, "env ") then exe[4..] else exe
  }

  predicate IsLineBreak(b: byte)
  {
    b == 10 || b == 13
  }

  /** Where the first line ends, before its line break. */
  function LineEnd(s: seq<byte>): (k: nat)
    ensures k <= |s| && forall i :: 0 <= i < k ==> !IsLineBreak(s[i])
    ensures k < |s| ==> IsLineBreak(s[k])
  {
    LineEndFrom(s, 0)
  }

  /** The first line break at or after `k`, or the length. */
  function LineEndFrom(s: seq<byte>, k: nat): (e: nat)
    requires k <= |s|
    ensures k <= e <= |s| && forall i :: k <= i < e ==> !IsLineBreak(s[i])
    ensures e < |s| ==> IsLineBreak(s[e])
    decreases |s| - k
  {
    if k == |s| || IsLineBreak(s[k]) then k else LineEndFrom(s, k + 1)
  }

  /** Where the second line starts: after "\r\n", "\r" or "\n". */
  function NextLine(s: seq<byte>): (k: nat)
    ensures LineEnd(s) <= k <= |s|
    ensures s != [] ==> k > 0
  {
    var e := LineEnd(s);
    if e + 1 < |s| && s[e] == 13 && s[e + 1] == 10 then e + 2
    else if e < |s| then e + 1
    else e
  }

  /** `bytes.splitlines()`: the lines without their breaks, with no empty line after a final break. */
  function SplitLines(s: seq<byte>): seq<seq<byte>>
    decreases |s|
  {
    if s == [] then [] else [s[..LineEnd(s)]] + SplitLines(s[NextLine(s)..])
  }

  predicate Ascii(s: string)
  {
    forall i :: 0 <= i < |s| ==> s[i] as int < 128
  }

  /** The script's first line runs a Python interpreter. */
  predicate RunsPython(contents: seq<byte>)
  {
    contents != [] && IsPythonExecutable(HashbangCommand(contents[..LineEnd(contents)]))
  }

  /** A non-empty text's first line, and the empty text's lack of lines. */
  lemma SplitLinesFirst(contents: seq<byte>)
    ensures contents == [] <==> SplitLines(contents) == []
    ensures contents != [] ==> SplitLines(contents)[0] == contents[..LineEnd(contents)]
  {
  }

  /**
   * `fix_hashbang(contents, python)` as written: when the first line runs
   * Python, it is replaced and the lines are joined again with "\n".
   * Encoding a non-ASCII interpreter path raises.
   */
  function FixHashbangAsWritten(contents: seq<byte>, python: string): Result<seq<byte>, Error>
  {
    var lines := SplitLines(contents);
    if lines == [] || !IsPythonExecutable(HashbangCommand(lines[0])) then Ok(contents)
    else if !Ascii(python) then Err(Raised("UnicodeEncodeError"))
    else Ok(JoinWith([10 as byte], [Enc("#!" + python)] + lines[1..]))
  }

  /**
   * The evidently intended `fix_hashbang`: when the first line runs Python,
   * only that line is replaced and the rest of the script is kept byte for
   * byte.
   */
  function FixHashbang(contents: seq<byte>, python: string): Result<seq<byte>, Error>
  {
    if !RunsPython(contents) then Ok(contents)
    else if !Ascii(python) then Err(Raised("UnicodeEncodeError"))
    else Ok(Enc("#!" + python) + contents[LineEnd(contents)..])
  }

  /** Both versions decide alike: scripts that do not run Python are untouched, and a non-ASCII interpreter raises. */
  lemma FixHashbangSameDecision(contents: seq<byte>, python: string)
    ensures !RunsPython(contents) ==> FixHashbang(contents, python) == Ok(contents) && FixHashbangAsWritten(contents, python) == Ok(contents)
    ensures RunsPython(contents) && !Ascii(python) ==>
              FixHashbang(contents, python) == Err(Raised("UnicodeEncodeError")) && FixHashbangAsWritten(contents, python) == Err(Raised("UnicodeEncodeError"))
    ensures RunsPython(contents) && Ascii(python) ==> FixHashbang(contents, python).Ok? && FixHashbangAsWritten(contents, python).Ok?
  {
    SplitLinesFirst(contents);
  }

  /** The first line of a text that starts with a line without breaks. */
  lemma LineEndPrefix(h: seq<byte>, rest: seq<byte>)
    requires forall i :: 0 <= i < |h| ==> !IsLineBreak(h[i])
    requires rest == [] || IsLineBreak(rest[0])
    ensures LineEnd(h + rest) == |h|
    ensures (h + rest)[|h|..] == rest
  {
    var s := h + rest;
    assert s[|h|..] == rest;
  }

  lemma NextLineOf(h: seq<byte>, rest: seq<byte>)
    requires forall i :: 0 <= i < |h| ==> !IsLineBreak(h[i])
    requires rest == [] || IsLineBreak(rest[0])
    ensures NextLine(h + rest) == |h| + NextLine(rest)
  {
    LineEndPrefix(h, rest);
    LineEndPrefix([], rest);
  }

  /** Splitting a line followed by a line break (or nothing). */
  lemma SplitLinesCons(h: seq<byte>, rest: seq<byte>)
    requires h != [] && forall i :: 0 <= i < |h| ==> !IsLineBreak(h[i])
    requires rest == [] || IsLineBreak(rest[0])
    ensures SplitLines(h + rest) == [h] + SplitLines(rest[NextLine(rest)..])
  {
    LineEndPrefix(h, rest);
    NextLineOf(h, rest);
    assert (h + rest)[..|h|] == h;
    assert (h + rest)[NextLine(h + rest)..] == rest[NextLine(rest)..];
  }

  /** The hashbang written for an ASCII interpreter path without line breaks has none either. */
  lemma HashbangHasNoBreak(python: string)
    requires Ascii(python) && forall i :: 0 <= i < |python| ==> python[i] != '\n' && python[i] != '\r'
    ensures forall i :: 0 <= i < |Enc("#!" + python)| ==> !IsLineBreak(Enc("#!" + python)[i])
  {
    var t := "#!" + python;
    forall i | 0 <= i < |t| ensures !IsLineBreak(Enc(t)[i]) {
      if i >= 2 { assert t[i] == python[i - 2]; }
    }
  }

  /**
   * The corrected rewrite changes the first line and nothing else: the
   * result's lines are the new hashbang followed by the other lines.
   */
  lemma FixHashbangLines(contents: seq<byte>, python: string)
    requires RunsPython(contents) && Ascii(python)
    requires forall i :: 0 <= i < |python| ==> python[i] != '\n' && python[i] != '\r'
    ensures SplitLines(FixHashbang(contents, python).value) == [Enc("#!" + python)] + SplitLines(contents)[1..]
  {
    assert FixHashbang(contents, python) == Ok(Enc("#!" + python) + contents[LineEnd(contents)..]);
    HashbangHasNoBreak(python);
    ReplaceFirstLine(contents, Enc("#!" + python));
  }

  /** Putting a line without breaks in place of the first line of a non-empty text. */
  lemma ReplaceFirstLine(contents: seq<byte>, h: seq<byte>)
    requires contents != [] && h != [] && forall i :: 0 <= i < |h| ==> !IsLineBreak(h[i])
    ensures SplitLines(h + contents[LineEnd(contents)..]) == [h] + SplitLines(contents)[1..]
  {
    var rest := contents[LineEnd(contents)..];
    var tail := SplitLines(rest[NextLine(rest)..]);
    SplitLinesCons(h, rest);
    SecondLineStart(contents);
    var lines := SplitLines(contents);
    assert lines == [contents[..LineEnd(contents)]] + tail;
    assert lines[1..] == tail;
  }

  /** The second line starts where it starts in what follows the first line. */
  lemma SecondLineStart(contents: seq<byte>)
    ensures var rest := contents[LineEnd(contents)..];
            contents[NextLine(contents)..] == rest[NextLine(rest)..]
  {
    var e := LineEnd(contents);
    var first := contents[..e];
    var rest := contents[e..];
    assert contents == first + rest;
    NextLineOf(first, rest);
  }

  /**
   * Where the two versions part: a Python script that ends right after its
   * hashbang line, with a line break, loses that line break as written.
   */
  lemma FixHashbangDropsFinalNewline(hashbang: seq<byte>, python: string)
    requires hashbang != [] && forall i :: 0 <= i < |hashbang| ==> !IsLineBreak(hashbang[i])
    requires IsPythonExecutable(HashbangCommand(hashbang)) && Ascii(python)
    ensures FixHashbangAsWritten(hashbang + [10], python) == Ok(Enc("#!" + python))
    ensures FixHashbang(hashbang + [10], python) == Ok(Enc("#!" + python) + [10])
  {
    SplitLinesCons(hashbang, [10]);
    assert [10 as byte][NextLine([10])..] == [];
    LineEndPrefix(hashbang, [10]);
    assert (hashbang + [10])[..|hashbang|] == hashbang;
  }

  lemma BasenameAfterSlash(dir: string, name: string)
    requires '/' !in name
    ensures Basename(dir + "/" + name) == name
  {
    LastSlashAppend(dir + "/", name);
    assert LastSlash(dir + "/") == |dir|;
    assert (dir + "/" + name)[|dir| + 1..] == name;
  }

  /** The command of `#!<dir>/<exe>` is `exe`. */
  lemma HashbangCommandOf(dir: string, exe: string)
    requires Latin1(dir + "/" + exe) && '/' !in exe && !StartsWith(exe, "env ")
    ensures HashbangCommand(Enc(dir + "/" + exe)) == exe
  {
    DecEnc(dir + "/" + exe);
    BasenameAfterSlash(dir, exe);
  }

  /** The command of `#!<dir>/env <exe>` is `exe` too. */
  lemma HashbangCommandOfEnv(dir: string, exe: string)
    requires Latin1(dir + "/" + ("env " + exe)) && '/' !in exe
    ensures HashbangCommand(Enc(dir + "/" + ("env " + exe))) == exe
  {
    var cmd := "env " + exe;
    assert '/' !in cmd by {
      forall i | 0 <= i < |cmd| ensures cmd[i] != '/' {
        if i >= 4 { assert cmd[i] == exe[i - 4]; }
      }
    }
    DecEnc(dir + "/" + cmd);
    BasenameAfterSlash(dir, cmd);
    assert StartsWith(cmd, "env ");
    assert cmd[4..] == exe;
  }

  /** `python`, `python3` and `python2.7` run Python; `sh` and `python2.` do not. */
  lemma PythonExecutableExamples()
    ensures IsPythonExecutable("python") && IsPythonExecutable("python3") && IsPythonExecutable("python2.7")
    ensures !IsPythonExecutable("sh") && !IsPythonExecutable("python2.")
  {
    assert DigitRun("3") == 1;
    assert DigitRun("2.7") == 1 && DigitRun("7") == 1;
    assert DigitRun("2.") == 1 && DigitRun("") == 0;
    assert "python3"[6..] == "3";
    assert "python2.7"[6..] == "2.7" && "2.7"[2..] == "7";
    assert "python2."[6..] == "2." && "2."[2..] == "";
  }

  // ---------------------------------------------------------------------
  // Installing

  /**
   * The pathname an archive member is installed at: `include/` moves to
   * `include/site/` for virtual environments, and on Debian a
   * `site-packages` directory that is not on the module search path is
   * swapped for its `dist-packages` sibling when that one is.
   */
  function InstallPathname(name: string, prefix: string, virtualenvCompatible: bool, onDebian: bool,
                           searchPath: set<string>): string
  {
    var p := if virtualenvCompatible && StartsWith(name, "include/") then "include/site/" + name[8..] else name;
    var k := Find(p, "/site-packages", 1);
    var p' :=
      if onDebian && Contains(p, "/site-packages/") && k >= 1 && '\n' !in p[..k] then
        var sitePackages := NormPath(Join(prefix, p[..k + 14]));
        var distPackages := NormPath(Join(Join(prefix, p[..k]), "dist-packages"));
        if distPackages in searchPath && sitePackages !in searchPath
        then Replace(p, "/site-packages/", "/dist-packages/") else p
      else p;
    Join(prefix, p')
  }

  /** Without the Debian and virtual environment rules, a member lands at `join(prefix, name)`. */
  lemma InstallPathnamePlain(name: string, prefix: string, searchPath: set<string>)
    ensures InstallPathname(name, prefix, false, false, searchPath) == Join(prefix, name)
  {
  }

  /** Headers go below `include/site/` in a virtual environment. */
  lemma InstallPathnameHeaders(rest: string, prefix: string, searchPath: set<string>)
    ensures InstallPathname("include/" + rest, prefix, true, false, searchPath) == Join(prefix, "include/site/" + rest)
  {
    assert StartsWith("include/" + rest, "include/");
    assert ("include/" + rest)[8..] == rest;
  }

  /** The bytes written for a member: scripts starting with `#!/` get their hashbang fixed, as written. */
  function InstalledContents(data: seq<byte>, python: string): Result<seq<byte>, Error>
  {
    if StartsWith(data, Enc("#!/")) then FixHashbangAsWritten(data, python) else Ok(data)
  }

  /** The bytes the corrected installation writes: only the hashbang line of a Python script changes. */
  function CorrectedInstalledContents(data: seq<byte>, python: string): Result<seq<byte>, Error>
  {
    if StartsWith(data, Enc("#!/")) then FixHashbang(data, python) else Ok(data)
  }

  /**
   * The two installations write the same bytes for everything but a Python
   * script, and succeed or fail together; the corrected one keeps all of a
   * script after its first line.
   */
  lemma InstalledContentsAgree(data: seq<byte>, python: string)
    ensures InstalledContents(data, python).Ok? <==> CorrectedInstalledContents(data, python).Ok?
    ensures !(StartsWith(data, Enc("#!/")) && RunsPython(data)) ==> InstalledContents(data, python) == CorrectedInstalledContents(data, python)
    ensures CorrectedInstalledContents(data, python).Ok? && StartsWith(data, Enc("#!/")) && RunsPython(data) ==>
              CorrectedInstalledContents(data, python).value == Enc("#!" + python) + data[LineEnd(data)..]
  {
    FixHashbangSameDecision(data, python);
  }

  /** Anything that is not a `#!/` script is installed byte for byte. */
  lemma InstalledContentsVerbatim(data: seq<byte>, python: string)
    requires !StartsWith(data, Enc("#!/"))
    ensures InstalledContents(data, python) == Ok(data)
  {
  }

  /** Where each member goes, as a function of its name. */
  function Placement(prefix: string, venv: bool, onDebian: bool, searchPath: set<string>): string -> string
  {
    name => InstallPathname(name, prefix, venv, onDebian, searchPath)
  }

  /** What is written for each member, as a function of its data. */
  function Installation(python: string): seq<byte> -> Result<seq<byte>, Error>
  {
    data => InstalledContents(data, python)
  }

  /** The pathnames of the members, in order. */
  function InstallPaths(members: seq<Entry>, place: string -> string): (r: seq<string>)
    ensures |r| == |members|
    ensures forall i :: 0 <= i < |members| ==> r[i] == place(members[i].name)
  {
    seq(|members|, i requires 0 <= i < |members| => place(members[i].name))
  }

  function Payload(c: Result<seq<byte>, Error>): seq<byte>
  {
    match c
    case Ok(b) => b
    case Err(_) => []
  }

  /** The files the members leave behind: a later member at the same pathname wins. */
  function WrittenFiles(members: seq<Entry>, place: string -> string, install: seq<byte> -> Result<seq<byte>, Error>): map<string, seq<byte>>
  {
    if members == [] then map[]
    else
      var m := members[|members| - 1];
      WrittenFiles(members[..|members| - 1], place, install)[place(m.name) := Payload(install(m.data))]
  }

  /** The permission bits the members leave behind. */
  function WrittenModes(members: seq<Entry>, place: string -> string): map<string, nat>
  {
    if members == [] then map[]
    else
      var m := members[|members| - 1];
      WrittenModes(members[..|members| - 1], place)[place(m.name) := m.mode]
  }

  /** A member whose pathname no later member shares is installed with its own contents and mode. */
  lemma {:induction false} WrittenLast(members: seq<Entry>, i: nat, place: string -> string,
                                       install: seq<byte> -> Result<seq<byte>, Error>)
    requires i < |members|
    requires forall j :: i < j < |members| ==> place(members[j].name) != place(members[i].name)
    requires install(members[i].data).Ok?
    ensures place(members[i].name) in WrittenFiles(members, place, install)
    ensures WrittenFiles(members, place, install)[place(members[i].name)] == install(members[i].data).value
    ensures place(members[i].name) in WrittenModes(members, place)
    ensures WrittenModes(members, place)[place(members[i].name)] == members[i].mode
    decreases |members|
  {
    if i < |members| - 1 {
      var init := members[..|members| - 1];
      WrittenLast(init, i, place, install);
    }
  }

  /** One more member extends the files, modes and pathnames by its own. */
  lemma PathsStep(members: seq<Entry>, i: nat, place: string -> string)
    requires i < |members|
    ensures InstallPaths(members[..i + 1], place) == InstallPaths(members[..i], place) + [place(members[i].name)]
  {
  }

  lemma UnionUpdate<K, V>(m: map<K, V>, w: map<K, V>, k: K, v: V)
    ensures m + w[k := v] == (m + w)[k := v]
  {
  }

  /** The part of the file system that installing changes. */
  datatype Disk = Disk(files: map<string, seq<byte>>, dirs: set<string>, modes: map<string, nat>)

  /** `open(pathname, 'wb')` succeeds once the parent is made: the parent is a directory and `pathname` is not. */
  predicate Opens(files: map<string, seq<byte>>, dirs: set<string>, pathname: string)
  {
    Dirname(pathname) in DirsAfter(files, dirs, Dirname(pathname)) && pathname !in DirsAfter(files, dirs, Dirname(pathname))
  }

  /** Installing one member succeeds exactly when its file opens and its contents can be made. */
  predicate MemberInstalls(d: Disk, pathname: string, member: Entry, install: seq<byte> -> Result<seq<byte>, Error>)
  {
    Opens(d.files, d.dirs, pathname) && install(member.data).Ok?
  }

  /**
   * The disk after installing one member: its parent made; its file, once
   * opened, truncated and then filled when the contents can be made; its
   * mode set only when everything before succeeded.
   */
  function MemberDisk(d: Disk, pathname: string, member: Entry, install: seq<byte> -> Result<seq<byte>, Error>): Disk
  {
    var dirs := DirsAfter(d.files, d.dirs, Dirname(pathname));
    if !Opens(d.files, d.dirs, pathname) then Disk(d.files, dirs, d.modes)
    else match install(member.data)
      case Ok(c) => Disk(d.files[pathname := c], dirs, d.modes[pathname := member.mode])
      case Err(_) => Disk(d.files[pathname := []], dirs, d.modes)
  }

  /** Whether every member installs, and the disk the loop leaves: it stops at the first member that fails. */
  function MembersDisk(d: Disk, members: seq<Entry>, place: string -> string, install: seq<byte> -> Result<seq<byte>, Error>): (bool, Disk)
  {
    if members == [] then (true, d)
    else
      var m := members[|members| - 1];
      var (ok, d') := MembersDisk(d, members[..|members| - 1], place, install);
      if !ok then (false, d')
      else (MemberInstalls(d', place(m.name), m, install), MemberDisk(d', place(m.name), m, install))
  }

  lemma MembersDiskStep(d: Disk, members: seq<Entry>, i: nat, place: string -> string, install: seq<byte> -> Result<seq<byte>, Error>,
                        cur: Disk)
    requires i < |members| && MembersDisk(d, members[..i], place, install) == (true, cur)
    ensures MembersDisk(d, members[..i + 1], place, install)
            == (MemberInstalls(cur, place(members[i].name), members[i], install), MemberDisk(cur, place(members[i].name), members[i], install))
  {
    assert members[..i + 1][..i] == members[..i];
    assert members[..i + 1][i] == members[i];
  }

  lemma MembersDiskNext(d: Disk, members: seq<Entry>, i: nat, place: string -> string, install: seq<byte> -> Result<seq<byte>, Error>,
                        cur: Disk, ok: bool, next: Disk)
    requires i < |members| && MembersDisk(d, members[..i], place, install) == (true, cur)
    requires ok == MemberInstalls(cur, place(members[i].name), members[i], install)
    requires next == MemberDisk(cur, place(members[i].name), members[i], install)
    ensures MembersDisk(d, members[..i + 1], place, install) == (ok, next)
  {
    MembersDiskStep(d, members, i, place, install, cur);
  }

  lemma {:induction false} MembersDiskFailed(d: Disk, members: seq<Entry>, n: nat, place: string -> string,
                                             install: seq<byte> -> Result<seq<byte>, Error>)
    requires n <= |members| && !MembersDisk(d, members[..n], place, install).0
    ensures MembersDisk(d, members, place, install) == MembersDisk(d, members[..n], place, install)
    decreases |members| - n
  {
    if n < |members| {
      assert members[..n + 1][..n] == members[..n];
      MembersDiskFailed(d, members, n + 1, place, install);
    } else {
      assert members[..n] == members;
    }
  }

  /** When every member installs, the disk holds the files and modes they leave behind. */
  lemma {:induction false} MembersDiskWritten(d: Disk, members: seq<Entry>, place: string -> string,
                                              install: seq<byte> -> Result<seq<byte>, Error>)
    requires MembersDisk(d, members, place, install).0
    ensures MembersDisk(d, members, place, install).1.files == d.files + WrittenFiles(members, place, install)
    ensures MembersDisk(d, members, place, install).1.modes == d.modes + WrittenModes(members, place)
    ensures forall i :: 0 <= i < |members| ==> install(members[i].data).Ok?
  {
    if members != [] {
      var init := members[..|members| - 1];
      var m := members[|members| - 1];
      MembersDiskWritten(d, init, place, install);
      var d' := MembersDisk(d, init, place, install).1;
      assert MemberInstalls(d', place(m.name), m, install);
      UnionUpdate(d.files, WrittenFiles(init, place, install), place(m.name), Payload(install(m.data)));
      UnionUpdate(d.modes, WrittenModes(init, place), place(m.name), m.mode);
      forall i | 0 <= i < |members|
        ensures install(members[i].data).Ok?
      {
        if i < |init| {
          assert members[i] == init[i];
        }
      }
    }
  }

  /** The pathnames of the members. */
  function Targets(members: seq<Entry>, place: string -> string): set<string>
  {
    set i | 0 <= i < |members| :: place(members[i].name)
  }

  /** The directories the members need: the parent of each and its parents. */
  function Needed(members: seq<Entry>, place: string -> string): set<string>
  {
    set i, a | 0 <= i < |members| && a in DirChain(Dirname(place(members[i].name))) :: a
  }

  /**
   * The members can all be installed on `d`: their contents can be made,
   * every pathname has a directory part and is not a directory, and no
   * directory a member needs is a file or the pathname of a member.
   */
  predicate Clear(d: Disk, members: seq<Entry>, place: string -> string, install: seq<byte> -> Result<seq<byte>, Error>)
  {
    (forall i :: 0 <= i < |members| ==> install(members[i].data).Ok? && Dirname(place(members[i].name)) != "")
    && Targets(members, place) !! d.dirs
    && Needed(members, place) !! d.files.Keys
    && Needed(members, place) !! Targets(members, place)
  }

  /** One member installs on a disk that has no directory at its pathname and no file where its parents go. */
  lemma MemberClear(cur: Disk, p: string, m: Entry, install: seq<byte> -> Result<seq<byte>, Error>)
    requires install(m.data).Ok? && Dirname(p) != "" && p !in cur.dirs && p !in DirChain(Dirname(p))
    requires DirChain(Dirname(p)) !! cur.files.Keys
    ensures MemberInstalls(cur, p, m, install)
    ensures MemberDisk(cur, p, m, install).files.Keys == cur.files.Keys + {p}
    ensures MemberDisk(cur, p, m, install).dirs <= cur.dirs + DirChain(Dirname(p))
  {
    assert Dirname(p) in DirsAfter(cur.files, cur.dirs, Dirname(p));
  }

  lemma {:induction false} MembersDiskClear(d: Disk, members: seq<Entry>, n: nat, place: string -> string,
                                            install: seq<byte> -> Result<seq<byte>, Error>)
    requires n <= |members| && Clear(d, members, place, install)
    ensures MembersDisk(d, members[..n], place, install).0
    ensures MembersDisk(d, members[..n], place, install).1.files.Keys <= d.files.Keys + Targets(members, place)
    ensures MembersDisk(d, members[..n], place, install).1.dirs <= d.dirs + Needed(members, place)
  {
    if n == 0 {
      assert members[..0] == [];
    } else {
      var k := n - 1;
      MembersDiskClear(d, members, k, place, install);
      var cur := MembersDisk(d, members[..k], place, install).1;
      var p := place(members[k].name);
      assert p in Targets(members, place);
      assert DirChain(Dirname(p)) <= Needed(members, place);
      MemberClear(cur, p, members[k], install);
      MembersDiskStep(d, members, k, place, install, cur);
    }
  }

  /** A clear disk takes every member: the install loop then succeeds. */
  lemma MembersInstall(d: Disk, members: seq<Entry>, place: string -> string, install: seq<byte> -> Result<seq<byte>, Error>)
    requires Clear(d, members, place, install)
    ensures MembersDisk(d, members, place, install).0
  {
    MembersDiskClear(d, members, |members|, place, install);
    assert members[..|members|] == members;
  }

  /**
   * `if not os.path.isdir(directory): makedirs(directory)` for the parent of
   * `pathname`.
   */
  method MakeParent(fs: Fs, pathname: string) returns (r: Result<(), Error>)
    requires fs.Valid()
    modifies fs
    ensures fs.Valid()
    ensures fs.files == old(fs.files) && fs.modes == old(fs.modes) && fs.links == old(fs.links)
    ensures fs.dirs == DirsAfter(old(fs.files), old(fs.dirs), Dirname(pathname))
    ensures r.Ok? ==> Dirname(pathname) in fs.dirs || (Dirname(pathname) != "" && Dirname(pathname) in fs.files)
    ensures r.Err? ==> Dirname(pathname) !in fs.dirs
  {
    var directory := Dirname(pathname);
    if !fs.IsDir(directory) {
      var made := fs.Makedirs(directory);
      if made.Err? {
        return Err(made.error);
      }
    }
    return Ok(());
  }

  /** Install one member at `pathname`: create its directory, create and fill the file, set its mode. */
  method InstallMember(fs: Fs, member: Entry, pathname: string, install: seq<byte> -> Result<seq<byte>, Error>)
    returns (r: Result<(), Error>)
    requires fs.Valid()
    modifies fs
    ensures fs.Valid() && fs.links == old(fs.links)
    ensures r.Ok? <==> MemberInstalls(Disk(old(fs.files), old(fs.dirs), old(fs.modes)), pathname, member, install)
    ensures Disk(fs.files, fs.dirs, fs.modes) == MemberDisk(Disk(old(fs.files), old(fs.dirs), old(fs.modes)), pathname, member, install)
    ensures r.Ok? ==> install(member.data).Ok?
    ensures r.Ok? ==> fs.files == old(fs.files)[pathname := install(member.data).value]
    ensures r.Ok? ==> fs.modes == old(fs.modes)[pathname := member.mode]
  {
    var made := MakeParent(fs, pathname);
    if made.Err? {
      return Err(made.error);
    }
    var created := fs.Write(pathname, []);
    if created.Err? {
      return Err(created.error);
    }
    var contents := install(member.data);
    if contents.Err? {
      return Err(contents.error);
    }
    var _ := fs.Write(pathname, contents.value);
    var _ := fs.Chmod(pathname, member.mode);
    return Ok(());
  }

  /**
   * The loop of `install_binary_dist`: install each member in archive
   * order, at the pathname `place` gives its name, with the contents
   * `install` makes of its data.
   */
  method InstallMembers(fs: Fs, members: seq<Entry>, place: string -> string, install: seq<byte> -> Result<seq<byte>, Error>,
                        track: bool) returns (r: Result<seq<string>, Error>)
    requires fs.Valid()
    modifies fs
    ensures fs.Valid() && fs.links == old(fs.links)
    ensures r.Ok? <==> MembersDisk(Disk(old(fs.files), old(fs.dirs), old(fs.modes)), members, place, install).0
    ensures Disk(fs.files, fs.dirs, fs.modes) == MembersDisk(Disk(old(fs.files), old(fs.dirs), old(fs.modes)), members, place, install).1
    ensures r.Ok? ==> fs.files == old(fs.files) + WrittenFiles(members, place, install)
    ensures r.Ok? ==> fs.modes == old(fs.modes) + WrittenModes(members, place)
    ensures r.Ok? ==> r.value == if track then InstallPaths(members, place) else []
    ensures r.Ok? ==> forall i :: 0 <= i < |members| ==> install(members[i].data).Ok?
  {
    ghost var d0 := Disk(fs.files, fs.dirs, fs.modes);
    r := InstallEach(fs, members, place, install, track);
    if r.Ok? {
      MembersDiskWritten(d0, members, place, install);
    }
  }

  /** The loop itself, stated against the fold `MembersDisk`. */
  method InstallEach(fs: Fs, members: seq<Entry>, place: string -> string, install: seq<byte> -> Result<seq<byte>, Error>,
                     track: bool) returns (r: Result<seq<string>, Error>)
    requires fs.Valid()
    modifies fs
    ensures fs.Valid() && fs.links == old(fs.links)
    ensures MembersDisk(Disk(old(fs.files), old(fs.dirs), old(fs.modes)), members, place, install) == (r.Ok?, Disk(fs.files, fs.dirs, fs.modes))
    ensures r.Ok? ==> r.value == if track then InstallPaths(members, place) else []
  {
    ghost var d0 := Disk(fs.files, fs.dirs, fs.modes);
    var installed: seq<string> := [];
    var i := 0;
    while i < |members|
      invariant 0 <= i <= |members|
      invariant fs.Valid() && fs.links == old(fs.links)
      invariant MembersDisk(d0, members[..i], place, install) == (true, Disk(fs.files, fs.dirs, fs.modes))
      invariant installed == if track then InstallPaths(members[..i], place) else []
    {
      var pathname := place(members[i].name);
      if track {
        installed := installed + [pathname];
      }
      ghost var cur := Disk(fs.files, fs.dirs, fs.modes);
      PathsStep(members, i, place);
      var done := InstallMember(fs, members[i], pathname, install);
      MembersDiskNext(d0, members, i, place, install, cur, done.Ok?, Disk(fs.files, fs.dirs, fs.modes));
      if done.Err? {
        MembersDiskFailed(d0, members, i + 1, place, install);
        return Err(done.error);
      }
      i := i + 1;
    }
    assert members[..i] == members;
    return Ok(installed);
  }

  /** `fnmatch(fn, '*.egg-info/PKG-INFO')`. */
  predicate IsPkgInfo(fn: string)
  {
    EndsWith(fn, ".egg-info/PKG-INFO")
  }

  function PkgInfoFiles(installed: seq<string>): (r: seq<string>)
    ensures forall f :: f in r ==> f in installed && IsPkgInfo(f)
  {
    if installed == [] then []
    else (if IsPkgInfo(installed[0]) then [installed[0]] else []) + PkgInfoFiles(installed[1..])
  }

  /** Where the manifest goes: beside the only `PKG-INFO`, when there is exactly one. */
  function ManifestPath(installed: seq<string>): Option<string>
  {
    var infos := PkgInfoFiles(installed);
    if |infos| == 1 then Some(Join(Dirname(infos[0]), "installed-files.txt")) else None
  }

  /** Each path as the manifest lists it: relative to the `.egg-info` directory. */
  function Relativiser(eggInfo: string, cwd: string): string -> Option<string>
  {
    p => RelPath(p, eggInfo, cwd)
  }

  /** The manifest text: each installed path made relative, one per line. */
  function ManifestText(installed: seq<string>, rel: string -> Option<string>): Option<string>
  {
    if installed == [] then Some("")
    else
      match ManifestText(installed[..|installed| - 1], rel)
      case None => None
      case Some(t) =>
        match rel(installed[|installed| - 1])
        case None => None
        case Some(r) => Some(t + r + "\n")
  }

  /** The manifest `update_installed_files` writes, when it writes one. */
  function ManifestContent(installed: seq<string>, cwd: string): Option<string>
    requires ManifestPath(installed).Some?
  {
    ManifestText(installed, Relativiser(Dirname(PkgInfoFiles(installed)[0]), cwd))
  }

  /** The relative paths the manifest lists, in install order. */
  function Relatives(installed: seq<string>, rel: string -> Option<string>): (r: seq<string>)
    requires forall i :: 0 <= i < |installed| ==> rel(installed[i]).Some?
    ensures |r| == |installed|
    ensures forall i :: 0 <= i < |installed| ==> Some(r[i]) == rel(installed[i])
  {
    seq(|installed|, i requires 0 <= i < |installed| => rel(installed[i]).value)
  }

  lemma {:induction false} JoinSnocEmpty(parts: seq<string>, x: string)
    ensures JoinWith("\n", parts + [x] + [""]) == JoinWith("\n", parts + [""]) + x + "\n"
    decreases |parts|
  {
    if parts == [] {
      assert [] + [x] + [""] == [x, ""];
      JoinCons("\n", x, [""]);
      assert [] + [""] == [""];
    } else {
      JoinSnocEmpty(parts[1..], x);
      assert parts + [x] + [""] == [parts[0]] + (parts[1..] + [x] + [""]);
      assert parts + [""] == [parts[0]] + (parts[1..] + [""]);
      JoinCons("\n", parts[0], parts[1..] + [x] + [""]);
      JoinCons("\n", parts[0], parts[1..] + [""]);
    }
  }

  /** The manifest is the relative paths, each followed by a line break. */
  lemma {:induction false} ManifestJoin(installed: seq<string>, rel: string -> Option<string>)
    requires forall i :: 0 <= i < |installed| ==> rel(installed[i]).Some?
    ensures ManifestText(installed, rel) == Some(JoinWith("\n", Relatives(installed, rel) + [""]))
    decreases |installed|
  {
    if installed != [] {
      var init := installed[..|installed| - 1];
      assert forall i :: 0 <= i < |init| ==> init[i] == installed[i];
      ManifestJoin(init, rel);
      var rels := Relatives(installed, rel);
      var initRels := Relatives(init, rel);
      assert rels == initRels + [rels[|rels| - 1]];
      JoinSnocEmpty(initRels, rels[|rels| - 1]);
    }
  }

  /** Reading the manifest back line by line gives the relative paths, in order. */
  lemma ManifestLines(installed: seq<string>, rel: string -> Option<string>)
    requires forall i :: 0 <= i < |installed| ==> rel(installed[i]).Some? && '\n' !in rel(installed[i]).value
    ensures ManifestText(installed, rel).Some?
    ensures SplitOn(ManifestText(installed, rel).value, "\n") == Relatives(installed, rel) + [""]
  {
    ManifestJoin(installed, rel);
    var parts := Relatives(installed, rel) + [""];
    forall p | p in parts ensures '\n' !in p {
      var k :| 0 <= k < |parts| && parts[k] == p;
      if k < |installed| {
        assert Some(parts[k]) == rel(installed[k]);
      }
    }
    SplitJoin(parts, "\n");
  }

  /** Once a prefix of the list has no manifest, neither has the list. */
  lemma {:induction false} ManifestPrefixNone(installed: seq<string>, n: nat, rel: string -> Option<string>)
    requires n <= |installed| && ManifestText(installed[..n], rel).None?
    ensures ManifestText(installed, rel).None?
    decreases |installed| - n
  {
    if n < |installed| {
      assert installed[..n + 1][..n] == installed[..n];
      ManifestPrefixNone(installed, n + 1, rel);
    } else {
      assert installed[..n] == installed;
    }
  }

  /** The `with open(path, 'w')` block: write one relative path per line, as the loop goes. */
  method WriteManifest(fs: Fs, path: string, installed: seq<string>, rel: string -> Option<string>) returns (r: Result<(), Error>)
    requires fs.Valid()
    modifies fs
    ensures fs.Valid() && fs.dirs == old(fs.dirs) && fs.modes == old(fs.modes) && fs.links == old(fs.links)
    ensures r.Ok? ==> ManifestText(installed, rel).Some? && fs.files == old(fs.files)[path := Enc(ManifestText(installed, rel).value)]
    ensures r.Ok? <==> path !in old(fs.dirs) && old(fs.ParentExists(path)) && ManifestText(installed, rel).Some?
  {
    var created := fs.Write(path, []);
    if created.Err? {
      return Err(created.error);
    }
    var text := "";
    var i := 0;
    while i < |installed|
      invariant 0 <= i <= |installed|
      invariant fs.Valid() && fs.dirs == old(fs.dirs) && fs.modes == old(fs.modes) && fs.links == old(fs.links)
      invariant path !in fs.dirs && fs.ParentExists(path)
      invariant ManifestText(installed[..i], rel) == Some(text)
      invariant fs.files == old(fs.files)[path := Enc(text)]
    {
      assert installed[..i + 1][..i] == installed[..i];
      assert installed[..i + 1][i] == installed[i];
      var relative := rel(installed[i]);
      if relative.None? {
        ManifestPrefixNone(installed, i + 1, rel);
        return Err(ValueError("no path specified"));
      }
      text := text + relative.value + "\n";
      var _ := fs.Write(path, Enc(text));
      i := i + 1;
    }
    assert installed[..i] == installed;
    return Ok(());
  }

  /** There is no manifest to write, or its directory exists, it is not a directory, and every path has a relative form. */
  predicate ManifestWritable(dirs: set<string>, installed: seq<string>, cwd: string)
  {
    ManifestPath(installed).None?
    || (var path := ManifestPath(installed).value;
        path !in dirs && (Dirname(path) == "" || Dirname(path) in dirs) && ManifestContent(installed, cwd).Some?)
  }

  /**
   * `update_installed_files(installed)`: write the manifest beside the only
   * `PKG-INFO`; with none or several, write nothing. `relpath` of an empty
   * path raises ValueError.
   */
  method UpdateInstalledFiles(fs: Fs, installed: seq<string>, cwd: string) returns (r: Result<(), Error>)
    requires fs.Valid()
    modifies fs
    ensures fs.Valid() && fs.dirs == old(fs.dirs) && fs.modes == old(fs.modes) && fs.links == old(fs.links)
    ensures ManifestPath(installed).None? ==> r == Ok(()) && fs.files == old(fs.files)
    ensures ManifestPath(installed).Some? && r.Ok? ==>
              ManifestContent(installed, cwd).Some?
              && fs.files == old(fs.files)[ManifestPath(installed).value := Enc(ManifestContent(installed, cwd).value)]
    ensures r.Ok? <==> ManifestWritable(old(fs.dirs), installed, cwd)
  {
    var pkgInfoFiles := PkgInfoFiles(installed);
    if |pkgInfoFiles| != 1 {
      return Ok(());
    }
    var eggInfo := Dirname(pkgInfoFiles[0]);
    r := WriteManifest(fs, Join(eggInfo, "installed-files.txt"), installed, Relativiser(eggInfo, cwd));
  }

  /** The install prefix: the given one, else the configured one, normalised. */
  function RootOf(prefix: string, defaultPrefix: string): string
  {
    NormPath(if prefix != "" then prefix else defaultPrefix)
  }

  /** The normalised module search path. */
  function SearchPathOf(sysPath: seq<string>): set<string>
  {
    set p | p in sysPath :: NormPath(p)
  }

  /**
   * `install_binary_dist(members, ...)`: install every member below the
   * prefix (the given one or the configured one, normalised) and, when
   * tracking installed files, write the manifest.
   */
  method InstallBinaryDist(fs: Fs, members: seq<Entry>, prefix: string, defaultPrefix: string, python: string,
                           defaultPython: string, venv: bool, track: bool, onDebian: bool, sysPath: seq<string>,
                           cwd: string) returns (r: Result<(), Error>)
    requires fs.Valid()
    modifies fs
    ensures fs.Valid() && fs.links == old(fs.links)
    ensures var place := Placement(RootOf(prefix, defaultPrefix), venv, onDebian, SearchPathOf(sysPath));
            var done := MembersDisk(Disk(old(fs.files), old(fs.dirs), old(fs.modes)), members, place, Installation(RootOf(python, defaultPython)));
            && (r.Ok? <==> done.0 && (!track || ManifestWritable(done.1.dirs, InstallPaths(members, place), cwd)))
            && fs.dirs == done.1.dirs && fs.modes == done.1.modes
            && (!done.0 || !track ==> fs.files == done.1.files)
    ensures r.Ok? ==> forall i :: 0 <= i < |members| ==> Installation(RootOf(python, defaultPython))(members[i].data).Ok?
    ensures r.Ok? ==> fs.modes == old(fs.modes) + WrittenModes(members, Placement(RootOf(prefix, defaultPrefix), venv, onDebian, SearchPathOf(sysPath)))
    ensures r.Ok? && (!track || ManifestPath(InstallPaths(members, Placement(RootOf(prefix, defaultPrefix), venv, onDebian, SearchPathOf(sysPath)))).None?) ==>
              fs.files == old(fs.files) + WrittenFiles(members, Placement(RootOf(prefix, defaultPrefix), venv, onDebian, SearchPathOf(sysPath)),
                                                       Installation(RootOf(python, defaultPython)))
    ensures r.Ok? && track ==>
              var installed := InstallPaths(members, Placement(RootOf(prefix, defaultPrefix), venv, onDebian, SearchPathOf(sysPath)));
              ManifestPath(installed).Some? ==>
                ManifestContent(installed, cwd).Some?
                && fs.files == (old(fs.files) + WrittenFiles(members, Placement(RootOf(prefix, defaultPrefix), venv, onDebian, SearchPathOf(sysPath)),
                                                             Installation(RootOf(python, defaultPython))))
                                 [ManifestPath(installed).value := Enc(ManifestContent(installed, cwd).value)]
  {
    var root := RootOf(prefix, defaultPrefix);
    var interpreter := RootOf(python, defaultPython);
    var installed := InstallMembers(fs, members, Placement(root, venv, onDebian, SearchPathOf(sysPath)), Installation(interpreter), track);
    if installed.Err? {
      return Err(installed.error);
    }
    if track {
      r := UpdateInstalledFiles(fs, installed.value, cwd);
      if r.Err? {
        return;
      }
    }
    return Ok(());
  }

  // ---------------------------------------------------------------------
  // Cache invalidation

  /** The sidecar file holding the checksum a cached archive was built from. */
  function ChecksumFile(cacheFile: string): string
  {
    cacheFile + ".txt"
  }

  /**
   * `needs_invalidation`: with trusted modification times, stale when the
   * sources are newer than the archive; otherwise stale when a non-empty
   * recorded checksum differs from the current one (which is only computed
   * in that case).
   */
  function NeedsInvalidation(trustModTimes: bool, lastModified: int, cacheMtime: int, recalled: Option<string>,
                             current: Result<string, Error>): (r: Result<bool, Error>)
    ensures trustModTimes ==> r == Ok(lastModified > cacheMtime)
    ensures !trustModTimes && (recalled.None? || recalled.value == "") ==> r == Ok(false)
    ensures !trustModTimes && recalled.Some? && recalled.value != "" && current.Ok? ==> r == Ok(recalled.value != current.value)
    ensures !trustModTimes && recalled.Some? && recalled.value != "" && current.Err? ==> r == Err(current.error)
  {
    if trustModTimes then Ok(lastModified > cacheMtime)
    else if recalled.None? || recalled.value == "" then Ok(false)
    else match current
      case Err(e) => Err(e)
      case Ok(c) => Ok(recalled.value != c)
  }

  /** `recall_checksum(cache_file)`: the stripped sidecar contents, None when it does not exist. */
  method RecallChecksum(fs: Fs, cacheFile: string) returns (r: Result<Option<string>, Error>)
    ensures ChecksumFile(cacheFile) in fs.files ==> r == Ok(Some(Strip(Dec(fs.files[ChecksumFile(cacheFile)]))))
    ensures ChecksumFile(cacheFile) !in fs.files && ChecksumFile(cacheFile) !in fs.dirs ==> r == Ok(None)
    ensures ChecksumFile(cacheFile) !in fs.files && ChecksumFile(cacheFile) in fs.dirs ==> r == Err(OsError(EISDIR))
  {
    var contents := fs.Read(ChecksumFile(cacheFile));
    match contents {
      case Ok(data) => return Ok(Some(Strip(Dec(data))));
      case Err(e) =>
        if e == OsError(ENOENT) {
          return Ok(None);
        }
        return Err(e);
    }
  }

  /**
   * `persist_checksum`: in checksum mode, write the checksum and a line
   * break through `AtomicReplace`. The checksum is computed only once the
   * temporary file is open, so when computing it raises, the temporary file
   * is left behind empty and the sidecar is not touched.
   */
  method PersistChecksum(fs: Fs, trustModTimes: bool, cacheFile: string, checksum: Result<string, Error>, pid: nat)
    returns (r: Result<(), Error>)
    requires fs.Valid()
    modifies fs
    ensures fs.Valid() && fs.dirs == old(fs.dirs)
    ensures trustModTimes ==> r == Ok(()) && fs.files == old(fs.files)
    ensures var temporary := ChecksumFile(cacheFile) + ".tmp-" + NatToString(pid);
            var opens := temporary !in old(fs.dirs) && old(fs.ParentExists(temporary));
            !trustModTimes && checksum.Err? ==>
              r.Err? && (opens ==> r == Err(checksum.error))
              && fs.files == if opens then old(fs.files)[temporary := []] else old(fs.files)
    ensures !trustModTimes && r.Ok? ==>
              checksum.Ok?
              && fs.files == (old(fs.files) - {ChecksumFile(cacheFile) + ".tmp-" + NatToString(pid)})
                               [ChecksumFile(cacheFile) := Enc(checksum.value + "\n")]
    ensures var temporary := ChecksumFile(cacheFile) + ".tmp-" + NatToString(pid);
            (!trustModTimes && checksum.Ok? && ChecksumFile(cacheFile) !in old(fs.dirs) && temporary !in old(fs.dirs)
             && old(fs.ParentExists(ChecksumFile(cacheFile))) && Dirname(temporary) == Dirname(ChecksumFile(cacheFile))) ==> r.Ok?
  {
    if trustModTimes {
      return Ok(());
    }
    var replace := new AtomicReplace(ChecksumFile(cacheFile), pid);
    var temporary := replace.Enter();
    var created := fs.Write(temporary, []);
    if created.Err? {
      var _ := replace.Exit(true, fs);
      return Err(created.error);
    }
    if checksum.Err? {
      var _ := replace.Exit(true, fs);
      return Err(checksum.error);
    }
    var _ := fs.Write(temporary, Enc(checksum.value + "\n"));
    r := replace.Exit(false, fs);
  }

  /** Recalling a persisted checksum gives it back. */
  lemma ChecksumRoundTrip(checksum: string)
    requires Latin1(checksum)
    requires checksum == [] || (!IsSpace(checksum[0]) && !IsSpace(checksum[|checksum| - 1]))
    ensures Strip(Dec(Enc(checksum + "\n"))) == checksum
  {
    assert Latin1(checksum + "\n");
    DecEnc(checksum + "\n");
    StripNewline(checksum);
  }

  /** After its checksum was persisted, an archive whose sources did not change is not stale. */
  lemma FreshAfterPersist(checksum: string, lastModified: int, cacheMtime: int)
    requires Latin1(checksum) && checksum != [] && !IsSpace(checksum[0]) && !IsSpace(checksum[|checksum| - 1])
    ensures NeedsInvalidation(false, lastModified, cacheMtime, Some(Strip(Dec(Enc(checksum + "\n")))), Ok(checksum)) == Ok(false)
    ensures forall other :: other != checksum ==>
              NeedsInvalidation(false, lastModified, cacheMtime, Some(Strip(Dec(Enc(checksum + "\n")))), Ok(other)) == Ok(true)
  {
    ChecksumRoundTrip(checksum);
    var recalled := Some(Strip(Dec(Enc(checksum + "\n"))));
    assert recalled == Some(checksum);
    forall other | other != checksum
      ensures NeedsInvalidation(false, lastModified, cacheMtime, recalled, Ok(other)) == Ok(true)
    {
      assert recalled.value != other;
    }
  }

  // ---------------------------------------------------------------------
  // Building

  /** What one run of `setup.py` reports: its exit status and the files in `dist/` (None: no such directory). */
  datatype BuildRun = BuildRun(returnCode: int, dist: Option<seq<string>>)

  const DumbCommand: seq<string> := ["bdist_dumb", "--format=tar"]
  const GztarCommand: seq<string> := ["bdist", "--formats=gztar"]

  /**
   * `build_binary_dist_helper`: refuse a directory without `setup.py`;
   * otherwise run the build and demand a zero exit status and exactly one
   * file in `dist/`.
   */
  function BuildHelper(sourceDir: string, setupExists: bool, run: BuildRun): (r: Result<string, Error>)
    ensures !setupExists ==> r.Err? && r.error.InvalidSourceDistribution?
    ensures setupExists && run.returnCode != 0 ==> r.Err? && r.error.BuildFailed?
    ensures setupExists && run.returnCode == 0 && (run.dist.None? || |run.dist.value| != 1) ==> r.Err? && r.error.NoBuildOutput?
    ensures r.Ok? <==> setupExists && run.returnCode == 0 && run.dist.Some? && |run.dist.value| == 1
    ensures r.Ok? ==> r.value == Join(Join(sourceDir, "dist"), run.dist.value[0])
  {
    if !setupExists then Err(InvalidSourceDistribution("directory doesn't contain a source distribution"))
    else if run.returnCode != 0 then Err(BuildFailed("failed to build binary distribution"))
    else if run.dist.None? then Err(NoBuildOutput("build did not produce a binary distribution archive"))
    else if |run.dist.value| != 1 then Err(NoBuildOutput("build produced more than one distribution archive"))
    else Ok(Join(Join(sourceDir, "dist"), run.dist.value[0]))
  }

  /** A build's result and the `setup.py` commands it ran. */
  datatype BuildOutcome = BuildOutcome(result: Result<string, Error>, commands: seq<seq<string>>)

  /** The errors after which `build_binary_dist` falls back to `bdist`. */
  predicate FallbackError(e: Error)
  {
    e.BuildFailed? || e.NoBuildOutput?
  }

  /**
   * `build_binary_dist`: `bdist_dumb --format=tar`, and only when that
   * fails to build or to produce output, `bdist --formats=gztar` once.
   */
  function BuildBinaryDist(sourceDir: string, setupExists: bool, dumb: BuildRun, gztar: BuildRun): (o: BuildOutcome)
    ensures !setupExists ==> o.commands == [] && o.result.Err? && o.result.error.InvalidSourceDistribution?
    ensures setupExists && BuildHelper(sourceDir, true, dumb).Ok? ==> o == BuildOutcome(BuildHelper(sourceDir, true, dumb), [DumbCommand])
    ensures setupExists && BuildHelper(sourceDir, true, dumb).Err? ==>
              o == BuildOutcome(BuildHelper(sourceDir, true, gztar), [DumbCommand, GztarCommand])
    ensures |o.commands| <= 2
  {
    var first := BuildHelper(sourceDir, setupExists, dumb);
    if first.Err? && FallbackError(first.error) then BuildOutcome(BuildHelper(sourceDir, setupExists, gztar), [DumbCommand, GztarCommand])
    else BuildOutcome(first, if setupExists then [DumbCommand] else [])
  }

  /** Where `get_binary_dist` takes the archive from. */
  datatype Source = FromCache(cacheFile: string) | Built(rawFile: string, builds: nat)

  /**
   * `get_binary_dist`'s decision: use a cached archive that is not stale;
   * otherwise build, and after a BuildFailed build once more only when
   * installing missing system packages reported success. `installed` is
   * what `SystemPackageManager.install_dependencies` returned or raised
   * (DependencyInstallationRefused, DependencyInstallationFailed).
   */
  function GetBinaryDistSource(cached: Option<string>, stale: Result<bool, Error>, first: BuildOutcome,
                               installed: Result<bool, Error>, second: BuildOutcome): (r: Result<Source, Error>)
    ensures r.Ok? && r.value.FromCache? <==> cached.Some? && cached.value != "" && stale == Ok(false)
    ensures r.Ok? && r.value.FromCache? ==> r.value.cacheFile == cached.value
    ensures r.Ok? && r.value.Built? ==> (r.value.builds == 1 && first.result == Ok(r.value.rawFile))
                                        || (r.value.builds == 2 && first.result.Err? && first.result.error.BuildFailed?
                                            && installed == Ok(true) && second.result == Ok(r.value.rawFile))
    ensures cached.Some? && cached.value != "" && stale.Err? ==> r == Err(stale.error)
    // when the archive is built: only BuildFailed leads to installing system packages and a retry
    ensures (cached.None? || cached.value == "" || stale == Ok(true)) && first.result.Err? ==>
              && (!first.result.error.BuildFailed? ==> r == Err(first.result.error))
              && (first.result.error.BuildFailed? && installed.Err? ==> r == Err(installed.error))
              && (first.result.error.BuildFailed? && installed == Ok(false) ==> r == Err(first.result.error))
              && (first.result.error.BuildFailed? && installed == Ok(true) && second.result.Err? ==> r == Err(second.result.error))
  {
    if cached.Some? && cached.value != "" && stale.Err? then Err(stale.error)
    else if cached.Some? && cached.value != "" && stale == Ok(false) then Ok(FromCache(cached.value))
    else match first.result
      case Ok(raw) => Ok(Built(raw, 1))
      case Err(e) =>
        if !e.BuildFailed? then Err(e)
        else match installed
          case Err(refused) => Err(refused)
          case Ok(false) => Err(e)
          case Ok(true) =>
            match second.result
            case Ok(raw) => Ok(Built(raw, 2))
            case Err(e2) => Err(e2)
  }
}
