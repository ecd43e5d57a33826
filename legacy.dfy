/**
 * pip_accel.py: the original single-module pip-accel. It runs pip with
 * `--no-install` against a local source index (and, when that fails,
 * against PyPI to fill the index), builds `python setup.py bdist` archives
 * into a binary index, and installs them by unpacking the `lib/`, `bin/`
 * and `man/` parts of each archive below the install prefix.
 *
 * pip, the builder and the archive reader are oracles: their answers are
 * parameters.
 */
module Legacy {
  import opened Wrappers
  import opened Text
  import opened Errors
  import opened Paths
  import opened FileSystem
  import opened Sorting
  import opened BinaryDist

  // ---------------------------------------------------------------------
  // add_extension

  /** The first bytes of a gzip, bzip2 and ZIP file. */
  const GzipMagic: string := [0x1f as char, 0x8b as char]
  const Bzip2Magic: string := "BZ"
  const ZipMagic: string := "PK"

  /**
   * `add_extension`: the archive name, with the extension the file's
   * two-byte header calls for appended unless it already has it.
   */
  function AddExtension(header: string, archivePath: string): string
  {
    if StartsWith(header, GzipMagic) then
      (if EndsWith(archivePath, ".tgz") || EndsWith(archivePath, ".tar.gz") then archivePath else archivePath + ".tar.gz")
    else if StartsWith(header, Bzip2Magic) then
      (if EndsWith(archivePath, ".bz2") then archivePath else archivePath + ".bz2")
    else if StartsWith(header, ZipMagic) then
      (if EndsWith(archivePath, ".zip") then archivePath else archivePath + ".zip")
    else archivePath
  }

  /** The extensions that count as present for each kind of header. */
  predicate HasExtensionFor(header: string, p: string)
  {
    if StartsWith(header, GzipMagic) then EndsWith(p, ".tgz") || EndsWith(p, ".tar.gz")
    else if StartsWith(header, Bzip2Magic) then EndsWith(p, ".bz2")
    else if StartsWith(header, ZipMagic) then EndsWith(p, ".zip")
    else true
  }

  lemma EndsWithAppend(p: string, ext: string)
    ensures EndsWith(p + ext, ext)
  {
    assert (p + ext)[|p + ext| - |ext|..] == ext;
  }

  /**
   * The result is the name itself or the name with an extension appended;
   * it always has the extension the header calls for, and it is the name
   * unchanged exactly when the name already had one (or the header is not
   * recognised).
   */
  lemma AddExtensionMeaning(header: string, archivePath: string)
    ensures StartsWith(AddExtension(header, archivePath), archivePath)
    ensures HasExtensionFor(header, AddExtension(header, archivePath))
    ensures AddExtension(header, archivePath) == archivePath <==> HasExtensionFor(header, archivePath)
    ensures !StartsWith(header, GzipMagic) && !StartsWith(header, Bzip2Magic) && !StartsWith(header, ZipMagic) ==>
              AddExtension(header, archivePath) == archivePath
  {
    EndsWithAppend(archivePath, ".tar.gz");
    EndsWithAppend(archivePath, ".bz2");
    EndsWithAppend(archivePath, ".zip");
    assert (archivePath + ".tar.gz")[..|archivePath|] == archivePath;
    assert (archivePath + ".bz2")[..|archivePath|] == archivePath;
    assert (archivePath + ".zip")[..|archivePath|] == archivePath;
  }

  /** Adding the extension twice adds it once. */
  lemma AddExtensionIdempotent(header: string, archivePath: string)
    ensures AddExtension(header, AddExtension(header, archivePath)) == AddExtension(header, archivePath)
  {
    AddExtensionMeaning(header, archivePath);
    AddExtensionMeaning(header, AddExtension(header, archivePath));
  }

  /** `add_extension(download_path, archive_path)`: read the first two bytes of the download and name the archive after them. */
  method AddExtensionOf(fs: Fs, downloadPath: string, archivePath: string) returns (r: Result<string, Error>)
    ensures downloadPath in fs.files ==>
              r == Ok(AddExtension(Dec(fs.files[downloadPath][..Min(2, |fs.files[downloadPath]|)]), archivePath))
    ensures downloadPath !in fs.files ==> r.Err?
  {
    var data := fs.Read(downloadPath);
    if data.Err? {
      return Err(data.error);
    }
    var header := Dec(data.value[..Min(2, |data.value|)]);
    return Ok(AddExtension(header, archivePath));
  }

  function Min(a: nat, b: nat): nat
  {
    if a < b then a else b
  }

  // ---------------------------------------------------------------------
  // find_bdist_contents

  /** The directories of a `bdist` archive that are installed. */
  const InstalledDirectories: seq<string> := ["lib", "bin", "man"]

  /** One file to install: its name in the archive, its name below the prefix, and its mode. */
  datatype Content = Content(originalPath: string, relativePath: string, mode: nat)

  /** The name below the prefix `X/` gives a path: `X` joined with the text after the last `/X/`. */
  function RelocatedUnder(path: string, x: string): Option<string>
  {
    var tokens := SplitOn(path, "/" + x + "/");
    if |tokens| >= 2 then Some(Join(x, tokens[|tokens| - 1])) else None
  }

  /**
   * The name `find_bdist_contents` gives a regular file: the first of
   * `lib`, `bin` and `man` (from index `j` on) under which it relocates to
   * a different path.
   */
  function Relocated(path: string, j: nat): Option<string>
    requires j <= |InstalledDirectories|
    decreases |InstalledDirectories| - j
  {
    if j == |InstalledDirectories| then None
    else
      var r := RelocatedUnder(path, InstalledDirectories[j]);
      if r.Some? && r.value != path then r else Relocated(path, j + 1)
  }

  /** A suffix of the end of a sequence is a suffix of the whole. */
  lemma EndsWithAfter<T>(a: seq<T>, b: seq<T>, x: seq<T>)
    requires EndsWith(b, x)
    ensures EndsWith(a + b, x)
  {
    assert (a + b)[|a + b| - |x|..] == b[|b| - |x|..];
  }

  /** The last piece of a split is what follows the last cut. */
  lemma {:induction false} SplitLastPiece<T>(s: seq<T>, sep: seq<T>)
    requires |sep| > 0 && |SplitOn(s, sep)| >= 2
    ensures EndsWith(s, sep + SplitOn(s, sep)[|SplitOn(s, sep)| - 1])
    decreases |s|
  {
    var k := Find(s, sep, 0);
    SplitCut(s, sep);
    var rest := s[k + |sep|..];
    var tail := SplitOn(rest, sep);
    assert SplitOn(s, sep)[|SplitOn(s, sep)| - 1] == tail[|tail| - 1];
    if |tail| >= 2 {
      SplitLastPiece(rest, sep);
      EndsWithAfter(s[..k] + sep, rest, sep + tail[|tail| - 1]);
    } else {
      SplitWhole(rest, sep);
      assert EndsWith(sep + rest, sep + rest);
      EndsWithAfter(s[..k], sep + rest, sep + rest);
    }
  }

  /** Where a split cuts first: the text before the separator, the separator and the rest. */
  lemma SplitCut<T>(s: seq<T>, sep: seq<T>)
    requires |sep| > 0 && |SplitOn(s, sep)| >= 2
    ensures var k := Find(s, sep, 0);
            k >= 0
            && s == s[..k] + (sep + s[k + |sep|..]) && s == (s[..k] + sep) + s[k + |sep|..]
            && SplitOn(s, sep) == [s[..k]] + SplitOn(s[k + |sep|..], sep)
  {
    var k := Find(s, sep, 0);
    assert k >= 0;
    assert SplitOn(s, sep) == [s[..k]] + SplitOn(s[k + |sep|..], sep);
    CutAt(s, sep, k);
  }

  /** A sequence is what comes before an occurrence of `sep`, `sep`, and what comes after. */
  lemma CutAt<T>(s: seq<T>, sep: seq<T>, k: nat)
    requires k + |sep| <= |s| && s[k..k + |sep|] == sep
    ensures s == s[..k] + (sep + s[k + |sep|..]) && s == (s[..k] + sep) + s[k + |sep|..]
  {
    assert s == s[..k] + s[k..k + |sep|] + s[k + |sep|..];
  }

  /** A split into one piece leaves the text whole. */
  lemma SplitWhole<T>(s: seq<T>, sep: seq<T>)
    requires |sep| > 0 && |SplitOn(s, sep)| < 2
    ensures SplitOn(s, sep) == [s]
  {
  }

  /**
   * A relocated file lies below one of `lib/`, `bin/` or `man/` in the
   * archive: its archive name ends with `/X/` followed by the text the new
   * name joins to `X`, and the new name differs from the archive name.
   * A file that is not relocated has no such directory in its name, or
   * would keep its name.
   */
  lemma RelocatedMeaning(path: string, j: nat)
    requires j <= |InstalledDirectories|
    ensures Relocated(path, j).Some? ==>
              Relocated(path, j).value != path
              && exists x, rest :: x in InstalledDirectories[j..] && EndsWith(path, "/" + x + "/" + rest)
                                   && Relocated(path, j).value == Join(x, rest)
    ensures Relocated(path, j).None? ==>
              forall i :: j <= i < |InstalledDirectories| ==>
                !Contains(path, "/" + InstalledDirectories[i] + "/") || RelocatedUnder(path, InstalledDirectories[i]) == Some(path)
  {
    if Relocated(path, j).Some? {
      RelocatedSome(path, j);
    } else {
      RelocatedNone(path, j);
    }
  }

  lemma {:induction false} RelocatedSome(path: string, j: nat)
    requires j <= |InstalledDirectories| && Relocated(path, j).Some?
    ensures Relocated(path, j).value != path
    ensures exists x, rest :: x in InstalledDirectories[j..] && EndsWith(path, "/" + x + "/" + rest)
                              && Relocated(path, j).value == Join(x, rest)
    decreases |InstalledDirectories| - j
  {
    var x := InstalledDirectories[j];
    var r := RelocatedUnder(path, x);
    if r.Some? && r.value != path {
      assert Relocated(path, j) == r;
      var rest := RelocatedHere(path, x);
      assert InstalledDirectories[j..][0] == x;
    } else {
      assert Relocated(path, j) == Relocated(path, j + 1);
      RelocatedSome(path, j + 1);
      var y, rest :| y in InstalledDirectories[j + 1..] && EndsWith(path, "/" + y + "/" + rest)
                     && Relocated(path, j + 1).value == Join(y, rest);
      assert y in InstalledDirectories[j..];
    }
  }

  /** Relocating under one directory keeps what follows its last `/x/`. */
  lemma RelocatedHere(path: string, x: string) returns (rest: string)
    requires RelocatedUnder(path, x).Some?
    ensures EndsWith(path, "/" + x + "/" + rest) && RelocatedUnder(path, x).value == Join(x, rest)
  {
    var sep := "/" + x + "/";
    var tokens := SplitOn(path, sep);
    SplitLastPiece(path, sep);
    rest := tokens[|tokens| - 1];
    assert sep + rest == "/" + x + "/" + rest;
  }

  /** A path that splits into one piece does not contain the separator. */
  lemma SplitOnePiece<T>(s: seq<T>, sep: seq<T>)
    requires |sep| > 0 && |SplitOn(s, sep)| < 2
    ensures !Contains(s, sep)
  {
  }

  lemma {:induction false} RelocatedNone(path: string, j: nat)
    requires j <= |InstalledDirectories| && Relocated(path, j).None?
    ensures forall i :: j <= i < |InstalledDirectories| ==>
              !Contains(path, "/" + InstalledDirectories[i] + "/") || RelocatedUnder(path, InstalledDirectories[i]) == Some(path)
    decreases |InstalledDirectories| - j
  {
    if j < |InstalledDirectories| {
      var x := InstalledDirectories[j];
      RelocatedNoneStep(path, j);
      RelocatedNone(path, j + 1);
      if RelocatedUnder(path, x).None? {
        SplitOnePiece(path, "/" + x + "/");
      }
    }
  }

  lemma RelocatedNoneStep(path: string, j: nat)
    requires j < |InstalledDirectories| && Relocated(path, j).None?
    ensures Relocated(path, j + 1).None?
    ensures RelocatedUnder(path, InstalledDirectories[j]).None? || RelocatedUnder(path, InstalledDirectories[j]) == Some(path)
  {
  }

  /** What the loop of `find_bdist_contents` keeps of the archive members: the regular files that relocate, in order. */
  function BdistContents(members: seq<Entry>): seq<Content>
  {
    if members == [] then []
    else
      var m := members[|members| - 1];
      BdistContents(members[..|members| - 1])
      + (if m.kind == RegularFile && Relocated(m.name, 0).Some? then [Content(m.name, Relocated(m.name, 0).value, m.mode)] else [])
  }

  /**
   * Every content entry is a regular file of the archive, with its mode,
   * under its relocated name; and every regular file that relocates is
   * there. Directories, links and devices never are.
   */
  lemma {:induction false} BdistContentsFacts(members: seq<Entry>)
    ensures |BdistContents(members)| <= |members|
    ensures forall c :: c in BdistContents(members) ==>
              exists m :: m in members && m.kind == RegularFile && m.name == c.originalPath && m.mode == c.mode
                          && Relocated(m.name, 0) == Some(c.relativePath)
    ensures forall m :: m in members && m.kind == RegularFile && Relocated(m.name, 0).Some? ==>
              Content(m.name, Relocated(m.name, 0).value, m.mode) in BdistContents(members)
    decreases |members|
  {
    if members != [] {
      var init := members[..|members| - 1];
      BdistContentsFacts(init);
      assert members == init + [members[|members| - 1]];
    }
  }

  /** The loop over `lib`, `bin` and `man` for one member: what it adds to the contents. */
  method RelocateMember(member: Entry) returns (c: Option<Content>)
    ensures member.kind == RegularFile && Relocated(member.name, 0).Some? ==>
              c == Some(Content(member.name, Relocated(member.name, 0).value, member.mode))
    ensures !(member.kind == RegularFile && Relocated(member.name, 0).Some?) ==> c == None
  {
    c := None;
    var j := 0;
    while j < |InstalledDirectories| && c.None?
      invariant 0 <= j <= |InstalledDirectories|
      invariant c.None? ==> member.kind == RegularFile ==> Relocated(member.name, 0) == Relocated(member.name, j)
      invariant c.Some? ==> member.kind == RegularFile && Relocated(member.name, 0).Some?
                            && c == Some(Content(member.name, Relocated(member.name, 0).value, member.mode))
    {
      var relative := RelocatedUnder(member.name, InstalledDirectories[j]);
      if relative.Some? && relative.value != member.name && member.kind == RegularFile {
        c := Some(Content(member.name, relative.value, member.mode));
      }
      j := j + 1;
    }
  }

  /** `find_bdist_contents(archive)`: read the members one at a time and collect the files to install. */
  method FindBdistContents(members: seq<Entry>) returns (contents: seq<Content>)
    ensures contents == BdistContents(members)
  {
    contents := [];
    var i := 0;
    while i < |members|
      invariant 0 <= i <= |members|
      invariant contents == BdistContents(members[..i])
    {
      var c := RelocateMember(members[i]);
      if c.Some? {
        contents := contents + [c.value];
      }
      assert members[..i + 1][..i] == members[..i];
      i := i + 1;
    }
    assert members[..i] == members;
  }

  // ---------------------------------------------------------------------
  // install_binary_dist

  /** Where the first line ends: at the first newline byte, or at the end. */
  function FirstNewline(s: seq<byte>): (k: nat)
    ensures k <= |s| && forall i :: 0 <= i < k ==> s[i] != 10
    ensures k < |s| ==> s[k] == 10
  {
    if s == [] || s[0] == 10 then 0 else 1 + FirstNewline(s[1..])
  }

  /**
   * The hashbang rule of `install_binary_dist`: a file starting with `#!/`
   * has everything before its first newline replaced by `#!` and the
   * interpreter (the substitution of `^#![^\n]+`), whatever interpreter
   * it named; any other file is written as it is.
   */
  function FixHashbang(contents: seq<byte>, python: string): seq<byte>
  {
    if StartsWith(contents, Enc("#!/")) then Enc("#!" + python) + contents[FirstNewline(contents)..] else contents
  }

  /** A line without newlines followed by a newline (or nothing) ends where that line does. */
  lemma {:induction false} FirstNewlineAfter(h: seq<byte>, rest: seq<byte>)
    requires forall i :: 0 <= i < |h| ==> h[i] != 10
    requires rest == [] || rest[0] == 10
    ensures FirstNewline(h + rest) == |h|
    decreases |h|
  {
    if h != [] {
      assert (h + rest)[1..] == h[1..] + rest;
      FirstNewlineAfter(h[1..], rest);
    } else {
      assert [] + rest == rest;
    }
  }

  /** An interpreter path that can stand in a hashbang line: absolute, one byte per character, no newline. */
  predicate HashbangSafe(python: string)
  {
    StartsWith(python, "/") && Latin1(python) && forall i :: 0 <= i < |python| ==> python[i] != '\n'
  }

  /**
   * A script's first line becomes `#!` and the interpreter, and everything
   * from its first newline on is kept byte for byte; other files are
   * untouched.
   */
  lemma FixHashbangFirstLine(contents: seq<byte>, python: string)
    requires Latin1(python) && forall i :: 0 <= i < |python| ==> python[i] != '\n'
    ensures !StartsWith(contents, Enc("#!/")) ==> FixHashbang(contents, python) == contents
    ensures StartsWith(contents, Enc("#!/")) ==>
              var r := FixHashbang(contents, python);
              r[..FirstNewline(r)] == Enc("#!" + python)
              && r[FirstNewline(r)..] == contents[FirstNewline(contents)..]
  {
    if StartsWith(contents, Enc("#!/")) {
      var h := Enc("#!" + python);
      var rest := contents[FirstNewline(contents)..];
      forall i | 0 <= i < |h| ensures h[i] != 10 {
        if i >= 2 {
          assert ("#!" + python)[i] == python[i - 2];
        }
      }
      FirstNewlineAfter(h, rest);
      assert (h + rest)[..|h|] == h;
      assert (h + rest)[|h|..] == rest;
    }
  }

  /** Fixing a fixed script changes nothing more, for an interpreter path that is itself safe in a hashbang. */
  lemma FixHashbangIdempotent(contents: seq<byte>, python: string)
    requires HashbangSafe(python)
    ensures FixHashbang(FixHashbang(contents, python), python) == FixHashbang(contents, python)
  {
    FixHashbangFirstLine(contents, python);
    var r := FixHashbang(contents, python);
    if StartsWith(contents, Enc("#!/")) {
      var h := Enc("#!" + python);
      assert h[..3] == Enc("#!/") by {
        assert ("#!" + python)[2] == python[0];
      }
      assert r[..3] == h[..3];
      FixHashbangFirstLine(r, python);
      assert r == r[..FirstNewline(r)] + r[FirstNewline(r)..];
    }
  }

  /** `os.path.join(install_prefix, 'bin', 'python')`. */
  function PythonOf(prefix: string): string
  {
    Join(Join(prefix, "bin"), "python")
  }

  /** The member `archive.extractfile(name)` reads: the last one of that name. */
  function MemberNamed(members: seq<Entry>, name: string): (r: Option<Entry>)
    ensures r.Some? ==> r.value in members && r.value.name == name
    ensures r.None? ==> forall m :: m in members ==> m.name != name
  {
    if members == [] then None
    else if members[|members| - 1].name == name then Some(members[|members| - 1])
    else MemberNamed(members[..|members| - 1], name)
  }

  /** The data installed for one content entry. */
  function ExtractedData(members: seq<Entry>, name: string): seq<byte>
  {
    match MemberNamed(members, name)
    case Some(m) => m.data
    case None => []
  }

  /** The files of the archive as they are installed: relocated names, archive modes, extracted data. */
  function Unpacked(members: seq<Entry>, contents: seq<Content>): (r: seq<Entry>)
    ensures |r| == |contents|
    ensures forall i :: 0 <= i < |contents| ==>
              r[i] == Entry(contents[i].relativePath, contents[i].mode, RegularFile, ExtractedData(members, contents[i].originalPath))
  {
    seq(|contents|, i requires 0 <= i < |contents| =>
      Entry(contents[i].relativePath, contents[i].mode, RegularFile, ExtractedData(members, contents[i].originalPath)))
  }

  /** Relocated names are installed below the prefix. */
  function BelowPrefix(prefix: string): string -> string
  {
    name => Join(prefix, name)
  }

  /** Scripts get the prefix's interpreter; writing never fails on the data itself. */
  function HashbangFixer(python: string): seq<byte> -> Result<seq<byte>, Error>
  {
    data => Ok(FixHashbang(data, python))
  }

  /**
   * `install_binary_dist(filename, install_prefix)`: every file
   * `find_bdist_contents` keeps is written below the prefix, with its
   * hashbang pointed at the prefix's Python, and gets the mode it had in the
   * archive.
   */
  method InstallBinaryDist(fs: Fs, members: seq<Entry>, prefix: string) returns (r: Result<(), Error>)
    requires fs.Valid()
    modifies fs
    ensures fs.Valid() && fs.links == old(fs.links)
    ensures var done := MembersDisk(Disk(old(fs.files), old(fs.dirs), old(fs.modes)), Unpacked(members, BdistContents(members)),
                                    BelowPrefix(prefix), HashbangFixer(PythonOf(prefix)));
            (r.Ok? <==> done.0) && Disk(fs.files, fs.dirs, fs.modes) == done.1
    ensures r.Ok? ==> fs.files == old(fs.files) + WrittenFiles(Unpacked(members, BdistContents(members)), BelowPrefix(prefix),
                                                              HashbangFixer(PythonOf(prefix)))
    ensures r.Ok? ==> fs.modes == old(fs.modes) + WrittenModes(Unpacked(members, BdistContents(members)), BelowPrefix(prefix))
  {
    var contents := FindBdistContents(members);
    var unpacked := Unpacked(members, contents);
    var installed := InstallMembers(fs, unpacked, BelowPrefix(prefix), HashbangFixer(PythonOf(prefix)), false);
    if installed.Err? {
      return Err(installed.error);
    }
    return Ok(());
  }

  // ---------------------------------------------------------------------
  // run_pip

  /** The options pip-accel gives `pip install`. */
  function PipOptions(downloadCache: string, localIndex: string, useRemoteIndex: bool): seq<string>
  {
    ["--download-cache=" + downloadCache, "--find-links=file://" + localIndex]
    + (if useRemoteIndex then [] else ["--no-index"])
  }

  /** The position of the first `x` at or after `k`, or the length when there is none. */
  function IndexFrom(s: seq<string>, x: string, k: nat): (i: nat)
    requires k <= |s|
    ensures k <= i <= |s| && forall j :: k <= j < i ==> s[j] != x
    ensures i < |s| ==> s[i] == x
    decreases |s| - k
  {
    if k == |s| then k else if s[k] == x then k else IndexFrom(s, x, k + 1)
  }

  /** The position of the first `x`, or the length when there is none. */
  function IndexOf(s: seq<string>, x: string): (i: nat)
    ensures i <= |s| && forall j :: 0 <= j < i ==> s[j] != x
    ensures i < |s| ==> s[i] == x
    ensures i == |s| <==> x !in s
  {
    IndexFrom(s, x, 0)
  }

  /** `s` with `o` inserted right after its first `x`; `s` itself when it has none. */
  function InsertAfterFirst(s: seq<string>, x: string, o: seq<string>): seq<string>
  {
    var i := IndexOf(s, x);
    if i == |s| then s else s[..i + 1] + (o + s[i + 1..])
  }

  /** The command line `run_pip` runs: the options right after the first `install`, or the arguments as they are. */
  function PipCommandLine(arguments: seq<string>, downloadCache: string, localIndex: string, useRemoteIndex: bool): seq<string>
  {
    ["pip"] + InsertAfterFirst(arguments, "install", PipOptions(downloadCache, localIndex, useRemoteIndex))
  }

  /** The first `x` of a sequence that has one is not moved by what follows. */
  lemma IndexOfConcat(a: seq<string>, b: seq<string>, x: string)
    requires x in a
    ensures IndexOf(a + b, x) == IndexOf(a, x)
  {
    var k := IndexOf(a + b, x);
    var i := IndexOf(a, x);
    assert (a + b)[i] == x;
  }

  /** Cutting `a + (o + b)` at the seams. */
  lemma Inserted<T>(a: seq<T>, o: seq<T>, b: seq<T>)
    ensures var c := a + (o + b);
            c[|a|..|a| + |o|] == o && c[..|a|] + c[|a| + |o|..] == a + b
  {
    var c := a + (o + b);
    assert c[..|a|] == a;
    assert c[|a| + |o|..] == b;
  }

  /**
   * Inserting after the first `x`: nothing changes without one; with one,
   * the first `x` stays where it was, `o` follows it, and taking `o` out
   * gives `s` back.
   */
  lemma InsertAfterFirstMeaning(s: seq<string>, x: string, o: seq<string>)
    ensures x !in s ==> InsertAfterFirst(s, x, o) == s
    ensures x in s ==>
              var r := InsertAfterFirst(s, x, o);
              var i := IndexOf(s, x);
              |r| == |s| + |o|
              && IndexOf(r, x) == i
              && r[i + 1..i + 1 + |o|] == o
              && r[..i + 1] + r[i + 1 + |o|..] == s
  {
    var i := IndexOf(s, x);
    if i < |s| {
      var r := InsertAfterFirst(s, x, o);
      assert r == s[..i + 1] + (o + s[i + 1..]);
      InsertedAt(s, x, o, i, r);
    }
  }

  lemma InsertedAt(s: seq<string>, x: string, o: seq<string>, i: nat, r: seq<string>)
    requires i == IndexOf(s, x) < |s| && r == s[..i + 1] + (o + s[i + 1..])
    ensures |r| == |s| + |o|
            && IndexOf(r, x) == i
            && r[i + 1..i + 1 + |o|] == o
            && r[..i + 1] + r[i + 1 + |o|..] == s
  {
    var head := s[..i + 1];
    var rest := s[i + 1..];
    assert head[i] == x;
    assert s == head + rest;
    IndexOfConcat(head, rest, x);
    IndexOfConcat(head, o + rest, x);
    Inserted(head, o, rest);
  }

  /** What occurs in the result of an insertion is what occurs in `s` or in `o`. */
  lemma InsertAfterFirstOccurs(s: seq<string>, x: string, o: seq<string>, y: string)
    requires x in s
    ensures y in InsertAfterFirst(s, x, o) <==> y in s || y in o
  {
    var i := IndexOf(s, x);
    assert s == s[..i + 1] + s[i + 1..];
  }

  /** The first `x` at position `i` is where the insertion happens. */
  lemma InsertAfterFirstAt(s: seq<string>, x: string, o: seq<string>, i: nat)
    requires i < |s| && s[i] == x && x !in s[..i]
    ensures InsertAfterFirst(s, x, o) == s[..i + 1] + (o + s[i + 1..])
  {
  }

  /** `--no-index` reaches pip exactly when the remote index is off or the caller gave it. */
  lemma PipCommandLineNoIndex(arguments: seq<string>, downloadCache: string, localIndex: string, useRemoteIndex: bool)
    ensures "install" in arguments ==>
              ("--no-index" in PipCommandLine(arguments, downloadCache, localIndex, useRemoteIndex)
               <==> !useRemoteIndex || "--no-index" in arguments)
  {
    if "install" in arguments {
      var o := PipOptions(downloadCache, localIndex, useRemoteIndex);
      assert "--no-index" in o <==> !useRemoteIndex by {
        assert o[0][..3] == "--d";
        assert o[1][..3] == "--f";
        assert "--no-index"[..3] == "--n";
      }
      InsertAfterFirstOccurs(arguments, "install", o, "--no-index");
      assert "pip" != "--no-index" by { assert "pip"[0] != "--no-index"[0]; }
    }
  }

  /** The loop of `run_pip` over `enumerate(arguments)`, stopping at the first `install`. */
  method ComposeCommandLine(arguments: seq<string>, downloadCache: string, localIndex: string, useRemoteIndex: bool)
    returns (commandLine: seq<string>)
    ensures commandLine == PipCommandLine(arguments, downloadCache, localIndex, useRemoteIndex)
  {
    commandLine := ComposeAround(arguments, "install", downloadCache, localIndex, useRemoteIndex);
  }

  /** The loop of `run_pip` that looks for the subcommand `command` and puts the options right after it. */
  method ComposeAround(arguments: seq<string>, command: string, downloadCache: string, localIndex: string, useRemoteIndex: bool)
    returns (commandLine: seq<string>)
    ensures commandLine == ["pip"] + InsertAfterFirst(arguments, command, PipOptions(downloadCache, localIndex, useRemoteIndex))
  {
    ghost var o := PipOptions(downloadCache, localIndex, useRemoteIndex);
    commandLine := [];
    var found := false;
    var i := 0;
    while i < |arguments| && !found
      invariant 0 <= i <= |arguments|
      invariant !found ==> commandLine == [] && command !in arguments[..i]
      invariant found ==> commandLine == ["pip"] + InsertAfterFirst(arguments, command, o)
    {
      if arguments[i] == command {
        InsertAfterFirstAt(arguments, command, o, i);
        commandLine := commandLine + ["pip"] + arguments[..i + 1]
                       + ["--download-cache=" + downloadCache, "--find-links=file://" + localIndex];
        if !useRemoteIndex {
          commandLine := commandLine + ["--no-index"];
        }
        commandLine := commandLine + arguments[i + 1..];
        assert commandLine == ["pip"] + (arguments[..i + 1] + (o + arguments[i + 1..]));
        found := true;
      }
      assert arguments[..i + 1] == arguments[..i] + [arguments[i]];
      i := i + 1;
    }
    if !found {
      assert arguments[..i] == arguments;
      InsertAfterFirstMeaning(arguments, command, o);
      commandLine := commandLine + ["pip"] + arguments;
    }
  }

  /**
   * `run_pip(arguments, local_index, use_remote_index)`: the command line,
   * whether pip exited with status 0, and its output lines, which are only
   * kept when it did. `lines` is what pip printed and `closeStatus` what
   * closing its pipe gave (None for a zero exit status).
   */
  method RunPip(arguments: seq<string>, downloadCache: string, localIndex: string, useRemoteIndex: bool,
                lines: seq<string>, closeStatus: Option<int>)
    returns (commandLine: seq<string>, ok: bool, output: seq<string>)
    ensures commandLine == PipCommandLine(arguments, downloadCache, localIndex, useRemoteIndex)
    ensures ok <==> closeStatus.None?
    ensures output == if ok then lines else []
  {
    commandLine := ComposeCommandLine(arguments, downloadCache, localIndex, useRemoteIndex);
    var collected := CollectOutput(lines);
    if closeStatus.None? {
      return commandLine, true, collected;
    }
    return commandLine, false, [];
  }

  /** The loop of `run_pip` that reads pip's output line by line and keeps every line. */
  method CollectOutput(lines: seq<string>) returns (collected: seq<string>)
    ensures collected == lines
  {
    collected := [];
    for k := 0 to |lines|
      invariant collected == lines[..k]
    {
      collected := collected + [lines[k]];
    }
    assert lines[..|lines|] == lines;
  }

  // ---------------------------------------------------------------------
  // find_binary_dists

  /** The position of the last `c`, or -1. */
  function LastIndexOfChar(s: string, c: char): (k: int)
    ensures -1 <= k < |s|
    ensures k >= 0 ==> s[k] == c
    ensures forall j :: k < j < |s| ==> s[j] != c
  {
    if s == [] then -1
    else if s[|s| - 1] == c then |s| - 1
    else LastIndexOfChar(s[..|s| - 1], c)
  }

  /** A hyphen followed by a digit at position `i`, after at least one character. */
  predicate VersionDashAt(head: string, i: int)
  {
    1 <= i && i + 1 < |head| && head[i] == '-' && IsDigit(head[i + 1])
  }

  /** The last hyphen followed by a digit at or before `from`, or 0 when there is none after the first character. */
  function LastVersionDash(head: string, from: int): (i: int)
    ensures i == 0 || i <= from
    ensures i >= 1 ==> VersionDashAt(head, i)
    ensures forall j :: i < j <= from ==> !VersionDashAt(head, j)
    decreases from
  {
    if from < 1 then 0
    else if VersionDashAt(head, from) then from
    else LastVersionDash(head, from - 1)
  }

  /**
   * The key `find_binary_dists` gives a file name, from the expression
   * `^([A-Za-z].*)-([0-9].*?)\.[^.]+\.tar\.gz$`: the archive suffix and the
   * platform after the last dot go, the name is the text before the last
   * hyphen that is followed by a digit (the greedy group), lowercased, and
   * the version is the rest. `.` does not match a newline.
   */
  function ParseBinaryDistName(filename: string): Option<(string, string)>
  {
    if !EndsWith(filename, ".tar.gz") then None
    else
      var base := filename[..|filename| - 7];
      var k := LastIndexOfChar(base, '.');
      if k < 0 || k == |base| - 1 then None
      else
        var head := base[..k];
        if head == [] || !IsAsciiLetter(head[0]) || '\n' in head then None
        else
          var i := LastVersionDash(head, |head| - 2);
          if i < 1 then None else Some((Lower(head[..i]), head[i + 1..]))
  }

  /**
   * The file name reads as the expression's three parts: a name starting
   * with a letter, a hyphen, a version starting with a digit, a dot, a
   * platform without dots, and `.tar.gz`; neither name nor version holds a
   * newline.
   */
  predicate Spells(filename: string, name: string, version: string, platform: string)
  {
    filename == name + "-" + version + "." + platform + ".tar.gz"
    && name != [] && IsAsciiLetter(name[0]) && '\n' !in name
    && version != [] && IsDigit(version[0]) && '\n' !in version
    && platform != [] && '.' !in platform
  }

  /** Where a spelling puts the platform's dot and the name's hyphen. */
  lemma SpellsPositions(filename: string, name: string, version: string, platform: string)
    requires Spells(filename, name, version, platform)
    ensures EndsWith(filename, ".tar.gz")
    ensures var base := filename[..|filename| - 7];
            LastIndexOfChar(base, '.') == |name| + 1 + |version|
            && base[..|name| + 1 + |version|] == name + "-" + version
    ensures VersionDashAt(name + "-" + version, |name|)
  {
    var base := name + "-" + version + "." + platform;
    assert filename == base + ".tar.gz";
    assert filename[..|filename| - 7] == base;
    assert filename[|filename| - 7..] == ".tar.gz";
    var p := |name| + 1 + |version|;
    assert base[p] == '.';
    forall j | p < j < |base| ensures base[j] != '.' {
      assert base[j] == platform[j - p - 1];
    }
    var k := LastIndexOfChar(base, '.');
    assert base[..p] == name + "-" + version;
    var head := name + "-" + version;
    assert head[|name|] == '-' && head[|name| + 1] == version[0];
  }

  /** Every spelling of the name is found: the file is recognised. */
  lemma ParseComplete(filename: string, name: string, version: string, platform: string)
    requires Spells(filename, name, version, platform)
    ensures ParseBinaryDistName(filename).Some?
  {
    SpellsPositions(filename, name, version, platform);
    var head := name + "-" + version;
    assert head[0] == name[0];
    assert '\n' !in head by {
      forall j | 0 <= j < |head| ensures head[j] != '\n' {
        if j < |name| {
          assert head[j] == name[j];
        } else if j > |name| {
          assert head[j] == version[j - |name| - 1];
        }
      }
    }
    var i := LastVersionDash(head, |head| - 2);
    assert i >= |name|;
  }

  /**
   * A recognised file spells out its key: the key is the lowercased name
   * and the version of a spelling, and of all spellings it has the longest
   * name (the shortest version).
   */
  lemma ParseSound(filename: string)
    requires ParseBinaryDistName(filename).Some?
    ensures var key := ParseBinaryDistName(filename).value;
            exists name, platform :: Spells(filename, name, key.1, platform) && key.0 == Lower(name)
    ensures forall name, version, platform :: Spells(filename, name, version, platform) ==>
              |version| >= |ParseBinaryDistName(filename).value.1|
  {
    var base := filename[..|filename| - 7];
    var k := LastIndexOfChar(base, '.');
    var head := base[..k];
    var i := LastVersionDash(head, |head| - 2);
    var name := head[..i];
    var version := head[i + 1..];
    var platform := base[k + 1..];
    assert filename == base + ".tar.gz" by {
      assert filename[|filename| - 7..] == ".tar.gz";
    }
    assert base == head + "." + platform;
    assert head == name + "-" + version;
    assert filename == name + "-" + version + "." + platform + ".tar.gz";
    assert '.' !in platform by {
      forall j | 0 <= j < |platform| ensures platform[j] != '.' {
        assert platform[j] == base[k + 1 + j];
      }
    }
    assert '\n' !in name by {
      forall j | 0 <= j < |name| ensures name[j] != '\n' {
        assert name[j] == head[j];
      }
    }
    assert '\n' !in version by {
      forall j | 0 <= j < |version| ensures version[j] != '\n' {
        assert version[j] == head[i + 1 + j];
      }
    }
    assert version[0] == head[i + 1];
    assert Spells(filename, name, version, platform);
    forall name', version', platform' | Spells(filename, name', version', platform')
      ensures |version'| >= |version|
    {
      SpellsPositions(filename, name', version', platform');
      assert head == name' + "-" + version';
    }
  }

  /** The key the file names in the binary index give: a later file with the same key replaces an earlier one. */
  function BinaryIndexOf(filenames: seq<string>, binaryIndex: string): map<(string, string), string>
  {
    if filenames == [] then map[]
    else
      var f := filenames[|filenames| - 1];
      var m := BinaryIndexOf(filenames[..|filenames| - 1], binaryIndex);
      match ParseBinaryDistName(f)
      case Some(key) => m[key := Join(binaryIndex, f)]
      case None => m
  }

  /** The index holds exactly the keys of the recognised files, each pointing at one of those files. */
  lemma {:induction false} BinaryIndexFacts(filenames: seq<string>, binaryIndex: string)
    ensures forall key :: key in BinaryIndexOf(filenames, binaryIndex) <==>
              exists f :: f in filenames && ParseBinaryDistName(f) == Some(key)
    ensures forall key :: key in BinaryIndexOf(filenames, binaryIndex) ==>
              exists f :: f in filenames && ParseBinaryDistName(f) == Some(key)
                          && BinaryIndexOf(filenames, binaryIndex)[key] == Join(binaryIndex, f)
    decreases |filenames|
  {
    if filenames != [] {
      var init := filenames[..|filenames| - 1];
      BinaryIndexFacts(init, binaryIndex);
      assert filenames == init + [filenames[|filenames| - 1]];
    }
  }

  /** The loop of `find_binary_dists` over the index's files, in their case-insensitive order. */
  method FindBinaryDists(listing: seq<string>, binaryIndex: string) returns (distributions: map<(string, string), string>)
    ensures distributions == BinaryIndexOf(SortBy(listing, Lower), binaryIndex)
    ensures forall key :: key in distributions <==> exists f :: f in listing && ParseBinaryDistName(f) == Some(key)
  {
    var filenames := SortBy(listing, Lower);
    distributions := map[];
    for i := 0 to |filenames|
      invariant distributions == BinaryIndexOf(filenames[..i], binaryIndex)
    {
      var filename := filenames[i];
      assert filenames[..i + 1][..i] == filenames[..i];
      var key := ParseBinaryDistName(filename);
      if key.Some? {
        distributions := distributions[key.value := Join(binaryIndex, filename)];
      }
    }
    assert filenames[..|filenames|] == filenames;
    BinaryIndexFacts(filenames, binaryIndex);
    SortByFacts(listing, Lower);
    assert forall f :: f in filenames <==> f in listing by {
      assert forall f :: f in filenames <==> f in multiset(filenames);
      assert forall f :: f in listing <==> f in multiset(listing);
    }
  }

  /** A spelling whose version has no hyphen followed by a digit is the one the key comes from. */
  lemma ParseOfSpelling(filename: string, name: string, version: string, platform: string)
    requires Spells(filename, name, version, platform)
    requires forall j :: 0 <= j < |version| - 1 ==> !(version[j] == '-' && IsDigit(version[j + 1]))
    ensures ParseBinaryDistName(filename) == Some((Lower(name), version))
  {
    ParseComplete(filename, name, version, platform);
    SpellsPositions(filename, name, version, platform);
    var head := name + "-" + version;
    var i := LastVersionDash(head, |head| - 2);
    assert head[..|name|] == name && head[|name| + 1..] == version;
  }

  /** The awkward case the expression is written for: a project name that itself holds a hyphen. */
  lemma ParseBinaryDistNameExample()
    ensures ParseBinaryDistName("MySQL-python-1.2.3.linux-x86_64.tar.gz") == Some(("mysql-python", "1.2.3"))
  {
    var version := "1.2.3";
    assert forall j :: 0 <= j < |version| - 1 ==> version[j] != '-';
    SpellsMySQL();
    ParseOfSpelling("MySQL-python-1.2.3.linux-x86_64.tar.gz", "MySQL-python", version, "linux-x86_64");
    LowerMySQL();
  }

  lemma SpellsMySQL()
    ensures Spells("MySQL-python-1.2.3.linux-x86_64.tar.gz", "MySQL-python", "1.2.3", "linux-x86_64")
  {
    var n, v, p := "MySQL-python", "1.2.3", "linux-x86_64";
    var f := n + "-" + v + "." + p + ".tar.gz";
    assert |f| == 38;
    forall k | 0 <= k < 38 ensures f[k] == "MySQL-python-1.2.3.linux-x86_64.tar.gz"[k] {
    }
  }

  lemma LowerMySQL()
    ensures Lower("MySQL-python") == "mysql-python"
  {
    var s := "MySQL-python";
    assert LowerChar('M') == 'm' && LowerChar('S') == 's' && LowerChar('Q') == 'q' && LowerChar('L') == 'l';
    forall i | 0 <= i < |s| ensures Lower(s)[i] == "mysql-python"[i] {
    }
  }

  // ---------------------------------------------------------------------
  // build_binary_dists

  /** One `(name, version, directory)` tuple of `unpack_source_dists`. */
  datatype Dependency = Dependency(name: string, version: string, directory: string)

  /** The binary index is keyed on the lower-case name and the exact version. */
  function KeyOf(d: Dependency): (string, string)
  {
    (Lower(d.name), d.version)
  }

  /** `existing_binary_dists.get(key)` gives a non-empty path. */
  predicate Cached(existing: map<(string, string), string>, d: Dependency)
  {
    KeyOf(d) in existing && existing[KeyOf(d)] != ""
  }

  /**
   * What `build_binary_dists` consults: the binary index it scanned, the
   * regular files present (for the `setup.py` test), the index directory,
   * and, per source directory, `None` when `python setup.py bdist` exits
   * non-zero or else the names in its `dist` directory afterwards.
   */
  datatype BuildEnv = BuildEnv(existing: map<(string, string), string>, files: set<string>,
                               binaryIndex: string, build: string -> Option<seq<string>>)

  /** A file `shutil.move` takes from `<directory>/dist/` into the binary index. */
  datatype Move = Move(directory: string, filename: string)

  function MoveSource(m: Move): string
  {
    Join(Join(m.directory, "dist"), m.filename)
  }

  function MoveTarget(m: Move, binaryIndex: string): string
  {
    Join(binaryIndex, m.filename)
  }

  /** Not cached and a source distribution: the dependency is built. */
  predicate NeedsBuild(env: BuildEnv, d: Dependency)
  {
    !Cached(env.existing, d) && Join(d.directory, "setup.py") in env.files
  }

  /** The build of a dependency that needs one exits non-zero or leaves `dist` empty. */
  predicate BuildFails(env: BuildEnv, d: Dependency)
  {
    NeedsBuild(env, d) && (env.build(d.directory).None? || env.build(d.directory).value == [])
  }

  /** The moves one successful build makes, in the order of its `dist` listing. */
  function MovesOf(directory: string, filenames: seq<string>): (r: seq<Move>)
    ensures |r| == |filenames|
    ensures forall i :: 0 <= i < |r| ==> r[i] == Move(directory, filenames[i])
  {
    seq(|filenames|, i requires 0 <= i < |filenames| => Move(directory, filenames[i]))
  }

  function StepMoves(env: BuildEnv, d: Dependency): seq<Move>
  {
    if NeedsBuild(env, d) && !BuildFails(env, d) then MovesOf(d.directory, env.build(d.directory).value) else []
  }

  /** The verdict of `build_binary_dists` over `deps` and the moves made on the way. */
  function Built(env: BuildEnv, deps: seq<Dependency>): (bool, seq<Move>)
  {
    if deps == [] then (true, [])
    else
      var previous := Built(env, deps[..|deps| - 1]);
      var d := deps[|deps| - 1];
      if !previous.0 || BuildFails(env, d) then (false, previous.1)
      else (true, previous.1 + StepMoves(env, d))
  }

  /** The verdict is True exactly when no build fails. */
  lemma {:induction false} BuiltMeaning(env: BuildEnv, deps: seq<Dependency>)
    ensures Built(env, deps).0 <==> forall i :: 0 <= i < |deps| ==> !BuildFails(env, deps[i])
    decreases |deps|
  {
    if deps != [] {
      var init := deps[..|deps| - 1];
      BuiltMeaning(env, init);
      assert forall i :: 0 <= i < |init| ==> deps[i] == init[i];
    }
  }

  /** At the first failing build the loop returns: the moves are those of the dependencies before it. */
  lemma BuiltStopsAtFirstFailure(env: BuildEnv, deps: seq<Dependency>, k: nat)
    requires k < |deps| && BuildFails(env, deps[k])
    requires forall i :: 0 <= i < k ==> !BuildFails(env, deps[i])
    ensures Built(env, deps) == (false, Built(env, deps[..k]).1)
  {
    BuiltMeaning(env, deps[..k]);
    assert deps[..k + 1][..k] == deps[..k];
    BuiltAfterFailure(env, deps, k + 1);
  }

  /** Only dependencies that need a build move anything, and only the names their build left in `dist`. */
  lemma {:induction false} BuiltMovesOnlyBuilt(env: BuildEnv, deps: seq<Dependency>)
    ensures forall m :: m in Built(env, deps).1 ==>
              exists i :: 0 <= i < |deps| && NeedsBuild(env, deps[i]) && deps[i].directory == m.directory
                          && env.build(m.directory).Some? && m.filename in env.build(m.directory).value
    ensures (forall i :: 0 <= i < |deps| ==> !NeedsBuild(env, deps[i])) ==> Built(env, deps) == (true, [])
    decreases |deps|
  {
    if deps != [] {
      var init := deps[..|deps| - 1];
      BuiltMovesOnlyBuilt(env, init);
      var d := deps[|deps| - 1];
      forall m | m in Built(env, deps).1
        ensures exists i :: 0 <= i < |deps| && NeedsBuild(env, deps[i]) && deps[i].directory == m.directory
                            && env.build(m.directory).Some? && m.filename in env.build(m.directory).value
      {
        if m in Built(env, init).1 {
          var i :| 0 <= i < |init| && NeedsBuild(env, init[i]) && init[i].directory == m.directory
                   && env.build(m.directory).Some? && m.filename in env.build(m.directory).value;
          assert deps[i] == init[i];
        } else {
          assert m in StepMoves(env, d);
          assert deps[|deps| - 1] == d;
        }
      }
    }
  }

  /** The inner loop: move each file of a build's `dist` listing into the binary index. */
  method MoveBuilt(directory: string, filenames: seq<string>) returns (moves: seq<Move>)
    ensures moves == MovesOf(directory, filenames)
  {
    moves := [];
    for k := 0 to |filenames|
      invariant moves == MovesOf(directory, filenames[..k])
    {
      moves := moves + [Move(directory, filenames[k])];
    }
    assert filenames[..|filenames|] == filenames;
  }

  /** One iteration: is the dependency cached, a source distribution, built, and what does it move? */
  method BuildOne(d: Dependency, existing: map<(string, string), string>, files: set<string>,
                  binaryIndex: string, build: string -> Option<seq<string>>)
    returns (failed: bool, step: seq<Move>)
    ensures failed == BuildFails(BuildEnv(existing, files, binaryIndex, build), d)
    ensures !failed ==> step == StepMoves(BuildEnv(existing, files, binaryIndex, build), d)
  {
    var filename := if KeyOf(d) in existing then existing[KeyOf(d)] else "";
    if filename != "" {
      return false, [];
    }
    if Join(d.directory, "setup.py") !in files {
      return false, [];
    }
    var status := build(d.directory);
    if status.None? || status.value == [] {
      return true, [];
    }
    step := MoveBuilt(d.directory, status.value);
    return false, step;
  }

  /**
   * `build_binary_dists`: scans the binary index, then builds every
   * dependency that is neither cached nor lacking a `setup.py`, stopping
   * with False at the first failed build or empty `dist`.
   */
  method BuildBinaryDists(deps: seq<Dependency>, listing: seq<string>, binaryIndex: string, files: set<string>,
                          build: string -> Option<seq<string>>)
    returns (ok: bool, moves: seq<Move>)
    ensures (ok, moves) == Built(BuildEnv(BinaryIndexOf(SortBy(listing, Lower), binaryIndex), files, binaryIndex, build), deps)
  {
    var existing := FindBinaryDists(listing, binaryIndex);
    ghost var env := BuildEnv(existing, files, binaryIndex, build);
    moves := [];
    for i := 0 to |deps|
      invariant Built(env, deps[..i]) == (true, moves)
    {
      assert deps[..i + 1][..i] == deps[..i];
      var failed, step := BuildOne(deps[i], existing, files, binaryIndex, build);
      if failed {
        BuiltAfterFailure(env, deps, i + 1);
        return false, moves;
      }
      moves := moves + step;
    }
    assert deps[..|deps|] == deps;
    return true, moves;
  }

  /** Once the verdict is False it stays False and the moves stop growing. */
  lemma {:induction false} BuiltAfterFailure(env: BuildEnv, deps: seq<Dependency>, i: nat)
    requires i <= |deps| && !Built(env, deps[..i]).0
    ensures Built(env, deps) == Built(env, deps[..i])
    decreases |deps| - i
  {
    if i < |deps| {
      assert deps[..i + 1][..i] == deps[..i];
      BuiltAfterFailure(env, deps, i + 1);
    } else {
      assert deps[..i] == deps;
    }
  }

  // ---------------------------------------------------------------------
  // install_dependencies

  /** The verdict of `install_dependencies` and the archives it installs, in order. */
  function Installed(existing: map<(string, string), string>, deps: seq<Dependency>): (bool, seq<string>)
  {
    if deps == [] then (true, [])
    else
      var previous := Installed(existing, deps[..|deps| - 1]);
      var d := deps[|deps| - 1];
      if !previous.0 || !Cached(existing, d) then (false, previous.1)
      else (true, previous.1 + [existing[KeyOf(d)]])
  }

  /**
   * True exactly when every dependency has a binary distribution; then the
   * archives are those of the dependencies, one each, in order; otherwise
   * every archive installed belongs to a dependency before the missing one.
   */
  lemma {:induction false} InstalledMeaning(existing: map<(string, string), string>, deps: seq<Dependency>)
    ensures Installed(existing, deps).0 <==> forall i :: 0 <= i < |deps| ==> Cached(existing, deps[i])
    ensures Installed(existing, deps).0 ==>
              |Installed(existing, deps).1| == |deps|
              && forall i :: 0 <= i < |deps| ==> Installed(existing, deps).1[i] == existing[KeyOf(deps[i])]
    ensures |Installed(existing, deps).1| <= |deps|
    ensures forall i :: 0 <= i < |Installed(existing, deps).1| ==>
              Cached(existing, deps[i]) && Installed(existing, deps).1[i] == existing[KeyOf(deps[i])]
    decreases |deps|
  {
    if deps != [] {
      var init := deps[..|deps| - 1];
      InstalledMeaning(existing, init);
      assert forall i :: 0 <= i < |init| ==> deps[i] == init[i];
    }
  }

  /**
   * `install_dependencies`: rescans the binary index and installs each
   * dependency's archive, stopping with False at the first one missing.
   */
  method InstallDependencies(deps: seq<Dependency>, listing: seq<string>, binaryIndex: string)
    returns (ok: bool, archives: seq<string>)
    ensures (ok, archives) == Installed(BinaryIndexOf(SortBy(listing, Lower), binaryIndex), deps)
  {
    var existing := FindBinaryDists(listing, binaryIndex);
    archives := [];
    for i := 0 to |deps|
      invariant Installed(existing, deps[..i]) == (true, archives)
    {
      var d := deps[i];
      assert deps[..i + 1][..i] == deps[..i];
      var filename := if KeyOf(d) in existing then existing[KeyOf(d)] else "";
      if filename == "" {
        InstalledAfterMissing(existing, deps, i + 1);
        return false, archives;
      }
      archives := archives + [filename];
    }
    assert deps[..|deps|] == deps;
    return true, archives;
  }

  lemma {:induction false} InstalledAfterMissing(existing: map<(string, string), string>, deps: seq<Dependency>, i: nat)
    requires i <= |deps| && !Installed(existing, deps[..i]).0
    ensures Installed(existing, deps) == Installed(existing, deps[..i])
    decreases |deps| - i
  {
    if i < |deps| {
      assert deps[..i + 1][..i] == deps[..i];
      InstalledAfterMissing(existing, deps, i + 1);
    } else {
      assert deps[..i] == deps;
    }
  }

  // ---------------------------------------------------------------------
  // main

  /** The loop `for i in xrange(1, MAX_RETRIES)` runs at most `MaxRetries - 1` times. */
  const MaxRetries: nat := 10

  /** How `main` ends. */
  datatype MainOutcome =
    | Usage                      // no arguments: the usage text, exit 0
    | PassedToPip(status: int)   // no `install`: pip's own exit status
    | NothingToDo                // pip reported no dependencies
    | Finished(succeeded: bool)  // built and installed, or stopped at a failure
    | GaveUp                     // every attempt to unpack failed: exit 1

  /** The status the process exits with: `return` from `main` is status 0. */
  function ExitStatus(o: MainOutcome): int
  {
    match o
    case Usage => 0
    case PassedToPip(status) => status
    case NothingToDo => 0
    case Finished(_) => 0
    case GaveUp => 1
  }

  /**
   * The first attempt from `i` on, below `MaxRetries`, at which
   * `unpack_source_dists` finds every source distribution; `MaxRetries`
   * when there is none.
   */
  function FirstUnpacked(unpack: nat -> Option<seq<Dependency>>, i: nat): (k: nat)
    requires 1 <= i <= MaxRetries
    ensures i <= k <= MaxRetries
    ensures k < MaxRetries ==> unpack(k).Some?
    ensures forall j :: i <= j < k ==> unpack(j).None?
    decreases MaxRetries - i
  {
    if i == MaxRetries then MaxRetries
    else if unpack(i).Some? then i
    else FirstUnpacked(unpack, i + 1)
  }

  /** The scan `build_binary_dists` makes of the binary index. */
  function ScanEnv(listing: seq<string>, binaryIndex: string, files: set<string>,
                   build: string -> Option<seq<string>>): BuildEnv
  {
    BuildEnv(BinaryIndexOf(SortBy(listing, Lower), binaryIndex), files, binaryIndex, build)
  }

  /** The names the moves add to the binary index. */
  function MovedNames(moves: seq<Move>): (r: seq<string>)
    ensures |r| == |moves| && forall i :: 0 <= i < |moves| ==> r[i] == moves[i].filename
  {
    seq(|moves|, i requires 0 <= i < |moves| => moves[i].filename)
  }

  /** `build_binary_dists(deps) and install_dependencies(deps)`, the second seeing what the first moved. */
  predicate Succeeded(deps: seq<Dependency>, listing: seq<string>, binaryIndex: string, files: set<string>,
                      build: string -> Option<seq<string>>)
  {
    var built := Built(ScanEnv(listing, binaryIndex, files, build), deps);
    built.0 && Installed(BinaryIndexOf(SortBy(listing + MovedNames(built.1), Lower), binaryIndex), deps).0
  }

  /**
   * `main` for the argument list `arguments`: `unpack(i)` is what
   * `unpack_source_dists` gives at attempt `i` (`None` when pip failed and a
   * download follows), `pipStatus` what pip exits with when passed the
   * command line unchanged. The number is the attempts made.
   */
  function MainOf(arguments: seq<string>, unpack: nat -> Option<seq<Dependency>>, listing: seq<string>,
                  binaryIndex: string, files: set<string>, build: string -> Option<seq<string>>, pipStatus: int)
    : (MainOutcome, nat)
  {
    if arguments == [] then (Usage, 0)
    else if "install" !in arguments then (PassedToPip(pipStatus), 0)
    else
      var k := FirstUnpacked(unpack, 1);
      if k == MaxRetries then (GaveUp, MaxRetries - 1)
      else if unpack(k).value == [] then (NothingToDo, k)
      else (Finished(Succeeded(unpack(k).value, listing, binaryIndex, files, build)), k)
  }

  /**
   * An install runs at most nine attempts; it exits with status 1 exactly
   * when every one of them failed to unpack, and with status 0 otherwise,
   * also when a build or an installation failed.
   */
  lemma MainRetryBound(arguments: seq<string>, unpack: nat -> Option<seq<Dependency>>, listing: seq<string>,
                       binaryIndex: string, files: set<string>, build: string -> Option<seq<string>>, pipStatus: int)
    requires arguments != [] && "install" in arguments
    ensures var (outcome, attempts) := MainOf(arguments, unpack, listing, binaryIndex, files, build, pipStatus);
            1 <= attempts <= MaxRetries - 1
            && (ExitStatus(outcome) == 1 <==> forall j :: 1 <= j < MaxRetries ==> unpack(j).None?)
            && (ExitStatus(outcome) == 0 <==> exists j :: 1 <= j < MaxRetries && unpack(j).Some?)
  {
    var k := FirstUnpacked(unpack, 1);
    if k < MaxRetries {
      assert unpack(k).Some?;
    }
  }

  /** One attempt that found all source distributions: nothing to do, or build and install. */
  method Attempt(deps: seq<Dependency>, listing: seq<string>, binaryIndex: string, files: set<string>,
                 build: string -> Option<seq<string>>)
    returns (outcome: MainOutcome)
    ensures deps == [] ==> outcome == NothingToDo
    ensures deps != [] ==> outcome == Finished(Succeeded(deps, listing, binaryIndex, files, build))
  {
    if deps == [] {
      return NothingToDo;
    }
    var built, moves := BuildBinaryDists(deps, listing, binaryIndex, files, build);
    if !built {
      return Finished(false);
    }
    var installed, _ := InstallDependencies(deps, listing + MovedNames(moves), binaryIndex);
    return Finished(installed);
  }

  /** `main`: the retry loop around `unpack_source_dists` and `download_source_dists`. */
  method RunMain(arguments: seq<string>, unpack: nat -> Option<seq<Dependency>>, listing: seq<string>,
                 binaryIndex: string, files: set<string>, build: string -> Option<seq<string>>, pipStatus: int)
    returns (outcome: MainOutcome, attempts: nat)
    ensures (outcome, attempts) == MainOf(arguments, unpack, listing, binaryIndex, files, build, pipStatus)
  {
    if arguments == [] {
      return Usage, 0;
    }
    if "install" !in arguments {
      return PassedToPip(pipStatus), 0;
    }
    attempts := 0;
    for i := 1 to MaxRetries
      invariant attempts == i - 1
      invariant FirstUnpacked(unpack, i) == FirstUnpacked(unpack, 1)
    {
      attempts := i;
      var unpacked := unpack(i);
      if unpacked.Some? {
        outcome := Attempt(unpacked.value, listing, binaryIndex, files, build);
        return;
      }
    }
    return GaveUp, MaxRetries - 1;
  }
}
