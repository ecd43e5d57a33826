/**
 * The part of the local file system the modelled code touches: regular
 * files with their contents and permission bits, directories and symbolic
 * links, with the POSIX error each operation reports. Paths are
 * compared as strings, so callers are expected to pass normalised paths.
 */
module FileSystem {
  import opened Wrappers
  import opened Text
  import opened Errors
  import opened Paths

  /** The directories `os.makedirs(p)` needs: `p` and, recursively, its parents. */
  function DirChain(p: string): (r: set<string>)
    ensures p != "" ==> p in r
    ensures "" !in r
    decreases |p|
  {
    if p == "" then {}
    else if Dirname(p) == p then {p}
    else {p} + DirChain(Dirname(p))
  }

  /**
   * `makedirs(directory)` creates `directory` and its missing parents exactly
   * when it is not a directory yet, not empty, and none of them is a file (an
   * existing file at `directory` is an EEXIST the wrapper swallows).
   */
  predicate CreatesDirectory(files: map<string, seq<byte>>, dirs: set<string>, directory: string)
  {
    directory !in dirs && directory != "" && DirChain(directory) !! files.Keys
  }

  /** The directories once `makedirs(directory)` has run. */
  function DirsAfter(files: map<string, seq<byte>>, dirs: set<string>, directory: string): set<string>
  {
    if CreatesDirectory(files, dirs, directory) then dirs + DirChain(directory) else dirs
  }

  /** The entries a tree removal of `root` deletes: `root` and everything below it. */
  predicate InTree(p: string, root: string)
  {
    p == root || StartsWith(p, root + "/")
  }

  class Fs {
    var files: map<string, seq<byte>>
    var modes: map<string, nat>
    var dirs: set<string>
    var links: set<string>

    /** A path is a file or a directory, not both; the root directory exists. */
    ghost predicate Valid()
      reads this
    {
      files.Keys !! dirs && "/" in dirs
    }

    constructor(files: map<string, seq<byte>>, dirs: set<string>)
      requires files.Keys !! dirs && "/" in dirs
      ensures Valid()
      ensures this.files == files && this.dirs == dirs && modes == map[] && links == {}
    {
      this.files := files;
      this.dirs := dirs;
      this.modes := map[];
      this.links := {};
    }

    predicate IsFile(p: string)
      reads this
    {
      p in files
    }

    predicate IsDir(p: string)
      reads this
    {
      p in dirs
    }

    predicate Exists(p: string)
      reads this
    {
      p in files || p in dirs || p in links
    }

    /** Opening `p` for writing needs its directory to exist (an empty dirname is the working directory). */
    predicate ParentExists(p: string)
      reads this
    {
      Dirname(p) == "" || Dirname(p) in dirs
    }

    /** `os.makedirs(p)`, as wrapped by pip_accel.utils.makedirs: True when created, False on EEXIST. */
    method Makedirs(p: string) returns (r: Result<bool, Error>)
      requires Valid()
      modifies this
      ensures Valid()
      ensures files == old(files) && modes == old(modes) && links == old(links)
      ensures p == "" ==> r == Err(OsError(ENOENT)) && dirs == old(dirs)
      ensures p != "" && (p in old(dirs) || p in old(files)) ==> r == Ok(false) && dirs == old(dirs)
      ensures p != "" && p !in old(dirs) && p !in old(files) && (exists a :: a in DirChain(p) && a in old(files)) ==>
                r == Err(OsError(ENOTDIR)) && dirs == old(dirs)
      ensures p != "" && p !in old(dirs) && p !in old(files) && (forall a :: a in DirChain(p) ==> a !in old(files)) ==>
                r == Ok(true) && dirs == old(dirs) + DirChain(p)
      ensures r.Ok? ==> p in dirs || p in files
      ensures r.Ok? ==> dirs == old(dirs) + (if p in old(dirs) || p in old(files) then {} else DirChain(p))
    {
      if p == "" {
        return Err(OsError(ENOENT));
      }
      if p in dirs || p in files {
        return Ok(false);
      }
      if exists a :: a in DirChain(p) && a in files {
        return Err(OsError(ENOTDIR));
      }
      dirs := dirs + DirChain(p);
      return Ok(true);
    }

    /** `open(p, 'rb').read()`. */
    method Read(p: string) returns (r: Result<seq<byte>, Error>)
      ensures p in files ==> r == Ok(files[p])
      ensures p !in files && p in dirs ==> r == Err(OsError(EISDIR))
      ensures p !in files && p !in dirs ==> r == Err(OsError(ENOENT))
    {
      if p in files {
        return Ok(files[p]);
      } else if p in dirs {
        return Err(OsError(EISDIR));
      }
      return Err(OsError(ENOENT));
    }

    /** `open(p, 'wb').write(data)`: creates or truncates the file. */
    method Write(p: string, data: seq<byte>) returns (r: Result<(), Error>)
      requires Valid()
      modifies this
      ensures Valid()
      ensures dirs == old(dirs) && modes == old(modes) && links == old(links)
      ensures p in old(dirs) ==> r == Err(OsError(EISDIR)) && files == old(files)
      ensures p !in old(dirs) && !old(ParentExists(p)) ==> r == Err(OsError(ENOENT)) && files == old(files)
      ensures p !in old(dirs) && old(ParentExists(p)) ==> r == Ok(()) && files == old(files)[p := data]
    {
      if p in dirs {
        return Err(OsError(EISDIR));
      }
      if !ParentExists(p) {
        return Err(OsError(ENOENT));
      }
      files := files[p := data];
      return Ok(());
    }

    /** `os.rename(src, dst)` (and `os.replace`) for a regular file: atomically replaces `dst`. */
    method Rename(src: string, dst: string) returns (r: Result<(), Error>)
      requires Valid()
      modifies this
      ensures Valid()
      ensures dirs == old(dirs) && links == old(links)
      ensures src !in old(files) ==> r == Err(OsError(ENOENT)) && files == old(files) && modes == old(modes)
      ensures src in old(files) && dst in old(dirs) ==> r == Err(OsError(EISDIR)) && files == old(files) && modes == old(modes)
      ensures src in old(files) && dst !in old(dirs) && !old(ParentExists(dst)) ==>
                r == Err(OsError(ENOENT)) && files == old(files) && modes == old(modes)
      ensures src in old(files) && dst !in old(dirs) && old(ParentExists(dst)) ==>
                r == Ok(()) && files == (old(files) - {src})[dst := old(files)[src]]
                && modes == if src in old(modes) then (old(modes) - {src})[dst := old(modes)[src]] else old(modes) - {src, dst}
    {
      if src !in files {
        return Err(OsError(ENOENT));
      }
      if dst in dirs {
        return Err(OsError(EISDIR));
      }
      if !ParentExists(dst) {
        return Err(OsError(ENOENT));
      }
      var data := files[src];
      files := (files - {src})[dst := data];
      if src in modes {
        var m := modes[src];
        modes := (modes - {src})[dst := m];
      } else {
        modes := modes - {src, dst};
      }
      return Ok(());
    }

    /** `os.chmod(p, mode)`. */
    method Chmod(p: string, mode: nat) returns (r: Result<(), Error>)
      modifies this
      ensures files == old(files) && dirs == old(dirs) && links == old(links)
      ensures (p in files || p in dirs) ==> r == Ok(()) && modes == old(modes)[p := mode]
      ensures !(p in files || p in dirs) ==> r == Err(OsError(ENOENT)) && modes == old(modes)
    {
      if p in files || p in dirs {
        modes := modes[p := mode];
        return Ok(());
      }
      return Err(OsError(ENOENT));
    }

    /** `os.mkdir(p)`: one directory, whose parent must already be a directory. */
    method Mkdir(p: string) returns (r: Result<(), Error>)
      requires Valid()
      modifies this
      ensures Valid()
      ensures files == old(files) && modes == old(modes) && links == old(links)
      ensures old(Exists(p)) ==> r == Err(OsError(EEXIST)) && dirs == old(dirs)
      ensures !old(Exists(p)) && (p == "" || !old(ParentExists(p))) ==> r == Err(OsError(ENOENT)) && dirs == old(dirs)
      ensures !old(Exists(p)) && p != "" && old(ParentExists(p)) ==> r == Ok(()) && dirs == old(dirs) + {p}
    {
      if Exists(p) {
        return Err(OsError(EEXIST));
      }
      if p == "" || !ParentExists(p) {
        return Err(OsError(ENOENT));
      }
      dirs := dirs + {p};
      return Ok(());
    }

    /** `os.symlink(target, p)`: only the link's own name is tracked, not what it points to. */
    method Symlink(p: string) returns (r: Result<(), Error>)
      modifies this
      ensures files == old(files) && dirs == old(dirs) && modes == old(modes)
      ensures old(Exists(p)) ==> r == Err(OsError(EEXIST)) && links == old(links)
      ensures !old(Exists(p)) && (p == "" || !old(ParentExists(p))) ==> r == Err(OsError(ENOENT)) && links == old(links)
      ensures !old(Exists(p)) && p != "" && old(ParentExists(p)) ==> r == Ok(()) && links == old(links) + {p}
    {
      if Exists(p) {
        return Err(OsError(EEXIST));
      }
      if p == "" || !ParentExists(p) {
        return Err(OsError(ENOENT));
      }
      links := links + {p};
      return Ok(());
    }

    /** `shutil.rmtree(root)`: removes `root` and everything below it. */
    method RemoveTree(root: string)
      requires Valid() && root != "" && root != "/"
      modifies this
      ensures Valid()
      ensures files == map p | p in old(files) && !InTree(p, root) :: old(files)[p]
      ensures dirs == set d | d in old(dirs) && !InTree(d, root)
      ensures modes == old(modes) && links == old(links)
    {
      files := map p | p in files && !InTree(p, root) :: files[p];
      dirs := set d | d in dirs && !InTree(d, root);
    }

    /** `os.unlink(p)` of a symbolic link. */
    method Unlink(p: string)
      modifies this
      ensures links == old(links) - {p}
      ensures files == old(files) && dirs == old(dirs) && modes == old(modes)
    {
      links := links - {p};
    }
  }
}
