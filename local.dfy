/**
 * pip_accel/caches/local.py: the cache backend that keeps distribution
 * archives as files below the binary cache directory, writing each one to a
 * per-process temporary file first and renaming it into place.
 */
module LocalCache {
  import opened Wrappers
  import opened Text
  import opened Errors
  import opened Paths
  import opened FileSystem
  import opened Caches
  import opened Utils

  class LocalCacheBackend {
    /** `config.binary_cache`. */
    const binaryCache: string
    const fs: Fs

    constructor(binaryCache: string, fs: Fs)
      ensures this.binaryCache == binaryCache && this.fs == fs
    {
      this.binaryCache := binaryCache;
      this.fs := fs;
    }

    /** Where an archive with this cache file name lives. */
    function PathOf(filename: string): string
    {
      Join(binaryCache, filename)
    }

    /** The name of the temporary file process `pid` writes first. */
    function TemporaryOf(filename: string, pid: nat): string
    {
      PathOf(filename) + ".tmp-" + NatToString(pid)
    }

    lemma TemporaryBesideArchive(path: string, pid: nat)
      ensures Dirname(path + ".tmp-" + NatToString(pid)) == Dirname(path)
    {
      var suffix := ".tmp-" + NatToString(pid);
      assert '/' !in suffix by {
        assert AllDigits(NatToString(pid));
      }
      DirnameAppend(path, suffix);
      assert path + ".tmp-" + NatToString(pid) == path + suffix;
    }

    /** `get(filename)`: the archive's pathname when it is a regular file, otherwise None. */
    method Get(filename: string) returns (r: Option<string>)
      ensures r.Some? <==> fs.IsFile(PathOf(filename))
      ensures r.Some? ==> r.value == PathOf(filename)
    {
      var pathname := PathOf(filename);
      if fs.IsFile(pathname) {
        return Some(pathname);
      }
      return None;
    }

    /**
     * `put(filename, handle)`: create the directory, copy the rest of the
     * handle to the temporary file, then rename it over the archive.
     */
    method Put(filename: string, handle: Stream, pid: nat) returns (r: Result<(), Error>)
      requires fs.Valid()
      modifies fs, handle
      ensures fs.Valid()
      ensures r.Ok? ==> fs.files == (old(fs.files) - {TemporaryOf(filename, pid)})[PathOf(filename) := old(handle.Rest())]
      ensures r.Ok? ==> fs.dirs == old(fs.dirs) + (if Dirname(PathOf(filename)) in old(fs.dirs) then {} else DirChain(Dirname(PathOf(filename))))
      ensures r.Err? ==> fs.files - {TemporaryOf(filename, pid)} == old(fs.files) - {TemporaryOf(filename, pid)}
      ensures (Dirname(PathOf(filename)) != "" && Dirname(PathOf(filename)) in old(fs.dirs) && PathOf(filename) !in old(fs.dirs) && TemporaryOf(filename, pid) !in old(fs.dirs)) ==> r.Ok?
    {
      var fileInCache := PathOf(filename);
      var made := fs.Makedirs(Dirname(fileInCache));
      if made.Err? {
        return Err(made.error);
      }
      TemporaryBesideArchive(fileInCache, pid);
      var contents := handle.ReadRest();
      r := WriteAtomically(fs, fileInCache, pid, contents);
    }
  }
}
