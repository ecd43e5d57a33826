/**
 * pip_accel/caches/s3.py: the cache backend that keeps distribution
 * archives in an Amazon S3 bucket, downloading hits into the local binary
 * cache and falling back to read only mode when an upload fails.
 *
 * The S3 service is a class holding the buckets and their objects; whether
 * the service can be reached, whether it refuses uploads and whether API
 * credentials are configured are fixed properties of it.
 */
module S3Cache {
  import opened Wrappers
  import opened Text
  import opened Errors
  import opened Paths
  import opened FileSystem
  import opened Caches

  /** `S3Connection.DefaultHost`. */
  const DefaultHost: string := "s3.amazonaws.com"

  /** `config.s3_cache_url` by default. */
  const DefaultUrl: string := "https://" + DefaultHost

  datatype CallingFormat = SubdomainCallingFormat | OrdinaryCallingFormat

  datatype Connection = Connection(host: string, port: Option<int>, isSecure: bool,
                                   callingFormat: CallingFormat, anonymous: bool)

  // ---------------------------------------------------------------------
  // URLs

  predicate SchemeChar(c: char)
  {
    IsAsciiAlnum(c) || c == '+' || c == '-' || c == '.'
  }

  /** The scheme of `urlparse(url)` and the text after its ':'. */
  function SplitScheme(url: string): (string, string)
  {
    var i := Find(url, ":", 0);
    if i > 0 && IsAsciiLetter(url[0]) && (forall j :: 0 <= j < i ==> SchemeChar(url[j]))
    then (Lower(url[..i]), url[i + 1..])
    else ("", url)
  }

  /** Where the network location ends: the first '/', '?' or '#'. */
  function NetlocEnd(s: string): (n: nat)
    ensures n <= |s|
    ensures forall j :: 0 <= j < n ==> s[j] != '/' && s[j] != '?' && s[j] != '#'
  {
    if s == [] || s[0] == '/' || s[0] == '?' || s[0] == '#' then 0 else 1 + NetlocEnd(s[1..])
  }

  /** The `netloc` of `urlparse(url)`: after a leading "//", up to the path, query or fragment. */
  function Netloc(rest: string): string
  {
    if StartsWith(rest, "//") then rest[2..][..NetlocEnd(rest[2..])] else ""
  }

  /**
   * The connection `s3_connection` opens for a URL: host and optional port
   * from the network location, TLS for https, the subdomain calling format
   * for the default host only, and an anonymous connection when no
   * credentials are found. A port that is not a number raises ValueError.
   */
  function ConnectionFor(url: string, credentialsFound: bool): Result<Connection, Error>
  {
    var (scheme, rest) := SplitScheme(url);
    var (host, port) := Partition(Netloc(rest), ":");
    var format := if host == DefaultHost then SubdomainCallingFormat else OrdinaryCallingFormat;
    if port == "" then Ok(Connection(host, None, scheme == "https", format, !credentialsFound))
    else match ParseInt(port)
      case None => Err(ValueError("invalid literal for int(): " + port))
      case Some(n) => Ok(Connection(host, Some(n), scheme == "https", format, !credentialsFound))
  }

  predicate LowerLetters(s: string)
  {
    forall i :: 0 <= i < |s| ==> 'a' <= s[i] <= 'z'
  }

  lemma SplitSchemeOf(scheme: string, rest: string)
    requires scheme != [] && LowerLetters(scheme)
    ensures SplitScheme(scheme + ":" + rest) == (scheme, rest)
  {
    var url := scheme + ":" + rest;
    assert url == scheme + [':'] + rest;
    PartitionAt(scheme, ':', rest);
    assert Find(url, ":", 0) == |scheme|;
    assert url[..|scheme|] == scheme && url[|scheme| + 1..] == rest;
    assert Lower(scheme) == scheme;
  }

  /** A network location without a path, query or fragment is all of it. */
  lemma NetlocEndOf(netloc: string)
    requires forall c :: c in netloc ==> c != '/' && c != '?' && c != '#'
    ensures NetlocEnd(netloc) == |netloc|
    decreases |netloc|
  {
    if netloc != [] {
      assert netloc[0] in netloc;
      assert forall c :: c in netloc[1..] ==> c in netloc;
      NetlocEndOf(netloc[1..]);
    }
  }

  /** `urlparse("scheme://netloc")` has that scheme and network location. */
  lemma UrlParts(scheme: string, netloc: string)
    requires scheme != [] && LowerLetters(scheme)
    requires forall c :: c in netloc ==> c != '/' && c != '?' && c != '#'
    ensures SplitScheme(scheme + "://" + netloc) == (scheme, "//" + netloc)
    ensures Netloc("//" + netloc) == netloc
  {
    var rest := "//" + netloc;
    assert scheme + "://" + netloc == scheme + ":" + rest;
    SplitSchemeOf(scheme, rest);
    assert StartsWith(rest, "//") by { assert rest[..2] == "//"; }
    assert rest[2..] == netloc;
    NetlocEndOf(netloc);
    assert netloc[..|netloc|] == netloc;
  }

  /** A URL `scheme://host` gives host, no port, and TLS exactly for https. */
  lemma ConnectionOfHost(scheme: string, host: string, credentialsFound: bool)
    requires scheme != [] && LowerLetters(scheme)
    requires forall c :: c in host ==> c != ':' && c != '/' && c != '?' && c != '#'
    ensures ConnectionFor(scheme + "://" + host, credentialsFound)
            == Ok(Connection(host, None, scheme == "https",
                             if host == DefaultHost then SubdomainCallingFormat else OrdinaryCallingFormat,
                             !credentialsFound))
  {
    UrlParts(scheme, host);
    FindCharAbsent(host, ':');
    assert Partition(host, ":") == (host, []);
  }

  /** A URL `scheme://host:port` gives that host and port. */
  lemma ConnectionOfHostAndPort(scheme: string, host: string, port: nat, credentialsFound: bool)
    requires scheme != [] && LowerLetters(scheme)
    requires forall c :: c in host ==> c != ':' && c != '/' && c != '?' && c != '#'
    ensures ConnectionFor(scheme + "://" + host + ":" + NatToString(port), credentialsFound)
            == Ok(Connection(host, Some(port), scheme == "https",
                             if host == DefaultHost then SubdomainCallingFormat else OrdinaryCallingFormat,
                             !credentialsFound))
  {
    var digits := NatToString(port);
    var netloc := host + ":" + digits;
    assert scheme + "://" + host + ":" + digits == scheme + "://" + netloc;
    forall c | c in netloc ensures c != '/' && c != '?' && c != '#' {
      if c !in host {
        assert c == ':' || c in digits;
        if c in digits {
          var k :| 0 <= k < |digits| && digits[k] == c;
          assert IsDigit(digits[k]);
        }
      }
    }
    UrlParts(scheme, netloc);
    assert netloc == host + [':'] + digits;
    PartitionAt(host, ':', digits);
    ParseIntToString(port);
  }

  /** The default URL connects over TLS to the default host with the subdomain calling format. */
  lemma DefaultConnection(credentialsFound: bool)
    ensures ConnectionFor(DefaultUrl, credentialsFound)
            == Ok(Connection(DefaultHost, None, true, SubdomainCallingFormat, !credentialsFound))
  {
    assert DefaultUrl == "https" + "://" + DefaultHost;
    ConnectionOfHost("https", DefaultHost, credentialsFound);
  }

  // ---------------------------------------------------------------------
  // Keys

  /** `get_cache_key(filename)`: `'/'.join(filter(None, [prefix, filename]))`. */
  function CacheKey(prefix: string, filename: string): string
  {
    JoinWith("/", (if prefix == "" then [] else [prefix]) + (if filename == "" then [] else [filename]))
  }

  /** The key is the file name below the prefix; an empty prefix adds nothing. */
  lemma CacheKeyShape(prefix: string, filename: string)
    ensures prefix == "" ==> CacheKey(prefix, filename) == filename
    ensures prefix != "" && filename == "" ==> CacheKey(prefix, filename) == prefix
    ensures prefix != "" && filename != "" ==> CacheKey(prefix, filename) == prefix + "/" + filename
  {
    if prefix != "" && filename != "" {
      assert [prefix] + [filename] == [prefix, filename];
      JoinCons("/", prefix, [filename]);
    }
  }

  /** Under one prefix, different file names get different keys. */
  lemma CacheKeyInjective(prefix: string, f1: string, f2: string)
    requires f1 != "" && f2 != ""
    requires CacheKey(prefix, f1) == CacheKey(prefix, f2)
    ensures f1 == f2
  {
    CacheKeyShape(prefix, f1);
    CacheKeyShape(prefix, f2);
    if prefix != "" {
      var k := prefix + "/" + f1;
      assert f1 == k[|prefix| + 1..];
      assert f2 == (prefix + "/" + f2)[|prefix| + 1..];
    }
  }

  // ---------------------------------------------------------------------
  // The service and the backend

  /**
   * `makedirs(dirname(local_file))` and writing `local_file` succeed: the
   * directory is not empty, it is a directory once made, and the file is not.
   */
  predicate Downloads(files: map<string, seq<byte>>, dirs: set<string>, localFile: string)
  {
    Dirname(localFile) != ""
    && Dirname(localFile) in DirsAfter(files, dirs, Dirname(localFile))
    && localFile !in DirsAfter(files, dirs, Dirname(localFile))
  }

  class S3Service {
    /** Bucket name to object key to contents. */
    var buckets: map<string, map<string, seq<byte>>>
    /** Whether bucket requests succeed; otherwise boto raises a client or server error. */
    const reachable: bool
    /** Whether the service refuses uploads. */
    const refusesUploads: bool

    constructor(buckets: map<string, map<string, seq<byte>>>, reachable: bool, refusesUploads: bool)
      ensures this.buckets == buckets && this.reachable == reachable && this.refusesUploads == refusesUploads
    {
      this.buckets := buckets;
      this.reachable := reachable;
      this.refusesUploads := refusesUploads;
    }
  }

  class S3CacheBackend {
    /** `config.s3_cache_bucket`, empty when not set. */
    const bucketName: string
    /** `config.s3_cache_prefix`, empty when not set. */
    const prefix: string
    /** `config.s3_cache_create_bucket`. */
    const createBucket: bool
    /** `config.s3_cache_url`. */
    const url: string
    /** `config.binary_cache`. */
    const binaryCache: string
    /** Whether `boto` can be imported. */
    const botoAvailable: bool
    /** Whether boto finds API credentials (no NoAuthHandlerFound). */
    const credentialsFound: bool
    /** `config.s3_cache_readonly`; set when an upload fails. */
    var readonly: bool
    var cachedConnection: Option<Connection>
    var cachedBucket: Option<string>
    const service: S3Service
    const fs: Fs

    /** The cached bucket is the configured one and exists; the cached connection is the configured one. */
    ghost predicate Valid()
      reads this, service, fs
    {
      fs.Valid()
      && (cachedBucket.Some? ==> cachedBucket.value == bucketName && bucketName in service.buckets)
      && (cachedConnection.Some? ==> ConnectionFor(url, credentialsFound) == Ok(cachedConnection.value))
    }

    constructor(bucketName: string, prefix: string, createBucket: bool, url: string, binaryCache: string,
                botoAvailable: bool, credentialsFound: bool, readonly: bool, service: S3Service, fs: Fs)
      requires fs.Valid()
      ensures Valid()
      ensures this.bucketName == bucketName && this.prefix == prefix && this.createBucket == createBucket
      ensures this.url == url && this.binaryCache == binaryCache && this.botoAvailable == botoAvailable
      ensures this.credentialsFound == credentialsFound && this.readonly == readonly
      ensures this.service == service && this.fs == fs
      ensures cachedConnection == None && cachedBucket == None
    {
      this.bucketName := bucketName;
      this.prefix := prefix;
      this.createBucket := createBucket;
      this.url := url;
      this.binaryCache := binaryCache;
      this.botoAvailable := botoAvailable;
      this.credentialsFound := credentialsFound;
      this.readonly := readonly;
      this.service := service;
      this.fs := fs;
      this.cachedConnection := None;
      this.cachedBucket := None;
    }

    /** `check_prerequisites()`: a bucket must be configured and boto importable. */
    function Prerequisites(): (r: Result<(), Error>)
      ensures r.Ok? <==> bucketName != "" && botoAvailable
      ensures r.Err? ==> r.error.CacheBackendDisabledError?
    {
      if bucketName == "" then Err(CacheBackendDisabledError("no bucket configured"))
      else if !botoAvailable then Err(CacheBackendDisabledError("boto is not installed"))
      else Ok(())
    }

    /** `s3_connection`: opened once, then reused. */
    method S3Connection() returns (r: Result<Connection, Error>)
      requires Valid()
      modifies this
      ensures Valid()
      ensures r == ConnectionFor(url, credentialsFound)
      ensures r.Ok? ==> cachedConnection == Some(r.value)
      ensures r.Err? ==> cachedConnection == old(cachedConnection)
      ensures cachedBucket == old(cachedBucket) && readonly == old(readonly)
    {
      if cachedConnection.Some? {
        return Ok(cachedConnection.value);
      }
      r := ConnectionFor(url, credentialsFound);
      if r.Ok? {
        cachedConnection := Some(r.value);
      }
    }

    /**
     * `s3_bucket`: looked up once, then reused. A missing bucket is created
     * when `create_bucket` is set; boto errors become CacheBackendError.
     */
    method S3Bucket() returns (r: Result<string, Error>)
      requires Valid()
      modifies this, service
      ensures Valid()
      ensures r.Ok? ==> r.value == bucketName && cachedBucket == Some(bucketName) && bucketName in service.buckets
      ensures old(cachedBucket).Some? ==> r == Ok(bucketName) && service.buckets == old(service.buckets)
      ensures old(cachedBucket).None? && ConnectionFor(url, credentialsFound).Err? ==> r == Err(ConnectionFor(url, credentialsFound).error)
      ensures old(cachedBucket).None? && ConnectionFor(url, credentialsFound).Ok? ==>
                (r.Ok? <==> service.reachable && (bucketName in old(service.buckets) || createBucket))
      ensures r.Err? ==> service.buckets == old(service.buckets)
      ensures r.Ok? ==> service.buckets == if bucketName in old(service.buckets) then old(service.buckets) else old(service.buckets)[bucketName := map[]]
      ensures readonly == old(readonly)
    {
      if cachedBucket.Some? {
        return Ok(cachedBucket.value);
      }
      var connection := S3Connection();
      if connection.Err? {
        return Err(connection.error);
      }
      if !service.reachable {
        return Err(CacheBackendError("failed to connect to the configured Amazon S3 bucket"));
      }
      if bucketName !in service.buckets {
        if !createBucket {
          return Err(CacheBackendError("failed to connect to the configured Amazon S3 bucket"));
        }
        service.buckets := service.buckets[bucketName := map[]];
      }
      cachedBucket := Some(bucketName);
      return Ok(bucketName);
    }

    /** `s3_bucket` can be had: it is cached, or the connection opens, the service answers and the bucket exists or may be created. */
    predicate BucketReady()
      reads this, service
    {
      cachedBucket.Some?
      || (ConnectionFor(url, credentialsFound).Ok? && service.reachable && (bucketName in service.buckets || createBucket))
    }

    /** The objects of the bucket; a bucket `s3_bucket` would create holds none. */
    function Objects(): map<string, seq<byte>>
      reads this, service
    {
      if bucketName in service.buckets then service.buckets[bucketName] else map[]
    }

    /** Where a downloaded archive is kept. */
    function LocalFile(filename: string): string
    {
      Join(binaryCache, filename)
    }

    /**
     * `get(filename)`: when the bucket holds the key, download it into the
     * local binary cache and return that pathname; otherwise None.
     */
    method Get(filename: string) returns (r: Result<Option<string>, Error>)
      requires Valid()
      modifies this, service, fs
      ensures Valid()
      ensures Prerequisites().Err? ==> r == Err(Prerequisites().error) && unchanged(fs) && unchanged(service)
      ensures r.Ok? && r.value.Some? ==>
                r.value.value == LocalFile(filename)
                && bucketName in service.buckets && CacheKey(prefix, filename) in service.buckets[bucketName]
                && fs.files == old(fs.files)[LocalFile(filename) := service.buckets[bucketName][CacheKey(prefix, filename)]]
      ensures r.Ok? && r.value.None? ==>
                bucketName in service.buckets && CacheKey(prefix, filename) !in service.buckets[bucketName] && unchanged(fs)
      ensures r.Ok? ==> (forall b :: b in old(service.buckets) ==> b in service.buckets && service.buckets[b] == old(service.buckets)[b])
      ensures r.Ok? <==> Prerequisites().Ok? && old(BucketReady())
                         && (CacheKey(prefix, filename) in old(Objects()) ==> Downloads(old(fs.files), old(fs.dirs), LocalFile(filename)))
      ensures Prerequisites().Ok? && old(BucketReady()) && CacheKey(prefix, filename) !in old(Objects()) ==> r == Ok(None)
      ensures r.Ok? && r.value.Some? ==> fs.dirs == DirsAfter(old(fs.files), old(fs.dirs), Dirname(LocalFile(filename)))
      ensures readonly == old(readonly)
    {
      var ready := Prerequisites();
      if ready.Err? {
        return Err(ready.error);
      }
      var bucket := S3Bucket();
      if bucket.Err? {
        return Err(bucket.error);
      }
      var key := CacheKey(prefix, filename);
      var objects := service.buckets[bucketName];
      if key !in objects {
        return Ok(None);
      }
      var localFile := LocalFile(filename);
      var downloaded := Download(localFile, objects[key]);
      if downloaded.Err? {
        return Err(downloaded.error);
      }
      return Ok(Some(localFile));
    }

    /** `makedirs(dirname(local_file))` and `key.get_contents_to_filename(local_file)`. */
    method Download(localFile: string, data: seq<byte>) returns (r: Result<(), Error>)
      requires fs.Valid()
      modifies fs
      ensures fs.Valid() && fs.modes == old(fs.modes) && fs.links == old(fs.links)
      ensures fs.dirs == DirsAfter(old(fs.files), old(fs.dirs), Dirname(localFile))
      ensures r.Ok? <==> Downloads(old(fs.files), old(fs.dirs), localFile)
      ensures r.Ok? ==> fs.files == old(fs.files)[localFile := data]
      ensures r.Err? ==> fs.files == old(fs.files)
    {
      var made := fs.Makedirs(Dirname(localFile));
      if made.Err? {
        return Err(made.error);
      }
      var written := fs.Write(localFile, data);
      if written.Err? {
        return Err(written.error);
      }
      return Ok(());
    }

    /**
     * `put(filename, handle)`: in read only mode do nothing; otherwise upload
     * the rest of the handle under the key, and switch to read only mode
     * (without raising) when the upload fails.
     */
    method Put(filename: string, handle: Stream) returns (r: Result<(), Error>)
      requires Valid()
      modifies this, service, handle
      ensures Valid()
      ensures old(readonly) ==> r == Ok(()) && unchanged(service) && unchanged(handle) && readonly
      ensures !old(readonly) && Prerequisites().Err? ==> r == Err(Prerequisites().error) && unchanged(service) && !readonly
      ensures !old(readonly) && r.Ok? && !service.refusesUploads ==>
                !readonly && bucketName in service.buckets
                && service.buckets[bucketName] == old(if bucketName in service.buckets then service.buckets[bucketName] else map[])[CacheKey(prefix, filename) := old(handle.Rest())]
      ensures !old(readonly) && r.Ok? && service.refusesUploads ==>
                readonly && (forall b :: b in old(service.buckets) ==> b in service.buckets && service.buckets[b] == old(service.buckets)[b])
      ensures r.Err? ==> service.buckets == old(service.buckets) && readonly == old(readonly)
      ensures !old(readonly) && Prerequisites().Ok? ==> (r.Ok? <==> old(BucketReady()))
    {
      if readonly {
        return Ok(());
      }
      var ready := Prerequisites();
      if ready.Err? {
        return Err(ready.error);
      }
      var key := CacheKey(prefix, filename);
      var bucket := S3Bucket();
      if bucket.Err? {
        return Err(bucket.error);
      }
      var contents := handle.ReadRest();
      if service.refusesUploads {
        readonly := true;
        return Ok(());
      }
      service.buckets := service.buckets[bucketName := service.buckets[bucketName][key := contents]];
      return Ok(());
    }
  }
}
