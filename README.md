# pip-accel, modelled in Dafny

pip-accel speeds up `pip install` by caching "dumb" binary distributions of
the Python packages it installs. For each requirement pip reports, it takes
the tarball of a cached build when one exists and is not stale, and
otherwise builds one with `setup.py bdist_dumb`. It stores the build in a
relocatable form and installs it by unpacking it below the install prefix.
It does this through a cache manager over a local and an S3 cache backend.

This project models the parts of pip-accel that decide things and proves
what they promise. The modules follow the program's files:

- `caches.dfy` is the cache manager of `pip_accel/caches/__init__.py`.
- `local.dfy` and `s3.dfy` are its two backends.
- `bdist.dfy` models `pip_accel/bdist.py`.
- `req.dfy` models `pip_accel/req.py`.
- `utils.dfy` models `pip_accel/utils.py`.
- `config.dfy` models `pip_accel/config.py`.
- `accel.dfy` models `pip_accel/__init__.py`.
- `cli.dfy` models `pip_accel/cli.py`.
- `legacy.dfy` models the original single-module `pip_accel.py`.
- `deps.dfy` models `pip_accel/deps/__init__.py`.
- `ubuntu.dfy` models the older `pip_accel/deps.py`.
- `setup.dfy` models the helpers of `setup.py`.

Supporting modules model what the code takes from Python:

- `paths.dfy` models the `os.path` functions of posixpath.
- `text.dfy` models the `str` and `bytes` methods.
- `sorting.dfy` models `sorted`.
- `filesystem.dfy` is a file system with POSIX error codes.
- `errors.dfy` holds the exception hierarchy.
- `wrappers.dfy` holds Option and Result.

Where the code updates state in place, the model is a class whose methods
change its fields. This covers the cache manager's backend list, the S3
backend's cached connection, bucket and read-only flag, the configuration's
overrides, the accelerator's build directories and links, the transactional
update, and the file system. Each state-changing method is proved against
a function of the old state, and the properties follow as lemmas about that
function. Pure code is modelled as functions and lemmas. Some of the code's
values come from outside the modelled code: pip's runs, the builder, dpkg,
`lsb_release`, the user's answer, digests, clocks and process ids. These
are parameters.

The source files come from different releases of pip-accel, so each file
is modelled with its own signatures. For example, the cache manager's `get`
takes a package, a version and a URL, as `pip_accel/caches/__init__.py`
declares it, and `bdist.py` uses it only through its outcome. Two
exception classes are both called CacheBackendDisabledError: one in
`pip_accel/caches/__init__.py`, which is what the cache manager's `except`
clauses name, and one in `pip_accel/exceptions.py`, which is what the S3
backend raises. The model has a single `CacheBackendDisabledError`
constructor for both. That loses nothing the code can observe: the manager's
two `except` clauses differ only in the message they log, and both disable
the backend, whichever class was raised.

The documentation and the code of `Config.__setattr__`
(pip_accel/config.py:145-156) disagree, and the model follows the code. The
documentation says an assigned property is stored as an override. The code
reads the attribute with `getattr` on the instance, and that yields the
property's value, never the descriptor. So the `isinstance` test never
holds, and the value always goes into the instance dictionary. Reading the
name back still gives the assigned value, because an entry in the instance
dictionary shadows the property (`Configuration.Config.SetAttr`).
Similarly, the integer coercion of `max_retries` and the S3 timeout and
retry options returns None for a negative number, as the code's
fall-through does (`Configuration.CoerceCountMeaning`).

## Model

| member | source | states |
|---|---|---|
| Utils.MatchOptionMeaning | pip_accel/utils.py:305-324 | a short-style argument (one dash, then a non-dash) matches exactly when the option letter occurs after its dash; any other argument matches only the long option, spelled exactly |
| Utils.MatchOptionExamples | pip_accel/utils.py:305-324 | bundled flags such as `-xU` match `-U`; `--upgrade-strategy` is not `--upgrade`; a lone `-` matches no short option |
| Utils.ContainsSublistIff | pip_accel/utils.py:341-353 | `contains_sublist` holds exactly when some window of the list equals the sublist |
| Utils.ContainsEmptySublist | pip_accel/utils.py:341-353 | the empty list is contained in every list |
| Utils.MatchOptionWithValueIff | pip_accel/utils.py:327-338 | the option/value pair is present exactly when some argument is `option=value` or two adjacent arguments are `option` then `value` |
| Utils.CompactParagraphWords | pip_accel/utils.py:41-51 | compacting a paragraph keeps its words, in order |
| Utils.JoinedWordsHaveNoNewline | pip_accel/utils.py:41-51 | words joined by single spaces contain no newline, so compaction never creates a paragraph break |
| Utils.CompactIdempotent | pip_accel/utils.py:41-51 | compacting compacted text changes nothing |
| Utils.ExpandPathAbsolute | pip_accel/utils.py:54-77 | `expand_path` always yields an absolute path |
| Utils.ExpandPathHome | pip_accel/utils.py:54-77 | with no `$` in the path or the home directory, `~/rest` becomes `rest` normalised below the absolute home directory of the effective user |
| Utils.ExpandPathPlain | pip_accel/utils.py:54-77 | a path with no `$` that does not start with `~` is only made absolute against the working directory |
| Utils.ParsePathMeaning | pip_accel/utils.py:77 | `parse_path` always yields an absolute path, and only makes absolute a path with no `$` and no leading `~` |
| Paths.AbspathAbsolute | pip_accel/utils.py:77 | with an absolute working directory, `abspath` is absolute |
| Paths.ExpandVarsUnset | pip_accel/utils.py:77 | with no variable set, `expandvars` leaves every path as written |
| Paths.ExpandVarsName | pip_accel/utils.py:77 | `$name`, a whole run of word characters naming a set variable, becomes its value, and that value is not expanded again |
| Paths.ExpandVarsBraced | pip_accel/utils.py:77 | `${name}` naming a set variable becomes its value, and that value is not expanded again |
| Paths.ExpandUserHome | pip_accel/utils.py:77 | `~/rest` takes `$HOME`, or the password entry of the current user when it is unset, without trailing slashes; a path without a leading `~` is left alone |
| Paths.ExpandUserNamed | pip_accel/utils.py:77 | `~name/rest` takes the home directory in the password entry of `name`, without trailing slashes, and an unknown user leaves the path as written |
| Utils.AtomicReplace.constructor | pip_accel/utils.py:235-242 | the temporary file is the target name with `.tmp-<pid>` appended |
| Utils.AtomicReplace.Enter | pip_accel/utils.py:244-254 | entering yields the temporary file name |
| Utils.AtomicReplace.Exit | pip_accel/utils.py:256-260 | after an exception nothing is moved; otherwise the temporary file is renamed over the target, and a failed rename changes no file |
| Utils.WriteAtomically | pip_accel/utils.py:231-260 | writing through `AtomicReplace` leaves exactly the new contents at the target and no temporary file; it succeeds whenever the target's directory exists and neither name is a directory |
| Utils.HashFiles | pip_accel/utils.py:184-200 | the digest is the hash of all files' contents concatenated in the order given; it succeeds exactly when every file exists, so a missing file is an error |
| FileSystem.Fs.Makedirs | pip_accel/utils.py:141-162 | creates the directory and its missing parents and reports True; an existing directory reports False (the swallowed EEXIST); a file in the chain is ENOTDIR |
| FileSystem.Fs.Rename | pip_accel/utils.py:203-228 | `replace_file`: the source's contents and mode move to the destination, replacing it; a missing source or a directory destination is an error and changes nothing |
| LocalCache.LocalCacheBackend.constructor | pip_accel/caches/local.py:34-38 | the backend works below the configured binary cache directory |
| LocalCache.LocalCacheBackend.TemporaryBesideArchive | pip_accel/caches/local.py:70 | the per-process temporary file lies in the same directory as the archive, so the final rename never crosses a directory |
| LocalCache.LocalCacheBackend.Get | pip_accel/caches/local.py:40-54 | returns the archive's pathname below the binary cache exactly when that path is a regular file, and None otherwise |
| LocalCache.LocalCacheBackend.Put | pip_accel/caches/local.py:56-78 | creates the archive's directory, then leaves the rest of the handle as the archive's contents and no temporary file; it succeeds whenever the directory exists and neither name is a directory |
| Caches.FilenameTag | pip_accel/caches/__init__.py:172-191 | the cache file name is `v<revision>/<package>:<tag>:<python>.tar.gz`; the tag is the version unless a URL other than a `file://` URL is given, in which case it is the SHA1 of version plus URL; a `file://` URL names the same entry as no URL |
| Caches.FilenameInjective | pip_accel/caches/__init__.py:172-191 | when names and tags contain no `:`, the cache file name determines the package and the tag |
| Caches.WithoutKeepsOrder | pip_accel/caches/__init__.py:145-148 | removing backends keeps the list free of duplicates and in priority order |
| Caches.RemoveValueIsWithout | pip_accel/caches/__init__.py:145 | in a list without duplicates, `list.remove` drops exactly the named backend |
| Caches.Instances | pip_accel/caches/__init__.py:37-46 | one instance per registered class, never of the abstract base class (which the metaclass registers too), no instance twice |
| Caches.InsertByPriorityFacts | pip_accel/caches/__init__.py:121-122 | inserting a backend into a priority-sorted list keeps it sorted and adds exactly that backend |
| Caches.SortByPriorityFacts | pip_accel/caches/__init__.py:121-122 | sorting by `PRIORITY` yields the same backends in ascending priority |
| Caches.DistinctByMultiset | pip_accel/caches/__init__.py:121-122 | a list has no duplicates exactly when no backend occurs twice in its multiset, so sorting keeps the instances distinct |
| Caches.Stream.constructor | pip_accel/caches/__init__.py:150-170 | a handle starts at the beginning of its data |
| Caches.Stream.Rewind | pip_accel/caches/__init__.py:162 | `seek(0)` returns to the beginning |
| Caches.Stream.ReadRest | pip_accel/caches/local.py:73 | copying from a handle reads everything from the current position to the end |
| Caches.GetRoundMeaning | pip_accel/caches/__init__.py:137-148 | a lookup returns something exactly when some backend hits; it returns the pathname of the first backend that hits; the backends it disables are exactly those that raised before the first hit |
| Caches.CacheManager.constructor | pip_accel/caches/__init__.py:107-125 | the backends are the registered classes' instances, without the abstract base, sorted by priority and without duplicates |
| Caches.CacheManager.Get | pip_accel/caches/__init__.py:127-148 | looks up the generated cache file name; result and surviving backends are those of one lookup round |
| Caches.CacheManager.Lookup | pip_accel/caches/__init__.py:138-148 | asks the backends in priority order and returns the first pathname; every backend that raised before it is removed and the others stay in order |
| Caches.CacheManager.Disable | pip_accel/caches/__init__.py:143-148 | removing a backend that raised leaves the live list equal to the snapshot without every backend that has failed so far |
| Caches.CacheManager.Put | pip_accel/caches/__init__.py:150-170 | offers the handle under the generated cache file name to every backend; exactly the backends that raised are removed |
| Caches.CacheManager.Store | pip_accel/caches/__init__.py:161-170 | rewinds the handle before each backend, so each receives the complete archive; exactly the backends that raised are removed, the rest keep their order |
| Caches.LiveValid | pip_accel/caches/__init__.py:138-148 | the list that survives removals keeps the manager's invariant: distinct and sorted by priority |
| Caches.RemoveStep | pip_accel/caches/__init__.py:145-148 | removing one more failed backend from the live list is the same as removing it from the snapshot |
| Caches.LocalBeforeS3 | pip_accel/caches/__init__.py:119-122 | in the priority-sorted backend list a local backend (`PRIORITY` 10) always comes before an S3 backend (`PRIORITY` 20), so the local file system is checked first |
| S3Cache.NetlocEnd | pip_accel/caches/s3.py:251-252 | the network location of the cache URL stops before the first `/`, `?` or `#` |
| S3Cache.SplitSchemeOf | pip_accel/caches/s3.py:251-253 | a lower-case scheme followed by `:` is split off as the URL's scheme |
| S3Cache.UrlParts | pip_accel/caches/s3.py:251-252 | `scheme://netloc` parses to that scheme and that network location |
| S3Cache.ConnectionOfHost | pip_accel/caches/s3.py:251-266 | a URL without a port connects to its host with no port, over TLS exactly for `https`, with the subdomain calling format only for the default S3 host, and anonymously when no credentials are found |
| S3Cache.ConnectionOfHostAndPort | pip_accel/caches/s3.py:251-266 | a URL `scheme://host:port` connects to that host and that numeric port |
| S3Cache.DefaultConnection | pip_accel/caches/s3.py:251-259 | the default cache URL connects over TLS to `s3.amazonaws.com` with the subdomain calling format |
| S3Cache.CacheKeyShape | pip_accel/caches/s3.py:275-283 | the key is the file name joined below the prefix with `/`; an empty prefix or file name is dropped, not joined |
| S3Cache.CacheKeyInjective | pip_accel/caches/s3.py:275-283 | under one prefix, different file names have different keys |
| S3Cache.S3Service.constructor | pip_accel/caches/s3.py:191-230 | the service holds the given buckets and objects |
| S3Cache.S3CacheBackend.constructor | pip_accel/caches/s3.py:126-130 | the backend starts with the configured bucket, prefix, URL and read only flag, and with no cached connection or bucket |
| S3Cache.S3CacheBackend.Prerequisites | pip_accel/caches/s3.py:285-309 | the backend is usable exactly when a bucket is configured and boto is importable; otherwise it raises CacheBackendDisabledError |
| S3Cache.S3CacheBackend.S3Connection | pip_accel/caches/s3.py:232-273 | the connection is the one the URL and credentials determine; once made it is cached, and a failure caches nothing |
| S3Cache.S3CacheBackend.S3Bucket | pip_accel/caches/s3.py:191-230 | a cached bucket is reused; otherwise the bucket is found, or created when missing and creation is enabled, and any other outcome is an error that creates nothing |
| S3Cache.S3CacheBackend.Get | pip_accel/caches/s3.py:132-159 | without prerequisites it raises and touches nothing; otherwise it succeeds exactly when the bucket can be had (cached, or connected, reachable and existing or creatable) and, for a stored key, the download succeeds; a stored key is downloaded to the binary cache and that path is returned, with the cache directory made; a missing key then returns None and changes no file |
| S3Cache.S3CacheBackend.Download | pip_accel/caches/s3.py:155-157 | the directory of the local file is made as `makedirs` makes it; the download succeeds exactly when that directory is not empty and is a directory afterwards and the local file is not a directory; it then leaves the local file holding the object's contents and every other file as it was, and a failure writes no file |
| S3Cache.S3CacheBackend.Put | pip_accel/caches/s3.py:161-189 | in read only mode nothing happens; otherwise, with the prerequisites met, it succeeds exactly when the bucket can be had, and then the rest of the handle is stored under the key; a refused upload switches to read only mode without raising |
| Req.NameAtoms | pip_accel/req.py:290-312 | a requirement name read as a pattern has one single-character element per character of the name |
| Req.LiteralAtoms | pip_accel/req.py:110 | an escaped version read as a pattern has one literal element per character |
| Req.EscapeNameMeaning | pip_accel/req.py:290-312 | the pattern `escape_name` writes parses back to the name itself, with `-` and `_` each standing for either of the two |
| Req.NameSpellings | pip_accel/req.py:290-312 | a name's pattern matches every spelling of the name that only swaps `-` and `_` |
| Req.NameAtomAt | pip_accel/req.py:290-312 | position by position, a dash or underscore becomes the class `[-_]` and every other character stands for itself |
| Req.LiteralAtomAt | pip_accel/req.py:110 | position by position, an escaped version stands for its own characters |
| Req.DashUnderscoreSpellings | pip_accel/req.py:290-312 | the pattern for a name containing `-` matches the name both with that `-` and with `_` in its place |
| Req.CanonicalName | pip_accel/req.py:290-312 | changing `_` to `-` keeps the name's length |
| Req.CanonicalAtoms | pip_accel/req.py:290-312 | a name and its canonical spelling give the same pattern |
| Req.ArchiveOfItself | pip_accel/req.py:107-122 | a file named `<name>-<version><ext>`, for any archive extension other than `.whl`, is a related archive |
| Req.RelatedArchiveSpelling | pip_accel/req.py:107-122 | whether a file is a related archive does not depend on how the requirement name spells `-` and `_` |
| Req.KeptPathsMeaning | pip_accel/req.py:120-122 | the listing comprehension reports exactly the names it accepts, each joined to the directory |
| Req.RelatedArchivesMeaning | pip_accel/req.py:95-122 | exactly the files of the source index whose whole name matches the pattern, ignoring case, are reported, joined to the source index |
| Req.LastModified | pip_accel/req.py:124-136 | with related archives, the newest of their modification times, which is one of them; without any, the current time |
| Req.MtimesOf | pip_accel/req.py:135 | one modification time per related archive |
| Req.ChecksumOrderFree | pip_accel/req.py:138-147 | the checksum does not depend on the order in which the source index lists the archives |
| Req.Checksum | pip_accel/req.py:138-147 | the SHA1 of the related archives' contents, concatenated in sorted name order; it succeeds exactly when every archive exists, so a missing archive is an error |
| Req.IsWheel | pip_accel/req.py:159-199 | a wheel marker without `setup.py` is a wheel; `setup.py` without a marker is a source distribution; both or neither raise UnknownDistributionFormat |
| Req.WheelMarkerGlob | pip_accel/req.py:179 | the pattern `*.dist-info/WHEEL` matches a visible directory with the suffix, but neither a bare `.dist-info` nor a hidden directory |
| Req.IsDirect | pip_accel/req.py:214-217 | a requirement is direct exactly when it is not transitive |
| Req.MetadataGuards | pip_accel/req.py:230-245 | once the format is known, exactly the accessor for the other format refuses with TypeError; source distribution metadata is pip's PKG-INFO |
| Req.Version | pip_accel/req.py:87-93 | a wheel's version comes from its distribution; a source distribution's version is its `Version` header; an unknown format is an error |
| Req.TransactionalUpdate.constructor | pip_accel/req.py:256-264 | a new update is not in a transaction and has made no calls |
| Req.TransactionalUpdate.Enter | pip_accel/req.py:266-278 | with a conflicting installation: uninstall it, clear `satisfied_by` and open the transaction; otherwise do nothing |
| Req.TransactionalUpdate.Exit | pip_accel/req.py:280-287 | an open transaction is committed when the block raised nothing and rolled back otherwise, then closed; without one nothing happens |
| Req.Transaction | pip_accel/req.py:252-287 | a whole `with` block makes at most one uninstall, followed by its commit (no exception) or rollback (exception) |
| Configuration.LookupPrecedence | pip_accel/config.py:158-179 | an override wins whatever else is set; failing that, a non-empty environment variable; failing that, the configuration file option; otherwise the default; the sources after the winning one do not matter |
| Configuration.LookupEnvironmentNeedsName | pip_accel/config.py:174-175 | the environment is consulted only through a named variable, and an empty value counts as unset |
| Configuration.CoerceCount | pip_accel/config.py:323-339 | the coerced count is never negative |
| Configuration.CoerceCountMeaning | pip_accel/config.py:323-339 | a written non-negative number is that number; a negative one falls out of the `try` as None; an unparsable text or no value gives the default |
| Configuration.CoerceBoolean | pip_accel/config.py:273-292 | a text is true or false exactly when it is one of the known words after stripping and lower-casing, and a ValueError otherwise; any other value is converted by truthiness |
| Configuration.CoerceBooleanTrue | pip_accel/config.py:342-358 | the text `true` coerces to True |
| Configuration.Config.constructor | pip_accel/config.py:98-111 | a new configuration has no overrides and no loaded options, and sees the process environment only when environment variables are to be loaded |
| Configuration.Config.SetAttr | pip_accel/config.py:145-156 | assigning first reads the current value with `getattr` and raises what that raises; that read caches the property and the properties its body reads, as any read does; then the value is stored on the instance and read back from then on; `overrides` is never written |
| Configuration.Config.CacheFormatRevisionDefault | pip_accel/config.py:181-191 | the cache format revision is 7 |
| Configuration.Config.MaxRetriesFromEnvironment | pip_accel/config.py:323-339 | a count written into `$PIP_ACCEL_MAX_RETRIES` is the number of retries |
| Configuration.Config.MaxRetriesDefault | pip_accel/config.py:323-339 | with nothing set, the number of retries is 3 |
| Configuration.Config.InstallPrefixDefault | pip_accel/config.py:245-264 | the install prefix defaults to `/usr/local` exactly for the system Python on a Debian system, and to `sys.prefix` otherwise |
| Configuration.Config.DirectoryDefaults | pip_accel/config.py:193-223 | the source index, binary cache and eggs cache default to `sources`, `binaries` and `eggs` below the data directory |
| Configuration.Config.AvailableConfigurationFiles | pip_accel/config.py:116-121 | a path is reported exactly when it exists and is `parse_path` of the global file, of the user file or of a non-empty `$PIP_ACCEL_CONFIG` |
| Configuration.Config.AvailableConfigurationFilesOrder | pip_accel/config.py:116-121 | with the system wide and the user file present, the list is exactly those two and then the `$PIP_ACCEL_CONFIG` file when it is set and exists, in that order |
| Configuration.Config.LastConfigurationFileWins | pip_accel/config.py:42-49 | when all three files exist and load, an option the `$PIP_ACCEL_CONFIG` file sets has that file's value, and one that only the user file and possibly the system file set has the user file's value |
| Configuration.Config.AvailableConfigurationFilesAbsolute | pip_accel/config.py:116-121 | every reported configuration file is named by an absolute path |
| Configuration.Config.LoadConfigurationFile | pip_accel/config.py:123-143 | reads the file that `parse_path` makes of its argument; succeeds exactly when that file can be read and has a `[pip-accel]` section, whose options then override those loaded before; a failure changes nothing |
| Configuration.Config.LoadConfigurationFiles | pip_accel/config.py:112-115 | loading succeeds exactly when every available file loads; the options are then those of all files merged in order |
| Configuration.Config.LoadEach | pip_accel/config.py:113-115 | loading a list of files one after another succeeds exactly when each loads, and leaves the options of all of them merged in order on top of those loaded before |
| Configuration.Config.Access | pip_accel/config.py:193-270 | reading a `cached_property` gives what a read gave before; when it is not stored yet, the properties its body reads (the data directory for the three cache directories, `on_debian` for the install prefix of the system Python, the install prefix when `sys.executable` is empty) are read and stored first, and then the property itself is stored unless it raises, where later reads find it |
| Configuration.Config.ReadDependencies | pip_accel/config.py:193-270 | the reads inside a property's body leave the instance dictionary as reading each of those properties does |
| Configuration.Config.PropertyAgrees | pip_accel/config.py:193-270 | a property's computed value depends on the instance dictionary only through the properties its body reads |
| Configuration.Config.StoreKeepsReads | pip_accel/config.py:193-270 | storing the value a property currently has changes what no read gives |
| Configuration.Config.CachedGrows | pip_accel/config.py:193-270 | reading a property only adds entries to the instance dictionary, never changes one, and adds only the property and those its body reads, directly or indirectly |
| Configuration.Config.DependenciesKeepProperty | pip_accel/config.py:193-270 | storing the properties a body reads first leaves the property to compute, with the value it had before |
| Configuration.Config.CachedKeepsReads | pip_accel/config.py:193-270 | caching cannot be seen at the moment it happens: after a read, every property reads as it did before |
| Configuration.Config.CachedStoresReads | pip_accel/config.py:193-270 | a first read that succeeds stores the property and every property its body read, each with the value it had, and keeps all that was stored before |
| Configuration.Existing | pip_accel/config.py:121 | a path is kept exactly when it is listed and exists |
| Configuration.ExistingAll | pip_accel/config.py:121 | when every listed path exists, all are kept, in their order |
| Configuration.LastOfThreeWins | pip_accel/config.py:42-49 | of three files loaded in order, the third decides an option it sets, and the second one that the third leaves out |
| Configuration.MergedExtends | pip_accel/config.py:113-143 | a file that loads puts its options on top of those merged so far |
| Configuration.MergedFails | pip_accel/config.py:113-143 | a file that does not load fails the whole list |
| Configuration.MergedStep | pip_accel/config.py:113-115 | loading one more file adds its options on top, or fails the whole load |
| Configuration.MergedPrefixNone | pip_accel/config.py:113-115 | once one file fails to load, loading all of them fails |
| Configuration.LaterFilesOverride | pip_accel/config.py:113-143 | an option takes its value from the last file that sets it |
| BinaryDist.NormaliseMode | pip_accel/bdist.py:347-354 | every member's mode becomes `0o755` when the owner could execute it and `0o644` otherwise |
| BinaryDist.AsWrittenGuardNeverFires | pip_accel/bdist.py:376-380 | as written, the `isabs` test on the result of `relpath` never succeeds, so no member is ever dropped by it |
| BinaryDist.AsWrittenKeepsOutsideEntries | pip_accel/bdist.py:376-394 | as written, a member outside the install prefix is kept, under a name that climbs out of the prefix with `..` |
| BinaryDist.TransformNameMeaning | pip_accel/bdist.py:371-387 | corrected: a member is kept exactly when its absolute name lies below the install prefix, and is then named by its components below the prefix (after dropping `local/`, and on Debian with `/dist-packages/` rewritten) |
| BinaryDist.TransformNameAgreesUnder | pip_accel/bdist.py:371-387 | for members below the prefix, the corrected and the as-written name agree |
| BinaryDist.TransformNameDotSlash | pip_accel/bdist.py:355-372 | `./a/b` and `a/b` are relocated to the same name |
| BinaryDist.TransformEntry | pip_accel/bdist.py:341-394 | as written: devices and directories are dropped, and every other member is kept, named by its path relative to the install prefix (with `..` components when it lies outside), with its mode normalised and its data and kind unchanged |
| BinaryDist.TransformEntryBy | pip_accel/bdist.py:341-394 | for any naming, devices and directories are dropped and any other member is kept exactly when the naming names it, with its mode normalised and its data and kind unchanged |
| BinaryDist.CorrectedTransformEntry | pip_accel/bdist.py:371-387 | corrected: a member is kept exactly when it is neither a device nor a directory and lies below the install prefix |
| BinaryDist.TransformedStep | pip_accel/bdist.py:341-394 | the members are transformed one at a time, in archive order |
| BinaryDist.TransformedAppend | pip_accel/bdist.py:341-394 | transforming two archive parts one after the other is transforming both together, so archive order is kept |
| BinaryDist.TransformedFrom | pip_accel/bdist.py:341-394 | every member yielded is the transformation of some input member |
| BinaryDist.TransformedFacts | pip_accel/bdist.py:341-394 | whatever the naming, as written or corrected, the cached archive holds no devices and no directories, only the modes `0o755` and `0o644`, and only transformations of input members |
| BinaryDist.TransformedAgree | pip_accel/bdist.py:341-394 | two per-member transformations that agree on every member of an archive transform it the same way |
| BinaryDist.TransformedAgreesUnder | pip_accel/bdist.py:371-387 | for an archive whose members all lie below the install prefix, the transformation as written and the corrected one give the same archive |
| BinaryDist.TransformBinaryDist | pip_accel/bdist.py:323-395 | the loop yields exactly the transformation as written (members outside the prefix are kept), member by member and in order |
| BinaryDist.DigitRun | pip_accel/bdist.py:496 | the `\d+` part of the hashbang pattern stops at the first non-digit |
| BinaryDist.LineEnd | pip_accel/bdist.py:488 | the first line ends before the first `\r` or `\n` |
| BinaryDist.NextLine | pip_accel/bdist.py:488 | the next line starts after `\r\n`, `\r` or `\n` |
| BinaryDist.SplitLinesFirst | pip_accel/bdist.py:488-490 | a script has lines exactly when it is not empty, and its first line is the text before the first line break |
| BinaryDist.FixHashbangSameDecision | pip_accel/bdist.py:476-500 | both versions leave scripts that do not run Python untouched, raise for a non-ASCII interpreter, and otherwise rewrite |
| BinaryDist.LineEndPrefix | pip_accel/bdist.py:488 | a text that starts with a line without breaks has that line as its first line |
| BinaryDist.NextLineOf | pip_accel/bdist.py:488 | the second line of such a text starts where it starts in the text after the first line |
| BinaryDist.SplitLinesCons | pip_accel/bdist.py:488 | splitting a line followed by the rest of a text gives that line and the lines of the rest |
| BinaryDist.HashbangHasNoBreak | pip_accel/bdist.py:497 | the new hashbang for an interpreter path without line breaks contains no line break |
| BinaryDist.FixHashbangLines | pip_accel/bdist.py:476-500 | corrected: the rewritten script's lines are the new hashbang followed by the script's other lines, unchanged |
| BinaryDist.FixHashbangDropsFinalNewline | pip_accel/bdist.py:488-499 | a Python script consisting only of its hashbang and a newline loses that newline as written, and keeps it in the corrected version |
| BinaryDist.BasenameAfterSlash | pip_accel/bdist.py:492 | the base name of `dir/name` is `name` |
| BinaryDist.HashbangCommandOf | pip_accel/bdist.py:490-494 | the command of `#!dir/exe` is `exe` |
| BinaryDist.HashbangCommandOfEnv | pip_accel/bdist.py:490-494 | the command of `#!dir/env exe` is `exe` too |
| BinaryDist.PythonExecutableExamples | pip_accel/bdist.py:495-496 | `python`, `python3` and `python2.7` are Python interpreters; `sh` and `python2.` are not |
| BinaryDist.InstallPathnamePlain | pip_accel/bdist.py:437-458 | without the virtual environment and Debian rules a member is installed at `join(prefix, name)` |
| BinaryDist.InstallPathnameHeaders | pip_accel/bdist.py:439-447 | in a virtual environment, headers under `include/` go to `include/site/` |
| BinaryDist.InstalledContentsVerbatim | pip_accel/bdist.py:467-471 | a member that does not start with `#!/` is written byte for byte |
| BinaryDist.InstalledContentsAgree | pip_accel/bdist.py:467-500 | the file contents as written and as corrected succeed or fail together and agree except for `#!/` scripts that run Python, where the corrected contents are the new hashbang followed by everything from the first line break on |
| BinaryDist.InstallPaths | pip_accel/bdist.py:457-461 | one tracked pathname per member, in member order |
| BinaryDist.WrittenLast | pip_accel/bdist.py:437-472 | a member that no later member overwrites is left with its own installed contents and mode |
| BinaryDist.MakeParent | pip_accel/bdist.py:462-465 | the parent directory is created with its missing parents exactly when it is not a directory, not empty and none of them is a file; a parent that is a file is left for `open` to fail on; nothing but the directories changes |
| BinaryDist.InstallMember | pip_accel/bdist.py:462-472 | installing one member succeeds exactly when its file can be opened once the parent is made and its contents can be made; the disk is then the member's file with its contents and mode; when the contents fail the file is left empty, and when it cannot be opened only the directories change |
| BinaryDist.MembersDiskStep | pip_accel/bdist.py:437-472 | after members that all installed, one more member installs on the disk they left |
| BinaryDist.MembersDiskNext | pip_accel/bdist.py:437-472 | after members that all installed, the fold moves on to what installing the next member gives |
| BinaryDist.MembersDiskFailed | pip_accel/bdist.py:437-472 | once a member fails, the later members change nothing |
| BinaryDist.MembersDiskWritten | pip_accel/bdist.py:437-472 | when every member installs, each one's contents can be made, and the files and modes are the old ones with each member's on top, a later member winning at a shared pathname |
| BinaryDist.MemberClear | pip_accel/bdist.py:462-472 | a member installs when its contents can be made, its pathname has a directory part and is not a directory, and no file stands where its directories go |
| BinaryDist.MembersDiskClear | pip_accel/bdist.py:437-472 | on a clear disk, each prefix of the members installs and adds only member files and needed directories |
| BinaryDist.MembersInstall | pip_accel/bdist.py:437-472 | every member installs when their contents can be made, no pathname is an existing directory, and no directory they need is an existing file or a member's pathname |
| BinaryDist.InstallEach | pip_accel/bdist.py:437-472 | the loop's success and the disk it leaves are those of the fold over the members, and the tracked pathnames are returned when tracking |
| BinaryDist.InstallMembers | pip_accel/bdist.py:436-472 | the loop succeeds exactly when every member installs in turn, and leaves the disk the members leave, stopping at the first failure; on success every member is installed in order, a later member winning at a shared pathname, and the tracked pathnames are returned when tracking |
| BinaryDist.PkgInfoFiles | pip_accel/bdist.py:513 | only installed files matching `*.egg-info/PKG-INFO` are selected |
| BinaryDist.Relatives | pip_accel/bdist.py:523-525 | one relative path per installed file, in install order |
| BinaryDist.JoinSnocEmpty | pip_accel/bdist.py:523-525 | appending one more line to the manifest adds that line and a newline at its end |
| BinaryDist.ManifestJoin | pip_accel/bdist.py:523-525 | the manifest is the relative paths, each followed by a newline |
| BinaryDist.ManifestLines | pip_accel/bdist.py:523-525 | reading the manifest back line by line gives the relative paths, in order |
| BinaryDist.ManifestPrefixNone | pip_accel/bdist.py:523-525 | a path that cannot be made relative stops the manifest |
| BinaryDist.WriteManifest | pip_accel/bdist.py:523-525 | it succeeds exactly when the file can be created and every path can be made relative, and the manifest file then holds the full manifest text |
| BinaryDist.UpdateInstalledFiles | pip_accel/bdist.py:502-525 | without exactly one `PKG-INFO` nothing is written; otherwise it succeeds exactly when `installed-files.txt` beside it can be created and every path made relative, and the file then lists the installed files relative to the `.egg-info` directory |
| BinaryDist.InstallBinaryDist | pip_accel/bdist.py:397-474 | it succeeds exactly when every member installs and, with tracking, the manifest can be written; the directories and modes are those the members leave, and so are the files unless a manifest is written; on success every member is installed below the normalised prefix with the contents the code writes (a Python script gets the normalised interpreter in its hashbang and, as written, loses its final newline), and with tracking the manifest is written as well |
| BinaryDist.NeedsInvalidation | pip_accel/bdist.py:124-137 | with trusted modification times, stale exactly when the sources are newer than the archive; otherwise stale exactly when a non-empty recorded checksum differs from the current one |
| BinaryDist.RecallChecksum | pip_accel/bdist.py:139-159 | the stripped contents of the `.txt` sidecar; a missing sidecar is None; any other error is raised |
| BinaryDist.PersistChecksum | pip_accel/bdist.py:161-175 | only when modification times are not trusted: the sidecar holds the checksum and a newline, written through `AtomicReplace`; it succeeds whenever the checksum can be computed and both files can be created beside each other; when computing the checksum raises, the error propagates and the temporary file is left behind empty |
| BinaryDist.ChecksumRoundTrip | pip_accel/bdist.py:139-175 | a persisted checksum is recalled exactly |
| BinaryDist.FreshAfterPersist | pip_accel/bdist.py:124-175 | after its checksum was persisted, an archive is stale exactly when the sources' checksum has changed |
| BinaryDist.BuildHelper | pip_accel/bdist.py:219-315 | no `setup.py` is InvalidSourceDistribution; a non-zero exit is BuildFailed; no `dist/` or not exactly one file in it is NoBuildOutput; otherwise the one file in `dist/` |
| BinaryDist.BuildBinaryDist | pip_accel/bdist.py:177-217 | `bdist_dumb --format=tar` first; only after BuildFailed or NoBuildOutput, `bdist --formats=gztar`, once |
| BinaryDist.GetBinaryDistSource | pip_accel/bdist.py:59-116 | a cached archive is used exactly when it exists and is not stale, and an error deciding staleness propagates; otherwise a successful build is used, and only after BuildFailed does the code try to install system packages: an exception from the install propagates, a refusal re-raises the build error, and a success leads to one more build, whose outcome is final |
| Accel.ArgumentsAllowWheelsIff | pip_accel/__init__.py:591-606 | wheels are disallowed exactly when `--no-use-wheel` is an argument or `--no-binary` is given the value `:all:`, in either the `=` or the two-argument spelling |
| Accel.Decorated | pip_accel/__init__.py:323-363 | the decorated argument list has as many elements as the original |
| Accel.DecorateArguments | pip_accel/__init__.py:358-363 | the loop over a copy of the arguments, reading the already rewritten previous element, yields the decorated argument list |
| Accel.RewriteArguments | pip_accel/__init__.py:358-363 | for any rewriting of file names, the loop over the arguments, reading the already rewritten previous element, gives the rewritten argument list element by element |
| Accel.HashedUrlNamesNoListFile | pip_accel/__init__.py:358-362 | a rewritten `file://…#md5=` argument is never a `-r`/`-c` option, so it never protects the argument after it |
| Accel.DecoratedMeaning | pip_accel/__init__.py:323-363 | every argument is either kept or, when it names an existing file, replaced by its hashed file URL; the argument after a `-r`/`-c` flag that is not itself a file is kept; any other existing file is rewritten |
| Accel.DecoratedWithoutFiles | pip_accel/__init__.py:358-363 | when no argument names an existing file the arguments come back unchanged |
| Accel.PipCommandLineMeaning | pip_accel/__init__.py:432-475 | the pip command line starts with `--download=` for the source index, ends with the user's arguments unchanged, has `--no-clean` and the build directory just before them, and holds `--no-index` exactly when the remote index is not used and `--no-binary=:all:` exactly when wheels are neither wanted nor disallowed already |
| Accel.Kept | pip_accel/__init__.py:520-537 | the kept requirements are exactly those pip reported that are neither already satisfied nor constraints, and there are no more of them than pip reported |
| Accel.TransformedFacts | pip_accel/__init__.py:508-539 | the transformed requirement set is sorted by lowercased name, is a permutation of the kept requirements, and holds exactly the requirements of reported entries |
| Accel.AttemptedFacts | pip_accel/__init__.py:308-321 | the retry loop returns nothing only when no attempt is allowed, raises only when every allowed attempt failed and then raises the last attempt's exception, and otherwise returns the first successful attempt |
| Accel.LocalIndexSuffices | pip_accel/__init__.py:289-299 | without `-U`/`--upgrade`, a local source index that satisfies everything gives the transformed requirement set and no download is attempted |
| Accel.DownloadsRetried | pip_accel/__init__.py:289-321 | once downloading is reached with `n` retries, from the caller or else the configuration, the outcome is the first successful pip run among the first `n`, or the exception of run `n - 1` when all failed, or nothing when `n <= 0` |
| Accel.InTempSafe | pip_accel/__init__.py:608-610 | a build directory made by `mkdtemp` is neither empty nor the root, and does not contain the temporary directory, so removing its tree is safe |
| Accel.PipAccelerator.constructor | pip_accel/__init__.py:98-119 | a new accelerator has no build directories, no reported requirements and no `.eggs` links |
| Accel.PipAccelerator.CreateBuildDirectory | pip_accel/__init__.py:608-610 | the new directory is created and appended to the build directories; nothing else changes |
| Accel.PipAccelerator.BuildDirectory | pip_accel/__init__.py:629-634 | the current build directory is the newest one, and one is made only when there was none |
| Accel.PipAccelerator.ClearBuildDirectory | pip_accel/__init__.py:612-616 | every file below the current build directory is removed and the directory is made again, empty |
| Accel.PipAccelerator.TransformPipRequirementSet | pip_accel/__init__.py:508-539 | the kept requirements are appended to the reported requirements, in pip's order, and the result is the transformed requirement set |
| Accel.PipAccelerator.GetPipRequirementSet | pip_accel/__init__.py:414-506 | pip runs with the composed command line in a cleared build directory; `PIP_EXISTS_ACTION` is set to `w` unless already set; no requirement set raises NothingToDoError; otherwise the transformed set is returned and the kept requirements are remembered |
| Accel.PipAccelerator.RunPip | pip_accel/__init__.py:488-506 | pip's exception propagates, a missing requirement set raises NothingToDoError, a requirement set is transformed, and `PIP_EXISTS_ACTION` defaults to `w` |
| Accel.PipAccelerator.DownloadWithRetries | pip_accel/__init__.py:308-321 | the loop over `range(max_retries)` returns what the retry specification gives for the same pip runs and keeps the build directories |
| Accel.PipAccelerator.GetRequirements | pip_accel/__init__.py:262-321 | a fresh build directory is appended, and the result is what the requirements outcome gives for the decorated arguments, the local source index run and the download runs |
| Accel.PipAccelerator.CreateEggsLink | pip_accel/__init__.py:713-728 | the `.eggs` link is made in the source directory and remembered exactly when it can be created; a failure is ignored and nothing else changes |
| Accel.PipAccelerator.CleanupTemporaryDirectories | pip_accel/__init__.py:618-627 | afterwards there are no build directories and no remembered links; exactly the files and directories outside every build directory survive; exactly the remembered `.eggs` links are gone; every reported requirement's temporary source is removed |
| Accel.PipAccelerator.RemoveBuildDirectories | pip_accel/__init__.py:620-621 | popping and removing the build directories leaves exactly the files and directories outside all of them |
| Accel.PipAccelerator.UnlinkEggsLinks | pip_accel/__init__.py:624-627 | popping the remembered links unlinks exactly those links and no other |
| Accel.AnyWheelMeaning | pip_accel/__init__.py:552-555 | when every `is_wheel` has a value, `any` gives whether one equals the wanted value; an exception comes from a requirement all of whose predecessors had the other value |
| Accel.PlannedUninstallsOnce | pip_accel/__init__.py:560-567 | distribute is uninstalled once when it is installed and setuptools is among the requirements, and otherwise never |
| Accel.PlannedCount | pip_accel/__init__.py:560-589 | when every requirement can be installed there is one installation step per requirement, plus the uninstallation of distribute |
| Accel.PlannedTracking | pip_accel/__init__.py:558-583 | every binary distribution is installed with the caller's tracking choice |
| Accel.InstallOne | pip_accel/__init__.py:566-585 | one round of the loop takes the planned steps for the requirement (distribute uninstalled before the first setuptools while installed, then the editable, wheel or binary installation) and fails exactly when choosing or performing the installation raised, with that exception |
| Accel.InstallEach | pip_accel/__init__.py:559-589 | the count returned is the number of requirements exactly when all of them install, and the steps are then the planned ones; otherwise the exception of the first failing requirement propagates after the steps of the requirements before it |
| Accel.InstallRequirements | pip_accel/__init__.py:541-589 | the `any(is_wheel)` checks raise first; tracking of installed files defaults to on; then the installation loop's outcome as above |
| Accel.MentionsHashMismatchCaseless | pip_accel/__init__.py:664-666 | the hash mismatch keywords are matched regardless of the message's case |
| Accel.LogRecord.constructor | pip_accel/__init__.py:662-669 | a log record holds its message, level name and level number |
| Accel.DownloadLogFilter.Filter | pip_accel/__init__.py:662-669 | every record is kept; a string message containing all four keywords is demoted to DEBUG and any other record is left as it was |
| Accel.Namespace.constructor | pip_accel/__init__.py:784-800 | an object holds the given attributes |
| Accel.Namespace.SetAttr | pip_accel/__init__.py:862-872 | `setattr` changes only the named attribute |
| Accel.PatchedAttribute.constructor | pip_accel/__init__.py:784-800 | the patch remembers its target, attribute, value and whether it is enabled, with no original value yet |
| Accel.PatchedAttribute.Enter | pip_accel/__init__.py:802-806 | when enabled the original value is remembered and the attribute set to the patched value; a missing attribute raises AttributeError; when disabled nothing happens |
| Accel.PatchedAttribute.Exit | pip_accel/__init__.py:808-811 | when enabled the remembered value is put back; when disabled nothing happens |
| Accel.WithPatchedAttribute | pip_accel/__init__.py:774-811 | inside the block the attribute reads as the patched value, and afterwards the object's attributes are exactly as before |
| Accel.AttributeOverrides.constructor | pip_accel/__init__.py:838-846 | the wrapper holds the options object and the overrides |
| Accel.AttributeOverrides.SetAttr | pip_accel/__init__.py:862-872 | setting an overridden name changes nothing; any other name is set on the wrapped options |
| Accel.SetThenGet | pip_accel/__init__.py:848-872 | after a write through the wrapper an overridden name still reads as its override and any other name reads as written, while other attributes read as before |
| Legacy.AddExtensionMeaning | pip_accel.py:360-389 | the result is the archive name with at most an extension appended; it always ends with the extension the gzip, bzip2 or zip header calls for; it equals the name exactly when the name already had that extension; an unknown header leaves the name alone |
| Legacy.AddExtensionIdempotent | pip_accel.py:375-389 | adding the extension a second time for the same header changes nothing |
| Legacy.AddExtensionOf | pip_accel.py:372-389 | the extension is chosen from at most the first two bytes of the downloaded file; a missing file raises |
| Legacy.RelocatedMeaning | pip_accel.py:289-295 | a relocated name is `X` joined with what follows a `/X/` at the end of the archive name, for one of `lib`, `bin`, `man` in that order, and differs from the archive name; a name that is not relocated has no such directory or would keep its name |
| Legacy.BdistContentsFacts | pip_accel.py:282-299 | every entry kept is a regular file of the archive with its mode and relocated name, and every regular file that relocates is kept; directories and links never are |
| Legacy.RelocateMember | pip_accel.py:287-298 | one member contributes its relocated entry exactly when it is a regular file that relocates |
| Legacy.FindBdistContents | pip_accel.py:272-299 | reading the archive members one at a time collects exactly the kept entries, in archive order |
| Legacy.FixHashbangFirstLine | pip_accel.py:264-266 | a file starting with `#!/` gets its first line replaced by `#!` and the interpreter, and everything from its first newline on stays byte for byte; any other file is untouched |
| Legacy.FixHashbangIdempotent | pip_accel.py:264-266 | fixing an already fixed script again changes nothing |
| Legacy.InstallBinaryDist | pip_accel.py:243-270 | installing succeeds exactly when every kept file installs in turn, and leaves the disk the files leave; every kept file is written below the prefix with its hashbang pointed at the prefix's `bin/python`, and gets the mode it had in the archive |
| Legacy.InsertAfterFirstMeaning | pip_accel.py:318-329 | without the word the arguments pass unchanged; with it, the word stays at its first position, the inserted options follow it, and leaving them out gives the arguments back in their order (run_pip with the word `install` and the download-cache and find-links options) |
| Legacy.PipCommandLineNoIndex | pip_accel.py:324-325 | when there is an `install`, `--no-index` reaches pip exactly when the remote index is off or the caller passed it |
| Legacy.ComposeCommandLine | pip_accel.py:318-329 | the command line for `install` is `pip` followed by the arguments with the download-cache, find-links and index options inserted after the first `install` |
| Legacy.ComposeAround | pip_accel.py:318-329 | the loop over the arguments, stopping at the first occurrence of the command word, builds `pip` followed by the arguments with the options inserted right after that word |
| Legacy.RunPip | pip_accel.py:312-340 | the command line is the composed one; the status is true exactly when closing pip's pipe reports no error; the output lines are kept only then |
| Legacy.ParseComplete | pip_accel.py:164-176 | every file name of the form name, hyphen, version, dot, platform, `.tar.gz` (name starting with a letter, version with a digit) is recognised |
| Legacy.ParseSound | pip_accel.py:171-174 | a recognised file name spells out its key: the key is a lowercased name and a version of such a spelling, and the version is the shortest one any spelling allows |
| Legacy.ParseOfSpelling | pip_accel.py:171-174 | a spelling whose version holds no hyphen followed by a digit gives the key of its lowercased name and its version |
| Legacy.ParseBinaryDistNameExample | pip_accel.py:167-176 | `MySQL-python-1.2.3.linux-x86_64.tar.gz` gives the key `("mysql-python", "1.2.3")` |
| Legacy.BinaryIndexFacts | pip_accel.py:162-177 | the binary index holds exactly the keys of the recognised file names, each pointing at the index directory joined with one of them |
| Legacy.FindBinaryDists | pip_accel.py:156-182 | scanning the listing in case-insensitive order gives the binary index of the sorted listing, whose keys are exactly those of recognised names in the listing |
| Legacy.BuiltMeaning | pip_accel.py:184-223 | `build_binary_dists` returns True exactly when no dependency that needs a build fails to build or leaves `dist` empty |
| Legacy.BuiltStopsAtFirstFailure | pip_accel.py:210-217 | at the first failing build the function returns False, having moved only the files of the dependencies before it |
| Legacy.BuiltMovesOnlyBuilt | pip_accel.py:192-221 | only dependencies that are neither cached nor lacking `setup.py` move anything, and only the names their build left in `dist`; when none needs a build the result is True with no moves |
| Legacy.BuiltAfterFailure | pip_accel.py:210-217 | once the verdict is False the later dependencies change nothing |
| Legacy.MoveBuilt | pip_accel.py:214-221 | every file of the build's `dist` listing is moved into the binary index, in listing order |
| Legacy.BuildOne | pip_accel.py:193-221 | one iteration fails exactly when the dependency needs a build and the build fails or leaves nothing, and otherwise makes that dependency's moves |
| Legacy.BuildBinaryDists | pip_accel.py:184-223 | after scanning the binary index the loop gives the specified verdict and moves |
| Legacy.InstalledMeaning | pip_accel.py:225-241 | `install_dependencies` returns True exactly when every dependency has a binary distribution under its lowercased name and version, and then installs their archives one each in order; otherwise it installs only archives of dependencies before the first missing one |
| Legacy.InstalledAfterMissing | pip_accel.py:236-238 | once a dependency is missing the later ones change nothing |
| Legacy.InstallDependencies | pip_accel.py:225-241 | after rescanning the binary index the loop gives the specified verdict and archives |
| Legacy.MainRetryBound | pip_accel.py:73-85 | an install makes between one and nine attempts; it exits with status 1 exactly when every attempt failed to unpack, and with status 0 otherwise |
| Legacy.Attempt | pip_accel.py:74-83 | an attempt with an empty dependency list has nothing to do; otherwise it builds, and installs only when every build succeeded |
| Legacy.RunMain | pip_accel.py:54-85 | no arguments print the usage; without `install` pip's own status is returned; otherwise the retry loop gives the specified outcome and attempt count |
| SystemDeps.DependencyTableFacts | pip_accel/deps/__init__.py:122-123 | the table's keys are lower case and are exactly the lower-cased option names; each maps to the whitespace-split words of the last option with that name |
| SystemDeps.LoadTable | pip_accel/deps/__init__.py:123 | building the dictionary option by option gives the dependency table of the section |
| SystemDeps.Platform.constructor | pip_accel/deps/__init__.py:108-123 | only an interface that names a configuration file, and only when that file has a `dependencies` section, gets a table; otherwise the attribute stays unset |
| SystemDeps.Platform.FindDependencies | pip_accel/deps/__init__.py:125-136 | an unset table raises AttributeError; a non-empty answer comes from the table entry of the lower-cased name |
| SystemDeps.Platform.FindInstalled | pip_accel/deps/__init__.py:138-180 | the Debian interface reports dpkg's installed packages, the fallback interface none |
| SystemDeps.FindDependenciesMeaning | pip_accel/deps/__init__.py:123-136 | the answer does not depend on the name's case; an unknown project gets `[]`; a known one gets the words of the last option with its lower-case name |
| SystemDeps.FallbackHasNoTable | pip_accel/deps/__init__.py:91-139 | the fallback interface never has a table, so asking it for dependencies raises AttributeError |
| SystemDeps.SelectPlatform | pip_accel/deps/__init__.py:150-197 | the Debian interface is chosen exactly when `lsb_release`, stripped and lower-cased, names Debian or Ubuntu; the fallback interface otherwise |
| SystemDeps.InstalledPackagesConcat | pip_accel/deps/__init__.py:176-179 | the listing is parsed line by line: the packages of two listings in sequence are the packages of each, in order |
| SystemDeps.DpkgLineParse | pip_accel/deps/__init__.py:177-179 | a dpkg line whose status is `ii` contributes exactly its package name, and a line with any other status contributes nothing |
| SystemDeps.ParseDpkgListing | pip_accel/deps/__init__.py:174-180 | the loop over dpkg's output collects the installed packages |
| SystemDeps.InstallCommand | pip_accel/deps/__init__.py:182-191 | the command is `apt-get install --yes` followed by the missing packages, unchanged |
| SystemDeps.Missing | pip_accel/deps/__init__.py:41 | the missing packages are exactly the known ones that are not installed, and there are no more of them than known ones |
| SystemDeps.MissingConcat | pip_accel/deps/__init__.py:41 | the comprehension keeps the order of the known dependencies |
| SystemDeps.MissingCounts | pip_accel/deps/__init__.py:41 | each missing package occurs as often as among the known ones, and an installed one never occurs |
| SystemDeps.ConfirmInstallationYes | pip_accel/deps/__init__.py:77-89 | `y` or `Y` with any surrounding whitespace is consent, and a failed prompt is a refusal |
| SystemDeps.ConfirmInstallationNo | pip_accel/deps/__init__.py:81 | any other single word, such as `yes` or `n`, is a refusal |
| SystemDeps.SanityMeaning | pip_accel/deps/__init__.py:36-56 | the check returns True exactly when something is missing, installation is allowed and apt-get exits 0, and it never returns False; the user is asked only when something is missing and automatic installation is off; the command run is `sudo apt-get install --yes` and the missing packages |
| SystemDeps.SanityCheckDependencies | pip_accel/deps/__init__.py:24-56 | the platform's table is consulted for the lower-cased name (raising when it has none), and the outcome is the sanity decision for the known and installed packages |
| UbuntuDeps.FindDependencies | pip_accel/deps.py:88-110 | the if-chain gives the entry of the table of five known projects for the exact name, and `[]` exactly for any other name |
| UbuntuDeps.FindDependenciesExact | pip_accel/deps.py:99-110 | a name that is not lower case is unknown, which is why the caller lower-cases it first |
| UbuntuDeps.DetectedIsDebian | pip_accel/deps.py:136-150 | a system this version detects as Ubuntu also gets the Debian interface of pip_accel/deps/__init__.py |
| UbuntuDeps.SanityCheckDependencies | pip_accel/deps.py:16-153 | on a system that is not Ubuntu the platform is None and the call raises AttributeError; on Ubuntu the outcome is the sanity decision for the table entry of the lower-cased name and dpkg's installed packages |
| Cli.WithoutInstall | pip_accel/cli.py:42 | the arguments passed on contain no `install`, and no more elements than the original |
| Cli.WithoutInstallKeeps | pip_accel/cli.py:42 | every other argument is kept as often as it occurs |
| Cli.WithoutInstallConcat | pip_accel/cli.py:42 | the filter keeps the arguments in their order |
| Cli.VerbosityStep | pip_accel/cli.py:46-50 | one argument changes the verbosity by at most one |
| Cli.Verbosity | pip_accel/cli.py:46-50 | the net verbosity change is bounded by the number of arguments |
| Cli.VerbosityExamples | pip_accel/cli.py:46-50 | `-vq` and `-qv` count as verbose only, `--quiet` lowers and `--verbose` raises the verbosity, a positional argument leaves it |
| Cli.VerbosityConcat | pip_accel/cli.py:46-50 | each argument counts on its own: the change over two argument lists in sequence is the sum |
| Cli.ExitStatusOf | pip_accel/cli.py:52-63 | the exit status is 1 exactly when an exception other than NothingToDoError was raised, and 0 otherwise |
| Cli.AdjustVerbosity | pip_accel/cli.py:46-50 | the loop over the arguments gives the net verbosity change |
| Cli.RunCommand | pip_accel/cli.py:29-63 | no arguments print the usage; without `install` pip replaces the process with the arguments unchanged; otherwise the accelerator gets the arguments without `install`, the verbosity is adjusted from them, and its outcome becomes the exit status |
| SetupScript.StripCommentsKeeps | setup.py:43 | text without `#` passes the comment substitution unchanged, up to where a comment can start |
| SetupScript.StripCommentsComment | setup.py:43 | a `#` at the start of a line, or one after a whitespace character, starts a comment that is removed, together with that whitespace, up to the line's newline, which stays |
| SetupScript.RemoveSpaces | setup.py:46 | the normalised line holds no whitespace and exactly the other characters of the line |
| SetupScript.RemoveSpacesClean | setup.py:46 | text without whitespace is left as it is, so the normalisation is idempotent |
| SetupScript.RequirementsClean | setup.py:39-47 | every collected requirement is a non-empty text without whitespace |
| SetupScript.RequirementOfLine | setup.py:43-46 | a requirement followed by a comment gives the requirement without its whitespace; a requirement line gives itself without whitespace and newline; a comment line gives nothing |
| SetupScript.SortedSet | setup.py:47 | `sorted` of a set lists each of its members once, in ascending order |
| SetupScript.GetRequirements | setup.py:37-47 | the result is sorted and holds exactly the normalised kept lines, each once |
| SetupScript.GetRequirementsUnique | setup.py:39-47 | the result holds each requirement exactly once and no other text |
| SetupScript.VersionOf | setup.py:31 | a captured version is non-empty and holds no quote |
| SetupScript.VersionOfLine | setup.py:31-33 | a line `__version__ = '<v>'`, with any blanks around `=`, either quote and an optional final newline, gives `v` |
| SetupScript.VersionOfOther | setup.py:31 | a line that does not start with `__version__` gives nothing |
| SetupScript.FirstSomeMeaning | setup.py:30-33 | the loop's answer is the version of some line with no match before it, and there is none only when no line matches |
| SetupScript.GetVersion | setup.py:26-34 | the version of the first matching line is returned; when no line matches an exception naming the module is raised |

## Left out

- Running processes is left out. This covers the builder's `Popen`, the spinner and polling loop, `os.system`, `os.popen`, `os.spawnvp` and `execvp`. Only their results are modelled: an exit status, a `dist/` listing, output lines, or "pip now replaces the process".
- pip itself is left out: `InstallCommand`, the requirement set, the package finder, the `setup_requires` patch, wheel installation and uninstallation are foreign code. What a pip run produced, and the outcome of each installation step, are parameters.
- boto's S3 client is left out beyond the URL split, the connection parameters, the cached connection and bucket, and the read-only flag. The service is a class holding buckets and their objects, with fixed answers for reachability, upload refusal and credentials. Timeouts and retries inside boto are not modelled.
- Tar and gzip encoding is left out. An archive is a sequence of entries with name, mode, kind and bytes, and a file handle is a byte sequence with a position.
- SHA1 and MD5 digests are function parameters, not computed.
- Clocks, modification times and `os.getpid()` are integer parameters.
- Concurrency between pip-accel processes sharing a cache directory is left out. A rename is one atomic step.
- Parsing configuration files with `configparser`, parsing `.ini` files, environment and `pwd` lookups, logging and coloredlogs, `Timer`, the `str.format` interpolation in `compact`, and the Windows-only branches of pip_accel/utils.py are left out. The environment is a map, and a parsed file is given as its section. Of the log filter, only how it changes a record's level is modelled.
- Cli.RunCommand: the verbosity change is modelled as the net number of `-v`/`-q` steps. How coloredlogs maps that number to a log level, and where the level is clamped, is left out.
- Python regular expressions in general are left out. The few patterns the code uses are written out as predicates: the related-archive pattern, the hashbang interpreter pattern, the binary distribution file name and the `__version__` line.
- The metaclass and entry-point registry of cache backends is left out. The registered classes are an explicit list.
- Text.Lower: folds only the ASCII letters `A`-`Z`, where `str.lower()` folds every cased Unicode letter. `Text.Strip` and `Text.Words` (`strip()` and `split()`) are not limited this way: they use the whitespace set of CPython 3's `str.isspace()`.
- `int()` accepts only ASCII digits, an optional sign and surrounding whitespace. It does not accept underscores or other Unicode digits.
- Path functions work on strings with `/` separators. What they read from the process (the working directory, `os.environ` and the password database) is a `Host` value given to `Config`, and symbolic links are never resolved. `parse_path` is taken to be humanfriendly's `abspath(expanduser(expandvars(p)))`, because humanfriendly is not part of this model.
- BinaryDist.GetBinaryDistSource: decides only where the archive comes from. The rest of `get_binary_dist` after a build is not composed with it: writing the transformed archive to a temporary file, `cache.put`, the second `cache.get`, `persist_checksum` and reading the members back. Each of these steps is modelled on its own (`BinaryDist.TransformBinaryDist`, `Caches.CacheManager.Put`, `Caches.CacheManager.Get`, `BinaryDist.PersistChecksum`), and `SystemPackageManager` (`system_package.py`) is not part of this model, so its outcome is a parameter.
- Configuration.Config.AvailableConfigurationFiles: takes the set of existing files as an argument. It does not model that `cached_property` fixes the list at its first read, in `__init__`. The other properties are cached through `Configuration.Config.Access`.
- The file system tracks a symbolic link's name only, not its target.
- Caches.CacheManager.Store: reads the rewound handle to its end on each backend's behalf, so `Caches.CacheManager.Put` and `Caches.CacheManager.Store` end with the handle at its end. The S3 backend does not read the handle when it is read-only, and raises before reading when a prerequisite is missing (pip_accel/caches/s3.py:173-177, 295). When such a backend comes last, the real position after the loop is the start instead.
- Text.Enc: maps each character to its code modulo 256 (Latin-1 for the characters it can hold). The files pip-accel writes in text mode (`installed-files.txt` and the checksum sidecar) are encoded with the locale's encoding, which the model does not know; for ASCII text, which pathnames and hexadecimal checksums usually are, the two agree.
- Accel.FileUrl: joins `file://` and the path and does not percent-encode it as `pathname2url` does (pip_accel/utils.py:87), so a path with spaces, `%` or non-ASCII characters gives a different URL than the code.
- Legacy.InstallBinaryDist: calls the wrapped `makedirs`, which swallows EEXIST, where pip_accel.py calls `os.makedirs` directly. For a parent that is an existing file, the code raises EEXIST from `makedirs` where the model fails on opening the file. Both raise and both leave the disk the same, so only the error value differs.
- `get_absolute_path` in setup.py is left out. It only joins paths to the script's own directory, and the model is given the files' lines directly.
- pip_accel/tests.py, pip_accel/compat.py, pip_accel/__main__.py and the CI scripts are not part of this model. They are tests, import shims and glue. The declarations of pip_accel/exceptions.py are the `Error` datatype.

## Findings

The members named after `transform_binary_dist` and `install_binary_dist`
(`BinaryDist.TransformBinaryDist`, `BinaryDist.Transformer`,
`BinaryDist.InstalledContents`, `BinaryDist.InstallBinaryDist`) model the
code as written. The corrected definitions sit beside them
(`BinaryDist.CorrectedTransformer`, `BinaryDist.CorrectedInstalledContents`).
`BinaryDist.TransformedAgreesUnder` and `BinaryDist.InstalledContentsAgree`
say where the two agree.

| source | as written | input that shows it | evidently intended | confidence | as-written member | corrected member |
|---|---|---|---|---|---|---|
| pip_accel/bdist.py:376-380 | an archive member is dropped only when `os.path.relpath(absolute_pathname, install_prefix)` is absolute, which `relpath` never returns, so the guard is dead | prefix `/usr`, member `etc/foo.conf`: the relative name is `../etc/foo.conf`, which is kept and later installed outside the prefix | a member outside the install prefix is warned about and dropped; only members below the prefix are kept, named relative to it | medium, not executed | BinaryDist.TransformNameAsWritten, BinaryDist.AsWrittenKeepsOutsideEntries | BinaryDist.TransformName, BinaryDist.TransformNameMeaning, BinaryDist.CorrectedTransformEntry |
| pip_accel/bdist.py:488-499 | the rewritten script is `b'\n'.join(contents.splitlines())` after its first line is replaced, so the final newline is lost and `\r\n` or `\r` line ends become `\n` | `#!/usr/bin/python\n` with interpreter `/opt/bin/python` becomes `#!/opt/bin/python`, with no newline | only the first line changes; every byte from the first line break on stays as it was | low, not executed | BinaryDist.FixHashbangAsWritten, BinaryDist.FixHashbangDropsFinalNewline | BinaryDist.FixHashbang, BinaryDist.FixHashbangLines, BinaryDist.InstalledContentsAgree |
