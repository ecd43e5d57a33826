/**
 * pip_accel/config.py: the configuration object. Every option is read
 * through one precedence chain (override, environment variable,
 * configuration file option, default); a few options coerce their value to
 * a count or a boolean.
 *
 * Facts about the host (`sys.prefix`, `sys.executable`, whether the user is
 * root, the working directory, `os.environ` and the password database,
 * `/etc/debian_version`, AppVeyor) are constants given to the constructor;
 * configuration files are parsed by an oracle.
 */
module Configuration {
  import opened Wrappers
  import opened Text
  import opened Errors
  import opened Paths
  import opened Utils

  /** The user specific and the system wide configuration file. */
  const LocalConfig := "~/.pip-accel/pip-accel.conf"
  const GlobalConfig := "/etc/pip-accel.conf"

  /** The configuration section pip-accel reads. */
  const Section := "pip-accel"

  /** A Python value an option can hold; `None` is the absent `Option`. */
  datatype Value = Str(s: string) | Int(i: int) | Bool(b: bool)

  /** Python truthiness. */
  predicate Truthy(v: Option<Value>)
  {
    match v
    case None => false
    case Some(Str(s)) => s != ""
    case Some(Int(i)) => i != 0
    case Some(Bool(b)) => b
  }

  /** What a configuration file parses to: unreadable, or its sections' options. */
  datatype ConfigFile = Unreadable | Parsed(sections: map<string, map<string, string>>)

  /** The precedence chain of `Config.get` on the three dictionaries. */
  function Lookup(overrides: map<string, Option<Value>>, environment: map<string, string>, configuration: map<string, string>,
                  propertyName: string, environmentVariable: Option<string>, configurationOption: Option<string>,
                  default: Option<Value>): Option<Value>
  {
    if propertyName in overrides && overrides[propertyName].Some? then overrides[propertyName]
    else if environmentVariable.Some? && environmentVariable.value in environment && environment[environmentVariable.value] != ""
    then Some(Str(environment[environmentVariable.value]))
    else if configurationOption.Some? && configurationOption.value in configuration
    then Some(Str(configuration[configurationOption.value]))
    else default
  }

  /** The predicates that say which source `Lookup` takes its value from. */
  predicate Overridden(overrides: map<string, Option<Value>>, propertyName: string)
  {
    propertyName in overrides && overrides[propertyName].Some?
  }

  predicate InEnvironment(environment: map<string, string>, environmentVariable: Option<string>)
  {
    environmentVariable.Some? && environmentVariable.value in environment && environment[environmentVariable.value] != ""
  }

  predicate InConfiguration(configuration: map<string, string>, configurationOption: Option<string>)
  {
    configurationOption.Some? && configurationOption.value in configuration
  }

  /**
   * Each source wins exactly when every source before it is absent, and
   * then the sources after it do not matter.
   */
  lemma LookupPrecedence(overrides: map<string, Option<Value>>, environment: map<string, string>, configuration: map<string, string>,
                         p: string, ev: Option<string>, co: Option<string>, default: Option<Value>,
                         environment': map<string, string>, configuration': map<string, string>, default': Option<Value>)
    ensures Overridden(overrides, p) ==>
              Lookup(overrides, environment, configuration, p, ev, co, default) == overrides[p]
              && Lookup(overrides, environment', configuration', p, ev, co, default') == overrides[p]
    ensures !Overridden(overrides, p) && InEnvironment(environment, ev) ==>
              Lookup(overrides, environment, configuration, p, ev, co, default) == Some(Str(environment[ev.value]))
              && Lookup(overrides, environment, configuration', p, ev, co, default') == Some(Str(environment[ev.value]))
    ensures !Overridden(overrides, p) && !InEnvironment(environment, ev) && InConfiguration(configuration, co) ==>
              Lookup(overrides, environment, configuration, p, ev, co, default) == Some(Str(configuration[co.value]))
              && Lookup(overrides, environment, configuration, p, ev, co, default') == Some(Str(configuration[co.value]))
    ensures !Overridden(overrides, p) && !InEnvironment(environment, ev) && !InConfiguration(configuration, co) ==>
              Lookup(overrides, environment, configuration, p, ev, co, default) == default
  {
  }

  /** The environment is consulted only through a named variable, and an empty value counts as unset. */
  lemma LookupEnvironmentNeedsName(overrides: map<string, Option<Value>>, environment: map<string, string>,
                                   configuration: map<string, string>, p: string, co: Option<string>, default: Option<Value>,
                                   ev: string)
    requires ev in environment && environment[ev] == ""
    ensures Lookup(overrides, environment, configuration, p, None, co, default)
            == Lookup(overrides, environment, configuration, p, Some(ev), co, default)
            == Lookup(overrides, map[], configuration, p, None, co, default)
  {
  }

  /** `int(value)`: texts are parsed, booleans count as 0 and 1, `None` raises TypeError. */
  function IntOf(v: Option<Value>): Option<int>
  {
    match v
    case None => None
    case Some(Str(s)) => ParseInt(s)
    case Some(Int(i)) => Some(i)
    case Some(Bool(b)) => Some(if b then 1 else 0)
  }

  /**
   * The coercion of `max_retries`, `s3_cache_timeout` and `s3_cache_retries`:
   * a non-negative integer is returned, a value `int()` rejects gives the
   * default, and a negative integer falls off the end of the `try` and gives
   * None.
   */
  function CoerceCount(v: Option<Value>, default: nat): (r: Option<int>)
    ensures r.Some? ==> r.value >= 0
  {
    match IntOf(v)
    case None => Some(default)
    case Some(n) => if n >= 0 then Some(n) else None
  }

  /** What the coercion makes of a written number, of a negative one, and of nothing. */
  lemma CoerceCountMeaning(n: nat, i: int, s: string, default: nat)
    requires i < 0 && ParseInt(s).None?
    ensures CoerceCount(Some(Str(NatToString(n))), default) == Some(n)
    ensures CoerceCount(Some(Str(IntToString(i))), default) == None
    ensures CoerceCount(Some(Int(n)), default) == Some(n)
    ensures CoerceCount(None, default) == Some(default)
    ensures CoerceCount(Some(Str(s)), default) == Some(default)
  {
    ParseIntToString(n);
    assert IntToString(n) == NatToString(n);
    ParseIntToString(i);
  }

  /** The texts `coerce_boolean` understands, after stripping and lower-casing. */
  predicate TrueWord(t: string)
  {
    t == "1" || t == "yes" || t == "true" || t == "on"
  }

  predicate FalseWord(t: string)
  {
    t == "0" || t == "no" || t == "false" || t == "off" || t == ""
  }

  /**
   * humanfriendly's `coerce_boolean`: a text must be one of the known words
   * (ValueError otherwise); any other value is converted by truthiness.
   */
  function CoerceBoolean(v: Option<Value>): (r: Result<bool, Error>)
    ensures r.Err? <==> v.Some? && v.value.Str? && !TrueWord(Lower(Strip(v.value.s))) && !FalseWord(Lower(Strip(v.value.s)))
    ensures r.Ok? && v.Some? && v.value.Str? ==> r.value == TrueWord(Lower(Strip(v.value.s)))
    ensures r.Ok? && !(v.Some? && v.value.Str?) ==> r.value == Truthy(v)
  {
    match v
    case Some(Str(s)) =>
      var t := Lower(Strip(s));
      if TrueWord(t) then Ok(true) else if FalseWord(t) then Ok(false) else Err(ValueError("Failed to coerce string to boolean"))
    case _ => Ok(Truthy(v))
  }

  /** `true` in the environment turns an option on. */
  lemma CoerceBooleanTrue()
    ensures CoerceBoolean(Some(Str("true"))) == Ok(true)
  {
    StripClean("true");
    assert Lower("true") == "true";
  }

  function OptionalInt(n: Option<int>): Option<Value>
  {
    match n
    case None => None
    case Some(i) => Some(Int(i))
  }

  function Boolean(r: Result<bool, Error>): Result<Option<Value>, Error>
  {
    match r
    case Ok(b) => Ok(Some(Bool(b)))
    case Err(e) => Err(e)
  }

  /** How deep the defaults of a property read other properties. */
  function Rank(name: string): nat
  {
    if name == "python_executable" then 3
    else if name == "source_index" || name == "binary_cache" || name == "eggs_cache" || name == "install_prefix" then 2
    else 1
  }

  /** The `cached_property` options of `Config` whose values are `Value`s. */
  const CachedProperties: set<string> := {
    "cache_format_revision", "source_index", "binary_cache", "eggs_cache", "data_directory", "on_debian",
    "install_prefix", "python_executable", "auto_install", "log_format", "log_verbosity", "max_retries",
    "trust_mod_times", "s3_cache_url", "s3_cache_bucket", "s3_cache_create_bucket", "s3_cache_prefix",
    "s3_cache_readonly", "s3_cache_timeout", "s3_cache_retries"}

  class Config {
    /** `self.overrides`, consulted first by `get`. */
    var overrides: map<string, Option<Value>>
    /** `self.configuration`: the merged `[pip-accel]` options of the loaded files. */
    var configuration: map<string, string>
    /** `self.environment`: `os.environ`, or nothing. */
    const environment: map<string, string>
    /** The values assigned to the instance (its `__dict__` beyond the three dictionaries). */
    var attributes: map<string, Option<Value>>

    const isRoot: bool
    /** The working directory, `os.environ` and the password database that the path functions read. */
    const host: Host
    const sysPrefix: string
    const sysExecutable: string
    const debianVersionExists: bool
    const onAppveyor: bool
    const defaultLogFormat: string

    /** `Config(load_environment_variables=...)`, before any configuration file is loaded. */
    constructor(loadEnvironmentVariables: bool, host: Host, isRoot: bool, sysPrefix: string,
                sysExecutable: string, debianVersionExists: bool, onAppveyor: bool, defaultLogFormat: string)
      ensures overrides == map[] && configuration == map[] && attributes == map[]
      ensures environment == if loadEnvironmentVariables then host.environ else map[]
      ensures this.isRoot == isRoot && this.host == host && this.sysPrefix == sysPrefix && this.sysExecutable == sysExecutable
      ensures this.debianVersionExists == debianVersionExists && this.onAppveyor == onAppveyor
      ensures this.defaultLogFormat == defaultLogFormat
    {
      overrides := map[];
      configuration := map[];
      environment := if loadEnvironmentVariables then host.environ else map[];
      attributes := map[];
      this.isRoot := isRoot;
      this.host := host;
      this.sysPrefix := sysPrefix;
      this.sysExecutable := sysExecutable;
      this.debianVersionExists := debianVersionExists;
      this.onAppveyor := onAppveyor;
      this.defaultLogFormat := defaultLogFormat;
    }

    /** `self.get(property_name, environment_variable, configuration_option, default)`. */
    function Get(propertyName: string, environmentVariable: Option<string>, configurationOption: Option<string>,
                 default: Option<Value>): Option<Value>
      reads this`overrides, this`configuration
    {
      Lookup(overrides, environment, configuration, propertyName, environmentVariable, configurationOption, default)
    }

    /** `config.<name>`: an assigned value, else the property, else None. */
    function Read(name: string): Result<Option<Value>, Error>
      reads this
    {
      ReadIn(attributes, name)
    }

    /** What `config.<name>` gives while the instance dictionary is `attrs`. */
    function ReadIn(attrs: map<string, Option<Value>>, name: string): Result<Option<Value>, Error>
      reads this`overrides, this`configuration
      decreases Rank(name), 2
    {
      if name in attrs then Ok(attrs[name]) else PropertyIn(attrs, name)
    }

    /** The properties the body of `name` reads, in the branch the host facts select. */
    function Reads(name: string): set<string>
    {
      if name == "source_index" || name == "binary_cache" || name == "eggs_cache" then {"data_directory"}
      else if name == "install_prefix" && sysPrefix == "/usr" then {"on_debian"}
      else if name == "python_executable" && sysExecutable == "" then {"install_prefix"}
      else {}
    }

    /**
     * The instance dictionary after `config.<name>` is read with dictionary
     * `attrs`: a `cached_property` that is not stored yet first reads the
     * properties its body reads (each of which stores itself the same way),
     * then stores its own value unless computing it raised.
     */
    function Cached(attrs: map<string, Option<Value>>, name: string): map<string, Option<Value>>
      reads this`overrides, this`configuration
      decreases Rank(name), 1
    {
      if name in attrs || name !in CachedProperties then attrs
      else
        var a := DependenciesCached(attrs, name);
        match PropertyIn(a, name)
        case Ok(v) => a[name := v]
        case Err(_) => a
    }

    /** The instance dictionary once the properties in `Reads(name)` have been read. */
    function DependenciesCached(attrs: map<string, Option<Value>>, name: string): map<string, Option<Value>>
      reads this`overrides, this`configuration
      decreases Rank(name), 0
    {
      if name == "source_index" || name == "binary_cache" || name == "eggs_cache" then Cached(attrs, "data_directory")
      else if name == "install_prefix" && sysPrefix == "/usr" then Cached(attrs, "on_debian")
      else if name == "python_executable" && sysExecutable == "" then Cached(attrs, "install_prefix")
      else attrs
    }

    /**
     * Reading `config.<name>` for a `cached_property`: a value assigned or
     * computed before comes from the instance dictionary; otherwise the
     * properties the body reads are read (and so stored) first, then the
     * property is computed and, unless it raises, stored as well, so later
     * changes to the overrides or the loaded files change none of them.
     */
    method Access(name: string) returns (r: Result<Option<Value>, Error>)
      requires name in CachedProperties
      modifies this
      decreases Rank(name), 1
      ensures r == old(Read(name))
      ensures overrides == old(overrides) && configuration == old(configuration)
      ensures attributes == Cached(old(attributes), name)
      ensures r.Ok? ==> name in attributes && Read(name) == r
    {
      if name in attributes {
        return Ok(attributes[name]);
      }
      ghost var before := attributes;
      ReadDependencies(name);
      DependenciesKeepProperty(before, name);
      r := PropertyIn(attributes, name);
      if r.Ok? {
        attributes := attributes[name := r.value];
      }
    }

    /**
     * The reads of other properties in the body of `name`, before its own
     * value is computed; an error raised here makes `name` raise it too.
     */
    method ReadDependencies(name: string)
      modifies this
      decreases Rank(name), 0
      ensures overrides == old(overrides) && configuration == old(configuration)
      ensures attributes == DependenciesCached(old(attributes), name)
    {
      if name == "source_index" || name == "binary_cache" || name == "eggs_cache" {
        var _ := Access("data_directory");
      } else if name == "install_prefix" && sysPrefix == "/usr" {
        var _ := Access("on_debian");
      } else if name == "python_executable" && sysExecutable == "" {
        var _ := Access("install_prefix");
      }
    }

    /** The properties the class defines, read with instance dictionary `attrs`: five of them read other properties. */
    function PropertyIn(attrs: map<string, Option<Value>>, name: string): Result<Option<Value>, Error>
      reads this`overrides, this`configuration
      decreases Rank(name), 1
    {
      if name == "source_index" then Subdirectory(attrs, "source_index", "sources")
      else if name == "binary_cache" then Subdirectory(attrs, "binary_cache", "binaries")
      else if name == "eggs_cache" then Subdirectory(attrs, "eggs_cache", "eggs")
      else if name == "install_prefix" then InstallPrefix(attrs)
      else if name == "python_executable" then PythonExecutable(attrs)
      else Property(name)
    }

    /** The properties whose bodies read no other property. */
    function Property(name: string): Result<Option<Value>, Error>
      reads this`overrides, this`configuration
    {
      if name == "cache_format_revision" then Ok(Some(Int(7)))
      else if name == "data_directory" then DataDirectory()
      else if name == "on_debian" then Ok(Get("on_debian", None, None, Some(Bool(debianVersionExists))))
      else if name == "auto_install" then AutoInstall()
      else if name == "log_format" then
        Ok(Get("log_format", Some("PIP_ACCEL_LOG_FORMAT"), Some("log-format"), Some(Str(defaultLogFormat))))
      else if name == "log_verbosity" then
        Ok(Get("log_verbosity", Some("PIP_ACCEL_LOG_VERBOSITY"), Some("log-verbosity"), Some(Str("INFO"))))
      else if name == "max_retries" then
        Ok(OptionalInt(CoerceCount(Get("max_retries", Some("PIP_ACCEL_MAX_RETRIES"), Some("max-retries"), None), 3)))
      else if name == "trust_mod_times" then
        Boolean(CoerceBoolean(Get("trust_mod_times", Some("PIP_ACCEL_TRUST_MOD_TIMES"), Some("trust-mod-times"), Some(Bool(!onAppveyor)))))
      else if name == "s3_cache_url" then
        Ok(Get("s3_cache_url", Some("PIP_ACCEL_S3_URL"), Some("s3-url"), Some(Str("https://s3.amazonaws.com"))))
      else if name == "s3_cache_bucket" then Ok(Get("s3_cache_bucket", Some("PIP_ACCEL_S3_BUCKET"), Some("s3-bucket"), None))
      else if name == "s3_cache_create_bucket" then
        Boolean(CoerceBoolean(Get("s3_cache_create_bucket", Some("PIP_ACCEL_S3_CREATE_BUCKET"), Some("s3-create-bucket"), Some(Bool(false)))))
      else if name == "s3_cache_prefix" then Ok(Get("s3_cache_prefix", Some("PIP_ACCEL_S3_PREFIX"), Some("s3-prefix"), None))
      else if name == "s3_cache_readonly" then
        Boolean(CoerceBoolean(Get("s3_cache_readonly", Some("PIP_ACCEL_S3_READONLY"), Some("s3-readonly"), Some(Bool(false)))))
      else if name == "s3_cache_timeout" then
        Ok(OptionalInt(CoerceCount(Get("s3_cache_timeout", Some("PIP_ACCEL_S3_TIMEOUT"), Some("s3-timeout"), None), 60)))
      else if name == "s3_cache_retries" then
        Ok(OptionalInt(CoerceCount(Get("s3_cache_retries", Some("PIP_ACCEL_S3_RETRIES"), Some("s3-retries"), None), 5)))
      else Ok(None)
    }

    /** `data_directory`: the chosen pathname with a leading `~/` expanded; `expand_path` needs a text. */
    function DataDirectory(): Result<Option<Value>, Error>
      reads this`overrides, this`configuration
      decreases 1, 0
    {
      match Get("data_directory", Some("PIP_ACCEL_CACHE"), Some("data-directory"),
                Some(Str(if isRoot then "/var/cache/pip-accel" else "~/.pip-accel")))
      case Some(Str(p)) => Ok(Some(Str(ExpandPath(p, host))))
      case _ => Err(TypeError("expand_path() needs a string"))
    }

    /** `source_index`, `binary_cache`, `eggs_cache`: a subdirectory of `data_directory`, computed even when overridden. */
    function Subdirectory(attrs: map<string, Option<Value>>, name: string, sub: string): Result<Option<Value>, Error>
      reads this`overrides, this`configuration
      decreases 2, 0
    {
      match ReadIn(attrs, "data_directory")
      case Err(e) => Err(e)
      case Ok(Some(Str(d))) => Ok(Get(name, None, None, Some(Str(Join(d, sub)))))
      case Ok(_) => Err(TypeError("os.path.join() needs a string"))
    }

    /** `install_prefix`: `/usr/local` for the system Python of a Debian system, else `sys.prefix`. */
    function InstallPrefix(attrs: map<string, Option<Value>>): Result<Option<Value>, Error>
      reads this`overrides, this`configuration
      decreases 2, 0
    {
      if sysPrefix != "/usr" then Ok(Get("install_prefix", None, None, Some(Str(sysPrefix))))
      else match ReadIn(attrs, "on_debian")
        case Err(e) => Err(e)
        case Ok(onDebian) => Ok(Get("install_prefix", None, None, Some(Str(if Truthy(onDebian) then "/usr/local" else sysPrefix))))
    }

    /** `python_executable`: `sys.executable`, or `<install_prefix>/bin/python` when that is empty. */
    function PythonExecutable(attrs: map<string, Option<Value>>): Result<Option<Value>, Error>
      reads this`overrides, this`configuration
      decreases 3, 0
    {
      if sysExecutable != "" then Ok(Get("python_executable", None, None, Some(Str(sysExecutable))))
      else match ReadIn(attrs, "install_prefix")
        case Err(e) => Err(e)
        case Ok(Some(Str(p))) => Ok(Get("python_executable", None, None, Some(Str(Join(Join(p, "bin"), "python")))))
        case Ok(_) => Err(TypeError("os.path.join() needs a string"))
    }

    /** `auto_install`: None unless set, else coerced to a boolean. */
    function AutoInstall(): Result<Option<Value>, Error>
      reads this`overrides, this`configuration
      decreases 1, 0
    {
      var value := Get("auto_install", Some("PIP_ACCEL_AUTO_INSTALL"), Some("auto-install"), None);
      if value.None? then Ok(None) else Boolean(CoerceBoolean(value))
    }

    /**
     * `config.<name> = value` through `__setattr__`, as written: the current
     * value is read first with `getattr` (which raises what the property
     * raises, and for a `cached_property` stores it and what its body read).
     * Read through an instance, a property yields its value and never the
     * descriptor, so the `isinstance` test fails and the value always goes to
     * the instance dictionary; `overrides` is never written.
     */
    method SetAttr(name: string, value: Option<Value>) returns (r: Result<(), Error>)
      modifies this
      ensures old(Read(name)).Err? ==> r == Err(old(Read(name)).error) && attributes == Cached(old(attributes), name)
      ensures old(Read(name)).Ok? ==> r == Ok(()) && attributes == Cached(old(attributes), name)[name := value]
      ensures overrides == old(overrides) && configuration == old(configuration)
      ensures r.Ok? ==> Read(name) == Ok(value)
    {
      var attribute;
      if name in CachedProperties {
        attribute := Access(name);
      } else {
        assert Cached(attributes, name) == attributes;
        attribute := Read(name);
      }
      assert attribute == old(Read(name)) && attributes == Cached(old(attributes), name);
      if attribute.Err? {
        return Err(attribute.error);
      }
      attributes := attributes[name := value];
      return Ok(());
    }

    /** A property's value depends on the instance dictionary only through the reads of `Reads(name)`. */
    lemma PropertyAgrees(a: map<string, Option<Value>>, b: map<string, Option<Value>>, name: string)
      requires forall d :: d in Reads(name) ==> ReadIn(a, d) == ReadIn(b, d)
      ensures PropertyIn(a, name) == PropertyIn(b, name)
    {
      if name == "source_index" || name == "binary_cache" || name == "eggs_cache" {
        assert "data_directory" in Reads(name);
      } else if name == "install_prefix" && sysPrefix == "/usr" {
        assert "on_debian" in Reads(name);
      } else if name == "python_executable" && sysExecutable == "" {
        assert "install_prefix" in Reads(name);
      }
    }

    /** Storing the value a property reads as changes what no read gives. */
    lemma {:induction false} StoreKeepsReads(attrs: map<string, Option<Value>>, d: string, v: Option<Value>, n: string)
      requires ReadIn(attrs, d) == Ok(v)
      ensures ReadIn(attrs[d := v], n) == ReadIn(attrs, n)
      decreases Rank(n)
    {
      if n != d && n !in attrs {
        forall m | m in Reads(n) ensures ReadIn(attrs[d := v], m) == ReadIn(attrs, m) {
          StoreKeepsReads(attrs, d, v, m);
        }
        PropertyAgrees(attrs[d := v], attrs, n);
      }
    }

    /** Reading a property only adds entries, and only entries of its rank or lower. */
    lemma {:induction false} CachedGrows(attrs: map<string, Option<Value>>, name: string)
      ensures forall k :: k in attrs ==> k in Cached(attrs, name) && Cached(attrs, name)[k] == attrs[k]
      ensures forall k :: k in Cached(attrs, name) && k !in attrs ==> Rank(k) <= Rank(name)
      decreases Rank(name)
    {
      if name !in attrs && name in CachedProperties {
        if name == "source_index" || name == "binary_cache" || name == "eggs_cache" {
          CachedGrows(attrs, "data_directory");
        } else if name == "install_prefix" && sysPrefix == "/usr" {
          CachedGrows(attrs, "on_debian");
        } else if name == "python_executable" && sysExecutable == "" {
          CachedGrows(attrs, "install_prefix");
        }
      }
    }

    /** What the properties read before `name` store leaves `name` itself to compute, with the same value. */
    lemma DependenciesKeepProperty(attrs: map<string, Option<Value>>, name: string)
      requires name !in attrs && name in CachedProperties
      ensures name !in DependenciesCached(attrs, name)
      ensures PropertyIn(DependenciesCached(attrs, name), name) == PropertyIn(attrs, name) == ReadIn(attrs, name)
      ensures Cached(attrs, name) == match PropertyIn(DependenciesCached(attrs, name), name)
                                    case Ok(v) => DependenciesCached(attrs, name)[name := v]
                                    case Err(_) => DependenciesCached(attrs, name)
      decreases Rank(name), 0
    {
      var a := DependenciesCached(attrs, name);
      forall m | m in Reads(name) ensures ReadIn(a, m) == ReadIn(attrs, m) {
        CachedKeepsReads(attrs, m, m);
      }
      PropertyAgrees(a, attrs, name);
      if name == "source_index" || name == "binary_cache" || name == "eggs_cache" {
        CachedGrows(attrs, "data_directory");
      } else if name == "install_prefix" && sysPrefix == "/usr" {
        CachedGrows(attrs, "on_debian");
      } else if name == "python_executable" && sysExecutable == "" {
        CachedGrows(attrs, "install_prefix");
      }
    }

    /** Caching is invisible at the moment it happens: after reading `name`, every read gives what it gave before. */
    lemma {:induction false} CachedKeepsReads(attrs: map<string, Option<Value>>, name: string, n: string)
      ensures ReadIn(Cached(attrs, name), n) == ReadIn(attrs, n)
      decreases Rank(name), 1
    {
      if name !in attrs && name in CachedProperties {
        var a := DependenciesCached(attrs, name);
        forall m ensures ReadIn(a, m) == ReadIn(attrs, m) {
          if name == "source_index" || name == "binary_cache" || name == "eggs_cache" {
            CachedKeepsReads(attrs, "data_directory", m);
          } else if name == "install_prefix" && sysPrefix == "/usr" {
            CachedKeepsReads(attrs, "on_debian", m);
          } else if name == "python_executable" && sysExecutable == "" {
            CachedKeepsReads(attrs, "install_prefix", m);
          }
        }
        DependenciesKeepProperty(attrs, name);
        match PropertyIn(a, name)
        case Ok(v) => StoreKeepsReads(a, name, v, n);
        case Err(_) =>
      }
    }

    /**
     * A successful first read of a `cached_property` stores it and every
     * property its body read, each with the value it had; nothing that was
     * stored before changes.
     */
    lemma {:induction false} CachedStoresReads(attrs: map<string, Option<Value>>, name: string)
      requires name !in attrs && name in CachedProperties && ReadIn(attrs, name).Ok?
      ensures name in Cached(attrs, name) && Ok(Cached(attrs, name)[name]) == ReadIn(attrs, name)
      ensures forall d :: d in Reads(name) ==> d in Cached(attrs, name) && Ok(Cached(attrs, name)[d]) == ReadIn(attrs, d)
      ensures forall k :: k in attrs ==> k in Cached(attrs, name) && Cached(attrs, name)[k] == attrs[k]
      decreases Rank(name)
    {
      CachedGrows(attrs, name);
      DependenciesKeepProperty(attrs, name);
      var c := Cached(attrs, name);
      forall d | d in Reads(name) ensures d in c && Ok(c[d]) == ReadIn(attrs, d) {
        CachedGrows(attrs, d);
        if d !in attrs {
          CachedStoresReads(attrs, d);
        }
        CachedKeepsReads(attrs, name, d);
      }
      CachedKeepsReads(attrs, name, name);
    }

    /** The revision of the cache format is 7 unless assigned. */
    lemma CacheFormatRevisionDefault()
      requires "cache_format_revision" !in attributes
      ensures Read("cache_format_revision") == Ok(Some(Int(7)))
    {
      assert Read("cache_format_revision") == PropertyIn(attributes, "cache_format_revision") == Property("cache_format_revision");
    }

    /** A count written into `$PIP_ACCEL_MAX_RETRIES` is the number of retries. */
    lemma MaxRetriesFromEnvironment(n: nat)
      requires "max_retries" !in attributes && !Overridden(overrides, "max_retries")
      requires "PIP_ACCEL_MAX_RETRIES" in environment && environment["PIP_ACCEL_MAX_RETRIES"] == NatToString(n)
      ensures Read("max_retries") == Ok(Some(Int(n)))
    {
      var g := Get("max_retries", Some("PIP_ACCEL_MAX_RETRIES"), Some("max-retries"), None);
      assert g == Some(Str(NatToString(n))) by {
        assert |NatToString(n)| > 0;
      }
      assert CoerceCount(g, 3) == Some(n) by {
        CoerceCountMeaning(n, -1, "", 3);
      }
      assert Read("max_retries") == PropertyIn(attributes, "max_retries") == Property("max_retries") == Ok(OptionalInt(CoerceCount(g, 3)));
    }

    /** With no assignment, override, variable or option, `max_retries` is 3. */
    lemma MaxRetriesDefault()
      requires "max_retries" !in attributes && !Overridden(overrides, "max_retries")
      requires !InEnvironment(environment, Some("PIP_ACCEL_MAX_RETRIES")) && !InConfiguration(configuration, Some("max-retries"))
      ensures Read("max_retries") == Ok(Some(Int(3)))
    {
      assert Read("max_retries") == PropertyIn(attributes, "max_retries") == Property("max_retries");
    }

    /** `install_prefix` defaults to `/usr/local` exactly for the system Python on Debian. */
    lemma InstallPrefixDefault()
      requires "install_prefix" !in attributes && !Overridden(overrides, "install_prefix")
      requires "on_debian" !in attributes && !Overridden(overrides, "on_debian")
      ensures Read("install_prefix")
              == Ok(Some(Str(if sysPrefix == "/usr" && debianVersionExists then "/usr/local" else sysPrefix)))
    {
      assert Read("install_prefix") == PropertyIn(attributes, "install_prefix") == InstallPrefix(attributes);
      assert Read("on_debian") == PropertyIn(attributes, "on_debian") == Property("on_debian") == Ok(Some(Bool(debianVersionExists)));
    }

    /** The three cache directories are subdirectories of the data directory unless assigned or overridden. */
    lemma DirectoryDefaults(d: string)
      requires Read("data_directory") == Ok(Some(Str(d)))
      requires "source_index" !in attributes && !Overridden(overrides, "source_index")
      requires "binary_cache" !in attributes && !Overridden(overrides, "binary_cache")
      requires "eggs_cache" !in attributes && !Overridden(overrides, "eggs_cache")
      ensures Read("source_index") == Ok(Some(Str(Join(d, "sources"))))
      ensures Read("binary_cache") == Ok(Some(Str(Join(d, "binaries"))))
      ensures Read("eggs_cache") == Ok(Some(Str(Join(d, "eggs"))))
    {
      assert Read("source_index") == PropertyIn(attributes, "source_index") == Subdirectory(attributes, "source_index", "sources");
      assert Read("binary_cache") == PropertyIn(attributes, "binary_cache") == Subdirectory(attributes, "binary_cache", "binaries");
      assert Read("eggs_cache") == PropertyIn(attributes, "eggs_cache") == Subdirectory(attributes, "eggs_cache", "eggs");
    }

    /** `available_configuration_files`: the known files, passed through `parse_path`, that exist. */
    function AvailableConfigurationFiles(existing: set<string>): (r: seq<string>)
      ensures forall p :: p in r <==> (p in existing &&
                (p == ParsePath(GlobalConfig, host) || p == ParsePath(LocalConfig, host)
                 || ("PIP_ACCEL_CONFIG" in environment && environment["PIP_ACCEL_CONFIG"] != ""
                     && p == ParsePath(environment["PIP_ACCEL_CONFIG"], host))))
    {
      var global := ParsePath(GlobalConfig, host);
      var local := ParsePath(LocalConfig, host);
      var chosen := if "PIP_ACCEL_CONFIG" in environment && environment["PIP_ACCEL_CONFIG"] != ""
                    then [ParsePath(environment["PIP_ACCEL_CONFIG"], host)] else [];
      var known := [global, local] + chosen;
      assert forall p :: p in known <==> p == global || p == local || p in chosen;
      Existing(known, existing)
    }

    /** Every available configuration file is named by an absolute path. */
    lemma AvailableConfigurationFilesAbsolute(existing: set<string>)
      requires IsAbs(host.cwd)
      ensures forall p :: p in AvailableConfigurationFiles(existing) ==> IsAbs(p)
    {
      ParsePathMeaning(GlobalConfig, host);
      ParsePathMeaning(LocalConfig, host);
      if "PIP_ACCEL_CONFIG" in environment {
        ParsePathMeaning(environment["PIP_ACCEL_CONFIG"], host);
      }
    }

    /** The pathname `$PIP_ACCEL_CONFIG` names, when it is set and not empty. */
    predicate ChosenConfig()
    {
      "PIP_ACCEL_CONFIG" in environment && environment["PIP_ACCEL_CONFIG"] != ""
    }

    /**
     * The files are listed in the order `__init__` loads them: the system
     * wide file, then the user's, then the one `$PIP_ACCEL_CONFIG` names.
     */
    lemma AvailableConfigurationFilesOrder(existing: set<string>)
      requires ParsePath(GlobalConfig, host) in existing && ParsePath(LocalConfig, host) in existing
      ensures ChosenConfig() && ParsePath(environment["PIP_ACCEL_CONFIG"], host) in existing ==>
                AvailableConfigurationFiles(existing)
                == [ParsePath(GlobalConfig, host), ParsePath(LocalConfig, host), ParsePath(environment["PIP_ACCEL_CONFIG"], host)]
      ensures !ChosenConfig() ==> AvailableConfigurationFiles(existing) == [ParsePath(GlobalConfig, host), ParsePath(LocalConfig, host)]
    {
      var global := ParsePath(GlobalConfig, host);
      var local := ParsePath(LocalConfig, host);
      var chosen := if ChosenConfig() then [ParsePath(environment["PIP_ACCEL_CONFIG"], host)] else [];
      assert AvailableConfigurationFiles(existing) == Existing([global, local] + chosen, existing);
      if chosen == [] || chosen[0] in existing {
        ExistingKnown(global, local, chosen, existing);
      }
    }

    /**
     * Once every file has loaded, an option the `$PIP_ACCEL_CONFIG` file
     * sets has that file's value, and one it leaves out but the user's file
     * sets has the user file's value (each file is passed through
     * `parse_path` once more as it is loaded).
     */
    lemma LastConfigurationFileWins(existing: set<string>, parse: string -> ConfigFile, c: map<string, string>, key: string)
      requires ParsePath(GlobalConfig, host) in existing && ParsePath(LocalConfig, host) in existing
      requires ChosenConfig() && ParsePath(environment["PIP_ACCEL_CONFIG"], host) in existing
      requires Merged(AvailableConfigurationFiles(existing), parse, host).Some?
      ensures key in ItemsOf(parse(ParsePath(ParsePath(environment["PIP_ACCEL_CONFIG"], host), host))) ==>
                key in c + Merged(AvailableConfigurationFiles(existing), parse, host).value
                && (c + Merged(AvailableConfigurationFiles(existing), parse, host).value)[key]
                   == ItemsOf(parse(ParsePath(ParsePath(environment["PIP_ACCEL_CONFIG"], host), host)))[key]
      ensures key !in ItemsOf(parse(ParsePath(ParsePath(environment["PIP_ACCEL_CONFIG"], host), host)))
              && key in ItemsOf(parse(ParsePath(ParsePath(LocalConfig, host), host))) ==>
                key in c + Merged(AvailableConfigurationFiles(existing), parse, host).value
                && (c + Merged(AvailableConfigurationFiles(existing), parse, host).value)[key]
                   == ItemsOf(parse(ParsePath(ParsePath(LocalConfig, host), host)))[key]
    {
      AvailableConfigurationFilesOrder(existing);
      LastOfThreeWins(AvailableConfigurationFiles(existing), parse, host, c, key);
    }

    /**
     * `load_configuration_file(configuration_file)`: exactly one file must be
     * read and it must have a `[pip-accel]` section, whose options then
     * override what was loaded before.
     */
    method LoadConfigurationFile(configurationFile: string, parse: string -> ConfigFile) returns (r: Result<(), Error>)
      modifies this
      ensures overrides == old(overrides) && attributes == old(attributes)
      ensures r.Ok? <==> Loadable(parse(ParsePath(configurationFile, host)))
      ensures r.Ok? ==> configuration == old(configuration) + ItemsOf(parse(ParsePath(configurationFile, host)))
      ensures r.Err? ==> configuration == old(configuration)
    {
      var path := ParsePath(configurationFile, host);
      var parser := parse(path);
      if parser.Unreadable? {
        return Err(Raised("Failed to load configuration file"));
      } else if Section !in parser.sections {
        return Err(Raised("Missing 'pip-accel' section in configuration file"));
      }
      configuration := configuration + parser.sections[Section];
      return Ok(());
    }

    /** The loop of `__init__`: load every available configuration file, in order. */
    method LoadConfigurationFiles(existing: set<string>, parse: string -> ConfigFile) returns (r: Result<(), Error>)
      modifies this
      ensures overrides == old(overrides) && attributes == old(attributes)
      ensures r.Ok? <==> Merged(AvailableConfigurationFiles(existing), parse, host).Some?
      ensures r.Ok? ==> configuration == old(configuration) + Merged(AvailableConfigurationFiles(existing), parse, host).value
    {
      var files := AvailableConfigurationFiles(existing);
      r := LoadEach(files, parse);
    }

    /** `load_configuration_file` on each of `files` in turn, stopping at the first that fails. */
    method LoadEach(files: seq<string>, parse: string -> ConfigFile) returns (r: Result<(), Error>)
      modifies this
      ensures overrides == old(overrides) && attributes == old(attributes)
      ensures r.Ok? <==> Merged(files, parse, host).Some?
      ensures r.Ok? ==> configuration == old(configuration) + Merged(files, parse, host).value
    {
      var i := 0;
      while i < |files|
        invariant 0 <= i <= |files|
        invariant overrides == old(overrides) && attributes == old(attributes)
        invariant Merged(files[..i], parse, host).Some?
        invariant configuration == old(configuration) + Merged(files[..i], parse, host).value
      {
        var loaded := LoadConfigurationFile(files[i], parse);
        if loaded.Err? {
          MergedFails(files, i, parse, host);
          return Err(loaded.error);
        }
        MergedExtends(old(configuration), files, i, parse, host);
        i := i + 1;
      }
      assert files[..i] == files;
      return Ok(());
    }
  }

  /** The files of `paths` that exist, in order. */
  function Existing(paths: seq<string>, existing: set<string>): (r: seq<string>)
    ensures forall p :: p in r <==> p in paths && p in existing
  {
    if paths == [] then []
    else (if paths[0] in existing then [paths[0]] else []) + Existing(paths[1..], existing)
  }

  /** When every path exists, all of them are kept, in order. */
  lemma {:induction false} ExistingAll(paths: seq<string>, existing: set<string>)
    requires forall i :: 0 <= i < |paths| ==> paths[i] in existing
    ensures Existing(paths, existing) == paths
  {
    if paths != [] {
      ExistingAll(paths[1..], existing);
      assert [paths[0]] + paths[1..] == paths;
    }
  }

  lemma ExistingKnown(global: string, local: string, chosen: seq<string>, existing: set<string>)
    requires global in existing && local in existing && (chosen == [] || (|chosen| == 1 && chosen[0] in existing))
    ensures Existing([global, local] + chosen, existing) == [global, local] + chosen
  {
    ExistingAll([global, local] + chosen, existing);
  }

  predicate Loadable(f: ConfigFile)
  {
    f.Parsed? && Section in f.sections
  }

  /** The `[pip-accel]` options of a loadable file. */
  function ItemsOf(f: ConfigFile): map<string, string>
  {
    if Loadable(f) then f.sections[Section] else map[]
  }

  /** The options of loaded files merged in order, or None when one of them fails to load. */
  function Merged(files: seq<string>, parse: string -> ConfigFile, host: Host): Option<map<string, string>>
  {
    if files == [] then Some(map[])
    else
      var f := parse(ParsePath(files[|files| - 1], host));
      match Merged(files[..|files| - 1], parse, host)
      case None => None
      case Some(m) => if Loadable(f) then Some(m + ItemsOf(f)) else None
  }

  lemma UnionAssociative<K, V>(a: map<K, V>, b: map<K, V>, c: map<K, V>)
    ensures (a + b) + c == a + (b + c)
  {
  }

  lemma MergedStep(files: seq<string>, i: nat, parse: string -> ConfigFile, host: Host)
    requires i < |files| && Merged(files[..i], parse, host).Some?
    ensures Merged(files[..i + 1], parse, host)
            == if Loadable(parse(ParsePath(files[i], host)))
               then Some(Merged(files[..i], parse, host).value + ItemsOf(parse(ParsePath(files[i], host))))
               else None
  {
    assert files[..i + 1][..i] == files[..i];
    assert files[..i + 1][i] == files[i];
  }

  /** Of three files, the third decides an option it sets, and the second one the third leaves out. */
  lemma LastOfThreeWins(files: seq<string>, parse: string -> ConfigFile, host: Host, c: map<string, string>, key: string)
    requires |files| == 3 && Merged(files, parse, host).Some?
    ensures key in ItemsOf(parse(ParsePath(files[2], host))) ==>
              key in c + Merged(files, parse, host).value
              && (c + Merged(files, parse, host).value)[key] == ItemsOf(parse(ParsePath(files[2], host)))[key]
    ensures key !in ItemsOf(parse(ParsePath(files[2], host))) && key in ItemsOf(parse(ParsePath(files[1], host))) ==>
              key in c + Merged(files, parse, host).value
              && (c + Merged(files, parse, host).value)[key] == ItemsOf(parse(ParsePath(files[1], host)))[key]
  {
    if key in ItemsOf(parse(ParsePath(files[2], host))) {
      LaterFilesOverride(files, parse, host, 2, key);
    } else if key in ItemsOf(parse(ParsePath(files[1], host))) {
      LaterFilesOverride(files, parse, host, 1, key);
    }
  }

  /** A file that loads puts its options on top of those merged so far. */
  lemma MergedExtends(c: map<string, string>, files: seq<string>, i: nat, parse: string -> ConfigFile, host: Host)
    requires i < |files| && Merged(files[..i], parse, host).Some? && Loadable(parse(ParsePath(files[i], host)))
    ensures Merged(files[..i + 1], parse, host).Some?
    ensures c + Merged(files[..i + 1], parse, host).value
            == c + Merged(files[..i], parse, host).value + ItemsOf(parse(ParsePath(files[i], host)))
  {
    MergedStep(files, i, parse, host);
    UnionAssociative(c, Merged(files[..i], parse, host).value, ItemsOf(parse(ParsePath(files[i], host))));
  }

  /** A file that does not load fails the whole list. */
  lemma MergedFails(files: seq<string>, i: nat, parse: string -> ConfigFile, host: Host)
    requires i < |files| && Merged(files[..i], parse, host).Some? && !Loadable(parse(ParsePath(files[i], host)))
    ensures Merged(files, parse, host).None?
  {
    MergedStep(files, i, parse, host);
    MergedPrefixNone(files, i + 1, parse, host);
  }

  lemma {:induction false} MergedPrefixNone(files: seq<string>, n: nat, parse: string -> ConfigFile, host: Host)
    requires n <= |files| && Merged(files[..n], parse, host).None?
    ensures Merged(files, parse, host).None?
    decreases |files| - n
  {
    if n < |files| {
      assert files[..n + 1][..n] == files[..n];
      MergedPrefixNone(files, n + 1, parse, host);
    } else {
      assert files[..n] == files;
    }
  }

  /** Files loaded later override earlier ones: an option takes its value from the last file that sets it. */
  lemma {:induction false} LaterFilesOverride(files: seq<string>, parse: string -> ConfigFile, host: Host, j: nat, key: string)
    requires Merged(files, parse, host).Some?
    requires j < |files|
    requires key in ItemsOf(parse(ParsePath(files[j], host)))
    requires forall k :: j < k < |files| ==> key !in ItemsOf(parse(ParsePath(files[k], host)))
    ensures key in Merged(files, parse, host).value
    ensures Merged(files, parse, host).value[key] == ItemsOf(parse(ParsePath(files[j], host)))[key]
    decreases |files|
  {
    var init := files[..|files| - 1];
    var last := ItemsOf(parse(ParsePath(files[|files| - 1], host)));
    assert Merged(init, parse, host).Some? && Merged(files, parse, host).value == Merged(init, parse, host).value + last;
    if j < |files| - 1 {
      assert key !in last;
      assert init[j] == files[j];
      forall k | j < k < |init| ensures key !in ItemsOf(parse(ParsePath(init[k], host))) {
        assert init[k] == files[k];
      }
      LaterFilesOverride(init, parse, host, j, key);
    }
  }
}
