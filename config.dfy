/**
 * The cache's configuration: the zero-value defaulting at the top of
 * NewCache and the location of the cache file (getCacheFilePath).
 * Durations are nanoseconds, as Go's time.Duration.
 */
module Config {
  import opened FilePath

  datatype Option<T> = None | Some(value: T)

  datatype CacheConfig = CacheConfig(
    projectName: string,
    cleanupInterval: int,
    maxSize: int,
    fileExtension: string,
    compression: bool,
    expireAfter: int,
    cachePath: string)

  /**
   * What the operating system answers when no cachePath is configured:
   * os.UserCacheDir and os.UserHomeDir (None when they fail), os.TempDir,
   * and whether os.Stat of that temporary directory succeeds.
   */
  datatype Env = Env(
    userCacheDir: Option<string>,
    userHomeDir: Option<string>,
    tempDir: string,
    tempDirReachable: bool)

  const Second: int := 1_000_000_000
  const Minute: int := 60 * Second
  const DefaultProjectName: string := "unnamed-project"
  const DefaultCleanupInterval: int := 30 * Minute
  const DefaultMaxSize: int := 1024 * 1024 * 10
  const DefaultFileExtension: string := "json"
  const DefaultExpireAfter: int := 30 * Minute

  /** None of the five defaulted fields holds its zero value. */
  predicate Defaulted(c: CacheConfig)
  {
    c.projectName != "" && c.cleanupInterval != 0 && c.maxSize != 0
    && c.fileExtension != "" && c.expireAfter != 0
  }

  /** The configuration NewCache keeps: each zero-valued field replaced by its default. */
  function WithDefaults(c: CacheConfig): (r: CacheConfig)
    ensures Defaulted(r)
    ensures c.projectName != "" ==> r.projectName == c.projectName
    ensures c.cleanupInterval != 0 ==> r.cleanupInterval == c.cleanupInterval
    ensures c.maxSize != 0 ==> r.maxSize == c.maxSize
    ensures c.fileExtension != "" ==> r.fileExtension == c.fileExtension
    ensures c.expireAfter != 0 ==> r.expireAfter == c.expireAfter
    ensures c.projectName == "" ==> r.projectName == DefaultProjectName
    ensures c.cleanupInterval == 0 ==> r.cleanupInterval == DefaultCleanupInterval
    ensures c.maxSize == 0 ==> r.maxSize == DefaultMaxSize
    ensures c.fileExtension == "" ==> r.fileExtension == DefaultFileExtension
    ensures c.expireAfter == 0 ==> r.expireAfter == DefaultExpireAfter
    ensures r.compression == c.compression && r.cachePath == c.cachePath
  {
    c.(
      projectName := if c.projectName == "" then DefaultProjectName else c.projectName,
      cleanupInterval := if c.cleanupInterval == 0 then DefaultCleanupInterval else c.cleanupInterval,
      maxSize := if c.maxSize == 0 then DefaultMaxSize else c.maxSize,
      fileExtension := if c.fileExtension == "" then DefaultFileExtension else c.fileExtension,
      expireAfter := if c.expireAfter == 0 then DefaultExpireAfter else c.expireAfter)
  }

  /** Defaulting a configuration twice is the same as defaulting it once. */
  lemma WithDefaultsIdempotent(c: CacheConfig)
    ensures WithDefaults(WithDefaults(c)) == WithDefaults(c)
  {
  }

  /** A configuration whose fields are all set passes through NewCache unchanged. */
  lemma WithDefaultsKeepsDefaulted(c: CacheConfig)
    requires Defaulted(c)
    ensures WithDefaults(c) == c
  {
  }

  /** The directory the cache directory is placed in. */
  function BaseDir(c: CacheConfig, env: Env): (base: string)
    ensures c.cachePath != "" ==> base == c.cachePath
    ensures c.cachePath == "" && env.userCacheDir.Some? ==> base == env.userCacheDir.value
    ensures c.cachePath == "" && env.userCacheDir.None? && env.userHomeDir.Some? ==>
              base == env.userHomeDir.value
    ensures c.cachePath == "" && env.userCacheDir.None? && env.userHomeDir.None? ==>
              base == (if env.tempDirReachable then env.tempDir else ".")
  {
    if c.cachePath != "" then c.cachePath
    else match env.userCacheDir
      case Some(dir) => dir
      case None =>
        match env.userHomeDir
        case Some(dir) => dir
        case None => if env.tempDirReachable then env.tempDir else "."
  }

  function FileName(c: CacheConfig): string
  {
    if c.compression then "cache.gz" else "cache." + c.fileExtension
  }

  /** getCacheFilePath: <base>/<projectName>-cache/<file name>, through filepath.Join. */
  function CacheFilePath(c: CacheConfig, env: Env): string
  {
    Join(Join(BaseDir(c, env), c.projectName + "-cache"), FileName(c))
  }

  lemma CacheDirPlain(name: string)
    requires '/' !in name
    ensures Plain(name + "-cache")
  {
    var d := name + "-cache";
    assert d[|d| - 1] == 'e';
    forall i | 0 <= i < |d| ensures d[i] != '/' {
      if i >= |name| {
        assert d[i] == "-cache"[i - |name|];
      }
    }
  }

  lemma FileNamePlain(c: CacheConfig)
    requires '/' !in c.fileExtension
    ensures Plain(FileName(c))
  {
    var f := FileName(c);
    if !c.compression {
      forall i | 0 <= i < |f| ensures f[i] != '/' {
        if i >= 6 {
          assert f[i] == c.fileExtension[i - 6];
        }
      }
    }
  }

  /**
   * The cache file is `cache.gz` (compressed) or `cache.<extension>`, in the
   * directory `<projectName>-cache` inside the cleaned base directory,
   * whenever the project name and the extension hold no separator.
   */
  lemma CacheFilePathShape(c: CacheConfig, env: Env)
    requires '/' !in c.projectName && '/' !in c.fileExtension
    ensures CacheFilePath(c, env)
      == Child(Clean(BaseDir(c, env)), c.projectName + "-cache") + "/" + FileName(c)
    ensures c.compression ==> FileName(c) == "cache.gz"
    ensures !c.compression ==> FileName(c) == "cache." + c.fileExtension
  {
    var base := BaseDir(c, env);
    var d := c.projectName + "-cache";
    var f := FileName(c);
    CacheDirPlain(c.projectName);
    FileNamePlain(c);
    JoinPlain(base, d);
    var dir := Child(Clean(base), d);
    CleanIdempotent(base);
    ChildClean(Clean(base), d);
    JoinPlain(dir, f);
    assert dir != "/" && dir != "." by {
      assert dir[|dir| - 1] == d[|d| - 1] == 'e';
    }
  }
}
