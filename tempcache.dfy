/**
 * The local side of the helper: where the cache directory is (`s3tempdir`),
 * which local path a locator is cached under (`s3tempsync`, `s3temppurge`),
 * and what a download, a purge and the command dispatch do to the files.
 *
 * The file system is abstracted as the set of existing directories and the
 * set of existing files, both named by path strings. What the operating
 * system decides (the value of S3TEMP, whether `os.mkdir` succeeds) is passed in.
 */
module TempCache {
  import opened Wrappers
  import opened PyText
  import opened S3Locator

  /** The cache directory used when neither an argument nor S3TEMP names one. */
  const DefaultTempDir: string := "./s3temp"

  /** The directory used when the preferred one cannot be created. */
  const CurrentDir: string := "."

  /** The directory `s3tempdir` tries: the argument, else S3TEMP, else the default. */
  function PreferredTempDir(arg: Option<string>, env: Option<string>): (d: string)
    ensures arg.Some? ==> d == arg.value
    ensures arg.None? && env.Some? ==> d == env.value
    ensures arg.None? && env.None? ==> d == DefaultTempDir
  {
    match arg
    case Some(dir) => dir
    case None =>
      match env
      case Some(dir) => dir
      case None => DefaultTempDir
  }

  /** The first candidate that is present, or `fallback` when none is. */
  function FirstPresent(candidates: seq<Option<string>>, fallback: string): (d: string)
    ensures (forall k :: 0 <= k < |candidates| ==> candidates[k].None?) ==> d == fallback
    ensures forall k :: (0 <= k < |candidates| && candidates[k].Some? &&
                         (forall j :: 0 <= j < k ==> candidates[j].None?)) ==> d == candidates[k].value
  {
    if candidates == [] then fallback
    else if candidates[0].Some? then candidates[0].value
    else
      var rest := candidates[1..];
      assert forall k :: 1 <= k < |candidates| ==> candidates[k] == rest[k - 1];
      FirstPresent(rest, fallback)
  }

  /** The resolution order: the argument wins over S3TEMP, which wins over the default. */
  lemma {:induction false} PreferredIsFirstPresent(arg: Option<string>, env: Option<string>)
    ensures PreferredTempDir(arg, env) == FirstPresent([arg, env], DefaultTempDir)
  {
    var cs := [arg, env];
    if arg.None? {
      assert cs[1..] == [env];
      if env.None? {
        assert cs[1..][1..] == [];
      }
    }
  }

  /**
   * `s3tempdir`'s answer: the preferred directory if it is already a directory
   * or `os.mkdir` makes it, and the current directory otherwise.
   */
  function ResolveTempDir(arg: Option<string>, env: Option<string>, isDir: bool, mkdirOk: bool): (d: string)
    ensures d == PreferredTempDir(arg, env) || d == CurrentDir
    ensures isDir || mkdirOk ==> d == PreferredTempDir(arg, env)
    ensures !isDir && !mkdirOk ==> d == CurrentDir
  {
    var dir := PreferredTempDir(arg, env);
    if isDir || mkdirOk then dir else CurrentDir
  }

  /** The local path of a cached file: the cache directory, a '/', and the file name. */
  function LocalPath(dir: string, name: string): (p: string)
    ensures |p| == |dir| + 1 + |name|
    ensures p[..|dir|] == dir && p[|dir|] == '/' && p[|dir| + 1..] == name
  {
    dir + "/" + name
  }

  /** Within one directory, different names give different local paths. */
  lemma LocalPathInjective(dir: string, name1: string, name2: string)
    ensures LocalPath(dir, name1) == LocalPath(dir, name2) <==> name1 == name2
  {
    if LocalPath(dir, name1) == LocalPath(dir, name2) {
      assert name1 == LocalPath(dir, name1)[|dir| + 1..];
      assert name2 == LocalPath(dir, name2)[|dir| + 1..];
    }
  }

  /** The cache is flat: a file name without '/' is the basename of its local path. */
  lemma FlatLayout(dir: string, name: string)
    requires '/' !in name
    ensures Basename(LocalPath(dir, name)) == name
  {
    BasenameAfterSlash(dir, name);
    BasenameOfPlainName(name);
  }

  /** The directories and the files that exist on the machine. */
  datatype Host = Host(dirs: set<string>, files: set<string>)

  /**
   * `s3tempdir(arg)` with S3TEMP = `env`: the new host and the resolved
   * directory. The preferred directory is created when it is missing and
   * `mkdirOk`; files are untouched.
   */
  function TempDirStep(h: Host, arg: Option<string>, env: Option<string>, mkdirOk: bool): (r: (Host, string))
    ensures r.0.files == h.files
    ensures r.1 in r.0.dirs || r.1 == CurrentDir
    ensures r.0.dirs == if PreferredTempDir(arg, env) !in h.dirs && mkdirOk
                        then h.dirs + {PreferredTempDir(arg, env)} else h.dirs
    ensures r.1 == ResolveTempDir(arg, env, PreferredTempDir(arg, env) in h.dirs, mkdirOk)
  {
    var dir := PreferredTempDir(arg, env);
    var isDir := dir in h.dirs;
    var dirs := if !isDir && mkdirOk then h.dirs + {dir} else h.dirs;
    (Host(dirs, h.files), if isDir || mkdirOk then dir else CurrentDir)
  }

  /** The local path of file `name` in the cache directory the directory step resolves. */
  function CachePath(h: Host, name: string, arg: Option<string>, env: Option<string>, mkdirOk: bool): string
  {
    LocalPath(TempDirStep(h, arg, env, mkdirOk).1, name)
  }

  /**
   * The local half of `s3tempsync` once the file name is known: the directory
   * step, then a successful download creates (or overwrites) the file at the
   * cache path. Returns the new host and the path it prints and returns.
   */
  function DownloadStep(h: Host, name: string, arg: Option<string>, env: Option<string>, mkdirOk: bool): (r: (Host, string))
    ensures r.1 == CachePath(h, name, arg, env, mkdirOk)
    ensures r.0.files == h.files + {r.1}
    ensures r.0.dirs == TempDirStep(h, arg, env, mkdirOk).0.dirs
  {
    var h1 := TempDirStep(h, arg, env, mkdirOk).0;
    var path := CachePath(h, name, arg, env, mkdirOk);
    (Host(h1.dirs, h1.files + {path}), path)
  }

  /**
   * The local half of `s3temppurge` once the file name is known: the directory
   * step, then the file at the cache path is removed if it exists. Returns the
   * new host and whether a file was deleted.
   */
  function RemoveStep(h: Host, name: string, arg: Option<string>, env: Option<string>, mkdirOk: bool): (r: (Host, bool))
    ensures r.1 <==> CachePath(h, name, arg, env, mkdirOk) in h.files
    ensures r.0.files == h.files - {CachePath(h, name, arg, env, mkdirOk)}
    ensures r.0.dirs == TempDirStep(h, arg, env, mkdirOk).0.dirs
  {
    var h1 := TempDirStep(h, arg, env, mkdirOk).0;
    var path := CachePath(h, name, arg, env, mkdirOk);
    if path in h1.files then (Host(h1.dirs, h1.files - {path}), true)
    else (h1, false)
  }

  /** `s3tempsync(url, arg)` when the download succeeds: the file is named by the parsed key's basename. */
  function SyncStep(h: Host, url: string, arg: Option<string>, env: Option<string>, mkdirOk: bool): (r: (Host, string))
    ensures r.1 == LocalPath(TempDirStep(h, arg, env, mkdirOk).1, SyncName(url))
    ensures r.0.files == h.files + {r.1}
    ensures r.0.dirs == TempDirStep(h, arg, env, mkdirOk).0.dirs
    ensures Basename(r.1) == SyncName(url)
  {
    FlatLayout(TempDirStep(h, arg, env, mkdirOk).1, SyncName(url));
    DownloadStep(h, SyncName(url), arg, env, mkdirOk)
  }

  /** `s3temppurge(target, arg)`: the file is named by the basename of the raw target. */
  function PurgeStep(h: Host, target: string, arg: Option<string>, env: Option<string>, mkdirOk: bool): (r: (Host, bool))
    ensures r.0.files <= h.files
    ensures h.files - r.0.files <= {LocalPath(TempDirStep(h, arg, env, mkdirOk).1, Basename(target))}
    ensures r.1 <==> r.0.files != h.files
    ensures r.1 <==> LocalPath(TempDirStep(h, arg, env, mkdirOk).1, Basename(target)) in h.files
    ensures r.0.dirs == TempDirStep(h, arg, env, mkdirOk).0.dirs
  {
    RemoveStep(h, PurgeName(target), arg, env, mkdirOk)
  }

  /** The dispatch of the command line: `del` purges, `sync` downloads, anything else does nothing. */
  function DispatchStep(h: Host, action: string, url: string, arg: Option<string>, env: Option<string>, mkdirOk: bool): (r: Host)
    ensures action == "del" ==> r == PurgeStep(h, url, arg, env, mkdirOk).0
    ensures action == "sync" ==> r == SyncStep(h, url, arg, env, mkdirOk).0
    ensures action != "del" && action != "sync" ==> r == h
  {
    if action == "del" then PurgeStep(h, url, arg, env, mkdirOk).0
    else if action == "sync" then SyncStep(h, url, arg, env, mkdirOk).0
    else h
  }

  /**
   * Downloading file `name` and then removing the same name with the same
   * directory argument deletes exactly the downloaded file, provided the
   * removal resolves the same directory (it does unless the download fell
   * back to "." and the removal's `os.mkdir` then succeeds).
   */
  lemma DownloadThenRemove(h: Host, name: string, arg: Option<string>, env: Option<string>, mkdirOk1: bool, mkdirOk2: bool)
    requires mkdirOk2 ==> mkdirOk1 || PreferredTempDir(arg, env) in h.dirs
    ensures var (h1, path) := DownloadStep(h, name, arg, env, mkdirOk1);
            var (h2, deleted) := RemoveStep(h1, name, arg, env, mkdirOk2);
            deleted && path !in h2.files && h2.files == h.files - {path}
  {
    var (h1, path) := DownloadStep(h, name, arg, env, mkdirOk1);
    SameDirAgain(h, arg, env, mkdirOk1, mkdirOk2);
    assert CachePath(h1, name, arg, env, mkdirOk2) == path;
  }

  /**
   * `s3tempsync` then `s3temppurge` on the same locator removes exactly the
   * downloaded file when the locator has a '/' after its scheme (or is empty).
   */
  lemma SyncThenPurge(h: Host, url: string, arg: Option<string>, env: Option<string>, mkdirOk1: bool, mkdirOk2: bool)
    requires '/' in StripScheme(url) || StripScheme(url) == ""
    requires mkdirOk2 ==> mkdirOk1 || PreferredTempDir(arg, env) in h.dirs
    ensures var (h1, path) := SyncStep(h, url, arg, env, mkdirOk1);
            var (h2, deleted) := PurgeStep(h1, url, arg, env, mkdirOk2);
            deleted && path !in h2.files && h2.files == h.files - {path}
  {
    NamesAgree(url);
    DownloadThenRemove(h, SyncName(url), arg, env, mkdirOk1, mkdirOk2);
  }

  /**
   * Purging with the path `s3tempsync` printed, instead of the locator, also
   * removes exactly the downloaded file, whatever the locator looks like.
   */
  lemma SyncThenPurgeByPath(h: Host, url: string, arg: Option<string>, env: Option<string>, mkdirOk1: bool, mkdirOk2: bool)
    requires mkdirOk2 ==> mkdirOk1 || PreferredTempDir(arg, env) in h.dirs
    ensures var (h1, path) := SyncStep(h, url, arg, env, mkdirOk1);
            var (h2, deleted) := PurgeStep(h1, path, arg, env, mkdirOk2);
            deleted && path !in h2.files && h2.files == h.files - {path}
  {
    var name := SyncName(url);
    var path := SyncStep(h, url, arg, env, mkdirOk1).1;
    FlatLayout(TempDirStep(h, arg, env, mkdirOk1).1, name);
    assert PurgeName(path) == name;
    DownloadThenRemove(h, name, arg, env, mkdirOk1, mkdirOk2);
  }

  /**
   * For a locator with nothing after the bucket, the download's file name is
   * "" and the purge's is the bucket, so the purge looks for `<dir>/bucket`
   * and never touches `<dir>/`, the path the (always successful) download
   * step wrote.
   */
  lemma BucketOnlyLocatorSurvivesPurge(h: Host, bucket: string, arg: Option<string>, env: Option<string>, mkdirOk1: bool, mkdirOk2: bool)
    requires '/' !in bucket && bucket != ""
    requires mkdirOk2 ==> mkdirOk1 || PreferredTempDir(arg, env) in h.dirs
    ensures SyncName(Scheme + bucket) == "" && PurgeName(Scheme + bucket) == bucket
    ensures var (h1, path) := SyncStep(h, Scheme + bucket, arg, env, mkdirOk1);
            var dir := TempDirStep(h, arg, env, mkdirOk1).1;
            path == LocalPath(dir, "") &&
            CachePath(h1, PurgeName(Scheme + bucket), arg, env, mkdirOk2) == LocalPath(dir, bucket) &&
            path in PurgeStep(h1, Scheme + bucket, arg, env, mkdirOk2).0.files
  {
    var url := Scheme + bucket;
    StripSchemeRoundTrip(bucket);
    BasenameIgnoresScheme(url);
    BasenameOfPlainName(bucket);
    var h1 := SyncStep(h, url, arg, env, mkdirOk1).0;
    SameDirAgain(h, arg, env, mkdirOk1, mkdirOk2);
    DownloadThenRemoveOther(h, SyncName(url), PurgeName(url), arg, env, mkdirOk1, mkdirOk2);
  }

  /** Removing a different name after a download leaves the downloaded file in place. */
  lemma DownloadThenRemoveOther(h: Host, name1: string, name2: string, arg: Option<string>, env: Option<string>, mkdirOk1: bool, mkdirOk2: bool)
    requires name1 != name2
    requires mkdirOk2 ==> mkdirOk1 || PreferredTempDir(arg, env) in h.dirs
    ensures var (h1, path) := DownloadStep(h, name1, arg, env, mkdirOk1);
            var (h2, deleted) := RemoveStep(h1, name2, arg, env, mkdirOk2);
            path in h2.files
  {
    var h1 := DownloadStep(h, name1, arg, env, mkdirOk1).0;
    SameDirAgain(h, arg, env, mkdirOk1, mkdirOk2);
    var dir := TempDirStep(h, arg, env, mkdirOk1).1;
    LocalPathInjective(dir, name1, name2);
    assert CachePath(h1, name2, arg, env, mkdirOk2) == LocalPath(dir, name2);
  }

  /** After one directory step, a second one with the same sources resolves the same directory and changes nothing. */
  lemma SameDirAgain(h: Host, arg: Option<string>, env: Option<string>, mkdirOk1: bool, mkdirOk2: bool)
    requires mkdirOk2 ==> mkdirOk1 || PreferredTempDir(arg, env) in h.dirs
    ensures var h1 := TempDirStep(h, arg, env, mkdirOk1).0;
            TempDirStep(h1, arg, env, mkdirOk2) == (h1, TempDirStep(h, arg, env, mkdirOk1).1)
  {
  }

  /** Purging twice does no more than purging once: the second call finds nothing to delete. */
  lemma PurgeIdempotent(h: Host, target: string, arg: Option<string>, env: Option<string>, mkdirOk: bool)
    ensures var h1 := PurgeStep(h, target, arg, env, mkdirOk).0;
            PurgeStep(h1, target, arg, env, mkdirOk) == (h1, false)
  {
    var name := PurgeName(target);
    var h1 := RemoveStep(h, name, arg, env, mkdirOk).0;
    SameDirAgain(h, arg, env, mkdirOk, mkdirOk);
    assert CachePath(h1, name, arg, env, mkdirOk) == CachePath(h, name, arg, env, mkdirOk);
  }

  /**
   * Any two locators with the same sync name, in the same bucket or not, are
   * downloaded to the same local path, and the later download overwrites the earlier.
   */
  lemma SameSyncNameCollides(h: Host, url1: string, url2: string, arg: Option<string>, env: Option<string>, mkdirOk: bool)
    requires SyncName(url1) == SyncName(url2)
    ensures SyncStep(h, url1, arg, env, mkdirOk) == SyncStep(h, url2, arg, env, mkdirOk)
    ensures var (h1, path) := SyncStep(h, url1, arg, env, mkdirOk);
            SyncStep(h1, url2, arg, env, mkdirOk).1 == path && SyncStep(h1, url2, arg, env, mkdirOk).0.files == h1.files
  {
    SameDirAgain(h, arg, env, mkdirOk, mkdirOk);
  }

  /**
   * The cache is flat: two objects whose keys end in the same file name are
   * downloaded to the same local path, so the second download overwrites the first.
   */
  lemma SameFileNameCollides(h: Host, bucket: string, prefix1: string, prefix2: string, name: string,
                             arg: Option<string>, env: Option<string>, mkdirOk: bool)
    requires '/' !in bucket && '/' !in name
    ensures var url1 := Scheme + bucket + "/" + (prefix1 + "/" + name);
            var url2 := Scheme + bucket + "/" + (prefix2 + "/" + name);
            SyncStep(h, url1, arg, env, mkdirOk) == SyncStep(h, url2, arg, env, mkdirOk)
            == DownloadStep(h, name, arg, env, mkdirOk)
  {
    var key1 := prefix1 + "/" + name;
    var key2 := prefix2 + "/" + name;
    SyncNameIsLastSegment(Scheme + bucket + "/" + key1, bucket, key1, prefix1, name);
    SyncNameIsLastSegment(Scheme + bucket + "/" + key2, bucket, key2, prefix2, name);
  }
}
