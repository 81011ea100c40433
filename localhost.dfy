/**
 * The helper's commands as they run: an object for the machine whose
 * directories and files `s3tempdir`, `s3tempsync`, `s3temppurge` and the
 * command dispatch change in place. Each method is proved against the step
 * function of the same name in TempCache, which the lemmas there are about.
 */
module IdlHelpers {
  import opened Wrappers
  import opened PyText
  import opened S3Locator
  import opened TempCache

  class LocalHost {
    var dirs: set<string>
    var files: set<string>

    /** The abstract value of the machine. */
    function State(): Host
      reads this
    {
      Host(dirs, files)
    }

    constructor (h: Host)
      ensures State() == h
    {
      dirs := h.dirs;
      files := h.files;
    }

    /**
     * `s3tempdir(arg)` with S3TEMP = `env`; `mkdirOk` is whether `os.mkdir`
     * would succeed on the chosen directory.
     */
    method TempDir(arg: Option<string>, env: Option<string>, mkdirOk: bool) returns (dir: string)
      modifies this
      ensures (State(), dir) == TempDirStep(old(State()), arg, env, mkdirOk)
      ensures dir in dirs || dir == CurrentDir
    {
      var chosen := arg;
      if chosen.None? {
        chosen := env;
      }
      dir := if chosen.Some? then chosen.value else DefaultTempDir;
      if dir !in dirs {
        if mkdirOk {
          dirs := dirs + {dir};
        } else {
          dir := CurrentDir;
        }
      }
    }

    /**
     * The part of `s3tempsync` after the locator is parsed: pick the temp
     * directory, download the object to `<dir>/<name>` (modelled as
     * succeeding) and return that path.
     */
    method Download(name: string, arg: Option<string>, env: Option<string>, mkdirOk: bool) returns (localfile: string)
      modifies this
      ensures (State(), localfile) == DownloadStep(old(State()), name, arg, env, mkdirOk)
    {
      var dir := TempDir(arg, env, mkdirOk);
      localfile := dir + "/" + name;
      files := files + {localfile};
    }

    /** `s3tempsync(url, arg)` with a download that succeeds; returns the path it prints. */
    method Sync(url: string, arg: Option<string>, env: Option<string>, mkdirOk: bool) returns (localfile: string)
      modifies this
      ensures (State(), localfile) == SyncStep(old(State()), url, arg, env, mkdirOk)
      ensures localfile in files
    {
      var loc := Parse(url);
      localfile := Download(loc.file, arg, env, mkdirOk);
    }

    /**
     * The part of `s3temppurge` after the file name is taken: pick the temp
     * directory and delete `<dir>/<name>` if it is a file there.
     */
    method Remove(name: string, arg: Option<string>, env: Option<string>, mkdirOk: bool) returns (deleted: bool)
      modifies this
      ensures (State(), deleted) == RemoveStep(old(State()), name, arg, env, mkdirOk)
    {
      var dir := TempDir(arg, env, mkdirOk);
      var localfile := dir + "/" + name;
      if localfile in files {
        files := files - {localfile};
        deleted := true;
      } else {
        deleted := false;
      }
    }

    /** `s3temppurge(target, arg)`; returns whether a file was deleted (which message it prints). */
    method Purge(target: string, arg: Option<string>, env: Option<string>, mkdirOk: bool) returns (deleted: bool)
      modifies this
      ensures (State(), deleted) == PurgeStep(old(State()), target, arg, env, mkdirOk)
      ensures deleted == (LocalPath(TempDirStep(old(State()), arg, env, mkdirOk).1, PurgeName(target)) in old(files))
    {
      deleted := Remove(Basename(target), arg, env, mkdirOk);
    }

    /** The script's entry: `del` purges, `sync` downloads, any other action does nothing. */
    method Run(action: string, target: string, arg: Option<string>, env: Option<string>, mkdirOk: bool)
      modifies this
      ensures State() == DispatchStep(old(State()), action, target, arg, env, mkdirOk)
      ensures action != "del" && action != "sync" ==> dirs == old(dirs) && files == old(files)
    {
      if action == "del" {
        var _ := Purge(target, arg, env, mkdirOk);
      } else if action == "sync" {
        var _ := Sync(target, arg, env, mkdirOk);
      }
    }
  }

  /** A sync followed by a purge of the same locator leaves no copy behind. */
  method SyncThenPurgeClient(host: LocalHost, bucket: string, key: string, arg: Option<string>, env: Option<string>)
    requires '/' !in bucket
    modifies host
    ensures host.files == old(host.files) - {LocalPath(TempDirStep(old(host.State()), arg, env, true).1, Basename(key))}
  {
    var surl := bucket + "/" + key;
    var url := Scheme + bucket + "/" + key;
    AppendAssoc(Scheme, bucket + "/", key);
    StripSchemeRoundTrip(surl);
    assert surl[|bucket|] == '/';
    ParseOfParts(bucket, key);
    ghost var before := host.State();
    SyncThenPurge(before, url, arg, env, true, true);
    var path := host.Sync(url, arg, env, true);
    var _ := host.Purge(url, arg, env, true);
  }
}
