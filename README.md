# s3idlhelpers: a verified model of the S3 temp-file helper

`IDL/s3idlhelpers.py` lets IDL programs read objects from S3. `sync <s3url> [tempdir]`
downloads an object into a flat local cache directory and prints the local path.
`del <s3url_or_fname> [tempdir]` deletes the cached copy again. This project models
that helper in Dafny and proves what the script's pieces guarantee. The pieces are:

- `s3tempdir`: pick the cache directory (the argument, then `$S3TEMP`, then
  `./s3temp`), create it if it is missing, and fall back to `.` when it cannot
  be created.
- `s3parse`: strip a leading `s3://`, split at `/` into a bucket, a key and the
  key's basename.
- `s3tempsync` / `s3temppurge`: compute `<tempdir>/<name>`, then download or delete.
  A sync names the file after the key's basename. A purge names it after the
  basename of its raw argument.
- The command dispatch: `del` purges, `sync` downloads, any other action does nothing.

Modules:

- `Wrappers` (`wrappers.dfy`): `Option`, used for Python's `None`.
- `PyText` (`pytext.dfy`): the Python string operations the script uses.
  These are `str.find`/`str.rfind` (as `Find`/`RFind`), `str.split`, `str.join`
  and `posixpath.basename`. `Find`, `RFind` and `Basename` carry their defining
  properties in their contracts. `Split`'s contract gives the shape of the parts.
  `Split` and `Join` are pinned down by their two round trips, JoinSplit and SplitJoin.
- `S3Locator` (`s3locator.dfy`): `s3parse`, and the file names sync and purge derive.
- `TempCache` (`tempcache.dfy`): directory resolution and local paths. It also has
  each command as a function on an abstract machine `Host` (the set of existing
  directories and the set of existing files). The lemmas about running
  commands one after another are here.
- `IdlHelpers` (`localhost.dfy`): the same commands as methods of a class
  `LocalHost`, whose `dirs` and `files` fields they update in place. Each method
  is proved equal to the matching step function of `TempCache`.

Operating-system facts are parameters:

- `env` is the value of `S3TEMP`.
- `mkdirOk` says whether `os.mkdir` would succeed.
- `os.path.isdir` is membership in `dirs`.
- `os.path.exists`/`os.remove` act on `files`.

## Model

| member | source | states |
|---|---|---|
| PyText.Find | IDL/s3idlhelpers.py:39 | the index of the first occurrence of the separator, or -1 exactly when it does not occur; no earlier occurrence |
| PyText.RFind | IDL/s3idlhelpers.py:42 | the index of the last occurrence, or -1 exactly when the character does not occur; no later occurrence |
| PyText.Split | IDL/s3idlhelpers.py:39 | `str.split('/')` yields at least one part, and no part contains the separator |
| PyText.JoinSplit | IDL/s3idlhelpers.py:39-41 | joining the parts of a split with the same separator gives back the original text, for every text |
| PyText.SplitJoin | IDL/s3idlhelpers.py:39-41 | splitting the join of one or more separator-free parts gives back exactly those parts |
| PyText.SplitFirst | IDL/s3idlhelpers.py:39-41 | `ele[0]` is a separator-free prefix; with a separator, `ele[0] + '/' + '/'.join(ele[1:])` is the whole text; without one, `ele[0]` is the text and the rest joins to "" |
| PyText.Basename | IDL/s3idlhelpers.py:42 | `os.path.basename` is a '/'-free suffix of the path, and the character just before it (if any) is '/' |
| PyText.BasenameIsAfterLastSlash | IDL/s3idlhelpers.py:42 | the basename is the text after the last '/', which is how `posixpath.basename` computes it with `rfind` |
| PyText.BasenameEmpty | IDL/s3idlhelpers.py:58 | the basename is empty exactly when the path is empty or ends in '/' |
| PyText.BasenameAfterSlash | IDL/s3idlhelpers.py:58 | anything up to a '/' does not change the basename of what follows it |
| S3Locator.StripScheme | IDL/s3idlhelpers.py:38 | removes `s3://` only when the URL starts with it: the URL is the scheme plus the result, or the result itself |
| S3Locator.StripSchemeRoundTrip | IDL/s3idlhelpers.py:38 | prefixing `s3://` and stripping it again gives back the text |
| S3Locator.SplitLocator | IDL/s3idlhelpers.py:39-42 | the bucket is the '/'-free text before the first '/'; with a '/', bucket + '/' + key is the stripped URL; without one, the bucket is all of it and the key is ""; the file is the key's basename |
| S3Locator.Parse | IDL/s3idlhelpers.py:37-43 | the URL is rebuilt from its parts: optional scheme, a '/'-free bucket, and '/' + key when the stripped URL has a '/'; without a '/', key and file are ""; the file is always the key's basename |
| S3Locator.SyncName | IDL/s3idlhelpers.py:48 | the name a sync saves under has no '/', and is "" when the locator has no '/' after its scheme (SyncNameOfSlash gives the other case) |
| S3Locator.SyncNameOfSlash | IDL/s3idlhelpers.py:42-48 | when the locator has a '/' after its scheme, the sync name is the basename of the locator without its scheme |
| S3Locator.PurgeName | IDL/s3idlhelpers.py:58 | the name a purge deletes is `os.path.basename` of the raw argument: a '/'-free tail, with a '/' just before it unless it is the whole argument |
| S3Locator.ParseOfParts | IDL/s3idlhelpers.py:37-43 | parsing `s3://bucket/key` with a '/'-free bucket gives back that bucket, that key and the key's basename |
| S3Locator.SyncNameIsLastSegment | IDL/s3idlhelpers.py:42-58 | for `s3://bucket/prefix/name`, both the sync and the purge file name are `name` |
| S3Locator.ParseExample | IDL/s3idlhelpers.py:37-43 | `s3://bucket/a/b/c.txt` parses to bucket `bucket`, key `a/b/c.txt`, file `c.txt` |
| S3Locator.BasenameIgnoresScheme | IDL/s3idlhelpers.py:58 | the purge name of a URL is the basename of the URL without its scheme |
| S3Locator.NamesAgree | IDL/s3idlhelpers.py:42-58 | the sync name and the purge name are equal if and only if the stripped URL has a '/' or is empty |
| TempCache.PreferredTempDir | IDL/s3idlhelpers.py:26-27 | the argument when given; else S3TEMP when set (an empty value counts as set); else `./s3temp` |
| TempCache.FirstPresent | IDL/s3idlhelpers.py:26-27 | the value of the first candidate that is not None, and the fallback when every candidate is None |
| TempCache.PreferredIsFirstPresent | IDL/s3idlhelpers.py:26-27 | the directory tried is the first of (argument, S3TEMP) that is not None, else `./s3temp` |
| TempCache.ResolveTempDir | IDL/s3idlhelpers.py:28-33 | the preferred directory when it exists or mkdir succeeds; `.` when it neither exists nor can be made |
| TempCache.TempDirStep | IDL/s3idlhelpers.py:23-35 | files are unchanged; the preferred directory is added exactly when it was missing and mkdir succeeds, and nothing else changes; the result is an existing directory or `.`, as ResolveTempDir decides |
| TempCache.SameDirAgain | IDL/s3idlhelpers.py:28-33 | a second `s3tempdir` with the same sources changes nothing and resolves the same directory (unless the first fell back to `.` and mkdir now succeeds) |
| TempCache.LocalPath | IDL/s3idlhelpers.py:49 | the local path is the directory, one '/', then the file name, and nothing else |
| TempCache.LocalPathInjective | IDL/s3idlhelpers.py:49 | in one directory, two local paths are equal if and only if the file names are equal |
| TempCache.FlatLayout | IDL/s3idlhelpers.py:12-13 | the cache is flat: a '/'-free file name is the basename of its local path |
| TempCache.DownloadStep | IDL/s3idlhelpers.py:46-52 | returns `<tempdir>/<name>`, adds exactly that file, and changes directories as `s3tempdir` does |
| TempCache.RemoveStep | IDL/s3idlhelpers.py:56-64 | reports a deletion exactly when `<tempdir>/<name>` existed, and removes exactly that file |
| TempCache.SyncStep | IDL/s3idlhelpers.py:45-52 | a sync returns `<resolved tempdir>/<sync name>`, adds exactly that path to the files, leaves the directories as `s3tempdir` does, and the path's basename is the sync name |
| TempCache.PurgeStep | IDL/s3idlhelpers.py:55-64 | a purge reports a deletion exactly when `<resolved tempdir>/<basename(target)>` existed, then removes at most that file (exactly when it reports one), and leaves the directories as `s3tempdir` does |
| TempCache.DispatchStep | IDL/s3idlhelpers.py:78-81 | `del` is a purge, `sync` is a sync, and any other action leaves the machine unchanged |
| TempCache.DownloadThenRemove | IDL/s3idlhelpers.py:46-64 | removing the name just downloaded deletes it, and leaves the files as they were minus that path |
| TempCache.DownloadThenRemoveOther | IDL/s3idlhelpers.py:46-64 | removing a different name leaves the downloaded file in place |
| TempCache.SyncThenPurge | IDL/s3idlhelpers.py:45-64 | sync then purge of the same URL (stripped URL has a '/' or is empty) deletes exactly the downloaded file |
| TempCache.SyncThenPurgeByPath | IDL/s3idlhelpers.py:45-64 | purging with the printed local path, as the docstring allows, deletes exactly the downloaded file for every URL |
| TempCache.BucketOnlyLocatorSurvivesPurge | IDL/s3idlhelpers.py:37-64 | for `s3://bucket`, the sync name is "" and the purge name is the bucket; the purge looks for `<tempdir>/bucket`, so the path `<tempdir>/` that the model's always-successful download step adds is still there afterwards (the real download of an empty key fails) |
| TempCache.PurgeIdempotent | IDL/s3idlhelpers.py:55-64 | a second purge of the same target deletes nothing and changes nothing |
| TempCache.SameSyncNameCollides | IDL/s3idlhelpers.py:45-52 | any two locators with the same sync name (e.g. `.../c.txt` and `.../a/c.txt`, in any buckets) sync to the same path, and a second sync writes no new file but the same path |
| TempCache.SameFileNameCollides | IDL/s3idlhelpers.py:45-52 | two keys in a bucket with the same last segment are cached at the same path, so one download overwrites the other |
| IdlHelpers.LocalHost.TempDir | IDL/s3idlhelpers.py:23-35 | the in-place `s3tempdir` ends in the state and with the directory TempDirStep gives; the directory exists or is `.` |
| IdlHelpers.LocalHost.Download | IDL/s3idlhelpers.py:46-52 | picking the directory and downloading `name` ends in the state and path DownloadStep gives |
| IdlHelpers.LocalHost.Sync | IDL/s3idlhelpers.py:45-52 | the in-place `s3tempsync` matches SyncStep, and the returned path is an existing file |
| IdlHelpers.LocalHost.Remove | IDL/s3idlhelpers.py:56-64 | picking the directory and deleting `name` ends in the state and answer RemoveStep gives |
| IdlHelpers.LocalHost.Purge | IDL/s3idlhelpers.py:55-64 | the in-place `s3temppurge` matches PurgeStep, and reports a deletion exactly when the local path existed before |
| IdlHelpers.LocalHost.Run | IDL/s3idlhelpers.py:78-81 | the in-place dispatch matches DispatchStep; an unknown action changes neither directories nor files |
| IdlHelpers.SyncThenPurgeClient | IDL/s3idlhelpers.py:45-64 | with `os.mkdir` taken to succeed in both calls (`mkdirOk` true), running sync then del on `s3://bucket/key` leaves the files as before minus `<tempdir>/<basename(key)>` |

## Left out

- The S3 download (`boto3`, line 50) is not modelled. `Sync` treats it as succeeding: it creates or overwrites the local file. A failing download, for example one with an empty key from `s3://bucket`, is not modelled.
- The S3 client creation on line 47 has no local effect and is not modelled.
- Printing (lines 32, 51, 57, 61, 64) is not modelled. `Sync` returns the printed path, and `Purge` returns which message would be printed.
- Command-line handling (lines 66-76) is not modelled. This covers the failure when `<action>` or `<s3url>` is missing, and the `NameError` that follows it. `Run` receives the action, the target and the optional directory as parameters.
- Why `os.mkdir` fails (permissions, a missing parent, a file of the same name) is reduced to the boolean `mkdirOk`. The current directory `.` is taken to exist.
- `os.remove` on line 62 can fail, for example with a permission error, and then raises. `Remove` and `Purge` always delete a file that is in `files`.
- `os.path.exists` on line 60 is true for directories too, and `os.remove` then raises. The model looks only at files, so a purge whose path names a directory is not modelled.
- Path strings are compared as written, without normalisation. For example, `./s3temp` and `./s3temp/` are different directories here.
- Concurrent runs of the script on the same cache are not modelled.
