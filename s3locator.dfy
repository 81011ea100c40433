/**
 * `s3parse`: turning an `s3://bucket/key` locator into its bucket, its key and
 * the key's basename, and the two file names the helper derives from a locator
 * (the one `s3tempsync` downloads to and the one `s3temppurge` deletes).
 */
module S3Locator {
  import opened PyText

  /** The scheme prefix `re.sub('^s3://', '', url)` removes. */
  const Scheme: string := "s3://"

  /** A parsed locator: the bucket, the object key and the key's basename. */
  datatype Locator = Locator(bucket: string, key: string, file: string)

  /**
   * The locator with a leading `s3://` removed. The pattern is anchored at the
   * start of the string, so an `s3://` anywhere else is left in place.
   */
  function StripScheme(url: string): (s: string)
    ensures url == (if Scheme <= url then Scheme + s else s)
  {
    if Scheme <= url then url[|Scheme|..] else url
  }

  /**
   * `s3parse(url)`: bucket, key and basename of the key of the locator without
   * its scheme. The locator is given back by the scheme (if it had one), the
   * bucket and, when there was a '/' after the bucket, that '/' and the key.
   */
  function Parse(url: string): (loc: Locator)
    ensures url == (if Scheme <= url then Scheme else "") + loc.bucket
                   + (if '/' in StripScheme(url) then "/" + loc.key else "")
    ensures '/' !in loc.bucket
    ensures '/' !in StripScheme(url) ==> loc.key == "" && loc.file == ""
    ensures loc.file == Basename(loc.key)
  {
    var loc := SplitLocator(StripScheme(url));
    Reassemble(url, StripScheme(url), loc.bucket, loc.key);
    loc
  }

  /** Putting back the scheme and the bucket's '/' undoes the stripping and the split. */
  lemma Reassemble(url: string, s: string, bucket: string, key: string)
    requires url == (if Scheme <= url then Scheme + s else s)
    requires '/' in s ==> bucket + "/" + key == s
    requires '/' !in s ==> bucket == s
    ensures url == (if Scheme <= url then Scheme else "") + bucket + (if '/' in s then "/" + key else "")
  {
    var scheme: string := if Scheme <= url then Scheme else "";
    var rest: string := if '/' in s then "/" + key else "";
    if '/' in s {
      AppendAssoc(bucket, "/", key);
    }
    assert s == bucket + rest;
    assert url == scheme + s;
    AppendAssoc(scheme, bucket, rest);
  }

  /**
   * The part of `s3parse` after the scheme is gone: the bucket is the text
   * before the first '/', the key the text after it (empty when there is no
   * '/'), and the file the key's basename, whose properties Basename states.
   */
  function SplitLocator(surl: string): (loc: Locator)
    ensures '/' !in loc.bucket && loc.bucket <= surl
    ensures '/' in surl ==> loc.bucket + "/" + loc.key == surl
    ensures '/' !in surl ==> loc.bucket == surl && loc.key == ""
    ensures loc.file == Basename(loc.key)
  {
    var ele := Split(surl, '/');
    var key := Join(ele[1..], '/');
    SplitFirst(surl, '/');
    Locator(ele[0], key, Basename(key))
  }

  /** The name `s3tempsync` saves a download under: the basename of the parsed key. */
  function SyncName(url: string): (name: string)
    ensures '/' !in name
    ensures '/' !in StripScheme(url) ==> name == ""
  {
    Parse(url).file
  }

  /** The name `s3temppurge` deletes: the basename of its raw argument, locator or file name. */
  function PurgeName(arg: string): (name: string)
    ensures '/' !in name
    ensures |name| <= |arg| && name == arg[|arg| - |name|..]
    ensures |name| < |arg| ==> arg[|arg| - |name| - 1] == '/'
  {
    Basename(arg)
  }

  /** Putting the scheme in front of a text and stripping it again gives back the text. */
  lemma StripSchemeRoundTrip(t: string)
    ensures StripScheme(Scheme + t) == t
  {
    assert Scheme <= Scheme + t;
  }

  /** The scheme prefix does not change a locator's basename. */
  lemma BasenameIgnoresScheme(url: string)
    ensures Basename(url) == Basename(StripScheme(url))
  {
    var s := StripScheme(url);
    if Scheme <= url {
      assert url == "s3:/" + "/" + s;
      BasenameAfterSlash("s3:/", s);
    }
  }

  /**
   * `s3tempsync` and `s3temppurge` agree on the file name for a locator exactly
   * when the locator (without its scheme) contains a '/' or is empty; for
   * `s3://bucket` sync uses "" and purge uses "bucket".
   */
  lemma NamesAgree(url: string)
    ensures SyncName(url) == PurgeName(url) <==> '/' in StripScheme(url) || StripScheme(url) == ""
  {
    var s := StripScheme(url);
    var loc := SplitLocator(s);
    assert SyncName(url) == Basename(loc.key);
    BasenameIgnoresScheme(url);
    assert PurgeName(url) == Basename(s);
    if '/' in s {
      assert s == loc.bucket + "/" + loc.key;
      BasenameAfterSlash(loc.bucket, loc.key);
    } else {
      assert loc.key == "";
      BasenameOfPlainName(s);
    }
  }

  /**
   * When the locator has a '/' after its scheme, the sync name is the text
   * after the last '/' of the locator without its scheme.
   */
  lemma SyncNameOfSlash(url: string)
    requires '/' in StripScheme(url)
    ensures SyncName(url) == Basename(StripScheme(url))
  {
    NamesAgree(url);
    BasenameIgnoresScheme(url);
  }

  /**
   * A locator built from a bucket without '/' and any key parses back into
   * that bucket and that key: `s3parse` inverts `"s3://" + bucket + "/" + key`.
   */
  lemma ParseOfParts(bucket: string, key: string)
    requires '/' !in bucket
    ensures Parse(Scheme + bucket + "/" + key) == Locator(bucket, key, Basename(key))
  {
    var s := bucket + "/" + key;
    StripBuilt(bucket, key);
    assert Parse(Scheme + bucket + "/" + key) == SplitLocator(s);
    SplitLocatorOfParts(bucket, key);
  }

  /** Removing the scheme from a built locator leaves `bucket/key`. */
  lemma StripBuilt(bucket: string, key: string)
    ensures StripScheme(Scheme + bucket + "/" + key) == bucket + "/" + key
  {
    AppendAssoc(Scheme, bucket + "/", key);
    StripSchemeRoundTrip(bucket + "/" + key);
  }

  /** Splitting `bucket/key` at its first slash recovers the bucket and the key. */
  lemma SplitLocatorOfParts(bucket: string, key: string)
    requires '/' !in bucket
    ensures SplitLocator(bucket + "/" + key) == Locator(bucket, key, Basename(key))
  {
    var s := bucket + "/" + key;
    assert '/' in s by { assert s[|bucket|] == '/'; }
    var loc := SplitLocator(s);
    FirstSlashUnique(loc.bucket, loc.key, bucket, key);
  }

  /** The name `s3tempsync` uses is the last segment of the locator when the key has one. */
  lemma SyncNameIsLastSegment(url: string, bucket: string, key: string, prefix: string, name: string)
    requires '/' !in bucket && '/' !in name
    requires key == prefix + "/" + name
    requires url == Scheme + bucket + "/" + key
    ensures Parse(url) == Locator(bucket, key, name)
    ensures SyncName(url) == name && PurgeName(url) == name
  {
    ParseOfParts(bucket, key);
    BasenameAfterSlash(prefix, name);
    BasenameOfPlainName(name);
    NamesAgree(url);
  }

  /** The example locator `s3://bucket/a/b/c.txt` parses into `bucket`, `a/b/c.txt` and `c.txt`. */
  lemma ParseExample()
    ensures Parse("s3://bucket/a/b/c.txt") == Locator("bucket", "a/b/c.txt", "c.txt")
  {
    assert "a/b/c.txt" == "a/b" + "/" + "c.txt";
    assert "s3://bucket/a/b/c.txt" == Scheme + "bucket" + "/" + "a/b/c.txt";
    assert '/' !in "bucket" && '/' !in "c.txt";
    SyncNameIsLastSegment("s3://bucket/a/b/c.txt", "bucket", "a/b/c.txt", "a/b", "c.txt");
  }
}
