/**
 * The few Python string and POSIX path primitives the helper is built from:
 * `str.find`/`str.rfind` for one character, `str.split` and `str.join` with a
 * one-character separator, and `os.path.basename` on POSIX paths.
 */
module PyText {

  /** The first index of `c` in `s`, or -1 when `c` does not occur (`s.find(c)`). */
  function Find(s: string, c: char): (i: int)
    ensures -1 <= i < |s|
    ensures i < 0 <==> c !in s
    ensures 0 <= i ==> s[i] == c && c !in s[..i]
  {
    if s == [] then -1
    else if s[0] == c then 0
    else
      var k := Find(s[1..], c);
      assert s[1..][..k + 1] == s[1..k + 2];
      if k < 0 then -1 else k + 1
  }

  /** The last index of `c` in `s`, or -1 when `c` does not occur (`s.rfind(c)`). */
  function RFind(s: string, c: char): (i: int)
    ensures -1 <= i < |s|
    ensures i < 0 <==> c !in s
    ensures 0 <= i ==> s[i] == c && c !in s[i + 1..]
  {
    if s == [] then -1
    else if s[|s| - 1] == c then |s| - 1
    else
      var k := RFind(s[..|s| - 1], c);
      assert k >= 0 ==> s[k + 1..] == s[..|s| - 1][k + 1..] + [s[|s| - 1]];
      assert s == s[..|s| - 1] + [s[|s| - 1]];
      k
  }

  /** `s.split(sep)`: the maximal runs of `s` between occurrences of `sep`, always at least one. */
  function Split(s: string, sep: char): (parts: seq<string>)
    ensures |parts| >= 1
    ensures forall p :: p in parts ==> sep !in p
    decreases |s|
  {
    var i := Find(s, sep);
    if i < 0 then [s]
    else [s[..i]] + Split(s[i + 1..], sep)
  }

  /** `sep.join(parts)`: the parts with one `sep` between each neighbouring pair. */
  function Join(parts: seq<string>, sep: char): string
  {
    if parts == [] then ""
    else if |parts| == 1 then parts[0]
    else parts[0] + [sep] + Join(parts[1..], sep)
  }

  /**
   * `os.path.basename(p)` on POSIX: the text after the last '/', or all of `p`
   * when it has none. Python computes it as `p[p.rfind('/') + 1:]`; here it is
   * taken one character at a time from the end, and BasenameIsAfterLastSlash
   * shows the two agree.
   */
  function Basename(p: string): (r: string)
    ensures '/' !in r
    ensures |r| <= |p| && r == p[|p| - |r|..]
    ensures |r| < |p| ==> p[|p| - |r| - 1] == '/'
  {
    if p == [] || p[|p| - 1] == '/' then []
    else Basename(p[..|p| - 1]) + [p[|p| - 1]]
  }

  /** A text is what comes before position `i`, the character at `i` and what follows it. */
  lemma CutAt(s: string, i: nat)
    requires i < |s|
    ensures s == s[..i] + [s[i]] + s[i + 1..]
  {
  }

  /** Concatenation of texts is associative. */
  lemma AppendAssoc(a: string, b: string, c: string)
    ensures a + (b + c) == a + b + c
  {
  }

  /** Splitting and re-joining on the same separator gives back the original text. */
  lemma {:induction false} JoinSplit(s: string, sep: char)
    ensures Join(Split(s, sep), sep) == s
    decreases |s|
  {
    var i := Find(s, sep);
    if i >= 0 {
      var rest := s[i + 1..];
      var tail := Split(rest, sep);
      var parts := [s[..i]] + tail;
      assert Split(s, sep) == parts;
      assert parts[1..] == tail;
      assert Join(parts, sep) == s[..i] + [sep] + Join(tail, sep);
      JoinSplit(rest, sep);
      CutAt(s, i);
    }
  }

  /**
   * The first part of a split is the text before the first separator (all of
   * the text when there is none); the other parts re-join to the text after it.
   */
  lemma SplitFirst(s: string, sep: char)
    ensures sep !in Split(s, sep)[0] && Split(s, sep)[0] <= s
    ensures sep in s ==> Split(s, sep)[0] + [sep] + Join(Split(s, sep)[1..], sep) == s
    ensures sep !in s ==> Split(s, sep)[0] == s && Join(Split(s, sep)[1..], sep) == ""
  {
    var i := Find(s, sep);
    SplitHead(s, sep);
    SplitTail(s, sep);
    if i >= 0 {
      var head, rest := s[..i], s[i + 1..];
      assert Split(s, sep)[0] == head;
      assert Join(Split(s, sep)[1..], sep) == rest;
      CutAt(s, i);
    } else {
      assert Split(s, sep)[1..] == [];
    }
  }

  /** The first part of a split, in terms of the first separator's position. */
  lemma SplitHead(s: string, sep: char)
    ensures Find(s, sep) < 0 ==> Split(s, sep) == [s]
    ensures Find(s, sep) >= 0 ==> Split(s, sep)[0] == s[..Find(s, sep)]
  {
  }

  /** The remaining parts of a split re-join to the text after the first separator. */
  lemma SplitTail(s: string, sep: char)
    ensures Find(s, sep) >= 0 ==> Join(Split(s, sep)[1..], sep) == s[Find(s, sep) + 1..]
  {
    var i := Find(s, sep);
    if i >= 0 {
      var rest := s[i + 1..];
      var parts := [s[..i]] + Split(rest, sep);
      assert Split(s, sep) == parts;
      assert parts[1..] == Split(rest, sep);
      JoinSplit(rest, sep);
    }
  }

  /** The first occurrence of `c` in `a + [c] + b` is the one after `a` when `a` has none. */
  lemma FindAfter(a: string, c: char, b: string)
    requires c !in a
    ensures Find(a + [c] + b, c) == |a|
  {
    var s := a + [c] + b;
    var i := Find(s, c);
    assert s[|a|] == c;
  }

  /** Joining separator-free parts and splitting again gives back the same parts. */
  lemma {:induction false} SplitJoin(parts: seq<string>, sep: char)
    requires |parts| >= 1
    requires forall k :: 0 <= k < |parts| ==> sep !in parts[k]
    ensures Split(Join(parts, sep), sep) == parts
    decreases |parts|
  {
    if |parts| > 1 {
      var head, tail := parts[0], parts[1..];
      var rest := Join(tail, sep);
      assert Join(parts, sep) == head + [sep] + rest;
      SplitAt(head, sep, rest);
      assert forall k :: 0 <= k < |tail| ==> tail[k] == parts[k + 1];
      SplitJoin(tail, sep);
      assert parts == [head] + tail;
    }
  }

  /** Splitting at a first separator after a separator-free head. */
  lemma SplitAt(head: string, sep: char, rest: string)
    requires sep !in head
    ensures Split(head + [sep] + rest, sep) == [head] + Split(rest, sep)
  {
    var s := head + [sep] + rest;
    FindAfter(head, sep, rest);
    assert s[..|head|] == head;
    assert s[|head| + 1..] == rest;
  }

  /**
   * The three facts in Basename's contract fix the basename: any separator-free
   * suffix of `p` that is all of `p` or follows a '/' is the basename.
   */
  lemma BasenameUnique(p: string, r: string)
    requires '/' !in r
    requires |r| <= |p| && r == p[|p| - |r|..]
    requires |r| < |p| ==> p[|p| - |r| - 1] == '/'
    ensures r == Basename(p)
  {
    SlashFreeTailsEqual(p, r, Basename(p));
  }

  /** Two separator-free tails of `p`, each all of `p` or following a '/', are the same tail. */
  lemma SlashFreeTailsEqual(p: string, x: string, y: string)
    requires '/' !in x && |x| <= |p| && x == p[|p| - |x|..]
    requires |x| < |p| ==> p[|p| - |x| - 1] == '/'
    requires '/' !in y && |y| <= |p| && y == p[|p| - |y|..]
    requires |y| < |p| ==> p[|p| - |y| - 1] == '/'
    ensures x == y
  {
    assert forall i :: |p| - |x| <= i < |p| ==> p[i] == x[i - (|p| - |x|)];
    assert forall i :: |p| - |y| <= i < |p| ==> p[i] == y[i - (|p| - |y|)];
  }

  /** Whatever precedes a '/' does not change the basename of what follows it. */
  lemma BasenameAfterSlash(a: string, b: string)
    ensures Basename(a + "/" + b) == Basename(b)
  {
    var p := a + "/" + b;
    var r := Basename(b);
    assert p[|p| - |b|..] == b;
    assert p[|p| - |r|..] == b[|b| - |r|..];
    if |r| == |b| {
      assert p[|p| - |r| - 1] == '/';
    } else {
      assert p[|p| - |r| - 1] == b[|b| - |r| - 1];
    }
    BasenameUnique(p, r);
  }

  /** Text split at its first '/' has exactly one such split. */
  lemma FirstSlashUnique(b1: string, k1: string, b2: string, k2: string)
    requires '/' !in b1 && '/' !in b2
    requires b1 + "/" + k1 == b2 + "/" + k2
    ensures b1 == b2 && k1 == k2
  {
    var s := b1 + "/" + k1;
    FindAfter(b1, '/', k1);
    FindAfter(b2, '/', k2);
    assert b1 == s[..|b1|] && b2 == s[..|b2|];
    assert k1 == s[|b1| + 1..] && k2 == s[|b2| + 1..];
  }

  /** The basename is the slice after the last '/', as `posixpath.basename` computes it. */
  lemma BasenameIsAfterLastSlash(p: string)
    ensures Basename(p) == p[RFind(p, '/') + 1..]
  {
    var i := RFind(p, '/');
    BasenameUnique(p, p[i + 1..]);
  }

  /** The basename is empty exactly when the path is empty or ends in '/'. */
  lemma BasenameEmpty(p: string)
    ensures Basename(p) == [] <==> p == [] || p[|p| - 1] == '/'
  {
    var r := Basename(p);
    if r != [] {
      assert r[|r| - 1] == p[|p| - 1];
    }
  }

  /** A path with no '/' is its own basename. */
  lemma BasenameOfPlainName(p: string)
    requires '/' !in p
    ensures Basename(p) == p
  {
    BasenameUnique(p, p);
  }
}
