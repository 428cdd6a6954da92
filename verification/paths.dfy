/** Nested keys: paths are strings whose segments are joined by a separator
    character, split with Python's `str.split` semantics. */
module Paths {

  /** Python's `s.startswith(prefix)`. */
  predicate StartsWith(s: string, prefix: string)
  {
    |prefix| <= |s| && s[..|prefix|] == prefix
  }

  /** A list of paths that holds each path at most once. */
  predicate NoDuplicates(s: seq<string>)
  {
    forall i, j :: 0 <= i < j < |s| ==> s[i] != s[j]
  }

  /** Python's `sep.join(parts)` for a non-empty list of parts. */
  function Join(parts: seq<string>, sep: char): string
    requires |parts| >= 1
  {
    if |parts| == 1 then parts[0] else parts[0] + [sep] + Join(parts[1..], sep)
  }

  /** Python's `s.split(sep)`: never empty, and empty fields are kept. */
  function Split(s: string, sep: char): (parts: seq<string>)
    ensures |parts| >= 1
    ensures forall i :: 0 <= i < |parts| ==> sep !in parts[i]
    ensures Join(parts, sep) == s
  {
    if s == [] then [""]
    else
      var rest := Split(s[1..], sep);
      if s[0] == sep then [""] + rest
      else [[s[0]] + rest[0]] + rest[1..]
  }

  /** The key path of `key` below `path`: `path + sep + key if path else key`. */
  function JoinPath(path: string, key: string, sep: char): (kp: string)
    ensures path == "" ==> kp == key
    ensures path != "" ==> StartsWith(kp, path) && |kp| == |path| + 1 + |key|
  {
    if path == "" then key else path + [sep] + key
  }

  /** Splitting a joined path gives back its parts when no part holds the
      separator: `split` is the inverse of `join`. */
  lemma {:induction false} SplitJoin(parts: seq<string>, sep: char)
    requires |parts| >= 1
    requires forall i :: 0 <= i < |parts| ==> sep !in parts[i]
    ensures Split(Join(parts, sep), sep) == parts
  {
    if |parts| == 1 {
      SplitNoSep(parts[0], sep);
    } else {
      var tail := Join(parts[1..], sep);
      SplitJoin(parts[1..], sep);
      SplitPrefix(parts[0], tail, sep);
    }
  }

  /** A string without the separator splits into itself. */
  lemma {:induction false} SplitNoSep(s: string, sep: char)
    requires sep !in s
    ensures Split(s, sep) == [s]
  {
    if s != [] {
      SplitNoSep(s[1..], sep);
      assert [s[0]] + s[1..] == s;
    }
  }

  /** Splitting `a + sep + b` with no separator in `a` puts `a` first. */
  lemma {:induction false} SplitPrefix(a: string, b: string, sep: char)
    requires sep !in a
    ensures Split(a + [sep] + b, sep) == [a] + Split(b, sep)
  {
    if a == [] {
      assert a + [sep] + b == [sep] + b;
      assert ([sep] + b)[1..] == b;
    } else {
      assert (a + [sep] + b)[1..] == a[1..] + [sep] + b;
      SplitPrefix(a[1..], b, sep);
      assert [a[0]] + a[1..] == a;
    }
  }

  /** Splitting `a + sep + b` splits `a` and `b` apart. */
  lemma {:induction false} SplitAppend(a: string, b: string, sep: char)
    ensures Split(a + [sep] + b, sep) == Split(a, sep) + Split(b, sep)
  {
    if a == [] {
      assert a + [sep] + b == [sep] + b;
      assert ([sep] + b)[1..] == b;
    } else {
      assert (a + [sep] + b)[1..] == a[1..] + [sep] + b;
      assert (a + [sep] + b)[0] == a[0];
      SplitAppend(a[1..], b, sep);
    }
  }

  /** Joining the first `n` parts of a split yields a prefix of the string;
      this is what makes a lock on a segment prefix a string prefix. */
  lemma {:induction false} JoinPrefixIsPrefix(s: string, sep: char, n: nat)
    requires 1 <= n <= |Split(s, sep)|
    ensures StartsWith(s, Join(Split(s, sep)[..n], sep))
  {
    var parts := Split(s, sep);
    JoinTake(parts, sep, n);
  }

  lemma {:induction false} JoinTake(parts: seq<string>, sep: char, n: nat)
    requires 1 <= n <= |parts|
    ensures StartsWith(Join(parts, sep), Join(parts[..n], sep))
  {
    if n == |parts| {
      assert parts[..n] == parts;
    } else if n == 1 {
      assert parts[..1] == [parts[0]];
    } else {
      JoinTake(parts[1..], sep, n - 1);
      assert parts[..n][1..] == parts[1..][..n - 1];
    }
  }
}
