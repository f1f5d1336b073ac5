/** The few JavaScript string operations the tool relies on. */
module Strings {

  /** `s.startsWith(prefix)`. */
  predicate StartsWith(s: string, prefix: string) {
    |prefix| <= |s| && s[..|prefix|] == prefix
  }

  /** `s.indexOf(c)`: the first position of `c`, or -1. */
  function IndexOf(s: string, c: char): (i: int)
    ensures -1 <= i < |s|
    ensures i == -1 <==> c !in s
    ensures 0 <= i ==> s[i] == c && c !in s[..i]
  {
    if |s| == 0 then -1
    else if s[0] == c then 0
    else
      var k := IndexOf(s[1..], c);
      assert 0 <= k ==> s[..k + 1] == [s[0]] + s[1..][..k];
      if k < 0 then -1 else k + 1
  }

  /** `s.replace(from, to)` with a one-character string pattern: only the first occurrence is replaced. */
  function ReplaceFirst(s: string, from: char, to: char): (r: string)
    ensures |r| == |s|
    ensures from !in s ==> r == s
    ensures from in s ==> r == s[IndexOf(s, from) := to]
  {
    var i := IndexOf(s, from);
    if i < 0 then s else s[i := to]
  }

  /** `parts.join(separator)`. */
  function Join(parts: seq<string>, separator: string): (r: string)
    ensures |parts| == 1 ==> r == parts[0]
    ensures parts == [] ==> r == ""
  {
    if |parts| == 0 then ""
    else if |parts| == 1 then parts[0]
    else parts[0] + separator + Join(parts[1..], separator)
  }

  /** `path.join(directory, name)`, without the normalisation of `.` and `..` segments. */
  function PathJoin(directory: string, name: string): (r: string)
    ensures StartsWith(r, directory)
  {
    directory + "/" + name
  }

  /** Splitting a string at its first occurrence of `c` recovers the parts when `c` is not in the first one. */
  lemma {:induction false} IndexOfAfterPrefix(prefix: string, c: char, suffix: string)
    requires c !in prefix
    ensures IndexOf(prefix + [c] + suffix, c) == |prefix|
  {
    var s := prefix + [c] + suffix;
    assert s[|prefix|] == c;
    assert s[..|prefix|] == prefix;
  }
}
