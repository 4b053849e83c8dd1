/**
 * The functions of Go's `strings` package that the command line parser
 * calls, for the case it uses them in: a one-character separator.
 * `strings.Contains(s, "=")` is membership of the character, `'=' in s`.
 */
module GoStrings {

  /**
   * `strings.HasPrefix(s, prefix)`: `s` is `prefix` followed by the rest
   * of `s`.
   */
  predicate HasPrefix(s: string, prefix: string): (b: bool)
    ensures b <==> |prefix| <= |s| && s == prefix + s[|prefix|..]
  {
    |prefix| <= |s| && s[..|prefix|] == prefix
  }

  /** `strings.Index(s, string(c))` when `c` occurs: the first position of `c`. */
  function IndexOf(s: string, c: char): (i: nat)
    requires c in s
    ensures i < |s| && s[i] == c
    ensures c !in s[..i]
  {
    if s[0] == c then 0
    else
      var j := IndexOf(s[1..], c);
      assert s[..j + 1] == [s[0]] + s[1..][..j];
      j + 1
  }

  /**
   * `strings.Split(s, string(sep))`: the pieces of `s` between occurrences
   * of `sep`. There is one piece more than there are separators, and no
   * piece contains the separator.
   */
  function Split(s: string, sep: char): (parts: seq<string>)
    ensures |parts| == multiset(s)[sep] + 1
    ensures forall k :: 0 <= k < |parts| ==> sep !in parts[k]
    decreases |s|
  {
    if sep !in s then
      assert multiset(s)[sep] == 0;
      [s]
    else
      var i := IndexOf(s, sep);
      assert s == s[..i] + [sep] + s[i + 1..];
      assert multiset(s[..i])[sep] == 0;
      [s[..i]] + Split(s[i + 1..], sep)
  }

  /** `strings.Join(parts, string(sep))`. */
  function Join(parts: seq<string>, sep: char): string
  {
    if |parts| == 0 then ""
    else if |parts| == 1 then parts[0]
    else parts[0] + [sep] + Join(parts[1..], sep)
  }

  /** Joining the pieces of a split with the same separator gives back the string. */
  lemma {:induction false} SplitJoin(s: string, sep: char)
    ensures Join(Split(s, sep), sep) == s
    decreases |s|
  {
    if sep in s {
      var i := IndexOf(s, sep);
      var head, tail := s[..i], s[i + 1..];
      var rest := Split(tail, sep);
      SplitJoin(tail, sep);
      assert |rest| >= 1;
      assert Split(s, sep) == [head] + rest;
      assert ([head] + rest)[1..] == rest;
      assert Join([head] + rest, sep) == head + [sep] + Join(rest, sep);
      assert s == head + [sep] + tail;
    }
  }

  /**
   * The first piece of a split is the text before the first separator, and
   * the remaining pieces are the split of the text after it.
   */
  lemma SplitFirst(s: string, sep: char)
    requires sep in s
    ensures Split(s, sep)[0] == s[..IndexOf(s, sep)]
    ensures Split(s, sep)[1..] == Split(s[IndexOf(s, sep) + 1..], sep)
  {
    var i := IndexOf(s, sep);
    var head := s[..i];
    var rest := Split(s[i + 1..], sep);
    assert Split(s, sep) == [head] + rest;
    assert ([head] + rest)[0] == head;
    assert ([head] + rest)[1..] == rest;
  }

  /**
   * A string holding the separator splits into at least two pieces, the
   * second being the text after the first separator up to the next one.
   */
  lemma SplitSecond(s: string, sep: char)
    requires sep in s
    ensures |Split(s, sep)| >= 2
    ensures var rest := s[IndexOf(s, sep) + 1..];
      Split(s, sep)[1] == if sep in rest then rest[..IndexOf(rest, sep)] else rest
  {
    var rest := s[IndexOf(s, sep) + 1..];
    SplitFirst(s, sep);
    assert Split(s, sep)[1] == Split(rest, sep)[0];
    if sep in rest {
      SplitFirst(rest, sep);
    }
  }

  /** The first occurrence of `c` is the only one with no `c` before it. */
  lemma IndexOfUnique(s: string, c: char, j: nat)
    requires j < |s| && s[j] == c && c !in s[..j]
    ensures IndexOf(s, c) == j
  {
  }

  /**
   * A string that starts with a separator-free head followed by the
   * separator splits into that head and the pieces of the remainder.
   */
  lemma SplitAfterHead(head: string, sep: char, tail: string)
    requires sep !in head
    ensures Split(head + [sep] + tail, sep) == [head] + Split(tail, sep)
  {
    var s := head + [sep] + tail;
    assert s[..|head|] == head;
    IndexOfUnique(s, sep, |head|);
    assert s[|head| + 1..] == tail;
  }
}
