/**
 * The three Python `str` methods the extractors rely on: `strip()`,
 * `split(sep)` and `partition(sep)`, each given with the property that pins
 * it down and a partner (a join, a uniqueness lemma, idempotence).
 */
module PyStr {

  /**
   * Whitespace removed by `str.strip()`. Python strips every character whose
   * `isspace()` is true (all of Unicode's space separators and the ASCII
   * control separators); this model keeps the ones that occur on a Japanese
   * web page: ASCII blanks, the no-break space and the ideographic space.
   */
  predicate IsSpace(c: char) {
    c == ' ' || c == '\t' || c == '\n' || c == '\r' || c == '\U{0B}' || c == '\U{0C}'
    || c == '\U{A0}' || c == '\U{3000}'
  }

  /** Number of whitespace characters at the start of `s`. */
  function LeadingSpaces(s: string): (k: nat)
    ensures k <= |s|
    ensures forall i :: 0 <= i < k ==> IsSpace(s[i])
    ensures k < |s| ==> !IsSpace(s[k])
  {
    if s != [] && IsSpace(s[0]) then 1 + LeadingSpaces(s[1..]) else 0
  }

  /** `s` without its trailing whitespace. */
  function TrimRight(s: string): (r: string)
    ensures |r| <= |s| && r == s[..|r|]
    ensures forall i :: |r| <= i < |s| ==> IsSpace(s[i])
    ensures r != [] ==> !IsSpace(r[|r| - 1])
  {
    if s != [] && IsSpace(s[|s| - 1]) then
      var r := TrimRight(s[..|s| - 1]);
      assert s[..|s| - 1][..|r|] == s[..|r|];
      r
    else s
  }

  /**
   * `s.strip()`: the slice of `s` that remains once whitespace is removed from
   * both ends. The three ensures determine the result: it is a slice of `s`
   * starting after the leading whitespace, everything outside it is
   * whitespace, and it neither starts nor ends with whitespace.
   */
  function Strip(s: string): (r: string)
    ensures LeadingSpaces(s) + |r| <= |s|
    ensures r == s[LeadingSpaces(s)..LeadingSpaces(s) + |r|]
    ensures forall i :: 0 <= i < |s| && !(LeadingSpaces(s) <= i < LeadingSpaces(s) + |r|) ==> IsSpace(s[i])
    ensures r != [] ==> !IsSpace(r[0]) && !IsSpace(r[|r| - 1])
  {
    var k := LeadingSpaces(s);
    var r := TrimRight(s[k..]);
    assert r == s[k..][..|r|] == s[k..k + |r|];
    assert forall i :: k + |r| <= i < |s| ==> s[i] == s[k..][i - k];
    r
  }

  /** Text that neither starts nor ends with whitespace is left alone. */
  lemma StripTrimmed(s: string)
    requires s != [] ==> !IsSpace(s[0]) && !IsSpace(s[|s| - 1])
    ensures Strip(s) == s
  {
    assert LeadingSpaces(s) == 0;
    assert s[0..] == s;
    assert TrimRight(s) == s;
  }

  lemma StripIdempotent(s: string)
    ensures Strip(Strip(s)) == Strip(s)
  {
    StripTrimmed(Strip(s));
  }

  /** Concatenation of `parts` with `sep` between neighbours: Python's `sep.join(parts)`. */
  function Join(parts: seq<string>, sep: char): string
  {
    if |parts| == 0 then []
    else if |parts| == 1 then parts[0]
    else parts[0] + [sep] + Join(parts[1..], sep)
  }

  /**
   * `s.split(sep)` for a one-character separator: the maximal runs between
   * separators. There is always at least one part and no part contains the
   * separator; SplitJoin, JoinSplit and SplitCount relate it to `Join`.
   */
  function Split(s: string, sep: char): (parts: seq<string>)
    ensures |parts| >= 1
    ensures forall i :: 0 <= i < |parts| ==> sep !in parts[i]
  {
    if s == [] then [[]]
    else
      var rest := Split(s[1..], sep);
      if s[0] == sep then [[]] + rest
      else [[s[0]] + rest[0]] + rest[1..]
  }

  /** Joining the parts of a split gives the original text back. */
  lemma {:induction false} JoinSplit(s: string, sep: char)
    ensures Join(Split(s, sep), sep) == s
  {
    if s != [] {
      var rest := Split(s[1..], sep);
      JoinSplit(s[1..], sep);
      var parts := Split(s, sep);
      if s[0] == sep {
        assert parts[1..] == rest;
      } else {
        assert parts[1..] == rest[1..];
        assert parts[0] == [s[0]] + rest[0];
        if |rest| > 1 {
          assert Join(rest, sep) == rest[0] + [sep] + Join(rest[1..], sep);
        }
      }
    }
  }

  /** A split has one more part than the text has separators. */
  lemma {:induction false} SplitCount(s: string, sep: char)
    ensures |Split(s, sep)| == multiset(s)[sep] + 1
  {
    if s != [] {
      SplitCount(s[1..], sep);
      assert s == [s[0]] + s[1..];
      assert multiset(s) == multiset{s[0]} + multiset(s[1..]);
    }
  }

  /** Splitting a text with a separator-free head splits off exactly that head. */
  lemma {:induction false} SplitAfterHead(a: string, t: string, sep: char)
    requires sep !in a
    ensures Split(a + [sep] + t, sep) == [a] + Split(t, sep)
  {
    var s := a + [sep] + t;
    if a == [] {
      assert s[1..] == t;
    } else {
      assert s[1..] == a[1..] + [sep] + t;
      SplitAfterHead(a[1..], t, sep);
      assert s[0] == a[0];
      assert [a[0]] + a[1..] == a;
    }
  }

  /** A text without the separator splits into itself alone. */
  lemma {:induction false} SplitWithoutSeparator(s: string, sep: char)
    requires sep !in s
    ensures Split(s, sep) == [s]
  {
    if s != [] {
      SplitWithoutSeparator(s[1..], sep);
      assert [s[0]] + s[1..] == s;
    }
  }

  /** Splitting a join of separator-free parts gives the parts back. */
  lemma {:induction false} SplitJoin(parts: seq<string>, sep: char)
    requires |parts| >= 1
    requires forall i :: 0 <= i < |parts| ==> sep !in parts[i]
    ensures Split(Join(parts, sep), sep) == parts
  {
    if |parts| == 1 {
      SplitWithoutSeparator(parts[0], sep);
    } else {
      SplitAfterHead(parts[0], Join(parts[1..], sep), sep);
      SplitJoin(parts[1..], sep);
      assert [parts[0]] + parts[1..] == parts;
    }
  }

  /**
   * If `a` is a separator-free prefix of `s` followed in `s` by the
   * separator, it is the head of the partition of `s`.
   */
  lemma {:induction false} PrefixIsPartitionHead(s: string, a: string, sep: char)
    requires a <= s && |a| < |s| && s[|a|] == sep
    requires sep !in a
    ensures Partition(s, sep).0 == a
  {
    if a != [] {
      assert s[0] == a[0];
      PrefixIsPartitionHead(s[1..], a[1..], sep);
      assert [a[0]] + a[1..] == a;
    }
  }

  /**
   * `s.partition(sep)`: the text before the first separator, the separator
   * itself (or "" when there is none) and the text after it. When `s` has no
   * separator the result is `(s, "", "")`.
   */
  function Partition(s: string, sep: char): (r: (string, string, string))
    ensures r.0 + r.1 + r.2 == s
    ensures sep !in r.0
    ensures sep in s ==> r.1 == [sep]
    ensures sep !in s ==> r == (s, [], [])
  {
    if s == [] then ([], [], [])
    else if s[0] == sep then ([], [sep], s[1..])
    else
      var (head, mid, tail) := Partition(s[1..], sep);
      assert s == [s[0]] + s[1..];
      ([s[0]] + head, mid, tail)
  }

  /**
   * The partition's contract pins it down: any split of `s` into a
   * separator-free head, the separator and a tail is the one `Partition` returns.
   */
  lemma PartitionUnique(s: string, sep: char, head: string, tail: string)
    requires sep !in head
    requires s == head + [sep] + tail
    ensures Partition(s, sep) == (head, [sep], tail)
  {
    assert s[|head|] == sep;
    PrefixIsPartitionHead(s, head, sep);
    assert tail == s[|head| + 1..];
  }

  /** The first part of a split is the head of the partition on the same separator. */
  lemma {:induction false} SplitHeadIsPartitionHead(s: string, sep: char)
    ensures Split(s, sep)[0] == Partition(s, sep).0
  {
    if s != [] && s[0] != sep {
      SplitHeadIsPartitionHead(s[1..], sep);
    }
  }
}
