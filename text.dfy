/**
 * String operations shared by the models: joining, splitting at one
 * character, prefixes and substring search. Strings are `seq<char>`.
 */
module Text {

  /** `sep.join(parts)` (Python) or `parts.join(sep)` (JavaScript). */
  function Join(sep: string, parts: seq<string>): string
    decreases |parts|
  {
    if |parts| == 0 then ""
    else if |parts| == 1 then parts[0]
    else parts[0] + sep + Join(sep, parts[1..])
  }

  /** `parts.join('')`: the parts one after the other. */
  function Concat(parts: seq<string>): string
    decreases |parts|
  {
    if |parts| == 0 then "" else parts[0] + Concat(parts[1..])
  }

  predicate IsPrefix(p: string, s: string)
  {
    |p| <= |s| && s[..|p|] == p
  }

  /** Python's `needle in s`: `needle` occurs in `s` as a contiguous substring. */
  predicate Contains(s: string, needle: string)
    decreases |s|
  {
    IsPrefix(needle, s) || (|s| > 0 && Contains(s[1..], needle))
  }

  function CountChar(c: char, s: string): nat
    decreases |s|
  {
    if |s| == 0 then 0 else (if s[0] == c then 1 else 0) + CountChar(c, s[1..])
  }

  /**
   * `s.split(sep)` for a one-character separator: the maximal runs between
   * separators, so one more piece than there are separators.
   */
  function Split(s: string, sep: char): (r: seq<string>)
    decreases |s|
    ensures |r| == CountChar(sep, s) + 1
    ensures forall i :: 0 <= i < |r| ==> sep !in r[i]
    ensures forall i, c :: 0 <= i < |r| && c in r[i] ==> c in s
  {
    if |s| == 0 then [""]
    else
      var rest := Split(s[1..], sep);
      assert forall c :: c in s[1..] ==> c in s;
      if s[0] == sep then [""] + rest
      else [[s[0]] + rest[0]] + rest[1..]
  }

  /** Splitting a text and joining the pieces with the same separator gives the text back. */
  lemma {:induction false} JoinSplit(s: string, sep: char)
    ensures Join([sep], Split(s, sep)) == s
    decreases |s|
  {
    if |s| > 0 {
      var rest := Split(s[1..], sep);
      JoinSplit(s[1..], sep);
      if s[0] == sep {
        assert Split(s, sep) == [""] + rest;
        assert ([""] + rest)[1..] == rest;
      } else {
        var parts := [[s[0]] + rest[0]] + rest[1..];
        assert Split(s, sep) == parts;
        if |rest| > 1 {
          assert parts[1..] == rest[1..];
          assert Join([sep], rest) == rest[0] + [sep] + Join([sep], rest[1..]);
        }
        assert s == [s[0]] + s[1..];
      }
    }
  }

  /** A text without the separator is a single piece. */
  lemma {:induction false} SplitWithoutSep(a: string, sep: char)
    requires sep !in a
    ensures Split(a, sep) == [a]
    decreases |a|
  {
    if |a| > 0 {
      SplitWithoutSep(a[1..], sep);
      assert [a[0]] + a[1..] == a;
    }
  }

  /** A separator after a separator-free prefix closes exactly that prefix as the first piece. */
  lemma {:induction false} SplitAfterPiece(a: string, sep: char, b: string)
    requires sep !in a
    ensures Split(a + [sep] + b, sep) == [a] + Split(b, sep)
    decreases |a|
  {
    var s := a + [sep] + b;
    if |a| == 0 {
      assert s[1..] == b;
    } else {
      assert s[1..] == a[1..] + [sep] + b;
      SplitAfterPiece(a[1..], sep, b);
      assert [a[0]] + a[1..] == a;
    }
  }

  /** Joining separator-free pieces and splitting again gives the pieces back. */
  lemma {:induction false} SplitJoin(parts: seq<string>, sep: char)
    requires |parts| >= 1
    requires forall i :: 0 <= i < |parts| ==> sep !in parts[i]
    ensures Split(Join([sep], parts), sep) == parts
    decreases |parts|
  {
    if |parts| == 1 {
      SplitWithoutSep(parts[0], sep);
    } else {
      SplitJoin(parts[1..], sep);
      SplitAfterPiece(parts[0], sep, Join([sep], parts[1..]));
      assert [parts[0]] + parts[1..] == parts;
    }
  }

  /** Joining with the empty separator is plain concatenation. */
  lemma {:induction false} JoinEmptyIsConcat(parts: seq<string>)
    decreases |parts|
    ensures Join("", parts) == Concat(parts)
  {
    if |parts| > 1 {
      JoinEmptyIsConcat(parts[1..]);
      assert Concat(parts[1..]) == parts[1] + Concat(parts[2..]);
      assert parts[1..][1..] == parts[2..];
    }
  }

  /** Concatenation is associative; stated once so that proofs about long concatenations can cite it. */
  lemma AppendAssoc<T>(a: seq<T>, b: seq<T>, c: seq<T>)
    ensures (a + b) + c == a + (b + c)
  {
  }
}
