/**
 Character-separated strings: splitting on one separator character, joining with a
 separator string, and replacing every occurrence of a character by a string.
 These model PHP's `explode` with a one-character delimiter and `implode`, and they
 are shared by the newline normalisation and by the request URL's query string.
 */
module Strings {
  import opened Wrappers

  /** Number of occurrences of `c` in `s`. */
  function Count(s: string, c: char): nat
  {
    if |s| == 0 then 0 else (if s[0] == c then 1 else 0) + Count(s[1..], c)
  }

  /** PHP `explode(c, s)`: the maximal pieces of `s` between occurrences of `c`.
      There is always one more piece than there are separators, and no piece
      contains the separator. */
  function Split(s: string, c: char): (parts: seq<string>)
    ensures |parts| == Count(s, c) + 1
    ensures forall i :: 0 <= i < |parts| ==> c !in parts[i]
  {
    if |s| == 0 then [""]
    else if s[0] == c then [""] + Split(s[1..], c)
    else
      var rest := Split(s[1..], c);
      [[s[0]] + rest[0]] + rest[1..]
  }

  /** PHP `implode(sep, parts)`: the parts with `sep` between neighbours. */
  function Implode(parts: seq<string>, sep: string): string
  {
    if |parts| == 0 then ""
    else if |parts| == 1 then parts[0]
    else parts[0] + sep + Implode(parts[1..], sep)
  }

  /** Every occurrence of `c` in `s` replaced by `sep`; the reference definition of
      splitting and joining again. */
  function Replace(s: string, c: char, sep: string): (r: string)
    ensures c !in sep ==> c !in r
    ensures c !in s ==> r == s
  {
    if |s| == 0 then ""
    else (if s[0] == c then sep else [s[0]]) + Replace(s[1..], c, sep)
  }

  /** Replacing distributes over concatenation. */
  lemma {:induction false} ReplaceAppend(a: string, b: string, c: char, sep: string)
    ensures Replace(a + b, c, sep) == Replace(a, c, sep) + Replace(b, c, sep)
    decreases |a|
  {
    if |a| > 0 {
      ReplaceAppend(a[1..], b, c, sep);
      var ab := a + b;
      assert ab[0] == a[0];
      assert ab[1..] == a[1..] + b;
      var h := if a[0] == c then sep else [a[0]];
      assert Replace(ab, c, sep) == h + Replace(ab[1..], c, sep);
      assert Replace(a, c, sep) == h + Replace(a[1..], c, sep);
    } else {
      assert a + b == b;
    }
  }

  /** Joining a non-empty tail after one more piece puts a separator in between. */
  lemma {:induction false} ImplodeCons(x: string, rest: seq<string>, sep: string)
    requires |rest| >= 1
    ensures Implode([x] + rest, sep) == x + sep + Implode(rest, sep)
  {
    assert ([x] + rest)[1..] == rest;
  }

  /** Prefixing the first piece prefixes the joined text. */
  lemma {:induction false} ImplodeExtendHead(h: string, rest: seq<string>, sep: string)
    requires |rest| >= 1
    ensures Implode([h + rest[0]] + rest[1..], sep) == h + Implode(rest, sep)
  {
    var parts := [h + rest[0]] + rest[1..];
    if |rest| > 1 {
      assert parts[1..] == rest[1..];
      assert Implode(parts, sep) == h + rest[0] + sep + Implode(rest[1..], sep);
    }
  }

  /** Splitting on `c` and joining with `sep` is the same as replacing `c` by `sep`. */
  lemma {:induction false} SplitImplodeIsReplace(s: string, c: char, sep: string)
    ensures Implode(Split(s, c), sep) == Replace(s, c, sep)
    decreases |s|
  {
    if |s| > 0 {
      SplitImplodeIsReplace(s[1..], c, sep);
      var rest := Split(s[1..], c);
      if s[0] == c {
        ImplodeCons("", rest, sep);
      } else {
        ImplodeExtendHead([s[0]], rest, sep);
      }
    }
  }

  /** Replacing a character by itself changes nothing. */
  lemma {:induction false} ReplaceBySelf(s: string, c: char)
    ensures Replace(s, c, [c]) == s
    decreases |s|
  {
    if |s| > 0 {
      ReplaceBySelf(s[1..], c);
      assert s == [s[0]] + s[1..];
    }
  }

  /** Joining the pieces of `explode` with the same separator gives the text back. */
  lemma {:induction false} SplitImplodeRoundTrip(s: string, c: char)
    ensures Implode(Split(s, c), [c]) == s
  {
    SplitImplodeIsReplace(s, c, [c]);
    ReplaceBySelf(s, c);
  }

  /** A text without the separator is one piece. */
  lemma {:induction false} SplitWithoutSeparator(a: string, c: char)
    requires c !in a
    ensures Split(a, c) == [a]
    decreases |a|
  {
    if |a| > 0 {
      assert c !in a[1..];
      SplitWithoutSeparator(a[1..], c);
      assert [a[0]] + a[1..] == a;
    }
  }

  /** A separator-free prefix followed by the separator becomes the first piece. */
  lemma {:induction false} SplitAfterPrefix(a: string, c: char, b: string)
    requires c !in a
    ensures Split(a + [c] + b, c) == [a] + Split(b, c)
    decreases |a|
  {
    var s := a + [c] + b;
    if |a| == 0 {
      assert s == [c] + b;
      assert s[1..] == b;
    } else {
      assert s[0] == a[0];
      assert s[1..] == a[1..] + [c] + b;
      assert c !in a[1..];
      SplitAfterPrefix(a[1..], c, b);
      assert [a[0]] + a[1..] == a;
    }
  }

  /** Splitting a joined sequence of separator-free pieces gives the pieces back. */
  lemma {:induction false} ImplodeSplitRoundTrip(parts: seq<string>, c: char)
    requires |parts| >= 1
    requires forall i :: 0 <= i < |parts| ==> c !in parts[i]
    ensures Split(Implode(parts, [c]), c) == parts
    decreases |parts|
  {
    if |parts| == 1 {
      SplitWithoutSeparator(parts[0], c);
    } else {
      ImplodeSplitRoundTrip(parts[1..], c);
      SplitAfterPrefix(parts[0], c, Implode(parts[1..], [c]));
      assert [parts[0]] + parts[1..] == parts;
    }
  }

  /** Position of the last occurrence of `c` in `s`, if any. */
  function LastIndexOf(s: string, c: char): (r: Option<nat>)
    ensures r.Some? ==> r.value < |s| && s[r.value] == c && c !in s[r.value + 1..]
    ensures r.None? ==> c !in s
  {
    if |s| == 0 then None
    else if s[|s| - 1] == c then Some(|s| - 1)
    else
      var r := LastIndexOf(s[..|s| - 1], c);
      assert s == s[..|s| - 1] + [s[|s| - 1]];
      r
  }

  /** In `a + [c] + b` with no `c` in `b`, the last `c` is the one after `a`. */
  lemma {:induction false} LastIndexAfterPrefix(a: string, c: char, b: string)
    requires c !in b
    ensures LastIndexOf(a + [c] + b, c) == Some(|a|)
  {
    var s := a + [c] + b;
    var r := LastIndexOf(s, c);
    assert s[|a|] == c;
    assert r.Some?;
  }

}
