/**
 Newline normalisation: a multi-line text is exploded on "\n" and imploded with the
 HTML line break "<br>", so that the report shows it as one block
 (errorstream/ErrorStreamLogger.php lines 90-91 for log messages and 137-138 for
 exception traces).
 */
module Lines {
  import opened Strings

  /** The marker that stands in for a newline in a report. */
  const LineBreak: string := "<br>"

  /** Each newline replaced by the four-character marker adds three characters. */
  lemma {:induction false} ReplaceNewlineLength(s: string)
    ensures |Replace(s, '\n', LineBreak)| == |s| + 3 * Count(s, '\n')
    decreases |s|
  {
    if |s| > 0 {
      ReplaceNewlineLength(s[1..]);
    }
  }

  /** `implode('<br>', explode("\n", s))`. The result is single-line, a text that
      was already single-line comes back unchanged, and each newline grows the text
      by the three extra characters of the marker: it is exactly "replace every
      newline by <br>". */
  function JoinLines(s: string): (r: string)
    ensures '\n' !in r
    ensures '\n' !in s ==> r == s
    ensures r == Replace(s, '\n', LineBreak)
    ensures |r| == |s| + 3 * Count(s, '\n')
  {
    SplitImplodeIsReplace(s, '\n', LineBreak);
    ReplaceNewlineLength(s);
    Implode(Split(s, '\n'), LineBreak)
  }

  /** Two texts joined by a newline normalise to their normal forms joined by the marker. */
  lemma {:induction false} JoinLinesAroundNewline(a: string, b: string)
    ensures JoinLines(a + "\n" + b) == JoinLines(a) + LineBreak + JoinLines(b)
  {
    ReplaceAppend(a + "\n", b, '\n', LineBreak);
    ReplaceAppend(a, "\n", '\n', LineBreak);
    assert Replace("\n", '\n', LineBreak) == LineBreak;
  }

  /** Normalising twice is the same as normalising once. */
  lemma {:induction false} JoinLinesIdempotent(s: string)
    ensures JoinLines(JoinLines(s)) == JoinLines(s)
  {
  }

  /** The normalisation is lossy: a literal "<br>" in the input cannot be told apart
      from a newline afterwards. */
  lemma {:induction false} JoinLinesConflatesMarker()
    ensures JoinLines("a\nb") == JoinLines("a<br>b") == "a<br>b"
  {
    assert Replace("a\nb", '\n', LineBreak) == "a<br>b";
  }
}
