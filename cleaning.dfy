/**
 * `clean_submitted_query`: the query text typed into the page loses its blank
 * lines and its `--` comment lines; every other line is kept as it is, in order.
 */
module QueryCleaning {
  import opened PyText

  /** A line survives when its stripped form is non-empty and does not start with "--". */
  predicate KeepLine(line: string)
  {
    var stripped := Strip(line);
    !StartsWith(stripped, "--") && stripped != ""
  }

  /** The lines that survive, unmodified and in their original order. */
  function KeptLines(lines: seq<string>): (kept: seq<string>)
    ensures |kept| <= |lines|
  {
    if lines == [] then []
    else (if KeepLine(lines[0]) then [lines[0]] else []) + KeptLines(lines[1..])
  }

  /** `clean_submitted_query(query)` */
  function CleanedQuery(query: string): (cleaned: string)
    ensures cleaned == "" <==> KeptLines(SplitLines(query)) == []
  {
    KeptLinesPass(SplitLines(query));
    JoinFront(KeptLines(SplitLines(query)), '\n');
    Join(KeptLines(SplitLines(query)), '\n')
  }

  /** Filtering a concatenation is concatenating the filtered parts. */
  lemma {:induction false} KeptLinesConcat(a: seq<string>, b: seq<string>)
    ensures KeptLines(a + b) == KeptLines(a) + KeptLines(b)
  {
    if a == [] {
      assert a + b == b;
    } else {
      assert (a + b)[1..] == a[1..] + b;
      KeptLinesConcat(a[1..], b);
      assert KeptLines(a + b) == (if KeepLine(a[0]) then [a[0]] else []) + KeptLines(a[1..] + b);
    }
  }

  /** The loop of `clean_submitted_query`, then the join. */
  method CleanSubmittedQuery(query: string) returns (cleaned: string)
    ensures cleaned == CleanedQuery(query)
  {
    var lines := SplitLines(query);
    var cleanedLines: seq<string> := [];
    var i := 0;
    while i < |lines|
      invariant 0 <= i <= |lines|
      invariant cleanedLines == KeptLines(lines[..i])
    {
      var line := lines[i];
      var stripped := Strip(line);
      KeptLinesConcat(lines[..i], [line]);
      assert lines[..i + 1] == lines[..i] + [line];
      if !StartsWith(stripped, "--") && stripped != "" {
        cleanedLines := cleanedLines + [line];
      }
      i := i + 1;
    }
    assert lines[..i] == lines;
    cleaned := Join(cleanedLines, '\n');
  }

  /** Every kept line passes the test and is one of the input lines. */
  lemma {:induction false} KeptLinesPass(lines: seq<string>)
    ensures forall k :: 0 <= k < |KeptLines(lines)| ==>
      KeepLine(KeptLines(lines)[k]) && KeptLines(lines)[k] in lines
  {
    if lines != [] {
      KeptLinesPass(lines[1..]);
    }
  }

  /** A line that passes the test is never dropped... */
  lemma {:induction false} AllPassAllKept(lines: seq<string>)
    requires forall i :: 0 <= i < |lines| ==> KeepLine(lines[i])
    ensures KeptLines(lines) == lines
  {
    if lines != [] {
      AllPassAllKept(lines[1..]);
    }
  }

  /** ...and a line that fails it never survives. */
  lemma {:induction false} NonePassNoneKept(lines: seq<string>)
    requires forall i :: 0 <= i < |lines| ==> !KeepLine(lines[i])
    ensures KeptLines(lines) == []
  {
    if lines != [] {
      NonePassNoneKept(lines[1..]);
    }
  }

  /** A query of blank and comment lines only cleans to the empty text. */
  lemma CommentOnlyCleansEmpty(query: string)
    requires forall i :: 0 <= i < |SplitLines(query)| ==> !KeepLine(SplitLines(query)[i])
    ensures CleanedQuery(query) == ""
  {
    NonePassNoneKept(SplitLines(query));
  }

  /** Cleaning an already cleaned query changes nothing. */
  lemma CleanIdempotent(query: string)
    ensures CleanedQuery(CleanedQuery(query)) == CleanedQuery(query)
  {
    var lines := SplitLines(query);
    var kept := KeptLines(lines);
    KeptLinesPass(lines);
    forall k | 0 <= k < |kept|
      ensures kept[k] != [] && NoLineBreak(kept[k])
    {
      var i :| 0 <= i < |lines| && lines[i] == kept[k];
      assert NoLineBreak(lines[i]);
      assert |Strip(kept[k])| <= |kept[k]|;
    }
    SplitLinesJoin(kept);
    AllPassAllKept(kept);
  }
}
