/**
 * The handful of Python `str` operations the application relies on, with
 * Python's own semantics: `strip()` with no argument, `split(sep)` on one
 * character, `splitlines()`, `startswith`, `sep.join(...)` and slicing with
 * a possibly negative end index.
 */
module PyText {

  /** `c.isspace()`; `str.strip()` with no argument removes exactly these characters. */
  predicate IsSpace(c: char)
  {
    c == ' ' || ('\t' <= c <= '\r') || ('\U{1C}' <= c <= '\U{1F}') || c == '\U{85}' || c == '\U{A0}'
    || c == '\U{1680}' || ('\U{2000}' <= c <= '\U{200A}') || c == '\U{2028}' || c == '\U{2029}'
    || c == '\U{202F}' || c == '\U{205F}' || c == '\U{3000}'
  }

  /** Characters at which `str.splitlines()` ends a line ("\r\n" counts as one boundary). */
  predicate IsLineBreak(c: char)
  {
    ('\n' <= c <= '\r') || ('\U{1C}' <= c <= '\U{1E}') || c == '\U{85}' || c == '\U{2028}' || c == '\U{2029}'
  }

  predicate NoLineBreak(s: string)
  {
    forall k :: 0 <= k < |s| ==> !IsLineBreak(s[k])
  }

  /** Neither end of `s` is whitespace: the strings `strip()` can return. */
  predicate NoEdgeSpace(s: string)
  {
    s == [] || (!IsSpace(s[0]) && !IsSpace(s[|s| - 1]))
  }

  /** `s.strip()`: whitespace is removed from either end until neither end is whitespace. */
  function Strip(s: string): (r: string)
    ensures |r| <= |s|
    decreases |s|
  {
    if s != [] && IsSpace(s[0]) then Strip(s[1..])
    else if s != [] && IsSpace(s[|s| - 1]) then Strip(s[..|s| - 1])
    else s
  }

  /** What `strip()` leaves has whitespace at neither end. */
  lemma {:induction false} StripEdges(s: string)
    ensures NoEdgeSpace(Strip(s))
    decreases |s|
  {
    if s != [] && IsSpace(s[0]) {
      StripEdges(s[1..]);
    } else if s != [] && IsSpace(s[|s| - 1]) {
      StripEdges(s[..|s| - 1]);
    }
  }

  /** `s[a..b]` is `s` without a leading and a trailing run of whitespace. */
  predicate TrimmedBetween(s: string, a: nat, b: nat)
  {
    && a <= b <= |s|
    && (forall k :: 0 <= k < a ==> IsSpace(s[k]))
    && (forall k :: b <= k < |s| ==> IsSpace(s[k]))
  }

  /** Trimming after a leading space was dropped trims `s` one further in. */
  lemma TrimmedFront(s: string, a: nat, b: nat)
    requires s != [] && IsSpace(s[0]) && TrimmedBetween(s[1..], a, b)
    ensures TrimmedBetween(s, a + 1, b + 1) && s[1..][a..b] == s[a + 1..b + 1]
  {
    forall k | 0 < k < a + 1
      ensures IsSpace(s[k])
    {
      assert s[k] == s[1..][k - 1];
    }
    forall k | b + 1 <= k < |s|
      ensures IsSpace(s[k])
    {
      assert s[k] == s[1..][k - 1];
    }
  }

  /** Trimming after a trailing space was dropped trims `s` the same way. */
  lemma TrimmedBack(s: string, a: nat, b: nat)
    requires s != [] && IsSpace(s[|s| - 1]) && TrimmedBetween(s[..|s| - 1], a, b)
    ensures TrimmedBetween(s, a, b) && s[..|s| - 1][a..b] == s[a..b]
  {
    forall k | b <= k < |s| - 1
      ensures IsSpace(s[k])
    {
      assert s[k] == s[..|s| - 1][k];
    }
  }

  /** `strip()` removes a leading and a trailing run of whitespace and nothing else. */
  lemma {:induction false} StripRemovesEdges(s: string)
    ensures exists a: nat, b: nat :: TrimmedBetween(s, a, b) && Strip(s) == s[a..b]
    decreases |s|
  {
    if s != [] && IsSpace(s[0]) {
      StripRemovesEdges(s[1..]);
      var a: nat, b: nat :| TrimmedBetween(s[1..], a, b) && Strip(s[1..]) == s[1..][a..b];
      TrimmedFront(s, a, b);
    } else if s != [] && IsSpace(s[|s| - 1]) {
      StripRemovesEdges(s[..|s| - 1]);
      var a: nat, b: nat :| TrimmedBetween(s[..|s| - 1], a, b) && Strip(s[..|s| - 1]) == s[..|s| - 1][a..b];
      TrimmedBack(s, a, b);
    } else {
      assert s == s[0..|s|];
      assert TrimmedBetween(s, 0, |s|);
    }
  }

  /** A string strips to nothing exactly when it is all whitespace. */
  lemma {:induction false} StripEmpty(s: string)
    ensures Strip(s) == "" <==> forall k :: 0 <= k < |s| ==> IsSpace(s[k])
    decreases |s|
  {
    if s != [] && IsSpace(s[0]) {
      StripEmpty(s[1..]);
      assert forall k :: 0 < k < |s| ==> s[k] == s[1..][k - 1];
    } else if s != [] && IsSpace(s[|s| - 1]) {
      StripEmpty(s[..|s| - 1]);
      assert s[..|s| - 1][0] == s[0];
    }
  }

  /** No character appears in `s.strip()` that is not in `s`. */
  lemma {:induction false} StripChars(s: string, c: char)
    requires c in Strip(s)
    ensures c in s
    decreases |s|
  {
    if s != [] && IsSpace(s[0]) {
      StripChars(s[1..], c);
    } else if s != [] && IsSpace(s[|s| - 1]) {
      StripChars(s[..|s| - 1], c);
    }
  }

  /** `strip()` is the identity exactly on the strings it can return... */
  lemma StripFixesNoEdgeSpace(s: string)
    requires NoEdgeSpace(s)
    ensures Strip(s) == s
  {
  }

  /** ...so stripping twice is stripping once. */
  lemma StripIdempotent(s: string)
    ensures Strip(Strip(s)) == Strip(s)
  {
    StripEdges(s);
    StripFixesNoEdgeSpace(Strip(s));
  }

  /** `s.startswith(prefix)`. */
  predicate StartsWith(s: string, prefix: string)
    ensures StartsWith(s, prefix) ==> |prefix| <= |s| && s == prefix + s[|prefix|..]
  {
    |prefix| <= |s| && s[..|prefix|] == prefix
  }

  /** `s[:n]` for any integer `n`: a negative `n` counts from the end. */
  function SliceTo(s: string, n: int): (r: string)
    ensures 0 <= n ==> r == s[..if n <= |s| then n else |s|]
    ensures n < 0 ==> r == s[..if -n <= |s| then |s| + n else 0]
  {
    if n >= 0 then (if n <= |s| then s[..n] else s)
    else (if -n <= |s| then s[..|s| + n] else [])
  }

  /** Position of the first `c` in `s`, or `|s|` when there is none. */
  function IndexOf(s: string, c: char): (i: nat)
    ensures i <= |s|
    ensures i < |s| ==> s[i] == c
    ensures c !in s[..i]
  {
    if s == [] then 0 else if s[0] == c then 0 else 1 + IndexOf(s[1..], c)
  }

  /** `s.split(sep)` for a one-character separator: never empty, and `"".split(";") == [""]`. */
  function Split(s: string, sep: char): (pieces: seq<string>)
    ensures |pieces| >= 1
    ensures forall i :: 0 <= i < |pieces| ==> sep !in pieces[i]
    decreases |s|
  {
    var i := IndexOf(s, sep);
    if i == |s| then [s] else [s[..i]] + Split(s[i + 1..], sep)
  }

  /** Every character of a piece of `s.split(sep)` is a character of `s`. */
  lemma {:induction false} SplitChars(s: string, sep: char, i: nat, c: char)
    requires i < |Split(s, sep)| && c in Split(s, sep)[i]
    ensures c in s
    decreases |s|
  {
    var k := IndexOf(s, sep);
    if k < |s| && i > 0 {
      SplitChars(s[k + 1..], sep, i - 1, c);
      var j :| 0 <= j < |s[k + 1..]| && s[k + 1..][j] == c;
      assert s[k + 1 + j] == c;
    } else {
      var j :| 0 <= j < |Split(s, sep)[i]| && Split(s, sep)[i][j] == c;
      assert s[j] == c;
    }
  }

  /** `sep.join(pieces)` for a one-character separator. */
  function Join(pieces: seq<string>, sep: char): string
  {
    if pieces == [] then ""
    else if |pieces| == 1 then pieces[0]
    else pieces[0] + [sep] + Join(pieces[1..], sep)
  }

  /** A join begins with its first piece, and is empty when there is no piece. */
  lemma JoinFront(pieces: seq<string>, sep: char)
    ensures pieces == [] ==> Join(pieces, sep) == ""
    ensures pieces != [] ==> |pieces[0]| <= |Join(pieces, sep)| && Join(pieces, sep)[..|pieces[0]|] == pieces[0]
  {
    if |pieces| > 1 {
      assert Join(pieces, sep) == pieces[0] + ([sep] + Join(pieces[1..], sep));
    }
  }

  /** Joining the pieces of a split with the same separator gives back the text. */
  lemma {:induction false} JoinSplit(s: string, sep: char)
    ensures Join(Split(s, sep), sep) == s
    decreases |s|
  {
    var i := IndexOf(s, sep);
    if i < |s| {
      var tail := Split(s[i + 1..], sep);
      JoinSplit(s[i + 1..], sep);
      assert ([s[..i]] + tail)[1..] == tail;
      assert Join(Split(s, sep), sep) == s[..i] + [sep] + Join(tail, sep);
      assert s == s[..i] + [sep] + s[i + 1..];
    } else {
      assert Split(s, sep) == [s];
    }
  }

  lemma IndexOfAfter(a: string, rest: string, c: char)
    requires c !in a
    requires rest == [] || rest[0] == c
    ensures IndexOf(a + rest, c) == |a|
  {
    if a != [] {
      assert (a + rest)[1..] == a[1..] + rest;
      IndexOfAfter(a[1..], rest, c);
    }
  }

  /** Splitting at the first separator: the part before it, then the split of the rest. */
  lemma SplitCons(a: string, rest: string, sep: char)
    requires sep !in a
    ensures Split(a + [sep] + rest, sep) == [a] + Split(rest, sep)
  {
    var s := a + [sep] + rest;
    assert s == a + ([sep] + rest);
    IndexOfAfter(a, [sep] + rest, sep);
    assert s[..|a|] == a;
    assert s[|a| + 1..] == rest;
  }

  /** Splitting a join gives back the pieces, provided no piece holds the separator. */
  lemma {:induction false} SplitJoin(pieces: seq<string>, sep: char)
    requires |pieces| >= 1
    requires forall i :: 0 <= i < |pieces| ==> sep !in pieces[i]
    ensures Split(Join(pieces, sep), sep) == pieces
  {
    if |pieces| == 1 {
      IndexOfAfter(pieces[0], [], sep);
      assert pieces[0] + [] == pieces[0];
    } else {
      assert Join(pieces, sep) == pieces[0] + [sep] + Join(pieces[1..], sep);
      SplitCons(pieces[0], Join(pieces[1..], sep), sep);
      SplitJoin(pieces[1..], sep);
      assert pieces == [pieces[0]] + pieces[1..];
    }
  }

  /** Length of the first line of `s`: the position of its first line boundary, or `|s|`. */
  function LineEnd(s: string): (i: nat)
    ensures i <= |s|
    ensures i < |s| ==> IsLineBreak(s[i])
    ensures NoLineBreak(s[..i])
  {
    if s == [] then 0 else if IsLineBreak(s[0]) then 0 else 1 + LineEnd(s[1..])
  }

  /** `s.splitlines()`: lines without their terminators; a final terminator opens no extra line. */
  function SplitLines(s: string): (lines: seq<string>)
    ensures forall i :: 0 <= i < |lines| ==> NoLineBreak(lines[i])
    decreases |s|
  {
    if s == [] then []
    else
      var i := LineEnd(s);
      if i == |s| then [s]
      else
        var next := if s[i] == '\r' && i + 1 < |s| && s[i + 1] == '\n' then i + 2 else i + 1;
        [s[..i]] + SplitLines(s[next..])
  }

  lemma LineEndAfter(a: string, rest: string)
    requires NoLineBreak(a)
    requires rest == [] || IsLineBreak(rest[0])
    ensures LineEnd(a + rest) == |a|
  {
    if a != [] {
      assert (a + rest)[1..] == a[1..] + rest;
      LineEndAfter(a[1..], rest);
    }
  }

  /** A line ended by "\n" is the first line, and the rest is split on its own. */
  lemma SplitLinesCons(a: string, rest: string)
    requires NoLineBreak(a)
    ensures SplitLines(a + ['\n'] + rest) == [a] + SplitLines(rest)
  {
    var s := a + ['\n'] + rest;
    assert s == a + (['\n'] + rest);
    LineEndAfter(a, ['\n'] + rest);
    assert s[..|a|] == a;
    assert s[|a| + 1..] == rest;
  }

  /**
   * `"\n".join(lines).splitlines()` gives back `lines` when no line is empty
   * or holds a line boundary.
   */
  lemma {:induction false} SplitLinesJoin(lines: seq<string>)
    requires forall i :: 0 <= i < |lines| ==> lines[i] != [] && NoLineBreak(lines[i])
    ensures SplitLines(Join(lines, '\n')) == lines
  {
    if lines == [] {
    } else if |lines| == 1 {
      LineEndAfter(lines[0], []);
      assert lines[0] + [] == lines[0];
    } else {
      SplitLinesCons(lines[0], Join(lines[1..], '\n'));
      SplitLinesJoin(lines[1..]);
      assert lines == [lines[0]] + lines[1..];
    }
  }
}
