/**
 * String helpers the runner relies on, written with Python's semantics:
 * concatenation of a list of strings, `str.splitlines()`, `str.split()`
 * (whitespace), `str.split(sep)` and `str.startswith`.
 */
module Text {
  import opened Wrappers

  /** `''.join(parts)`, built from the right so that a loop that appends can follow it. */
  function Concat(parts: seq<string>): string
  {
    if parts == [] then "" else Concat(parts[..|parts| - 1]) + parts[|parts| - 1]
  }

  lemma {:induction false} ConcatAppend(a: seq<string>, b: seq<string>)
    ensures Concat(a + b) == Concat(a) + Concat(b)
    decreases |b|
  {
    if b == [] {
      assert a + b == a;
    } else {
      var b', y := b[..|b| - 1], b[|b| - 1];
      assert b == b' + [y];
      assert a + b == (a + b') + [y];
      ConcatAppend(a, b');
      ConcatPush(a + b', y);
      ConcatPush(b', y);
      assert (Concat(a) + Concat(b')) + y == Concat(a) + (Concat(b') + y);
    }
  }

  /** Appending one part appends its text. */
  lemma ConcatPush(x: seq<string>, y: string)
    ensures Concat(x + [y]) == Concat(x) + y
  {
    assert (x + [y])[..|x|] == x;
  }

  /** Extending a range of parts by the next part appends that part. */
  lemma ConcatSnoc(s: seq<string>, a: nat, i: nat)
    requires a <= i < |s|
    ensures Concat(s[a..i + 1]) == Concat(s[a..i]) + s[i]
  {
    assert s[a..i + 1][..i - a] == s[a..i];
  }

  lemma ConcatSingle(x: string)
    ensures Concat([x]) == x
  {
    assert [x][..0] == [];
  }

  /** The first part of a non-empty list opens its concatenation. */
  lemma ConcatCons(parts: seq<string>)
    requires parts != []
    ensures Concat(parts) == parts[0] + Concat(parts[1..])
  {
    assert parts == [parts[0]] + parts[1..];
    ConcatAppend([parts[0]], parts[1..]);
    ConcatSingle(parts[0]);
  }

  /** Concatenating the pieces of a cut range gives the concatenation of the range. */
  lemma ConcatRange(s: seq<string>, a: nat, b: nat, c: nat)
    requires a <= b <= c <= |s|
    ensures Concat(s[a..b]) + Concat(s[b..c]) == Concat(s[a..c])
  {
    assert s[a..c] == s[a..b] + s[b..c];
    ConcatAppend(s[a..b], s[b..c]);
  }

  predicate StartsWith(s: string, prefix: string)
  {
    |prefix| <= |s| && s[..|prefix|] == prefix
  }

  /** `part` occurs in `s` at position `k`. */
  predicate OccursAt(s: string, part: string, k: int)
  {
    0 <= k && k + |part| <= |s| && s[k..k + |part|] == part
  }

  /** `part in s`, Python's substring test. */
  predicate Contains(s: string, part: string)
  {
    exists k :: 0 <= k <= |s| && OccursAt(s, part, k)
  }

  /** A substring stays one when text is appended. */
  lemma ContainsExtend(s: string, t: string, part: string)
    requires Contains(s, part)
    ensures Contains(s + t, part)
  {
    var k :| 0 <= k <= |s| && OccursAt(s, part, k);
    assert k + |part| <= |s| && s[k..k + |part|] == part;
    assert (s + t)[k..k + |part|] == s[k..k + |part|];
    assert OccursAt(s + t, part, k);
  }

  /** The characters `str.isspace()` accepts; `str.split()` and the `\s` class of `re` use the same set. */
  predicate IsSpace(c: char)
  {
    c == ' ' || c == '\t' || c == '\n' || c == '\r' || c == '\U{b}' || c == '\U{c}'
    || ('\U{1c}' <= c <= '\U{1f}') || c == '\U{85}' || c == '\U{a0}' || c == '\U{1680}'
    || ('\U{2000}' <= c <= '\U{200a}') || c == '\U{2028}' || c == '\U{2029}'
    || c == '\U{202f}' || c == '\U{205f}' || c == '\U{3000}'
  }

  /** The characters `str.splitlines()` breaks at (`\r\n` counts as one break). */
  predicate IsLineBreak(c: char)
  {
    c == '\n' || c == '\r' || c == '\U{b}' || c == '\U{c}' || ('\U{1c}' <= c <= '\U{1e}')
    || c == '\U{85}' || c == '\U{2028}' || c == '\U{2029}'
  }

  /** Number of leading characters of `s` that satisfy `IsSpace` (when `space`) or fail it. */
  function RunLength(s: string, space: bool): (n: nat)
    ensures n <= |s|
    ensures forall k :: 0 <= k < n ==> IsSpace(s[k]) == space
    ensures n < |s| ==> IsSpace(s[n]) != space
  {
    if s == [] || IsSpace(s[0]) != space then 0 else 1 + RunLength(s[1..], space)
  }

  /** A field of `str.split()`: non-empty, with no whitespace in it. */
  predicate IsWord(w: string)
  {
    w != "" && forall k :: 0 <= k < |w| ==> !IsSpace(w[k])
  }

  /** `s.split()`: the maximal runs of non-whitespace characters, in order. */
  function Words(s: string): (ws: seq<string>)
    ensures forall i :: 0 <= i < |ws| ==> IsWord(ws[i])
    decreases |s|
  {
    var t := s[RunLength(s, true)..];
    if t == "" then [] else
      var n := RunLength(t, false);
      assert IsWord(t[..n]);
      [t[..n]] + Words(t[n..])
  }

  /** A line that opens with a non-space character has at least one word, and that word opens the line. */
  lemma WordsOfNonSpaceStart(s: string)
    requires s != "" && !IsSpace(s[0])
    ensures Words(s) != [] && StartsWith(s, Words(s)[0])
  {
    assert RunLength(s, true) == 0;
    assert s[0..] == s;
  }

  /** No character of `s` breaks a line. */
  predicate OneLine(s: string)
  {
    forall k :: 0 <= k < |s| ==> !IsLineBreak(s[k])
  }

  /** Length of the first line of `s` (up to, not including, the first break). */
  function LineLength(s: string): (n: nat)
    ensures n <= |s|
    ensures forall k :: 0 <= k < n ==> !IsLineBreak(s[k])
    ensures n < |s| ==> IsLineBreak(s[n])
  {
    if s == [] || IsLineBreak(s[0]) then 0 else 1 + LineLength(s[1..])
  }

  /** How many characters end the first line: none at the end of `s`, two for `\r\n`, else one. */
  function BreakWidth(s: string, n: nat): (w: nat)
    requires n <= |s|
    ensures n + w <= |s|
    ensures n < |s| ==> 1 <= w
  {
    if n == |s| then 0
    else if s[n] == '\r' && n + 1 < |s| && s[n + 1] == '\n' then 2
    else 1
  }

  /** `s.splitlines()`: lines without their terminators; a trailing break opens no extra line. */
  function SplitLines(s: string): (lines: seq<string>)
    ensures forall i :: 0 <= i < |lines| ==> OneLine(lines[i])
    ensures s == "" <==> lines == []
    decreases |s|
  {
    if s == "" then [] else
      var n := LineLength(s);
      assert OneLine(s[..n]);
      [s[..n]] + SplitLines(s[n + BreakWidth(s, n)..])
  }

  /** Text with no break in it is one line. */
  lemma SplitLinesOneLine(s: string)
    requires s != "" && OneLine(s)
    ensures SplitLines(s) == [s]
  {
    assert LineLength(s) == |s|;
    assert s[..|s|] == s && s[|s|..] == "";
  }

  /** `SplitLines` drops exactly the break characters: joining its lines gives `s` without them. */
  function RemoveBreaks(s: string): (r: string)
  {
    if s == "" then "" else (if IsLineBreak(s[0]) then "" else [s[0]]) + RemoveBreaks(s[1..])
  }

  lemma {:induction false} RemoveBreaksAppend(a: string, b: string)
    ensures RemoveBreaks(a + b) == RemoveBreaks(a) + RemoveBreaks(b)
  {
    if a == "" {
      assert a + b == b;
    } else {
      assert (a + b)[0] == a[0] && (a + b)[1..] == a[1..] + b;
      RemoveBreaksAppend(a[1..], b);
    }
  }

  lemma {:induction false} RemoveBreaksNone(s: string)
    requires OneLine(s)
    ensures RemoveBreaks(s) == s
  {
    if s != "" {
      RemoveBreaksNone(s[1..]);
      assert s == [s[0]] + s[1..];
    }
  }

  lemma {:induction false} RemoveBreaksAll(s: string)
    requires forall k :: 0 <= k < |s| ==> IsLineBreak(s[k])
    ensures RemoveBreaks(s) == ""
  {
    if s != "" {
      RemoveBreaksAll(s[1..]);
    }
  }

  /** The characters `SplitLines` steps over after a line are all breaks. */
  lemma BreakIsBreaks(s: string, n: nat)
    requires n == LineLength(s)
    ensures forall k :: n <= k < n + BreakWidth(s, n) ==> IsLineBreak(s[k])
  {
  }

  /** Removing breaks from a line and the break after it leaves the line. */
  lemma RemoveBreaksLine(s: string, n: nat, w: nat)
    requires n == LineLength(s) && w == BreakWidth(s, n)
    ensures RemoveBreaks(s[..n + w]) == s[..n]
  {
    var line, brk := s[..n], s[n..n + w];
    assert s[..n + w] == line + brk;
    RemoveBreaksAppend(line, brk);
    RemoveBreaksNone(line);
    BreakIsBreaks(s, n);
    RemoveBreaksAll(brk);
  }

  lemma {:induction false} SplitLinesKeepsText(s: string)
    ensures Concat(SplitLines(s)) == RemoveBreaks(s)
    decreases |s|
  {
    if s != "" {
      var n := LineLength(s);
      var w := BreakWidth(s, n);
      var rest := s[n + w..];
      var lines := SplitLines(s);
      assert lines[0] == s[..n] && lines[1..] == SplitLines(rest);
      SplitLinesKeepsText(rest);
      ConcatCons(lines);
      assert s == s[..n + w] + rest;
      RemoveBreaksAppend(s[..n + w], rest);
      RemoveBreaksLine(s, n, w);
    }
  }

  /** `s.split(sep)` for a one-character separator: always at least one field. */
  function SplitOn(s: string, sep: char): (fields: seq<string>)
    ensures fields != []
    ensures forall i, k :: 0 <= i < |fields| && 0 <= k < |fields[i]| ==> fields[i][k] != sep
    decreases |s|
  {
    if sep !in s then [s] else
      var i := IndexOf(s, sep);
      [s[..i]] + SplitOn(s[i + 1..], sep)
  }

  /** The first position of `c` in `s`. */
  function IndexOf(s: string, c: char): (i: nat)
    requires c in s
    ensures i < |s| && s[i] == c && c !in s[..i]
  {
    if s[0] == c then 0 else 1 + IndexOf(s[1..], c)
  }

  /** `sep.join(fields)`. */
  function Join(fields: seq<string>, sep: char): string
    requires fields != []
  {
    if |fields| == 1 then fields[0] else fields[0] + [sep] + Join(fields[1..], sep)
  }

  /** `sep.join(s.split(sep)) == s`. */
  lemma {:induction false} JoinSplitOn(s: string, sep: char)
    ensures Join(SplitOn(s, sep), sep) == s
    decreases |s|
  {
    if sep in s {
      var i := IndexOf(s, sep);
      JoinSplitOn(s[i + 1..], sep);
      assert s == s[..i] + [sep] + s[i + 1..];
    }
  }

  /** Splitting at a separator character splits the fields list there. */
  lemma {:induction false} SplitOnJoin(a: string, b: string, sep: char)
    requires sep !in a
    ensures SplitOn(a + [sep] + b, sep) == [a] + SplitOn(b, sep)
  {
    var s := a + [sep] + b;
    assert s[..|a|] == a && s[|a|] == sep;
    var i := IndexOf(s, sep);
    assert i == |a|;
    assert s[..i] == a && s[i + 1..] == b;
  }

  /** The first position of `c` in `x` is also its first position in `x + y`. */
  lemma IndexOfPrefix(x: string, y: string, c: char)
    requires c in x
    ensures IndexOf(x + y, c) == IndexOf(x, c)
  {
    var i := IndexOf(x, c);
    assert (x + y)[..i] == x[..i];
    assert (x + y)[i] == c;
  }

  /** Appending a separator and a field without separators appends that field. */
  lemma {:induction false} SplitOnSnoc(x: string, y: string, sep: char)
    requires sep !in y
    ensures SplitOn(x + [sep] + y, sep) == SplitOn(x, sep) + [y]
    decreases |x|
  {
    var s := x + [sep] + y;
    if sep !in x {
      SplitOnJoin(x, y, sep);
      assert SplitOn(y, sep) == [y];
    } else {
      var i := IndexOf(x, sep);
      var rest := [sep] + y;
      assert s == x + rest;
      IndexOfPrefix(x, rest, sep);
      assert s[..i] == x[..i];
      assert s[i + 1..] == x[i + 1..] + [sep] + y;
      SplitOnSnoc(x[i + 1..], y, sep);
    }
  }

  /** Index of the last line satisfying `p`, or `None`: the last match wins. */
  function LastMatch(lines: seq<string>, p: string -> bool): (k: Option<nat>)
    ensures k.Some? ==> k.value < |lines| && p(lines[k.value])
    ensures k.Some? ==> forall j :: k.value < j < |lines| ==> !p(lines[j])
    ensures k.None? ==> forall j :: 0 <= j < |lines| ==> !p(lines[j])
  {
    if lines == [] then None
    else if p(lines[|lines| - 1]) then Some(|lines| - 1)
    else LastMatch(lines[..|lines| - 1], p)
  }

  /** Scanning one more line: it wins when it matches. */
  lemma LastMatchStep(lines: seq<string>, p: string -> bool, i: nat)
    requires i < |lines|
    ensures LastMatch(lines[..i + 1], p) == if p(lines[i]) then Some(i) else LastMatch(lines[..i], p)
  {
    assert lines[..i + 1][..i] == lines[..i];
  }
}
