/**
 * The record structure `_split_log` gives a log, for any test of which lines
 * open a record (`isMarker`): the lines before the first marker line form the
 * first record, and each marker line opens a record that runs up to the next
 * marker line; the lines of a record are joined without a separator.
 */
module Splitting {
  import opened Text

  /** Positions of the marker lines, in increasing order. */
  function MarkerIdx(lines: seq<string>, isMarker: string -> bool): (m: seq<nat>)
    ensures forall j :: 0 <= j < |m| ==> m[j] < |lines| && isMarker(lines[m[j]])
    ensures forall j :: 0 <= j < |m| - 1 ==> m[j] < m[j + 1]
  {
    if lines == [] then []
    else MarkerIdx(lines[..|lines| - 1], isMarker) + (if isMarker(lines[|lines| - 1]) then [|lines| - 1] else [])
  }

  /** Cut positions that can slice a list of `n` lines, in order. */
  predicate Ascending(b: seq<nat>, n: nat)
  {
    (forall j :: 0 <= j < |b| ==> b[0] <= b[j] <= n) && (forall j :: 0 <= j < |b| - 1 ==> b[j] <= b[j + 1])
  }

  lemma AscendingSnoc(b: seq<nat>, x: nat, n: nat)
    requires Ascending(b, n) && b != [] && b[|b| - 1] <= x <= n
    ensures Ascending(b + [x], n)
  {
  }

  /** Where the records cut the first `i` lines: at the start and at every
      marker line, strictly increasing after the start. */
  function Cuts(lines: seq<string>, isMarker: string -> bool, i: nat): (b: seq<nat>)
    requires i <= |lines|
    ensures b != [] && b[0] == 0 && b[|b| - 1] <= i
    ensures forall j :: 1 <= j < |b| ==> b[j] < i && isMarker(lines[b[j]])
    ensures forall j :: 1 <= j < |b| - 1 ==> b[j] < b[j + 1]
    ensures Ascending(b, |lines|)
  {
    var m := MarkerIdx(lines[..i], isMarker);
    assert forall j :: 0 <= j < |m| ==> lines[..i][m[j]] == lines[m[j]];
    [0] + m
  }

  /** The text between consecutive cut positions, one string per gap. */
  function Pieces(lines: seq<string>, b: seq<nat>): (r: seq<string>)
    requires Ascending(b, |lines|)
    ensures |r| == if |b| < 2 then 0 else |b| - 1
  {
    if |b| < 2 then [] else Pieces(lines, b[..|b| - 1]) + [Concat(lines[b[|b| - 2]..b[|b| - 1]])]
  }

  /** The records of a log. With no marker line the whole text is one record
      (none if it is empty); otherwise the log is cut at the start, at every
      marker line and at the end, so the first record is the text before the
      first marker line even when that is empty. */
  function Records(lines: seq<string>, isMarker: string -> bool): seq<string>
  {
    var b := Cuts(lines, isMarker, |lines|);
    if |b| == 1 then (if Concat(lines) == "" then [] else [Concat(lines)])
    else
      AscendingSnoc(b, |lines|, |lines|);
      Pieces(lines, b + [|lines|])
  }

  lemma {:induction false} PiecesAt(lines: seq<string>, b: seq<nat>, j: nat)
    requires Ascending(b, |lines|) && j + 1 < |b|
    ensures Pieces(lines, b)[j] == Concat(lines[b[j]..b[j + 1]])
  {
    if j + 2 < |b| {
      PiecesAt(lines, b[..|b| - 1], j);
    }
  }

  /** The pieces joined are the lines from the first cut to the last joined. */
  lemma {:induction false} PiecesConcat(lines: seq<string>, b: seq<nat>)
    requires Ascending(b, |lines|) && b != []
    ensures Concat(Pieces(lines, b)) == Concat(lines[b[0]..b[|b| - 1]])
  {
    if |b| >= 2 {
      var b' := b[..|b| - 1];
      PiecesConcat(lines, b');
      var p := Pieces(lines, b);
      assert p[..|p| - 1] == Pieces(lines, b');
      ConcatRange(lines, b[0], b[|b| - 2], b[|b| - 1]);
    }
  }

  /** One more cut, one more piece. */
  lemma PiecesSnoc(lines: seq<string>, b: seq<nat>, x: nat)
    requires Ascending(b, |lines|) && b != [] && b[|b| - 1] <= x <= |lines|
    ensures Ascending(b + [x], |lines|)
    ensures Pieces(lines, b + [x]) == Pieces(lines, b) + [Concat(lines[b[|b| - 1]..x])]
  {
    AscendingSnoc(b, x, |lines|);
    var c := b + [x];
    assert c[..|c| - 1] == b;
    assert c[|c| - 2] == b[|b| - 1] && c[|c| - 1] == x;
  }

  /** What `_split_log` holds after the first `i` lines: the records closed so
      far (`logs`) and the one being built (`cur`). */
  ghost predicate SplitState(lines: seq<string>, isMarker: string -> bool, i: nat, logs: seq<string>, cur: string)
    requires i <= |lines|
  {
    var b := Cuts(lines, isMarker, i);
    logs == Pieces(lines, b) && cur == Concat(lines[b[|b| - 1]..i])
  }

  lemma SplitStart(lines: seq<string>, isMarker: string -> bool)
    ensures SplitState(lines, isMarker, 0, [], "")
  {
    assert lines[..0] == [];
    assert Cuts(lines, isMarker, 0) == [0];
    assert lines[0..0] == [];
  }

  /** Reading line `i` adds a cut exactly when it is a marker line. */
  lemma CutsStep(lines: seq<string>, isMarker: string -> bool, i: nat)
    requires i < |lines|
    ensures Cuts(lines, isMarker, i + 1)
            == Cuts(lines, isMarker, i) + (if isMarker(lines[i]) then [i] else [])
  {
    assert lines[..i + 1][..i] == lines[..i];
    assert lines[..i + 1][i] == lines[i];
  }

  /** A marker line closes `cur` and opens a record with itself. */
  lemma SplitStepMarker(lines: seq<string>, isMarker: string -> bool, i: nat, logs: seq<string>, cur: string)
    requires i < |lines| && isMarker(lines[i]) && SplitState(lines, isMarker, i, logs, cur)
    ensures SplitState(lines, isMarker, i + 1, logs + [cur], lines[i])
  {
    var b := Cuts(lines, isMarker, i);
    CutsStep(lines, isMarker, i);
    PiecesSnoc(lines, b, i);
    assert lines[i..i + 1] == [lines[i]];
    ConcatSingle(lines[i]);
  }

  /** Any other line is appended to `cur`. */
  lemma SplitStepPlain(lines: seq<string>, isMarker: string -> bool, i: nat, logs: seq<string>, cur: string)
    requires i < |lines| && !isMarker(lines[i]) && SplitState(lines, isMarker, i, logs, cur)
    ensures SplitState(lines, isMarker, i + 1, logs, cur + lines[i])
  {
    var b := Cuts(lines, isMarker, i);
    CutsStep(lines, isMarker, i);
    assert Cuts(lines, isMarker, i + 1) == b;
    ConcatSnoc(lines, b[|b| - 1], i);
  }

  /** At the end, `cur` is the last record; it is closed when it is not empty,
      which it is not once a (non-empty) marker line has been seen. */
  lemma SplitEnd(lines: seq<string>, isMarker: string -> bool, logs: seq<string>, cur: string)
    requires forall line :: isMarker(line) ==> line != ""
    requires SplitState(lines, isMarker, |lines|, logs, cur)
    ensures (if cur != "" then logs + [cur] else logs) == Records(lines, isMarker)
  {
    var b := Cuts(lines, isMarker, |lines|);
    var last := b[|b| - 1];
    assert logs == Pieces(lines, b) && cur == Concat(lines[last..|lines|]);
    if |b| > 1 {
      assert isMarker(lines[last]);
      var rest := lines[last..|lines|];
      ConcatCons(rest);
      assert rest[0] == lines[last];
      assert cur == Concat(rest) && cur != "";
      PiecesSnoc(lines, b, |lines|);
    } else {
      assert lines[0..|lines|] == lines;
      assert logs == [] && cur == Concat(lines);
    }
  }

  /** Splitting loses nothing: the records joined are the lines joined. */
  lemma RecordsKeepText(lines: seq<string>, isMarker: string -> bool)
    ensures Concat(Records(lines, isMarker)) == Concat(lines)
  {
    var b := Cuts(lines, isMarker, |lines|);
    if |b| > 1 {
      AscendingSnoc(b, |lines|, |lines|);
      PiecesConcat(lines, b + [|lines|]);
      assert lines[0..|lines|] == lines;
    } else if Concat(lines) != "" {
      ConcatSingle(Concat(lines));
    }
  }

  /** A piece over a non-empty gap opens with the line at its cut. */
  lemma PieceOpensWith(lines: seq<string>, c: seq<nat>, j: nat)
    requires Ascending(c, |lines|) && j + 1 < |c| && c[j] < c[j + 1]
    ensures StartsWith(Pieces(lines, c)[j], lines[c[j]])
  {
    PiecesAt(lines, c, j);
    var part := lines[c[j]..c[j + 1]];
    ConcatCons(part);
    var first := lines[c[j]];
    assert part[0] == first;
    assert (first + Concat(part[1..]))[..|first|] == first;
  }

  /** Every record after the first opens with a marker line of the log, and so is not empty. */
  lemma RecordsOpenWithMarker(lines: seq<string>, isMarker: string -> bool, j: nat)
    requires forall line :: isMarker(line) ==> line != ""
    requires 1 <= j < |Records(lines, isMarker)|
    ensures exists i :: 0 <= i < |lines| && isMarker(lines[i]) && StartsWith(Records(lines, isMarker)[j], lines[i])
    ensures Records(lines, isMarker)[j] != ""
  {
    var b := Cuts(lines, isMarker, |lines|);
    assert |b| > 1;
    var c := b + [|lines|];
    AscendingSnoc(b, |lines|, |lines|);
    assert Records(lines, isMarker) == Pieces(lines, c);
    var i := b[j];
    assert c[j] == i && i < c[j + 1];
    PieceOpensWith(lines, c, j);
    var rec := Records(lines, isMarker)[j];
    assert isMarker(lines[i]) && StartsWith(rec, lines[i]);
    assert lines[i] != "";
  }

  /** When the first line is a marker line, it is the first marker position. */
  lemma {:induction false} MarkerIdxFirst(lines: seq<string>, isMarker: string -> bool)
    requires lines != [] && isMarker(lines[0])
    ensures MarkerIdx(lines, isMarker) != [] && MarkerIdx(lines, isMarker)[0] == 0
  {
    if |lines| > 1 {
      var prefix := lines[..|lines| - 1];
      assert prefix[0] == lines[0];
      MarkerIdxFirst(prefix, isMarker);
    }
  }

  /** Without marker lines there are no marker positions. */
  lemma {:induction false} MarkerIdxNone(lines: seq<string>, isMarker: string -> bool)
    requires forall i :: 0 <= i < |lines| ==> !isMarker(lines[i])
    ensures MarkerIdx(lines, isMarker) == []
  {
    if lines != [] {
      var prefix := lines[..|lines| - 1];
      assert forall i :: 0 <= i < |prefix| ==> prefix[i] == lines[i];
      MarkerIdxNone(prefix, isMarker);
    }
  }

  /** A log whose first line is a marker line yields an empty first record. */
  lemma FirstLineMarkerGivesEmptyRecord(lines: seq<string>, isMarker: string -> bool)
    requires lines != [] && isMarker(lines[0])
    ensures |Records(lines, isMarker)| >= 2 && Records(lines, isMarker)[0] == ""
  {
    assert lines[..|lines|] == lines;
    MarkerIdxFirst(lines, isMarker);
    var b := Cuts(lines, isMarker, |lines|);
    assert b[1] == 0;
    var c := b + [|lines|];
    AscendingSnoc(b, |lines|, |lines|);
    PiecesAt(lines, c, 0);
    assert lines[0..0] == [];
  }

  /** So one marker line on its own splits into two records, the first empty. */
  lemma SingleMarkerLine(line: string, isMarker: string -> bool)
    requires isMarker(line)
    ensures Records([line], isMarker) == ["", line]
  {
    var lines := [line];
    assert lines[..1] == lines;
    MarkerIdxFirst(lines, isMarker);
    var b := Cuts(lines, isMarker, 1);
    assert b == [0, 0];
    var c := b + [1];
    AscendingSnoc(b, 1, 1);
    var r := Pieces(lines, c);
    PiecesAt(lines, c, 0);
    PiecesAt(lines, c, 1);
    assert lines[0..0] == [] && lines[0..1] == lines;
    ConcatSingle(line);
    assert r == ["", line];
  }

  /** A log with no marker line is one record, or none when its text is empty. */
  lemma NoMarkerOneRecord(lines: seq<string>, isMarker: string -> bool)
    requires forall i :: 0 <= i < |lines| ==> !isMarker(lines[i])
    ensures Records(lines, isMarker) == if Concat(lines) == "" then [] else [Concat(lines)]
  {
    assert lines[..|lines|] == lines;
    MarkerIdxNone(lines, isMarker);
  }
}
