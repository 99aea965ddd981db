/** The search of one file by a grep worker (core/src/rpc.c). */
module GrepFile {
  import opened Bytes
  import opened Utf8

  const NEWLINE: byte := 10
  const TEXT_LIMIT: nat := 512

  datatype Match = Match(path: CText, line: nat, text: seq<byte>)

  // ---------------------------------------------------------------------
  // Lines.
  // ---------------------------------------------------------------------

  /** The lines of a file; the one after the last newline counts, even when empty. */
  function Lines(data: seq<byte>): (lines: seq<seq<byte>>)
    ensures |lines| >= 1
  {
    if data == [] then [[]]
    else
      var before, b := Lines(data[..|data| - 1]), data[|data| - 1];
      if b == NEWLINE then before + [[]] else before[..|before| - 1] + [before[|before| - 1] + [b]]
  }

  /** Lines with a newline between each and the next. */
  function Rejoined(lines: seq<seq<byte>>): seq<byte>
    requires |lines| >= 1
  {
    if |lines| == 1 then lines[0] else Rejoined(lines[..|lines| - 1]) + [NEWLINE] + lines[|lines| - 1]
  }

  /** The lines are the pieces between newlines: put together they are the file. */
  lemma {:induction false} LinesRejoin(data: seq<byte>)
    ensures Rejoined(Lines(data)) == data
    decreases |data|
  {
    if data != [] {
      var front, b := data[..|data| - 1], data[|data| - 1];
      var before := Lines(front);
      LinesRejoin(front);
      assert data == front + [b];
      if b == NEWLINE {
        assert (before + [[]])[..|before|] == before;
      } else {
        LastExtends(before, b);
      }
    }
  }

  lemma LastExtends(lines: seq<seq<byte>>, b: byte)
    requires |lines| >= 1
    ensures Rejoined(lines[..|lines| - 1] + [lines[|lines| - 1] + [b]]) == Rejoined(lines) + [b]
  {
    var now := lines[..|lines| - 1] + [lines[|lines| - 1] + [b]];
    assert now[..|now| - 1] == lines[..|lines| - 1];
  }

  lemma {:induction false} NoNewlineInside(data: seq<byte>, i: nat)
    requires i < |Lines(data)|
    ensures NEWLINE !in Lines(data)[i]
    decreases |data|
  {
    if data != [] {
      var before := Lines(data[..|data| - 1]);
      if i < |before| {
        NoNewlineInside(data[..|data| - 1], i);
      }
    }
  }

  /** The lines of valid text are valid text. */
  lemma {:induction false} LinesAreText(data: seq<byte>, i: nat)
    requires IsText(data) && i < |Lines(data)|
    ensures IsText(Lines(data)[i])
  {
    LinesRejoin(data);
    PiecesAreText(Lines(data), i);
  }

  lemma {:induction false} PiecesAreText(lines: seq<seq<byte>>, i: nat)
    requires |lines| >= 1 && i < |lines| && IsText(Rejoined(lines))
    ensures IsText(lines[i])
    decreases |lines|
  {
    if |lines| > 1 {
      var front, last := lines[..|lines| - 1], lines[|lines| - 1];
      var head, all := Rejoined(front), Rejoined(lines);
      assert all == head + ([NEWLINE] + last);
      TextSplits(all, |head|);
      assert all[..|head|] == head && all[|head|..] == [NEWLINE] + last;
      var tail := [NEWLINE] + last;
      assert FrontUnit(tail, 0);
      TextStep(tail, 0);
      assert tail[1..] == last;
      if i < |lines| - 1 {
        PiecesAreText(front, i);
        assert front[i] == lines[i];
      }
    }
  }

  // ---------------------------------------------------------------------
  // Matches.
  // ---------------------------------------------------------------------

  /** `strstr`, for a non-empty pattern. */
  ghost predicate Contains(line: seq<byte>, pattern: seq<byte>)
  {
    exists j: nat :: OccursAt(line, pattern, j)
  }

  /** What is shown of a matching line: 512 bytes at most, no sequence cut. */
  function Shown(line: seq<byte>): seq<byte>
  {
    if |line| <= TEXT_LIMIT then line else line[..BackTo(line, TEXT_LIMIT)]
  }

  /** The matches of the first lines of a file, in line order. */
  ghost function Hits(path: CText, pattern: seq<byte>, lines: seq<seq<byte>>): seq<Match>
  {
    if lines == [] then []
    else
      var last := lines[|lines| - 1];
      Hits(path, pattern, lines[..|lines| - 1])
      + if Contains(last, pattern) then [Match(path, |lines|, Shown(last))] else []
  }

  /** A line of the file is listed exactly when it contains the pattern, under its own number and
      with its own text. */
  lemma {:induction false} HitsAreLines(path: CText, pattern: seq<byte>, lines: seq<seq<byte>>, m: Match)
    ensures m in Hits(path, pattern, lines) <==>
              m.path == path && 1 <= m.line <= |lines| && Contains(lines[m.line - 1], pattern)
              && m.text == Shown(lines[m.line - 1])
    decreases |lines|
  {
    if lines != [] {
      HitsAreLines(path, pattern, lines[..|lines| - 1], m);
    }
  }

  /** Matches come in line order. */
  lemma {:induction false} HitsInOrder(path: CText, pattern: seq<byte>, lines: seq<seq<byte>>, i: nat, j: nat)
    requires i < j < |Hits(path, pattern, lines)|
    ensures Hits(path, pattern, lines)[i].line < Hits(path, pattern, lines)[j].line
    decreases |lines|
  {
    var front := lines[..|lines| - 1];
    var before := Hits(path, pattern, front);
    if j < |before| {
      HitsInOrder(path, pattern, front, i, j);
    } else {
      HitsAreLines(path, pattern, front, before[i]);
    }
  }

  /** The text of a match in a valid file is itself valid, and within three bytes of as long as
      the limit allows. */
  lemma ShownIsText(line: seq<byte>)
    requires IsText(line)
    ensures IsText(Shown(line)) && Shown(line) <= line && |Shown(line)| <= TEXT_LIMIT
    ensures |line| > TEXT_LIMIT ==> |Shown(line)| >= TEXT_LIMIT - 3
  {
    if |line| > TEXT_LIMIT {
      CutIsText(line, TEXT_LIMIT);
    }
  }

  lemma AllHitsAreText(path: CText, pattern: seq<byte>, data: seq<byte>, m: Match)
    requires IsText(data) && m in Hits(path, pattern, Lines(data))
    ensures IsText(m.text) && |m.text| <= TEXT_LIMIT
  {
    HitsAreLines(path, pattern, Lines(data), m);
    LinesAreText(data, m.line - 1);
    ShownIsText(Lines(data)[m.line - 1]);
  }

  // ---------------------------------------------------------------------
  // The worker's loops.
  // ---------------------------------------------------------------------

  lemma PieceOfPiece(s: seq<byte>, start: nat, length: nat, j: nat, n: nat)
    requires start + length <= |s| && j + n <= length
    ensures s[start..start + length][j..j + n] == s[start + j..start + j + n]
  {
    var piece, direct := s[start..start + length][j..j + n], s[start + j..start + j + n];
    forall k | 0 <= k < n ensures piece[k] == direct[k] {
      assert piece[k] == s[start..start + length][j + k];
    }
  }

  method FindIn(buffer: seq<byte>, start: nat, length: nat, pattern: seq<byte>) returns (found: bool)
    requires start + length <= |buffer| && |pattern| <= length
    ensures found <==> Contains(buffer[start..start + length], pattern)
  {
    ghost var line := buffer[start..start + length];
    var j := 0;
    while j + |pattern| <= length
      invariant forall k: nat :: k < j ==> !OccursAt(line, pattern, k)
    {
      PieceOfPiece(buffer, start, length, j, |pattern|);
      if buffer[start + j..start + j + |pattern|] == pattern {
        assert OccursAt(line, pattern, j);
        return true;
      }
      j := j + 1;
    }
    return false;
  }

  /** One line, `length` bytes from `start`. */
  method SearchLine(path: CText, buffer: seq<byte>, start: nat, length: nat, pattern: seq<byte>, number: nat)
    returns (matches: seq<Match>)
    requires start + length < |buffer| && pattern != [] && !Continuation(buffer[start + length])
    ensures var line := buffer[start..start + length];
            matches == if Contains(line, pattern) then [Match(path, number, Shown(line))] else []
  {
    ghost var line := buffer[start..start + length];
    matches := [];
    if |pattern| <= length {
      var found := FindIn(buffer, start, length, pattern);
      if found {
        var tlen := if length > TEXT_LIMIT then TEXT_LIMIT else length;
        tlen := CutBack(buffer, start, tlen);
        CutInLine(buffer, start, length);
        matches := [Match(path, number, buffer[start..start + tlen])];
      }
    }
  }

  /** Stepping back in the buffer is stepping back in the line. */
  lemma CutInLine(buffer: seq<byte>, start: nat, length: nat)
    requires start + length < |buffer| && !Continuation(buffer[start + length])
    ensures var line := buffer[start..start + length];
            var tlen := BackTo(buffer[start..], if length > TEXT_LIMIT then TEXT_LIMIT else length);
            buffer[start..start + tlen] == Shown(line)
  {
    var line := buffer[start..start + length];
    if length > TEXT_LIMIT {
      SameCut(buffer[start..], line, TEXT_LIMIT);
    }
  }

  lemma {:induction false} SameCut(a: seq<byte>, b: seq<byte>, limit: nat)
    requires limit < |a| && limit < |b| && forall i :: 0 <= i <= limit ==> a[i] == b[i]
    ensures BackTo(a, limit) == BackTo(b, limit)
    decreases limit
  {
    if limit > 0 {
      SameCut(a, b, limit - 1);
    }
  }

  /** The lines of a file read up to `i`, the last of them begun at `start`. */
  ghost predicate ReadUpTo(data: seq<byte>, i: nat, start: nat, number: nat)
    requires i <= |data|
  {
    start <= i && number == |Lines(data[..i])| && Lines(data[..i])[number - 1] == data[start..i]
  }

  lemma ReadOne(data: seq<byte>, i: nat, start: nat, number: nat)
    requires i < |data| && ReadUpTo(data, i, start, number)
    ensures data[i] == NEWLINE ==>
              ReadUpTo(data, i + 1, i + 1, number + 1) && Lines(data[..i + 1])[..number] == Lines(data[..i])
    ensures data[i] != NEWLINE ==>
              ReadUpTo(data, i + 1, start, number)
                  && Lines(data[..i + 1])[..number - 1] == Lines(data[..i])[..number - 1]
  {
    var upTo := data[..i + 1];
    assert upTo[..|upTo| - 1] == data[..i] && upTo[|upTo| - 1] == data[i];
    assert data[start..i + 1] == data[start..i] + [data[i]];
  }

  /** What the search of line number `number` adds. */
  lemma HitsStep(path: CText, pattern: seq<byte>, lines: seq<seq<byte>>, number: nat)
    requires 1 <= number <= |lines|
    ensures Hits(path, pattern, lines[..number]) ==
            Hits(path, pattern, lines[..number - 1])
            + if Contains(lines[number - 1], pattern) then [Match(path, number, Shown(lines[number - 1]))] else []
  {
    var upTo := lines[..number];
    assert upTo[..|upTo| - 1] == lines[..number - 1];
  }

  /** At the end of a line, the line is searched. */
  method CloseLine(path: CText, data: seq<byte>, start: nat, end: nat, pattern: seq<byte>, number: nat,
                   matches: seq<Match>)
    returns (next: seq<Match>)
    requires end <= |data| && ReadUpTo(data, end, start, number) && (end == |data| || data[end] == NEWLINE)
    requires pattern != [] && number >= 1 && matches == Hits(path, pattern, Lines(data[..end])[..number - 1])
    ensures next == Hits(path, pattern, Lines(data[..end]))
  {
    // The reader puts a terminator after the data.
    var buffer := data + [0];
    var more := SearchLine(path, buffer, start, end - start, pattern, number);
    assert buffer[start..start + (end - start)] == data[start..end];
    var lines := Lines(data[..end]);
    HitsStep(path, pattern, lines, number);
    assert lines[..number] == lines;
    next := matches + more;
  }

  /** All matches of one file. */
  method SearchFile(path: CText, data: seq<byte>, pattern: seq<byte>) returns (matches: seq<Match>)
    requires pattern != []
    ensures matches == Hits(path, pattern, Lines(data))
  {
    var start, number, i := 0, 1, 0;
    matches := [];
    while i < |data|
      invariant 0 <= i <= |data| && ReadUpTo(data, i, start, number)
      invariant matches == Hits(path, pattern, Lines(data[..i])[..number - 1])
    {
      ReadOne(data, i, start, number);
      if data[i] == NEWLINE {
        matches := CloseLine(path, data, start, i, pattern, number, matches);
        number, start := number + 1, i + 1;
      }
      i := i + 1;
    }
    matches := CloseLine(path, data, start, |data|, pattern, number, matches);
    assert data[..|data|] == data;
  }
}
