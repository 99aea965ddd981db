/** The driver of core/src/symbol_extract.c: it runs a line matcher over a file and turns the matches
    into records.  The matchers themselves are a parameter. */
module SymbolDriver {
  import opened Bytes
  import opened Utf8
  import opened GrepFile

  const MAX_LINE: nat := 2000
  const SIGNATURE_LIMIT: nat := 120

  /** What a matcher finds in a line: where the name stands, and the kind of symbol. */
  datatype Found = Found(nameOff: nat, nameLen: nat, kind: nat)

  /** A match before its line is looked up again. */
  datatype Raw = Raw(line: nat, found: Found)

  datatype Record = Record(name: seq<byte>, kind: nat, signature: seq<byte>, startLine: nat, endLine: int)

  type Matcher = seq<byte> -> Option<Found>

  /** A matcher points into its line. */
  ghost predicate InLine(m: Matcher)
  {
    forall l: seq<byte> :: m(l).Some? ==> m(l).value.nameOff + m(l).value.nameLen <= |l|
  }

  // ---------------------------------------------------------------------
  // What is found.
  // ---------------------------------------------------------------------

  /** The match of one line; overlong lines are passed over. */
  function LineMatch(m: Matcher, line: seq<byte>): Option<Found>
  {
    if |line| <= MAX_LINE then m(line) else None
  }

  /** All matches of the first lines of a file. */
  function Matches(m: Matcher, lines: seq<seq<byte>>): seq<Raw>
  {
    if lines == [] then []
    else
      var found := LineMatch(m, lines[|lines| - 1]);
      Matches(m, lines[..|lines| - 1]) + if found.Some? then [Raw(|lines|, found.value)] else []
  }

  function Limited(raw: seq<Raw>, max: nat): seq<Raw>
  {
    if |raw| <= max then raw else raw[..max]
  }

  /** Every match is of an existing line, and they come in line order. */
  lemma {:induction false} MatchesAreLines(m: Matcher, lines: seq<seq<byte>>, i: nat)
    requires i < |Matches(m, lines)|
    ensures var r := Matches(m, lines)[i];
            1 <= r.line <= |lines| && LineMatch(m, lines[r.line - 1]) == Some(r.found)
    ensures i + 1 < |Matches(m, lines)| ==> Matches(m, lines)[i].line < Matches(m, lines)[i + 1].line
    decreases |lines|
  {
    var front := lines[..|lines| - 1];
    if i < |Matches(m, front)| {
      MatchesAreLines(m, front, i);
    }
  }

  predicate IsBlank(b: byte)
  {
    b == 32 || b == 9 || b == 13 || b == 12 || b == 11
  }

  function TrimFront(s: seq<byte>): seq<byte>
  {
    if s != [] && IsBlank(s[0]) then TrimFront(s[1..]) else s
  }

  function TrimBack(s: seq<byte>): seq<byte>
  {
    if s != [] && IsBlank(s[|s| - 1]) then TrimBack(s[..|s| - 1]) else s
  }

  /** The trimmed line, cut to 120 bytes between UTF-8 sequences. */
  function Signature(line: seq<byte>): seq<byte>
  {
    var s := TrimBack(TrimFront(line));
    if |s| <= SIGNATURE_LIMIT then s else s[..BackTo(s, SIGNATURE_LIMIT)]
  }

  lemma {:induction false} TrimFrontIsText(s: seq<byte>)
    requires IsText(s)
    ensures IsText(TrimFront(s))
    decreases |s|
  {
    if s != [] && IsBlank(s[0]) {
      assert FrontUnit(s, 0);
      TextStep(s, 0);
      TrimFrontIsText(s[1..]);
    }
  }

  lemma {:induction false} TrimBackIsText(s: seq<byte>)
    requires IsText(s)
    ensures IsText(TrimBack(s))
    decreases |s|
  {
    if s != [] && IsBlank(s[|s| - 1]) {
      TextSplits(s, |s| - 1);
      TrimBackIsText(s[..|s| - 1]);
    }
  }

  /** The signature of a line of valid text is valid text of at most 120 bytes. */
  lemma SignatureIsText(line: seq<byte>)
    requires IsText(line)
    ensures IsText(Signature(line)) && |Signature(line)| <= SIGNATURE_LIMIT
  {
    TrimFrontIsText(line);
    TrimBackIsText(TrimFront(line));
    var s := TrimBack(TrimFront(line));
    if |s| > SIGNATURE_LIMIT {
      CutIsText(s, SIGNATURE_LIMIT);
    }
  }

  function LineAt(lines: seq<seq<byte>>, number: nat): seq<byte>
  {
    if 1 <= number <= |lines| then lines[number - 1] else []
  }

  function NameIn(line: seq<byte>, found: Found): seq<byte>
  {
    if found.nameOff + found.nameLen <= |line| then line[found.nameOff..found.nameOff + found.nameLen] else []
  }

  /** The record of one match: its line's name and signature, reaching to the line before the next
      match, or to the end of the file. */
  function RecordAt(raw: seq<Raw>, lines: seq<seq<byte>>, i: nat): Record
    requires i < |raw|
  {
    var line := LineAt(lines, raw[i].line);
    Record(NameIn(line, raw[i].found), raw[i].found.kind, Signature(line), raw[i].line,
           if i + 1 < |raw| then raw[i + 1].line - 1 else |lines|)
  }

  /** What a file gives: the records of its first matches. */
  function Extracted(m: Matcher, lines: seq<seq<byte>>, max: nat): (records: seq<Record>)
    ensures |records| == |Limited(Matches(m, lines), max)|
  {
    var raw := Limited(Matches(m, lines), max);
    seq(|raw|, i requires 0 <= i < |raw| => RecordAt(raw, lines, i))
  }

  lemma RawIsSound(m: Matcher, lines: seq<seq<byte>>, max: nat, i: nat)
    requires i < |Limited(Matches(m, lines), max)|
    ensures var r := Limited(Matches(m, lines), max)[i];
            1 <= r.line <= |lines| && m(lines[r.line - 1]) == Some(r.found)
  {
    MatchesAreLines(m, lines, i);
  }

  /** The line ranges of the records follow one another without gap or overlap, from the first match
      to the end of the file. */
  lemma RangesTile(m: Matcher, lines: seq<seq<byte>>, max: nat, i: nat)
    requires i < |Extracted(m, lines, max)|
    ensures var r := Extracted(m, lines, max);
            && 1 <= r[i].startLine <= r[i].endLine <= |lines|
            && (if i + 1 < |r| then r[i + 1].startLine == r[i].endLine + 1 else r[i].endLine == |lines|)
  {
    MatchesAreLines(m, lines, i);
    RawIsSound(m, lines, max, i);
    if i + 1 < |Extracted(m, lines, max)| {
      RawIsSound(m, lines, max, i + 1);
    }
  }

  /** A record's kind, name and signature are those of the line. */
  predicate Tells(m: Matcher, line: seq<byte>, r: Record)
  {
    var found := m(line);
    found.Some? && r.kind == found.value.kind && r.name == NameIn(line, found.value) && r.signature == Signature(line)
  }

  lemma NamesStand(m: Matcher, lines: seq<seq<byte>>, max: nat, i: nat)
    requires i < |Extracted(m, lines, max)|
    ensures var r := Extracted(m, lines, max)[i]; 1 <= r.startLine <= |lines| && Tells(m, lines[r.startLine - 1], r)
  {
    RawIsSound(m, lines, max, i);
  }

  lemma PointsInside(m: Matcher, line: seq<byte>)
    requires InLine(m) && m(line).Some?
    ensures m(line).value.nameOff + m(line).value.nameLen <= |line|
  {
  }

  // ---------------------------------------------------------------------
  // Lines while reading.
  // ---------------------------------------------------------------------

  lemma TakeLess<T>(s: seq<T>, t: seq<T>, n: nat, m: nat)
    requires n <= m <= |s| && m <= |t| && s[..m] == t[..m]
    ensures s[..n] == t[..n]
  {
    assert s[..m][..n] == s[..n] && t[..m][..n] == t[..n];
  }

  lemma LinesStep(text: seq<byte>, i: nat)
    requires i < |text|
    ensures var was, now := Lines(text[..i]), Lines(text[..i + 1]);
            |was| <= |now| && now[..|was| - 1] == was[..|was| - 1]
  {
    var next := text[..i + 1];
    assert next[..|next| - 1] == text[..i] && next[|next| - 1] == text[i];
  }

  /** The lines completed by the time `i` bytes are read stay as they are. */
  lemma {:induction false} LinesPrefix(text: seq<byte>, i: nat, n: nat)
    requires i <= |text| && n == |Lines(text[..i])|
    ensures n <= |Lines(text)| && Lines(text)[..n - 1] == Lines(text[..i])[..n - 1]
    decreases |text| - i
  {
    if i == |text| {
      assert text[..i] == text;
    } else {
      var now := Lines(text[..i + 1]);
      LinesStep(text, i);
      LinesPrefix(text, i + 1, |now|);
      TakeLess(Lines(text), now, n - 1, |now| - 1);
    }
  }

  /** The line begun at `start` is complete where a newline or the end of the file comes. */
  lemma LineClosed(text: seq<byte>, end: nat, start: nat, number: nat)
    requires end <= |text| && ReadUpTo(text, end, start, number) && (end == |text| || text[end] == NEWLINE)
    ensures number <= |Lines(text)| && Lines(text)[number - 1] == text[start..end]
    ensures Lines(text)[..number - 1] == Lines(text[..end])[..number - 1]
    ensures end == |text| ==> |Lines(text)| == number
  {
    if end == |text| {
      assert text[..end] == text;
    } else {
      ReadOne(text, end, start, number);
      LinesPrefix(text, end + 1, number + 1);
      LinesPrefix(text, end, number);
      assert Lines(text)[number - 1] == Lines(text)[..number][number - 1];
    }
  }

  lemma MatchesStep(m: Matcher, lines: seq<seq<byte>>, n: nat)
    requires 1 <= n <= |lines|
    ensures var found := LineMatch(m, lines[n - 1]);
            Matches(m, lines[..n]) ==
            Matches(m, lines[..n - 1]) + if found.Some? then [Raw(n, found.value)] else []
  {
    assert lines[..n][..n - 1] == lines[..n - 1];
  }

  /** The matches of the first lines come first. */
  lemma {:induction false} MatchesPrefix(m: Matcher, lines: seq<seq<byte>>, n: nat)
    requires n <= |lines|
    ensures Matches(m, lines[..n]) <= Matches(m, lines)
    decreases |lines| - n
  {
    if n == |lines| {
      assert lines[..n] == lines;
    } else {
      MatchesStep(m, lines, n + 1);
      MatchesPrefix(m, lines, n + 1);
    }
  }

  // ---------------------------------------------------------------------
  // The driver.
  // ---------------------------------------------------------------------

  method TryLine(m: Matcher, text: seq<byte>, start: nat, end: nat) returns (found: Option<Found>)
    requires start <= end <= |text|
    ensures found == LineMatch(m, text[start..end])
  {
    found := None;
    if end - start <= MAX_LINE {
      found := m(text[start..end]);
    }
  }

  /** Enough matches, or all of them. */
  lemma FirstMatches(raw: seq<Raw>, all: seq<Raw>, max: nat)
    requires raw <= all && |raw| <= max && (|raw| == max || raw == all)
    ensures raw == Limited(all, max)
  {
  }

  /** At the end of a line, the line is matched. */
  method CloseLine(m: Matcher, text: seq<byte>, start: nat, end: nat, number: nat, raw: seq<Raw>)
    returns (next: seq<Raw>)
    requires end <= |text| && ReadUpTo(text, end, start, number) && (end == |text| || text[end] == NEWLINE)
    requires 1 <= number <= |Lines(text)| + 1 && raw == Matches(m, Lines(text)[..number - 1])
    ensures number <= |Lines(text)| && next == Matches(m, Lines(text)[..number]) && |next| <= |raw| + 1
    ensures end == |text| ==> number == |Lines(text)|
  {
    LineClosed(text, end, start, number);
    MatchesStep(m, Lines(text), number);
    var found := TryLine(m, text, start, end);
    next := if found.Some? then raw + [Raw(number, found.value)] else raw;
  }

  /** The first `i` bytes have been read, and the lines that ended in them matched. */
  ghost predicate Scanned(m: Matcher, text: seq<byte>, i: nat, start: nat, number: nat, raw: seq<Raw>)
  {
    && i <= |text| && ReadUpTo(text, i, start, number)
    && 1 <= number <= |Lines(text)| + 1 && raw == Matches(m, Lines(text)[..number - 1])
  }

  lemma ScanStarts(m: Matcher, text: seq<byte>)
    ensures Scanned(m, text, 0, 0, 1, [])
  {
    assert text[..0] == [] && text[0..0] == [];
    assert Lines(text)[..0] == [];
  }

  method ScanByte(m: Matcher, text: seq<byte>, i: nat, start: nat, number: nat, raw: seq<Raw>)
    returns (start': nat, number': nat, raw': seq<Raw>)
    requires i < |text| && Scanned(m, text, i, start, number, raw)
    ensures Scanned(m, text, i + 1, start', number', raw') && |raw'| <= |raw| + 1
  {
    ReadOne(text, i, start, number);
    if text[i] != NEWLINE { return start, number, raw; }
    raw' := CloseLine(m, text, start, i, number, raw);
    return i + 1, number + 1, raw';
  }

  /** The first pass: matches in line order until there are enough. */
  method FindMatches(m: Matcher, text: seq<byte>, max: nat) returns (raw: seq<Raw>)
    requires max >= 1
    ensures raw == Limited(Matches(m, Lines(text)), max)
  {
    raw := [];
    var start, number, i := 0, 1, 0;
    ScanStarts(m, text);
    while i < |text| && |raw| < max
      invariant |raw| <= max && Scanned(m, text, i, start, number, raw)
      decreases |text| - i
    {
      start, number, raw := ScanByte(m, text, i, start, number, raw);
      i := i + 1;
    }
    ghost var done := number - 1;
    if |raw| < max {
      raw := CloseLine(m, text, start, i, number, raw);
      done := number;
      assert Lines(text)[..done] == Lines(text);
    }
    MatchesPrefix(m, Lines(text), done);
    FirstMatches(raw, Matches(m, Lines(text)), max);
  }

  /** The line of a match is looked up again by counting newlines. */
  method FindLine(text: seq<byte>, number: nat) returns (start: nat, end: nat)
    requires 1 <= number <= |Lines(text)|
    ensures start <= end <= |text| && text[start..end] == Lines(text)[number - 1]
  {
    var n := 1;
    start := 0;
    ghost var from := 0;
    while n < number
      invariant 1 <= n <= number && start <= |text| && ReadUpTo(text, start, from, n) && (n == number ==> from == start)
      decreases |text| - start
    {
      MoreToRead(text, start, from, n);
      ReadOne(text, start, from, n);
      if text[start] == NEWLINE {
        n := n + 1;
        from := start + 1;
      }
      start := start + 1;
    }
    end := LineEnd(text, start, number);
    LineClosed(text, end, start, number);
  }

  method LineEnd(text: seq<byte>, start: nat, ghost number: nat) returns (end: nat)
    requires start <= |text| && ReadUpTo(text, start, start, number)
    ensures start <= end <= |text| && ReadUpTo(text, end, start, number)
    ensures end == |text| || text[end] == NEWLINE
  {
    end := start;
    while end < |text| && text[end] != NEWLINE
      invariant start <= end <= |text| && ReadUpTo(text, end, start, number)
    {
      ReadOne(text, end, start, number);
      end := end + 1;
    }
  }

  lemma MoreToRead(text: seq<byte>, i: nat, start: nat, n: nat)
    requires i <= |text| && ReadUpTo(text, i, start, n)
    ensures i == |text| ==> n == |Lines(text)|
  {
    if i == |text| {
      assert text[..i] == text;
    }
  }

  lemma DropFirst(text: seq<byte>, from: nat, end: nat)
    requires from < end <= |text|
    ensures text[from..end][0] == text[from] && text[from..end][1..] == text[from + 1..end]
  {
  }

  lemma DropLast(text: seq<byte>, from: nat, end: nat)
    requires from < end <= |text|
    ensures var s := text[from..end]; s[|s| - 1] == text[end - 1] && s[..|s| - 1] == text[from..end - 1]
  {
  }

  method SkipFront(text: seq<byte>, start: nat, end: nat) returns (from: nat)
    requires start <= end <= |text|
    ensures start <= from <= end && text[from..end] == TrimFront(text[start..end])
  {
    from := start;
    while from < end && IsBlank(text[from])
      invariant start <= from <= end && TrimFront(text[from..end]) == TrimFront(text[start..end])
    {
      DropFirst(text, from, end);
      from := from + 1;
    }
  }

  method SkipBack(text: seq<byte>, from: nat, end: nat) returns (to: nat)
    requires from <= end <= |text|
    ensures from <= to <= end && text[from..to] == TrimBack(text[from..end])
  {
    to := end;
    while to > from && IsBlank(text[to - 1])
      invariant from <= to <= end && TrimBack(text[from..to]) == TrimBack(text[from..end])
    {
      DropLast(text, from, to);
      to := to - 1;
    }
  }

  /** Two pointers move towards each other over the blanks of a line. */
  method Trim(text: seq<byte>, start: nat, end: nat) returns (from: nat, to: nat)
    requires start <= end <= |text|
    ensures start <= from <= to <= end && text[from..to] == TrimBack(TrimFront(text[start..end]))
  {
    from := SkipFront(text, start, end);
    to := SkipBack(text, from, end);
  }

  method MakeSignature(text: seq<byte>, start: nat, end: nat) returns (signature: seq<byte>)
    requires start <= end <= |text|
    ensures signature == Signature(text[start..end])
  {
    var from, to := Trim(text, start, end);
    var n := to - from;
    if n > SIGNATURE_LIMIT {
      n := CutBack(text, from, SIGNATURE_LIMIT);
      SameCut(text[from..], text[from..to], SIGNATURE_LIMIT);
      assert text[from..to][..n] == text[from..from + n];
    }
    return text[from..from + n];
  }

  /** The record of one match. */
  method MakeRecord(text: seq<byte>, raw: seq<Raw>, i: nat, total: nat) returns (record: Record)
    requires i < |raw| && total == |Lines(text)| && 1 <= raw[i].line <= total
    requires raw[i].found.nameOff + raw[i].found.nameLen <= |Lines(text)[raw[i].line - 1]|
    ensures record == RecordAt(raw, Lines(text), i)
  {
    var start, end := FindLine(text, raw[i].line);
    var signature := MakeSignature(text, start, end);
    var from, length := raw[i].found.nameOff, raw[i].found.nameLen;
    Piece(text, start, end, from, length);
    record := Record(text[start + from..start + from + length], raw[i].found.kind, signature, raw[i].line,
                     if i + 1 < |raw| then raw[i + 1].line - 1 else total);
  }

  /** The second pass: a record for each match. */
  method MakeRecords(text: seq<byte>, raw: seq<Raw>, total: nat) returns (records: seq<Record>)
    requires total == |Lines(text)|
    requires forall i :: 0 <= i < |raw| ==>
               1 <= raw[i].line <= total
               && raw[i].found.nameOff + raw[i].found.nameLen <= |Lines(text)[raw[i].line - 1]|
    ensures |records| == |raw| && forall i :: 0 <= i < |raw| ==> records[i] == RecordAt(raw, Lines(text), i)
  {
    records := [];
    var i := 0;
    while i < |raw|
      invariant 0 <= i <= |raw| && |records| == i
      invariant forall k :: 0 <= k < i ==> records[k] == RecordAt(raw, Lines(text), k)
    {
      var record := MakeRecord(text, raw, i, total);
      records := records + [record];
      i := i + 1;
    }
  }

  /** `owc_symbol_extract`. */
  method Extract(m: Matcher, text: seq<byte>, max: nat) returns (records: seq<Record>)
    requires InLine(m)
    ensures records == Extracted(m, Lines(text), max)
  {
    if max == 0 {
      return [];
    }
    var total := CountLines(text);
    var raw := FindMatches(m, text, max);
    ghost var lines := Lines(text);
    forall i | 0 <= i < |raw|
      ensures 1 <= raw[i].line <= |lines| && raw[i].found.nameOff + raw[i].found.nameLen <= |lines[raw[i].line - 1]|
    {
      RawIsSound(m, lines, max, i);
      PointsInside(m, lines[raw[i].line - 1]);
    }
    records := MakeRecords(text, raw, total);
  }

  lemma Piece(s: seq<byte>, start: nat, end: nat, from: nat, length: nat)
    requires start <= end <= |s| && from + length <= end - start
    ensures s[start..end][from..from + length] == s[start + from..start + from + length]
  {
    PieceOfPiece(s, start, end - start, from, length);
  }

  /** One more than there are newlines. */
  method CountLines(text: seq<byte>) returns (total: nat)
    ensures total == |Lines(text)|
  {
    total := 1;
    var i := 0;
    while i < |text|
      invariant 0 <= i <= |text| && total == |Lines(text[..i])|
    {
      assert text[..i + 1][..i] == text[..i];
      if text[i] == NEWLINE {
        total := total + 1;
      }
      i := i + 1;
    }
    assert text[..i] == text;
  }
}
