/** The field parser of server/src/cron-scheduler.ts. */
module CronFields {
  import opened Bytes

  // ---------------------------------------------------------------------
  // Splitting.
  // ---------------------------------------------------------------------

  /** `String.prototype.split` with one character. */
  function Split(s: string, c: char): (parts: seq<string>)
    ensures |parts| >= 1
  {
    if s == [] then [[]]
    else
      var rest := Split(s[1..], c);
      if s[0] == c then [[]] + rest else [[s[0]] + rest[0]] + rest[1..]
  }

  function Joined(parts: seq<string>, c: char): string
    requires |parts| >= 1
  {
    if |parts| == 1 then parts[0] else parts[0] + [c] + Joined(parts[1..], c)
  }

  /** The parts are what stands between the separators. */
  lemma {:induction false} SplitJoins(s: string, c: char)
    ensures Joined(Split(s, c), c) == s
    ensures forall p :: p in Split(s, c) ==> c !in p
    decreases |s|
  {
    if s != [] {
      SplitJoins(s[1..], c);
      var rest := Split(s[1..], c);
      if s[0] == c {
        assert Split(s, c)[1..] == rest;
        assert s == [c] + s[1..];
      } else {
        var first := [s[0]] + rest[0];
        assert Split(s, c)[1..] == rest[1..];
        assert rest[0] in rest;
        assert s == [s[0]] + s[1..];
        assert Joined(Split(s, c), c) == [s[0]] + Joined(rest, c);
      }
    }
  }

  // ---------------------------------------------------------------------
  // Items.
  // ---------------------------------------------------------------------

  predicate IsDigit(c: char)
  {
    '0' <= c <= '9'
  }

  /** `\\d+`. */
  predicate IsNumber(s: string)
  {
    s != [] && forall i :: 0 <= i < |s| ==> IsDigit(s[i])
  }

  function DigitOf(c: char): nat
    requires IsDigit(c)
  {
    c as int - '0' as int
  }

  function Value(s: string): nat
    requires forall i :: 0 <= i < |s| ==> IsDigit(s[i])
  {
    if s == [] then 0 else Value(s[..|s| - 1]) * 10 + DigitOf(s[|s| - 1])
  }

  /** An item's first and last value and its step. */
  datatype Span = Span(lo: nat, hi: nat, step: nat)

  /** `*`, `a`, `a-b`; a single value with a step runs to the end. */
  function RangeOf(s: string, min: nat, max: nat, stepped: bool): Option<(nat, nat)>
  {
    var bounds := Split(s, '-');
    if s == "*" then Some((min, max))
    else if |bounds| > 2 || !IsNumber(bounds[0]) || (|bounds| == 2 && !IsNumber(bounds[1])) then None
    else
      var lo := Value(bounds[0]);
      var hi := if |bounds| == 2 then Value(bounds[1]) else if stepped then max else lo;
      if lo < min || hi > max || lo > hi then None else Some((lo, hi))
  }

  function SpanOf(part: string, min: nat, max: nat): Option<Span>
  {
    var segments := Split(part, '/');
    if part == [] || |segments| > 2 then None
    else if |segments| == 2 && (!IsNumber(segments[1]) || Value(segments[1]) < 1) then None
    else
      match RangeOf(segments[0], min, max, |segments| == 2)
      case None => None
      case Some((lo, hi)) => Some(Span(lo, hi, if |segments| == 2 then Value(segments[1]) else 1))
  }

  /** The k-th step from the start of an item. */
  function Nth(span: Span, k: nat): nat
  {
    if k == 0 then span.lo else Nth(span, k - 1) + span.step
  }

  /** The values an item stands for: its first, then every step-th, up to its last. */
  ghost predicate Covers(span: Span, x: int)
  {
    x <= span.hi && exists k: nat :: Nth(span, k) == x
  }

  ghost predicate PartCovers(part: string, min: nat, max: nat, x: int)
  {
    SpanOf(part, min, max).Some? && Covers(SpanOf(part, min, max).value, x)
  }

  /** A field is well formed when every item of its list is. */
  predicate WellFormed(spec: string, min: nat, max: nat)
  {
    forall part :: part in Split(spec, ',') ==> SpanOf(part, min, max).Some?
  }

  ghost predicate Named(spec: string, min: nat, max: nat, x: int)
  {
    exists part :: part in Split(spec, ',') && PartCovers(part, min, max, x)
  }

  /** The values of a field; in the day-of-week field, 7 stands for 0. */
  ghost predicate FieldHas(spec: string, min: nat, max: nat, x: int)
  {
    if min == 0 && max == 7 then (x != 7 && Named(spec, min, max, x)) || (x == 0 && Named(spec, min, max, 7))
    else Named(spec, min, max, x)
  }

  lemma SpanBounds(part: string, min: nat, max: nat)
    requires SpanOf(part, min, max).Some? && min <= max
    ensures var s := SpanOf(part, min, max).value; min <= s.lo <= s.hi <= max && s.step >= 1
    ensures PartCovers(part, min, max, SpanOf(part, min, max).value.lo)
    ensures forall x :: PartCovers(part, min, max, x) ==> min <= x <= max
  {
    var s := SpanOf(part, min, max).value;
    assert Nth(s, 0) == s.lo;
    forall x | PartCovers(part, min, max, x) ensures s.lo <= x {
      var k: nat :| Nth(s, k) == x;
      NthGrows(s, 0, k);
    }
  }

  lemma {:induction false} NthGrows(span: Span, j: nat, k: nat)
    requires j <= k
    ensures Nth(span, j) <= Nth(span, k)
    ensures j < k && span.step >= 1 ==> Nth(span, j) < Nth(span, k)
    decreases k
  {
    if j < k {
      NthGrows(span, j, k - 1);
    }
  }

  // ---------------------------------------------------------------------
  // The parser.
  // ---------------------------------------------------------------------

  predicate Increasing(values: seq<int>)
  {
    forall i, j :: 0 <= i < j < |values| ==> values[i] < values[j]
  }

  /** The members of a set from `from` up to `upTo`, in order. */
  function Sorted(values: set<int>, from: int, upTo: int): seq<int>
    decreases values, upTo - from
  {
    if from > upTo then []
    else (if from in values then [from] else []) + Sorted(values, from + 1, upTo)
  }

  lemma {:induction false} SortedIs(values: set<int>, from: int, upTo: int)
    ensures var s := Sorted(values, from, upTo);
            && Increasing(s) && (forall x :: x in s <==> x in values && from <= x <= upTo)
    decreases upTo - from
  {
    if from <= upTo {
      SortedIs(values, from + 1, upTo);
      var rest, s := Sorted(values, from + 1, upTo), Sorted(values, from, upTo);
      forall i, j | 0 <= i < j < |s| ensures s[i] < s[j] {
        if from in values {
          assert s[j] == rest[j - 1] && rest[j - 1] in rest;
        }
      }
    }
  }

  /** The values of one item are added one by one. */
  method AddSpan(values: set<int>, span: Span) returns (more: set<int>)
    requires span.step >= 1
    ensures forall x :: x in more <==> x in values || Covers(span, x)
  {
    more := values;
    var value := span.lo;
    ghost var k: nat := 0;
    while value <= span.hi
      invariant value == Nth(span, k)
      invariant forall j: nat :: j < k ==> Nth(span, j) <= span.hi
      invariant forall x :: x in more <==> x in values || exists j: nat :: j < k && Nth(span, j) == x
      decreases span.hi - value
    {
      ghost var before := more;
      more := more + {value};
      assert Nth(span, k) == value;
      forall x ensures x in more <==> x in values || exists j: nat :: j < k + 1 && Nth(span, j) == x {
        assert x in before <==> x in values || exists j: nat :: j < k && Nth(span, j) == x;
      }
      value := value + span.step;
      k := k + 1;
    }
    forall x ensures x in more <==> x in values || Covers(span, x) {
      if Covers(span, x) {
        var j: nat :| Nth(span, j) == x;
        if j >= k {
          NthGrows(span, k, j);
        }
      }
    }
  }

  /** The values named by the first `i` parts, all of them well formed. */
  ghost predicate Gathered(parts: seq<string>, i: nat, min: nat, max: nat, values: set<int>)
    requires i <= |parts|
  {
    && (forall k :: 0 <= k < i ==> SpanOf(parts[k], min, max).Some?)
    && forall x :: x in values <==> exists k :: 0 <= k < i && PartCovers(parts[k], min, max, x)
  }

  lemma GatherOne(parts: seq<string>, i: nat, min: nat, max: nat, before: set<int>, after: set<int>)
    requires i < |parts| && Gathered(parts, i, min, max, before) && SpanOf(parts[i], min, max).Some?
    requires forall x :: x in after <==> x in before || Covers(SpanOf(parts[i], min, max).value, x)
    ensures Gathered(parts, i + 1, min, max, after)
  {
    forall x ensures x in after <==> exists k :: 0 <= k < i + 1 && PartCovers(parts[k], min, max, x) {
      assert x in before <==> exists k :: 0 <= k < i && PartCovers(parts[k], min, max, x);
    }
  }

  /** In the day-of-week field 7 is replaced by 0. */
  lemma SundayIsZero(spec: string, min: nat, max: nat, named: set<int>, values: set<int>)
    requires forall x :: x in named <==> Named(spec, min, max, x)
    requires forall x :: x in named ==> min <= x <= max
    requires values == if min == 0 && max == 7 && 7 in named then named - {7} + {0} else named
    requires named != {}
    ensures forall x :: x in values <==> FieldHas(spec, min, max, x)
    ensures values != {} && forall x :: x in values ==> min <= x <= max
  {
    forall x ensures x in values <==> FieldHas(spec, min, max, x) {
      assert x in named <==> Named(spec, min, max, x);
      assert 7 in named <==> Named(spec, min, max, 7);
    }
    if 7 in named && values != named {
      assert 0 in values;
    }
  }

  /** `parseField`.  It accepts exactly the well-formed fields, and gives their values in strictly
      ascending order, at least one. */
  method ParseField(spec: string, min: nat, max: nat) returns (result: Option<seq<int>>)
    requires min <= max
    ensures result.Some? <==> WellFormed(spec, min, max)
    ensures result.Some? ==> Increasing(result.value) && result.value != []
    ensures result.Some? ==> forall x :: x in result.value <==> FieldHas(spec, min, max, x)
  {
    var values: set<int> := {};
    var parts := Split(spec, ',');
    var i := 0;
    while i < |parts|
      invariant 0 <= i <= |parts| && Gathered(parts, i, min, max, values)
    {
      var span := SpanOf(parts[i], min, max);
      if span.None? {
        assert parts[i] in parts;
        return None;
      }
      SpanBounds(parts[i], min, max);
      ghost var before := values;
      values := AddSpan(values, span.value);
      GatherOne(parts, i, min, max, before, values);
      i := i + 1;
    }
    AllNamed(spec, min, max, values);
    ghost var named := values;
    if min == 0 && max == 7 && 7 in values {
      values := values - {7} + {0};
    }
    SundayIsZero(spec, min, max, named, values);
    SortedIs(values, min, max);
    return Some(Sorted(values, min, max));
  }

  /** The set gathered part by part is the set of values the field names. */
  lemma AllNamed(spec: string, min: nat, max: nat, values: set<int>)
    requires min <= max
    requires Gathered(Split(spec, ','), |Split(spec, ',')|, min, max, values)
    ensures WellFormed(spec, min, max)
    ensures forall x :: x in values <==> Named(spec, min, max, x)
    ensures forall x :: x in values ==> min <= x <= max
    ensures values != {}
  {
    var parts := Split(spec, ',');
    forall x ensures x in values <==> Named(spec, min, max, x) {
      if Named(spec, min, max, x) {
        var part :| part in parts && PartCovers(part, min, max, x);
        var k :| 0 <= k < |parts| && parts[k] == part;
      }
    }
    forall x | x in values ensures min <= x <= max {
      var k :| 0 <= k < |parts| && PartCovers(parts[k], min, max, x);
      SpanBounds(parts[k], min, max);
    }
    SpanBounds(parts[0], min, max);
    assert SpanOf(parts[0], min, max).value.lo in values;
  }

  // ---------------------------------------------------------------------
  // The whole expression.
  // ---------------------------------------------------------------------

  const MAX_LENGTH: nat := 100

  /** What `\s` matches and `trim` removes. */
  predicate IsSpace(c: char)
  {
    c in {' ', '\t', '\n', '\r', '\U{0B}', '\U{0C}', '\U{A0}', '\U{1680}', '\U{2028}', '\U{2029}', '\U{202F}',
          '\U{205F}',
          '\U{3000}', '\U{FEFF}'} || '\U{2000}' <= c <= '\U{200A}'
  }

  /** The leading run without space. */
  function FirstWord(s: string): (w: string)
    ensures |w| <= |s|
  {
    if s == [] || IsSpace(s[0]) then [] else [s[0]] + FirstWord(s[1..])
  }

  function Words(s: string): seq<string>
    decreases |s|
  {
    if s == [] then []
    else if IsSpace(s[0]) then Words(s[1..])
    else [FirstWord(s)] + Words(s[|FirstWord(s)|..])
  }

  predicate Blank(s: string)
  {
    forall i :: 0 <= i < |s| ==> IsSpace(s[i])
  }

  predicate Dense(s: string)
  {
    s != [] && forall i :: 0 <= i < |s| ==> !IsSpace(s[i])
  }

  /** `words` are the runs without white space in `s`, in order; all around them is white space. */
  ghost predicate Runs(s: string, words: seq<string>)
    decreases |words|
  {
    if words == [] then Blank(s)
    else exists gap: string, rest: string :: RunsFrom(s, words, gap, rest) && Runs(rest, words[1..])
  }

  ghost predicate RunsFrom(s: string, words: seq<string>, gap: string, rest: string)
    requires words != []
  {
    s == gap + words[0] + rest && Blank(gap) && Dense(words[0]) && (rest != [] ==> IsSpace(rest[0]))
  }

  lemma {:induction false} FirstWordIs(w: string, rest: string)
    requires forall i :: 0 <= i < |w| ==> !IsSpace(w[i])
    requires rest != [] ==> IsSpace(rest[0])
    ensures FirstWord(w + rest) == w
    decreases |w|
  {
    if w == [] {
      EmptyJoins(rest);
    } else {
      FirstWordIs(w[1..], rest);
      assert (w + rest)[1..] == w[1..] + rest;
      assert w == [w[0]] + w[1..];
    }
  }

  lemma {:induction false} FirstWordEnds(s: string)
    ensures var w := FirstWord(s);
            w <= s && (forall i :: 0 <= i < |w| ==> !IsSpace(w[i])) && (|w| < |s| ==> IsSpace(s[|w|]))
    decreases |s|
  {
    if s != [] && !IsSpace(s[0]) {
      FirstWordEnds(s[1..]);
    }
  }

  lemma {:induction false} SkipBlank(gap: string, s: string)
    requires Blank(gap)
    ensures Words(gap + s) == Words(s)
    decreases |gap|
  {
    if gap == [] {
      EmptyJoins(s);
    } else {
      SkipBlank(gap[1..], s);
      assert (gap + s)[1..] == gap[1..] + s;
    }
  }

  /** A word found after a gap. */
  lemma OneRun(s: string, words: seq<string>, gap: string, rest: string)
    requires words != [] && RunsFrom(s, words, gap, rest) && Words(rest) == words[1..]
    ensures Words(s) == words
  {
    var tail := words[0] + rest;
    Regroup(gap, words[0], rest);
    SkipBlank(gap, tail);
    FirstWordIs(words[0], rest);
    assert tail[|words[0]|..] == rest;
    HeadJoins(words);
  }

  lemma {:induction false} OnlyWords(s: string, words: seq<string>)
    requires Runs(s, words)
    ensures words == Words(s)
    decreases |words|
  {
    if words == [] {
      SkipBlank(s, []);
      EmptyJoins(s);
    } else {
      var gap: string, rest: string :| RunsFrom(s, words, gap, rest) && Runs(rest, words[1..]);
      OnlyWords(rest, words[1..]);
      OneRun(s, words, gap, rest);
    }
  }

  lemma LongerGap(s: string, words: seq<string>)
    requires s != [] && IsSpace(s[0]) && Runs(s[1..], words)
    ensures Runs(s, words)
  {
    HeadJoins(s);
    if words != [] {
      var gap: string, rest: string :| RunsFrom(s[1..], words, gap, rest) && Runs(rest, words[1..]);
      assert s == [s[0]] + gap + words[0] + rest;
      assert RunsFrom(s, words, [s[0]] + gap, rest);
    }
  }

  lemma {:induction false} WordsAreRuns(s: string)
    ensures Runs(s, Words(s))
    decreases |s|
  {
    if s != [] {
      if IsSpace(s[0]) {
        WordsAreRuns(s[1..]);
        LongerGap(s, Words(s[1..]));
      } else {
        var w := FirstWord(s);
        var rest, words := s[|w|..], Words(s);
        FirstWordEnds(s);
        WordsAreRuns(rest);
        assert words[0] == w && words[1..] == Words(rest);
        EmptyJoins(w);
        assert s == w + rest;
        assert RunsFrom(s, words, [], rest);
      }
    }
  }

  /** There is exactly one way to see an expression as runs without white space. */
  lemma {:induction false} RunsAreWords(s: string, words: seq<string>)
    ensures Runs(s, words) <==> words == Words(s)
  {
    WordsAreRuns(s);
    if Runs(s, words) {
      OnlyWords(s, words);
    }
  }

  datatype Fields = Fields(minute: seq<int>, hour: seq<int>, dayOfMonth: seq<int>, month: seq<int>, dayOfWeek: seq<int>,
                           domAny: bool, dowAny: bool)

  predicate Within(values: seq<int>, min: int, max: int)
  {
    values != [] && Increasing(values) && forall x :: x in values ==> min <= x <= max
  }

  /** What every parsed expression satisfies. */
  predicate Sound(f: Fields)
  {
    && Within(f.minute, 0, 59) && Within(f.hour, 0, 23) && Within(f.dayOfMonth, 1, 31) && Within(f.month, 1, 12)
    && Within(f.dayOfWeek, 0, 6) && (f.domAny <==> |f.dayOfMonth| == 31) && (f.dowAny <==> |f.dayOfWeek| == 7)
  }

  lemma NamedBounds(spec: string, min: nat, max: nat, x: int)
    requires min <= max && WellFormed(spec, min, max) && Named(spec, min, max, x)
    ensures min <= x <= max
  {
    var part :| part in Split(spec, ',') && PartCovers(part, min, max, x);
    SpanBounds(part, min, max);
  }

  lemma FieldBounds(spec: string, min: nat, max: nat)
    requires min <= max && WellFormed(spec, min, max)
    ensures forall x :: FieldHas(spec, min, max, x) ==> min <= x <= if min == 0 && max == 7 then 6 else max
  {
    forall x | Named(spec, min, max, x) ensures min <= x <= max {
      NamedBounds(spec, min, max, x);
    }
  }

  /** A field as long as its range holds the whole range: "unrestricted" means every value. */
  lemma {:induction false} FullMeansAll(values: seq<int>, min: int, max: int, i: nat)
    requires Within(values, min, max) && |values| == max - min + 1 && i < |values|
    ensures values[i] == min + i
  {
    AtLeast(values, min, i);
    AtMost(values, max, i);
  }

  lemma {:induction false} AtLeast(values: seq<int>, min: int, i: nat)
    requires Increasing(values) && i < |values| && forall x :: x in values ==> min <= x
    ensures values[i] >= min + i
    decreases i
  {
    assert values[i] in values;
    if i > 0 {
      AtLeast(values, min, i - 1);
    }
  }

  lemma {:induction false} AtMost(values: seq<int>, max: int, i: nat)
    requires Increasing(values) && i < |values| && forall x :: x in values ==> x <= max
    ensures values[i] <= max - (|values| - 1 - i)
    decreases |values| - i
  {
    assert values[i] in values;
    if i < |values| - 1 {
      AtMost(values, max, i + 1);
    }
  }

  ghost predicate Means(values: seq<int>, spec: string, min: nat, max: nat)
  {
    forall x :: x in values <==> FieldHas(spec, min, max, x)
  }

  /** Five well-formed fields. */
  predicate FiveFields(w: seq<string>)
  {
    && |w| == 5
    && WellFormed(w[0], 0, 59) && WellFormed(w[1], 0, 23) && WellFormed(w[2], 1, 31) && WellFormed(w[3], 1, 12)
    && WellFormed(w[4], 0, 7)
  }

  /** What the fields of an expression with the words `w` hold. */
  ghost predicate FieldsOf(f: Fields, w: seq<string>)
    requires FiveFields(w)
  {
    && Sound(f)
    && Means(f.minute, w[0], 0, 59) && Means(f.hour, w[1], 0, 23) && Means(f.dayOfMonth, w[2], 1, 31)
    && Means(f.month, w[3], 1, 12) && Means(f.dayOfWeek, w[4], 0, 7)
  }

  /** `parseCronExpression`. */
  method ParseExpression(expression: string) returns (result: Option<Fields>)
    ensures result.Some? <==> |expression| <= MAX_LENGTH && exists w :: Runs(expression, w) && FiveFields(w)
    ensures result.Some? ==> forall w :: Runs(expression, w) ==> FiveFields(w) && FieldsOf(result.value, w)
  {
    var w := Words(expression);
    forall v: seq<string> ensures Runs(expression, v) <==> v == w {
      RunsAreWords(expression, v);
    }
    assert Runs(expression, w);
    if |expression| > MAX_LENGTH || |w| != 5 {
      return None;
    }
    var minute := ParseField(w[0], 0, 59);
    if minute.None? { return None; }
    var hour := ParseField(w[1], 0, 23);
    if hour.None? { return None; }
    var dayOfMonth := ParseField(w[2], 1, 31);
    if dayOfMonth.None? { return None; }
    var month := ParseField(w[3], 1, 12);
    if month.None? { return None; }
    var dayOfWeek := ParseField(w[4], 0, 7);
    if dayOfWeek.None? { return None; }
    FieldBounds(w[0], 0, 59);
    FieldBounds(w[1], 0, 23);
    FieldBounds(w[2], 1, 31);
    FieldBounds(w[3], 1, 12);
    FieldBounds(w[4], 0, 7);
    return Some(Fields(minute.value, hour.value, dayOfMonth.value, month.value, dayOfWeek.value,
                       |dayOfMonth.value| == 31, |dayOfWeek.value| == 7));
  }
}
