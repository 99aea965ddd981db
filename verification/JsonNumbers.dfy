/** Number tokens of section 6 of RFC 8259, and the scan of core/src/json.c that finds them. */
module JsonNumbers {
  import opened Bytes
  import opened JsonText

  // ---------------------------------------------------------------------
  // Numbers: a token read alone and a token read in front of other text.
  // ---------------------------------------------------------------------

  /** Text after which no number continues. */
  predicate StopsNumber(post: seq<byte>)
  {
    post == [] ||
    !(IsDigit(post[0]) || post[0] == 46 || post[0] == 101 || post[0] == 69 || post[0] == 43 || post[0] == 45)
  }

  lemma {:induction false} DigitsExtend(x: seq<byte>, post: seq<byte>)
    requires StopsNumber(post)
    ensures Digits(x + post) == Digits(x) + post
  {
    if x == [] {
      assert x + post == post;
    } else if IsDigit(x[0]) {
      DigitsExtend(x[1..], post);
      assert (x + post)[1..] == x[1..] + post;
    }
  }

  lemma {:induction false} DigitsTruncate(x: seq<byte>, tail: seq<byte>, r: seq<byte>)
    requires Digits(x + tail) == r + tail
    ensures Digits(x) == r
  {
    if x == [] {
      assert x + tail == tail;
      assert |r| == 0;
    } else if IsDigit(x[0]) {
      assert (x + tail)[1..] == x[1..] + tail;
      DigitsTruncate(x[1..], tail, r);
    } else {
      SameFront(x, r, tail);
    }
  }

  lemma SameFront(a: seq<byte>, b: seq<byte>, tail: seq<byte>)
    requires a + tail == b + tail
    ensures a == b
  {
    assert |a| == |b|;
    assert a == (a + tail)[..|a|] && b == (b + tail)[..|b|];
  }

  lemma SomeDigitsExtend(x: seq<byte>, post: seq<byte>)
    requires StopsNumber(post) && SomeDigits(x).Some?
    ensures SomeDigits(x + post) == Some(SomeDigits(x).value + post)
  {
    DigitsExtend(x, post);
  }

  lemma SomeDigitsTruncate(x: seq<byte>, tail: seq<byte>, r: seq<byte>)
    requires SomeDigits(x + tail) == Some(r + tail)
    ensures SomeDigits(x) == Some(r)
  {
    DigitsTruncate(x, tail, r);
  }

  lemma FractionExtend(x: seq<byte>, post: seq<byte>)
    requires StopsNumber(post) && FractionRest(x).Some?
    ensures FractionRest(x + post) == Some(FractionRest(x).value + post)
  {
    if x != [] && x[0] == 46 {
      SomeDigitsExtend(x[1..], post);
      assert (x + post)[1..] == x[1..] + post;
    } else if x == [] {
      assert x + post == post;
    }
  }

  lemma FractionTruncate(x: seq<byte>, tail: seq<byte>, r: seq<byte>)
    requires FractionRest(x + tail) == Some(r + tail)
    ensures FractionRest(x) == Some(r)
  {
    if x != [] && x[0] == 46 {
      assert (x + tail)[1..] == x[1..] + tail;
      SomeDigitsTruncate(x[1..], tail, r);
    } else if x == [] {
      assert x + tail == tail;
      SameFront(x, r, tail);
    } else {
      SameFront(x, r, tail);
    }
  }

  lemma ExponentExtend(x: seq<byte>, post: seq<byte>)
    requires StopsNumber(post) && ExponentRest(x).Some?
    ensures ExponentRest(x + post) == Some(ExponentRest(x).value + post)
  {
    if x != [] && (x[0] == 101 || x[0] == 69) {
      assert (x + post)[1..] == x[1..] + post;
      if |x| > 1 && (x[1] == 43 || x[1] == 45) {
        assert (x + post)[2..] == x[2..] + post;
        SomeDigitsExtend(x[2..], post);
      } else {
        SomeDigitsExtend(x[1..], post);
        assert (x + post)[1] == x[1];
      }
    } else if x == [] {
      assert x + post == post;
    }
  }

  lemma ExponentTruncate(x: seq<byte>, tail: seq<byte>, r: seq<byte>)
    requires ExponentRest(x + tail) == Some(r + tail)
    ensures ExponentRest(x) == Some(r)
  {
    if x != [] && (x[0] == 101 || x[0] == 69) {
      var s := x + tail;
      assert s[1..] == x[1..] + tail;
      if |s| > 1 && (s[1] == 43 || s[1] == 45) {
        assert |x| > 1;
        assert s[2..] == x[2..] + tail && x[1] == s[1];
        SomeDigitsTruncate(x[2..], tail, r);
      } else {
        SomeDigitsTruncate(x[1..], tail, r);
      }
    } else if x == [] {
      assert x + tail == tail;
      SameFront(x, r, tail);
    } else {
      SameFront(x, r, tail);
    }
  }

  lemma IntegerExtend(x: seq<byte>, post: seq<byte>)
    requires StopsNumber(post) && IntegerRest(x).Some?
    ensures IntegerRest(x + post) == Some(IntegerRest(x).value + post)
  {
    if x[0] == 48 {
      assert (x + post)[1..] == x[1..] + post;
    } else {
      DigitsExtend(x, post);
    }
  }

  lemma IntegerTruncate(x: seq<byte>, tail: seq<byte>, r: seq<byte>)
    requires IntegerRest(x + tail) == Some(r + tail)
    ensures IntegerRest(x) == Some(r)
  {
    if x != [] && x[0] == 48 {
      assert (x + tail)[1..] == x[1..] + tail;
      SameFront(x[1..], r, tail);
    } else {
      DigitsTruncate(x, tail, r);
    }
  }

  /** A number followed by text that cannot continue it is read in full. */
  lemma NumberExtend(x: seq<byte>, post: seq<byte>)
    requires StopsNumber(post) && NumberRest(x).Some?
    ensures NumberRest(x + post) == Some(NumberRest(x).value + post)
  {
    var a := SignRest(x);
    assert SignRest(x + post) == a + post by {
      if x[0] == 45 { assert (x + post)[1..] == x[1..] + post; }
    }
    IntegerExtend(a, post);
    FractionExtend(IntegerRest(a).value, post);
    ExponentExtend(FractionRest(IntegerRest(a).value).value, post);
  }

  /** Every phase leaves a suffix of what it was given. */
  predicate IsSuffix(r: seq<byte>, s: seq<byte>)
  {
    |r| <= |s| && s[|s| - |r|..] == r
  }

  lemma SuffixOf(s: seq<byte>, k: nat)
    requires k <= |s|
    ensures IsSuffix(s[k..], s)
  {
  }

  lemma SuffixTransitive(a: seq<byte>, b: seq<byte>, c: seq<byte>)
    requires IsSuffix(a, b) && IsSuffix(b, c)
    ensures IsSuffix(a, c)
  {
    assert c[|c| - |a|..] == c[|c| - |b|..][|b| - |a|..];
  }

  lemma {:induction false} DigitsSuffix(s: seq<byte>)
    ensures IsSuffix(Digits(s), s)
  {
    if s != [] && IsDigit(s[0]) {
      DigitsSuffix(s[1..]);
      SuffixOf(s, 1);
      SuffixTransitive(Digits(s), s[1..], s);
    }
  }

  lemma IntegerSuffix(s: seq<byte>)
    requires IntegerRest(s).Some?
    ensures IsSuffix(IntegerRest(s).value, s)
  {
    SuffixOf(s, 1);
    DigitsSuffix(s);
  }

  lemma FractionSuffix(s: seq<byte>)
    requires FractionRest(s).Some?
    ensures IsSuffix(FractionRest(s).value, s)
  {
    if s != [] && s[0] == 46 {
      SuffixOf(s, 1);
      DigitsSuffix(s[1..]);
      SuffixTransitive(Digits(s[1..]), s[1..], s);
    }
  }

  lemma ExponentSuffix(s: seq<byte>)
    requires ExponentRest(s).Some?
    ensures IsSuffix(ExponentRest(s).value, s)
  {
    if s != [] && (s[0] == 101 || s[0] == 69) {
      var k := if |s| > 1 && (s[1] == 43 || s[1] == 45) then 2 else 1;
      SuffixOf(s, k);
      DigitsSuffix(s[k..]);
      SuffixTransitive(Digits(s[k..]), s[k..], s);
    }
  }

  function Chop(s: seq<byte>, r: seq<byte>): (x: seq<byte>)
    requires IsSuffix(r, s)
    ensures s == x + r
  {
    s[..|s| - |r|]
  }

  lemma SignTruncate(s: seq<byte>, rest: seq<byte>)
    requires IsSuffix(rest, SignRest(s)) && |rest| < |SignRest(s)|
    ensures IsSuffix(rest, s) && SignRest(Chop(s, rest)) == Chop(SignRest(s), rest)
  {
    if s[0] == 45 {
      SuffixOf(s, 1);
      SuffixTransitive(rest, s[1..], s);
      assert Chop(s, rest)[1..] == Chop(s[1..], rest);
    }
  }

  lemma PhaseSuffixes(s: seq<byte>)
    requires NumberRest(s).Some?
    ensures var rest, t := NumberRest(s).value, SignRest(s);
            var a := IntegerRest(t).value;
            var b := FractionRest(a).value;
            |rest| < |t| && IsSuffix(rest, t) && IsSuffix(rest, a) && IsSuffix(rest, b)
  {
    var rest, t := NumberRest(s).value, SignRest(s);
    var a := IntegerRest(t).value;
    var b := FractionRest(a).value;
    IntegerSuffix(t);
    IntegerShorter(t);
    FractionSuffix(a);
    ExponentSuffix(b);
    SuffixTransitive(rest, b, a);
    SuffixTransitive(rest, a, t);
  }

  lemma NumberByPhases(x: seq<byte>, a: seq<byte>, b: seq<byte>, r: seq<byte>)
    requires IntegerRest(SignRest(x)) == Some(a) && FractionRest(a) == Some(b) && ExponentRest(b) == Some(r)
    ensures NumberRest(x) == Some(r)
  {
  }

  /** The token cut out of the text is a number by itself. */
  lemma TokenIsNumber(s: seq<byte>)
    requires NumberRest(s).Some?
    ensures NumberRest(s[..|s| - |NumberRest(s).value|]) == Some([])
    ensures IsSuffix(NumberRest(s).value, s)
  {
    var rest, t := NumberRest(s).value, SignRest(s);
    var a := IntegerRest(t).value;
    var b := FractionRest(a).value;
    PhaseSuffixes(s);
    SignTruncate(s, rest);
    var tx, ax, bx := Chop(t, rest), Chop(a, rest), Chop(b, rest);
    assert IntegerRest(tx) == Some(ax) by { IntegerTruncate(tx, rest, ax); }
    assert FractionRest(ax) == Some(bx) by { FractionTruncate(ax, rest, bx); }
    assert ExponentRest(bx) == Some([]) by {
      assert [] + rest == rest;
      ExponentTruncate(bx, rest, []);
    }
    NumberByPhases(Chop(s, rest), ax, bx, []);
  }

  lemma IntegerShorter(t: seq<byte>)
    requires IntegerRest(t).Some?
    ensures |IntegerRest(t).value| < |t|
  {
  }

  // ---------------------------------------------------------------------
  // The grammar of numbers.
  // ---------------------------------------------------------------------

  predicate AllDigits(s: seq<byte>)
  {
    s != [] && forall i :: 0 <= i < |s| ==> IsDigit(s[i])
  }

  predicate IsWhole(s: seq<byte>)
  {
    s == [48] || (AllDigits(s) && s[0] != 48)
  }

  predicate IsFraction(s: seq<byte>)
  {
    s == [] || (s[0] == 46 && AllDigits(s[1..]))
  }

  predicate IsExponent(s: seq<byte>)
  {
    s == [] ||
    ((s[0] == 101 || s[0] == 69)
     && (AllDigits(s[1..]) || (|s| > 1 && (s[1] == 43 || s[1] == 45) && AllDigits(s[2..]))))
  }

  predicate Parts(t: seq<byte>, minus: seq<byte>, whole: seq<byte>, fraction: seq<byte>, exponent: seq<byte>)
  {
    && (minus == [] || minus == [45]) && IsWhole(whole) && IsFraction(fraction) && IsExponent(exponent)
    && t == minus + (whole + (fraction + exponent))
  }

  /** `[ minus ] int [ frac ] [ exp ]`. */
  ghost predicate IsNumber(t: seq<byte>)
  {
    exists minus, whole, fraction, exponent :: Parts(t, minus, whole, fraction, exponent)
  }

  lemma {:induction false} DigitsThrough(s: seq<byte>, post: seq<byte>)
    requires forall i :: 0 <= i < |s| ==> IsDigit(s[i])
    requires post != [] ==> !IsDigit(post[0])
    ensures Digits(s + post) == post
  {
    if s == [] {
      assert s + post == post;
    } else {
      assert (s + post)[1..] == s[1..] + post;
      DigitsThrough(s[1..], post);
    }
  }

  lemma WholeThrough(whole: seq<byte>, post: seq<byte>)
    requires IsWhole(whole) && (post != [] ==> !IsDigit(post[0]))
    ensures IntegerRest(whole + post) == Some(post)
  {
    if whole == [48] {
      assert (whole + post)[1..] == post;
    } else {
      DigitsThrough(whole, post);
    }
  }

  lemma FractionThrough(fraction: seq<byte>, post: seq<byte>)
    requires IsFraction(fraction) && (post != [] ==> !IsDigit(post[0]) && post[0] != 46)
    ensures FractionRest(fraction + post) == Some(post)
  {
    if fraction == [] {
      assert fraction + post == post;
    } else {
      assert (fraction + post)[1..] == fraction[1..] + post;
      DigitsThrough(fraction[1..], post);
    }
  }

  lemma ExponentThrough(exponent: seq<byte>)
    requires IsExponent(exponent)
    ensures ExponentRest(exponent) == Some([])
  {
    if exponent != [] {
      var digits := if AllDigits(exponent[1..]) then exponent[1..] else exponent[2..];
      DigitsThrough(digits, []);
      assert digits + [] == digits;
      if AllDigits(exponent[1..]) { assert exponent[1..][0] == exponent[1]; }
    }
  }

  lemma {:induction false} DigitsTaken(s: seq<byte>)
    ensures IsSuffix(Digits(s), s) && forall i :: 0 <= i < |s| - |Digits(s)| ==> IsDigit(s[i])
  {
    DigitsSuffix(s);
    if s != [] && IsDigit(s[0]) {
      DigitsTaken(s[1..]);
      assert forall i :: 1 <= i < |s| ==> s[i] == s[1..][i - 1];
    }
  }

  lemma SomeDigitsTaken(s: seq<byte>)
    requires SomeDigits(s) == Some([])
    ensures AllDigits(s)
  {
    DigitsTaken(s);
  }

  lemma WholeTaken(s: seq<byte>)
    requires IntegerRest(s).Some?
    ensures IsSuffix(IntegerRest(s).value, s) && IsWhole(Chop(s, IntegerRest(s).value))
  {
    IntegerSuffix(s);
    if s[0] != 48 { DigitsTaken(s); }
  }

  lemma FractionTaken(s: seq<byte>)
    requires FractionRest(s).Some?
    ensures IsSuffix(FractionRest(s).value, s) && IsFraction(Chop(s, FractionRest(s).value))
  {
    FractionSuffix(s);
    if s != [] && s[0] == 46 {
      var digits, rest := s[1..], FractionRest(s).value;
      DigitsTaken(digits);
      var x := Chop(s, rest);
      assert |rest| < |digits| && x[0] == 46;
      forall i | 0 <= i < |x[1..]| ensures IsDigit(x[1..][i]) {
        assert x[1..][i] == digits[i];
      }
    }
  }

  lemma ExponentTaken(s: seq<byte>)
    requires ExponentRest(s) == Some([])
    ensures IsExponent(s)
  {
    if s != [] {
      SomeDigitsTaken(if |s| > 1 && (s[1] == 43 || s[1] == 45) then s[2..] else s[1..]);
    }
  }

  lemma PartsScan(t: seq<byte>, minus: seq<byte>, whole: seq<byte>, fraction: seq<byte>, exponent: seq<byte>)
    requires Parts(t, minus, whole, fraction, exponent)
    ensures NumberRest(t) == Some([])
  {
    var a := fraction + exponent;
    WholeThrough(whole, a);
    FractionThrough(fraction, exponent);
    ExponentThrough(exponent);
    assert whole[0] != 45;
    assert SignRest(t) == whole + a by {
      if minus == [45] { assert t[1..] == whole + a; } else { assert t == whole + a; }
    }
  }

  lemma ScanHasParts(t: seq<byte>)
    requires NumberRest(t) == Some([])
    ensures IsNumber(t)
  {
    var signed := SignRest(t);
    var a := IntegerRest(signed).value;
    var b := FractionRest(a).value;
    WholeTaken(signed);
    FractionTaken(a);
    ExponentTaken(b);
    PartsJoin(t, signed, a, b);
  }

  lemma PartsJoin(t: seq<byte>, signed: seq<byte>, a: seq<byte>, b: seq<byte>)
    requires t != [] && signed == SignRest(t) && IsSuffix(a, signed) && IsSuffix(b, a)
    requires IsWhole(Chop(signed, a)) && IsFraction(Chop(a, b)) && IsExponent(b)
    ensures IsNumber(t)
  {
    var minus: seq<byte> := if t[0] == 45 then [45] else [];
    var whole, fraction := Chop(signed, a), Chop(a, b);
    assert t == minus + signed;
    assert Parts(t, minus, whole, fraction, b);
  }

  /** The scan takes a text in full exactly when it is a number. */
  lemma NumberIsScanned(t: seq<byte>)
    ensures NumberRest(t) == Some([]) <==> IsNumber(t)
  {
    if NumberRest(t) == Some([]) { ScanHasParts(t); }
    if IsNumber(t) {
      var minus, whole, fraction, exponent :| Parts(t, minus, whole, fraction, exponent);
      PartsScan(t, minus, whole, fraction, exponent);
    }
  }
}
