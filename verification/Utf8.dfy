/** UTF-8 as core/src/fs.c validates it and core/src/json.c emits it, against
    sections 3 and 4 of RFC 3629. */
module Utf8 {
  import opened Bytes

  /** A Unicode scalar value other than U+0000, which no text of the executor may hold. */
  predicate IsScalar(c: int) {
    0 < c <= 0x10FFFF && !(0xD800 <= c <= 0xDFFF)
  }

  type scalar = c: int | 0 < c <= 0x10FFFF && !(0xD800 <= c <= 0xDFFF) witness 1

  function Octet(mark: byte, bits: int): (b: byte)
    requires 0 <= bits < 256 - mark
  {
    mark + bits
  }

  /** `push_utf8`: the octets of section 3 of RFC 3629. */
  function Encode(c: scalar): (s: seq<byte>)
  {
    if c <= 0x7F then [Octet(0, c)]
    else if c <= 0x7FF then [Octet(0xC0, c / 64), Octet(0x80, c % 64)]
    else if c <= 0xFFFF then [Octet(0xE0, c / 4096), Octet(0x80, c / 64 % 64), Octet(0x80, c % 64)]
    else [Octet(0xF0, c / 262144), Octet(0x80, c / 4096 % 64), Octet(0x80, c / 64 % 64), Octet(0x80, c % 64)]
  }

  /** The octets of one scalar value. */
  ghost predicate IsUnit(u: seq<byte>)
  {
    exists c: scalar :: u == Encode(c)
  }

  ghost predicate AllUnits(us: seq<seq<byte>>)
  {
    forall u :: u in us ==> IsUnit(u)
  }

  /** Valid text is a concatenation of encodings of scalar values. */
  ghost predicate IsText(s: seq<byte>)
  {
    exists us: seq<seq<byte>> :: AllUnits(us) && Flatten(us) == s
  }

  predicate Continuation(b: byte) {
    0x80 <= b < 0xC0
  }

  /** The number of continuation octets a lead octet announces. */
  function Trailing(b: byte): (k: Option<nat>)
  {
    if b < 0x80 then (if b == 0 then None else Some(0))
    else if 0xC2 <= b <= 0xDF then Some(1)
    else if 0xE0 <= b <= 0xEF then Some(2)
    else if 0xF0 <= b <= 0xF4 then Some(3)
    else None
  }

  /** The value bits carried by a lead octet. */
  function LeadBits(b: byte): nat
  {
    if b < 0x80 then b else if b < 0xE0 then b % 32 else if b < 0xF0 then b % 16 else b % 8
  }

  /** `d & 63`, the value bits of a continuation octet. */
  function LowBits(b: byte): nat
  {
    b % 64
  }

  /** The code point gathered from a lead octet and `k` continuation octets. */
  function Gather(s: seq<byte>, k: nat): nat
    requires k < |s|
  {
    if k == 0 then LeadBits(s[0]) else Gather(s, k - 1) * 64 + LowBits(s[k])
  }

  /** The check made after a whole sequence has been read. */
  predicate Acceptable(cp: nat, lead: byte)
  {
    && cp <= 0x10FFFF && !(0xD800 <= cp <= 0xDFFF) && cp >= 0x80
    && !(cp < 0x800 && lead >= 0xE0) && !(cp < 0x10000 && lead >= 0xF0)
  }

  /** One well-formed sequence of `k + 1` octets at the front of `s`. */
  predicate FrontUnit(s: seq<byte>, k: nat)
  {
    && k < |s| && Trailing(s[0]) == Some(k)
    && (forall j :: 1 <= j <= k ==> Continuation(s[j]))
    && (k > 0 ==> Acceptable(Gather(s, k), s[0]))
  }

  /** `Gather` written out. */
  lemma GatherOf(s: seq<byte>, k: nat)
    requires k < |s| && k <= 3
    ensures k == 1 ==> Gather(s, k) == LeadBits(s[0]) * 64 + LowBits(s[1])
    ensures k == 2 ==> Gather(s, k) == LeadBits(s[0]) * 4096 + LowBits(s[1]) * 64 + LowBits(s[2])
    ensures k == 3 ==>
              Gather(s, k) == LeadBits(s[0]) * 262144 + LowBits(s[1]) * 4096 + LowBits(s[2]) * 64 + LowBits(s[3])
  {
    if k >= 2 {
      assert Gather(s, 1) == LeadBits(s[0]) * 64 + LowBits(s[1]);
      assert Gather(s, 2) == Gather(s, 1) * 64 + LowBits(s[2]);
    }
  }

  /** A number is put together from its base-64 digits. */
  lemma Digits(c: nat)
    ensures c == c / 64 * 64 + c % 64
    ensures c / 64 == c / 4096 * 64 + c / 64 % 64
    ensures c / 4096 == c / 262144 * 64 + c / 4096 % 64
  {
  }

  lemma LastDigit(n: nat, d: nat)
    requires d < 64
    ensures (n * 64 + d) / 64 == n && (n * 64 + d) % 64 == d
  {
  }

  lemma DropDigits(n: nat)
    ensures n / 4096 == n / 64 / 64 && n / 262144 == n / 64 / 64 / 64
  {
  }

  lemma ThreeDigits(a: nat, b: nat, c: nat)
    requires b < 64 && c < 64
    ensures (a * 4096 + b * 64 + c) / 4096 == a
    ensures (a * 4096 + b * 64 + c) / 64 % 64 == b
    ensures (a * 4096 + b * 64 + c) % 64 == c
  {
    var n := (a * 64 + b) * 64 + c;
    assert n == a * 4096 + b * 64 + c;
    LastDigit(a * 64 + b, c);
    LastDigit(a, b);
    DropDigits(n);
  }

  lemma FourDigits(a: nat, b: nat, c: nat, d: nat)
    requires b < 64 && c < 64 && d < 64
    ensures (a * 262144 + b * 4096 + c * 64 + d) / 262144 == a
    ensures (a * 262144 + b * 4096 + c * 64 + d) / 4096 % 64 == b
    ensures (a * 262144 + b * 4096 + c * 64 + d) / 64 % 64 == c
    ensures (a * 262144 + b * 4096 + c * 64 + d) % 64 == d
  {
    var n := (a * 4096 + b * 64 + c) * 64 + d;
    assert n == a * 262144 + b * 4096 + c * 64 + d;
    LastDigit(a * 4096 + b * 64 + c, d);
    ThreeDigits(a, b, c);
    DropDigits(n);
    DropDigits(a * 4096 + b * 64 + c);
  }

  lemma EncodeIsUnit(c: scalar, rest: seq<byte>)
    ensures 1 <= |Encode(c)| <= 4
    ensures FrontUnit(Encode(c) + rest, |Encode(c)| - 1)
    ensures Gather(Encode(c) + rest, |Encode(c)| - 1) == c
  {
    var s := Encode(c) + rest;
    if c > 0xFFFF {
      assert s[0] == Encode(c)[0] && s[1] == Encode(c)[1] && s[2] == Encode(c)[2] && s[3] == Encode(c)[3];
      FourOctetsOf(s, c);
    } else if c > 0x7FF {
      assert s[0] == Encode(c)[0] && s[1] == Encode(c)[1] && s[2] == Encode(c)[2];
      ThreeOctetsOf(s, c);
    } else if c > 0x7F {
      assert s[0] == Encode(c)[0] && s[1] == Encode(c)[1];
      TwoOctetsOf(s, c);
    }
  }

  lemma TwoOctetsOf(s: seq<byte>, c: scalar)
    requires 0x7F < c <= 0x7FF && |s| >= 2
    requires s[0] == 0xC0 + c / 64 && s[1] == 0x80 + c % 64
    ensures FrontUnit(s, 1) && Gather(s, 1) == c
  {
    assert LeadBits(s[0]) == c / 64 && LowBits(s[1]) == c % 64;
    GatherOf(s, 1);
  }

  lemma ThreeOctetsOf(s: seq<byte>, c: scalar)
    requires 0x7FF < c <= 0xFFFF && |s| >= 3
    requires s[0] == 0xE0 + c / 4096 && s[1] == 0x80 + c / 64 % 64 && s[2] == 0x80 + c % 64
    ensures FrontUnit(s, 2) && Gather(s, 2) == c
  {
    Digits(c);
    assert c / 4096 < 16;
    assert LeadBits(s[0]) == c / 4096 && LowBits(s[1]) == c / 64 % 64 && LowBits(s[2]) == c % 64;
    GatherOf(s, 2);
  }

  lemma FourOctetsOf(s: seq<byte>, c: scalar)
    requires 0xFFFF < c && |s| >= 4
    requires s[0] == 0xF0 + c / 262144 && s[1] == 0x80 + c / 4096 % 64 && s[2] == 0x80 + c / 64 % 64
        && s[3] == 0x80 + c % 64
    ensures FrontUnit(s, 3) && Gather(s, 3) == c
  {
    Digits(c);
    assert c / 262144 < 5;
    assert LeadBits(s[0]) == c / 262144;
    assert LowBits(s[1]) == c / 4096 % 64 && LowBits(s[2]) == c / 64 % 64 && LowBits(s[3]) == c % 64;
    GatherOf(s, 3);
  }

  lemma UnitIsEncode(s: seq<byte>, k: nat)
    requires FrontUnit(s, k)
    ensures IsScalar(Gather(s, k)) && Encode(Gather(s, k)) == s[..k + 1]
  {
    if k == 1 {
      OfTwoOctets(s);
    } else if k == 2 {
      OfThreeOctets(s);
    } else if k == 3 {
      OfFourOctets(s);
    }
  }

  lemma ContinuationIs(b: byte)
    requires Continuation(b)
    ensures b == 0x80 + LowBits(b) && LowBits(b) < 64
  {
  }

  lemma LeadIs(b: byte)
    requires Trailing(b).Some?
    ensures Trailing(b).value == 1 ==> b == 0xC0 + LeadBits(b) && LeadBits(b) < 32
    ensures Trailing(b).value == 2 ==> b == 0xE0 + LeadBits(b) && LeadBits(b) < 16
    ensures Trailing(b).value == 3 ==> b == 0xF0 + LeadBits(b) && LeadBits(b) < 8
  {
  }

  lemma OfTwoOctets(s: seq<byte>)
    requires FrontUnit(s, 1)
    ensures IsScalar(Gather(s, 1)) && Encode(Gather(s, 1)) == s[..2]
  {
    GatherOf(s, 1);
    var c := Gather(s, 1);
    LeadIs(s[0]);
    ContinuationIs(s[1]);
    assert c / 64 == LeadBits(s[0]) && c % 64 == LowBits(s[1]);
    assert Encode(c) == [s[0], s[1]];
  }

  lemma OfThreeOctets(s: seq<byte>)
    requires FrontUnit(s, 2)
    ensures IsScalar(Gather(s, 2)) && Encode(Gather(s, 2)) == s[..3]
  {
    GatherOf(s, 2);
    LeadIs(s[0]);
    ContinuationIs(s[1]);
    ContinuationIs(s[2]);
    EncodeThree(LeadBits(s[0]), LowBits(s[1]), LowBits(s[2]));
    assert [s[0], s[1], s[2]] == s[..3];
  }

  lemma EncodeThree(a: nat, b: nat, c: nat)
    requires a < 16 && b < 64 && c < 64 && IsScalar(a * 4096 + b * 64 + c) && a * 4096 + b * 64 + c >= 0x800
    ensures Encode(a * 4096 + b * 64 + c) == [0xE0 + a, 0x80 + b, 0x80 + c]
  {
    ThreeDigits(a, b, c);
  }

  lemma OfFourOctets(s: seq<byte>)
    requires FrontUnit(s, 3)
    ensures IsScalar(Gather(s, 3)) && Encode(Gather(s, 3)) == s[..4]
  {
    GatherOf(s, 3);
    LeadIs(s[0]);
    ContinuationIs(s[1]);
    ContinuationIs(s[2]);
    ContinuationIs(s[3]);
    EncodeFour(LeadBits(s[0]), LowBits(s[1]), LowBits(s[2]), LowBits(s[3]));
    assert [s[0], s[1], s[2], s[3]] == s[..4];
  }

  lemma EncodeFour(a: nat, b: nat, c: nat, d: nat)
    requires a < 8 && b < 64 && c < 64 && d < 64
    requires 0x10000 <= a * 262144 + b * 4096 + c * 64 + d <= 0x10FFFF
    ensures Encode(a * 262144 + b * 4096 + c * 64 + d) == [0xF0 + a, 0x80 + b, 0x80 + c, 0x80 + d]
  {
    FourDigits(a, b, c, d);
  }

  lemma UnitFronts(u: seq<byte>, rest: seq<byte>)
    requires IsUnit(u)
    ensures 1 <= |u| <= 4 && FrontUnit(u + rest, |u| - 1)
  {
    var c: scalar :| u == Encode(c);
    EncodeIsUnit(c, rest);
  }

  lemma FrontIsUnit(s: seq<byte>, k: nat)
    requires FrontUnit(s, k)
    ensures IsUnit(s[..k + 1])
  {
    UnitIsEncode(s, k);
  }

  /** Text can be read off from the front, one sequence at a time. */
  lemma TextStep(s: seq<byte>, k: nat)
    requires FrontUnit(s, k)
    ensures IsText(s) <==> IsText(s[k + 1..])
  {
    if IsText(s[k + 1..]) { TextGoesOn(s, k); }
    if IsText(s) { TextIsLeft(s, k); }
  }

  lemma TextGoesOn(s: seq<byte>, k: nat)
    requires FrontUnit(s, k) && IsText(s[k + 1..])
    ensures IsText(s)
  {
    var us: seq<seq<byte>> :| AllUnits(us) && Flatten(us) == s[k + 1..];
    FrontIsUnit(s, k);
    Prepend(s[..k + 1], us);
    assert s == s[..k + 1] + s[k + 1..];
  }

  lemma TextIsLeft(s: seq<byte>, k: nat)
    requires FrontUnit(s, k) && IsText(s)
    ensures IsText(s[k + 1..])
  {
    var us: seq<seq<byte>> :| AllUnits(us) && Flatten(us) == s;
    assert us[0] in us;
    UnitFronts(us[0], Flatten(us[1..]));
    assert |us[0]| == k + 1 && s[k + 1..] == Flatten(us[1..]);
    assert AllUnits(us[1..]);
  }

  lemma Prepend(u: seq<byte>, us: seq<seq<byte>>)
    requires IsUnit(u) && AllUnits(us)
    ensures AllUnits([u] + us) && Flatten([u] + us) == u + Flatten(us)
  {
    assert ([u] + us)[1..] == us;
  }

  lemma TextHasUnit(s: seq<byte>)
    requires IsText(s) && s != []
    ensures Trailing(s[0]).Some? && FrontUnit(s, Trailing(s[0]).value)
  {
    var us: seq<seq<byte>> :| AllUnits(us) && Flatten(us) == s;
    assert us[0] in us;
    UnitFronts(us[0], Flatten(us[1..]));
  }

  lemma EmptyIsText()
    ensures IsText([])
  {
    var none: seq<seq<byte>> := [];
    assert AllUnits(none) && Flatten(none) == [];
  }

  /** One turn of the loop: the octets of the sequence at `i`, 0 when it is not well formed. */
  method ReadSequence(s: seq<byte>, i: nat) returns (n: nat)
    requires i < |s|
    ensures if n == 0 then !IsText(s[i..]) else FrontUnit(s[i..], n - 1)
  {
    ghost var rest := s[i..];
    if IsText(rest) { TextHasUnit(rest); }
    var lead := s[i];
    if lead < 0x80 {
      return if lead == 0 then 0 else 1;
    }
    var k: nat, cp: nat;
    if 0xC2 <= lead <= 0xDF { k, cp := 1, lead % 32; }
    else if 0xE0 <= lead <= 0xEF { k, cp := 2, lead % 16; }
    else if 0xF0 <= lead <= 0xF4 { k, cp := 3, lead % 8; }
    else { return 0; }
    if i + k >= |s| { return 0; }
    var j := 0;
    while j < k
      invariant 0 <= j <= k && i + k < |s|
      invariant cp == Gather(rest, j)
      invariant forall n :: 1 <= n <= j ==> Continuation(rest[n])
    {
      if !Continuation(s[i + j + 1]) {
        assert !Continuation(rest[j + 1]);
        return 0;
      }
      cp, j := cp * 64 + LowBits(s[i + j + 1]), j + 1;
    }
    if cp > 0x10FFFF || 0xD800 <= cp <= 0xDFFF || cp < 0x80 || (cp < 0x800 && lead >= 0xE0)
       || (cp < 0x10000 && lead >= 0xF0) {
      return 0;
    }
    return k + 1;
  }

  /** `owc_fs_utf8_valid`. */
  method Valid(s: seq<byte>) returns (ok: bool)
    ensures ok <==> IsText(s)
  {
    var i := 0;
    assert s[0..] == s;
    while i < |s|
      invariant i <= |s|
      invariant IsText(s) <==> IsText(s[i..])
    {
      var n := ReadSequence(s, i);
      if n == 0 { return false; }
      TextStep(s[i..], n - 1);
      assert s[i..][n..] == s[i + n..];
      i := i + n;
    }
    assert s[i..] == [];
    EmptyIsText();
    return true;
  }

  /** Everything `push_utf8` emits for scalar values is accepted, and text is closed under joining. */
  lemma EncodedIsText(c: scalar)
    ensures IsText(Encode(c))
  {
    UnitIsText(Encode(c));
  }

  lemma UnitIsText(u: seq<byte>)
    requires IsUnit(u)
    ensures IsText(u)
  {
    Prepend(u, []);
    assert u + [] == u && [u] + [] == [u];
  }

  lemma TextJoins(a: seq<byte>, b: seq<byte>)
    requires IsText(a) && IsText(b)
    ensures IsText(a + b)
  {
    var ua: seq<seq<byte>> :| AllUnits(ua) && Flatten(ua) == a;
    var ub: seq<seq<byte>> :| AllUnits(ub) && Flatten(ub) == b;
    FlattenJoins(ua, ub);
    assert AllUnits(ua + ub);
  }

  /** UTF-8 is self-synchronising: text cut where a non-continuation octet (or the
      end) follows falls into two texts. */
  lemma {:induction false} TextSplits(s: seq<byte>, at: nat)
    requires IsText(s) && at <= |s|
    requires at < |s| ==> !Continuation(s[at])
    ensures IsText(s[..at]) && IsText(s[at..])
    decreases |s|
  {
    EmptyIsText();
    if at == 0 || at == |s| {
      assert s[at..] == (if at == 0 then s else []) && s[..at] == (if at == 0 then [] else s);
    } else {
      TextHasUnit(s);
      var k := Trailing(s[0]).value;
      TextStep(s, k);
      TextSplits(s[k + 1..], at - k - 1);
      assert s[k + 1..][at - k - 1..] == s[at..];
      FrontIsUnit(s, k);
      UnitIsText(s[..k + 1]);
      TextJoins(s[..k + 1], s[k + 1..][..at - k - 1]);
      TakeInTwo(s, k + 1, at);
    }
  }

  lemma TakeInTwo(s: seq<byte>, a: nat, b: nat)
    requires a <= b <= |s|
    ensures s[..b] == s[..a] + s[a..][..b - a]
  {
  }

  /** No text starts with a continuation octet. */
  lemma TextStart(s: seq<byte>)
    requires IsText(s) && s != []
    ensures !Continuation(s[0])
  {
    TextHasUnit(s);
  }

  /** At most three octets separate any position in a text from the start of its sequence. */
  lemma {:induction false} BoundaryNear(s: seq<byte>, at: nat)
    requires IsText(s) && at < |s|
    ensures exists b :: 0 <= b <= at && at - b <= 3 && !Continuation(s[b])
    decreases |s|
  {
    TextHasUnit(s);
    var k := Trailing(s[0]).value;
    if at <= k {
      assert !Continuation(s[0]);
    } else {
      TextStep(s, k);
      BoundaryNear(s[k + 1..], at - k - 1);
      var b :| 0 <= b <= at - k - 1 && at - k - 1 - b <= 3 && !Continuation(s[k + 1..][b]);
      assert !Continuation(s[b + k + 1]);
    }
  }

  /** A prefix that is text ends where a sequence ends. */
  lemma {:induction false} NoCutInside(s: seq<byte>, at: nat)
    requires IsText(s) && at < |s| && IsText(s[..at])
    ensures !Continuation(s[at])
    decreases at
  {
    TextHasUnit(s);
    if at > 0 {
      var k := Trailing(s[0]).value;
      TextHasUnit(s[..at]);
      assert s[..at][0] == s[0];
      TextStep(s, k);
      TextStep(s[..at], k);
      assert s[..at][k + 1..] == s[k + 1..][..at - k - 1];
      NoCutInside(s[k + 1..], at - k - 1);
    }
  }

  /** Where a cut at `limit` lands after stepping back over continuation octets. */
  function BackTo(s: seq<byte>, limit: nat): (cut: nat)
    requires limit < |s|
    ensures cut <= limit
    decreases |s|, limit
  {
    if limit > 0 && Continuation(s[limit]) then BackTo(s, limit - 1) else limit
  }

  lemma {:induction false} BackToSkips(s: seq<byte>, limit: nat)
    requires limit < |s|
    ensures forall j :: BackTo(s, limit) < j <= limit ==> Continuation(s[j])
    ensures BackTo(s, limit) > 0 ==> !Continuation(s[BackTo(s, limit)])
    decreases limit
  {
    if limit > 0 && Continuation(s[limit]) {
      BackToSkips(s, limit - 1);
    }
  }

  /** Cutting text this way leaves text on both sides, and loses as little as possible. */
  lemma CutIsText(s: seq<byte>, limit: nat)
    requires IsText(s) && limit < |s|
    ensures var cut := BackTo(s, limit);
            IsText(s[..cut]) && IsText(s[cut..]) && limit - cut <= 3 && forall j :: cut < j <= limit ==> !IsText(s[..j])
  {
    var cut := BackTo(s, limit);
    BackToSkips(s, limit);
    TextStart(s);
    TextSplits(s, cut);
    BoundaryNear(s, limit);
    forall j | cut < j <= limit ensures !IsText(s[..j]) {
      if IsText(s[..j]) { NoCutInside(s, j); }
    }
  }

  /** The cut of the grep workers, of `grep_file` and of the symbol signatures: step back from
      `start + limit` while the octet there continues a sequence. */
  method CutBack(s: seq<byte>, start: nat, limit: nat) returns (cut: nat)
    requires start + limit < |s|
    ensures cut == BackTo(s[start..], limit)
  {
    cut := limit;
    while cut > 0 && Continuation(s[start + cut])
      invariant 0 <= cut <= limit && BackTo(s[start..], cut) == BackTo(s[start..], limit)
    {
      cut := cut - 1;
    }
  }
}
