/** The base64 encoder and the strict, bounded decoder of core/src/rpc.c
    (sections 3.5 and 4 of RFC 4648). */
module Base64 {
  import opened Bytes

  const PAD: byte := 61
  const MAX_BINARY_FILE_SIZE := 20 * 1024 * 1024

  type sextet = v: int | 0 <= v < 64

  /** The encoder's `table`. */
  function Symbol(v: sextet): (b: byte)
  {
    if v < 26 then 65 + v else if v < 52 then 71 + v else if v == 62 then 43 else if v == 63 then 47 else v - 4
  }

  /** `base64_digit`, -1 for a byte outside the alphabet. */
  function Digit(b: byte): (v: int)
    ensures -1 <= v < 64
  {
    if 65 <= b <= 90 then b - 65
    else if 97 <= b <= 122 then b - 71
    else if 48 <= b <= 57 then b + 4
    else if b == 43 then 62
    else if b == 47 then 63
    else -1
  }

  lemma Alphabet(b: byte, v: sextet)
    ensures Digit(b) == v <==> Symbol(v) == b
    ensures Symbol(v) != PAD && Symbol(v) != 0 && Digit(PAD) < 0
  {
  }

  /** The three octets behind four sextets, and back: section 4 of RFC 4648. */
  function First(a: sextet, b: sextet): byte { a * 4 + b / 16 }
  function Second(b: sextet, c: sextet): byte { b % 16 * 16 + c / 4 }
  function Third(c: sextet, d: sextet): byte { c % 4 * 64 + d }

  /** Sextets `a b c d` carry the octets `x y z`. */
  predicate Carries(a: sextet, b: sextet, c: sextet, d: sextet, x: byte, y: byte, z: byte)
  {
    a == x / 4 && b == x % 4 * 16 + y / 16 && c == y % 16 * 4 + z / 64 && d == z % 64
  }

  lemma CarriesExactly(a: sextet, b: sextet, c: sextet, d: sextet, x: byte, y: byte, z: byte)
    ensures Carries(a, b, c, d, x, y, z) <==> x == First(a, b) && y == Second(b, c) && z == Third(c, d)
  {
    var bh, bl, ch, cl := b / 16, b % 16, c / 4, c % 4;
    By4(x, a, bh);
    By16(y, bl, ch);
    By64(z, cl, d);
    By16(b, x % 4, y / 16);
    By4(c, y % 16, z / 64);
  }

  lemma By4(v: nat, hi: nat, lo: nat)
    requires lo < 4
    ensures v == hi * 4 + lo <==> v / 4 == hi && v % 4 == lo
  {
  }

  lemma By16(v: nat, hi: nat, lo: nat)
    requires lo < 16
    ensures v == hi * 16 + lo <==> v / 16 == hi && v % 16 == lo
  {
  }

  lemma By64(v: nat, hi: nat, lo: nat)
    requires lo < 64
    ensures v == hi * 64 + lo <==> v / 64 == hi && v % 64 == lo
  {
  }

  /** Four bytes of text spell `n` octets out of `x y z`; the octets beyond `n` are
      zero, so the bits a padded group does not use are zero. */
  ghost predicate Spells(t0: byte, t1: byte, t2: byte, t3: byte, x: byte, y: byte, z: byte, n: int)
  {
    && (n == 1 ==> t2 == t3 == PAD && y == z == 0)
    && (n == 2 ==> t2 != PAD && t3 == PAD && z == 0)
    && (n == 3 ==> t2 != PAD && t3 != PAD)
    && Digit(t0) >= 0 && Digit(t1) >= 0 && (n > 1 ==> Digit(t2) >= 0) && (n > 2 ==> Digit(t3) >= 0)
    && Carries(Digit(t0), Digit(t1), if n > 1 then Digit(t2) else 0, if n > 2 then Digit(t3) else 0, x, y, z)
  }

  /** No octets are spelt by these four bytes; only a final group may carry fewer than three. */
  ghost predicate SpellsNothing(t0: byte, t1: byte, t2: byte, t3: byte, finalGroup: bool)
  {
    forall x, y, z, m | 1 <= m <= 3 && (m < 3 ==> finalGroup) :: !Spells(t0, t1, t2, t3, x, y, z, m)
  }

  /** The octet at `i`, zero past the end. */
  function OctetAt(d: seq<byte>, i: nat): byte
  {
    if i < |d| then d[i] else 0
  }

  /** How many octets group `g` carries. */
  function GroupSize(d: seq<byte>, g: nat): int
  {
    if 3 * g + 3 <= |d| then 3 else |d| - 3 * g
  }

  ghost predicate GroupSpells(d: seq<byte>, s: seq<byte>, g: nat)
    requires 4 * g + 3 < |s|
  {
    Spells(s[4 * g], s[4 * g + 1], s[4 * g + 2], s[4 * g + 3],
           OctetAt(d, 3 * g), OctetAt(d, 3 * g + 1), OctetAt(d, 3 * g + 2), GroupSize(d, g))
  }

  /** `s` is the base64 text of `d`. */
  ghost predicate Encodes(d: seq<byte>, s: seq<byte>)
  {
    && |s| == 4 * ((|d| + 2) / 3)
    && forall g: nat :: 4 * g + 3 < |s| ==> GroupSpells(d, s, g)
  }

  lemma SpellsOneWay(t0: byte, t1: byte, t2: byte, t3: byte, x: byte, y: byte, z: byte, n: int,
                     t0': byte, t1': byte, t2': byte, t3': byte)
    requires 1 <= n <= 3
    requires Spells(t0, t1, t2, t3, x, y, z, n) && Spells(t0', t1', t2', t3', x, y, z, n)
    ensures t0 == t0' && t1 == t1' && t2 == t2' && t3 == t3'
  {
    Alphabet(t0, Digit(t0)); Alphabet(t0', Digit(t0'));
    Alphabet(t1, Digit(t1)); Alphabet(t1', Digit(t1'));
    if n > 1 { Alphabet(t2, Digit(t2)); Alphabet(t2', Digit(t2')); }
    if n > 2 { Alphabet(t3, Digit(t3)); Alphabet(t3', Digit(t3')); }
  }

  lemma SpellsBack(t0: byte, t1: byte, t2: byte, t3: byte, x: byte, y: byte, z: byte, n: int,
                   x': byte, y': byte, z': byte, n': int)
    requires 1 <= n <= 3 && 1 <= n' <= 3
    requires Spells(t0, t1, t2, t3, x, y, z, n) && Spells(t0, t1, t2, t3, x', y', z', n')
    ensures n == n' && x == x' && y == y' && z == z'
  {
    var c, d := if n > 1 then Digit(t2) else 0, if n > 2 then Digit(t3) else 0;
    CarriesExactly(Digit(t0), Digit(t1), c, d, x, y, z);
    CarriesExactly(Digit(t0), Digit(t1), c, d, x', y', z');
  }

  lemma SameGroup(d: seq<byte>, s: seq<byte>, t: seq<byte>, g: nat)
    requires Encodes(d, s) && Encodes(d, t) && 4 * g + 3 < |s|
    ensures s[4 * g] == t[4 * g] && s[4 * g + 1] == t[4 * g + 1] && s[4 * g + 2] == t[4 * g + 2]
        && s[4 * g + 3] == t[4 * g + 3]
  {
    assert GroupSpells(d, s, g) && GroupSpells(d, t, g);
    SpellsOneWay(s[4 * g], s[4 * g + 1], s[4 * g + 2], s[4 * g + 3],
                 OctetAt(d, 3 * g), OctetAt(d, 3 * g + 1), OctetAt(d, 3 * g + 2), GroupSize(d, g),
                 t[4 * g], t[4 * g + 1], t[4 * g + 2], t[4 * g + 3]);
  }

  /** An input has one encoding only. */
  lemma EncodingIsUnique(d: seq<byte>, s: seq<byte>, t: seq<byte>)
    requires Encodes(d, s) && Encodes(d, t)
    ensures s == t
  {
    forall i | 0 <= i < |s| ensures s[i] == t[i] {
      var g := i / 4;
      SameGroup(d, s, t, g);
      assert i == 4 * g || i == 4 * g + 1 || i == 4 * g + 2 || i == 4 * g + 3;
    }
  }

  lemma GroupsAgree(d: seq<byte>, e: seq<byte>, s: seq<byte>, g: nat)
    requires Encodes(d, s) && Encodes(e, s) && 4 * g + 3 < |s|
    ensures GroupSize(d, g) == GroupSize(e, g)
    ensures OctetAt(d, 3 * g) == OctetAt(e, 3 * g)
    ensures OctetAt(d, 3 * g + 1) == OctetAt(e, 3 * g + 1)
    ensures OctetAt(d, 3 * g + 2) == OctetAt(e, 3 * g + 2)
  {
    assert GroupSpells(d, s, g) && GroupSpells(e, s, g);
    SpellsBack(s[4 * g], s[4 * g + 1], s[4 * g + 2], s[4 * g + 3],
               OctetAt(d, 3 * g), OctetAt(d, 3 * g + 1), OctetAt(d, 3 * g + 2), GroupSize(d, g),
               OctetAt(e, 3 * g), OctetAt(e, 3 * g + 1), OctetAt(e, 3 * g + 2), GroupSize(e, g));
  }

  /** A text has one meaning only. */
  lemma MeaningIsUnique(d: seq<byte>, e: seq<byte>, s: seq<byte>)
    requires Encodes(d, s) && Encodes(e, s)
    ensures d == e
  {
    if s != [] {
      var last := |s| / 4 - 1;
      GroupsAgree(d, e, s, last);
      assert |d| == 3 * last + GroupSize(d, last) && |e| == 3 * last + GroupSize(e, last);
      forall i | 0 <= i < |d| ensures d[i] == e[i] {
        GroupsAgree(d, e, s, i / 3);
        assert i == 3 * (i / 3) || i == 3 * (i / 3) + 1 || i == 3 * (i / 3) + 2;
        assert OctetAt(d, i) == OctetAt(e, i);
      }
    }
  }

  /** `base64_encode`. */
  method EncodeBytes(data: seq<byte>) returns (text: seq<byte>)
    ensures Encodes(data, text)
  {
    var out := new byte[4 * ((|data| + 2) / 3)];
    var i, o := 0, 0;
    ghost var g: nat := 0;
    while i < |data|
      invariant i == 3 * g && o == 4 * g <= out.Length && i < |data| + 3
      invariant forall h: nat :: 4 * h + 3 < o ==> GroupSpells(data, out[..o], h)
      decreases |data| - i
    {
      ghost var before := out[..o];
      EncodeGroup(data, i, out, o, g);
      GroupAppended(data, before, out[..o + 4], g);
      i, o, g := i + 3, o + 4, g + 1;
    }
    assert out[..o] == out[..];
    return out[..];
  }

  /** One round of its loop. */
  method EncodeGroup(data: seq<byte>, i: nat, out: array<byte>, o: nat, ghost g: nat)
    requires i == 3 * g < |data| && o == 4 * g && o + 4 <= out.Length
    modifies out
    ensures out[..o] == old(out[..o]) && GroupSpells(data, out[..o + 4], g)
  {
    var second: byte := if i + 1 < |data| then data[i + 1] else 0;
    var third: byte := if i + 2 < |data| then data[i + 2] else 0;
    var a: sextet, b: sextet := data[i] / 4, data[i] % 4 * 16 + second / 16;
    var c: sextet, d: sextet := second % 16 * 4 + third / 64, third % 64;
    out[o], out[o + 1] := Symbol(a), Symbol(b);
    out[o + 2] := if i + 1 < |data| then Symbol(c) else PAD;
    out[o + 3] := if i + 2 < |data| then Symbol(d) else PAD;
    SymbolsSpell(a, b, c, d, data[i], second, third, GroupSize(data, g));
  }

  lemma SymbolsSpell(a: sextet, b: sextet, c: sextet, d: sextet, x: byte, y: byte, z: byte, n: int)
    requires Carries(a, b, c, d, x, y, z) && 1 <= n <= 3
    requires n == 1 ==> y == z == 0
    requires n == 2 ==> z == 0
    ensures Spells(Symbol(a), Symbol(b), if n > 1 then Symbol(c) else PAD, if n > 2 then Symbol(d) else PAD, x, y, z, n)
  {
    Alphabet(Symbol(a), a); Alphabet(Symbol(b), b); Alphabet(Symbol(c), c); Alphabet(Symbol(d), d);
  }

  lemma GroupAppended(data: seq<byte>, before: seq<byte>, after: seq<byte>, g: nat)
    requires |before| == 4 * g && |after| == 4 * g + 4 && before <= after
    requires forall h: nat :: 4 * h + 3 < |before| ==> GroupSpells(data, before, h)
    requires GroupSpells(data, after, g)
    ensures forall h: nat :: 4 * h + 3 < |after| ==> GroupSpells(data, after, h)
  {
    forall h: nat | 4 * h + 3 < |after| ensures GroupSpells(data, after, h) {
      if h != g {
        assert GroupSpells(data, before, h);
      }
    }
  }

  /** The text of the first `n` groups. */
  lemma {:induction false} GroupsHaveText(data: seq<byte>, n: nat) returns (s: CText)
    requires n <= (|data| + 2) / 3
    ensures |s| == 4 * n && forall h: nat :: 4 * h + 3 < |s| ==> GroupSpells(data, s, h)
    decreases n
  {
    if n == 0 { return []; }
    var before := GroupsHaveText(data, n - 1);
    var x, y, z := OctetAt(data, 3 * n - 3), OctetAt(data, 3 * n - 2), OctetAt(data, 3 * n - 1);
    var a: sextet, b: sextet, c: sextet, d: sextet := x / 4, x % 4 * 16 + y / 16, y % 16 * 4 + z / 64, z % 64;
    var size := GroupSize(data, n - 1);
    SymbolsSpell(a, b, c, d, x, y, z, size);
    s := before + [Symbol(a), Symbol(b), if size > 1 then Symbol(c) else PAD, if size > 2 then Symbol(d) else PAD];
    GroupAppended(data, before, s, n - 1);
  }

  /** Every data has an encoding. */
  lemma HasEncoding(data: seq<byte>)
    ensures exists s: CText :: Encodes(data, s)
  {
    var s := GroupsHaveText(data, (|data| + 2) / 3);
    assert Encodes(data, s);
  }

  /** The `padding` the decoder reads off the end of the text. */
  function Padding(s: seq<byte>): nat
    requires s != []
  {
    if s[|s| - 1] != PAD then 0 else if |s| >= 2 && s[|s| - 2] == PAD then 2 else 1
  }

  /** Groups before the last carry three octets; the last one as many as the padding leaves. */
  lemma EncodedShape(d: seq<byte>, s: seq<byte>)
    requires Encodes(d, s) && s != []
    ensures |s| % 4 == 0 && |d| == |s| / 4 * 3 - Padding(s)
  {
    var last := |s| / 4 - 1;
    assert GroupSpells(d, s, last);
    Alphabet(s[|s| - 1], 0);
  }

  /** `base64_decode_bounded`; None stands for the error return.  Accepted texts are
      exactly the encodings of non-empty inputs within the size limit. */
  method DecodeBounded(encoded: CText) returns (result: Option<seq<byte>>)
    ensures forall d :: result == Some(d) <==> 0 < |d| <= MAX_BINARY_FILE_SIZE && Encodes(d, encoded)
  {
    var n := |encoded|;
    if n == 0 || n % 4 != 0 || n > 4 * ((MAX_BINARY_FILE_SIZE + 2) / 3) { return None; }
    var padding := 0;
    if encoded[n - 1] == PAD {
      padding := 1;
      if n >= 2 && encoded[n - 2] == PAD { padding := 2; }
    }
    forall d | Encodes(d, encoded) ensures |d| == n / 4 * 3 - padding { EncodedShape(d, encoded); }
    var outputLength := n / 4 * 3 - padding;
    if outputLength == 0 || outputLength > MAX_BINARY_FILE_SIZE { return None; }
    var decoded := new byte[outputLength];
    var ok := DecodeInto(encoded, decoded);
    if !ok { return None; }
    forall d | Encodes(d, encoded) ensures d == decoded[..] { MeaningIsUnique(d, decoded[..], encoded); }
    return Some(decoded[..]);
  }

  /** The checks made on one group; `n` is the number of octets it carries, 0 when it is invalid. */
  method ReadGroup(t0: byte, t1: byte, t2: byte, t3: byte, finalGroup: bool)
    returns (n: nat, a: int, b: int, c: int, d: int)
    ensures n <= 3 && (0 < n < 3 ==> finalGroup)
    ensures n > 0 ==> 0 <= a < 64 && 0 <= b < 64 && 0 <= c < 64 && 0 <= d < 64
    ensures n > 0 ==> (t2 == PAD <==> n == 1) && (t3 == PAD <==> n < 3)
    ensures n > 0 ==> Spells(t0, t1, t2, t3, First(a, b), Second(b, c), Third(c, d), n)
    ensures n == 0 ==> SpellsNothing(t0, t1, t2, t3, finalGroup)
  {
    a, b, c, d := Digit(t0), Digit(t1), 0, 0;
    if a < 0 || b < 0 { return 0, a, b, c, d; }
    if t2 == PAD {
      if !finalGroup || t3 != PAD || b % 16 != 0 { return 0, a, b, c, d; }
      n := 1;
    } else {
      c := Digit(t2);
      if c < 0 { return 0, a, b, c, d; }
      if t3 == PAD {
        if !finalGroup || c % 4 != 0 { return 0, a, b, c, d; }
        n := 2;
      } else {
        d := Digit(t3);
        if d < 0 { return 0, a, b, c, d; }
        n := 3;
      }
    }
    CarriesExactly(a, b, c, d, First(a, b), Second(b, c), Third(c, d));
  }

  /** The one to three stores into the buffer. */
  method WriteOctets(decoded: array<byte>, start: nat, n: nat, x: byte, y: byte, z: byte) returns (at: nat)
    requires 1 <= n <= 3 && start + n <= decoded.Length
    modifies decoded
    ensures at == start + n
    ensures decoded[..at] == old(decoded[..start]) + [x, y, z][..n]
  {
    at := start;
    decoded[at] := x;
    at := at + 1;
    if n > 1 {
      decoded[at] := y;
      at := at + 1;
      if n > 2 {
        decoded[at] := z;
        at := at + 1;
      }
    }
  }

  /** The groups before `g` stand decoded in the first `at` bytes. */
  ghost predicate DecodedUpTo(encoded: seq<byte>, decoded: seq<byte>, at: nat, g: nat)
  {
    && 4 * g <= |encoded| && at <= |decoded|
    && at == (if 4 * g < |encoded| then 3 * g else |decoded|)
    && forall h: nat :: h < g ==> GroupSpells(decoded[..at], encoded, h)
  }

  /** One round of the group loop. */
  method DecodeGroup(encoded: CText, decoded: array<byte>, index: nat, at: nat, ghost g: nat)
    returns (ok: bool, end: nat)
    requires encoded != [] && |encoded| % 4 == 0 && index == 4 * g < |encoded|
    requires decoded.Length == |encoded| / 4 * 3 - Padding(encoded)
    requires DecodedUpTo(encoded, decoded[..], at, g)
    modifies decoded
    ensures ok ==> DecodedUpTo(encoded, decoded[..], end, g + 1)
    ensures !ok ==> forall d :: !Encodes(d, encoded)
  {
    ghost var before := decoded[..at];
    assert before == decoded[..][..at];
    var n, a, b, c, d := ReadGroup(encoded[index], encoded[index + 1], encoded[index + 2], encoded[index + 3],
        index + 4 == |encoded|);
    if n == 0 {
      NoEncoding(encoded, g);
      return false, at;
    }
    Room(encoded, g, n);
    end := WriteOctets(decoded, at, n, First(a, b), Second(b, c), Third(c, d));
    AcceptedGroup(encoded, before, decoded[..end], g, n, First(a, b), Second(b, c), Third(c, d));
    assert decoded[..end] == decoded[..][..end];
    return true, end;
  }

  /** The group loop, writing into the buffer sized from the text. */
  method DecodeInto(encoded: CText, decoded: array<byte>) returns (ok: bool)
    requires encoded != [] && |encoded| % 4 == 0
    requires decoded.Length == |encoded| / 4 * 3 - Padding(encoded)
    modifies decoded
    ensures ok ==> Encodes(decoded[..], encoded)
    ensures !ok ==> forall d :: !Encodes(d, encoded)
  {
    var index: nat, at: nat := 0, 0;
    ghost var g: nat := 0;
    while index < |encoded|
      invariant index == 4 * g <= |encoded| && DecodedUpTo(encoded, decoded[..], at, g)
    {
      ok, at := DecodeGroup(encoded, decoded, index, at, g);
      if !ok { return false; }
      index, g := index + 4, g + 1;
    }
    assert decoded[..][..at] == decoded[..];
    return true;
  }

  lemma UnusedAreZero(t0: byte, t1: byte, t2: byte, t3: byte, x: byte, y: byte, z: byte, n: int)
    requires 1 <= n <= 3 && Spells(t0, t1, t2, t3, x, y, z, n)
    ensures (n < 3 ==> z == 0) && (n < 2 ==> y == 0)
  {
  }

  /** The buffer has room for each group, and the last group fills it. */
  lemma Room(s: seq<byte>, g: nat, n: nat)
    requires 4 * g + 4 <= |s| && |s| % 4 == 0 && 1 <= n <= 3
    requires (s[4 * g + 2] == PAD <==> n == 1) && (s[4 * g + 3] == PAD <==> n < 3)
    ensures 4 * g + 4 == |s| ==> 3 * g + n == |s| / 4 * 3 - Padding(s)
    ensures 4 * g + 4 < |s| ==> 3 * g + 4 <= |s| / 4 * 3 - Padding(s)
  {
  }

  lemma AcceptedGroup(s: seq<byte>, before: seq<byte>, after: seq<byte>, g: nat, n: nat, x: byte, y: byte, z: byte)
    requires 4 * g + 3 < |s| && 1 <= n <= 3
    requires |before| == 3 * g && after == before + [x, y, z][..n]
    requires forall h: nat :: h < g ==> GroupSpells(before, s, h)
    requires Spells(s[4 * g], s[4 * g + 1], s[4 * g + 2], s[4 * g + 3], x, y, z, n)
    ensures forall h: nat :: h <= g ==> GroupSpells(after, s, h)
  {
    UnusedAreZero(s[4 * g], s[4 * g + 1], s[4 * g + 2], s[4 * g + 3], x, y, z, n);
    forall h: nat | h <= g ensures GroupSpells(after, s, h) {
      if h < g {
        assert GroupSpells(before, s, h);
        assert GroupSize(before, h) == 3 == GroupSize(after, h);
      } else {
        assert GroupSize(after, g) == n;
      }
    }
  }

  /** Only the last group of an encoding may carry fewer than three octets. */
  lemma SizeOfGroup(e: seq<byte>, s: seq<byte>, g: nat)
    requires Encodes(e, s) && 4 * g + 3 < |s|
    ensures GroupSpells(e, s, g) && 1 <= GroupSize(e, g) <= 3
    ensures 4 * g + 4 < |s| ==> GroupSize(e, g) == 3
  {
  }

  /** A text with a group that spells nothing encodes nothing. */
  lemma NoEncoding(s: seq<byte>, g: nat)
    requires 4 * g + 3 < |s|
    requires SpellsNothing(s[4 * g], s[4 * g + 1], s[4 * g + 2], s[4 * g + 3], 4 * g + 4 == |s|)
    ensures forall e :: !Encodes(e, s)
  {
    forall e ensures !Encodes(e, s) {
      if Encodes(e, s) {
        SizeOfGroup(e, s, g);
      }
    }
  }

  /** Decoding what was encoded gives it back. */
  method RoundTrip(data: seq<byte>) returns (result: Option<seq<byte>>)
    requires 0 < |data| <= MAX_BINARY_FILE_SIZE
    ensures result == Some(data)
  {
    var text := EncodeBytes(data);
    NoNul(data, text);
    result := DecodeBounded(text);
  }

  /** The text of an encoding is a C string. */
  lemma NoNul(d: seq<byte>, s: seq<byte>)
    requires Encodes(d, s)
    ensures 0 !in s
  {
    forall i | 0 <= i < |s| ensures s[i] != 0 {
      var g := i / 4;
      assert GroupSpells(d, s, g);
      assert i == 4 * g || i == 4 * g + 1 || i == 4 * g + 2 || i == 4 * g + 3;
      assert GroupSize(d, g) >= 1;
    }
  }
}
