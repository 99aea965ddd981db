/** The streaming SHA-256 of core/src/fs.c against sections 5 and 6.2 of FIPS 180-4. */
module Sha256 {
  import opened Bytes

  type word = bv32
  type Block = s: seq<byte> | |s| == 64 witness seq(64, _ => 0)
  type Digest = s: seq<word> | |s| == 8 witness seq(8, _ => 0)
  type Constants = s: seq<word> | |s| == 64 witness seq(64, _ => 0)

  const LENGTH_MODULUS := 0x1_0000_0000_0000_0000

  // ---------------------------------------------------------------------
  // The compression function (section 6.2.2 of FIPS 180-4).
  // ---------------------------------------------------------------------

  // The functions of section 4.1.2 of FIPS 180-4.
  function BigSigma0(x: word): word { ((x >> 2) | (x << 30)) ^ ((x >> 13) | (x << 19)) ^ ((x >> 22) | (x << 10)) }
  function BigSigma1(x: word): word { ((x >> 6) | (x << 26)) ^ ((x >> 11) | (x << 21)) ^ ((x >> 25) | (x << 7)) }
  function SmallSigma0(x: word): word { ((x >> 7) | (x << 25)) ^ ((x >> 18) | (x << 14)) ^ (x >> 3) }
  function SmallSigma1(x: word): word { ((x >> 17) | (x << 15)) ^ ((x >> 19) | (x << 13)) ^ (x >> 10) }
  function Choose(e: word, f: word, g: word): word { (e & f) ^ ((!e) & g) }
  function Majority(a: word, b: word, c: word): word { (a & b) ^ (a & c) ^ (b & c) }

  function BigEndianWord(b: Block, i: nat): word
    requires i < 16
  {
    ((b[4 * i] as word) << 24) | ((b[4 * i + 1] as word) << 16) | ((b[4 * i + 2] as word) << 8) | (b[4 * i + 3] as word)
  }

  /** The first `n` words of the message schedule. */
  function Schedule(b: Block, n: nat): (w: seq<word>)
    requires n <= 64
    ensures |w| == n
  {
    if n == 0 then []
    else
      var w := Schedule(b, n - 1);
      w + [if n <= 16 then BigEndianWord(b, n - 1) else NextWord(w)]
  }

  /** The word that follows at least sixteen words of a schedule. */
  function NextWord(w: seq<word>): word
    requires |w| >= 16
  {
    var t := |w|;
    w[t - 16] + SmallSigma0(w[t - 15]) + w[t - 7] + SmallSigma1(w[t - 2])
  }

  datatype Working = Working(a: word, b: word, c: word, d: word, e: word, f: word, g: word, h: word)

  function Round(v: Working, k: word, w: word): Working
  {
    var t1 := v.h + BigSigma1(v.e) + Choose(v.e, v.f, v.g) + k + w;
    var t2 := BigSigma0(v.a) + Majority(v.a, v.b, v.c);
    Working(t1 + t2, v.a, v.b, v.c, v.d + t1, v.e, v.f, v.g)
  }

  function Rounds(v: Working, k: Constants, w: seq<word>, t: nat): Working
    requires t <= 64 == |w|
  {
    if t == 0 then v else Round(Rounds(v, k, w, t - 1), k[t - 1], w[t - 1])
  }

  function Load(d: Digest): Working
  {
    Working(d[0], d[1], d[2], d[3], d[4], d[5], d[6], d[7])
  }

  function AddIn(d: Digest, v: Working): Digest
  {
    [d[0] + v.a, d[1] + v.b, d[2] + v.c, d[3] + v.d, d[4] + v.e, d[5] + v.f, d[6] + v.g, d[7] + v.h]
  }

  function Compress(k: Constants, d: Digest, b: Block): Digest
  {
    AddIn(d, Rounds(Load(d), k, Schedule(b, |k|), |k|))
  }

  // ---------------------------------------------------------------------
  // The message: blocks, padding, and what a stream has absorbed.
  // ---------------------------------------------------------------------

  /** The digest after the whole blocks at the front of `m`. */
  function Fold(k: Constants, d: Digest, m: seq<byte>): Digest
    decreases |m|
  {
    if |m| < 64 then d else Fold(k, Compress(k, d, m[..64]), m[64..])
  }

  function Zeros(n: nat): (z: seq<byte>)
    ensures |z| == n
  {
    if n == 0 then [] else [0] + Zeros(n - 1)
  }

  /** The eight bytes of `bits`, most significant first. */
  function BigEndian64(bits: nat, n: nat): (s: seq<byte>)
    ensures |s| == n
  {
    if n == 0 then [] else BigEndian64(bits / 256, n - 1) + [bits % 256]
  }

  /** The least number of zero bytes that brings `n` bytes and the marker to 56 modulo 64. */
  function ZeroCount(n: nat): (z: nat)
    ensures (n + 1 + z) % 64 == 56 && z < 64
  {
    (119 - n % 64) % 64
  }

  /** Section 5.1.1 of FIPS 180-4. */
  function Pad(m: seq<byte>): seq<byte>
  {
    m + [0x80] + Zeros(ZeroCount(|m|)) + BigEndian64(|m| * 8 % LENGTH_MODULUS, 8)
  }

  /** The padded message is a whole number of blocks. */
  lemma PadIsBlocks(m: seq<byte>)
    ensures |Pad(m)| % 64 == 0
  {
    var body := |m| + 1 + ZeroCount(|m|);
    assert |Pad(m)| == body + 8;
    EightMore(body);
  }

  lemma EightMore(n: nat)
    requires n % 64 == 56
    ensures (n + 8) % 64 == 0
  {
  }

  /** The streaming state: digest so far, byte count, and the part of a block not yet compressed. */
  datatype Context = Context(state: Digest, bytes: nat, tail: seq<byte>)

  /** `sha256_update` as a function of the state. */
  function Absorb(k: Constants, c: Context, data: seq<byte>): Context
    requires |c.tail| < 64
  {
    Context(Fold(k, c.state, c.tail + data),
            Wrapped(c.bytes + |data|),
            Remainder(c.tail + data))
  }

  /** A 64-bit counter. */
  function Wrapped(n: nat): (w: nat)
    ensures w < LENGTH_MODULUS
  {
    if n < LENGTH_MODULUS then n else Wrapped(n - LENGTH_MODULUS)
  }

  lemma {:induction false} WrappedIsRemainder(n: nat)
    ensures Wrapped(n) == n % LENGTH_MODULUS
  {
    if n >= LENGTH_MODULUS {
      WrappedIsRemainder(n - LENGTH_MODULUS);
    }
  }

  /** What is left of `m` after its whole blocks. */
  function Remainder(m: seq<byte>): (r: seq<byte>)
    ensures |r| < 64
    decreases |m|
  {
    if |m| < 64 then m else Remainder(m[64..])
  }

  lemma {:induction false} RemainderLength(m: seq<byte>)
    ensures |Remainder(m)| == |m| % 64
    decreases |m|
  {
    if |m| >= 64 {
      RemainderLength(m[64..]);
    }
  }

  lemma {:induction false} FoldJoins(k: Constants, d: Digest, a: seq<byte>, b: seq<byte>)
    ensures Fold(k, d, a + b) == Fold(k, Fold(k, d, a), Remainder(a) + b)
    ensures Remainder(a + b) == Remainder(Remainder(a) + b)
    decreases |a|
  {
    if |a| < 64 {
      assert Remainder(a) == a;
    } else {
      FoldJoins(k, Compress(k, d, a[..64]), a[64..], b);
      JoinFront(a, b);
    }
  }

  lemma JoinFront(a: seq<byte>, b: seq<byte>)
    requires |a| >= 64
    ensures (a + b)[..64] == a[..64] && (a + b)[64..] == a[64..] + b
  {
  }

  /** Feeding data in two pieces is feeding it in one. */
  lemma AbsorbJoins(k: Constants, c: Context, a: seq<byte>, b: seq<byte>)
    requires |c.tail| < 64
    ensures Absorb(k, Absorb(k, c, a), b) == Absorb(k, c, a + b)
  {
    FoldJoins(k, c.state, c.tail + a, b);
    assert c.tail + a + b == c.tail + (a + b);
    CountJoins(c.bytes + |a|, |b|);
  }

  lemma {:induction false} CountJoins(n: nat, more: nat)
    ensures Wrapped(Wrapped(n) + more) == Wrapped(n + more)
    decreases n
  {
    if n >= LENGTH_MODULUS {
      CountJoins(n - LENGTH_MODULUS, more);
    }
  }

  function AbsorbEach(k: Constants, c: Context, chunks: seq<seq<byte>>): Context
    requires |c.tail| < 64
    decreases |chunks|
  {
    if chunks == [] then c else AbsorbEach(k, Absorb(k, c, chunks[0]), chunks[1..])
  }

  /** Every chunking of the same bytes gives the same state. */
  lemma {:induction false} ChunkingIrrelevant(k: Constants, c: Context, chunks: seq<seq<byte>>)
    requires |c.tail| < 64 && c.bytes < LENGTH_MODULUS
    ensures AbsorbEach(k, c, chunks) == Absorb(k, c, Flatten(chunks))
    decreases |chunks|
  {
    if chunks == [] {
      FoldShort(k, c);
    } else {
      ChunkingIrrelevant(k, Absorb(k, c, chunks[0]), chunks[1..]);
      AbsorbJoins(k, c, chunks[0], Flatten(chunks[1..]));
    }
  }

  lemma FoldShort(k: Constants, c: Context)
    requires |c.tail| < 64 && c.bytes < LENGTH_MODULUS
    ensures Absorb(k, c, []) == c
  {
    assert c.tail + [] == c.tail && Remainder(c.tail) == c.tail;
  }

  /** What `sha256_final` feeds after the message. */
  function Trailer(n: nat, bytes: nat): seq<byte>
  {
    [0x80] + Zeros(ZeroCount(n)) + BigEndian64(bytes * 8 % LENGTH_MODULUS, 8)
  }

  lemma CountsOf(k: Constants, start: Context, m: seq<byte>)
    requires start.tail == [] && start.bytes == 0
    ensures Absorb(k, start, m).bytes == |m| % LENGTH_MODULUS && |Absorb(k, start, m).tail| == |m| % 64
  {
    EmptyJoins(m);
    WrappedIsRemainder(|m|);
    RemainderLength(m);
  }

  /** Finalising any chunking of a message is the block fold of its padded form. */
  lemma FinalIsPaddedFold(k: Constants, init: Digest, chunks: seq<seq<byte>>)
    ensures var c := AbsorbEach(k, Context(init, 0, []), chunks);
            |c.tail| < 64 && Absorb(k, c, Trailer(|c.tail|, c.bytes)).state == Fold(k, init, Pad(Flatten(chunks)))
  {
    var m, start := Flatten(chunks), Context(init, 0, []);
    ChunkingIrrelevant(k, start, chunks);
    var c := Absorb(k, start, m);
    CountsOf(k, start, m);
    AbsorbJoins(k, start, m, Trailer(|c.tail|, c.bytes));
    TrailerPads(m);
    assert [] + Pad(m) == Pad(m);
  }

  lemma TrailerPads(m: seq<byte>)
    ensures m + Trailer(|m| % 64, |m| % LENGTH_MODULUS) == Pad(m)
  {
    CountsAgree(|m|);
    assert ZeroCount(|m| % 64) == ZeroCount(|m|);
    var z, l := Zeros(ZeroCount(|m|)), BigEndian64(|m| * 8 % LENGTH_MODULUS, 8);
    assert m + ([0x80] + z + l) == m + [0x80] + z + l;
  }

  lemma CountsAgree(n: nat)
    ensures n % LENGTH_MODULUS * 8 % LENGTH_MODULUS == n * 8 % LENGTH_MODULUS
  {
    var q, r := n / LENGTH_MODULUS, n % LENGTH_MODULUS;
    assert n * 8 == r * 8 + LENGTH_MODULUS * (q * 8);
  }

  lemma {:induction false} ZerosGrow(n: nat)
    ensures Zeros(n) + [0] == Zeros(n + 1)
  {
    if n > 0 {
      ZerosGrow(n - 1);
      assert [0] + Zeros(n - 1) + [0] == [0] + (Zeros(n - 1) + [0]);
    } else {
      assert Zeros(1) == [0] + Zeros(0);
    }
  }

  /** The marker and the zero bytes written so far. */
  function Marker(z: nat): (m: seq<byte>)
    ensures |m| == 1 + z
  {
    [0x80] + Zeros(z)
  }

  lemma MarkerGrows(k: Constants, c: Context, z: nat)
    requires |c.tail| < 64
    ensures Absorb(k, Absorb(k, c, Marker(z)), [0]) == Absorb(k, c, Marker(z + 1))
  {
    AbsorbJoins(k, c, Marker(z), [0]);
    ZerosGrow(z);
    assert Marker(z) + [0] == Marker(z + 1);
  }

  /** With the right number of zeros, and no sooner, the length fits at the end of the block. */
  lemma MarkerDone(k: Constants, c: Context, z: nat)
    requires |c.tail| < 64 && z <= ZeroCount(|c.tail|)
    ensures |Absorb(k, c, Marker(z)).tail| == 56 <==> z == ZeroCount(|c.tail|)
  {
    MarkerRemainder(k, c, z);
    ZeroCountLeast(|c.tail|, z);
  }

  lemma MarkerRemainder(k: Constants, c: Context, z: nat)
    requires |c.tail| < 64
    ensures |Absorb(k, c, Marker(z)).tail| == (|c.tail| + 1 + z) % 64
  {
    RemainderLength(c.tail + Marker(z));
  }

  const HEX: seq<byte> := [48, 49, 50, 51, 52, 53, 54, 55, 56, 57, 97, 98, 99, 100, 101, 102]

  function Nibble(v: word): byte
  {
    HEX[(v & 15) as int]
  }

  function HexWord(v: word): seq<byte>
  {
    [HEX[(v >> 28) as int], Nibble(v >> 24), Nibble(v >> 20), Nibble(v >> 16), Nibble(v >> 12), Nibble(v >> 8),
        Nibble(v >> 4), Nibble(v)]
  }

  function HexDigest(d: seq<word>): seq<byte>
  {
    if d == [] then [] else HexDigest(d[..|d| - 1]) + HexWord(d[|d| - 1])
  }

  // ---------------------------------------------------------------------
  // The hash object.
  // ---------------------------------------------------------------------

  /** The digest and the buffered bytes once `at` bytes of `data` have been fed. */
  function FedState(k: Constants, c: Context, data: seq<byte>, at: nat): Digest
    requires at <= |data|
  {
    Fold(k, c.state, c.tail + data[..at])
  }

  function FedTail(c: Context, data: seq<byte>, at: nat): seq<byte>
    requires at <= |data|
  {
    Remainder(c.tail + data[..at])
  }

  lemma FeedNothing(k: Constants, c: Context, data: seq<byte>)
    requires |c.tail| < 64
    ensures FedState(k, c, data, 0) == c.state && FedTail(c, data, 0) == c.tail
  {
    assert c.tail + data[..0] == c.tail;
    assert Remainder(c.tail) == c.tail;
  }

  lemma FeedMore(k: Constants, c: Context, data: seq<byte>, at: nat, take: nat)
    requires at + take <= |data|
    ensures var next := FedTail(c, data, at) + data[at..at + take];
            && FedState(k, c, data, at + take) == Fold(k, FedState(k, c, data, at), next)
            && FedTail(c, data, at + take) == Remainder(next)
  {
    FoldJoins(k, c.state, c.tail + data[..at], data[at..at + take]);
    assert c.tail + data[..at] + data[at..at + take] == c.tail + data[..at + take];
  }

  lemma FoldOnce(k: Constants, d: Digest, m: seq<byte>)
    requires |m| <= 64
    ensures |m| < 64 ==> Fold(k, d, m) == d && Remainder(m) == m
    ensures |m| == 64 ==> Fold(k, d, m) == Compress(k, d, m) && Remainder(m) == []
  {
    if |m| == 64 {
      assert m[..64] == m && m[64..] == [];
    }
  }

  /** The first loop of the message schedule. */
  method StartSchedule(b: Block, w: array<word>)
    requires 16 <= w.Length <= 64
    modifies w
    ensures w[..16] == Schedule(b, 16)
  {
    var i := 0;
    while i < 16
      invariant 0 <= i <= 16 && w[..i] == Schedule(b, i)
    {
      w[i] := BigEndianWord(b, i);
      assert w[..i + 1] == w[..i] + [w[i]];
      i := i + 1;
    }
  }

  /** The second loop, from where the first one stopped. */
  method ExtendSchedule(b: Block, w: array<word>, first: nat)
    requires 16 <= first <= w.Length <= 64 && w[..first] == Schedule(b, first)
    modifies w
    ensures w[..] == Schedule(b, w.Length)
  {
    var i := first;
    while i < w.Length
      invariant first <= i <= w.Length && w[..i] == Schedule(b, i)
    {
      w[i] := NextWord(w[..i]);
      assert w[..i + 1] == w[..i] + [w[i]];
      i := i + 1;
    }
    assert w[..i] == w[..];
  }

  /** The message schedule in a work array. */
  method ExpandSchedule(b: Block, n: nat) returns (w: array<word>)
    requires n == 64
    ensures fresh(w) && w[..] == Schedule(b, n)
  {
    w := new word[n];
    StartSchedule(b, w);
    ExtendSchedule(b, w, 16);
  }

  class Hash {
    const k: Constants
    var state: array<word>
    var bytes: nat
    var block: array<byte>
    var used: nat

    ghost predicate Valid()
      reads this, state, block
    {
      state.Length == 8 && block.Length == 64 && used < 64 && bytes < LENGTH_MODULUS
    }

    ghost function View(): Context
      requires Valid()
      reads this, state, block
    {
      Context(state[..], bytes, block[..used])
    }

    /** `sha256_init`. */
    constructor (k: Constants, initial: Digest)
      ensures Valid() && fresh(state) && fresh(block)
      ensures this.k == k && View() == Context(initial, 0, [])
    {
      this.k := k;
      state := new word[8](i requires 0 <= i < 8 => initial[i]);
      block := new byte[64];
      bytes, used := 0, 0;
      new;
      assert state[..] == initial;
    }

    /** `sha256_block`: the schedule in a work array, the eight variables shifted in place. */
    method CompressBlock()
      requires state.Length == 8 && block.Length == 64
      modifies state
      ensures state[..] == Compress(k, old(state[..]), block[..])
    {
      var w := ExpandSchedule(block[..], |k|);
      var v := Load(state[..]);
      var i := 0;
      while i < |k|
        invariant 0 <= i <= |k|
        invariant v == Rounds(Load(state[..]), k, w[..], i)
        invariant unchanged(state)
      {
        v := Round(v, k[i], w[i]);
        i := i + 1;
      }
      var sum := AddIn(state[..], v);
      forall j | 0 <= j < 8 { state[j] := sum[j]; }
      assert state[..] == sum && block[..] == old(block[..]);
    }

    /** The `memcpy` into the block. */
    method Buffer(piece: seq<byte>)
      requires Valid() && used + |piece| <= 64
      modifies this`used, block
      ensures used == old(used) + |piece|
      ensures block[..used] == old(block[..used]) + piece
    {
      forall j | 0 <= j < |piece| { block[used + j] := piece[j]; }
      used := used + |piece|;
    }

    method CompressIfFull()
      requires state.Length == 8 && block.Length == 64 && used <= 64 && bytes < LENGTH_MODULUS
      modifies this`used, state
      ensures Valid()
      ensures state[..] == Fold(k, old(state[..]), old(block[..used])) && block[..used] == Remainder(old(block[..used]))
    {
      FoldOnce(k, state[..], block[..used]);
      if used == 64 {
        assert block[..64] == block[..];
        CompressBlock();
        used := 0;
        assert block[..0] == [];
      }
    }

    /** As much of `data` as the block still takes; a full block is compressed. */
    method FeedPiece(data: seq<byte>, at: nat, ghost c: Context) returns (next: nat)
      requires Valid() && at < |data| && |c.tail| < 64
      requires state[..] == FedState(k, c, data, at) && block[..used] == FedTail(c, data, at)
      modifies this`used, state, block
      ensures Valid() && at < next <= |data|
      ensures state[..] == FedState(k, c, data, next) && block[..used] == FedTail(c, data, next)
    {
      var take := 64 - used;
      if take > |data| - at { take := |data| - at; }
      FeedMore(k, c, data, at, take);
      var piece := data[at..at + take];
      Buffer(piece);
      next := at + take;
      CompressIfFull();
    }

    /** `sha256_update`. */
    method Update(data: seq<byte>)
      requires Valid()
      modifies this`bytes, this`used, state, block
      ensures Valid() && View() == Absorb(k, old(View()), data)
    {
      ghost var c := View();
      WrappedIsRemainder(bytes + |data|);
      bytes := (bytes + |data|) % LENGTH_MODULUS;
      var at := 0;
      FeedNothing(k, c, data);
      while at < |data|
        invariant 0 <= at <= |data| && Valid() && bytes == Wrapped(c.bytes + |data|)
        invariant state[..] == FedState(k, c, data, at) && block[..used] == FedTail(c, data, at)
      {
        at := FeedPiece(data, at, c);
      }
      assert data[..at] == data;
    }

    /** The marker and zero bytes one at a time, until the length fits at the end of the block. */
    method PadBlock()
      requires Valid()
      modifies this`bytes, this`used, state, block
      ensures Valid() && View() == Absorb(k, old(View()), Marker(ZeroCount(|old(View()).tail|)))
    {
      ghost var c := View();
      Update([0x80]);
      ghost var z: nat := 0;
      assert Marker(0) == [0x80];
      while used != 56
        invariant Valid() && z <= ZeroCount(|c.tail|) && View() == Absorb(k, c, Marker(z))
        decreases ZeroCount(|c.tail|) - z
      {
        MarkerDone(k, c, z);
        MarkerGrows(k, c, z);
        Update([0]);
        z := z + 1;
      }
      MarkerDone(k, c, z);
    }

    /** `sha256_final`: pads, then writes the digest in hexadecimal. */
    method Final() returns (output: seq<byte>)
      requires Valid()
      modifies this`bytes, this`used, state, block
      ensures Valid()
      ensures state[..] == Absorb(k, old(View()), Trailer(|old(View()).tail|, old(bytes))).state
      ensures output == HexDigest(state[..])
    {
      ghost var c := View();
      var length := BigEndian64(bytes * 8 % LENGTH_MODULUS, 8);
      PadBlock();
      AbsorbJoins(k, c, Marker(ZeroCount(|c.tail|)), length);
      Update(length);
      output := WriteDigest();
    }

    method WriteDigest() returns (output: seq<byte>)
      requires Valid()
      ensures output == HexDigest(state[..])
    {
      output := [];
      var i := 0;
      while i < 8
        invariant 0 <= i <= 8 && output == HexDigest(state[..i])
      {
        assert state[..i + 1][..i] == state[..i];
        output := output + HexWord(state[i]);
        i := i + 1;
      }
      assert state[..8] == state[..];
    }
  }

  lemma ZeroCountLeast(n: nat, z: nat)
    requires n < 64 && z <= ZeroCount(n)
    ensures (n + 1 + z) % 64 == 56 <==> z == ZeroCount(n)
  {
  }
}
