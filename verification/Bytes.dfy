/** Bytes and C strings, shared by every model of the C executor. */
module Bytes {

  /** One `unsigned char`.  Bit operations of the source are written as
      division and remainder: `c & 31` is `c % 32`, `c >> 6` is `c / 64`. */
  type byte = x: int | 0 <= x < 256

  /** The bytes of a C string up to, and not including, its terminator. */
  type CText = s: seq<byte> | 0 !in s witness []

  datatype Option<+T> = None | Some(value: T)

  ghost predicate Distinct<T>(s: seq<T>)
  {
    forall i, j :: 0 <= i < j < |s| ==> s[i] != s[j]
  }

  /** A list of lists, one after the other. */
  function Flatten<T>(lists: seq<seq<T>>): (s: seq<T>)
  {
    if lists == [] then [] else lists[0] + Flatten(lists[1..])
  }

  lemma Regroup<T>(a: seq<T>, b: seq<T>, c: seq<T>)
    ensures a + b + c == a + (b + c)
  {
  }

  lemma EmptyJoins<T>(s: seq<T>)
    ensures [] + s == s && s + [] == s
  {
  }

  lemma HeadJoins<T>(s: seq<T>)
    requires s != []
    ensures s == [s[0]] + s[1..]
  {
  }

  lemma {:induction false} FlattenJoins<T>(a: seq<seq<T>>, b: seq<seq<T>>)
    ensures Flatten(a + b) == Flatten(a) + Flatten(b)
  {
    if a == [] {
      assert a + b == b;
    } else {
      FlattenJoins(a[1..], b);
      assert (a + b)[0] == a[0] && (a + b)[1..] == a[1..] + b;
      Regroup(a[0], Flatten(a[1..]), Flatten(b));
    }
  }

  lemma FlattenGrows<T>(lists: seq<seq<T>>, last: seq<T>)
    ensures Flatten(lists + [last]) == Flatten(lists) + last
  {
    FlattenJoins(lists, [last]);
  }

  lemma {:induction false} SubsetSize<T>(a: set<T>, b: set<T>)
    requires a <= b
    ensures |a| <= |b|
    decreases a
  {
    if x :| x in a {
      SubsetSize(a - {x}, b - {x});
    }
  }

  /** `memcmp(s + i, part, |part|) == 0`, for a part that still fits. */
  predicate OccursAt(s: seq<byte>, part: seq<byte>, i: nat)
  {
    i + |part| <= |s| && s[i..i + |part|] == part
  }

  /** `*(s + i)` for a pointer that may stand on the terminator. */
  function At(s: CText, i: nat): (b: byte)
    requires i <= |s|
    ensures b == 0 <==> i == |s|
  {
    if i < |s| then s[i] else 0
  }

  /** `strcmp(a, b) < 0`: byte-wise lexicographic order. */
  predicate Below(a: seq<byte>, b: seq<byte>)
  {
    if b == [] then false
    else if a == [] then true
    else a[0] < b[0] || (a[0] == b[0] && Below(a[1..], b[1..]))
  }

  lemma BelowTransitive(a: seq<byte>, b: seq<byte>, c: seq<byte>)
    requires Below(a, b) && Below(b, c)
    ensures Below(a, c)
  {
  }

  lemma BelowTotal(a: seq<byte>, b: seq<byte>)
    ensures a == b || Below(a, b) || Below(b, a)
  {
    if a != [] && b != [] && a[0] == b[0] {
      BelowTotal(a[1..], b[1..]);
      assert a == [a[0]] + a[1..] && b == [b[0]] + b[1..];
    }
  }

  lemma BelowIrreflexive(a: seq<byte>)
    ensures !Below(a, a)
  {
  }
}
