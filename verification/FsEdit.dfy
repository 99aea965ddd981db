/** `owc_fs_edit` of core/src/fs.c: a counting pass, a size computation, a rewriting pass. */
module FsEdit {
  import opened Bytes
  import Utf8

  const MAX_FILE_SIZE: nat := 16 * 1024 * 1024
  const SIZE_MAX: nat := 0xFFFF_FFFF_FFFF_FFFF

  datatype EditError = InvalidArgument | IoError | InvalidUtf8 | NoMatch | MultipleMatches | NoMemory
  datatype EditResult = Edited(content: seq<byte>, matches: nat) | Refused(error: EditError)

  /** The positions of the left-to-right, non-overlapping occurrences from `i` on. */
  function Occurrences(data: seq<byte>, old_: seq<byte>, i: nat): (at: seq<nat>)
    requires old_ != []
    decreases |data| - i
  {
    if i >= |data| then []
    else if OccursAt(data, old_, i) then [i] + Occurrences(data, old_, i + |old_|)
    else Occurrences(data, old_, i + 1)
  }

  /** `data[from..]` with the text at each given position replaced. */
  function ReplaceAt(data: seq<byte>, n: nat, new_: seq<byte>, at: seq<nat>, from: nat): seq<byte>
    requires Spaced(at, n, from, |data|)
    decreases |at|
  {
    if at == [] then data[from..]
    else data[from..at[0]] + new_ + ReplaceAt(data, n, new_, at[1..], at[0] + n)
  }

  /** Ascending positions, at least `n` apart, all of them leaving room for `n` bytes. */
  ghost predicate Spaced(at: seq<nat>, n: nat, from: nat, length: nat)
  {
    if at == [] then from <= length else from <= at[0] && at[0] + n <= length && Spaced(at[1..], n, at[0] + n, length)
  }

  lemma {:induction false} OccurrencesSpaced(data: seq<byte>, old_: seq<byte>, i: nat)
    requires old_ != [] && i <= |data|
    ensures Spaced(Occurrences(data, old_, i), |old_|, i, |data|)
    decreases |data| - i
  {
    if i < |data| {
      if OccursAt(data, old_, i) {
        OccurrencesSpaced(data, old_, i + |old_|);
        assert Occurrences(data, old_, i)[1..] == Occurrences(data, old_, i + |old_|);
      } else {
        OccurrencesSpaced(data, old_, i + 1);
        SpacedWeaken(Occurrences(data, old_, i + 1), |old_|, i, i + 1, |data|);
      }
    }
  }

  lemma SpacedWeaken(at: seq<nat>, n: nat, i: nat, j: nat, length: nat)
    requires i <= j && Spaced(at, n, j, length)
    ensures Spaced(at, n, i, length)
  {
  }

  lemma {:induction false} SpacedRoom(at: seq<nat>, n: nat, from: nat, length: nat)
    requires Spaced(at, n, from, length)
    ensures from + |at| * n <= length
    decreases |at|
  {
    if at != [] {
      SpacedRoom(at[1..], n, at[0] + n, length);
      assert |at| * n == |at[1..]| * n + n;
    }
  }

  /** What `fs.edit` promises: every left-to-right, non-overlapping occurrence replaced. */
  function Replaced(data: seq<byte>, old_: seq<byte>, new_: seq<byte>): seq<byte>
    requires old_ != []
  {
    OccurrencesSpaced(data, old_, 0);
    ReplaceAt(data, |old_|, new_, Occurrences(data, old_, 0), 0)
  }

  /** What the rewriting pass writes from `i` on: it looks for occurrences again
      instead of using the positions the counting pass found. */
  function Rewritten(data: seq<byte>, old_: seq<byte>, new_: seq<byte>, i: nat): seq<byte>
    requires old_ != []
    decreases |data| - i
  {
    if i >= |data| then []
    else if OccursAt(data, old_, i) then new_ + Rewritten(data, old_, new_, i + |old_|)
    else [data[i]] + Rewritten(data, old_, new_, i + 1)
  }

  /** Both passes find the same occurrences. */
  lemma {:induction false} PassesAgree(data: seq<byte>, old_: seq<byte>, new_: seq<byte>, i: nat)
    requires old_ != [] && i <= |data|
    ensures Spaced(Occurrences(data, old_, i), |old_|, i, |data|)
    ensures Rewritten(data, old_, new_, i) == ReplaceAt(data, |old_|, new_, Occurrences(data, old_, i), i)
    decreases |data| - i
  {
    if i < |data| {
      if OccursAt(data, old_, i) {
        PassesAgree(data, old_, new_, i + |old_|);
        ReplaceHits(data, |old_|, new_, Occurrences(data, old_, i + |old_|), i);
      } else {
        PassesAgree(data, old_, new_, i + 1);
        ReplaceSkips(data, |old_|, new_, Occurrences(data, old_, i + 1), i);
      }
    }
  }

  lemma ReplaceHits(data: seq<byte>, n: nat, new_: seq<byte>, at: seq<nat>, i: nat)
    requires i + n <= |data| && Spaced(at, n, i + n, |data|)
    ensures Spaced([i] + at, n, i, |data|)
    ensures ReplaceAt(data, n, new_, [i] + at, i) == new_ + ReplaceAt(data, n, new_, at, i + n)
  {
    var whole, tail := [i] + at, ReplaceAt(data, n, new_, at, i + n);
    assert whole[0] == i && whole[1..] == at;
    assert ReplaceAt(data, n, new_, whole, i) == data[i..i] + new_ + tail;
    assert data[i..i] + new_ == new_;
  }

  /** A byte before the first position is kept. */
  lemma ReplaceSkips(data: seq<byte>, n: nat, new_: seq<byte>, at: seq<nat>, i: nat)
    requires i < |data| && Spaced(at, n, i + 1, |data|)
    ensures Spaced(at, n, i, |data|)
    ensures ReplaceAt(data, n, new_, at, i) == [data[i]] + ReplaceAt(data, n, new_, at, i + 1)
  {
    if at == [] {
      assert data[i..] == [data[i]] + data[i + 1..];
    } else {
      assert data[i..at[0]] == [data[i]] + data[i + 1..at[0]];
      var tail := ReplaceAt(data, n, new_, at[1..], at[0] + n);
      assert [data[i]] + data[i + 1..at[0]] + new_ + tail == [data[i]] + (data[i + 1..at[0]] + new_ + tail);
    }
  }

  lemma {:induction false} ReplaceLength(data: seq<byte>, n: nat, new_: seq<byte>, at: seq<nat>, from: nat)
    requires Spaced(at, n, from, |data|)
    ensures |ReplaceAt(data, n, new_, at, from)| == |data| - from + |at| * |new_| - |at| * n
    decreases |at|
  {
    if at != [] {
      var rest := at[1..];
      ReplaceLength(data, n, new_, rest, at[0] + n);
      OneMore(|rest|, n);
      OneMore(|rest|, |new_|);
    }
  }

  lemma OneMore(count: nat, n: nat)
    ensures (count + 1) * n == count * n + n
  {
  }

  /** The verdict of `owc_fs_edit` on a file that could be read, in the order it checks. */
  ghost function Edit(data: seq<byte>, old_: seq<byte>, new_: seq<byte>, replaceAll: bool): EditResult
  {
    if old_ == [] || !Utf8.IsText(old_) || !Utf8.IsText(new_) then Refused(InvalidArgument)
    else if |data| > MAX_FILE_SIZE then Refused(IoError)
    else if !Utf8.IsText(data) then Refused(InvalidUtf8)
    else
      var count := |Occurrences(data, old_, 0)|;
      if count == 0 then Refused(NoMatch)
      else if !replaceAll && count != 1 then Refused(MultipleMatches)
      else if |data| + count * |new_| - count * |old_| > SIZE_MAX then Refused(NoMemory)
      else if |Replaced(data, old_, new_)| > MAX_FILE_SIZE then Refused(InvalidArgument)
      else Edited(Replaced(data, old_, new_), count)
  }

  /** The counting pass. */
  method Count(data: seq<byte>, old_: seq<byte>) returns (count: nat)
    requires old_ != []
    ensures count == |Occurrences(data, old_, 0)|
  {
    count := 0;
    var i := 0;
    while i + |old_| <= |data|
      invariant 0 <= i <= |data|
      invariant |Occurrences(data, old_, 0)| == count + |Occurrences(data, old_, i)|
      decreases |data| - i
    {
      if OccursAt(data, old_, i) {
        count, i := count + 1, i + |old_|;
      } else {
        i := i + 1;
      }
    }
    NoRoomNoMatch(data, old_, i);
  }

  lemma {:induction false} NoRoomNoMatch(data: seq<byte>, old_: seq<byte>, i: nat)
    requires old_ != [] && i + |old_| > |data|
    ensures Occurrences(data, old_, i) == []
    decreases |data| - i
  {
    if i < |data| {
      NoRoomNoMatch(data, old_, i + 1);
    }
  }

  /** The output size as the code computes it: no intermediate value leaves 0..SIZE_MAX. */
  method OutputSize(length: nat, count: nat, oldn: nat, newn: nat) returns (size: Option<nat>)
    requires length <= SIZE_MAX && newn <= SIZE_MAX && count * oldn <= length
    ensures size.Some? <==> length + count * newn - count * oldn <= SIZE_MAX
    ensures size.Some? ==> size.value == length + count * newn - count * oldn
  {
    if newn > oldn {
      var step := newn - oldn;
      assert count * newn - count * oldn == count * step;
      var limit := (SIZE_MAX - length) / step;
      QuotientBound(SIZE_MAX - length, step, count);
      if count > limit { return None; }
      return Some(length + count * step);
    }
    if newn == oldn { return Some(length); }
    var step := oldn - newn;
    assert count * oldn - count * newn == count * step;
    assert count * newn >= 0;
    return Some(length - count * step);
  }

  lemma QuotientBound(room: nat, step: nat, count: nat)
    requires step > 0
    ensures count > room / step <==> count * step > room
  {
    var q := room / step;
    assert room == q * step + room % step;
    if count > q {
      assert count * step >= (q + 1) * step == q * step + step;
    } else {
      assert count * step <= q * step;
    }
  }

  /** The rewriting pass fills the buffer sized beforehand exactly. */
  method Rewrite(data: seq<byte>, old_: seq<byte>, new_: seq<byte>, out: array<byte>)
    requires old_ != [] && out.Length == |Rewritten(data, old_, new_, 0)|
    modifies out
    ensures out[..] == Rewritten(data, old_, new_, 0)
  {
    var readAt, writeAt := 0, 0;
    while readAt < |data|
      invariant 0 <= readAt <= |data| && 0 <= writeAt <= out.Length
      invariant Rewritten(data, old_, new_, 0) == out[..writeAt] + Rewritten(data, old_, new_, readAt)
      decreases |data| - readAt
    {
      ghost var done := out[..writeAt];
      if OccursAt(data, old_, readAt) {
        Regroup(done, new_, Rewritten(data, old_, new_, readAt + |old_|));
        writeAt := Copy(out, writeAt, new_);
        readAt := readAt + |old_|;
      } else {
        Regroup(done, [data[readAt]], Rewritten(data, old_, new_, readAt + 1));
        writeAt := Copy(out, writeAt, [data[readAt]]);
        readAt := readAt + 1;
      }
    }
    assert out[..writeAt] == out[..];
  }

  /** `memcpy` to the write cursor. */
  method Copy(out: array<byte>, at: nat, piece: seq<byte>) returns (end: nat)
    requires at + |piece| <= out.Length
    modifies out
    ensures end == at + |piece| && out[..end] == old(out[..at]) + piece
  {
    forall j | 0 <= j < |piece| { out[at + j] := piece[j]; }
    end := at + |piece|;
  }

  /** The checks and both passes, on the content read from disk. */
  method EditFile(data: seq<byte>, old_: seq<byte>, new_: seq<byte>, replaceAll: bool) returns (result: EditResult)
    requires |new_| <= SIZE_MAX
    ensures result == Edit(data, old_, new_, replaceAll)
  {
    if old_ == [] { return Refused(InvalidArgument); }
    var ok := Utf8.Valid(old_);
    if !ok { return Refused(InvalidArgument); }
    ok := Utf8.Valid(new_);
    if !ok { return Refused(InvalidArgument); }
    if |data| > MAX_FILE_SIZE { return Refused(IoError); }
    ok := Utf8.Valid(data);
    if !ok { return Refused(InvalidUtf8); }
    var count := Count(data, old_);
    if count == 0 { return Refused(NoMatch); }
    if !replaceAll && count != 1 { return Refused(MultipleMatches); }
    PassesAgree(data, old_, new_, 0);
    SpacedRoom(Occurrences(data, old_, 0), |old_|, 0, |data|);
    ReplaceLength(data, |old_|, new_, Occurrences(data, old_, 0), 0);
    var size := OutputSize(|data|, count, |old_|, |new_|);
    if size.None? { return Refused(NoMemory); }
    if size.value > MAX_FILE_SIZE { return Refused(InvalidArgument); }
    var out := new byte[size.value];
    Rewrite(data, old_, new_, out);
    return Edited(out[..], count);
  }

  // ---------------------------------------------------------------------
  // What the specification means.
  // ---------------------------------------------------------------------

  /** Every position is an occurrence, and none is missed unless it overlaps the one before it. */
  lemma {:induction false} OccurrencesComplete(data: seq<byte>, old_: seq<byte>, i: nat, p: nat)
    requires old_ != [] && i <= p && OccursAt(data, old_, p)
    ensures exists k :: 0 <= k < |Occurrences(data, old_, i)|
              && Occurrences(data, old_, i)[k] <= p < Occurrences(data, old_, i)[k] + |old_|
    decreases |data| - i
  {
    var at := Occurrences(data, old_, i);
    if OccursAt(data, old_, i) {
      assert at[0] == i;
      if p >= i + |old_| {
        OccurrencesComplete(data, old_, i + |old_|, p);
        var rest := Occurrences(data, old_, i + |old_|);
        var k :| 0 <= k < |rest| && rest[k] <= p < rest[k] + |old_|;
        assert at[k + 1] == rest[k];
      }
    } else {
      OccurrencesComplete(data, old_, i + 1, p);
    }
  }

  lemma {:induction false} OccurrencesSound(data: seq<byte>, old_: seq<byte>, i: nat, k: nat)
    requires old_ != [] && k < |Occurrences(data, old_, i)|
    ensures OccursAt(data, old_, Occurrences(data, old_, i)[k]) && Occurrences(data, old_, i)[k] >= i
    decreases |data| - i
  {
    if OccursAt(data, old_, i) {
      if k > 0 { OccurrencesSound(data, old_, i + |old_|, k - 1); }
    } else {
      OccurrencesSound(data, old_, i + 1, k);
    }
  }

  lemma OneReplacement(data: seq<byte>, n: nat, new_: seq<byte>, p: nat)
    requires p + n <= |data|
    ensures Spaced([p], n, 0, |data|)
    ensures ReplaceAt(data, n, new_, [p], 0) == data[..p] + new_ + data[p + n..]
  {
    assert Spaced([], n, p + n, |data|) && [p][1..] == [];
    assert ReplaceAt(data, n, new_, [], p + n) == data[p + n..];
    assert data[0..p] == data[..p];
  }

  lemma EditedIs(data: seq<byte>, old_: seq<byte>, new_: seq<byte>, replaceAll: bool)
    requires Edit(data, old_, new_, replaceAll).Edited?
    ensures old_ != [] && Utf8.IsText(old_) && Utf8.IsText(new_) && Utf8.IsText(data)
    ensures Spaced(Occurrences(data, old_, 0), |old_|, 0, |data|)
    ensures Edit(data, old_, new_, replaceAll).content ==
            ReplaceAt(data, |old_|, new_, Occurrences(data, old_, 0), 0)
    ensures Occurrences(data, old_, 0) != [] && (!replaceAll ==> |Occurrences(data, old_, 0)| == 1)
  {
    OccurrencesSpaced(data, old_, 0);
  }

  lemma OnePlace(data: seq<byte>, old_: seq<byte>, new_: seq<byte>)
    requires old_ != [] && |Occurrences(data, old_, 0)| == 1 && Spaced(Occurrences(data, old_, 0), |old_|, 0, |data|)
    ensures exists p: nat :: OccursAt(data, old_, p)
              && ReplaceAt(data, |old_|, new_, Occurrences(data, old_, 0), 0) == data[..p] + new_ + data[p + |old_|..]
              && (forall q: nat :: OccursAt(data, old_, q) ==> p <= q < p + |old_|)
  {
    var at := Occurrences(data, old_, 0);
    OccurrencesSound(data, old_, 0, 0);
    var p := at[0];
    assert at == [p];
    OneReplacement(data, |old_|, new_, p);
    forall q: nat | OccursAt(data, old_, q) ensures p <= q < p + |old_| {
      OccurrencesComplete(data, old_, 0, q);
    }
  }

  /** A single edit is made only where there is one place it could be made without
      overlapping the place that was chosen. */
  lemma SingleEditIsUnambiguous(data: seq<byte>, old_: seq<byte>, new_: seq<byte>)
    requires Edit(data, old_, new_, false).Edited?
    ensures exists p: nat :: OccursAt(data, old_, p)
              && Edit(data, old_, new_, false).content == data[..p] + new_ + data[p + |old_|..]
              && (forall q: nat :: OccursAt(data, old_, q) ==> p <= q < p + |old_|)
  {
    EditedIs(data, old_, new_, false);
    OnePlace(data, old_, new_);
  }

  /** An occurrence of text inside text starts and ends at sequence boundaries. */
  lemma TextAround(data: seq<byte>, from: nat, p: nat, n: nat)
    requires from <= p && 0 < n && p + n <= |data|
    requires Utf8.IsText(data[from..]) && Utf8.IsText(data[p..p + n])
    ensures Utf8.IsText(data[from..p]) && Utf8.IsText(data[p + n..])
  {
    var rest, hit, tail := data[from..], data[p..p + n], data[p..];
    assert rest[p - from] == hit[0];
    Utf8.TextStart(hit);
    Utf8.TextSplits(rest, p - from);
    assert rest[..p - from] == data[from..p] && rest[p - from..] == tail;
    assert tail[..n] == hit && tail[n..] == data[p + n..];
    if n < |tail| { Utf8.NoCutInside(tail, n); }
    Utf8.TextSplits(tail, n);
  }

  /** The given positions all hold valid text of length `n`. */
  ghost predicate TextAtEach(data: seq<byte>, n: nat, at: seq<nat>)
  {
    at == [] || (at[0] + n <= |data| && Utf8.IsText(data[at[0]..at[0] + n]) && TextAtEach(data, n, at[1..]))
  }

  lemma {:induction false} OccurrencesAreText(data: seq<byte>, old_: seq<byte>, i: nat)
    requires old_ != [] && Utf8.IsText(old_)
    ensures TextAtEach(data, |old_|, Occurrences(data, old_, i))
    decreases |data| - i
  {
    if i < |data| {
      if OccursAt(data, old_, i) {
        OccurrencesAreText(data, old_, i + |old_|);
        assert Occurrences(data, old_, i)[1..] == Occurrences(data, old_, i + |old_|);
      } else {
        OccurrencesAreText(data, old_, i + 1);
      }
    }
  }

  lemma JoinThree(a: seq<byte>, b: seq<byte>, c: seq<byte>)
    requires Utf8.IsText(a) && Utf8.IsText(b) && Utf8.IsText(c)
    ensures Utf8.IsText(a + b + c)
  {
    Utf8.TextJoins(a, b);
    Utf8.TextJoins(a + b, c);
  }

  lemma ReplaceFirst(data: seq<byte>, n: nat, new_: seq<byte>, at: seq<nat>, from: nat)
    requires at != [] && Spaced(at, n, from, |data|)
    ensures from <= at[0] && at[0] + n <= |data| && Spaced(at[1..], n, at[0] + n, |data|)
    ensures ReplaceAt(data, n, new_, at, from) ==
            data[from..at[0]] + new_ + ReplaceAt(data, n, new_, at[1..], at[0] + n)
  {
  }

  /** Replacing inside text keeps it text. */
  lemma {:induction false} ReplacedIsText(data: seq<byte>, n: nat, new_: seq<byte>, at: seq<nat>, from: nat)
    requires n > 0 && Spaced(at, n, from, |data|) && TextAtEach(data, n, at)
    requires from <= |data| && Utf8.IsText(data[from..]) && Utf8.IsText(new_)
    ensures Utf8.IsText(ReplaceAt(data, n, new_, at, from))
    decreases |at|
  {
    if at != [] {
      var rest, p := at[1..], at[0];
      ReplaceFirst(data, n, new_, at, from);
      TextAround(data, from, p, n);
      ReplacedIsText(data, n, new_, rest, p + n);
      JoinThree(data[from..p], new_, ReplaceAt(data, n, new_, rest, p + n));
    }
  }

  /** An accepted edit of valid text is valid text, so a later `fs.read` or `fs.edit` accepts it. */
  lemma EditKeepsText(data: seq<byte>, old_: seq<byte>, new_: seq<byte>, replaceAll: bool)
    requires Edit(data, old_, new_, replaceAll).Edited?
    ensures Utf8.IsText(Edit(data, old_, new_, replaceAll).content)
  {
    EditedIs(data, old_, new_, replaceAll);
    OccurrencesAreText(data, old_, 0);
    assert data[0..] == data;
    ReplacedIsText(data, |old_|, new_, Occurrences(data, old_, 0), 0);
  }
}
