/** The glob matcher of core/src/fs.c: `*` is any run of bytes, `?` exactly one. */
module Glob {
  import opened Bytes

  const STAR: byte := 42
  const QUESTION: byte := 63

  /** What a pattern means, independently of how it is searched. */
  ghost predicate Matches(p: seq<byte>, v: seq<byte>)
    decreases |p| + |v|
  {
    if p == [] then v == []
    else if p[0] == STAR then Matches(p[1..], v) || (v != [] && Matches(p, v[1..]))
    else v != [] && (p[0] == QUESTION || p[0] == v[0]) && Matches(p[1..], v[1..])
  }

  /** A star stands for any run of bytes. */
  lemma {:induction false} StarIsAnyRun(p: seq<byte>, v: seq<byte>)
    requires p != [] && p[0] == STAR
    ensures Matches(p, v) <==> exists k :: 0 <= k <= |v| && Matches(p[1..], v[k..])
    decreases |v|
  {
    assert v[0..] == v;
    if v != [] {
      StarIsAnyRun(p, v[1..]);
      if Matches(p, v[1..]) {
        var k :| 0 <= k <= |v[1..]| && Matches(p[1..], v[1..][k..]);
        assert v[1..][k..] == v[k + 1..];
      }
      if k :| 1 <= k <= |v| && Matches(p[1..], v[k..]) {
        assert v[k..] == v[1..][k - 1..];
      }
    }
  }

  /** A pattern that starts with a star and matches a suffix also matches every
      longer suffix: this is why one backtrack point is enough. */
  lemma StarAbsorbs(p: seq<byte>, v: seq<byte>, from: nat, to: nat)
    requires p != [] && p[0] == STAR
    requires from <= to <= |v|
    requires Matches(p, v[to..])
    ensures Matches(p, v[from..])
  {
    StarIsAnyRun(p, v[from..]);
    StarIsAnyRun(p, v[to..]);
    var k :| 0 <= k <= |v[to..]| && Matches(p[1..], v[to..][k..]);
    assert v[to..][k..] == v[from..][to - from + k..];
  }

  /** `seg` has no star and agrees with `t` byte for byte. */
  ghost predicate Fits(seg: seq<byte>, t: seq<byte>)
  {
    |seg| == |t| && forall i :: 0 <= i < |seg| ==> seg[i] != STAR && (seg[i] == QUESTION || seg[i] == t[i])
  }

  lemma {:induction false} SegmentSplits(seg: seq<byte>, rest: seq<byte>, v: seq<byte>)
    requires forall i :: 0 <= i < |seg| ==> seg[i] != STAR
    ensures Matches(seg + rest, v) <==> |seg| <= |v| && Fits(seg, v[..|seg|]) && Matches(rest, v[|seg|..])
  {
    if seg == [] {
      assert seg + rest == rest && v[0..] == v;
    } else {
      var p := seg + rest;
      assert p[1..] == seg[1..] + rest;
      if v != [] {
        SegmentSplits(seg[1..], rest, v[1..]);
        if |seg| <= |v| {
          assert v[1..][|seg| - 1..] == v[|seg|..];
          assert v[..|seg|] == [v[0]] + v[1..][..|seg| - 1];
          assert seg == [seg[0]] + seg[1..];
        }
      }
    }
  }

  /** While the segment after the last star fits, the whole question is what
      remains of the pattern against what remains of the value, or a later try. */
  lemma ForgetOlderStar(pattern: seq<byte>, value: seq<byte>, star: nat, resume: nat, p: nat, v: nat)
    requires star < p < |pattern| && resume <= v <= |value|
    requires pattern[star] == STAR && pattern[p] == STAR
    requires Fits(pattern[star + 1..p], value[resume..v])
    ensures Matches(pattern[star..], value[resume..]) <==> Matches(pattern[p..], value[v..])
  {
    var seg, rest := pattern[star + 1..p], pattern[p..];
    var suffix := value[resume..];
    assert pattern[star..][1..] == seg + rest;
    StarIsAnyRun(pattern[star..], suffix);
    if Matches(rest, value[v..]) {
      SegmentSplits(seg, rest, suffix);
      assert suffix[..|seg|] == value[resume..v] && suffix[|seg|..] == value[v..];
      assert suffix[0..] == suffix;
    }
    if Matches(pattern[star..], suffix) {
      var k :| 0 <= k <= |suffix| && Matches(pattern[star..][1..], suffix[k..]);
      SegmentSplits(seg, rest, suffix[k..]);
      assert suffix[k..][|seg|..] == value[v + k..];
      StarAbsorbs(rest, value, v, v + k);
    }
  }

  /** When the segment after the last star stops fitting, the star must take one byte more. */
  lemma RetryLater(pattern: seq<byte>, value: seq<byte>, star: nat, resume: nat, p: nat, v: nat)
    requires star < p <= |pattern| && resume <= v < |value|
    requires pattern[star] == STAR
    requires Fits(pattern[star + 1..p], value[resume..v])
    requires p < |pattern| ==> pattern[p] != STAR && pattern[p] != QUESTION && pattern[p] != value[v]
    ensures Matches(pattern[star..], value[resume..]) <==> Matches(pattern[star..], value[resume + 1..])
  {
    var seg, rest := pattern[star + 1..p], pattern[p..];
    var suffix := value[resume..];
    assert pattern[star..][1..] == seg + rest;
    SegmentSplits(seg, rest, suffix);
    assert suffix[|seg|..] == value[v..];
    assert suffix[1..] == value[resume + 1..];
    assert !Matches(rest, value[v..]);
  }

  lemma FitGrows(pattern: seq<byte>, value: seq<byte>, a: nat, resume: nat, p: nat, v: nat)
    requires a <= p < |pattern| && resume <= v < |value|
    requires Fits(pattern[a..p], value[resume..v])
    requires pattern[p] != STAR && (pattern[p] == QUESTION || pattern[p] == value[v])
    ensures Fits(pattern[a..p + 1], value[resume..v + 1])
    ensures Matches(pattern[p..], value[v..]) <==> Matches(pattern[p + 1..], value[v + 1..])
  {
    assert pattern[p..][1..] == pattern[p + 1..] && value[v..][1..] == value[v + 1..];
    assert pattern[a..p + 1] == pattern[a..p] + [pattern[p]];
    assert value[resume..v + 1] == value[resume..v] + [value[v]];
  }

  /** Only stars match the empty value. */
  lemma {:induction false} EmptyValue(p: seq<byte>)
    ensures Matches(p, []) <==> forall i :: 0 <= i < |p| ==> p[i] == STAR
  {
    if p != [] && p[0] == STAR {
      EmptyValue(p[1..]);
      assert p == [p[0]] + p[1..];
    }
  }

  /** Value exhausted: the star in force keeps what it took, because a later try has fewer bytes. */
  lemma SettledAtEnd(pattern: seq<byte>, value: seq<byte>, star: nat, resume: nat, p: nat)
    requires star < p <= |pattern| && resume <= |value|
    requires pattern[star] == STAR
    requires Fits(pattern[star + 1..p], value[resume..])
    ensures Matches(pattern[star..], value[resume..]) <==> Matches(pattern[p..], [])
  {
    var seg, rest := pattern[star + 1..p], pattern[p..];
    var suffix := value[resume..];
    assert pattern[star..][1..] == seg + rest;
    StarIsAnyRun(pattern[star..], suffix);
    if Matches(rest, []) {
      SegmentSplits(seg, rest, suffix);
      assert suffix[..|seg|] == suffix && suffix[|seg|..] == [];
      assert suffix[0..] == suffix;
    }
    if Matches(pattern[star..], suffix) {
      var k :| 0 <= k <= |suffix| && Matches(pattern[star..][1..], suffix[k..]);
      SegmentSplits(seg, rest, suffix[k..]);
      assert k == 0 && suffix[k..][|seg|..] == [];
    }
  }

  /** The most iterations the search can make: one pass over the pattern for
      every retry, and a retry moves `resume` on by one byte of the value. */
  ghost function StepLimit(m: nat, retries: nat): nat
  {
    if retries == 0 then m else StepLimit(m, retries - 1) + m + 1
  }

  lemma {:induction false} StepLimitClosed(m: nat, n: nat)
    ensures StepLimit(m, n) < (m + 1) * (n + 1)
  {
    if n > 0 {
      StepLimitClosed(m, n - 1);
    }
  }

  lemma {:induction false} StepLimitGrows(m: nat, a: nat, b: nat)
    requires a <= b
    ensures StepLimit(m, a) <= StepLimit(m, b)
    decreases b
  {
    if a < b {
      StepLimitGrows(m, a, b - 1);
    }
  }

  /** The state of the search: the segment after the last star fits so far, and
      what is left to decide is equivalent to the original question. */
  ghost predicate Searching(pattern: seq<byte>, value: seq<byte>, p: nat, v: nat, star: int, resume: nat)
  {
    && p <= |pattern| && resume <= v <= |value| && -1 <= star < p
    && (star < 0 ==> resume == 0)
    && (star >= 0 ==> pattern[star] == STAR)
    && Fits(pattern[star + 1..p], value[resume..v])
    && (Matches(pattern, value) <==>
        if star < 0 then Matches(pattern[p..], value[v..]) else Matches(pattern[star..], value[resume..]))
  }

  lemma SearchStarts(pattern: seq<byte>, value: seq<byte>)
    ensures Searching(pattern, value, 0, 0, -1, 0)
  {
    assert pattern[0..] == pattern && value[0..] == value;
  }

  lemma NewStar(pattern: seq<byte>, value: seq<byte>, p: nat, v: nat, star: int, resume: nat)
    requires Searching(pattern, value, p, v, star, resume)
    requires p < |pattern| && pattern[p] == STAR
    ensures Searching(pattern, value, p + 1, v, p, v)
  {
    if star >= 0 {
      ForgetOlderStar(pattern, value, star, resume, p, v);
    }
  }

  lemma ByteFits(pattern: seq<byte>, value: seq<byte>, p: nat, v: nat, star: int, resume: nat)
    requires Searching(pattern, value, p, v, star, resume)
    requires p < |pattern| && v < |value|
    requires pattern[p] != STAR && (pattern[p] == QUESTION || pattern[p] == value[v])
    ensures Searching(pattern, value, p + 1, v + 1, star, resume)
  {
    FitGrows(pattern, value, star + 1, resume, p, v);
  }

  lemma ByteMisfits(pattern: seq<byte>, value: seq<byte>, p: nat, v: nat, star: int, resume: nat)
    requires Searching(pattern, value, p, v, star, resume)
    requires v < |value|
    requires p < |pattern| ==> pattern[p] != STAR && pattern[p] != QUESTION && pattern[p] != value[v]
    ensures star < 0 ==> !Matches(pattern, value)
    ensures star >= 0 ==> Searching(pattern, value, star + 1, resume + 1, star, resume + 1)
  {
    if star >= 0 {
      RetryLater(pattern, value, star, resume, p, v);
      assert pattern[star + 1..star + 1] == [] && value[resume + 1..resume + 1] == [];
    }
  }

  lemma ValueExhausted(pattern: seq<byte>, value: seq<byte>, p: nat, star: int, resume: nat)
    requires Searching(pattern, value, p, |value|, star, resume)
    ensures Matches(pattern, value) <==> forall i :: p <= i < |pattern| ==> pattern[i] == STAR
  {
    assert value[|value|..] == [] && value[resume..|value|] == value[resume..];
    if star >= 0 {
      SettledAtEnd(pattern, value, star, resume, p);
    }
    EmptyValue(pattern[p..]);
    assert forall i :: p <= i < |pattern| ==> pattern[i] == pattern[p..][i - p];
  }

  /** One turn of the loop: one byte on in the pattern, or back to just after the last star and one
      byte on in the value; `lost` when there is no star to go back to. */
  method OneStep(pattern: CText, value: CText, p: nat, v: nat, star: int, resume: nat)
    returns (lost: bool, p': nat, v': nat, star': int, resume': nat)
    requires p <= |pattern| && v < |value| && Searching(pattern, value, p, v, star, resume)
    ensures lost ==> !Matches(pattern, value) && resume == 0
    ensures !lost ==> Searching(pattern, value, p', v', star', resume')
    ensures !lost ==> if p' == p + 1 then resume <= resume' else resume' == resume + 1
  {
    if At(pattern, p) == STAR {
      NewStar(pattern, value, p, v, star, resume);
      return false, p + 1, v, p, v;
    }
    if At(pattern, p) == QUESTION || At(pattern, p) == At(value, v) {
      ByteFits(pattern, value, p, v, star, resume);
      return false, p + 1, v + 1, star, resume;
    }
    ByteMisfits(pattern, value, p, v, star, resume);
    if star < 0 {
      return true, p, v, star, resume;
    }
    return false, star + 1, resume + 1, star, resume + 1;
  }

  /** The loop of `owc_fs_match_pattern`.  `steps` counts the iterations of both loops. */
  method MatchPattern(pattern: CText, value: CText) returns (matched: bool, steps: nat)
    ensures matched <==> Matches(pattern, value)
    ensures steps <= StepLimit(|pattern|, |value|)  // less than (|pattern| + 1) * (|value| + 1)
  {
    var p: nat, v: nat, star: int, resume: nat := 0, 0, -1, 0;
    ghost var retries: nat, limit: nat := 0, |pattern|;
    steps := 0;
    SearchStarts(pattern, value);
    while At(value, v) != 0
      invariant p <= |pattern| && v <= |value| && star < p
      invariant Searching(pattern, value, p, v, star, resume)
      invariant retries <= resume && limit == StepLimit(|pattern|, retries)
      invariant steps + |pattern| <= limit + p
      decreases |value| - resume, |pattern| - p
    {
      steps := steps + 1;
      ghost var was := p;
      var lost;
      lost, p, v, star, resume := OneStep(pattern, value, p, v, star, resume);
      if lost {
        StepLimitGrows(|pattern|, retries, |value|);
        return false, steps;
      }
      if p != was + 1 {
        retries, limit := retries + 1, limit + |pattern| + 1;
      }
    }
    ValueExhausted(pattern, value, p, star, resume);
    var end := SkipStars(pattern, p);
    StepLimitGrows(|pattern|, retries, |value|);
    return At(pattern, end) == 0, steps + (end - p);
  }

  /** The trailing `while(*p=='*')p++`. */
  method SkipStars(pattern: CText, p: nat) returns (end: nat)
    requires p <= |pattern|
    ensures p <= end <= |pattern|
    ensures forall i :: p <= i < end ==> pattern[i] == STAR
    ensures end < |pattern| ==> pattern[end] != STAR
  {
    end := p;
    while At(pattern, end) == STAR
      invariant p <= end <= |pattern|
      invariant forall i :: p <= i < end ==> pattern[i] == STAR
      decreases |pattern| - end
    {
      end := end + 1;
    }
  }
}
