/** Lexical path normalisation (core/src/rpc.c) and the root policy (core/src/path_policy.c),
    as built for POSIX: bytes are compared exactly. */
module PathPolicy {
  import opened Bytes

  const SLASH: byte := 47
  const BACKSLASH: byte := 92
  const COLON: byte := 58
  const DOT: byte := 46
  const MAX_COMPONENTS: nat := 256

  predicate Sep(b: byte) { b == SLASH || b == BACKSLASH }

  type Component = seq<byte>

  /** A path component holds no separator and is not empty. */
  ghost predicate IsComponent(c: Component)
  {
    c != [] && forall i :: 0 <= i < |c| ==> !Sep(c[i])
  }

  ghost predicate AllComponents(cs: seq<Component>)
  {
    forall i :: 0 <= i < |cs| ==> IsComponent(cs[i])
  }

  /** The first position at or after `i` that is a separator (or is none). */
  function RunEnd(path: seq<byte>, i: nat, separators: bool): (e: nat)
    requires i <= |path|
    ensures i <= e <= |path|
    ensures forall j :: i <= j < e ==> Sep(path[j]) == separators
    ensures e < |path| ==> Sep(path[e]) != separators
    decreases |path| - i
  {
    if i < |path| && Sep(path[i]) == separators then RunEnd(path, i + 1, separators) else i
  }

  /** The components of a path: its maximal runs of non-separators. */
  function Split(path: seq<byte>, i: nat): (cs: seq<Component>)
    requires i <= |path|
    ensures AllComponents(cs)
    decreases |path| - i
  {
    var s := RunEnd(path, i, true);
    if s == |path| then []
    else var e := RunEnd(path, s, false); [path[s..e]] + Split(path, e)
  }

  // ---------------------------------------------------------------------
  // The buffer the normaliser works on.
  // ---------------------------------------------------------------------

  function StripTrailing(s: seq<byte>, keep: nat): (r: seq<byte>)
    ensures r <= s && (keep <= |s| ==> keep <= |r|)
  {
    if |s| > keep && Sep(s[|s| - 1]) then StripTrailing(s[..|s| - 1], keep) else s
  }

  function Push(buffer: seq<byte>, c: Component): seq<byte>
  {
    (if buffer != [] && !Sep(buffer[|buffer| - 1]) then buffer + [SLASH] else buffer) + c
  }

  /** Cut back to the last slash, then drop that slash unless it is the first byte. */
  function Pop(buffer: seq<byte>): seq<byte>
  {
    var cut := CutToSlash(buffer);
    if |cut| > 1 then cut[..|cut| - 1] else cut
  }

  function CutToSlash(buffer: seq<byte>): (cut: seq<byte>)
    ensures cut <= buffer
  {
    if buffer != [] && buffer[|buffer| - 1] != SLASH then CutToSlash(buffer[..|buffer| - 1]) else buffer
  }

  predicate IsDot(c: Component) { c == [DOT] }
  predicate IsDotDot(c: Component) { c == [DOT, DOT] }

  /** The components taken one by one; `pushed` counts towards the limit of 256. */
  function Walk(absolute: bool, buffer: seq<byte>, cs: seq<Component>, pushed: nat): Option<(seq<byte>, nat)>
    decreases |cs|
  {
    if cs == [] then Some((buffer, pushed))
    else if IsDot(cs[0]) then Walk(absolute, buffer, cs[1..], pushed)
    else if IsDotDot(cs[0]) then
      if absolute then Walk(absolute, Pop(buffer), cs[1..], pushed) else None
    else if pushed + 1 > MAX_COMPONENTS then None
    else Walk(absolute, Push(buffer, cs[0]), cs[1..], pushed + 1)
  }

  predicate IsAbsolute(path: seq<byte>)
  {
    path != [] && (Sep(path[0]) || (|path| > 1 && path[1] == COLON))
  }

  /** Drive-relative and UNC forms. */
  predicate Ambiguous(path: seq<byte>)
  {
    (|path| > 2 && path[1] == COLON && !Sep(path[2])) || (|path| > 1 && path[0] == BACKSLASH && path[1] == BACKSLASH)
  }

  function Start(cwd: seq<byte>, path: seq<byte>): seq<byte>
    requires path != []
  {
    if !IsAbsolute(path) then StripTrailing(cwd, 0) else if Sep(path[0]) then [SLASH] else []
  }

  /** The result of `session_policy_path`, None where it returns NULL. */
  function Normalize(cwd: seq<byte>, path: seq<byte>): Option<seq<byte>>
  {
    if path == [] || Ambiguous(path) then None
    else
      match Walk(IsAbsolute(path), Start(cwd, path), Split(path, 0), 0)
      case None => None
      case Some((buffer, pushed)) => if IsAbsolute(path) && pushed == 0 then None else Some(buffer)
  }

  /** The walk over what is left of the path from `i` on. */
  function WalkFrom(absolute: bool, buffer: seq<byte>, path: seq<byte>, i: nat, pushed: nat): Option<(seq<byte>, nat)>
    requires i <= |path|
    decreases |path| - i
  {
    var s := RunEnd(path, i, true);
    if s == |path| then Some((buffer, pushed))
    else
      var e := RunEnd(path, s, false);
      var c := path[s..e];
      if IsDot(c) then WalkFrom(absolute, buffer, path, e, pushed)
      else if IsDotDot(c) then
        if absolute then WalkFrom(absolute, Pop(buffer), path, e, pushed) else None
      else if pushed + 1 > MAX_COMPONENTS then None
      else WalkFrom(absolute, Push(buffer, c), path, e, pushed + 1)
  }

  lemma {:induction false} WalkFromIsWalk(absolute: bool, buffer: seq<byte>, path: seq<byte>, i: nat, pushed: nat)
    requires i <= |path|
    ensures WalkFrom(absolute, buffer, path, i, pushed) == Walk(absolute, buffer, Split(path, i), pushed)
    decreases |path| - i
  {
    var s := RunEnd(path, i, true);
    if s < |path| {
      var e := RunEnd(path, s, false);
      var c := path[s..e];
      assert ([c] + Split(path, e))[1..] == Split(path, e);
      WalkFromIsWalk(absolute, buffer, path, e, pushed);
      WalkFromIsWalk(absolute, Pop(buffer), path, e, pushed);
      WalkFromIsWalk(absolute, Push(buffer, c), path, e, pushed + 1);
    }
  }

  /** `session_policy_path`.  Array bounds show that nothing is written past the allocation. */
  method SessionPolicyPath(cwd: CText, path: CText) returns (result: Option<seq<byte>>)
    ensures result == Normalize(cwd, path)
  {
    if At(path, 0) == 0 { return None; }
    var absolute := At(path, 0) == SLASH || At(path, 0) == BACKSLASH || At(path, 1) == COLON;
    if At(path, 1) == COLON && At(path, 2) != 0 && At(path, 2) != SLASH && At(path, 2) != BACKSLASH { return None; }
    if At(path, 0) == BACKSLASH && At(path, 1) == BACKSLASH { return None; }
    var out := new byte[|cwd| + |path| + 3];
    WalkFromIsWalk(absolute, Start(cwd, path), path, 0, 0);
    var used := Begin(out, cwd, path, absolute);
    out[used] := 0;
    var cursor: nat, components: nat := 0, 0;
    while At(path, cursor) != 0
      invariant Room(out, cwd, path, used, cursor) && components <= MAX_COMPONENTS
      invariant WalkFrom(absolute, Start(cwd, path), path, 0, 0) ==
          WalkFrom(absolute, out[..used], path, cursor, components)
      decreases |path| - cursor
    {
      var refused;
      refused, used, cursor, components := TakeComponent(out, cwd, path, absolute, used, cursor, components);
      if refused { return None; }
    }
    NothingLeft(absolute, out[..used], path, components);
    if absolute && components == 0 { return None; }
    return Some(out[..used]);
  }

  /** The cursor stands at the start, before a separator, or at the end, and the
      buffer still has room for the rest of the path, a slash and the terminator. */
  ghost predicate Room(out: array<byte>, cwd: seq<byte>, path: seq<byte>, used: nat, cursor: nat)
  {
    && path != [] && out.Length == |cwd| + |path| + 3
    && cursor <= |path| && used <= |cwd| + 1 + cursor
    && (cursor == 0 ==> used <= |cwd| || Sep(path[0]))
    && (0 < cursor < |path| ==> Sep(path[cursor]))
  }

  lemma NothingLeft(absolute: bool, buffer: seq<byte>, path: seq<byte>, pushed: nat)
    ensures WalkFrom(absolute, buffer, path, |path|, pushed) == Some((buffer, pushed))
  {
  }

  /** One round of the loop: skip separators, take a run, and apply it to the buffer. */
  method TakeComponent(out: array<byte>, ghost cwd: seq<byte>, path: CText, absolute: bool, used: nat, cursor: nat,
                       components: nat)
    returns (refused: bool, used': nat, cursor': nat, components': nat)
    requires Room(out, cwd, path, used, cursor) && cursor < |path| && components <= MAX_COMPONENTS
    modifies out
    ensures refused ==> WalkFrom(absolute, old(out[..used]), path, cursor, components) == None
    ensures !refused ==> Room(out, cwd, path, used', cursor') && cursor < cursor' && components' <= MAX_COMPONENTS
    ensures !refused ==>
              WalkFrom(absolute, old(out[..used]), path, cursor, components) ==
                  WalkFrom(absolute, out[..used'], path, cursor', components')
  {
    used', components' := used, components;
    cursor' := SkipRun(path, cursor, true);
    if At(path, cursor') == 0 {
      NothingLeft(absolute, out[..used], path, components);
      return false, used, cursor', components;
    }
    var end := SkipRun(path, cursor', false);
    refused, used', components' := ApplyComponent(out, absolute, used, path[cursor'..end], components);
    cursor' := end;
  }

  method ApplyComponent(out: array<byte>, absolute: bool, used: nat, c: Component, components: nat)
    returns (refused: bool, used': nat, components': nat)
    requires used + |c| + 1 < out.Length && components <= MAX_COMPONENTS
    modifies out
    ensures refused <==> !IsDot(c) && if IsDotDot(c) then !absolute else components == MAX_COMPONENTS
    ensures !refused ==>
              && components' == (if IsDot(c) || IsDotDot(c) then components else components + 1)
              && used' <= used + 1 + |c| && ((used == 0 || Sep(old(out[used - 1]))) ==> used' <= used + |c|)
              && out[..used'] == if IsDot(c) then old(out[..used])
                                 else if IsDotDot(c) then Pop(old(out[..used])) else Push(old(out[..used]), c)
  {
    used', components' := used, components;
    if |c| == 1 && c[0] == DOT {
    } else if |c| == 2 && c[0] == DOT && c[1] == DOT {
      if !absolute { return true, used, components; }
      used' := CutBack(out, used);
      out[used'] := 0;
    } else {
      components' := components + 1;
      if components' > MAX_COMPONENTS { return true, used, components'; }
      used' := Append(out, used, c);
      out[used'] := 0;
    }
    return false, used', components';
  }

  method SkipRun(path: CText, i: nat, separators: bool) returns (e: nat)
    requires i <= |path|
    ensures e == RunEnd(path, i, separators)
  {
    e := i;
    while At(path, e) != 0 && Sep(At(path, e)) == separators
      invariant i <= e <= |path|
      invariant RunEnd(path, i, separators) == RunEnd(path, e, separators)
      decreases |path| - e
    {
      e := e + 1;
    }
  }

  method StripEnd(out: array<byte>, end: nat) returns (used: nat)
    requires end <= out.Length
    ensures used <= end && out[..used] == StripTrailing(out[..end], 0)
  {
    used := end;
    while used > 0 && Sep(out[used - 1])
      invariant 0 <= used <= end
      invariant StripTrailing(out[..end], 0) == StripTrailing(out[..used], 0)
    {
      assert out[..used][..used - 1] == out[..used - 1];
      used := used - 1;
    }
  }

  /** The working directory without its trailing separators, or the root marker. */
  method Begin(out: array<byte>, cwd: CText, path: CText, absolute: bool) returns (used: nat)
    requires path != [] && absolute == IsAbsolute(path) && out.Length == |cwd| + |path| + 3
    modifies out
    ensures used <= |cwd| + 1 && (used > |cwd| ==> Sep(path[0])) && out[..used] == Start(cwd, path)
  {
    used := 0;
    if !absolute {
      used := CopyTo(out, 0, cwd);
      assert out[..used] == cwd;
      used := StripEnd(out, used);
    } else if Sep(At(path, 0)) {
      out[0], used := SLASH, 1;
    }
  }

  method Append(out: array<byte>, at: nat, c: Component) returns (used: nat)
    requires at + |c| < out.Length
    modifies out
    ensures used <= at + 1 + |c| && out[..used] == Push(old(out[..at]), c)
    ensures (at == 0 || Sep(old(out[at - 1]))) ==> used == at + |c|
  {
    used := at;
    if used > 0 && !Sep(out[used - 1]) {
      out[used] := SLASH;
      used := used + 1;
      assert out[..used] == old(out[..at]) + [SLASH];
    }
    used := CopyTo(out, used, c);
  }

  method CopyTo(out: array<byte>, at: nat, piece: seq<byte>) returns (end: nat)
    requires at + |piece| <= out.Length
    modifies out
    ensures end == at + |piece| && out[..end] == old(out[..at]) + piece
  {
    forall j | 0 <= j < |piece| { out[at + j] := piece[j]; }
    end := at + |piece|;
  }

  method CutBack(out: array<byte>, from: nat) returns (used: nat)
    requires from <= out.Length
    ensures used <= from && out[..used] == Pop(out[..from])
  {
    used := from;
    while used > 0 && out[used - 1] != SLASH
      invariant 0 <= used <= from
      invariant CutToSlash(out[..from]) == CutToSlash(out[..used])
    {
      assert out[..used][..used - 1] == out[..used - 1];
      used := used - 1;
    }
    if used > 1 {
      assert out[..used][..used - 1] == out[..used - 1];
      used := used - 1;
    }
  }

  // ---------------------------------------------------------------------
  // The same result as a stack of components.
  // ---------------------------------------------------------------------

  function Trail(cs: seq<Component>): (s: seq<byte>)
  {
    if cs == [] then [] else [SLASH] + cs[0] + Trail(cs[1..])
  }

  /** The canonical absolute path of a stack of components. */
  function Render(cs: seq<Component>): (s: seq<byte>)
  {
    if cs == [] then [SLASH] else Trail(cs)
  }

  /** `.` is skipped, `..` pops for absolute paths and is refused for relative ones. */
  function FoldStack(absolute: bool, stack: seq<Component>, cs: seq<Component>): Option<seq<Component>>
    decreases |cs|
  {
    if cs == [] then Some(stack)
    else if IsDot(cs[0]) then FoldStack(absolute, stack, cs[1..])
    else if IsDotDot(cs[0]) then
      if !absolute then None
      else FoldStack(absolute, if stack == [] then [] else stack[..|stack| - 1], cs[1..])
    else FoldStack(absolute, stack + [cs[0]], cs[1..])
  }

  /** The components that are neither `.` nor `..`. */
  function Named(cs: seq<Component>): nat
  {
    if cs == [] then 0 else Named(cs[1..]) + if IsDot(cs[0]) || IsDotDot(cs[0]) then 0 else 1
  }

  /** The rendered stack, unless more than 256 components were pushed. */
  function Bounded(end: Option<seq<Component>>, pushed: nat): Option<(seq<byte>, nat)>
  {
    if end.None? || pushed > MAX_COMPONENTS then None else Some((Render(end.value), pushed))
  }

  lemma {:induction false} TrailJoins(a: seq<Component>, b: seq<Component>)
    ensures Trail(a + b) == Trail(a) + Trail(b)
  {
    if a == [] {
      assert a + b == b;
    } else {
      TrailJoins(a[1..], b);
      assert (a + b)[1..] == a[1..] + b;
    }
  }

  lemma TrailLast(cs: seq<Component>, c: Component)
    ensures Trail(cs + [c]) == Trail(cs) + [SLASH] + c
  {
    TrailJoins(cs, [c]);
    assert Trail([c]) == [SLASH] + c + Trail([]) == [SLASH] + c;
  }

  lemma PushRenders(stack: seq<Component>, c: Component)
    requires AllComponents(stack) && IsComponent(c)
    ensures Push(Render(stack), c) == Render(stack + [c])
  {
    TrailLast(stack, c);
    if stack != [] {
      var n := |stack| - 1;
      TrailLast(stack[..n], stack[n]);
      assert stack == stack[..n] + [stack[n]];
      var r := Render(stack);
      assert r[|r| - 1] == stack[n][|stack[n]| - 1];
    }
  }

  lemma PopRenders(stack: seq<Component>)
    requires AllComponents(stack)
    ensures Pop(Render(stack)) == Render(if stack == [] then [] else stack[..|stack| - 1])
  {
    if stack != [] {
      var n := |stack| - 1;
      TrailLast(stack[..n], stack[n]);
      assert stack == stack[..n] + [stack[n]];
      CutComponent(Trail(stack[..n]) + [SLASH], stack[n]);
      assert (Trail(stack[..n]) + [SLASH])[..|Trail(stack[..n])|] == Trail(stack[..n]);
      if n > 0 { assert |Trail(stack[..n])| > 0; } else { assert stack[..n] == []; }
    }
  }

  lemma {:induction false} CutComponent(front: seq<byte>, c: seq<byte>)
    requires front != [] && front[|front| - 1] == SLASH
    requires forall i :: 0 <= i < |c| ==> !Sep(c[i])
    ensures CutToSlash(front + c) == front
    decreases |c|
  {
    if c == [] {
      assert front + c == front;
    } else {
      CutComponent(front, c[..|c| - 1]);
      assert (front + c)[..|front + c| - 1] == front + c[..|c| - 1];
    }
  }

  /** Where the buffer renders a stack, the walk renders the fold over the stack. */
  lemma {:induction false} WalkIsFold(absolute: bool, stack: seq<Component>, cs: seq<Component>, pushed: nat)
    requires AllComponents(stack) && AllComponents(cs) && pushed <= MAX_COMPONENTS
    ensures Walk(absolute, Render(stack), cs, pushed) == Bounded(FoldStack(absolute, stack, cs), pushed + Named(cs))
    decreases |cs|
  {
    if cs != [] {
      var rest := cs[1..];
      assert IsComponent(cs[0]) && AllComponents(rest);
      if IsDot(cs[0]) {
        WalkIsFold(absolute, stack, rest, pushed);
      } else if IsDotDot(cs[0]) {
        if absolute {
          var popped := if stack == [] then [] else stack[..|stack| - 1];
          assert Pop(Render(stack)) == Render(popped) by { PopRenders(stack); }
          WalkIsFold(absolute, popped, rest, pushed);
        }
      } else if pushed < MAX_COMPONENTS {
        var pushedOn := stack + [cs[0]];
        assert Push(Render(stack), cs[0]) == Render(pushedOn) by { PushRenders(stack, cs[0]); }
        WalkIsFold(absolute, pushedOn, rest, pushed + 1);
      }
    }
  }

  lemma {:induction false} StripSeparators(s: seq<byte>, tail: seq<byte>, keep: nat)
    requires forall i :: 0 <= i < |tail| ==> Sep(tail[i])
    requires |s| >= keep
    requires |s| > keep ==> !Sep(s[|s| - 1])
    ensures StripTrailing(s + tail, keep) == s
    decreases |tail|
  {
    if tail == [] {
      assert s + tail == s;
    } else {
      StripSeparators(s, tail[..|tail| - 1], keep);
      assert (s + tail)[..|s + tail| - 1] == s + tail[..|tail| - 1];
    }
  }

  lemma TrailEnds(cs: seq<Component>)
    requires AllComponents(cs) && cs != []
    ensures |Trail(cs)| > 1 && !Sep(Trail(cs)[|Trail(cs)| - 1])
  {
    var n := |cs| - 1;
    TrailLast(cs[..n], cs[n]);
    assert cs == cs[..n] + [cs[n]];
    assert IsComponent(cs[n]);
  }

  /** An absolute path is the fold of its components over the empty stack. */
  lemma NormalizeAbsolute(cwd: seq<byte>, path: seq<byte>)
    requires path != [] && Sep(path[0]) && !Ambiguous(path)
    ensures var cs := Split(path, 0);
            Normalize(cwd, path) ==
            if Named(cs) == 0 || Named(cs) > MAX_COMPONENTS then None
            else match FoldStack(true, [], cs) case None => None case Some(end) => Some(Render(end))
    ensures FoldStack(true, [], Split(path, 0)).Some?
  {
    WalkIsFold(true, [], Split(path, 0), 0);
    AbsoluteFolds([], Split(path, 0));
  }

  lemma {:induction false} AbsoluteFolds(stack: seq<Component>, cs: seq<Component>)
    ensures FoldStack(true, stack, cs).Some?
    decreases |cs|
  {
    if cs != [] {
      AbsoluteFolds(stack, cs[1..]);
      AbsoluteFolds(if stack == [] then [] else stack[..|stack| - 1], cs[1..]);
      AbsoluteFolds(stack + [cs[0]], cs[1..]);
    }
  }

  /** A relative path is the fold over the components of the working directory,
      which must have at least one; trailing separators of it are ignored. */
  lemma NormalizeRelative(cwd: seq<Component>, tail: seq<byte>, path: seq<byte>)
    requires cwd != [] && AllComponents(cwd) && (forall i :: 0 <= i < |tail| ==> Sep(tail[i]))
    requires path != [] && !IsAbsolute(path)
    ensures var cs := Split(path, 0);
            Normalize(Render(cwd) + tail, path) ==
            match FoldStack(false, cwd, cs)
            case None => None
            case Some(end) => if Named(cs) > MAX_COMPONENTS then None else Some(Render(end))
  {
    TrailEnds(cwd);
    StripSeparators(Render(cwd), tail, 0);
    RelativeIsFold(Render(cwd) + tail, cwd, path);
  }

  lemma RelativeIsFold(base: seq<byte>, cwd: seq<Component>, path: seq<byte>)
    requires AllComponents(cwd) && path != [] && !IsAbsolute(path) && StripTrailing(base, 0) == Render(cwd)
    ensures Normalize(base, path) ==
            match FoldStack(false, cwd, Split(path, 0))
            case None => None
            case Some(end) => if Named(Split(path, 0)) > MAX_COMPONENTS then None else Some(Render(end))
  {
    WalkIsFold(false, cwd, Split(path, 0), 0);
  }

  /** Relative paths under a working directory of bare separators lose the leading slash:
      the result is absolute exactly when the working directory has something to keep. */
  lemma RelativeKeepsRoot(cwd: seq<byte>, path: seq<byte>)
    requires cwd != [] && Sep(cwd[0]) && path != [] && !IsAbsolute(path)
    requires Normalize(cwd, path).Some?
    ensures var r := Normalize(cwd, path).value;
            (r != [] && Sep(r[0])) <==> exists i :: 0 <= i < |cwd| && !Sep(cwd[i])
  {
    var base := StripTrailing(cwd, 0);
    StripAll(cwd);
    RelativeExtends(base, Split(path, 0), 0);
    var r := Normalize(cwd, path).value;
    if base != [] {
      assert r[0] == cwd[0];
    } else {
      EmptyBaseStaysRelative(Split(path, 0), 0);
    }
  }

  lemma {:induction false} StripAll(s: seq<byte>)
    ensures StripTrailing(s, 0) == [] <==> forall i :: 0 <= i < |s| ==> Sep(s[i])
    decreases |s|
  {
    if s != [] && Sep(s[|s| - 1]) {
      StripAll(s[..|s| - 1]);
      assert forall i :: 0 <= i < |s| - 1 ==> s[i] == s[..|s| - 1][i];
    }
  }

  lemma {:induction false} RelativeExtends(buffer: seq<byte>, cs: seq<Component>, pushed: nat)
    requires Walk(false, buffer, cs, pushed).Some?
    ensures buffer <= Walk(false, buffer, cs, pushed).value.0
    decreases |cs|
  {
    if cs != [] {
      if IsDot(cs[0]) {
        RelativeExtends(buffer, cs[1..], pushed);
      } else {
        RelativeExtends(Push(buffer, cs[0]), cs[1..], pushed + 1);
      }
    }
  }

  lemma {:induction false} EmptyBaseStaysRelative(cs: seq<Component>, pushed: nat)
    requires AllComponents(cs) && Walk(false, [], cs, pushed).Some?
    ensures var r := Walk(false, [], cs, pushed).value.0; r == [] || !Sep(r[0])
    decreases |cs|
  {
    if cs != [] {
      assert IsComponent(cs[0]) && AllComponents(cs[1..]);
      if IsDot(cs[0]) {
        EmptyBaseStaysRelative(cs[1..], pushed);
      } else {
        assert Push([], cs[0]) == cs[0];
        RelativeExtends(cs[0], cs[1..], pushed + 1);
      }
    }
  }

  /** The smallest case: `x` under `/` is normalised to `x`. */
  lemma RootLosesSlash()
    ensures Normalize([SLASH], [120]) == Some([120])
  {
    var path: seq<byte> := [120];
    assert RunEnd(path, 0, true) == 0 && RunEnd(path, 0, false) == 1;
    assert Split(path, 1) == [] && Split(path, 0) == [path[0..1]] && path[0..1] == path;
    StripAll([SLASH]);
    assert Push([], path) == path;
    assert Walk(false, [], [path], 0) == Walk(false, path, [path][1..], 1) == Some((path, 1));
  }

  // ---------------------------------------------------------------------
  // Roots.
  // ---------------------------------------------------------------------

  /** What `owc_path_is_within` decides, for any strings. */
  ghost predicate Within(path: seq<byte>, root: seq<byte>)
  {
    var r := StripTrailing(root, 1);
    && r <= path
    && if |r| == 1 && Sep(r[0]) then path != [] && Sep(path[0])
       else |path| == |r| || Sep(path[|r|])
  }

  /** `owc_path_is_within`. */
  method IsWithin(path: CText, root: CText) returns (within: bool)
    ensures within <==> Within(path, root)
  {
    var n := |root|;
    assert root[..n] == root;
    while n > 1 && (root[n - 1] == SLASH || root[n - 1] == BACKSLASH)
      invariant 0 <= n <= |root|
      invariant StripTrailing(root, 1) == StripTrailing(root[..n], 1)
    {
      assert root[..n][..n - 1] == root[..n - 1];
      n := n - 1;
    }
    var i := 0;
    while i < n
      invariant 0 <= i <= n && i <= |path| && path[..i] == root[..i]
    {
      if At(path, i) == 0 || At(path, i) != root[i] {
        assert i < |path| ==> path[i] != root[..n][i];
        return false;
      }
      i := i + 1;
    }
    if n == 1 && (root[0] == SLASH || root[0] == BACKSLASH) { return At(path, 0) == SLASH || At(path, 0) == BACKSLASH; }
    return At(path, i) == 0 || At(path, i) == SLASH || At(path, i) == BACKSLASH;
  }

  /** On canonical paths the byte-prefix test is the component-prefix test. */
  lemma WithinIsComponentPrefix(ps: seq<Component>, rs: seq<Component>, tail: seq<byte>)
    requires AllComponents(ps) && AllComponents(rs)
    requires forall i :: 0 <= i < |tail| ==> Sep(tail[i])
    ensures Within(Render(ps), Render(rs) + tail) <==> rs <= ps
  {
    if rs == [] {
      StripSeparators([SLASH], tail, 1);
      if ps != [] { assert Trail(ps)[0] == SLASH; }
    } else {
      TrailEnds(rs);
      StripSeparators(Trail(rs), tail, 1);
      if ps == [] {
        assert !(Trail(rs) <= [SLASH]);
      } else {
        TrailPrefix(ps, rs);
      }
    }
  }

  lemma {:induction false} TrailPrefix(ps: seq<Component>, rs: seq<Component>)
    requires AllComponents(ps) && AllComponents(rs)
    ensures rs <= ps <==> Trail(rs) <= Trail(ps) && (|Trail(ps)| == |Trail(rs)| || Sep(Trail(ps)[|Trail(rs)|]))
    decreases |rs|
  {
    if rs == [] {
    } else if ps == [] {
    } else {
      var p, r := ps[0], rs[0];
      var pt, rt := Trail(ps[1..]), Trail(rs[1..]);
      assert IsComponent(p) && IsComponent(r) && AllComponents(ps[1..]) && AllComponents(rs[1..]);
      TrailPrefix(ps[1..], rs[1..]);
      assert rs <= ps <==> p == r && rs[1..] <= ps[1..];
      if p == r {
        SharedFront([SLASH] + p, rt, pt);
      } else {
        DifferentFront(p, pt, r, rt);
      }
    }
  }

  lemma SharedFront(f: seq<byte>, a: seq<byte>, b: seq<byte>)
    ensures f + a <= f + b <==> a <= b
    ensures |a| <= |b| ==> (|f + b| == |f + a| <==> |b| == |a|) && (|a| < |b| ==> (f + b)[|f + a|] == b[|a|])
  {
    if f + a <= f + b {
      assert a == (f + a)[|f|..] && b[..|a|] == (f + b)[|f|..|f + a|];
    }
    if a <= b {
      assert (f + b)[..|f + a|] == f + b[..|a|];
    }
  }

  /** Two different components cannot agree up to a separator on both sides. */
  lemma DifferentFront(p: Component, pt: seq<byte>, r: Component, rt: seq<byte>)
    requires IsComponent(p) && IsComponent(r) && p != r
    requires pt != [] ==> pt[0] == SLASH
    requires rt != [] ==> rt[0] == SLASH
    ensures var a, b := [SLASH] + r + rt, [SLASH] + p + pt;
            !(a <= b && (|a| == |b| || Sep(b[|a|])))
  {
    var a, b := [SLASH] + r + rt, [SLASH] + p + pt;
    assert forall i :: 0 <= i < |r| ==> a[i + 1] == r[i];
    assert forall i :: 0 <= i < |p| ==> b[i + 1] == p[i];
    assert rt != [] ==> a[|r| + 1] == SLASH;
    assert pt != [] ==> b[|p| + 1] == SLASH;
  }

  // ---------------------------------------------------------------------
  // The policy.
  // ---------------------------------------------------------------------

  datatype Permission = Read | Write
  datatype Policy = Policy(readRoots: seq<CText>, writeRoots: seq<CText>, denyRoots: seq<CText>)

  ghost predicate UnderSome(path: seq<byte>, roots: seq<CText>)
  {
    exists i :: 0 <= i < |roots| && Within(path, roots[i])
  }

  /** `owc_path_policy_check`. */
  method PolicyCheck(policy: Policy, path: CText, permission: Permission) returns (allowed: bool)
    ensures allowed <==> !UnderSome(path, policy.denyRoots)
                         && UnderSome(path, if permission.Write? then policy.writeRoots else policy.readRoots)
  {
    var i := 0;
    while i < |policy.denyRoots|
      invariant 0 <= i <= |policy.denyRoots|
      invariant forall j :: 0 <= j < i ==> !Within(path, policy.denyRoots[j])
    {
      var denied := IsWithin(path, policy.denyRoots[i]);
      if denied { return false; }
      i := i + 1;
    }
    var roots := if permission.Write? then policy.writeRoots else policy.readRoots;
    i := 0;
    while i < |roots|
      invariant 0 <= i <= |roots|
      invariant forall j :: 0 <= j < i ==> !Within(path, roots[j])
    {
      var under := IsWithin(path, roots[i]);
      if under { return true; }
      i := i + 1;
    }
    return false;
  }

  /** The policy's verdict on the normalised path. */
  ghost predicate Allowed(cwd: CText, policy: Policy, path: CText, permission: Permission)
  {
    match Normalize(cwd, path)
    case None => false
    case Some(canonical) =>
      && !UnderSome(canonical, policy.denyRoots)
      && UnderSome(canonical, if permission.Write? then policy.writeRoots else policy.readRoots)
  }

  /** `session_path_check`: the normalised path decides. */
  method SessionPathCheck(cwd: CText, policy: Policy, path: CText, permission: Permission) returns (allowed: bool)
    ensures allowed <==> Allowed(cwd, policy, path, permission)
  {
    var canonical := SessionPolicyPath(cwd, path);
    if canonical.None? { return false; }
    NormalizedHasNoNul(cwd, path);
    allowed := PolicyCheck(policy, canonical.value, permission);
  }

  /** Some root, given by its components, is a prefix of the path. */
  ghost predicate UnderSomeComponents(ps: seq<Component>, roots: seq<seq<Component>>)
  {
    exists i :: 0 <= i < |roots| && roots[i] <= ps
  }

  /** For roots written canonically (trailing separators allowed), the verdict on a normalised
      path is a statement about components alone. */
  lemma VerdictByComponents(ps: seq<Component>, roots: seq<CText>, parts: seq<seq<Component>>)
    requires AllComponents(ps) && AllCanonical(roots, parts)
    ensures UnderSome(Render(ps), roots) <==> UnderSomeComponents(ps, parts)
  {
    forall i | 0 <= i < |roots| ensures Within(Render(ps), roots[i]) <==> parts[i] <= ps {
      WithinCanonical(ps, roots[i], parts[i]);
    }
  }

  lemma WithinCanonical(ps: seq<Component>, root: CText, cs: seq<Component>)
    requires AllComponents(ps) && Canonical(root, cs)
    ensures Within(Render(ps), root) <==> cs <= ps
  {
    var slashes := root[|Render(cs)|..];
    assert root == Render(cs) + slashes;
    WithinIsComponentPrefix(ps, cs, slashes);
  }

  ghost predicate Canonical(root: seq<byte>, cs: seq<Component>)
  {
    && AllComponents(cs) && Render(cs) <= root
    && forall i :: |Render(cs)| <= i < |root| ==> Sep(root[i])
  }

  ghost predicate AllCanonical(roots: seq<CText>, parts: seq<seq<Component>>)
  {
    |roots| == |parts| && forall i :: 0 <= i < |roots| ==> Canonical(roots[i], parts[i])
  }

  /** Where a path leads from a working directory, both as components; none where it leads nowhere. */
  function Destination(cwd: seq<Component>, path: seq<byte>): Option<seq<Component>>
  {
    var cs := Split(path, 0);
    if path == [] || Ambiguous(path) || Named(cs) > MAX_COMPONENTS || (IsAbsolute(path) && Named(cs) == 0) then None
    else FoldStack(IsAbsolute(path), if IsAbsolute(path) then [] else cwd, cs)
  }

  lemma {:induction false} FoldKeepsComponents(absolute: bool, stack: seq<Component>, cs: seq<Component>)
    requires AllComponents(stack) && AllComponents(cs)
    ensures match FoldStack(absolute, stack, cs) case None => true case Some(end) => AllComponents(end)
    decreases |cs|
  {
    if cs != [] {
      assert IsComponent(cs[0]) && AllComponents(cs[1..]);
      if IsDot(cs[0]) {
        FoldKeepsComponents(absolute, stack, cs[1..]);
      } else if IsDotDot(cs[0]) {
        FoldKeepsComponents(absolute, if stack == [] then [] else stack[..|stack| - 1], cs[1..]);
      } else {
        FoldKeepsComponents(absolute, stack + [cs[0]], cs[1..]);
      }
    }
  }

  lemma NormalizeIsDestination(cwd: CText, cwdParts: seq<Component>, path: CText)
    requires Canonical(cwd, cwdParts) && cwdParts != [] && (|path| > 1 ==> path[1] != COLON)
    ensures Normalize(cwd, path) ==
            match Destination(cwdParts, path) case None => None case Some(ps) => Some(Render(ps))
    ensures Destination(cwdParts, path).Some? ==> AllComponents(Destination(cwdParts, path).value)
  {
    FoldKeepsComponents(IsAbsolute(path), if IsAbsolute(path) then [] else cwdParts, Split(path, 0));
    if path != [] && !Ambiguous(path) {
      if IsAbsolute(path) {
        NormalizeAbsolute(cwd, path);
      } else {
        var tail := cwd[|Render(cwdParts)|..];
        assert cwd == Render(cwdParts) + tail;
        NormalizeRelative(cwdParts, tail, path);
      }
    }
  }

  /** From request to verdict in components alone: a path is allowed when it leads somewhere, under
      some root of the permission and under no deny root. */
  lemma AllowedByComponents(cwd: CText, cwdParts: seq<Component>, policy: Policy, path: CText, permission: Permission,
                            denied: seq<seq<Component>>, granted: seq<seq<Component>>)
    requires Canonical(cwd, cwdParts) && cwdParts != [] && (|path| > 1 ==> path[1] != COLON)
    requires AllCanonical(policy.denyRoots, denied)
    requires AllCanonical(if permission.Write? then policy.writeRoots else policy.readRoots, granted)
    ensures Allowed(cwd, policy, path, permission) <==>
            match Destination(cwdParts, path)
            case None => false
            case Some(ps) => !UnderSomeComponents(ps, denied) && UnderSomeComponents(ps, granted)
  {
    NormalizeIsDestination(cwd, cwdParts, path);
    if Destination(cwdParts, path).Some? {
      var ps := Destination(cwdParts, path).value;
      VerdictByComponents(ps, policy.denyRoots, denied);
      VerdictByComponents(ps, if permission.Write? then policy.writeRoots else policy.readRoots, granted);
    }
  }

  ghost predicate NoNul(cs: seq<Component>)
  {
    forall i :: 0 <= i < |cs| ==> 0 !in cs[i]
  }

  lemma NormalizedHasNoNul(cwd: CText, path: CText)
    ensures Normalize(cwd, path).Some? ==> 0 !in Normalize(cwd, path).value
  {
    if Normalize(cwd, path).Some? {
      SplitHasNoNul(path, 0);
      WalkHasNoNul(IsAbsolute(path), Start(cwd, path), Split(path, 0), 0);
    }
  }

  lemma {:induction false} SplitHasNoNul(path: CText, i: nat)
    requires i <= |path|
    ensures NoNul(Split(path, i))
    decreases |path| - i
  {
    var s := RunEnd(path, i, true);
    if s < |path| {
      SplitHasNoNul(path, RunEnd(path, s, false));
    }
  }

  lemma {:induction false} WalkHasNoNul(absolute: bool, buffer: seq<byte>, cs: seq<Component>, pushed: nat)
    requires 0 !in buffer && NoNul(cs) && Walk(absolute, buffer, cs, pushed).Some?
    ensures 0 !in Walk(absolute, buffer, cs, pushed).value.0
    decreases |cs|
  {
    if cs != [] {
      assert 0 !in cs[0] && NoNul(cs[1..]);
      if IsDot(cs[0]) { WalkHasNoNul(absolute, buffer, cs[1..], pushed); }
      else if IsDotDot(cs[0]) { WalkHasNoNul(absolute, Pop(buffer), cs[1..], pushed); }
      else { WalkHasNoNul(absolute, Push(buffer, cs[0]), cs[1..], pushed + 1); }
    }
  }
}
