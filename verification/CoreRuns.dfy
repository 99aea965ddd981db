/** Results about whole runs of the core client. */
module CoreRuns {
  import opened Bytes
  import opened CoreState
  import opened CoreInvariants
  import opened CoreScheduler

  // ---------------------------------------------------------------------
  // No command is forgotten.
  // ---------------------------------------------------------------------

  /** The calls of running items are calls that were made. */
  predicate CallsKnown(c: Client)
  {
    forall k :: 0 <= k < |c.sched.running| && c.sched.running[k].call.Some? ==>
      1 <= c.sched.running[k].call.value < c.rpc.nextId
  }

  /** A change that leaves the running items alone, and makes perhaps more calls. */
  lemma KnownStays(c: Client, now: Client)
    requires CallsKnown(c) && RpcAfter(c.rpc, now.rpc) && now.sched.running == c.sched.running
    ensures CallsKnown(now)
  {
  }

  lemma StartOneKnown(c: Client, env: Env)
    requires CallsKnown(c) && RpcInv(c.rpc) && c.sched.queue != []
    ensures CallsKnown(StartOne(c, env))
  {
    CallRpc(c.(sched := Take(c.sched, None)), env);
    StartOneRpc(c, env);
  }

  lemma {:induction false} DrainKnown(c: Client, env: nat -> Env, k: nat)
    requires CallsKnown(c) && RpcInv(c.rpc)
    ensures CallsKnown(Drain(c, env, k))
    decreases |c.sched.queue|
  {
    if HasRoom(c.sched) {
      StartOneShrinks(c, env(k));
      StartOneKnown(c, env(k));
      StartOneRpc(c, env(k));
      DrainKnown(StartOne(c, env(k)), env, k + 1);
    }
  }

  lemma DrainTurnKnown(c: Client, t: Turn)
    requires CallsKnown(c) && RpcInv(c.rpc) && Enabled(c, t) && Drains(t)
    ensures CallsKnown(Next(c, t))
  {
    match t
    case RunsExec(session, exec, envs) => DrainKnown(c.(sched := Push(c.sched, session, exec)), envs, 0);
    case SetsConcurrency(value, envs) => DrainKnown(c.(sched := c.sched.(concurrency := Clamp(value))), envs, 0);
    case Finishes(j, envs) => DrainKnown(c.(sched := Leave(c.sched, j)), envs, 0);
  }

  lemma CallRunning(c: Client, env: Env)
    ensures Call(c, env).0.sched.running == c.sched.running
  {
    CallSched(c, env);
  }

  lemma TurnKnown(c: Client, t: Turn)
    requires CallsKnown(c) && RpcInv(c.rpc) && Enabled(c, t)
    ensures CallsKnown(Next(c, t))
  {
    TurnRpc(c, t);
    if Drains(t) {
      DrainTurnKnown(c, t);
    } else if !t.Tells? {
      assert Next(c, t).sched.running == c.sched.running by {
        match t
        case FactoryResolves(env) => CallRunning(c.(rpc := c.rpc.(connected := true)), env);
        case Calls(env) => CallRunning(c, env);
        case StopBegins(env) => CallRunning(Client(c.rpc.(stopping := true), RejectQueue(c.sched)), env);
        case CancelsExec(_, _, env) => CallRunning(c, env);
        case _ =>
      }
      KnownStays(c, Next(c, t));
    }
  }

  lemma {:induction false} RunKnown(from: Client, turns: seq<Turn>, to: Client)
    requires CallsKnown(from) && RpcInv(from.rpc) && Run(from, turns, to)
    ensures CallsKnown(to) && RpcInv(to.rpc)
    decreases |turns|
  {
    if turns != [] {
      TurnRpc(from, turns[0]);
      TurnKnown(from, turns[0]);
      RunKnown(Next(from, turns[0]), turns[1..], to);
    }
  }

  /** Every started item whose caller has no answer yet either waits for a call still pending on
      the live connection, or can be answered now. */
  lemma NoneForgotten(first: Client, turns: seq<Turn>, c: Client, k: nat)
    requires IsNew(first) && Run(first, turns, c) && k < |c.sched.running| && !c.sched.running[k].told
    ensures HasAnswer(c, k) ||
            (c.sched.running[k].call.Some? && c.sched.running[k].call.value in c.rpc.pending
             && c.rpc.pending[c.sched.running[k].call.value] == c.rpc.generation && c.rpc.failed != c.rpc.generation)
  {
    NewIsSound(first);
    RunKnown(first, turns, c);
    if c.sched.running[k].call.Some? {
      var id := c.sched.running[k].call.value;
      assert c.rpc.settled[id] == SettleCount(c.rpc, id);
    }
  }

  // ---------------------------------------------------------------------
  // Recovery.
  // ---------------------------------------------------------------------

  /** Whether the handshake call of the last start could be written, after a step from `c` to `now`
      in which a start, if any, met `spawn`; `before` is the answer so far. */
  function Noted(c: Client, now: Client, spawn: Spawn, before: bool): bool
  {
    if now.rpc.generation > c.rpc.generation then spawn != Spawned(false) else before
  }

  function NotedInDrain(c: Client, env: nat -> Env, k: nat, before: bool): bool
    decreases |c.sched.queue|
  {
    if HasRoom(c.sched) then
      StartOneShrinks(c, env(k));
      var now := StartOne(c, env(k));
      NotedInDrain(now, env, k + 1, Noted(c, now, env(k).spawn, before))
    else before
  }

  function NotedInTurn(c: Client, t: Turn, before: bool): bool
    requires Enabled(c, t)
  {
    match t
    case Starts(spawn) => Noted(c, Next(c, t), spawn, before)
    case FactoryResolves(env) => Noted(c, Next(c, t), env.spawn, before)
    case Calls(env) => Noted(c, Next(c, t), env.spawn, before)
    case StopBegins(env) => Noted(c, Next(c, t), env.spawn, before)
    case CancelsExec(_, _, env) => Noted(c, Next(c, t), env.spawn, before)
    case RunsExec(session, exec, envs) =>
      if |c.sched.queue| >= MAX_QUEUED then before
      else NotedInDrain(c.(sched := Push(c.sched, session, exec)), envs, 0, before)
    case SetsConcurrency(value, envs) =>
      NotedInDrain(c.(sched := c.sched.(concurrency := Clamp(value))), envs, 0, before)
    case Finishes(j, envs) => NotedInDrain(c.(sched := Leave(c.sched, j)), envs, 0, before)
    case _ => before
  }

  /** Over a run. */
  function HandshakeWritten(c: Client, turns: seq<Turn>, before: bool): bool
    decreases |turns|
  {
    if turns == [] || !Enabled(c, turns[0]) then before
    else HandshakeWritten(Next(c, turns[0]), turns[1..], NotedInTurn(c, turns[0], before))
  }

  /** A failed connection with a start still on record. */
  predicate Stuck(c: Client)
  {
    c.rpc.starting && c.rpc.failed == c.rpc.generation && !c.rpc.connected
  }

  /** A client that makes its own connections has a start on record together with a failed
      generation only where the last handshake call could not be written; and then it always has. */
  ghost predicate Recovers(c: Client, written: bool)
  {
    !c.rpc.stopping ==>
      if written then c.rpc.starting ==> c.rpc.failed < c.rpc.generation else Stuck(c)
  }

  lemma StartRecovers(c: Client, spawn: Spawn, written: bool)
    requires RpcInv(c.rpc) && !c.rpc.factory && Recovers(c, written)
    ensures Recovers(Start(c, spawn), Noted(c, Start(c, spawn), spawn, written))
  {
  }

  lemma CallRecovers(c: Client, env: Env, written: bool)
    requires RpcInv(c.rpc) && !c.rpc.factory && Recovers(c, written)
    ensures Recovers(Call(c, env).0, Noted(c, Call(c, env).0, env.spawn, written))
  {
    StartRecovers(c, env.spawn, written);
  }

  lemma {:induction false} DrainRecovers(c: Client, env: nat -> Env, k: nat, written: bool)
    requires RpcInv(c.rpc) && !c.rpc.factory && Recovers(c, written)
    ensures Recovers(Drain(c, env, k), NotedInDrain(c, env, k, written))
    decreases |c.sched.queue|
  {
    if HasRoom(c.sched) {
      StartOneShrinks(c, env(k));
      StartOneRpc(c, env(k));
      CallRecovers(c.(sched := Take(c.sched, None)), env(k), written);
      var now := StartOne(c, env(k));
      DrainRecovers(now, env, k + 1, Noted(c, now, env(k).spawn, written));
    }
  }

  lemma TurnRecovers(c: Client, t: Turn, written: bool)
    requires RpcInv(c.rpc) && !c.rpc.factory && Recovers(c, written) && Enabled(c, t)
    ensures Recovers(Next(c, t), NotedInTurn(c, t, written))
  {
    match t
    case Starts(spawn) => StartRecovers(c, spawn, written);
    case Calls(env) => CallRecovers(c, env, written);
    case CancelsExec(_, _, env) => CallRecovers(c, env, written);
    case StopBegins(env) => CallRecovers(Client(c.rpc.(stopping := true), RejectQueue(c.sched)), env, written);
    case RunsExec(session, exec, envs) =>
      if |c.sched.queue| < MAX_QUEUED { DrainRecovers(c.(sched := Push(c.sched, session, exec)), envs, 0, written); }
    case SetsConcurrency(value, envs) =>
      DrainRecovers(c.(sched := c.sched.(concurrency := Clamp(value))), envs, 0, written);
    case Finishes(j, envs) => DrainRecovers(c.(sched := Leave(c.sched, j)), envs, 0, written);
    case _ =>
  }

  lemma {:induction false} RunRecovers(from: Client, turns: seq<Turn>, to: Client, written: bool)
    requires RpcInv(from.rpc) && !from.rpc.factory && Recovers(from, written) && Run(from, turns, to)
    ensures RpcInv(to.rpc) && !to.rpc.factory && Recovers(to, HandshakeWritten(from, turns, written))
    decreases |turns|
  {
    if turns != [] {
      TurnRpc(from, turns[0]);
      TurnRecovers(from, turns[0], written);
      RunRecovers(Next(from, turns[0]), turns[1..], to, NotedInTurn(from, turns[0], written));
    }
  }

  /** Whatever happened before, once the present generation of a client that is not stopping has
      failed, the next call starts the core again exactly when the handshake call of the last start
      could be written. */
  lemma RestartsExactlyWhen(first: Client, turns: seq<Turn>, c: Client, env: Env)
    requires IsNew(first) && !first.rpc.factory && Run(first, turns, c)
    requires !c.rpc.stopping && c.rpc.failed == c.rpc.generation
    ensures Call(c, env).0.rpc.generation == c.rpc.generation + 1 <==> HandshakeWritten(first, turns, true)
  {
    NewIsSound(first);
    RunRecovers(first, turns, c, true);
    StartRpc(c, env.spawn);
  }

  /** No call and no timer starts the core: the client is stopping, or has a start on record that failed. */
  predicate Grounded(c: Client)
  {
    !c.rpc.factory && (c.rpc.stopping || Stuck(c))
  }

  lemma GroundedCall(c: Client, env: Env)
    requires Grounded(c)
    ensures Grounded(Call(c, env).0) && Call(c, env).0.rpc.generation == c.rpc.generation
  {
  }

  lemma {:induction false} GroundedDrain(c: Client, env: nat -> Env, k: nat)
    requires Grounded(c)
    ensures Grounded(Drain(c, env, k)) && Drain(c, env, k).rpc.generation == c.rpc.generation
    decreases |c.sched.queue|
  {
    if HasRoom(c.sched) {
      StartOneShrinks(c, env(k));
      GroundedCall(c.(sched := Take(c.sched, None)), env(k));
      GroundedDrain(StartOne(c, env(k)), env, k + 1);
    }
  }

  lemma GroundedTurn(c: Client, t: Turn)
    requires Grounded(c) && Enabled(c, t)
    ensures Grounded(Next(c, t)) && Next(c, t).rpc.generation == c.rpc.generation
  {
    match t
    case RunsExec(session, exec, envs) => GroundedDrain(c.(sched := Push(c.sched, session, exec)), envs, 0);
    case SetsConcurrency(value, envs) => GroundedDrain(c.(sched := c.sched.(concurrency := Clamp(value))), envs, 0);
    case Finishes(j, envs) => GroundedDrain(c.(sched := Leave(c.sched, j)), envs, 0);
    case StopBegins(env) => GroundedCall(Client(c.rpc.(stopping := true), RejectQueue(c.sched)), env);
    case _ =>
  }

  lemma {:induction false} GroundedForGood(c: Client, turns: seq<Turn>, end: Client)
    requires Grounded(c) && Run(c, turns, end)
    ensures end.rpc.generation == c.rpc.generation
    decreases |turns|
  {
    if turns != [] {
      GroundedTurn(c, turns[0]);
      GroundedForGood(Next(c, turns[0]), turns[1..], end);
    }
  }

  /** Should writing the handshake call throw inside `start`, the failure clears `startPromise`
      before `start` records it, and from then on nothing ever starts the core again. */
  lemma HandshakeWriteFailureIsFinal(first: Client, turns: seq<Turn>, c: Client, more: seq<Turn>, end: Client)
    requires IsNew(first) && !first.rpc.factory && Run(first, turns, c) && Run(c, more, end)
    requires !HandshakeWritten(first, turns, true)
    ensures end.rpc.generation == c.rpc.generation
  {
    NewIsSound(first);
    RunRecovers(first, turns, c, true);
    GroundedForGood(c, more, end);
  }
}
