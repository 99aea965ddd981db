/** What every turn of the core client keeps, over any sequence of turns. */
module CoreInvariants {
  import opened Bytes
  import opened CoreState

  // ---------------------------------------------------------------------
  // Connections: pending calls belong to the live generation.
  // ---------------------------------------------------------------------

  function SettleCount(r: Rpc, id: nat): nat
  {
    if 1 <= id < r.nextId && id !in r.pending then 1 else 0
  }

  /** Every pending call belongs to the present generation, which has not failed, and every call
      made so far is either pending or was settled once. */
  ghost predicate Books(r: Rpc)
  {
    && r.failed <= r.generation && r.nextId >= 1
    && (forall id :: id in r.pending ==> 1 <= id < r.nextId && r.pending[id] == r.generation)
    && (r.failed == r.generation ==> r.pending == map[])
    && (forall id: nat :: r.settled[id] == SettleCount(r, id))
  }

  /** And unless a start is on record, the present generation is a failed one. */
  ghost predicate RpcInv(r: Rpc)
  {
    Books(r) && (!r.starting ==> r.failed == r.generation)
  }

  /** A later state of the connection: promises stay settled, and some things never change back. */
  predicate RpcAfter(a: Rpc, b: Rpc)
  {
    a.generation <= b.generation && a.nextId <= b.nextId && a.settled <= b.settled
    && a.factory == b.factory && (a.stopping ==> b.stopping)
  }

  lemma FailRpc(c: Client, g: nat)
    requires Books(c.rpc)
    ensures var r := Fail(c, g).rpc;
            && Books(r) && RpcAfter(c.rpc, r) && r.generation == c.rpc.generation
            && (RpcInv(c.rpc) ==> RpcInv(r)) && (g == c.rpc.generation ==> r.failed == g)
  {
  }

  /** One more call on the books. */
  lemma NotedRpc(r: Rpc)
    requires Books(r) && r.failed < r.generation
    ensures var n := r.(nextId := r.nextId + 1, pending := r.pending[r.nextId := r.generation]);
            Books(n) && RpcAfter(r, n)
  {
    var n := r.(nextId := r.nextId + 1, pending := r.pending[r.nextId := r.generation]);
    forall id: nat ensures n.settled[id] == SettleCount(n, id) {
      assert r.settled[id] == SettleCount(r, id);
    }
  }

  lemma SendRpc(c: Client, writes: bool)
    requires Books(c.rpc) && c.rpc.failed < c.rpc.generation
    ensures var (sent, id) := Send(c, writes);
            && Books(sent.rpc) && RpcAfter(c.rpc, sent.rpc) && sent.rpc.generation == c.rpc.generation
            && (RpcInv(c.rpc) ==> RpcInv(sent.rpc)) && c.rpc.nextId <= id < sent.rpc.nextId
  {
    var r := c.rpc;
    var noted := c.(rpc := r.(nextId := r.nextId + 1, pending := r.pending[r.nextId := r.generation]));
    NotedRpc(r);
    if !writes { FailRpc(noted, r.generation); }
  }

  /** A start that advances the generation finds no call pending. */
  lemma StartRpc(c: Client, spawn: Spawn)
    requires RpcInv(c.rpc)
    ensures var r := Start(c, spawn).rpc;
            && RpcInv(r) && RpcAfter(c.rpc, r)
            && (r.generation != c.rpc.generation ==> r.generation == c.rpc.generation + 1 && c.rpc.pending == map[])
  {
    var r := c.rpc;
    if !r.stopping && !r.starting {
      var begun := r.(generation := r.generation + 1);
      assert Books(begun);
      if !r.factory && spawn.Spawned? {
        SendRpc(c.(rpc := begun.(connected := true)), spawn.writes);
      }
    }
  }

  lemma CallRpc(c: Client, env: Env)
    requires RpcInv(c.rpc)
    ensures var (called, id) := Call(c, env);
            && RpcInv(called.rpc) && RpcAfter(c.rpc, called.rpc)
            && (called.rpc.generation != c.rpc.generation ==> c.rpc.pending == map[])
            && (id.Some? ==> c.rpc.nextId <= id.value < called.rpc.nextId)
  {
    if !c.rpc.connected || c.rpc.failed == c.rpc.generation {
      StartRpc(c, env.spawn);
    } else {
      SendRpc(c, env.writes);
    }
  }

  lemma ReceiveRpc(c: Client, g: nat, m: Message)
    requires RpcInv(c.rpc)
    ensures var r := Receive(c, g, m).rpc; RpcInv(r) && RpcAfter(c.rpc, r)
  {
    FailRpc(c, g);
  }

  lemma StartOneRpc(c: Client, env: Env)
    requires RpcInv(c.rpc) && c.sched.queue != []
    ensures var r := StartOne(c, env).rpc; RpcInv(r) && RpcAfter(c.rpc, r)
    ensures StartOne(c, env).rpc.generation != c.rpc.generation ==> c.rpc.pending == map[]
  {
    CallRpc(c.(sched := Take(c.sched, None)), env);
  }

  lemma {:induction false} DrainRpc(c: Client, env: nat -> Env, k: nat)
    requires RpcInv(c.rpc)
    ensures var r := Drain(c, env, k).rpc; RpcInv(r) && RpcAfter(c.rpc, r)
    decreases |c.sched.queue|
  {
    if HasRoom(c.sched) {
      StartOneShrinks(c, env(k));
      StartOneRpc(c, env(k));
      DrainRpc(StartOne(c, env(k)), env, k + 1);
    }
  }

  predicate Drains(t: Turn)
  {
    t.RunsExec? || t.SetsConcurrency? || t.Finishes?
  }

  lemma DrainTurnRpc(c: Client, t: Turn)
    requires RpcInv(c.rpc) && Enabled(c, t) && Drains(t)
    ensures var r := Next(c, t).rpc; RpcInv(r) && RpcAfter(c.rpc, r)
  {
    match t
    case RunsExec(session, exec, envs) => DrainRpc(c.(sched := Push(c.sched, session, exec)), envs, 0);
    case SetsConcurrency(value, envs) => DrainRpc(c.(sched := c.sched.(concurrency := Clamp(value))), envs, 0);
    case Finishes(j, envs) => DrainRpc(c.(sched := Leave(c.sched, j)), envs, 0);
  }

  lemma CallTurnRpc(c: Client, t: Turn)
    requires RpcInv(c.rpc) && Enabled(c, t) && (t.FactoryResolves? || t.Calls? || t.StopBegins? || t.CancelsExec?)
    ensures var r := Next(c, t).rpc; RpcInv(r) && RpcAfter(c.rpc, r)
  {
    match t
    case FactoryResolves(env) => CallRpc(c.(rpc := c.rpc.(connected := true)), env);
    case Calls(env) => CallRpc(c, env);
    case StopBegins(env) => CallRpc(Client(c.rpc.(stopping := true), RejectQueue(c.sched)), env);
    case CancelsExec(_, _, env) => CallRpc(c, env);
  }

  /** Starts, crashes, time-outs, late events of earlier generations, stops and calls, in any order,
      keep the books: pending calls are of the live generation, and no promise is settled twice. */
  lemma TurnRpc(c: Client, t: Turn)
    requires RpcInv(c.rpc) && Enabled(c, t)
    ensures var r := Next(c, t).rpc; RpcInv(r) && RpcAfter(c.rpc, r)
  {
    if Drains(t) {
      DrainTurnRpc(c, t);
    } else {
      match t
      case Starts(spawn) => StartRpc(c, spawn);
      case ConnectionFails(g) => FailRpc(c, g);
      case Receives(g, m) => ReceiveRpc(c, g, m);
      case StopEnds => FailRpc(c, c.rpc.generation);
      case Tells(_) =>
      case _ => CallTurnRpc(c, t);
    }
  }
}
