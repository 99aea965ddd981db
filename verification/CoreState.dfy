/** The state of the core client of server/src/core-client.ts and what each of its synchronous
    turns does to it: the generations of connections, the calls pending on them, and the queue of
    commands in front of `exec.run`. */
module CoreState {
  import opened Bytes

  const MAX_QUEUED: nat := 64

  /** A command waiting for its turn or running; items are numbered in the order they are queued. */
  datatype Item = Item(number: nat, session: string, exec: string)

  /** A started item.  `call` is the id of its call, none when the call was refused outright; `told`
      says whether the item's caller has its answer already. */
  datatype Running = Running(item: Item, call: Option<nat>, told: bool)

  /** The connection: `starting` says that `startPromise` is set, `connected` that there is a
      transport.  `settled` counts how often each call's promise was settled. */
  datatype Rpc = Rpc(generation: nat, failed: nat, connected: bool, starting: bool, stopping: bool, factory: bool,
                     nextId: nat, pending: map<nat, nat>, settled: multiset<nat>)

  /** The command queue.  `told` counts how often each item's promise was settled and `started`
      lists the items in the order they were started. */
  datatype Sched = Sched(queue: seq<Item>, running: seq<Running>, concurrency: nat, nextItem: nat,
                         told: multiset<nat>, started: seq<Item>)

  datatype Client = Client(rpc: Rpc, sched: Sched)

  /** How starting the core process goes, and whether the handshake call can be written. */
  datatype Spawn = SpawnThrows | Spawned(writes: bool)

  /** What one call meets: whether it can be written and, when it has to start the core, how that goes. */
  datatype Env = Env(writes: bool, spawn: Spawn)

  // ---------------------------------------------------------------------
  // Connections.
  // ---------------------------------------------------------------------

  function Numbers(items: seq<Item>): multiset<nat>
  {
    if items == [] then multiset{} else multiset{items[0].number} + Numbers(items[1..])
  }

  /** Every queued item is refused. */
  function RejectQueue(s: Sched): Sched
  {
    s.(queue := [], told := s.told + Numbers(s.queue))
  }

  function CallsOf(pending: map<nat, nat>, g: nat): set<nat>
  {
    set id | id in pending && pending[id] == g
  }

  /** Every pending call of a generation is refused. */
  function RejectCalls(r: Rpc, g: nat): Rpc
  {
    r.(pending := r.pending - CallsOf(r.pending, g), settled := r.settled + multiset(CallsOf(r.pending, g)))
  }

  /** `failConnection`: a failure of a stale or already failed generation is nothing; otherwise all
      calls of the generation are refused, and everything queued. */
  function Fail(c: Client, g: nat): Client
  {
    var r := c.rpc;
    if g != r.generation || r.failed == g then c
    else
      Client(RejectCalls(r.(failed := g, connected := false, starting := false), g), RejectQueue(c.sched))
  }

  /** A call over a live connection. */
  function Send(c: Client, writes: bool): (Client, nat)
  {
    var r := c.rpc;
    var sent := c.(rpc := r.(nextId := r.nextId + 1, pending := r.pending[r.nextId := r.generation]));
    (if writes then sent else Fail(sent, r.generation), r.nextId)
  }

  /** `start`, up to its first wait.  The promise is recorded last, after a handshake call that may
      already have failed the connection again. */
  function Start(c: Client, spawn: Spawn): Client
  {
    var r := c.rpc;
    if r.stopping || r.starting then c
    else
      var begun := c.(rpc := r.(generation := r.generation + 1));
      var up :=
        if r.factory || spawn.SpawnThrows? then begun
        else Send(begun.(rpc := begun.rpc.(connected := true)), spawn.writes).0;
      up.(rpc := up.rpc.(starting := true))
  }

  function KickRestart(c: Client, spawn: Spawn): Client
  {
    if c.rpc.stopping || c.rpc.factory || c.rpc.starting then c else Start(c, spawn)
  }

  /** `call`: the id of the call, or none when there is no live connection to send it over. */
  function Call(c: Client, env: Env): (Client, Option<nat>)
  {
    if !c.rpc.connected || c.rpc.failed == c.rpc.generation then (KickRestart(c, env.spawn), None)
    else
      var (sent, id) := Send(c, env.writes);
      (sent, Some(id))
  }

  datatype Message = Notification | Malformed | Response(id: nat)

  /** `onMessage`. */
  function Receive(c: Client, g: nat, m: Message): Client
  {
    var r := c.rpc;
    if g != r.generation then c
    else
      match m
      case Notification => c
      case Malformed => Fail(c, g)
      case Response(id) =>
        if id in r.pending && r.pending[id] == g then
          c.(rpc := r.(pending := r.pending - {id}, settled := r.settled + multiset{id}))
        else c
  }

  // ---------------------------------------------------------------------
  // The command queue.
  // ---------------------------------------------------------------------

  function CountOf(running: seq<Running>, session: string): nat
  {
    if running == [] then 0
    else CountOf(running[..|running| - 1], session) + if running[|running| - 1].item.session == session then 1 else 0
  }

  /** The first of the first `n` queued items whose session has the fewest running. */
  function Best(queue: seq<Item>, running: seq<Running>, n: nat): (i: nat)
    requires 1 <= n <= |queue|
    ensures i < n
    decreases n
  {
    if n == 1 then 0
    else
      var b := Best(queue, running, n - 1);
      if CountOf(running, queue[n - 1].session) < CountOf(running, queue[b].session) then n - 1 else b
  }

  function Without<T>(s: seq<T>, i: nat): seq<T>
    requires i < |s|
  {
    s[..i] + s[i + 1..]
  }

  /** A new item at the end of the queue. */
  function Push(s: Sched, session: string, exec: string): Sched
  {
    s.(queue := s.queue + [Item(s.nextItem, session, exec)], nextItem := s.nextItem + 1)
  }

  /** The fairest choice moves from the queue to the running items. */
  function Take(s: Sched, call: Option<nat>): Sched
    requires s.queue != []
  {
    var i := Best(s.queue, s.running, |s.queue|);
    s.(queue := Without(s.queue, i), running := s.running + [Running(s.queue[i], call, false)],
       started := s.started + [s.queue[i]])
  }

  /** A running item leaves. */
  function Leave(s: Sched, j: nat): Sched
    requires j < |s.running|
  {
    s.(running := Without(s.running, j))
  }

  /** One item leaves the queue and its call is made. */
  function StartOne(c: Client, env: Env): Client
    requires c.sched.queue != []
  {
    var (called, id) := Call(c.(sched := Take(c.sched, None)), env);
    called.(sched := called.sched.(running := Take(c.sched, id).running))
  }

  predicate HasRoom(s: Sched)
  {
    |s.running| < s.concurrency && s.queue != []
  }

  lemma StartOneShrinks(c: Client, env: Env)
    requires c.sched.queue != []
    ensures |StartOne(c, env).sched.queue| < |c.sched.queue|
    ensures |StartOne(c, env).sched.running| == |c.sched.running| + 1
  {
  }

  /** `drainExecQueue`; `env(k)` is what the k-th call of the loop meets. */
  function Drain(c: Client, env: nat -> Env, k: nat): Client
    decreases |c.sched.queue|
  {
    if HasRoom(c.sched) then
      StartOneShrinks(c, env(k));
      Drain(StartOne(c, env(k)), env, k + 1)
    else c
  }

  /** First queued item of that session and command, or the length. */
  function FindQueued(queue: seq<Item>, session: string, exec: string): (i: nat)
    ensures i <= |queue|
  {
    if queue == [] || (queue[0].session == session && queue[0].exec == exec) then 0
    else 1 + FindQueued(queue[1..], session, exec)
  }

  predicate IsRunning(running: seq<Running>, session: string, exec: string)
  {
    exists k :: 0 <= k < |running| && running[k].item.session == session && running[k].item.exec == exec
  }

  function RunExec(c: Client, session: string, exec: string, env: nat -> Env): Client
  {
    var s := c.sched;
    if |s.queue| >= MAX_QUEUED then c
    else
      Drain(c.(sched := Push(s, session, exec)), env, 0)
  }

  function CancelExec(c: Client, session: string, exec: string, env: Env): Client
  {
    var s := c.sched;
    var i := FindQueued(s.queue, session, exec);
    if i < |s.queue| then
      c.(sched := s.(queue := Without(s.queue, i), told := s.told + multiset{s.queue[i].number}))
    else if IsRunning(s.running, session, exec) then Call(c, env).0
    else c
  }

  /** `Math.max(1, Math.min(8, value))`. */
  function Clamp(value: int): nat
  {
    if value < 1 then 1 else if value > 8 then 8 else value
  }

  function SetConcurrency(c: Client, value: int, env: nat -> Env): Client
  {
    Drain(c.(sched := c.sched.(concurrency := Clamp(value))), env, 0)
  }

  /** The answer of a started item's call reaches its caller. */
  function Tell(c: Client, j: nat): Client
    requires j < |c.sched.running|
  {
    var s := c.sched;
    c.(sched := s.(running := s.running[j := s.running[j].(told := true)],
                   told := s.told + multiset{s.running[j].item.number}))
  }

  /** The clean-up after an answered item, which lets the next one start. */
  function Finish(c: Client, j: nat, env: nat -> Env): Client
    requires j < |c.sched.running|
  {
    Drain(c.(sched := Leave(c.sched, j)), env, 0)
  }

  // ---------------------------------------------------------------------
  // Stopping.
  // ---------------------------------------------------------------------

  /** `stop`, up to its first wait. */
  function BeginStop(c: Client, env: Env): Client
  {
    var stopping := Client(c.rpc.(stopping := true), RejectQueue(c.sched));
    if c.rpc.connected then Call(stopping, env).0 else stopping
  }

  /** `stop`, from its last wait on. */
  function EndStop(c: Client): Client
  {
    var failed := Fail(c, c.rpc.generation);
    failed.(rpc := failed.rpc.(starting := false))
  }

  // ---------------------------------------------------------------------
  // Turns.
  // ---------------------------------------------------------------------

  /** `ConnectionFails` stands for a transport's error or close event, a call's timer and the end of
      a failed handshake, each for the generation it belongs to, however late it comes. */
  datatype Turn =
    | Starts(spawn: Spawn)
    | FactoryResolves(env: Env)
    | ConnectionFails(g: nat)
    | Receives(g: nat, m: Message)
    | Calls(env: Env)
    | StopBegins(env: Env)
    | StopEnds
    | RunsExec(session: string, exec: string, envs: nat -> Env)
    | SetsConcurrency(value: int, envs: nat -> Env)
    | CancelsExec(session: string, exec: string, env: Env)
    | Tells(j: nat)
    | Finishes(j: nat, envs: nat -> Env)

  /** An answer can be passed on once the call was refused outright or its promise is settled. */
  predicate HasAnswer(c: Client, j: nat)
    requires j < |c.sched.running|
  {
    c.sched.running[j].call.None? || c.sched.running[j].call.value in c.rpc.settled
  }

  predicate Enabled(c: Client, t: Turn)
  {
    match t
    case FactoryResolves(_) => c.rpc.factory
    case StopEnds => c.rpc.stopping
    case Tells(j) => j < |c.sched.running| && !c.sched.running[j].told && HasAnswer(c, j)
    case Finishes(j, _) => j < |c.sched.running| && c.sched.running[j].told
    case _ => true
  }

  function Next(c: Client, t: Turn): Client
    requires Enabled(c, t)
  {
    match t
    case Starts(spawn) => Start(c, spawn)
    case FactoryResolves(env) => Call(c.(rpc := c.rpc.(connected := true)), env).0
    case ConnectionFails(g) => Fail(c, g)
    case Receives(g, m) => Receive(c, g, m)
    case Calls(env) => Call(c, env).0
    case StopBegins(env) => BeginStop(c, env)
    case StopEnds => EndStop(c)
    case RunsExec(session, exec, envs) => RunExec(c, session, exec, envs)
    case SetsConcurrency(value, envs) => SetConcurrency(c, value, envs)
    case CancelsExec(session, exec, env) => CancelExec(c, session, exec, env)
    case Tells(j) => Tell(c, j)
    case Finishes(j, envs) => Finish(c, j, envs)
  }

  /** A client as constructed. */
  predicate IsNew(c: Client)
  {
    && c.rpc.generation == c.rpc.failed == 0 && !c.rpc.connected && !c.rpc.starting && !c.rpc.stopping
    && c.rpc.nextId == 1 && c.rpc.pending == map[] && c.rpc.settled == multiset{}
    && c.sched.queue == [] && c.sched.running == [] && c.sched.concurrency == 2 && c.sched.nextItem == 0
    && c.sched.told == multiset{} && c.sched.started == []
  }

  ghost predicate Run(from: Client, turns: seq<Turn>, to: Client)
    decreases |turns|
  {
    if turns == [] then from == to
    else Enabled(from, turns[0]) && Run(Next(from, turns[0]), turns[1..], to)
  }
}
