/** The core client of server/src/core-client.ts itself: its fields, changed step by step by its
    methods, each of which is one of the turns. */
module CoreClient {
  import opened Bytes
  import opened CoreState

  class Core {
    const factory: bool
    var generation: nat
    var failedGeneration: nat
    var connected: bool
    var starting: bool
    var stopping: bool
    var nextId: nat
    var pending: map<nat, nat>
    var execQueue: seq<Item>
    var execRunningItems: seq<Running>
    var execConcurrency: nat
    var nextItem: nat
    ghost var settled: multiset<nat>
    ghost var told: multiset<nat>
    ghost var started: seq<Item>

    ghost function Connection(): Rpc
      reads this
    {
      Rpc(generation, failedGeneration, connected, starting, stopping, factory, nextId, pending, settled)
    }

    ghost function Commands(): Sched
      reads this`execQueue, this`execRunningItems, this`execConcurrency, this`nextItem, this`told, this`started
    {
      Sched(execQueue, execRunningItems, execConcurrency, nextItem, told, started)
    }

    ghost function View(): Client
      reads this
    {
      Client(Connection(), Commands())
    }

    constructor (factory: bool)
      ensures IsNew(View()) && this.factory == factory
    {
      this.factory := factory;
      generation, failedGeneration, connected, starting, stopping := 0, 0, false, false, false;
      nextId, pending := 1, map[];
      execQueue, execRunningItems, execConcurrency, nextItem := [], [], 2, 0;
      settled, told, started := multiset{}, multiset{}, [];
    }

    /** All queued items are refused, one after the other. */
    method RefuseQueue()
      modifies this`execQueue, this`told
      ensures Commands() == RejectQueue(old(Commands()))
    {
      var items := execQueue;
      execQueue := [];
      var i := 0;
      ghost var goal := told + Numbers(items);
      assert items[0..] == items;
      while i < |items|
        invariant 0 <= i <= |items| && execQueue == [] && told + Numbers(items[i..]) == goal
      {
        assert items[i..][0] == items[i] && items[i..][1..] == items[i + 1..];
        told := told + multiset{items[i].number};
        i := i + 1;
      }
      assert items[i..] == [] && told + multiset{} == told;
    }

    /** The calls of a generation are refused, one after the other. */
    method RefusePending(g: nat)
      modifies this`pending, this`settled
      ensures pending == old(pending) - CallsOf(old(pending), g)
      ensures settled == old(settled) + multiset(CallsOf(old(pending), g))
    {
      ghost var was, gone := pending, CallsOf(pending, g);
      ghost var done: set<nat> := {};
      var ids := pending.Keys;
      while ids != {}
        invariant ids <= was.Keys && done <= was.Keys - ids && pending == was - done
        invariant forall id :: id in was.Keys - ids ==> (id in done <==> id in gone)
        invariant settled == old(settled) + multiset(done)
        decreases |ids|
      {
        var id :| id in ids;
        ids := ids - {id};
        if pending[id] == g {
          pending := pending - {id};
          settled := settled + multiset{id};
          OneMoreDone(done, id);
          done := done + {id};
        }
      }
      assert done == gone;
    }

    static lemma OneMoreDone(done: set<nat>, id: nat)
      requires id !in done
      ensures multiset(done + {id}) == multiset(done) + multiset{id}
    {
    }

    method RefuseAll(g: nat)
      modifies this`pending, this`settled, this`execQueue, this`told
      ensures View() == Client(RejectCalls(old(Connection()), g), RejectQueue(old(Commands())))
    {
      ghost var was := View();
      RefusePending(g);
      RefuseQueue();
      assert Commands() == RejectQueue(was.sched);
      assert Connection() == RejectCalls(was.rpc, g);
    }

    method FailConnection(g: nat)
      modifies this
      ensures View() == Fail(old(View()), g)
    {
      if g == generation && failedGeneration != g {
        ghost var was := View();
        failedGeneration := g;
        connected, starting := false, false;
        assert View() == was.(rpc := was.rpc.(failed := g, connected := false, starting := false));
        RefuseAll(g);
      }
    }

    /** The second half of `call`: the call is noted and written. */
    method SendCall(writes: bool) returns (id: nat)
      modifies this
      ensures (View(), id) == Send(old(View()), writes)
    {
      id := nextId;
      nextId := nextId + 1;
      pending := pending[id := generation];
      if !writes {
        FailConnection(generation);
      }
    }

    method StartCore(spawn: Spawn)
      modifies this
      ensures View() == Start(old(View()), spawn)
    {
      if stopping || starting {
        return;
      }
      ghost var was := View();
      generation := generation + 1;
      if !factory && spawn.Spawned? {
        connected := true;
        assert View() == was.(rpc := was.rpc.(generation := was.rpc.generation + 1, connected := true));
        var ping := SendCall(spawn.writes);
      }
      starting := true;
    }

    method CallCore(env: Env) returns (id: Option<nat>)
      modifies this
      ensures (View(), id) == Call(old(View()), env)
    {
      if !connected || failedGeneration == generation {
        if !stopping && !factory && !starting {
          StartCore(env.spawn);
        }
        return None;
      }
      var sent := SendCall(env.writes);
      return Some(sent);
    }

    method OnMessage(g: nat, m: Message)
      modifies this
      ensures View() == Receive(old(View()), g, m)
    {
      if g != generation {
        return;
      }
      match m
      case Notification =>
      case Malformed => FailConnection(g);
      case Response(id) =>
        if id in pending && pending[id] == g {
          pending := pending - {id};
          settled := settled + multiset{id};
        }
    }

    /** Running items counted by session, then the first queued item of a least busy session. */
    method PickExecIndex() returns (best: nat)
      requires execQueue != []
      ensures best == Best(execQueue, execRunningItems, |execQueue|)
    {
      var counts: map<string, nat> := map[];
      var k := 0;
      while k < |execRunningItems|
        invariant 0 <= k <= |execRunningItems|
        invariant forall s :: (if s in counts then counts[s] else 0) == CountOf(execRunningItems[..k], s)
      {
        var session := execRunningItems[k].item.session;
        assert execRunningItems[..k + 1][..k] == execRunningItems[..k];
        counts := counts[session := (if session in counts then counts[session] else 0) + 1];
        k := k + 1;
      }
      assert execRunningItems[..k] == execRunningItems;
      best := 0;
      var index := 1;
      while index < |execQueue|
        invariant 1 <= index <= |execQueue| && best == Best(execQueue, execRunningItems, index)
      {
        var session, least := execQueue[index].session, execQueue[best].session;
        if (if session in counts then counts[session] else 0) < (if least in counts then counts[least] else 0) {
          best := index;
        }
        index := index + 1;
      }
    }

    /** One item is taken out of the queue and its call made. */
    method StartNext(env: Env)
      requires execQueue != []
      modifies this
      ensures View() == StartOne(old(View()), env)
    {
      ghost var was := View();
      var index := PickExecIndex();
      var item := execQueue[index];
      execQueue := execQueue[..index] + execQueue[index + 1..];
      execRunningItems := execRunningItems + [Running(item, None, false)];
      started := started + [item];
      assert Commands() == Take(was.sched, None);
      ghost var taken := View();
      assert taken == was.(sched := Take(was.sched, None));
      var id := CallCore(env);
      RunningKept(taken, env);
      execRunningItems := execRunningItems[|execRunningItems| - 1 := Running(item, id, false)];
      assert execRunningItems == Take(was.sched, id).running;
    }

    static lemma RunningKept(c: Client, env: Env)
      ensures Call(c, env).0.sched.running == c.sched.running
    {
    }

    method DrainExecQueue(env: nat -> Env)
      modifies this
      ensures View() == Drain(old(View()), env, 0)
    {
      var k: nat := 0;
      ghost var goal := Drain(View(), env, 0);
      while |execRunningItems| < execConcurrency && execQueue != []
        invariant Drain(View(), env, k) == goal
        decreases |execQueue|
      {
        StartOneShrinks(View(), env(k));
        StartNext(env(k));
        k := k + 1;
      }
    }

    method RunCommand(session: string, exec: string, env: nat -> Env) returns (accepted: bool)
      modifies this
      ensures View() == RunExec(old(View()), session, exec, env) && accepted == (old(|execQueue|) < MAX_QUEUED)
    {
      if |execQueue| >= MAX_QUEUED {
        return false;
      }
      ghost var was := View();
      execQueue := execQueue + [Item(nextItem, session, exec)];
      nextItem := nextItem + 1;
      assert Commands() == Push(was.sched, session, exec);
      assert View() == was.(sched := Push(was.sched, session, exec));
      DrainExecQueue(env);
      return true;
    }

    method SetExecConcurrency(value: int, env: nat -> Env)
      modifies this
      ensures View() == SetConcurrency(old(View()), value, env)
    {
      execConcurrency := if value < 1 then 1 else if value > 8 then 8 else value;
      DrainExecQueue(env);
    }

    method CancelCommand(session: string, exec: string, env: Env)
      modifies this
      ensures View() == CancelExec(old(View()), session, exec, env)
    {
      var i := 0;
      while i < |execQueue| && !(execQueue[i].session == session && execQueue[i].exec == exec)
        invariant i <= |execQueue|
            && i + FindQueued(execQueue[i..], session, exec) == FindQueued(execQueue, session, exec)
      {
        assert execQueue[i..][1..] == execQueue[i + 1..];
        i := i + 1;
      }
      if i < |execQueue| {
        told := told + multiset{execQueue[i].number};
        execQueue := execQueue[..i] + execQueue[i + 1..];
        return;
      }
      if IsRunning(execRunningItems, session, exec) {
        var id := CallCore(env);
      }
    }

    /** The answer of a running item's call is passed on. */
    method TellCaller(j: nat)
      requires j < |execRunningItems|
      modifies this`execRunningItems, this`told
      ensures View() == Tell(old(View()), j)
    {
      told := told + multiset{execRunningItems[j].item.number};
      execRunningItems := execRunningItems[j := execRunningItems[j].(told := true)];
    }

    method FinishCommand(j: nat, env: nat -> Env)
      requires j < |execRunningItems|
      modifies this
      ensures View() == Finish(old(View()), j, env)
    {
      execRunningItems := execRunningItems[..j] + execRunningItems[j + 1..];
      DrainExecQueue(env);
    }

    /** `stop`, up to its first wait. */
    method BeginStop(env: Env)
      modifies this
      ensures View() == CoreState.BeginStop(old(View()), env)
    {
      stopping := true;
      RefuseQueue();
      if connected {
        var id := CallCore(env);
      }
    }

    /** `stop`, from its last wait on. */
    method EndStop()
      requires stopping
      modifies this
      ensures View() == CoreState.EndStop(old(View()))
    {
      FailConnection(generation);
      starting := false;
    }
  }
}
