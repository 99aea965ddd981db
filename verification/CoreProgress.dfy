/** Every queued command gets its answer: the client's own turns run out, and where none is left
    nothing is queued, nothing is running and every item was answered once. */
module CoreProgress {
  import opened Bytes
  import opened CoreState
  import opened CoreInvariants
  import opened CoreScheduler
  import opened CoreRuns

  // ---------------------------------------------------------------------
  // The rank.
  // ---------------------------------------------------------------------

  /** A started item waits for the answer of its call, for its caller to get it, and for the clean-up. */
  function Weight(settled: multiset<nat>, x: Running): (w: nat)
    ensures 1 <= w <= 3
  {
    if x.told then 1 else if x.call.None? || x.call.value in settled then 2 else 3
  }

  function Weights(settled: multiset<nat>, running: seq<Running>): nat
  {
    if running == [] then 0
    else Weights(settled, running[..|running| - 1]) + Weight(settled, running[|running| - 1])
  }

  /** An upper bound on the turns of `Advances` still to come. */
  function Rank(c: Client): nat
  {
    4 * |c.sched.queue| + Weights(c.rpc.settled, c.sched.running)
  }

  /** The turns that move a command on: the answer to a started item's call comes in, is passed on,
      or the item is cleaned up after. */
  predicate Advances(c: Client, t: Turn)
  {
    Enabled(c, t) &&
    match t
    case Receives(g, Response(id)) => g == c.rpc.generation && id in c.rpc.pending && Awaited(c.sched.running, id)
    case Tells(_) => true
    case Finishes(_, _) => true
    case _ => false
  }

  predicate Awaited(running: seq<Running>, id: nat)
  {
    exists k :: 0 <= k < |running| && !running[k].told && running[k].call == Some(id)
  }

  // ---------------------------------------------------------------------
  // Weights.
  // ---------------------------------------------------------------------

  /** More answers, less to wait for. */
  lemma {:induction false} WeightsFall(a: multiset<nat>, b: multiset<nat>, running: seq<Running>)
    requires a <= b
    ensures Weights(b, running) <= Weights(a, running)
    decreases |running|
  {
    if running != [] {
      WeightsFall(a, b, running[..|running| - 1]);
    }
  }

  lemma {:induction false} WeightsAnswered(a: multiset<nat>, b: multiset<nat>, running: seq<Running>, id: nat)
    requires a <= b && id !in a && id in b && Awaited(running, id)
    ensures Weights(b, running) < Weights(a, running)
    decreases |running|
  {
    var front := running[..|running| - 1];
    var k :| 0 <= k < |running| && !running[k].told && running[k].call == Some(id);
    if k == |front| {
      WeightsFall(a, b, front);
    } else {
      assert front[k] == running[k];
      WeightsAnswered(a, b, front, id);
    }
  }

  lemma WeightsSnoc(settled: multiset<nat>, running: seq<Running>, x: Running)
    ensures Weights(settled, running + [x]) == Weights(settled, running) + Weight(settled, x)
  {
    assert (running + [x])[..|running|] == running;
  }

  lemma {:induction false} WeightsUpdate(settled: multiset<nat>, running: seq<Running>, j: nat, x: Running)
    requires j < |running|
    ensures Weights(settled, running[j := x]) + Weight(settled, running[j]) ==
            Weights(settled, running) + Weight(settled, x)
    decreases |running|
  {
    var n := |running| - 1;
    var front, now := running[..n], running[j := x];
    if j == n {
      assert now[..n] == front;
    } else {
      WeightsUpdate(settled, front, j, x);
      assert now[..n] == front[j := x];
    }
  }

  lemma {:induction false} WeightsWithout(settled: multiset<nat>, running: seq<Running>, j: nat)
    requires j < |running|
    ensures Weights(settled, Without(running, j)) + Weight(settled, running[j]) == Weights(settled, running)
    decreases |running|
  {
    var n := |running| - 1;
    var front, left := running[..n], Without(running, j);
    if j == n {
      assert left == front;
    } else {
      WeightsWithout(settled, front, j);
      assert left == Without(front, j) + [running[n]];
      WeightsSnoc(settled, Without(front, j), running[n]);
    }
  }

  // ---------------------------------------------------------------------
  // No turn but a new command raises the rank.
  // ---------------------------------------------------------------------

  /** Answers come in and the queue is left alone or refused. */
  lemma RankSettles(c: Client, now: Client)
    requires RpcAfter(c.rpc, now.rpc) && SameOrRefused(c.sched, now.sched)
    ensures Rank(now) <= Rank(c)
  {
    WeightsFall(c.rpc.settled, now.rpc.settled, c.sched.running);
  }

  lemma CallRank(c: Client, env: Env)
    requires RpcInv(c.rpc)
    ensures Rank(Call(c, env).0) <= Rank(c)
  {
    CallRpc(c, env);
    CallSched(c, env);
    RankSettles(c, Call(c, env).0);
  }

  lemma StartOneRank(c: Client, env: Env)
    requires RpcInv(c.rpc) && c.sched.queue != []
    ensures Rank(StartOne(c, env)) < Rank(c)
  {
    var taken := c.(sched := Take(c.sched, None));
    var (called, id) := Call(taken, env);
    CallRpc(taken, env);
    CallSched(taken, env);
    var x := Running(c.sched.queue[Best(c.sched.queue, c.sched.running, |c.sched.queue|)], id, false);
    WeightsFall(c.rpc.settled, called.rpc.settled, c.sched.running);
    WeightsSnoc(called.rpc.settled, c.sched.running, x);
    assert StartOne(c, env).sched.running == c.sched.running + [x];
  }

  lemma {:induction false} DrainRank(c: Client, env: nat -> Env, k: nat)
    requires RpcInv(c.rpc)
    ensures Rank(Drain(c, env, k)) <= Rank(c)
    decreases |c.sched.queue|
  {
    if HasRoom(c.sched) {
      StartOneShrinks(c, env(k));
      StartOneRpc(c, env(k));
      StartOneRank(c, env(k));
      DrainRank(StartOne(c, env(k)), env, k + 1);
    }
  }

  lemma CancelRank(c: Client, session: string, exec: string, env: Env)
    requires RpcInv(c.rpc)
    ensures Rank(CancelExec(c, session, exec, env)) <= Rank(c)
  {
    var i := FindQueued(c.sched.queue, session, exec);
    if i == |c.sched.queue| {
      CallRank(c, env);
    }
  }

  lemma FinishRank(c: Client, j: nat, envs: nat -> Env)
    requires RpcInv(c.rpc) && j < |c.sched.running|
    ensures Rank(Finish(c, j, envs)) < Rank(c)
  {
    WeightsWithout(c.rpc.settled, c.sched.running, j);
    DrainRank(c.(sched := Leave(c.sched, j)), envs, 0);
  }

  lemma TellRank(c: Client, j: nat)
    requires Enabled(c, Tells(j))
    ensures Rank(Tell(c, j)) < Rank(c)
  {
    WeightsUpdate(c.rpc.settled, c.sched.running, j, c.sched.running[j].(told := true));
  }

  lemma ReceiveRank(c: Client, g: nat, m: Message)
    requires RpcInv(c.rpc)
    ensures Rank(Receive(c, g, m)) <= Rank(c)
    ensures Advances(c, Receives(g, m)) ==> Rank(Receive(c, g, m)) < Rank(c)
  {
    var now := Receive(c, g, m);
    ReceiveRpc(c, g, m);
    RankSettles(c, now);
    if Advances(c, Receives(g, m)) {
      assert c.rpc.settled[m.id] == SettleCount(c.rpc, m.id);
      WeightsAnswered(c.rpc.settled, now.rpc.settled, c.sched.running, m.id);
    }
  }

  lemma OtherRank(c: Client, t: Turn)
    requires RpcInv(c.rpc) && Enabled(c, t) && !Drains(t) && !t.CancelsExec? && !t.Tells?
    ensures Rank(Next(c, t)) <= Rank(c)
  {
    TurnRpc(c, t);
    OtherTurnSched(c, t);
    RankSettles(c, Next(c, t));
  }

  /** The rank falls with every turn that moves a command on, and rises with new commands only. */
  lemma TurnRank(c: Client, t: Turn)
    requires RpcInv(c.rpc) && Enabled(c, t) && !t.RunsExec?
    ensures Rank(Next(c, t)) <= Rank(c)
    ensures Advances(c, t) ==> Rank(Next(c, t)) < Rank(c)
  {
    match t
    case SetsConcurrency(value, envs) => DrainRank(c.(sched := c.sched.(concurrency := Clamp(value))), envs, 0);
    case Finishes(j, envs) => FinishRank(c, j, envs);
    case CancelsExec(session, exec, env) => CancelRank(c, session, exec, env);
    case Tells(j) => TellRank(c, j);
    case Receives(g, m) => ReceiveRank(c, g, m);
    case _ => OtherRank(c, t);
  }

  // ---------------------------------------------------------------------
  // Whole runs.
  // ---------------------------------------------------------------------

  /** How many turns of a run move a command on. */
  ghost function Moves(c: Client, turns: seq<Turn>, end: Client): nat
    requires Run(c, turns, end)
    decreases |turns|
  {
    if turns == [] then 0
    else (if Advances(c, turns[0]) then 1 else 0) + Moves(Next(c, turns[0]), turns[1..], end)
  }

  lemma {:induction false} MovesBounded(c: Client, turns: seq<Turn>, end: Client)
    requires RpcInv(c.rpc) && Run(c, turns, end) && forall t :: t in turns ==> !t.RunsExec?
    ensures Moves(c, turns, end) + Rank(end) <= Rank(c)
    decreases |turns|
  {
    if turns != [] {
      assert turns[0] in turns;
      TurnRpc(c, turns[0]);
      TurnRank(c, turns[0]);
      MovesBounded(Next(c, turns[0]), turns[1..], end);
    }
  }

  /** Everything queued so far was answered once, and nothing is left over. */
  ghost predicate AllAnswered(s: Sched)
  {
    s.queue == [] && s.running == [] && forall n: nat :: s.told[n] == if n < s.nextItem then 1 else 0
  }

  lemma NothingLeft(s: Sched)
    requires SchedInv(s) && Busy(s) && s.running == []
    ensures AllAnswered(s)
  {
    forall n: nat ensures s.told[n] == if n < s.nextItem then 1 else 0 {
      assert s.told[n] == ToldCount(s, n);
    }
  }

  /** While an item is running, some turn moves a command on. */
  lemma SomethingMoves(first: Client, turns: seq<Turn>, c: Client)
    requires IsNew(first) && Run(first, turns, c) && c.sched.running != []
    ensures exists t :: Advances(c, t)
  {
    if c.sched.running[0].told {
      assert Advances(c, Finishes(0, k => Env(true, SpawnThrows)));
    } else {
      NoneForgotten(first, turns, c, 0);
      if HasAnswer(c, 0) {
        assert Advances(c, Tells(0));
      } else {
        var id := c.sched.running[0].call.value;
        assert Awaited(c.sched.running, id);
        assert Advances(c, Receives(c.rpc.generation, Response(id)));
      }
    }
  }

  /** Nothing moves exactly where everything was answered. */
  lemma StillExactlyWhen(first: Client, turns: seq<Turn>, c: Client)
    requires IsNew(first) && Run(first, turns, c)
    ensures AllAnswered(c.sched) <==> !exists t :: Advances(c, t)
  {
    if c.sched.running == [] {
      NewIsSound(first);
      RunKeeps(first, turns, c);
      NothingLeft(c.sched);
    } else {
      SomethingMoves(first, turns, c);
    }
  }

  lemma {:induction false} RunJoins(a: Client, turns: seq<Turn>, b: Client, more: seq<Turn>, c: Client)
    requires Run(a, turns, b) && Run(b, more, c)
    ensures Run(a, turns + more, c)
    decreases |turns|
  {
    if turns == [] {
      EmptyJoins(more);
    } else {
      RunJoins(Next(a, turns[0]), turns[1..], b, more, c);
      assert (turns + more)[1..] == turns[1..] + more;
    }
  }

  /** The main result.  From any state a client can get into, and whatever else happens - crashes,
      time-outs, cancellations, calls, stops -, without new commands at most `Rank` turns move a
      command on, and where no such turn is left every command ever queued was answered exactly once. */
  lemma EveryCommandAnswered(first: Client, turns: seq<Turn>, c: Client, more: seq<Turn>, end: Client)
    requires IsNew(first) && Run(first, turns, c) && Run(c, more, end) && forall t :: t in more ==> !t.RunsExec?
    ensures Moves(c, more, end) <= Rank(c)
    ensures AllAnswered(end.sched) <==> !exists t :: Advances(end, t)
  {
    NewIsSound(first);
    RunKeeps(first, turns, c);
    MovesBounded(c, more, end);
    RunJoins(first, turns, c, more, end);
    StillExactlyWhen(first, turns + more, end);
  }
}
