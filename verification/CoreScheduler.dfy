/** What every turn of the core client keeps of its command queue. */
module CoreScheduler {
  import opened Bytes
  import opened CoreState
  import opened CoreInvariants

  // ---------------------------------------------------------------------
  // The choice of the next item.
  // ---------------------------------------------------------------------

  /** The chosen item's session has the fewest running, and no item before it has as few. */
  lemma {:induction false} BestIsFairest(queue: seq<Item>, running: seq<Running>, n: nat)
    requires 1 <= n <= |queue|
    ensures var b := Best(queue, running, n);
            && (forall i :: 0 <= i < n ==> CountOf(running, queue[b].session) <= CountOf(running, queue[i].session))
            && (forall i :: 0 <= i < b ==> CountOf(running, queue[b].session) < CountOf(running, queue[i].session))
    decreases n
  {
    if n > 1 {
      BestIsFairest(queue, running, n - 1);
    }
  }

  // ---------------------------------------------------------------------
  // Items, each answered once.
  // ---------------------------------------------------------------------

  predicate Queued(queue: seq<Item>, n: nat)
  {
    exists i :: 0 <= i < |queue| && queue[i].number == n
  }

  predicate Waiting(running: seq<Running>, n: nat)
  {
    exists k :: 0 <= k < |running| && running[k].item.number == n && !running[k].told
  }

  /** An item is queued, or started and waiting for its answer, or was answered once. */
  function ToldCount(s: Sched, n: nat): nat
  {
    if n < s.nextItem && !Queued(s.queue, n) && !Waiting(s.running, n) then 1 else 0
  }

  predicate Increasing(queue: seq<Item>)
  {
    forall i, j :: 0 <= i < j < |queue| ==> queue[i].number < queue[j].number
  }

  predicate Apart(running: seq<Running>)
  {
    forall i, j :: 0 <= i < j < |running| ==> running[i].item.number != running[j].item.number
  }

  ghost predicate Shape(s: Sched)
  {
    && |s.queue| <= MAX_QUEUED && 1 <= s.concurrency <= 8
    && Increasing(s.queue) && Apart(s.running)
    && (forall i :: 0 <= i < |s.queue| ==> s.queue[i].number < s.nextItem)
    && (forall k :: 0 <= k < |s.running| ==> s.running[k].item.number < s.nextItem
                                             && !Queued(s.queue, s.running[k].item.number))
  }

  ghost predicate Answers(s: Sched)
  {
    forall n: nat :: s.told[n] == ToldCount(s, n)
  }

  /** Items of one session were started in the order they were queued, and before any still queued. */
  predicate InOrder(s: Sched)
  {
    && (forall i, j :: 0 <= i < j < |s.started| && s.started[i].session == s.started[j].session ==>
          s.started[i].number < s.started[j].number)
    && (forall i, j :: 0 <= i < |s.started| && 0 <= j < |s.queue| && s.started[i].session == s.queue[j].session ==>
          s.started[i].number < s.queue[j].number)
    && (forall i :: 0 <= i < |s.started| ==> s.started[i].number < s.nextItem)
  }

  ghost predicate SchedInv(s: Sched)
  {
    Shape(s) && Answers(s) && InOrder(s)
  }

  /** While anything is queued, as many commands run as may. */
  predicate Busy(s: Sched)
  {
    s.queue != [] ==> |s.running| >= s.concurrency
  }

  // ---------------------------------------------------------------------
  // The single changes.
  // ---------------------------------------------------------------------

  lemma PushKeeps(s: Sched, session: string, exec: string)
    requires SchedInv(s) && |s.queue| < MAX_QUEUED
    ensures SchedInv(Push(s, session, exec))
  {
    var x := Item(s.nextItem, session, exec);
    var now := Push(s, session, exec);
    forall n: nat ensures Queued(now.queue, n) <==> Queued(s.queue, n) || n == s.nextItem {
      if Queued(s.queue, n) {
        var i :| 0 <= i < |s.queue| && s.queue[i].number == n;
        assert now.queue[i].number == n;
      }
      assert now.queue[|s.queue|].number == s.nextItem;
    }
    forall n: nat ensures now.told[n] == ToldCount(now, n) {
      assert s.told[n] == ToldCount(s, n);
    }
  }

  lemma WithoutIs(queue: seq<Item>, i: nat)
    requires i < |queue| && Increasing(queue)
    ensures Increasing(Without(queue, i))
    ensures forall n: nat :: Queued(Without(queue, i), n) <==> Queued(queue, n) && n != queue[i].number
    ensures forall x :: x in Without(queue, i) ==> x in queue
  {
    forall n: nat ensures Queued(Without(queue, i), n) <==> Queued(queue, n) && n != queue[i].number {
      WithoutQueued(queue, i, n);
    }
  }

  lemma WithoutQueued(queue: seq<Item>, i: nat, n: nat)
    requires i < |queue| && Increasing(queue)
    ensures Queued(Without(queue, i), n) <==> Queued(queue, n) && n != queue[i].number
  {
    var now := Without(queue, i);
    if Queued(queue, n) && n != queue[i].number {
      var j :| 0 <= j < |queue| && queue[j].number == n;
      assert now[if j < i then j else j - 1].number == n;
    }
    if Queued(now, n) {
      var j :| 0 <= j < |now| && now[j].number == n;
      assert queue[if j < i then j else j + 1].number == n;
    }
  }

  lemma TakeShape(s: Sched, i: nat, call: Option<nat>)
    requires Shape(s) && i < |s.queue|
    ensures var now := s.(queue := Without(s.queue, i), running := s.running + [Running(s.queue[i], call, false)],
                          started := s.started + [s.queue[i]]);
            Shape(now) && (Answers(s) ==> Answers(now))
  {
    var now := s.(queue := Without(s.queue, i), running := s.running + [Running(s.queue[i], call, false)],
                  started := s.started + [s.queue[i]]);
    WithoutIs(s.queue, i);
    assert Queued(s.queue, s.queue[i].number);
    forall n: nat ensures Waiting(now.running, n) <==> Waiting(s.running, n) || n == s.queue[i].number {
      if Waiting(s.running, n) {
        var k :| 0 <= k < |s.running| && s.running[k].item.number == n && !s.running[k].told;
        assert now.running[k].item.number == n && !now.running[k].told;
      }
      assert now.running[|s.running|].item.number == s.queue[i].number;
    }
    if Answers(s) {
      forall n: nat ensures now.told[n] == ToldCount(now, n) {
        assert s.told[n] == ToldCount(s, n);
      }
    }
  }

  /** Taking the first queued item of its session keeps the order. */
  lemma TakeInOrder(s: Sched, i: nat)
    requires InOrder(s) && i < |s.queue| && Increasing(s.queue) && s.queue[i].number < s.nextItem
    requires forall j :: 0 <= j < i ==> s.queue[j].session != s.queue[i].session
    ensures InOrder(s.(queue := Without(s.queue, i), started := s.started + [s.queue[i]]))
  {
  }

  lemma QueuedFirst(queue: seq<Item>, n: nat)
    requires queue != []
    ensures Queued(queue, n) <==> queue[0].number == n || Queued(queue[1..], n)
  {
    if Queued(queue[1..], n) {
      var j :| 0 <= j < |queue[1..]| && queue[1..][j].number == n;
      assert queue[j + 1].number == n;
    }
    if Queued(queue, n) {
      var i :| 0 <= i < |queue| && queue[i].number == n;
      assert i == 0 || queue[1..][i - 1].number == n;
    }
  }

  lemma {:induction false} NumbersIs(queue: seq<Item>, n: nat)
    requires Increasing(queue)
    ensures Numbers(queue)[n] == if Queued(queue, n) then 1 else 0
    decreases |queue|
  {
    if queue != [] {
      NumbersIs(queue[1..], n);
      QueuedFirst(queue, n);
    }
  }

  lemma NotBoth(s: Sched, n: nat)
    requires Shape(s) && Waiting(s.running, n)
    ensures !Queued(s.queue, n) && n < s.nextItem
  {
  }

  lemma RejectKeeps(s: Sched)
    requires SchedInv(s)
    ensures SchedInv(RejectQueue(s))
  {
    var now := RejectQueue(s);
    forall n: nat ensures now.told[n] == ToldCount(now, n) {
      NumbersIs(s.queue, n);
      assert s.told[n] == ToldCount(s, n);
      if Waiting(s.running, n) {
        NotBoth(s, n);
      }
    }
  }

  lemma CancelKeeps(s: Sched, i: nat)
    requires SchedInv(s) && i < |s.queue|
    ensures SchedInv(s.(queue := Without(s.queue, i), told := s.told + multiset{s.queue[i].number}))
  {
    var now := s.(queue := Without(s.queue, i), told := s.told + multiset{s.queue[i].number});
    WithoutIs(s.queue, i);
    assert Queued(s.queue, s.queue[i].number);
    forall n: nat ensures now.told[n] == ToldCount(now, n) {
      assert s.told[n] == ToldCount(s, n);
      if Waiting(s.running, n) {
        NotBoth(s, n);
      }
    }
  }

  lemma TellKeeps(s: Sched, j: nat)
    requires SchedInv(s) && j < |s.running| && !s.running[j].told
    ensures SchedInv(s.(running := s.running[j := s.running[j].(told := true)],
                        told := s.told + multiset{s.running[j].item.number}))
  {
    var x := s.running[j].item.number;
    var now := s.(running := s.running[j := s.running[j].(told := true)], told := s.told + multiset{x});
    forall n: nat ensures Waiting(now.running, n) <==> Waiting(s.running, n) && n != x {
      if Waiting(s.running, n) && n != x {
        var k :| 0 <= k < |s.running| && s.running[k].item.number == n && !s.running[k].told;
        assert now.running[k] == s.running[k];
      }
      if Waiting(now.running, n) {
        var k :| 0 <= k < |now.running| && now.running[k].item.number == n && !now.running[k].told;
        assert s.running[k] == now.running[k];
      }
    }
    assert Waiting(s.running, x);
    forall n: nat ensures now.told[n] == ToldCount(now, n) {
      assert s.told[n] == ToldCount(s, n);
    }
  }

  lemma LeftApart(running: seq<Running>, j: nat)
    requires j < |running| && Apart(running)
    ensures Apart(Without(running, j))
    ensures forall k :: 0 <= k < |running| - 1 ==> Without(running, j)[k] == running[if k < j then k else k + 1]
  {
  }

  lemma LeaveKeeps(s: Sched, j: nat)
    requires SchedInv(s) && j < |s.running| && s.running[j].told
    ensures SchedInv(Leave(s, j))
  {
    var now := Leave(s, j);
    LeftApart(s.running, j);
    forall n: nat ensures Waiting(now.running, n) <==> Waiting(s.running, n) {
      if Waiting(s.running, n) {
        var k :| 0 <= k < |s.running| && s.running[k].item.number == n && !s.running[k].told;
        assert now.running[if k < j then k else k - 1] == s.running[k];
      }
    }
    forall n: nat ensures now.told[n] == ToldCount(now, n) {
      assert s.told[n] == ToldCount(s, n);
    }
  }

  // ---------------------------------------------------------------------
  // The turns.
  // ---------------------------------------------------------------------

  /** Nothing a call does to the queue goes beyond refusing all of it. */
  predicate SameOrRefused(before: Sched, after: Sched)
  {
    after == before || after == RejectQueue(before)
  }

  lemma RefusedTwice(s: Sched)
    ensures RejectQueue(RejectQueue(s)) == RejectQueue(s)
  {
    assert s.told + Numbers(s.queue) + multiset{} == s.told + Numbers(s.queue);
  }

  lemma CallSched(c: Client, env: Env)
    ensures SameOrRefused(c.sched, Call(c, env).0.sched)
  {
  }

  lemma RefusedKeeps(before: Sched, after: Sched)
    requires SchedInv(before) && SameOrRefused(before, after)
    ensures SchedInv(after) && (Busy(before) ==> Busy(after))
  {
    RejectKeeps(before);
  }

  lemma TakeKeeps(s: Sched, call: Option<nat>)
    requires SchedInv(s) && s.queue != []
    ensures SchedInv(Take(s, call))
  {
    var i := Best(s.queue, s.running, |s.queue|);
    BestIsFairest(s.queue, s.running, |s.queue|);
    TakeShape(s, i, call);
    TakeInOrder(s, i);
  }

  lemma StartOneKeeps(c: Client, env: Env)
    requires SchedInv(c.sched) && c.sched.queue != []
    ensures SchedInv(StartOne(c, env).sched)
  {
    var taken := c.(sched := Take(c.sched, None));
    var (called, id) := Call(taken, env);
    CallSched(taken, env);
    TakeKeeps(c.sched, id);
    RefusedKeeps(Take(c.sched, id), StartOne(c, env).sched);
  }

  /** The drain loop ends with nothing queued or everything running that may. */
  lemma {:induction false} DrainKeeps(c: Client, env: nat -> Env, k: nat)
    requires SchedInv(c.sched)
    ensures SchedInv(Drain(c, env, k).sched) && Busy(Drain(c, env, k).sched)
    decreases |c.sched.queue|
  {
    if HasRoom(c.sched) {
      StartOneShrinks(c, env(k));
      StartOneKeeps(c, env(k));
      DrainKeeps(StartOne(c, env(k)), env, k + 1);
    }
  }

  lemma RunExecKeeps(c: Client, session: string, exec: string, env: nat -> Env)
    requires SchedInv(c.sched) && Busy(c.sched)
    ensures SchedInv(RunExec(c, session, exec, env).sched) && Busy(RunExec(c, session, exec, env).sched)
  {
    var s := c.sched;
    if |s.queue| < MAX_QUEUED {
      PushKeeps(s, session, exec);
      DrainKeeps(c.(sched := Push(s, session, exec)), env, 0);
    }
  }

  lemma FinishKeeps(c: Client, j: nat, env: nat -> Env)
    requires SchedInv(c.sched) && j < |c.sched.running| && c.sched.running[j].told
    ensures SchedInv(Finish(c, j, env).sched) && Busy(Finish(c, j, env).sched)
  {
    LeaveKeeps(c.sched, j);
    DrainKeeps(c.(sched := Leave(c.sched, j)), env, 0);
  }

  lemma DrainTurnKeeps(c: Client, t: Turn)
    requires SchedInv(c.sched) && Busy(c.sched) && Enabled(c, t) && Drains(t)
    ensures SchedInv(Next(c, t).sched) && Busy(Next(c, t).sched)
  {
    match t
    case RunsExec(session, exec, envs) => RunExecKeeps(c, session, exec, envs);
    case SetsConcurrency(value, envs) => DrainKeeps(c.(sched := c.sched.(concurrency := Clamp(value))), envs, 0);
    case Finishes(j, envs) => FinishKeeps(c, j, envs);
  }

  lemma CancelTurnKeeps(c: Client, session: string, exec: string, env: Env)
    requires SchedInv(c.sched) && Busy(c.sched)
    ensures SchedInv(CancelExec(c, session, exec, env).sched) && Busy(CancelExec(c, session, exec, env).sched)
  {
    var s := c.sched;
    var i := FindQueued(s.queue, session, exec);
    if i < |s.queue| {
      CancelKeeps(s, i);
    } else if IsRunning(s.running, session, exec) {
      CallSched(c, env);
      RefusedKeeps(s, Call(c, env).0.sched);
    }
  }

  /** Turns of the connection leave the queue alone or refuse all of it. */
  lemma OtherTurnSched(c: Client, t: Turn)
    requires Enabled(c, t) && !Drains(t) && !t.CancelsExec? && !t.Tells?
    ensures SameOrRefused(c.sched, Next(c, t).sched)
  {
    match t
    case FactoryResolves(env) => CallSched(c.(rpc := c.rpc.(connected := true)), env);
    case Calls(env) => CallSched(c, env);
    case StopBegins(env) =>
      CallSched(Client(c.rpc.(stopping := true), RejectQueue(c.sched)), env);
      RefusedTwice(c.sched);
    case _ =>
  }

  lemma OtherTurnKeeps(c: Client, t: Turn)
    requires SchedInv(c.sched) && Busy(c.sched) && Enabled(c, t) && !Drains(t) && !t.CancelsExec? && !t.Tells?
    ensures SchedInv(Next(c, t).sched) && Busy(Next(c, t).sched)
  {
    OtherTurnSched(c, t);
    RefusedKeeps(c.sched, Next(c, t).sched);
  }

  /** Between turns nothing queued waits while fewer run than may; every item is answered at most
      once, and is answered unless it is queued or running; and a session's commands start in order. */
  lemma TurnKeeps(c: Client, t: Turn)
    requires SchedInv(c.sched) && Busy(c.sched) && Enabled(c, t)
    ensures SchedInv(Next(c, t).sched) && Busy(Next(c, t).sched)
  {
    if Drains(t) {
      DrainTurnKeeps(c, t);
    } else if t.CancelsExec? {
      CancelTurnKeeps(c, t.session, t.exec, t.env);
    } else if t.Tells? {
      TellKeeps(c.sched, t.j);
    } else {
      OtherTurnKeeps(c, t);
    }
  }

  lemma NewIsSound(c: Client)
    requires IsNew(c)
    ensures RpcInv(c.rpc) && SchedInv(c.sched) && Busy(c.sched)
  {
  }

  /** The main result: both sets of invariants hold after any turns of a new client. */
  lemma {:induction false} RunKeeps(from: Client, turns: seq<Turn>, to: Client)
    requires RpcInv(from.rpc) && SchedInv(from.sched) && Busy(from.sched) && Run(from, turns, to)
    ensures RpcInv(to.rpc) && SchedInv(to.sched) && Busy(to.sched) && RpcAfter(from.rpc, to.rpc)
    decreases |turns|
  {
    if turns != [] {
      TurnRpc(from, turns[0]);
      TurnKeeps(from, turns[0]);
      RunKeeps(Next(from, turns[0]), turns[1..], to);
    }
  }
}
