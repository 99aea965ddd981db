/** The critical sections of the `exec.run` pool on the linked structures themselves. */
module ExecQueue {
  import opened Bytes
  import opened ExecLists

  class Exec {
    const session: CText
    const execId: CText
    var cancel: bool
    var running: bool
    var queueNext: Exec?
    var activeNext: Exec?

    constructor (session: CText, execId: CText)
      ensures this.session == session && this.execId == execId && !cancel && !running
    {
      this.session, this.execId := session, execId;
      cancel, running, queueNext, activeNext := false, false, null, null;
    }
  }

  class ExecPool {
    var queueHead: Exec?
    var queueTail: Exec?
    var activeHead: Exec?
    var queued: nat
    var runningCount: nat
    ghost var queue: seq<Exec>
    ghost var active: seq<Exec>
    ghost var running: set<Exec>

    ghost function View(): Lists<Exec>
      reads this
    {
      Lists(queue, active, running)
    }

    ghost predicate QueuePoints(i: nat)
      requires i < |queue|
      reads this`queue, queue`queueNext
    {
      queue[i].queueNext == At(queue, i + 1)
    }

    ghost predicate ActivePoints(i: nat)
      requires i < |active|
      reads this`active, active`activeNext
    {
      active[i].activeNext == At(active, i + 1)
    }

    /** Every element of the queue points to the next one, the last to nothing. */
    ghost predicate QueueChained()
      reads this`queueHead, this`queueTail, this`queue, queue`queueNext
    {
      && queueHead == At(queue, 0) && queueTail == Last(queue)
      && forall i: nat :: i < |queue| ==> QueuePoints(i)
    }

    ghost predicate ActiveChained()
      reads this`activeHead, this`active, active`activeNext
    {
      && activeHead == At(active, 0)
      && forall i: nat :: i < |active| ==> ActivePoints(i)
    }

    static ghost function At(s: seq<Exec>, i: nat): Exec?
    {
      if i < |s| then s[i] else null
    }

    static ghost function Last(s: seq<Exec>): Exec?
    {
      if s == [] then null else s[|s| - 1]
    }

    ghost predicate Flagged()
      reads this`active, this`running, active`running
    {
      forall x :: x in active ==> (x.running <==> x in running)
    }

    /** Pointers, flags and counters all agree with the contents. */
    ghost predicate Linked()
      reads this, queue`queueNext, active`activeNext, active`running
    {
      QueueChained() && ActiveChained() && queued == |queue| && runningCount == |running| && Flagged()
    }

    ghost predicate Valid()
      reads this, queue`queueNext, active`activeNext, active`running
    {
      Linked() && InOrder(View())
    }

    constructor ()
      ensures Valid() && View() == Lists([], [], {})
    {
      queueHead, queueTail, activeHead := null, null, null;
      queued, runningCount := 0, 0;
      queue, active, running := [], [], {};
    }

    method Append(exec: Exec)
      requires QueueChained() && exec !in queue && queued == |queue|
      modifies this`queueHead, this`queueTail, this`queued, this`queue, queue`queueNext, exec`queueNext
      ensures QueueChained() && queue == old(queue) + [exec] && queued == |queue|
    {
      exec.queueNext := null;
      if queueTail != null { queueTail.queueNext := exec; } else { queueHead := exec; }
      queueTail := exec;
      queued := queued + 1;
      ghost var was := queue;
      queue := queue + [exec];
      assert was != [] ==> old(QueuePoints(|queue| - 1));
      forall i: nat | i < |queue| ensures QueuePoints(i) {
        if i < |was| { assert old(QueuePoints(i)) && queue[i] == was[i]; }
      }
    }

    method Push(exec: Exec)
      requires ActiveChained() && exec !in active
      modifies this`activeHead, this`active, exec`activeNext
      ensures ActiveChained() && active == [exec] + old(active)
    {
      exec.activeNext := activeHead;
      activeHead := exec;
      ghost var was := active;
      active := [exec] + active;
      forall i: nat | i < |active| ensures ActivePoints(i) {
        if i > 0 { assert old(ActivePoints(i - 1)) && active[i] == was[i - 1]; }
      }
    }

    /** The locked part of `async_exec_enqueue`. */
    method Enqueue(exec: Exec) returns (accepted: bool)
      requires Valid() && exec !in active && !exec.running
      modifies this, queue`queueNext, exec`queueNext, exec`activeNext
      ensures Valid() && accepted == (old(queued) < MAX_QUEUE)
      ensures View() == if accepted then Enqueued(old(View()), exec) else old(View())
    {
      if queued >= MAX_QUEUE { return false; }
      EnqueueKeepsOrder(View(), exec);
      Link(exec);
      return true;
    }

    method Link(exec: Exec)
      requires Linked() && exec !in active && exec !in queue && exec !in running && !exec.running
      modifies this, queue`queueNext, exec`queueNext, exec`activeNext
      ensures Linked() && View() == Enqueued(old(View()), exec)
    {
      Append(exec);
      Push(exec);
    }

    method Pop() returns (exec: Exec)
      requires QueueChained() && queue != [] && queued == |queue|
      modifies this`queueHead, this`queueTail, this`queued, this`queue
      ensures exec == old(queue[0]) && QueueChained() && queue == old(queue[1..]) && queued == |queue|
    {
      exec := queueHead;
      assert QueuePoints(0);
      queueHead := exec.queueNext;
      if queueHead == null { queueTail := null; }
      queued := queued - 1;
      ghost var was := queue;
      queue := queue[1..];
      forall i: nat | i < |queue| ensures QueuePoints(i) {
        assert old(QueuePoints(i + 1)) && queue[i] == was[i + 1];
      }
    }

    /** The first critical section of a worker, with work to take. */
    method Take() returns (exec: Exec)
      requires Valid() && queueHead != null
      modifies this, queue`running
      ensures Valid() && exec == old(queue[0]) && View() == Taken(old(View()))
    {
      TakeKeepsOrder(View());
      assert queue[0] in queue;
      exec := Begin();
    }

    method Begin() returns (exec: Exec)
      requires Linked() && queue != [] && queue[0] in active && queue[0] !in running
      modifies this, queue`running
      ensures Linked() && exec == old(queue[0]) && View() == Taken(old(View()))
    {
      exec := Pop();
      SetRunning(exec);
    }

    method SetRunning(exec: Exec)
      requires Flagged() && exec !in running && runningCount == |running|
      modifies this`runningCount, this`running, exec`running
      ensures Flagged() && runningCount == |running| && running == old(running) + {exec}
    {
      runningCount := runningCount + 1;
      exec.running := true;
      running := running + {exec};
    }

    method ClearRunning(exec: Exec)
      requires Flagged() && exec in running && runningCount == |running|
      modifies this`runningCount, this`running, exec`running
      ensures Flagged() && runningCount == |running| && running == old(running) - {exec}
    {
      runningCount := runningCount - 1;
      exec.running := false;
      running := running - {exec};
    }

    /** The element of the active list in front of `exec`. */
    method ActiveBefore(exec: Exec) returns (previous: Exec?, ghost k: nat)
      requires ActiveChained() && exec in active
      ensures k < |active| && active[k] == exec && exec !in active[..k]
      ensures previous == if k > 0 then active[k - 1] else null
    {
      var current := activeHead;
      previous, k := null, 0;
      while current != exec
        invariant k < |active| && current == active[k] && exec !in active[..k]
        invariant previous == if k > 0 then active[k - 1] else null
        decreases |active| - k
      {
        assert exec !in active[..k + 1] && ActivePoints(k);
        previous, current, k := current, current.activeNext, k + 1;
      }
    }

    /** `async_exec_active_remove`. */
    method ActiveRemove(exec: Exec)
      requires ActiveChained() && NoDup(active) && exec in active
      modifies this`activeHead, this`active, active`activeNext
      ensures ActiveChained() && active == Without(old(active), exec)
    {
      var previous, k := ActiveBefore(exec);
      WithoutAt(active, k);
      ActiveUnlink(exec, previous, k);
    }

    method ActiveUnlink(exec: Exec, previous: Exec?, ghost k: nat)
      requires ActiveChained() && NoDup(active) && k < |active| && active[k] == exec
      requires previous == if k > 0 then active[k - 1] else null
      modifies this`activeHead, this`active, active`activeNext
      ensures ActiveChained() && active == old(active[..k] + active[k + 1..])
    {
      ghost var was := active;
      forall i | 0 <= i < |was| && i != k - 1 ensures was[i] != previous { ApartFrom(was, k, i); }
      if previous != null { previous.activeNext := exec.activeNext; } else { activeHead := exec.activeNext; }
      active := was[..k] + was[k + 1..];
      CutAt(was, k, 0);
      assert old(ActivePoints(k));
      forall i: nat | i < |active| ensures ActivePoints(i) {
        assert old(ActivePoints(if i < k then i else i + 1));
        CutAt(was, k, i);
        CutAt(was, k, i + 1);
      }
    }

    /** What stands at `i` once element `k` is cut out. */
    static lemma CutAt(s: seq<Exec>, k: nat, i: nat)
      requires k < |s|
      ensures At(s[..k] + s[k + 1..], i) == At(s, if i < k then i else i + 1)
    {
    }

    static lemma ApartFrom(s: seq<Exec>, k: nat, i: nat)
      requires NoDup(s) && k < |s| && i < |s|
      ensures k > 0 && i != k - 1 ==> s[i] != s[k - 1]
    {
      if 0 < k && i < k - 1 { NoDupIndex(s, i, k - 1); }
      if 0 < k && k - 1 < i { NoDupIndex(s, k - 1, i); }
    }

    method QueueBefore(exec: Exec) returns (found: bool, previous: Exec?, ghost k: nat)
      requires QueueChained()
      ensures found <==> exec in queue
      ensures found ==> k < |queue| && queue[k] == exec && exec !in queue[..k]
      ensures found ==> previous == if k > 0 then queue[k - 1] else null
    {
      var current := queueHead;
      previous, k := null, 0;
      while current != null
        invariant k <= |queue| && current == At(queue, k) && exec !in queue[..k]
        invariant previous == if k > 0 then queue[k - 1] else null
        decreases |queue| - k
      {
        if current == exec { return true, previous, k; }
        assert QueuePoints(k);
        previous, current, k := current, current.queueNext, k + 1;
      }
      return false, null, 0;
    }

    /** `async_exec_queue_remove`. */
    method QueueRemove(exec: Exec) returns (removed: bool)
      requires QueueChained() && NoDup(queue) && queued == |queue|
      modifies this`queueHead, this`queueTail, this`queued, this`queue, queue`queueNext
      ensures removed <==> exec in old(queue)
      ensures QueueChained() && queue == Without(old(queue), exec) && queued == |queue|
    {
      var found, previous, k := QueueBefore(exec);
      if !found { return false; }
      WithoutAt(queue, k);
      QueueUnlink(exec, previous, k);
      return true;
    }

    method QueueUnlink(exec: Exec, previous: Exec?, ghost k: nat)
      requires QueueChained() && NoDup(queue) && queued == |queue| && k < |queue| && queue[k] == exec
      requires previous == if k > 0 then queue[k - 1] else null
      modifies this`queueHead, this`queueTail, this`queued, this`queue, queue`queueNext
      ensures QueueChained() && queue == old(queue[..k] + queue[k + 1..]) && queued == |queue|
    {
      ghost var was := queue;
      forall i | 0 <= i < |was| && i != k - 1 ensures was[i] != previous { ApartFrom(was, k, i); }
      if k + 1 < |was| { NoDupIndex(was, k, |was| - 1); }
      if previous != null { previous.queueNext := exec.queueNext; } else { queueHead := exec.queueNext; }
      if queueTail == exec { queueTail := previous; }
      queued := queued - 1;
      queue := was[..k] + was[k + 1..];
      CutAt(was, k, 0);
      if |was| > 1 { CutAt(was, k, |was| - 2); }
      assert old(QueuePoints(k));
      forall i: nat | i < |queue| ensures QueuePoints(i) {
        assert old(QueuePoints(if i < k then i else i + 1));
        CutAt(was, k, i);
        CutAt(was, k, i + 1);
      }
    }

    /** The second critical section of a worker. */
    method Finish(exec: Exec)
      requires Valid() && exec in running
      modifies this, active`activeNext, exec`running
      ensures Valid() && View() == Finished(old(View()), exec)
    {
      FinishKeepsOrder(View(), exec);
      Retire(exec);
    }

    method Retire(exec: Exec)
      requires Linked() && NoDup(active) && exec in active && exec in running
      modifies this, active`activeNext, exec`running
      ensures Linked() && View() == Finished(old(View()), exec)
    {
      ClearRunning(exec);
      ActiveRemove(exec);
    }

    static predicate Names(x: Exec, session: CText, execId: CText)
    {
      x.session == session && x.execId == execId
    }

    static ghost function Target(active: seq<Exec>, session: CText, execId: CText): Option<Exec>
    {
      FirstMatch(active, x => Names(x, session, execId))
    }

    /** The search of `async_exec_cancel`: the first request in the active list with these names. */
    method FindNamed(session: CText, execId: CText) returns (exec: Exec?)
      requires ActiveChained()
      ensures match Target(active, session, execId)
              case None => exec == null
              case Some(x) => exec == x
    {
      exec := activeHead;
      ghost var k: nat := 0;
      assert active[0..] == active;
      while exec != null
        invariant k <= |active| && exec == At(active, k)
        invariant Target(active, session, execId) == Target(active[k..], session, execId)
        decreases |active| - k
      {
        assert active[k..][1..] == active[k + 1..] && ActivePoints(k);
        if exec.session == session && exec.execId == execId { return; }
        exec, k := exec.activeNext, k + 1;
      }
    }

    /** The locked part of `async_exec_cancel`: a running request gets the flag, a queued one leaves
        both lists.  The caller replies and frees what was dropped. */
    method Cancel(session: CText, execId: CText) returns (found: bool, dropped: Exec?)
      requires Valid()
      modifies this, active`activeNext, queue`queueNext, active`cancel
      ensures Valid()
      ensures match Target(old(active), session, execId)
              case None => !found && dropped == null && View() == old(View())
              case Some(x) =>
                && found
                && (x in old(running) ==> dropped == null && x.cancel && View() == old(View()))
                && (x !in old(running) ==> dropped == x && View() == Dropped(old(View()), x))
                && forall y :: y in old(active) && (y != x || y !in old(running)) ==> y.cancel == old(y.cancel)
    {
      var exec := FindNamed(session, execId);
      if exec == null { return false, null; }
      if exec.running {
        exec.cancel := true;
        return true, null;
      }
      Drop(exec);
      return true, exec;
    }

    method Drop(exec: Exec)
      requires Valid() && exec in queue
      modifies this, active`activeNext, queue`queueNext
      ensures Valid() && View() == Dropped(old(View()), exec)
    {
      DropKeepsOrder(View(), exec);
      Unlink(exec);
    }

    method Unlink(exec: Exec)
      requires Linked() && NoDup(queue) && NoDup(active) && exec in queue && exec in active
      modifies this, active`activeNext, queue`queueNext
      ensures Linked() && View() == Dropped(old(View()), exec)
    {
      var removed := QueueRemove(exec);
      ActiveRemove(exec);
    }
  }
}
