/** The `exec.run` pool of core/src/rpc.c as a protocol: the RPC loop and the workers take
    turns at the mutex, and everything between two critical sections is a step of its own. */
module ExecProtocol {
  import opened ExecLists
  import opened Bytes

  const WORKERS: nat := 8

  type Id = nat

  /** A request as snapshotted by `exec.run`; without an id no reply is owed. */
  datatype Request = Request(session: CText, execId: CText, hasId: bool)

  /** Where a worker stands with the request it took. */
  datatype Stage =
    | Fetched      // dequeued and marked running
    | Executing    // past the cancel check, inside `owc_exec_run`
    | Settled      // replied if a reply is owed
    | Detached     // off the active list, not yet freed

  datatype Pool = Pool(
    lists: Lists<Id>,
    cancel: set<Id>,                  // requests whose cancel flag is set
    workers: map<nat, Id>,            // busy workers
    stages: map<Id, Stage>,           // requests held by a worker
    dropped: set<Id>,                 // taken off the lists by a cancel, reply and free still to come
    requests: map<Id, Request>,       // everything ever accepted
    order: seq<Id>,                   // in the order accepted
    fetched: seq<Id>,                 // in the order workers took them
    withdrawn: set<Id>,               // cancelled while queued
    executed: set<Id>,
    replies: map<Id, nat>,
    frees: map<Id, nat>)

  datatype Event =
    | Enqueue(id: Id, request: Request)
    | Fetch(worker: nat)
    | CheckCancel(worker: nat)
    | Return(worker: nat)             // `owc_exec_run` is back, whatever its outcome
    | Detach(worker: nat)
    | Release(worker: nat)
    | Cancel(session: CText, execId: CText)
    | ReplyDropped(id: Id)

  const EMPTY: Pool := Pool(Lists([], [], {}), {}, map[], map[], {}, map[], [], [], {}, {}, map[], map[])

  function Bump(m: map<Id, nat>, id: Id): map<Id, nat>
  {
    m[id := (if id in m then m[id] else 0) + 1]
  }

  function Count(m: map<Id, nat>, id: Id): nat
  {
    if id in m then m[id] else 0
  }

  /** `reply_error_text` and `reply_result_text` write nothing without an id. */
  function Replied(p: Pool, id: Id): Pool
    requires id in p.requests
  {
    if p.requests[id].hasId then p.(replies := Bump(p.replies, id)) else p
  }

  predicate At(p: Pool, w: nat, stage: Stage)
  {
    w in p.workers && p.workers[w] in p.stages && p.workers[w] in p.requests && p.stages[p.workers[w]] == stage
  }

  function Target(p: Pool, session: CText, execId: CText): Option<Id>
  {
    FirstMatch(p.lists.active, id => id in p.requests && p.requests[id].session == session
        && p.requests[id].execId == execId)
  }

  /** When a step can be taken. */
  predicate Enabled(p: Pool, e: Event)
  {
    match e
    case Enqueue(id, _) => id !in p.requests
    case Fetch(w) => w < WORKERS && w !in p.workers && p.lists.queue != []
    case CheckCancel(w) => At(p, w, Fetched)
    case Return(w) => At(p, w, Executing)
    case Detach(w) => At(p, w, Settled)
    case Release(w) => At(p, w, Detached)
    case Cancel(_, _) => true
    case ReplyDropped(id) => id in p.dropped && id in p.requests
  }

  function Advance(p: Pool, id: Id, stage: Stage): Pool
  {
    p.(stages := p.stages[id := stage])
  }

  /** What the step does. */
  function Step(p: Pool, e: Event): Pool
    requires Enabled(p, e)
  {
    match e
    case Enqueue(id, request) =>
      if |p.lists.queue| >= MAX_QUEUE then p
      else p.(lists := Enqueued(p.lists, id), requests := p.requests[id := request], order := p.order + [id])
    case Fetch(w) =>
      var id := p.lists.queue[0];
      Advance(p, id, Fetched).(lists := Taken(p.lists), workers := p.workers[w := id], fetched := p.fetched + [id])
    case CheckCancel(w) =>
      var id := p.workers[w];
      if id in p.cancel then Replied(Advance(p, id, Settled), id)
      else Advance(p, id, Executing).(executed := p.executed + {id})
    case Return(w) => Replied(Advance(p, p.workers[w], Settled), p.workers[w])
    case Detach(w) => Advance(p, p.workers[w], Detached).(lists := Finished(p.lists, p.workers[w]))
    case Release(w) =>
      var id := p.workers[w];
      p.(workers := p.workers - {w}, stages := p.stages - {id}, frees := Bump(p.frees, id))
    case Cancel(session, execId) =>
      (match Target(p, session, execId)
       case None => p
       case Some(id) =>
         if id in p.lists.running then p.(cancel := p.cancel + {id})
         else if id in p.lists.queue then
           p.(lists := Dropped(p.lists, id), dropped := p.dropped + {id}, withdrawn := p.withdrawn + {id})
         else p)
    case ReplyDropped(id) => Replied(p, id).(dropped := p.dropped - {id}, frees := Bump(p.frees, id))
  }

  /** The states of a run. */
  ghost predicate Reaches(p: Pool, events: seq<Event>, q: Pool)
    decreases |events|
  {
    if events == [] then p == q else Enabled(p, events[0]) && Reaches(Step(p, events[0]), events[1..], q)
  }

  // ---------------------------------------------------------------------
  // What every reachable state satisfies.
  // ---------------------------------------------------------------------

  /** The list structure, and which workers hold what. */
  ghost predicate Structure(p: Pool)
  {
    && ListsAgree(p)
    && (forall id :: id in p.dropped ==> id in p.requests && id in p.withdrawn)
    && HoldersAgree(p)
  }

  ghost predicate ListsAgree(p: Pool)
  {
    && InOrder(p.lists)
    && (forall id :: id in p.lists.active ==> id in p.requests && id !in p.dropped)
    && (forall id :: id in p.lists.queue ==> id !in p.stages)
    && (forall id :: id in p.lists.running <==> id in p.stages && p.stages[id] != Detached)
    && (forall id :: id in p.stages ==> id in p.requests && id !in p.dropped)
    && (forall id :: id in p.stages && p.stages[id] == Detached ==> id !in p.lists.active)
  }

  /** Every busy worker holds one request, no two the same. */
  ghost predicate HoldersAgree(p: Pool)
  {
    && (forall w :: w in p.workers ==> w < WORKERS && p.workers[w] in p.stages)
    && (forall v, w :: v in p.workers && w in p.workers && v != w ==> p.workers[v] != p.workers[w])
    && (forall id :: id in p.stages ==> HasHolder(p, id))
  }

  ghost predicate HasHolder(p: Pool, id: Id)
  {
    exists w :: w in p.workers && p.workers[w] == id
  }

  /** How far the pool is with a request. */
  datatype Progress = Unknown | Waiting | Held(stage: Stage) | Withdrawn | Done

  function ProgressOf(p: Pool, id: Id): Progress
  {
    if id !in p.requests then Unknown
    else if id in p.lists.queue then Waiting
    else if id in p.dropped then Withdrawn
    else if id in p.stages then Held(p.stages[id])
    else Done
  }

  function One(owed: bool): nat { if owed then 1 else 0 }

  /** Replies and frees are settled exactly as far as the request has come. */
  ghost predicate Accounted(p: Pool, id: Id)
  {
    match ProgressOf(p, id)
    case Unknown => Untouched(p, id) && id !in p.withdrawn
    case Waiting => Untouched(p, id) && id !in p.withdrawn
    case Withdrawn => Untouched(p, id)
    case Held(stage) =>
      && Count(p.frees, id) == 0 && id !in p.withdrawn
      && Count(p.replies, id) == (if stage == Fetched || stage == Executing then 0 else One(p.requests[id].hasId))
      && (stage == Fetched ==> id !in p.executed)
    case Done =>
      && Count(p.frees, id) == 1 && Count(p.replies, id) == One(p.requests[id].hasId)
      && (id in p.withdrawn ==> id !in p.executed)
  }

  ghost predicate Untouched(p: Pool, id: Id)
  {
    Count(p.replies, id) == 0 && Count(p.frees, id) == 0 && id !in p.executed
  }

  /** The accepted requests that were not withdrawn, in order. */
  function Remaining(order: seq<Id>, withdrawn: set<Id>): (r: seq<Id>)
    ensures forall id :: id in r <==> id in order && id !in withdrawn
  {
    if order == [] then []
    else if order[0] in withdrawn then Remaining(order[1..], withdrawn)
    else [order[0]] + Remaining(order[1..], withdrawn)
  }

  /** First in, first out: what was fetched and what waits is what was accepted, in that
      order, without the requests withdrawn. */
  ghost predicate Fifo(p: Pool)
  {
    && NoDup(p.order) && (forall id :: id in p.order <==> id in p.requests)
    && Remaining(p.order, p.withdrawn) == p.fetched + p.lists.queue
    && (forall id :: id in p.fetched ==> id !in p.lists.queue)
  }

  ghost predicate Inv(p: Pool)
  {
    Structure(p) && Fifo(p) && forall id :: Accounted(p, id)
  }

  // ---------------------------------------------------------------------
  // Each step keeps the invariant.
  // ---------------------------------------------------------------------

  /** A request whose progress, counts and history did not change stays accounted for. */
  ghost predicate SameFor(p: Pool, q: Pool, id: Id)
  {
    && ProgressOf(p, id) == ProgressOf(q, id)
    && (id in p.requests ==> id in q.requests && p.requests[id] == q.requests[id])
    && Count(p.replies, id) == Count(q.replies, id) && Count(p.frees, id) == Count(q.frees, id)
    && (id in p.executed <==> id in q.executed) && (id in p.withdrawn <==> id in q.withdrawn)
  }

  lemma HolderIs(p: Pool, w: nat, id: Id)
    requires w in p.workers && p.workers[w] == id
    ensures HasHolder(p, id)
  {
  }

  /** A holder that keeps its request still holds it. */
  lemma HolderStays(p: Pool, q: Pool, id: Id)
    requires HasHolder(p, id)
    requires forall w :: w in p.workers && p.workers[w] == id ==> w in q.workers && q.workers[w] == id
    ensures HasHolder(q, id)
  {
    var w :| w in p.workers && p.workers[w] == id;
    HolderIs(q, w, id);
  }

  lemma HoldersStay(p: Pool, q: Pool)
    requires HoldersAgree(p) && q.workers == p.workers && q.stages.Keys == p.stages.Keys
    ensures HoldersAgree(q)
  {
    forall x | x in q.stages ensures HasHolder(q, x) {
      assert x in p.stages.Keys;
      HolderStays(p, q, x);
    }
    forall w | w in q.workers ensures q.workers[w] in q.stages { assert p.workers[w] in p.stages.Keys; }
  }

  lemma Carry(p: Pool, q: Pool, x: Id)
    requires Accounted(p, x) && SameFor(p, q, x)
    ensures Accounted(q, x)
  {
  }

  /** Only `x` moved on, and it is accounted for. */
  lemma OthersStay(p: Pool, q: Pool, x: Id)
    requires forall id :: Accounted(p, id)
    requires forall id :: id != x ==> SameFor(p, q, id)
    requires Accounted(q, x)
    ensures forall id :: Accounted(q, id)
  {
    forall id ensures Accounted(q, id) {
      if id != x { Carry(p, q, id); }
    }
  }

  lemma {:induction false} RemainingJoins(a: seq<Id>, b: seq<Id>, withdrawn: set<Id>)
    ensures Remaining(a + b, withdrawn) == Remaining(a, withdrawn) + Remaining(b, withdrawn)
  {
    if a == [] {
      assert a + b == b;
    } else {
      assert (a + b)[1..] == a[1..] + b;
      RemainingJoins(a[1..], b, withdrawn);
    }
  }

  lemma {:induction false} RemainingWithout(order: seq<Id>, withdrawn: set<Id>, x: Id)
    requires NoDup(order)
    ensures Remaining(order, withdrawn + {x}) == Without(Remaining(order, withdrawn), x)
  {
    if order != [] {
      RemainingWithout(order[1..], withdrawn, x);
      if order[0] == x && x !in withdrawn {
        NothingDropped(order[1..], withdrawn, x);
      }
    }
  }

  lemma {:induction false} NothingDropped(order: seq<Id>, withdrawn: set<Id>, x: Id)
    requires x !in order
    ensures Remaining(order, withdrawn + {x}) == Remaining(order, withdrawn)
  {
    if order != [] {
      NothingDropped(order[1..], withdrawn, x);
    }
  }

  lemma {:induction false} WithoutInSecond(a: seq<Id>, b: seq<Id>, x: Id)
    requires x !in a
    ensures Without(a + b, x) == a + Without(b, x)
  {
    if a == [] {
      assert a + b == b && [] + Without(b, x) == Without(b, x);
    } else {
      assert (a + b)[1..] == a[1..] + b;
      WithoutInSecond(a[1..], b, x);
    }
  }

  // Enqueue.

  lemma EnqueueStructure(p: Pool, id: Id, request: Request)
    requires Structure(p) && id !in p.requests && |p.lists.queue| < MAX_QUEUE
    ensures Structure(Step(p, Enqueue(id, request)))
  {
    EnqueueKeepsOrder(p.lists, id);
    HoldersStay(p, Step(p, Enqueue(id, request)));
  }

  lemma EnqueueFifo(p: Pool, id: Id, request: Request)
    requires Structure(p) && Fifo(p) && id !in p.requests && id !in p.withdrawn && |p.lists.queue| < MAX_QUEUE
    ensures Fifo(Step(p, Enqueue(id, request)))
  {
    NoDupAppend(p.order, id);
    RemainingOneMore(p.order, id, p.withdrawn);
    Regroup(p.fetched, p.lists.queue, [id]);
  }

  lemma RemainingOneMore(order: seq<Id>, id: Id, withdrawn: set<Id>)
    requires id !in withdrawn
    ensures Remaining(order + [id], withdrawn) == Remaining(order, withdrawn) + [id]
  {
    RemainingJoins(order, [id], withdrawn);
    assert Remaining([id], withdrawn) == [id] + Remaining([], withdrawn);
  }

  lemma EnqueueAccounts(p: Pool, q: Pool, id: Id, request: Request)
    requires Structure(p) && id !in p.requests && |p.lists.queue| < MAX_QUEUE && Accounted(p, id)
    requires q == Step(p, Enqueue(id, request))
    ensures Accounted(q, id) && forall x :: x != id ==> SameFor(p, q, x)
  {
  }

  lemma EnqueueKeeps(p: Pool, id: Id, request: Request)
    requires Inv(p) && id !in p.requests
    ensures Inv(Step(p, Enqueue(id, request)))
  {
    if |p.lists.queue| < MAX_QUEUE {
      var q := Step(p, Enqueue(id, request));
      EnqueueAccounts(p, q, id, request);
      OthersStay(p, q, id);
      EnqueueStructure(p, id, request);
      EnqueueFifo(p, id, request);
    }
  }

  // Fetch.

  lemma FetchStructure(p: Pool, w: nat)
    requires Structure(p) && Enabled(p, Fetch(w))
    ensures Structure(Step(p, Fetch(w)))
  {
    FetchLists(p, w);
    FetchHolders(p, w);
  }

  lemma FetchLists(p: Pool, w: nat)
    requires ListsAgree(p) && Enabled(p, Fetch(w))
    ensures ListsAgree(Step(p, Fetch(w)))
  {
    TakeKeepsOrder(p.lists);
  }

  lemma FetchHolders(p: Pool, w: nat)
    requires ListsAgree(p) && HoldersAgree(p) && Enabled(p, Fetch(w))
    ensures HoldersAgree(Step(p, Fetch(w)))
  {
    var q, id := Step(p, Fetch(w)), p.lists.queue[0];
    forall x | x in q.stages ensures HasHolder(q, x) {
      if x == id { HolderIs(q, w, x); } else { HolderStays(p, q, x); }
    }
  }

  lemma FetchFifo(p: Pool, w: nat)
    requires Structure(p) && Fifo(p) && Enabled(p, Fetch(w))
    ensures Fifo(Step(p, Fetch(w)))
  {
    TakeKeepsOrder(p.lists);
    assert p.fetched + p.lists.queue == p.fetched + [p.lists.queue[0]] + p.lists.queue[1..];
  }

  lemma FetchAccounts(p: Pool, q: Pool, w: nat)
    requires Structure(p) && Enabled(p, Fetch(w)) && q == Step(p, Fetch(w)) && Accounted(p, p.lists.queue[0])
    ensures var id := p.lists.queue[0]; Accounted(q, id) && forall x :: x != id ==> SameFor(p, q, x)
  {
    TakeKeepsOrder(p.lists);
    QueueRest(p.lists.queue);
  }

  lemma FetchKeeps(p: Pool, w: nat)
    requires Inv(p) && Enabled(p, Fetch(w))
    ensures Inv(Step(p, Fetch(w)))
  {
    var q, id := Step(p, Fetch(w)), p.lists.queue[0];
    FetchAccounts(p, q, w);
    OthersStay(p, q, id);
    FetchStructure(p, w);
    FetchFifo(p, w);
  }

  lemma QueueRest(s: seq<Id>)
    requires s != []
    ensures forall x :: x in s <==> x == s[0] || x in s[1..]
  {
    assert s == [s[0]] + s[1..];
  }

  // The steps of a worker.

  /** A worker moves a request on without touching lists or holders. */
  lemma StageKeeps(p: Pool, q: Pool, id: Id, stage: Stage)
    requires Inv(p) && id in p.stages && p.stages[id] != Detached && stage != Detached
    requires q == p.(stages := p.stages[id := stage], executed := q.executed, replies := q.replies)
    requires forall x :: x != id ==>
        Count(p.replies, x) == Count(q.replies, x) && (x in p.executed <==> x in q.executed)
    requires Accounted(q, id)
    ensures Inv(q)
  {
    OthersStay(p, q, id);
    StageStructure(p, q, id, stage);
  }

  lemma StageStructure(p: Pool, q: Pool, id: Id, stage: Stage)
    requires Structure(p) && id in p.stages && p.stages[id] != Detached && stage != Detached
    requires q == p.(stages := p.stages[id := stage], executed := q.executed, replies := q.replies)
    ensures Structure(q)
  {
    HoldersStay(p, q);
  }

  lemma RefuseKeeps(p: Pool, w: nat)
    requires Inv(p) && Enabled(p, CheckCancel(w)) && p.workers[w] in p.cancel
    ensures Inv(Step(p, CheckCancel(w)))
  {
    var q, id := Step(p, CheckCancel(w)), p.workers[w];
    assert Accounted(p, id) && Accounted(q, id);
    StageKeeps(p, q, id, Settled);
  }

  lemma ExecuteKeeps(p: Pool, w: nat)
    requires Inv(p) && Enabled(p, CheckCancel(w)) && p.workers[w] !in p.cancel
    ensures Inv(Step(p, CheckCancel(w)))
  {
    var q, id := Step(p, CheckCancel(w)), p.workers[w];
    assert Accounted(p, id) && Accounted(q, id);
    StageKeeps(p, q, id, Executing);
  }

  lemma ReturnKeeps(p: Pool, w: nat)
    requires Inv(p) && Enabled(p, Return(w))
    ensures Inv(Step(p, Return(w)))
  {
    var q, id := Step(p, Return(w)), p.workers[w];
    assert Accounted(p, id) && Accounted(q, id);
    StageKeeps(p, q, id, Settled);
  }

  lemma DetachStructure(p: Pool, w: nat)
    requires Structure(p) && Enabled(p, Detach(w))
    ensures Structure(Step(p, Detach(w)))
  {
    DetachLists(p, w);
    HoldersStay(p, Step(p, Detach(w)));
  }

  lemma DetachLists(p: Pool, w: nat)
    requires ListsAgree(p) && Enabled(p, Detach(w))
    ensures ListsAgree(Step(p, Detach(w)))
  {
    var q, id := Step(p, Detach(w)), p.workers[w];
    assert id in p.lists.running;
    FinishKeepsOrder(p.lists, id);
  }

  lemma DetachAccounts(p: Pool, q: Pool, w: nat)
    requires Structure(p) && Enabled(p, Detach(w)) && q == Step(p, Detach(w)) && Accounted(p, p.workers[w])
    ensures var id := p.workers[w]; Accounted(q, id) && forall x :: x != id ==> SameFor(p, q, x)
  {
  }

  lemma DetachKeeps(p: Pool, w: nat)
    requires Inv(p) && Enabled(p, Detach(w))
    ensures Inv(Step(p, Detach(w)))
  {
    var q, id := Step(p, Detach(w)), p.workers[w];
    DetachAccounts(p, q, w);
    OthersStay(p, q, id);
    DetachStructure(p, w);
  }

  lemma ReleaseStructure(p: Pool, w: nat)
    requires Structure(p) && Enabled(p, Release(w))
    ensures Structure(Step(p, Release(w)))
  {
    var q, id := Step(p, Release(w)), p.workers[w];
    forall x | x in q.stages ensures HasHolder(q, x) { HolderStays(p, q, x); }
  }

  lemma ReleaseAccounts(p: Pool, q: Pool, w: nat)
    requires Structure(p) && Enabled(p, Release(w)) && q == Step(p, Release(w)) && Accounted(p, p.workers[w])
    ensures var id := p.workers[w]; Accounted(q, id) && forall x :: x != id ==> SameFor(p, q, x)
  {
  }

  lemma ReleaseKeeps(p: Pool, w: nat)
    requires Inv(p) && Enabled(p, Release(w))
    ensures Inv(Step(p, Release(w)))
  {
    var q, id := Step(p, Release(w)), p.workers[w];
    ReleaseAccounts(p, q, w);
    OthersStay(p, q, id);
    ReleaseStructure(p, w);
  }

  // Cancel.

  lemma DropStructure(p: Pool, q: Pool, id: Id)
    requires Structure(p) && id in p.lists.queue
    requires q == p.(lists := Dropped(p.lists, id), dropped := p.dropped + {id}, withdrawn := p.withdrawn + {id})
    ensures Structure(q)
  {
    DropKeepsOrder(p.lists, id);
    HoldersStay(p, q);
  }

  lemma DropFifo(p: Pool, q: Pool, id: Id)
    requires Structure(p) && Fifo(p) && id in p.lists.queue
    requires q == p.(lists := Dropped(p.lists, id), dropped := p.dropped + {id}, withdrawn := p.withdrawn + {id})
    ensures Fifo(q)
  {
    RemainingWithout(p.order, p.withdrawn, id);
    WithoutInSecond(p.fetched, p.lists.queue, id);
  }

  lemma DropKeeps(p: Pool, q: Pool, id: Id)
    requires Inv(p) && id in p.lists.queue
    requires q == p.(lists := Dropped(p.lists, id), dropped := p.dropped + {id}, withdrawn := p.withdrawn + {id})
    ensures Inv(q)
  {
    DropStructure(p, q, id);
    DropFifo(p, q, id);
    assert Accounted(p, id);
    DropAccounts(p, q, id);
    OthersStay(p, q, id);
  }

  lemma DropAccounts(p: Pool, q: Pool, id: Id)
    requires Structure(p) && id in p.lists.queue && Accounted(p, id)
    requires q == p.(lists := Dropped(p.lists, id), dropped := p.dropped + {id}, withdrawn := p.withdrawn + {id})
    ensures Accounted(q, id) && forall x :: x != id ==> SameFor(p, q, x)
  {
    WithoutMembers(p.lists.queue, id);
  }

  lemma CancelKeeps(p: Pool, session: CText, execId: CText)
    requires Inv(p)
    ensures Inv(Step(p, Cancel(session, execId)))
  {
    var q, target := Step(p, Cancel(session, execId)), Target(p, session, execId);
    if target.Some? && target.value in p.lists.running {
      FlagKeeps(p, q);
    } else if target.Some? && target.value in p.lists.queue {
      DropKeeps(p, q, target.value);
    }
  }

  lemma FlagKeeps(p: Pool, q: Pool)
    requires Inv(p) && q == p.(cancel := q.cancel)
    ensures Inv(q)
  {
    HoldersStay(p, q);
    forall id ensures Accounted(q, id) {
      assert Accounted(p, id) && ProgressOf(p, id) == ProgressOf(q, id);
    }
  }

  lemma ReplyDroppedAccounts(p: Pool, q: Pool, id: Id)
    requires Structure(p) && Enabled(p, ReplyDropped(id)) && q == Step(p, ReplyDropped(id)) && Accounted(p, id)
    ensures Accounted(q, id) && forall x :: x != id ==> SameFor(p, q, x)
  {
  }

  lemma ReplyDroppedKeeps(p: Pool, id: Id)
    requires Inv(p) && Enabled(p, ReplyDropped(id))
    ensures Inv(Step(p, ReplyDropped(id)))
  {
    var q := Step(p, ReplyDropped(id));
    ReplyDroppedAccounts(p, q, id);
    OthersStay(p, q, id);
    ReplyDroppedStructure(p, q, id);
  }

  lemma ReplyDroppedStructure(p: Pool, q: Pool, id: Id)
    requires Structure(p) && Enabled(p, ReplyDropped(id)) && q == Step(p, ReplyDropped(id))
    ensures Structure(q)
  {
    HoldersStay(p, q);
  }

  lemma StepKeeps(p: Pool, e: Event)
    requires Inv(p) && Enabled(p, e)
    ensures Inv(Step(p, e))
  {
    match e
    case Enqueue(id, request) => EnqueueKeeps(p, id, request);
    case Fetch(w) => FetchKeeps(p, w);
    case CheckCancel(w) => if p.workers[w] in p.cancel { RefuseKeeps(p, w); } else { ExecuteKeeps(p, w); }
    case Return(w) => ReturnKeeps(p, w);
    case Detach(w) => DetachKeeps(p, w);
    case Release(w) => ReleaseKeeps(p, w);
    case Cancel(session, execId) => CancelKeeps(p, session, execId);
    case ReplyDropped(id) => ReplyDroppedKeeps(p, id);
  }

  // ---------------------------------------------------------------------
  // Over whole runs.
  // ---------------------------------------------------------------------

  lemma {:induction false} RunKeeps(p: Pool, events: seq<Event>, q: Pool)
    requires Inv(p) && Reaches(p, events, q)
    ensures Inv(q)
    decreases |events|
  {
    if events != [] {
      StepKeeps(p, events[0]);
      RunKeeps(Step(p, events[0]), events[1..], q);
    }
  }

  lemma ReachableInv(events: seq<Event>, q: Pool)
    requires Reaches(EMPTY, events, q)
    ensures Inv(q)
  {
    EmptyInv(EMPTY);
    RunKeeps(EMPTY, events, q);
  }

  lemma EmptyInv(p: Pool)
    requires p.lists == Lists([], [], {}) && p.workers == map[] && p.stages == map[]
        && p.dropped == p.withdrawn == p.executed == {}
    requires p.requests == map[] && p.replies == map[] && p.frees == map[] && p.order == p.fetched == []
    ensures Inv(p)
  {
    assert p.fetched + p.lists.queue == [];
    forall id ensures Accounted(p, id) { assert Count(p.replies, id) == 0 && Count(p.frees, id) == 0; }
  }

  /** In every reachable state: the active list is the disjoint union of queue and running set,
      at most 64 wait and at most 8 run, and requests leave the queue in the order they entered. */
  lemma ReachableStructure(events: seq<Event>, q: Pool)
    requires Reaches(EMPTY, events, q)
    ensures InOrder(q.lists) && |q.lists.running| <= WORKERS
    ensures Remaining(q.order, q.withdrawn) == q.fetched + q.lists.queue
  {
    ReachableInv(events, q);
    RunningBound(q);
  }

  function HeldIds(p: Pool, n: nat): set<Id>
  {
    if n == 0 then {} else HeldIds(p, n - 1) + if n - 1 in p.workers then {p.workers[n - 1]} else {}
  }

  lemma {:induction false} HeldIdsSize(p: Pool, n: nat)
    ensures |HeldIds(p, n)| <= n
    ensures forall w :: w in p.workers && w < n ==> p.workers[w] in HeldIds(p, n)
  {
    if n > 0 { HeldIdsSize(p, n - 1); }
  }

  lemma RunningBound(p: Pool)
    requires Structure(p)
    ensures |p.lists.running| <= WORKERS
  {
    HeldIdsSize(p, WORKERS);
    forall id | id in p.lists.running ensures id in HeldIds(p, WORKERS) {
      assert HasHolder(p, id);
    }
    SubsetSize(p.lists.running, HeldIds(p, WORKERS));
  }

  /** Never more than one reply and one free; exactly one of each, and no reply without an id,
      once the pool is done with the request.  Cancelled while queued is never executed. */
  lemma AnsweredOnce(events: seq<Event>, q: Pool, id: Id)
    requires Reaches(EMPTY, events, q) && id in q.requests
    ensures Count(q.replies, id) <= One(q.requests[id].hasId) && Count(q.frees, id) <= 1
    ensures ProgressOf(q, id) == Done <==> Count(q.frees, id) == 1
    ensures ProgressOf(q, id) == Done ==> Count(q.replies, id) == One(q.requests[id].hasId)
    ensures id in q.withdrawn ==> id !in q.executed
    ensures Count(q.frees, id) == 1 ==>
              id !in q.lists.active && id !in q.lists.queue && forall w :: w in q.workers ==> q.workers[w] != id
  {
    ReachableInv(events, q);
    assert Accounted(q, id);
  }

  /** While a request is not done, the pool itself can take a step: nothing is stuck. */
  lemma NothingStuck(q: Pool, id: Id)
    requires Inv(q) && id in q.requests && ProgressOf(q, id) != Done
    ensures exists e: Event :: OwnStep(q, e)
  {
    if id in q.dropped {
      assert OwnStep(q, ReplyDropped(id));
    } else if x :| x in q.stages {
      SomeWorkerMoves(q, x);
    } else {
      IdleWorkerFetches(q);
    }
  }

  /** A step of the pool, not a new request or cancel from outside. */
  ghost predicate OwnStep(p: Pool, e: Event)
  {
    Enabled(p, e) && !e.Enqueue? && !e.Cancel?
  }

  lemma IdleWorkerFetches(q: Pool)
    requires Structure(q) && q.stages == map[] && q.lists.queue != []
    ensures exists e: Event :: OwnStep(q, e)
  {
    assert 0 !in q.workers;
    assert OwnStep(q, Fetch(0));
  }

  lemma SomeWorkerMoves(q: Pool, id: Id)
    requires Structure(q) && id in q.stages
    ensures exists e: Event :: OwnStep(q, e)
  {
    assert HasHolder(q, id);
    var w :| w in q.workers && q.workers[w] == id;
    match q.stages[id]
    case Fetched => assert OwnStep(q, CheckCancel(w));
    case Executing => assert OwnStep(q, Return(w));
    case Settled => assert OwnStep(q, Detach(w));
    case Detached => assert OwnStep(q, Release(w));
  }

  /** The most steps the pool can still take for a request. */
  function StepsLeft(progress: Progress): nat
  {
    match progress
    case Waiting => 5
    case Held(Fetched) => 4
    case Held(Executing) => 3
    case Held(Settled) => 2
    case Held(Detached) => 1
    case Withdrawn => 1
    case _ => 0
  }

  function Load(p: Pool, ids: seq<Id>): nat
  {
    if ids == [] then 0 else StepsLeft(ProgressOf(p, ids[0])) + Load(p, ids[1..])
  }

  lemma {:induction false} LoadSame(p: Pool, q: Pool, ids: seq<Id>)
    requires forall id :: id in ids ==> ProgressOf(p, id) == ProgressOf(q, id)
    ensures Load(p, ids) == Load(q, ids)
  {
    if ids != [] {
      assert ids[0] in ids && forall id :: id in ids[1..] ==> id in ids;
      LoadSame(p, q, ids[1..]);
    }
  }

  /** From `p` to `q` only `x` moved on, and it did. */
  ghost predicate Moved(p: Pool, q: Pool, x: Id)
  {
    && StepsLeft(ProgressOf(q, x)) < StepsLeft(ProgressOf(p, x))
    && forall id :: id != x ==> ProgressOf(p, id) == ProgressOf(q, id)
  }

  lemma {:induction false} LoadFalls(p: Pool, q: Pool, ids: seq<Id>, x: Id)
    requires NoDup(ids) && x in ids && Moved(p, q, x)
    ensures Load(q, ids) < Load(p, ids)
  {
    if ids[0] == x {
      LoadSame(p, q, ids[1..]);
    } else {
      LoadFalls(p, q, ids[1..], x);
    }
  }

  lemma FetchMoves(p: Pool, w: nat)
    requires Structure(p) && Enabled(p, Fetch(w))
    ensures p.lists.queue[0] in p.requests && Moved(p, Step(p, Fetch(w)), p.lists.queue[0])
  {
    TakeKeepsOrder(p.lists);
    QueueRest(p.lists.queue);
  }

  lemma StageMoves(p: Pool, q: Pool, id: Id, stage: Stage)
    requires ListsAgree(p) && id in p.stages && StepsLeft(Held(stage)) < StepsLeft(Held(p.stages[id]))
    requires q.lists == p.lists && q.requests == p.requests && q.dropped == p.dropped
        && q.stages == p.stages[id := stage]
    ensures id in p.requests && Moved(p, q, id)
  {
  }

  lemma CheckCancelMoves(p: Pool, q: Pool, w: nat)
    requires ListsAgree(p) && Enabled(p, CheckCancel(w)) && q == Step(p, CheckCancel(w))
    ensures p.workers[w] in p.requests && Moved(p, q, p.workers[w])
  {
    StageMoves(p, q, p.workers[w], if p.workers[w] in p.cancel then Settled else Executing);
  }

  lemma ReturnMoves(p: Pool, q: Pool, w: nat)
    requires ListsAgree(p) && Enabled(p, Return(w)) && q == Step(p, Return(w))
    ensures p.workers[w] in p.requests && Moved(p, q, p.workers[w])
  {
    StageMoves(p, q, p.workers[w], Settled);
  }

  lemma DetachMoves(p: Pool, w: nat)
    requires Structure(p) && Enabled(p, Detach(w))
    ensures p.workers[w] in p.requests && Moved(p, Step(p, Detach(w)), p.workers[w])
  {
  }

  lemma ReleaseMoves(p: Pool, w: nat)
    requires Structure(p) && Enabled(p, Release(w))
    ensures p.workers[w] in p.requests && Moved(p, Step(p, Release(w)), p.workers[w])
  {
  }

  lemma ReplyDroppedMoves(p: Pool, id: Id)
    requires Structure(p) && Enabled(p, ReplyDropped(id))
    ensures id in p.requests && Moved(p, Step(p, ReplyDropped(id)), id)
  {
  }

  lemma DropMoves(p: Pool, session: CText, execId: CText, id: Id)
    requires Structure(p) && Target(p, session, execId) == Some(id) && id in p.lists.queue
    ensures id in p.requests && Moved(p, Step(p, Cancel(session, execId)), id)
  {
    WithoutMembers(p.lists.queue, id);
  }

  lemma CancelMoves(p: Pool, q: Pool, session: CText, execId: CText) returns (x: Option<Id>)
    requires Structure(p) && q == Step(p, Cancel(session, execId))
    ensures x.Some? ==> x.value in p.requests && Moved(p, q, x.value)
    ensures x.None? ==> SameProgress(p, q)
  {
    x := Target(p, session, execId);
    if x.Some? && x.value in p.lists.queue {
      DropMoves(p, session, execId, x.value);
    } else {
      x := None;
    }
  }

  ghost predicate SameProgress(p: Pool, q: Pool)
  {
    forall id :: ProgressOf(p, id) == ProgressOf(q, id)
  }

  /** Each step of its own moves one request on; a cancel moves one on or none. */
  lemma MovedBy(p: Pool, e: Event, q: Pool) returns (x: Option<Id>)
    requires Structure(p) && Enabled(p, e) && !e.Enqueue? && q == Step(p, e)
    ensures x.Some? ==> x.value in p.requests && Moved(p, q, x.value)
    ensures x.None? ==> e.Cancel? && SameProgress(p, q)
  {
    match e
    case Fetch(w) => FetchMoves(p, w); x := Some(p.lists.queue[0]);
    case CheckCancel(w) => CheckCancelMoves(p, q, w); x := Some(p.workers[w]);
    case Return(w) => ReturnMoves(p, q, w); x := Some(p.workers[w]);
    case Detach(w) => DetachMoves(p, w); x := Some(p.workers[w]);
    case Release(w) => ReleaseMoves(p, w); x := Some(p.workers[w]);
    case ReplyDropped(id) => ReplyDroppedMoves(p, id); x := Some(id);
    case Cancel(session, execId) => x := CancelMoves(p, q, session, execId);
  }

  lemma OrderStays(p: Pool, e: Event)
    requires Enabled(p, e) && !e.Enqueue?
    ensures Step(p, e).order == p.order
  {
  }

  lemma LoadAfter(p: Pool, q: Pool, x: Option<Id>)
    requires Fifo(p)
    requires x.Some? ==> x.value in p.requests && Moved(p, q, x.value)
    requires x.None? ==> SameProgress(p, q)
    ensures if x.Some? then Load(q, p.order) < Load(p, p.order) else Load(q, p.order) == Load(p, p.order)
  {
    if x.Some? {
      LoadFalls(p, q, p.order, x.value);
    } else {
      LoadSame(p, q, p.order);
    }
  }

  lemma StepMoves(p: Pool, e: Event, q: Pool)
    requires Structure(p) && Fifo(p) && Enabled(p, e) && !e.Enqueue? && q == Step(p, e)
    ensures Load(q, p.order) < Load(p, p.order) || (e.Cancel? && Load(q, p.order) == Load(p, p.order))
  {
    var x := MovedBy(p, e, q);
    LoadAfter(p, q, x);
  }

  function OwnSteps(events: seq<Event>): nat
  {
    if events == [] then 0 else OwnSteps(events[1..]) + if events[0].Cancel? then 0 else 1
  }

  /** Without new requests the pool takes at most five steps of its own for every request there is,
      whatever is cancelled meanwhile; and where it can take no more, every request is done. */
  lemma {:induction false} EverythingGetsDone(p: Pool, events: seq<Event>, q: Pool)
    requires Inv(p) && Reaches(p, events, q) && forall e :: e in events ==> !e.Enqueue?
    ensures OwnSteps(events) + Load(q, q.order) <= Load(p, p.order)
    ensures (forall id :: id in q.requests ==> ProgressOf(q, id) == Done) || exists e: Event :: OwnStep(q, e)
    decreases |events|
  {
    if events == [] {
      if id :| id in q.requests && ProgressOf(q, id) != Done { NothingStuck(q, id); }
    } else {
      assert events[0] in events;
      var next := Step(p, events[0]);
      StepMoves(p, events[0], next);
      OrderStays(p, events[0]);
      StepKeeps(p, events[0]);
      EverythingGetsDone(next, events[1..], q);
    }
  }
}
