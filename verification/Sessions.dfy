/** The session, pty and watch tables of core/src/rpc.c: requests as functions from tables to
    tables, what every request keeps, and the tables themselves, updated in place. */
module Sessions {
  import opened Bytes

  const MAX_SESSIONS: nat := 64
  const MAX_PTYS: nat := 16
  const MAX_WATCHES: nat := 16

  /** Everything `session_policy_equal` compares: the root, the scalar settings, the path lists and
      the bind links. */
  datatype Policy = Policy(cwd: CText, settings: seq<int>, paths: seq<seq<CText>>, binds: seq<(CText, CText, bool)>)

  datatype Session = Session(id: CText, policy: Policy)

  /** A slot of the pty or watch table; `policy` records the one it was opened under. */
  datatype Slot = Empty | Live(number: nat, session: CText, policy: Policy)

  datatype Tables = Tables(sessions: seq<Session>, ptys: seq<Slot>, watches: seq<Slot>, nextPty: nat, nextWatch: nat)

  /** What becomes of bind links asked for. */
  datatype Links = Unsupported | Made | MakeFailed

  datatype Closing = Closed | NotFound | Foreign

  datatype Request =
    | Configure(id: CText, policy: Policy, links: Links)
    | Cleanup(id: CText)
    | OpenPty(id: CText, cwd: CText, opens: bool)
    | ClosePty(id: CText, number: nat)
    | StartWatch(id: CText, opens: bool)
    | CancelWatch(id: CText, number: nat)

  // ---------------------------------------------------------------------
  // Lookups and single updates.
  // ---------------------------------------------------------------------

  /** First session of that id, or the length. */
  function IndexOf(sessions: seq<Session>, id: CText): (i: nat)
    ensures i <= |sessions|
  {
    if sessions == [] || sessions[0].id == id then 0 else 1 + IndexOf(sessions[1..], id)
  }

  /** First free slot, or the length. */
  function FirstFree(slots: seq<Slot>): (i: nat)
    ensures i <= |slots|
  {
    if slots == [] || slots[0].Empty? then 0 else 1 + FirstFree(slots[1..])
  }

  /** First live slot of that number (and, unless `any`, that session), or the length. */
  function Find(slots: seq<Slot>, id: CText, number: nat, any: bool): (i: nat)
    ensures i <= |slots|
  {
    if slots == [] || (slots[0].Live? && slots[0].number == number && (any || slots[0].session == id)) then 0
    else 1 + Find(slots[1..], id, number, any)
  }

  function Released(slot: Slot, id: CText): Slot
  {
    if slot.Live? && slot.session == id then Empty else slot
  }

  /** All slots of a session released. */
  function Cleared(slots: seq<Slot>, id: CText): (r: seq<Slot>)
    ensures |r| == |slots|
  {
    seq(|slots|, i requires 0 <= i < |slots| => Released(slots[i], id))
  }

  /** The last session moves into the gap. */
  function Dropped(sessions: seq<Session>, i: nat): seq<Session>
    requires i < |sessions|
  {
    var last := |sessions| - 1;
    if i == last then sessions[..last] else sessions[..last][i := sessions[last]]
  }

  // ---------------------------------------------------------------------
  // The requests.
  // ---------------------------------------------------------------------

  function DoConfigure(t: Tables, id: CText, policy: Policy, links: Links): (Tables, bool)
  {
    var n, i := |t.sessions|, IndexOf(t.sessions, id);
    if policy.binds != [] && links == Unsupported then (t, false)
    else if i == n && n >= MAX_SESSIONS then (t, false)
    else if i < n && t.sessions[i].policy == policy then (t, true)
    else
      var cleared := if i < n then t.(ptys := Cleared(t.ptys, id), watches := Cleared(t.watches, id)) else t;
      if policy.binds != [] && links == MakeFailed then
        (if i < n then cleared.(sessions := Dropped(t.sessions, i)) else cleared, false)
      else
        (cleared.(sessions := if i < n then t.sessions[i := Session(id, policy)]
                              else t.sessions + [Session(id, policy)]), true)
  }

  function DoCleanup(t: Tables, id: CText): Tables
  {
    var i := IndexOf(t.sessions, id);
    t.(ptys := Cleared(t.ptys, id), watches := Cleared(t.watches, id),
       sessions := if i < |t.sessions| then Dropped(t.sessions, i) else t.sessions)
  }

  /** A pty needs the session's own root as its directory; its number is used up even when opening
      fails. */
  function DoOpenPty(t: Tables, id: CText, cwd: CText, opens: bool): (Tables, Option<nat>)
  {
    var i, free := IndexOf(t.sessions, id), FirstFree(t.ptys);
    if i == |t.sessions| || t.sessions[i].policy.cwd != cwd || free == |t.ptys| then (t, None)
    else if !opens then (t.(nextPty := t.nextPty + 1), None)
    else
      (t.(nextPty := t.nextPty + 1, ptys := t.ptys[free := Live(t.nextPty, id, t.sessions[i].policy)]), Some(t.nextPty))
  }

  function DoClosePty(t: Tables, id: CText, number: nat): (Tables, Closing)
  {
    var k := Find(t.ptys, id, number, true);
    if k == |t.ptys| then (t, NotFound)
    else if t.ptys[k].Empty? || t.ptys[k].session != id then (t, Foreign)
    else (t.(ptys := t.ptys[k := Empty]), Closed)
  }

  function DoStartWatch(t: Tables, id: CText, opens: bool): (Tables, Option<nat>)
  {
    var i, free := IndexOf(t.sessions, id), FirstFree(t.watches);
    if i == |t.sessions| || free == |t.watches| || !opens then (t, None)
    else
      (t.(nextWatch := t.nextWatch + 1, watches := t.watches[free := Live(t.nextWatch, id, t.sessions[i].policy)]),
       Some(t.nextWatch))
  }

  function DoCancelWatch(t: Tables, id: CText, number: nat): (Tables, bool)
  {
    var k := Find(t.watches, id, number, false);
    if k == |t.watches| then (t, false) else (t.(watches := t.watches[k := Empty]), true)
  }

  function Next(t: Tables, r: Request): Tables
  {
    match r
    case Configure(id, policy, links) => DoConfigure(t, id, policy, links).0
    case Cleanup(id) => DoCleanup(t, id)
    case OpenPty(id, cwd, opens) => DoOpenPty(t, id, cwd, opens).0
    case ClosePty(id, number) => DoClosePty(t, id, number).0
    case StartWatch(id, opens) => DoStartWatch(t, id, opens).0
    case CancelWatch(id, number) => DoCancelWatch(t, id, number).0
  }

  function Start(): Tables
  {
    Tables([], seq(MAX_PTYS, _ => Empty), seq(MAX_WATCHES, _ => Empty), 1, 1)
  }

  function Run(t: Tables, requests: seq<Request>): Tables
    decreases |requests|
  {
    if requests == [] then t else Run(Next(t, requests[0]), requests[1..])
  }

  // ---------------------------------------------------------------------
  // What every request keeps.
  // ---------------------------------------------------------------------

  function PolicyOf(sessions: seq<Session>, id: CText): Option<Policy>
  {
    var i := IndexOf(sessions, id);
    if i < |sessions| then Some(sessions[i].policy) else None
  }

  /** No id twice. */
  predicate Unique(sessions: seq<Session>)
  {
    forall i, j :: 0 <= i < j < |sessions| ==> sessions[i].id != sessions[j].id
  }

  /** A live slot belongs to a configured session and was opened under its present policy. */
  predicate SlotOk(sessions: seq<Session>, slot: Slot)
  {
    slot.Live? ==> PolicyOf(sessions, slot.session) == Some(slot.policy)
  }

  predicate SlotsOk(sessions: seq<Session>, slots: seq<Slot>)
  {
    forall k :: 0 <= k < |slots| ==> SlotOk(sessions, slots[k])
  }

  /** Numbers already given out, no two live slots with the same. */
  predicate Numbered(slots: seq<Slot>, next: nat)
  {
    && (forall k :: 0 <= k < |slots| && slots[k].Live? ==> 0 < slots[k].number < next)
    && (forall j, k :: 0 <= j < k < |slots| && slots[j].Live? && slots[k].Live? ==> slots[j].number != slots[k].number)
  }

  predicate Inv(t: Tables)
  {
    && |t.sessions| <= MAX_SESSIONS && Unique(t.sessions)
    && |t.ptys| == MAX_PTYS && |t.watches| == MAX_WATCHES
    && SlotsOk(t.sessions, t.ptys) && SlotsOk(t.sessions, t.watches)
    && Numbered(t.ptys, t.nextPty) && Numbered(t.watches, t.nextWatch) && t.nextPty >= 1 && t.nextWatch >= 1
  }

  lemma {:induction false} IndexIs(sessions: seq<Session>, id: CText)
    ensures var i := IndexOf(sessions, id);
            (i < |sessions| ==> sessions[i].id == id) && forall j :: 0 <= j < i ==> sessions[j].id != id
    decreases |sessions|
  {
    if sessions != [] && sessions[0].id != id {
      IndexIs(sessions[1..], id);
      assert forall j :: 0 < j < 1 + IndexOf(sessions[1..], id) ==> sessions[j] == sessions[1..][j - 1];
    }
  }

  lemma {:induction false} FreeIs(slots: seq<Slot>)
    ensures var i := FirstFree(slots); (i < |slots| ==> slots[i].Empty?) && forall j :: 0 <= j < i ==> slots[j].Live?
    decreases |slots|
  {
    if slots != [] && slots[0].Live? {
      FreeIs(slots[1..]);
      assert forall j :: 0 < j < 1 + FirstFree(slots[1..]) ==> slots[j] == slots[1..][j - 1];
    }
  }

  predicate Fits(slot: Slot, id: CText, number: nat, any: bool)
  {
    slot.Live? && slot.number == number && (any || slot.session == id)
  }

  lemma {:induction false} FindIs(slots: seq<Slot>, id: CText, number: nat, any: bool)
    ensures var i := Find(slots, id, number, any);
            && (i < |slots| ==> Fits(slots[i], id, number, any))
            && forall j :: 0 <= j < i ==> !Fits(slots[j], id, number, any)
    decreases |slots|
  {
    if slots != [] && !Fits(slots[0], id, number, any) {
      FindIs(slots[1..], id, number, any);
      assert forall j :: 0 < j < 1 + Find(slots[1..], id, number, any) ==> slots[j] == slots[1..][j - 1];
    }
  }

  /** Which session an id means is settled by any place it is found at. */
  lemma Located(sessions: seq<Session>, id: CText, i: nat)
    requires Unique(sessions) && i < |sessions| && sessions[i].id == id
    ensures IndexOf(sessions, id) == i && PolicyOf(sessions, id) == Some(sessions[i].policy)
  {
    IndexIs(sessions, id);
  }

  lemma Absent(sessions: seq<Session>, id: CText)
    requires forall i :: 0 <= i < |sessions| ==> sessions[i].id != id
    ensures PolicyOf(sessions, id) == None
  {
    IndexIs(sessions, id);
  }

  /** Replacing or adding a session changes what its id means and nothing else. */
  lemma SetPolicy(sessions: seq<Session>, s: Session, other: CText)
    requires Unique(sessions)
    ensures var i := IndexOf(sessions, s.id);
            var now := if i < |sessions| then sessions[i := s] else sessions + [s];
            && Unique(now)
            && PolicyOf(now, other) == if other == s.id then Some(s.policy) else PolicyOf(sessions, other)
  {
    var i := IndexOf(sessions, s.id);
    var now := if i < |sessions| then sessions[i := s] else sessions + [s];
    IndexIs(sessions, s.id);
    assert Unique(now);
    IndexIs(sessions, other);
    var j := IndexOf(sessions, other);
    if other == s.id {
      Located(now, other, i);
    } else if j < |sessions| {
      Located(now, other, j);
    } else {
      Absent(now, other);
    }
  }

  /** Where a session stands once another was dropped. */
  function Moved(n: nat, i: nat, j: nat): nat
    requires i < n && j < n
  {
    if j == n - 1 then i else j
  }

  lemma DroppedIs(sessions: seq<Session>, i: nat, j: nat)
    requires i < |sessions| && j < |sessions| && i != j
    ensures var now := Dropped(sessions, i);
            |now| == |sessions| - 1 && Moved(|sessions|, i, j) < |now| && now[Moved(|sessions|, i, j)] == sessions[j]
  {
  }

  lemma DroppedUnique(sessions: seq<Session>, i: nat)
    requires i < |sessions| && Unique(sessions)
    ensures Unique(Dropped(sessions, i)) && |Dropped(sessions, i)| == |sessions| - 1
    ensures forall k :: 0 <= k < |sessions| - 1 ==> Dropped(sessions, i)[k].id != sessions[i].id
  {
  }

  /** Dropping a session takes its meaning away and no other. */
  lemma DropPolicy(sessions: seq<Session>, id: CText, other: CText)
    requires Unique(sessions) && IndexOf(sessions, id) < |sessions|
    ensures var now := Dropped(sessions, IndexOf(sessions, id));
            && Unique(now) && |now| == |sessions| - 1
            && PolicyOf(now, other) == if other == id then None else PolicyOf(sessions, other)
  {
    var i, j := IndexOf(sessions, id), IndexOf(sessions, other);
    var now := Dropped(sessions, i);
    IndexIs(sessions, id);
    IndexIs(sessions, other);
    DroppedUnique(sessions, i);
    if other == id || j == |sessions| {
      forall k | 0 <= k < |now| ensures now[k].id != other {
        assert now[k] in sessions;
      }
      Absent(now, other);
    } else {
      DroppedIs(sessions, i, j);
      Located(now, other, Moved(|sessions|, i, j));
    }
  }

  /** Slots released where needed stay in order with any sessions that agree outside `id`. */
  lemma ClearedOk(before: seq<Session>, after: seq<Session>, slots: seq<Slot>, id: CText, next: nat)
    requires SlotsOk(before, slots) && Numbered(slots, next)
    requires forall other: CText :: other != id ==> PolicyOf(after, other) == PolicyOf(before, other)
    ensures SlotsOk(after, Cleared(slots, id)) && Numbered(Cleared(slots, id), next)
  {
    forall k | 0 <= k < |slots| ensures SlotOk(after, Cleared(slots, id)[k]) {
      assert SlotOk(before, slots[k]);
    }
  }

  /** Nothing to clear when the session was not there. */
  lemma NothingToClear(sessions: seq<Session>, slots: seq<Slot>, id: CText)
    requires SlotsOk(sessions, slots) && PolicyOf(sessions, id) == None
    ensures Cleared(slots, id) == slots
  {
    forall k | 0 <= k < |slots| ensures Released(slots[k], id) == slots[k] {
      assert SlotOk(sessions, slots[k]);
    }
  }

  lemma ConfigureKeeps(t: Tables, id: CText, policy: Policy, links: Links)
    requires Inv(t)
    ensures Inv(DoConfigure(t, id, policy, links).0)
  {
    var n, i := |t.sessions|, IndexOf(t.sessions, id);
    var now := DoConfigure(t, id, policy, links).0;
    if now != t {
      forall other: CText ensures other != id ==> PolicyOf(now.sessions, other) == PolicyOf(t.sessions, other) {
        SetPolicy(t.sessions, Session(id, policy), other);
        if i < n {
          DropPolicy(t.sessions, id, other);
        }
      }
      SetPolicy(t.sessions, Session(id, policy), id);
      if i < n {
        DropPolicy(t.sessions, id, id);
      } else {
        NothingToClear(t.sessions, t.ptys, id);
        NothingToClear(t.sessions, t.watches, id);
      }
      ClearedOk(t.sessions, now.sessions, t.ptys, id, t.nextPty);
      ClearedOk(t.sessions, now.sessions, t.watches, id, t.nextWatch);
    }
  }

  lemma CleanupKeeps(t: Tables, id: CText)
    requires Inv(t)
    ensures Inv(DoCleanup(t, id))
  {
    var now := DoCleanup(t, id);
    forall other: CText ensures other != id ==> PolicyOf(now.sessions, other) == PolicyOf(t.sessions, other) {
      if IndexOf(t.sessions, id) < |t.sessions| {
        DropPolicy(t.sessions, id, other);
      }
    }
    if IndexOf(t.sessions, id) < |t.sessions| {
      DropPolicy(t.sessions, id, id);
    }
    ClearedOk(t.sessions, now.sessions, t.ptys, id, t.nextPty);
    ClearedOk(t.sessions, now.sessions, t.watches, id, t.nextWatch);
  }

  lemma OpenedOk(sessions: seq<Session>, slots: seq<Slot>, free: nat, number: nat, id: CText)
    requires SlotsOk(sessions, slots) && Numbered(slots, number) && number >= 1 && free < |slots|
    requires IndexOf(sessions, id) < |sessions|
    ensures var now := slots[free := Live(number, id, sessions[IndexOf(sessions, id)].policy)];
            SlotsOk(sessions, now) && Numbered(now, number + 1)
  {
    var now := slots[free := Live(number, id, sessions[IndexOf(sessions, id)].policy)];
    forall k | 0 <= k < |now| ensures SlotOk(sessions, now[k]) {
      assert k != free ==> SlotOk(sessions, slots[k]);
    }
  }

  lemma StepKeeps(t: Tables, r: Request)
    requires Inv(t)
    ensures Inv(Next(t, r))
  {
    match r
    case Configure(id, policy, links) => ConfigureKeeps(t, id, policy, links);
    case Cleanup(id) => CleanupKeeps(t, id);
    case OpenPty(id, cwd, opens) =>
      if IndexOf(t.sessions, id) < |t.sessions| && FirstFree(t.ptys) < |t.ptys| {
        OpenedOk(t.sessions, t.ptys, FirstFree(t.ptys), t.nextPty, id);
      }
    case StartWatch(id, opens) =>
      if IndexOf(t.sessions, id) < |t.sessions| && FirstFree(t.watches) < |t.watches| {
        OpenedOk(t.sessions, t.watches, FirstFree(t.watches), t.nextWatch, id);
      }
    case ClosePty(id, number) =>
    case CancelWatch(id, number) =>
  }

  /** After any requests at all: at most 64 sessions, no id twice, and no pty or watch living on
      without its session or under a policy the session no longer has. */
  lemma {:induction false} RunKeeps(t: Tables, requests: seq<Request>)
    requires Inv(t)
    ensures Inv(Run(t, requests))
    decreases |requests|
  {
    if requests != [] {
      StepKeeps(t, requests[0]);
      RunKeeps(Next(t, requests[0]), requests[1..]);
    }
  }

  lemma StartInv()
    ensures Inv(Start())
  {
  }

  /** After any requests to a fresh server the invariant holds. */
  lemma Reachable(requests: seq<Request>)
    ensures Inv(Run(Start(), requests))
  {
    StartInv();
    RunKeeps(Start(), requests);
  }

  // ---------------------------------------------------------------------
  // What one request does, seen from outside.
  // ---------------------------------------------------------------------

  predicate Owns(slot: Slot, id: CText)
  {
    slot.Live? && slot.session == id
  }

  /** The slots of a session are the same before and after. */
  predicate SameFor(before: seq<Slot>, after: seq<Slot>, id: CText)
  {
    |before| == |after| &&
    forall k :: 0 <= k < |before| && (Owns(before[k], id) || Owns(after[k], id)) ==> before[k] == after[k]
  }

  lemma ClearedSame(slots: seq<Slot>, id: CText, other: CText)
    requires id != other
    ensures SameFor(slots, Cleared(slots, id), other)
  {
  }

  lemma SlotSame(slots: seq<Slot>, k: nat, slot: Slot, other: CText)
    requires k < |slots| && !Owns(slots[k], other) && !Owns(slot, other)
    ensures SameFor(slots, slots[k := slot], other)
  {
  }

  lemma ConfigureLeavesOthers(t: Tables, id: CText, policy: Policy, links: Links, other: CText)
    requires Inv(t) && id != other
    ensures var now := DoConfigure(t, id, policy, links).0;
            && PolicyOf(now.sessions, other) == PolicyOf(t.sessions, other)
            && SameFor(t.ptys, now.ptys, other) && SameFor(t.watches, now.watches, other)
  {
    var now := DoConfigure(t, id, policy, links).0;
    if now == t {
      assert SameFor(t.ptys, t.ptys, other);
    } else {
      ClearedSame(t.ptys, id, other);
      ClearedSame(t.watches, id, other);
      SetPolicy(t.sessions, Session(id, policy), other);
      if IndexOf(t.sessions, id) < |t.sessions| {
        DropPolicy(t.sessions, id, other);
      } else {
        assert now.ptys == t.ptys && now.watches == t.watches;
      }
    }
  }

  lemma PtyLeavesOthers(t: Tables, r: Request, other: CText)
    requires Inv(t) && (r.OpenPty? || r.ClosePty?) && r.id != other
    ensures SameFor(t.ptys, Next(t, r).ptys, other)
  {
    match r
    case OpenPty(id, cwd, opens) =>
      FreeIs(t.ptys);
      var i, free := IndexOf(t.sessions, id), FirstFree(t.ptys);
      if i < |t.sessions| && free < |t.ptys| {
        SlotSame(t.ptys, free, Live(t.nextPty, id, t.sessions[i].policy), other);
      }
    case ClosePty(id, number) =>
      FindIs(t.ptys, id, number, true);
      var k := Find(t.ptys, id, number, true);
      if k < |t.ptys| && t.ptys[k].session == id {
        SlotSame(t.ptys, k, Empty, other);
      }
  }

  lemma WatchLeavesOthers(t: Tables, r: Request, other: CText)
    requires Inv(t) && (r.StartWatch? || r.CancelWatch?) && r.id != other
    ensures SameFor(t.watches, Next(t, r).watches, other)
  {
    match r
    case StartWatch(id, opens) =>
      FreeIs(t.watches);
      var i, free := IndexOf(t.sessions, id), FirstFree(t.watches);
      if i < |t.sessions| && free < |t.watches| {
        SlotSame(t.watches, free, Live(t.nextWatch, id, t.sessions[i].policy), other);
      }
    case CancelWatch(id, number) =>
      FindIs(t.watches, id, number, false);
      var k := Find(t.watches, id, number, false);
      if k < |t.watches| {
        SlotSame(t.watches, k, Empty, other);
      }
  }

  /** A request of one session leaves the policy, ptys and watches of every other alone. */
  lemma OthersUntouched(t: Tables, r: Request, other: CText)
    requires Inv(t) && r.id != other
    ensures var now := Next(t, r);
            && PolicyOf(now.sessions, other) == PolicyOf(t.sessions, other)
            && SameFor(t.ptys, now.ptys, other) && SameFor(t.watches, now.watches, other)
  {
    if r.Configure? {
      ConfigureLeavesOthers(t, r.id, r.policy, r.links, other);
    } else if r.Cleanup? {
      ClearedSame(t.ptys, r.id, other);
      ClearedSame(t.watches, r.id, other);
      if IndexOf(t.sessions, r.id) < |t.sessions| {
        DropPolicy(t.sessions, r.id, other);
      }
    } else if r.OpenPty? || r.ClosePty? {
      PtyLeavesOthers(t, r, other);
    } else {
      WatchLeavesOthers(t, r, other);
    }
  }

  /** Configuring with the policy already in force changes nothing at all; with another one it is
      in force afterwards and none of the session's ptys and watches is left; and a refusal changes
      nothing either, unless it was the making of the new bind links that failed, which leaves the
      session unconfigured. */
  lemma ConfigureIs(t: Tables, id: CText, policy: Policy, links: Links)
    requires Inv(t)
    ensures var (now, ok) := DoConfigure(t, id, policy, links);
            var was := PolicyOf(t.sessions, id);
            && (ok ==> PolicyOf(now.sessions, id) == Some(policy))
            && (ok && was == Some(policy) ==> now == t)
            && (ok && was != Some(policy) ==> forall s :: s in now.ptys + now.watches ==> !Owns(s, id))
            && (!ok && !(policy.binds != [] && links == MakeFailed) ==> now == t)
            && (!ok && policy.binds != [] && links == MakeFailed && now != t ==> PolicyOf(now.sessions, id) == None)
  {
    var (now, ok) := DoConfigure(t, id, policy, links);
    SetPolicy(t.sessions, Session(id, policy), id);
    if IndexOf(t.sessions, id) < |t.sessions| {
      DropPolicy(t.sessions, id, id);
      NoneOwned(Cleared(t.ptys, id), Cleared(t.watches, id), id);
    } else {
      NothingToClear(t.sessions, t.ptys, id);
      NothingToClear(t.sessions, t.watches, id);
      NoneOwned(t.ptys, t.watches, id);
    }
  }

  lemma NoneOwned(ptys: seq<Slot>, watches: seq<Slot>, id: CText)
    requires Cleared(ptys, id) == ptys && Cleared(watches, id) == watches
    ensures forall s :: s in ptys + watches ==> !Owns(s, id)
  {
  }

  lemma CleanupIs(t: Tables, id: CText)
    requires Inv(t)
    ensures var now := DoCleanup(t, id);
            PolicyOf(now.sessions, id) == None && forall s :: s in now.ptys + now.watches ==> !Owns(s, id)
  {
    if IndexOf(t.sessions, id) < |t.sessions| {
      DropPolicy(t.sessions, id, id);
    }
  }

  /** A pty is closed by its own session only, and closing it frees exactly that slot. */
  lemma CloseIs(t: Tables, id: CText, number: nat)
    requires Inv(t)
    ensures var (now, closing) := DoClosePty(t, id, number);
            && (closing == Closed <==> exists k :: 0 <= k < |t.ptys| && Fits(t.ptys[k], id, number, false))
            && (closing == NotFound <==> forall k :: 0 <= k < |t.ptys| ==> !Fits(t.ptys[k], id, number, true))
            && (closing != Closed ==> now == t)
            && (closing == Closed ==> forall k :: 0 <= k < |now.ptys| ==>
                  now.ptys[k] == if Fits(t.ptys[k], id, number, true) then Empty else t.ptys[k])
  {
    FindIs(t.ptys, id, number, true);
  }

  // ---------------------------------------------------------------------
  // The tables in memory.
  // ---------------------------------------------------------------------

  method FindFree(slots: array<Slot>) returns (i: nat)
    ensures i == FirstFree(slots[..])
  {
    i := 0;
    while i < slots.Length && slots[i].Live?
      invariant i <= slots.Length && i + FirstFree(slots[i..]) == FirstFree(slots[..])
    {
      assert slots[i..][1..] == slots[i + 1..];
      i := i + 1;
    }
  }

  method FindSlot(slots: array<Slot>, id: CText, number: nat, any: bool) returns (i: nat)
    ensures i == Find(slots[..], id, number, any)
  {
    i := 0;
    while i < slots.Length && !(slots[i].Live? && slots[i].number == number && (any || slots[i].session == id))
      invariant i <= slots.Length && i + Find(slots[i..], id, number, any) == Find(slots[..], id, number, any)
    {
      assert slots[i..][1..] == slots[i + 1..];
      i := i + 1;
    }
  }

  /** `remove_session_ptys` and `remove_session_watches`. */
  method ClearSlots(slots: array<Slot>, id: CText)
    modifies slots
    ensures slots[..] == Cleared(old(slots[..]), id)
  {
    var i := 0;
    while i < slots.Length
      invariant 0 <= i <= slots.Length
      invariant forall k :: 0 <= k < i ==> slots[k] == Released(old(slots[k]), id)
      invariant forall k :: i <= k < slots.Length ==> slots[k] == old(slots[k])
    {
      if slots[i].Live? && slots[i].session == id {
        slots[i] := Empty;
      }
      i := i + 1;
    }
  }

  class Registry {
    const sessions: array<Session>
    const ptys: array<Slot>
    const watches: array<Slot>
    var sessionCount: nat
    var nextPty: nat
    var nextWatch: nat

    ghost predicate Valid()
      reads this
    {
      && sessions.Length == MAX_SESSIONS && ptys.Length == MAX_PTYS && watches.Length == MAX_WATCHES
      && ptys != watches && sessionCount <= MAX_SESSIONS
    }

    ghost function View(): Tables
      requires Valid()
      reads this, sessions, ptys, watches
    {
      Tables(sessions[..sessionCount], ptys[..], watches[..], nextPty, nextWatch)
    }

    constructor ()
      ensures Valid() && View() == Start() && fresh(sessions) && fresh(ptys) && fresh(watches)
    {
      sessions := new Session[MAX_SESSIONS](_ => Session([], Policy([], [], [], [])));
      ptys := new Slot[MAX_PTYS](_ => Empty);
      watches := new Slot[MAX_WATCHES](_ => Empty);
      sessionCount, nextPty, nextWatch := 0, 1, 1;
    }

    /** `session_find`. */
    method FindSession(id: CText) returns (i: nat)
      requires Valid()
      ensures i == IndexOf(View().sessions, id)
    {
      ghost var all := sessions[..sessionCount];
      i := 0;
      while i < sessionCount && sessions[i].id != id
        invariant i <= sessionCount && i + IndexOf(all[i..], id) == IndexOf(all, id)
      {
        assert all[i..][1..] == all[i + 1..];
        i := i + 1;
      }
    }

    /** The last session takes the place of session `i`. */
    method Drop(i: nat)
      requires Valid() && i < sessionCount
      modifies this`sessionCount, sessions
      ensures Valid() && View() == old(View()).(sessions := Dropped(old(View()).sessions, i))
    {
      var last := sessionCount - 1;
      if i != last {
        sessions[i] := sessions[last];
      }
      sessions[last] := Session([], Policy([], [], [], []));
      sessionCount := last;
    }

    method ConfigureSession(id: CText, policy: Policy, links: Links) returns (ok: bool)
      requires Valid()
      modifies this`sessionCount, sessions, ptys, watches
      ensures Valid() && (View(), ok) == DoConfigure(old(View()), id, policy, links)
    {
      if policy.binds != [] && links == Unsupported {
        return false;
      }
      var i := FindSession(id);
      if i == sessionCount && sessionCount >= MAX_SESSIONS {
        return false;
      }
      if i < sessionCount && sessions[i].policy == policy {
        return true;
      }
      if i < sessionCount {
        ClearSlots(watches, id);
        ClearSlots(ptys, id);
      }
      if policy.binds != [] && links == MakeFailed {
        if i < sessionCount {
          Drop(i);
        }
        return false;
      }
      ghost var was := sessions[..sessionCount];
      sessions[i] := Session(id, policy);
      if i == sessionCount {
        sessionCount := sessionCount + 1;
        assert sessions[..sessionCount] == was + [Session(id, policy)];
      } else {
        assert sessions[..sessionCount] == was[i := Session(id, policy)];
      }
      return true;
    }

    method CleanupSession(id: CText)
      requires Valid()
      modifies this`sessionCount, sessions, ptys, watches
      ensures Valid() && View() == DoCleanup(old(View()), id)
    {
      ClearSlots(watches, id);
      ClearSlots(ptys, id);
      var i := FindSession(id);
      if i < sessionCount {
        Drop(i);
      }
    }

    method OpenPty(id: CText, cwd: CText, opens: bool) returns (number: Option<nat>)
      requires Valid()
      modifies this`nextPty, ptys
      ensures Valid() && (View(), number) == DoOpenPty(old(View()), id, cwd, opens)
    {
      var i := FindSession(id);
      if i == sessionCount || sessions[i].policy.cwd != cwd {
        return None;
      }
      var free := FindFree(ptys);
      if free == MAX_PTYS {
        return None;
      }
      var mine := nextPty;
      nextPty := nextPty + 1;
      if !opens {
        return None;
      }
      ptys[free] := Live(mine, id, sessions[i].policy);
      return Some(mine);
    }

    method ClosePty(id: CText, number: nat) returns (closing: Closing)
      requires Valid()
      modifies ptys
      ensures Valid() && (View(), closing) == DoClosePty(old(View()), id, number)
    {
      FindIs(ptys[..], id, number, true);
      var k := FindSlot(ptys, id, number, true);
      if k == MAX_PTYS {
        return NotFound;
      }
      if ptys[k].session != id {
        return Foreign;
      }
      ptys[k] := Empty;
      return Closed;
    }

    method StartWatch(id: CText, opens: bool) returns (number: Option<nat>)
      requires Valid()
      modifies this`nextWatch, watches
      ensures Valid() && (View(), number) == DoStartWatch(old(View()), id, opens)
    {
      var i := FindSession(id);
      if i == sessionCount {
        return None;
      }
      var free := FindFree(watches);
      if free == MAX_WATCHES || !opens {
        return None;
      }
      watches[free] := Live(nextWatch, id, sessions[i].policy);
      nextWatch := nextWatch + 1;
      return Some(nextWatch - 1);
    }

    method CancelWatch(id: CText, number: nat) returns (found: bool)
      requires Valid()
      modifies watches
      ensures Valid() && (View(), found) == DoCancelWatch(old(View()), id, number)
    {
      var k := FindSlot(watches, id, number, false);
      if k == MAX_WATCHES {
        return false;
      }
      watches[k] := Empty;
      return true;
    }
  }
}
