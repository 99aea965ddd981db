/** The scheduler of server/src/cron-scheduler.ts: which jobs a check fires, what it leaves of them,
    and when the timer is set for. */
module CronJobs {
  import opened Bytes
  import opened CronFields
  import opened CronNext

  const RECURRING_TTL: int := 7 * 24 * 3600000
  const MAX_DELAY: int := 2147483647

  /** A job with its expression parsed; times in milliseconds. */
  datatype JobState = JobState(id: string, session: string, fields: Fields, recurring: bool, created: int,
                               lastFired: Option<int>)

  function Expiry(j: JobState): int
  {
    j.created + RECURRING_TTL
  }

  predicate Stale(j: JobState, now: int)
  {
    j.recurring && now >= Expiry(j)
  }

  function Reference(j: JobState): int
  {
    if j.lastFired.Some? then j.lastFired.value else j.created
  }

  predicate Reached(next: Option<int>, now: int)
  {
    next.Some? && next.value <= now
  }

  /** What `check` fires. */
  predicate Due(j: JobState, c: Calendar, now: int)
  {
    Stale(j, now) || Reached(NextFire(j.fields, c, Reference(j)), now)
  }

  /** `nextActionAt`. */
  function NextAction(j: JobState, c: Calendar, now: int): Option<int>
  {
    if !j.recurring then NextFire(j.fields, c, j.created)
    else if now >= Expiry(j) then Some(now)
    else
      var next := NextFire(j.fields, c, Reference(j));
      Some(if next.Some? && next.value < Expiry(j) then next.value else Expiry(j))
  }

  /** As the scheduler itself makes and keeps jobs: a one-shot has never fired. */
  predicate Unfired(j: JobState)
  {
    j.recurring || j.lastFired.None?
  }

  /** For such jobs, being due and having the next action at or before now are the same. */
  lemma DueIsActionReached(j: JobState, c: Calendar, now: int)
    requires Unfired(j)
    ensures Due(j, c, now) <==> Reached(NextAction(j, c, now), now)
  {
  }

  /** A minute after `after` that the expression names, within the search window. */
  ghost predicate Ahead(j: JobState, c: Calendar, after: int, u: int)
  {
    Fires(j.fields, c, u) && after < u && DayOf(u) <= LastDay(after)
  }

  /** Some such minute has come by `now`. */
  ghost predicate Passed(j: JobState, c: Calendar, after: int, now: int)
  {
    exists u :: Ahead(j, c, after, u) && u <= now
  }

  lemma PassedIsReached(j: JobState, c: Calendar, after: int, now: int)
    requires Sound(j.fields)
    ensures Passed(j, c, after, now) <==> Reached(NextFire(j.fields, c, after), now)
  {
    NextFireIsLeast(j.fields, c, after);
    var next := NextFire(j.fields, c, after);
    if next.Some? && next.value <= now {
      assert Ahead(j, c, after, next.value);
    }
  }

  /** For any job at any time: being due and having the next action at or before now come to the same
      exactly when the job is recurring, or has not fired, or matching minutes have passed since its
      creation and since its last fire, or since neither. */
  lemma DueIsActionReachedExactlyWhen(j: JobState, c: Calendar, now: int)
    requires Sound(j.fields)
    ensures (Due(j, c, now) <==> Reached(NextAction(j, c, now), now)) <==>
            (j.recurring || j.lastFired.None? ||
             (Passed(j, c, j.created, now) <==> Passed(j, c, j.lastFired.value, now)))
  {
    PassedIsReached(j, c, j.created, now);
    PassedIsReached(j, c, Reference(j), now);
  }

  ghost predicate AnyAhead(j: JobState, c: Calendar, after: int)
  {
    exists u :: Ahead(j, c, after, u)
  }

  /** No matching minute lies between the two references, and the later search window adds none
      where the earlier one has none. */
  ghost predicate SameOutlook(j: JobState, c: Calendar, first: int, second: int)
  {
    !Passed(j, c, first, second) && (AnyAhead(j, c, second) ==> AnyAhead(j, c, first))
  }

  lemma NextIsAhead(j: JobState, c: Calendar, after: int)
    requires Sound(j.fields)
    ensures AnyAhead(j, c, after) <==> NextFire(j.fields, c, after).Some?
    ensures forall u :: Ahead(j, c, after, u) ==> NextFire(j.fields, c, after).value <= u
    ensures NextFire(j.fields, c, after).Some? ==> Ahead(j, c, after, NextFire(j.fields, c, after).value)
  {
    NextFireIsLeast(j.fields, c, after);
    var next := NextFire(j.fields, c, after);
    if next.Some? { assert Ahead(j, c, after, next.value); }
  }

  lemma SameOutlookSameNext(j: JobState, c: Calendar, first: int, second: int)
    requires Sound(j.fields) && first <= second
    ensures SameOutlook(j, c, first, second) <==> NextFire(j.fields, c, first) == NextFire(j.fields, c, second)
  {
    var m, n := NextFire(j.fields, c, first), NextFire(j.fields, c, second);
    NextIsAhead(j, c, first);
    NextIsAhead(j, c, second);
    PassedIsReached(j, c, first, second);
    if m.Some? && m.value > second {
      assert Ahead(j, c, second, m.value);
      assert Ahead(j, c, first, n.value);
    }
  }

  /** A one-shot with a `lastFiredAt`, as only a job file can hold it, meets this at all times exactly
      when no matching minute lies between its creation and its last fire (and the search from the
      later of them finds no more than the other). */
  lemma AlwaysDueIsActionReachedExactlyWhen(j: JobState, c: Calendar)
    requires Sound(j.fields) && !j.recurring && j.lastFired.Some?
    ensures (forall now :: Due(j, c, now) <==> Reached(NextAction(j, c, now), now)) <==>
            var (a, b) := (j.created, j.lastFired.value);
            SameOutlook(j, c, if a <= b then a else b, if a <= b then b else a)
  {
    var a, b := j.created, j.lastFired.value;
    SameOutlookSameNext(j, c, if a <= b then a else b, if a <= b then b else a);
    var m, n := NextFire(j.fields, c, a), NextFire(j.fields, c, b);
    assert forall now :: NextAction(j, c, now) == m && (Due(j, c, now) <==> Reached(n, now));
    if m != n {
      var t := if m.None? || (n.Some? && n.value < m.value) then n.value else m.value;
      assert Reached(n, t) != Reached(m, t);
      assert Due(j, c, t) != Reached(NextAction(j, c, t), t);
    }
  }

  /** `0 0 1 1 0`. */
  const MIDNIGHTS: Fields := Fields([0], [0], [1], [1], [0], false, false)

  /** A one-shot for the midnight of a first of January, created a millisecond before one (day 0 of
      the calendar) and fired then: a millisecond later the next action is the past one, so the
      timer rings at once, and no check fires the job. */
  lemma FiredOneShotIsNotDue(c: Calendar)
    requires c.month(0) == 1 && c.dayOfMonth(0) == 1
    ensures var j := JobState("a", "s", MIDNIGHTS, false, -1, Some(0)); Reached(NextAction(j, c, 1), 1) && !Due(j, c, 1)
  {
    var j := JobState("a", "s", MIDNIGHTS, false, -1, Some(0));
    PassedIsReached(j, c, -1, 1);
    PassedIsReached(j, c, 0, 1);
    assert 0 == CronNext.At(0, 0, 0) && GoodDay(MIDNIGHTS, c, 0);
    assert Ahead(j, c, -1, 0);
    forall u | Ahead(j, c, 0, u) ensures u > 1 {
      var day, hour, minute :| u == CronNext.At(day, hour, minute) && hour in [0] && minute in [0];
      assert u == day * DAY;
    }
  }

  // ---------------------------------------------------------------------
  // One check.
  // ---------------------------------------------------------------------

  function DueOf(jobs: seq<JobState>, c: Calendar, now: int): seq<JobState>
  {
    if jobs == [] then []
    else DueOf(jobs[..|jobs| - 1], c, now) + if Due(jobs[|jobs| - 1], c, now) then [jobs[|jobs| - 1]] else []
  }

  /** Fired for the last time. */
  predicate Ends(j: JobState, c: Calendar, now: int)
  {
    Due(j, c, now) && (Stale(j, now) || !j.recurring)
  }

  /** Ids whose jobs are removed by a check. */
  ghost function Gone(jobs: seq<JobState>, c: Calendar, now: int): set<string>
  {
    set j | j in jobs && Ends(j, c, now) :: j.id
  }

  /** A job that goes on after firing remembers when it fired. */
  function Touched(j: JobState, c: Calendar, now: int): JobState
  {
    if Due(j, c, now) && !Ends(j, c, now) then j.(lastFired := Some(now)) else j
  }

  ghost function Remaining(jobs: seq<JobState>, gone: set<string>, c: Calendar, now: int): seq<JobState>
  {
    if jobs == [] then []
    else
      var last := jobs[|jobs| - 1];
      Remaining(jobs[..|jobs| - 1], gone, c, now) + if last.id in gone then [] else [Touched(last, c, now)]
  }

  /** The jobs after a check. */
  ghost function After(jobs: seq<JobState>, c: Calendar, now: int): seq<JobState>
  {
    Remaining(jobs, Gone(jobs, c, now), c, now)
  }

  /** Every remaining job is one of the old ones, touched if it fired. */
  lemma {:induction false} RemainingIs(jobs: seq<JobState>, gone: set<string>, c: Calendar, now: int, r: JobState)
    ensures r in Remaining(jobs, gone, c, now) <==> exists j :: j in jobs && j.id !in gone && r == Touched(j, c, now)
    decreases |jobs|
  {
    if jobs != [] {
      var front, last := jobs[..|jobs| - 1], jobs[|jobs| - 1];
      RemainingIs(front, gone, c, now, r);
      assert jobs == front + [last];
      if exists j :: j in front && j.id !in gone && r == Touched(j, c, now) {
        var j :| j in front && j.id !in gone && r == Touched(j, c, now);
        assert j in jobs;
      }
      assert last in jobs;
    }
  }

  /** A job that fired and goes on is not due again at the same instant. */
  lemma TouchedIsNotDue(j: JobState, c: Calendar, now: int)
    requires Sound(j.fields) && !Ends(j, c, now)
    ensures !Due(Touched(j, c, now), c, now)
  {
    if Due(j, c, now) {
      NextFireIsLeast(j.fields, c, now);
    }
  }

  lemma {:induction false} NoneDue(jobs: seq<JobState>, c: Calendar, now: int)
    requires forall j :: j in jobs ==> !Due(j, c, now)
    ensures DueOf(jobs, c, now) == []
    ensures forall gone: set<string> :: gone == {} ==> Remaining(jobs, gone, c, now) == jobs
    decreases |jobs|
  {
    if jobs != [] {
      var front, last := jobs[..|jobs| - 1], jobs[|jobs| - 1];
      assert last in jobs && jobs == front + [last];
      NoneDue(front, c, now);
    }
  }

  lemma EndsAreGone(jobs: seq<JobState>, c: Calendar, now: int, j: JobState)
    requires j in jobs && j.id !in Gone(jobs, c, now)
    ensures !Ends(j, c, now)
  {
  }

  /** A second check at the same instant fires nothing and changes nothing. */
  lemma SecondCheckIsIdle(jobs: seq<JobState>, c: Calendar, now: int)
    requires forall j :: j in jobs ==> Sound(j.fields)
    ensures var left := After(jobs, c, now); DueOf(left, c, now) == [] && After(left, c, now) == left
  {
    var left := After(jobs, c, now);
    forall r | r in left ensures !Due(r, c, now) {
      RemainingIs(jobs, Gone(jobs, c, now), c, now, r);
      var j :| j in jobs && j.id !in Gone(jobs, c, now) && r == Touched(j, c, now);
      EndsAreGone(jobs, c, now, j);
      TouchedIsNotDue(j, c, now);
    }
    NoneDue(left, c, now);
    assert Gone(left, c, now) == {};
  }

  /** Checks keep one-shots unfired, so what holds of new jobs holds of all the scheduler keeps. */
  lemma CheckKeepsUnfired(jobs: seq<JobState>, c: Calendar, now: int)
    requires forall j :: j in jobs ==> Unfired(j) && Sound(j.fields)
    ensures forall r :: r in After(jobs, c, now) ==> Unfired(r) && Sound(r.fields)
  {
    forall r | r in After(jobs, c, now) ensures Unfired(r) && Sound(r.fields) {
      RemainingIs(jobs, Gone(jobs, c, now), c, now, r);
    }
  }

  // ---------------------------------------------------------------------
  // The scheduler.
  // ---------------------------------------------------------------------

  class Job {
    const id: string
    const session: string
    const fields: Fields
    const recurring: bool
    const created: int
    var lastFired: Option<int>

    function Val(): JobState
      reads this
    {
      JobState(id, session, fields, recurring, created, lastFired)
    }

    constructor (id: string, session: string, fields: Fields, recurring: bool, created: int)
      ensures Val() == JobState(id, session, fields, recurring, created, None)
    {
      this.id, this.session, this.fields, this.recurring, this.created := id, session, fields, recurring, created;
      lastFired := None;
    }
  }

  ghost function Vals(jobs: seq<Job>): (vals: seq<JobState>)
    reads jobs
    ensures |vals| == |jobs|
  {
    seq(|jobs|, i requires 0 <= i < |jobs| reads jobs => jobs[i].Val())
  }

  /** Jobs whose id is not among the given ones. */
  function Kept(jobs: seq<Job>, gone: set<string>): seq<Job>
  {
    if jobs == [] then []
    else Kept(jobs[..|jobs| - 1], gone) + if jobs[|jobs| - 1].id in gone then [] else [jobs[|jobs| - 1]]
  }

  lemma {:induction false} KeptTwice(jobs: seq<Job>, gone: set<string>, id: string)
    ensures Kept(Kept(jobs, gone), {id}) == Kept(jobs, gone + {id})
    decreases |jobs|
  {
    if jobs != [] {
      var front, last := jobs[..|jobs| - 1], jobs[|jobs| - 1];
      KeptTwice(front, gone, id);
      var kept := Kept(front, gone);
      if last.id in gone {
        assert kept + [] == kept;
      } else {
        assert (kept + [last])[..|kept|] == kept;
      }
    }
  }

  lemma {:induction false} KeptAll(jobs: seq<Job>)
    ensures Kept(jobs, {}) == jobs
    decreases |jobs|
  {
    if jobs != [] {
      KeptAll(jobs[..|jobs| - 1]);
    }
  }

  /** Jobs kept as objects are the remaining jobs as values. */
  lemma {:induction false} KeptVals(jobs: seq<Job>, was: seq<JobState>, gone: set<string>, c: Calendar, now: int)
    requires |was| == |jobs| && forall i :: 0 <= i < |jobs| ==>
        jobs[i].id == was[i].id && jobs[i].Val() == Touched(was[i], c, now)
    ensures Vals(Kept(jobs, gone)) == Remaining(was, gone, c, now)
    decreases |jobs|
  {
    if jobs != [] {
      KeptVals(jobs[..|jobs| - 1], was[..|was| - 1], gone, c, now);
    }
  }

  /** The test `check` makes of one job. */
  method ItsTurn(job: Job, c: Calendar, now: int) returns (due: bool, stale: bool)
    ensures due == Due(job.Val(), c, now) && stale == Stale(job.Val(), now)
  {
    if job.recurring && now >= job.created + RECURRING_TTL {
      return true, true;
    }
    var reference := if job.lastFired.Some? then job.lastFired.value else job.created;
    var next := FindNextFire(job.fields, c, reference);
    return next.Some? && next.value <= now, false;
  }

  class Scheduler {
    const calendar: Calendar
    var jobs: seq<Job>

    /** The jobs are different objects, with expressions the parser accepted. */
    ghost predicate Valid()
      reads this
    {
      (forall i, j :: 0 <= i < j < |jobs| ==> jobs[i] != jobs[j]) && forall j :: j in jobs ==> Sound(j.fields)
    }

    constructor (calendar: Calendar)
      ensures Valid() && jobs == [] && this.calendar == calendar
    {
      this.calendar := calendar;
      jobs := [];
    }

    /** The jobs a check fires, in order: where they stand, and whether this is their last time. */
    method Collect(now: int, ghost was: seq<JobState>) returns (due: seq<nat>, stale: seq<bool>)
      requires was == Vals(jobs)
      ensures |stale| == |due| && Indices(due, |was|)
      ensures forall k :: 0 <= k < |due| ==> stale[k] == Stale(was[due[k]], now) && Due(was[due[k]], calendar, now)
      ensures forall i :: 0 <= i < |was| ==> (i in due <==> Due(was[i], calendar, now))
    {
      due, stale := [], [];
      var i := 0;
      while i < |jobs|
        invariant 0 <= i <= |jobs| && |stale| == |due| && Indices(due, i)
        invariant forall k :: 0 <= k < |due| ==> stale[k] == Stale(was[due[k]], now) && Due(was[due[k]], calendar, now)
        invariant forall n :: 0 <= n < i ==> (n in due <==> Due(was[n], calendar, now))
      {
        assert was[i] == jobs[i].Val();
        var fires, last := ItsTurn(jobs[i], calendar, now);
        if fires {
          due, stale := due + [i], stale + [last];
        }
        i := i + 1;
      }
    }

    /** The first `k` due jobs were dealt with: `gone` are the ids removed so far. */
    ghost predicate Midway(all: seq<Job>, was: seq<JobState>, due: seq<nat>, k: nat, gone: set<string>, now: int)
      reads this, all
    {
      && |was| == |all| && Indices(due, |all|) && k <= |due| && jobs == Kept(all, gone)
      && (forall i, j :: 0 <= i < j < |all| ==> all[i] != all[j])
      && (forall i :: 0 <= i < |all| ==>
            all[i].Val() == if i in due[..k] then Touched(was[i], calendar, now) else was[i])
      && Tracked(gone, was, due[..k], calendar, now)
    }

    /** The values after a job is dealt with differ from those before at that job only. */
    lemma OneMore(all: seq<Job>, was: seq<JobState>, due: seq<nat>, k: nat, before: seq<JobState>, now: int)
      requires k < |due| && Indices(due, |all|) && |was| == |before| == |all|
      requires forall i :: 0 <= i < |all| ==>
                 before[i] == if i in due[..k] then Touched(was[i], calendar, now) else was[i]
      requires forall i :: 0 <= i < |all| && i != due[k] ==> all[i].Val() == before[i]
      requires all[due[k]].Val() == Touched(was[due[k]], calendar, now)
      ensures forall i :: 0 <= i < |all| ==>
                all[i].Val() == if i in due[..k + 1] then Touched(was[i], calendar, now) else was[i]
    {
      assert due[..k + 1] == due[..k] + [due[k]];
    }

    /** A due job fired for the last time is removed. */
    method EndJob(all: seq<Job>, due: seq<nat>, k: nat, now: int, ghost was: seq<JobState>, ghost gone: set<string>)
      returns (ghost gone': set<string>)
      requires k < |due| && Midway(all, was, due, k, gone, now) && Ends(was[due[k]], calendar, now)
      modifies this`jobs
      ensures Midway(all, was, due, k + 1, gone', now)
    {
      var job := all[due[k]];
      TrackedOneMore(gone, was, due, k, calendar, now);
      assert due[k] !in due[..k];
      OneMore(all, was, due, k, Vals(all), now);
      jobs := Without(jobs, job.id);
      KeptTwice(all, gone, job.id);
      gone' := gone + {job.id};
    }

    /** One that goes on remembers when it fired. */
    method TouchJob(all: seq<Job>, due: seq<nat>, k: nat, now: int, ghost was: seq<JobState>, ghost gone: set<string>)
      requires k < |due| && Midway(all, was, due, k, gone, now)
      requires Due(was[due[k]], calendar, now) && !Ends(was[due[k]], calendar, now)
      modifies all[due[k]]
      ensures Midway(all, was, due, k + 1, gone, now)
    {
      ghost var before := Vals(all);
      assert due[k] !in due[..k];
      all[due[k]].lastFired := Some(now);
      TrackedOneMore(gone, was, due, k, calendar, now);
      assert gone + {} == gone;
      OneMore(all, was, due, k, before, now);
    }

    /** One due job is fired. */
    method FireOne(all: seq<Job>, due: seq<nat>, k: nat, stale: bool, now: int, ghost was: seq<JobState>,
                   ghost gone: set<string>)
      returns (fired: JobState, ghost gone': set<string>)
      requires k < |due| && Midway(all, was, due, k, gone, now)
      requires stale == Stale(was[due[k]], now) && Due(was[due[k]], calendar, now)
      modifies this`jobs, all
      ensures fired == was[due[k]] && Midway(all, was, due, k + 1, gone', now)
    {
      var job := all[due[k]];
      assert due[k] !in due[..k];
      fired := job.Val();
      gone' := gone;
      if stale || !job.recurring {
        gone' := EndJob(all, due, k, now, was, gone);
      } else {
        TouchJob(all, due, k, now, was, gone);
      }
    }

    lemma Begins(all: seq<Job>, was: seq<JobState>, due: seq<nat>, now: int)
      requires Valid() && all == jobs && was == Vals(all) && Indices(due, |was|)
      ensures Midway(all, was, due, 0, {}, now)
    {
      KeptAll(all);
    }

    /** All due jobs, one after the other. */
    method FireAll(all: seq<Job>, due: seq<nat>, stale: seq<bool>, now: int, ghost was: seq<JobState>)
      returns (fired: seq<JobState>, ghost gone: set<string>)
      requires Midway(all, was, due, 0, {}, now) && |stale| == |due|
      requires forall k :: 0 <= k < |due| ==> stale[k] == Stale(was[due[k]], now) && Due(was[due[k]], calendar, now)
      modifies this`jobs, all
      ensures Midway(all, was, due, |due|, gone, now) && fired == Picked(was, due)
    {
      fired, gone := [], {};
      var k := 0;
      while k < |due|
        invariant 0 <= k <= |due| && Midway(all, was, due, k, gone, now)
        invariant fired == Picked(was, due[..k])
      {
        var one;
        one, gone := FireOne(all, due, k, stale[k], now, was, gone);
        PickedNext(was, due, k);
        fired := fired + [one];
        k := k + 1;
      }
      assert due[..k] == due;
    }

    /** `check`, with no other turn in between. */
    method Check(now: int) returns (fired: seq<JobState>)
      requires Valid()
      modifies this`jobs, jobs
      ensures Vals(jobs) == After(old(Vals(jobs)), calendar, now)
      ensures fired == DueOf(old(Vals(jobs)), calendar, now)
    {
      var all := jobs;
      ghost var was, gone := Vals(all), {};
      var due, stale := Collect(now, was);
      Begins(all, was, due, now);
      fired, gone := FireAll(all, due, stale, now, was);
      PickedIsDue(was, due, calendar, now);
      AllTouched(all, was, due, gone, now);
    }

    /** `reschedule`: the delay of the one timer, or no timer. */
    method Reschedule(now: int) returns (nearest: Option<int>, delay: Option<int>)
      ensures Nearest(Vals(jobs), calendar, now, nearest)
      ensures delay == if nearest.None? then None else Some(Delay(nearest.value, now))
    {
      nearest := None;
      ghost var vals := Vals(jobs);
      var i := 0;
      while i < |jobs|
        invariant 0 <= i <= |jobs| && Nearest(vals[..i], calendar, now, nearest)
      {
        var at := ActionOf(jobs[i], calendar, now);
        NearestStep(vals[..i], vals[i], calendar, now, nearest, at);
        assert vals[..i + 1] == vals[..i] + [vals[i]];
        if at.Some? && (nearest.None? || at.value < nearest.value) {
          nearest := at;
        }
        i := i + 1;
      }
      assert vals[..i] == vals;
      delay := if nearest.None? then None else Some(Delay(nearest.value, now));
    }

    /** When all due jobs are dealt with, what is left is what it should be. */
    lemma AllTouched(all: seq<Job>, was: seq<JobState>, due: seq<nat>, gone: set<string>, now: int)
      requires Midway(all, was, due, |due|, gone, now)
      requires forall i :: 0 <= i < |was| ==> (i in due <==> Due(was[i], calendar, now))
      ensures Vals(jobs) == After(was, calendar, now)
    {
      assert due[..|due|] == due;
      forall i | 0 <= i < |all| ensures all[i].id == was[i].id && all[i].Val() == Touched(was[i], calendar, now) {
        assert all[i].Val() == if i in due then Touched(was[i], calendar, now) else was[i];
      }
      forall id ensures id in gone <==> id in Gone(was, calendar, now) {
        if id in Gone(was, calendar, now) {
          var j :| j in was && Ends(j, calendar, now) && j.id == id;
          var i :| 0 <= i < |was| && was[i] == j;
          assert i in due;
          var n :| 0 <= n < |due| && due[n] == i;
          assert EndedAmong(was, due, calendar, now, id);
        }
      }
      assert gone == Gone(was, calendar, now);
      KeptVals(all, was, gone, calendar, now);
    }
  }

  /** `nextActionAt` over the fields of a job. */
  method ActionOf(job: Job, c: Calendar, now: int) returns (at: Option<int>)
    ensures at == NextAction(job.Val(), c, now)
  {
    if !job.recurring {
      at := FindNextFire(job.fields, c, job.created);
      return at;
    }
    var expiry := job.created + RECURRING_TTL;
    if now >= expiry {
      return Some(now);
    }
    var next := FindNextFire(job.fields, c, if job.lastFired.Some? then job.lastFired.value else job.created);
    return Some(if next.Some? && next.value < expiry then next.value else expiry);
  }

  /** The least of the next actions. */
  ghost predicate Nearest(jobs: seq<JobState>, c: Calendar, now: int, at: Option<int>)
  {
    match at
    case None => forall j :: j in jobs ==> NextAction(j, c, now).None?
    case Some(t) =>
      && (exists j :: j in jobs && NextAction(j, c, now) == Some(t))
      && forall j :: j in jobs && NextAction(j, c, now).Some? ==> t <= NextAction(j, c, now).value
  }

  lemma NearestStep(jobs: seq<JobState>, j: JobState, c: Calendar, now: int, nearest: Option<int>, at: Option<int>)
    requires Nearest(jobs, c, now, nearest) && at == NextAction(j, c, now)
    ensures Nearest(jobs + [j], c, now,
        if at.Some? && (nearest.None? || at.value < nearest.value) then at else nearest)
  {
    var more := jobs + [j];
    assert more[|jobs|] == j;
    if nearest.Some? {
      var n :| n in jobs && NextAction(n, c, now) == nearest;
      assert n in more;
    }
  }

  /** The delay of the timer, cut off at what a timer can hold. */
  function Delay(at: int, now: int): (d: int)
    ensures 0 <= d <= MAX_DELAY
  {
    var wait := if at - now > 0 then at - now else 0;
    if wait < MAX_DELAY then wait else MAX_DELAY
  }

  /** A timer set this way rings before any job becomes due that is not due yet, or just then; and
      unless the delay was cut off, some job is due when it rings. */
  lemma TimerIsTight(jobs: seq<JobState>, c: Calendar, now: int, t: int)
    requires Nearest(jobs, c, now, Some(t)) && forall j :: j in jobs ==> Unfired(j)
    ensures forall j, later: int :: j in jobs && now <= later < now + Delay(t, now) ==> !Due(j, c, later)
    ensures Delay(t, now) < MAX_DELAY ==> exists j :: j in jobs && Due(j, c, now + Delay(t, now))
  {
    forall j, later: int | j in jobs && now <= later < now + Delay(t, now) ensures !Due(j, c, later) {
      ActionStands(j, c, now, later);
      DueIsActionReached(j, c, later);
    }
    var j :| j in jobs && NextAction(j, c, now) == Some(t);
    if Delay(t, now) < MAX_DELAY {
      ActionStands(j, c, now, now + Delay(t, now));
      DueIsActionReached(j, c, now + Delay(t, now));
    }
  }

  /** Until it comes, the next action of a job does not change. */
  lemma ActionStands(j: JobState, c: Calendar, now: int, later: int)
    requires now <= later
    ensures Reached(NextAction(j, c, later), later) <==>
            NextAction(j, c, now).Some? && NextAction(j, c, now).value <= later
  {
  }

  /** The id of a job at one of the given positions that fired for the last time. */
  ghost predicate EndedAmong(was: seq<JobState>, at: seq<nat>, c: Calendar, now: int, id: string)
  {
    exists n :: 0 <= n < |at| && at[n] < |was| && was[at[n]].id == id && Ends(was[at[n]], c, now)
  }

  ghost predicate Tracked(gone: set<string>, was: seq<JobState>, due: seq<nat>, c: Calendar, now: int)
  {
    forall id :: id in gone <==> EndedAmong(was, due, c, now, id)
  }

  lemma TrackedOneMore(gone: set<string>, was: seq<JobState>, due: seq<nat>, k: nat, c: Calendar, now: int)
    requires k < |due| && due[k] < |was| && Tracked(gone, was, due[..k], c, now)
    ensures Tracked(gone + if Ends(was[due[k]], c, now) then {was[due[k]].id} else {}, was, due[..k + 1], c, now)
  {
    forall id ensures EndedAmong(was, due[..k + 1], c, now, id) <==>
      EndedAmong(was, due[..k], c, now, id) || (was[due[k]].id == id && Ends(was[due[k]], c, now))
    {
      if EndedAmong(was, due[..k], c, now, id) {
        var n :| 0 <= n < k && due[n] < |was| && was[due[n]].id == id && Ends(was[due[n]], c, now);
        assert due[..k + 1][n] == due[n];
      }
      assert due[..k + 1][k] == due[k];
    }
  }

  lemma PickedNext(jobs: seq<JobState>, at: seq<nat>, k: nat)
    requires k < |at| && forall i :: 0 <= i < |at| ==> at[i] < |jobs|
    ensures Picked(jobs, at[..k + 1]) == Picked(jobs, at[..k]) + [jobs[at[k]]]
  {
  }

  /** The greatest position comes last. */
  lemma LastIndex(at: seq<nat>, n: nat)
    requires Indices(at, n + 1) && n in at
    ensures at[|at| - 1] == n && Indices(at[..|at| - 1], n)
    ensures forall i :: 0 <= i < n ==> (i in at[..|at| - 1] <==> i in at)
  {
    assert at == at[..|at| - 1] + [at[|at| - 1]];
  }

  /** Picking the positions of all due jobs is picking the due jobs. */
  lemma {:induction false} PickedIsDue(was: seq<JobState>, due: seq<nat>, c: Calendar, now: int)
    requires Indices(due, |was|) && forall i :: 0 <= i < |was| ==> (i in due <==> Due(was[i], c, now))
    ensures Picked(was, due) == DueOf(was, c, now)
    decreases |was|
  {
    if was != [] {
      var front, n := was[..|was| - 1], |was| - 1;
      if Due(was[n], c, now) {
        var rest := due[..|due| - 1];
        LastIndex(due, n);
        PickedIsDue(front, rest, c, now);
        assert Picked(was, due) == Picked(front, rest) + [was[n]];
      } else {
        assert n !in due;
        PickedIsDue(front, due, c, now);
        assert Picked(was, due) == Picked(front, due);
      }
    }
  }

  /** Ascending positions below a bound. */
  predicate Indices(at: seq<nat>, bound: nat)
  {
    (forall k :: 0 <= k < |at| ==> at[k] < bound) && forall j, k :: 0 <= j < k < |at| ==> at[j] < at[k]
  }

  function Picked(jobs: seq<JobState>, at: seq<nat>): seq<JobState>
    requires forall k :: 0 <= k < |at| ==> at[k] < |jobs|
  {
    seq(|at|, k requires 0 <= k < |at| => jobs[at[k]])
  }

  /** `jobs.filter` by id. */
  method Without(jobs: seq<Job>, id: string) returns (left: seq<Job>)
    ensures left == Kept(jobs, {id})
  {
    left := [];
    var i := 0;
    while i < |jobs|
      invariant 0 <= i <= |jobs| && left == Kept(jobs[..i], {id})
    {
      assert jobs[..i + 1][..i] == jobs[..i];
      if jobs[i].id != id {
        left := left + [jobs[i]];
      }
      i := i + 1;
    }
    assert jobs[..|jobs|] == jobs;
  }
}
