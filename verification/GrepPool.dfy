/** The parallel search of core/src/rpc.c: workers share a cursor over the candidate files, each
    gathers matches in its own list, and the lists are put together and sorted.  A step is one
    critical section of one worker; `job.cancel` may set the flag between any two. */
module GrepPool {
  import opened Bytes
  import opened GrepFile
  import Utf8

  const MAX_RESULTS: nat := 100000

  // ---------------------------------------------------------------------
  // What a sequential search finds.
  // ---------------------------------------------------------------------

  /** A candidate: the path shown, and what reading it gives, if it can be read. */
  datatype File = File(display: CText, content: Option<seq<byte>>)

  /** A file that cannot be read or is not UTF-8 has no matches. */
  ghost function FoundIn(file: File, pattern: seq<byte>): seq<Match>
  {
    if file.content.Some? && Utf8.IsText(file.content.value)
    then Hits(file.display, pattern, Lines(file.content.value)) else []
  }

  ghost function Found(files: seq<File>, pattern: seq<byte>): (found: seq<seq<Match>>)
    ensures |found| == |files|
  {
    seq(|files|, i requires 0 <= i < |files| => FoundIn(files[i], pattern))
  }

  /** Adding to one list adds to the whole. */
  lemma {:induction false} FlattenAdds(lists: seq<seq<Match>>, t: nat, more: seq<Match>)
    requires t < |lists|
    ensures multiset(Flatten(lists[t := lists[t] + more])) == multiset(Flatten(lists)) + multiset(more)
    ensures |Flatten(lists[t := lists[t] + more])| == |Flatten(lists)| + |more|
    decreases |lists|
  {
    var now := lists[t := lists[t] + more];
    if t == 0 {
      assert now[1..] == lists[1..];
    } else {
      FlattenAdds(lists[1..], t - 1, more);
      assert now[1..] == lists[1..][t - 1 := lists[1..][t - 1] + more];
    }
  }

  // ---------------------------------------------------------------------
  // The pool.
  // ---------------------------------------------------------------------

  /** `done` counts the matches of the claimed file already listed; `Missing` is a thread that
      could not be created. */
  datatype Worker = Idle | Busy(file: nat, done: nat) | Stopped | Missing

  /** `owner` records, file by file, which worker claimed it. */
  datatype Pool = Pool(cursor: nat, total: nat, truncated: bool, cancel: bool,
                       workers: seq<Worker>, lists: seq<seq<Match>>, owner: seq<nat>)

  datatype Event = Claim(t: nat) | Add(t: nat) | Finish(t: nat) | Cancel

  function Start(created: seq<bool>): Pool
  {
    Pool(0, 0, false, false, seq(|created|, t requires 0 <= t < |created| => if created[t] then Idle else Missing),
         seq(|created|, t => []), [])
  }

  predicate Enabled(found: seq<seq<Match>>, p: Pool, e: Event)
  {
    match e
    case Claim(t) => t < |p.workers| && p.workers[t].Idle?
    case Add(t) =>
      && t < |p.workers| == |p.lists| && p.workers[t].Busy?
      && p.workers[t].file < |found| && p.workers[t].done < |found[p.workers[t].file]|
    case Finish(t) =>
      && t < |p.workers| && p.workers[t].Busy?
      && p.workers[t].file < |found| && p.workers[t].done == |found[p.workers[t].file]|
    case Cancel => true
  }

  function Next(found: seq<seq<Match>>, p: Pool, e: Event): Pool
    requires Enabled(found, p, e)
  {
    match e
    case Claim(t) =>
      if p.cancel then p.(workers := p.workers[t := Stopped])
      else if p.total >= MAX_RESULTS then p.(truncated := true, workers := p.workers[t := Stopped])
      else if p.cursor >= |found| then p.(cursor := p.cursor + 1, workers := p.workers[t := Stopped])
      else p.(cursor := p.cursor + 1, workers := p.workers[t := Busy(p.cursor, 0)], owner := p.owner + [t])
    case Add(t) =>
      var w := p.workers[t];
      p.(lists := p.lists[t := p.lists[t] + [found[w.file][w.done]]], total := p.total + 1,
         workers := p.workers[t := Busy(w.file, w.done + 1)])
    case Finish(t) => p.(workers := p.workers[t := Idle])
    case Cancel => p.(cancel := true)
  }

  predicate Run(found: seq<seq<Match>>, from: Pool, events: seq<Event>, to: Pool)
    decreases |events|
  {
    if events == [] then from == to
    else Enabled(found, from, events[0]) && Run(found, Next(found, from, events[0]), events[1..], to)
  }

  // ---------------------------------------------------------------------
  // Invariant.
  // ---------------------------------------------------------------------

  /** All matches of the files a worker claimed, in claim order. */
  function Share(found: seq<seq<Match>>, owner: seq<nat>, t: nat): seq<Match>
    requires |owner| <= |found|
    decreases |owner|
  {
    if owner == [] then []
    else
      var last := |owner| - 1;
      Share(found, owner[..last], t) + if owner[last] == t then found[last] else []
  }

  lemma ShareGrows(found: seq<seq<Match>>, owner: seq<nat>, who: nat, t: nat)
    requires |owner| < |found|
    ensures Share(found, owner + [who], t) == Share(found, owner, t) + if who == t then found[|owner|] else []
  {
    assert (owner + [who])[..|owner|] == owner;
  }

  /** A worker's list is its share, but for what is left of the file it is searching. */
  predicate WorkerOk(found: seq<seq<Match>>, w: Worker, list: seq<Match>, owner: seq<nat>, t: nat)
    requires |owner| <= |found|
  {
    match w
    case Busy(i, k) =>
      i < |owner| && owner[i] == t && k <= |found[i]| && list + found[i][k..] == Share(found, owner, t)
    case _ => list == Share(found, owner, t)
  }

  predicate Workers(found: seq<seq<Match>>, p: Pool)
    requires |p.owner| <= |found| && |p.workers| == |p.lists|
  {
    forall t :: 0 <= t < |p.workers| ==> WorkerOk(found, p.workers[t], p.lists[t], p.owner, t)
  }

  /** A worker stops only when there is a reason to. */
  predicate StopsExplained(found: seq<seq<Match>>, p: Pool)
  {
    forall t :: 0 <= t < |p.workers| && p.workers[t].Stopped? ==> p.cancel || p.truncated || p.cursor > |found|
  }

  predicate Inv(found: seq<seq<Match>>, p: Pool)
  {
    && |p.workers| == |p.lists|
    && |p.owner| == (if p.cursor < |found| then p.cursor else |found|)
    && (forall o :: o in p.owner ==> o < |p.workers| && !p.workers[o].Missing?)
    && p.total == |Flatten(p.lists)|
    && (p.truncated ==> p.total >= MAX_RESULTS)
    && Workers(found, p) && StopsExplained(found, p)
  }

  lemma {:induction false} NoLists(lists: seq<seq<Match>>)
    requires forall i :: 0 <= i < |lists| ==> lists[i] == []
    ensures Flatten(lists) == []
    decreases |lists|
  {
    if lists != [] {
      NoLists(lists[1..]);
    }
  }

  lemma StartInv(found: seq<seq<Match>>, created: seq<bool>)
    ensures Inv(found, Start(created))
  {
    var p := Start(created);
    NoLists(p.lists);
    assert forall t :: 0 <= t < |p.workers| ==> p.lists[t] == [] && Share(found, p.owner, t) == [];
  }

  lemma ClaimKeeps(found: seq<seq<Match>>, p: Pool, t: nat)
    requires Inv(found, p) && Enabled(found, p, Claim(t))
    ensures Inv(found, Next(found, p, Claim(t)))
  {
    ClaimLeavesWorkers(found, p, t);
    var n := Next(found, p, Claim(t));
    forall o | o in n.owner ensures o < |n.workers| && !n.workers[o].Missing? {
      assert o in p.owner || o == t;
    }
  }

  lemma ClaimLeavesWorkers(found: seq<seq<Match>>, p: Pool, t: nat)
    requires Enabled(found, p, Claim(t)) && |p.workers| == |p.lists|
    requires |p.owner| == (if p.cursor < |found| then p.cursor else |found|) && Workers(found, p)
    ensures Workers(found, Next(found, p, Claim(t)))
  {
    var n := Next(found, p, Claim(t));
    forall u | 0 <= u < |n.workers| ensures WorkerOk(found, n.workers[u], n.lists[u], n.owner, u) {
      assert WorkerOk(found, p.workers[u], p.lists[u], p.owner, u);
      ClaimLeavesWorker(found, p, t, u);
    }
  }

  /** A claim keeps the account of every worker, the one that claims among them. */
  lemma ClaimLeavesWorker(found: seq<seq<Match>>, p: Pool, t: nat, u: nat)
    requires Enabled(found, p, Claim(t)) && u < |p.workers| == |p.lists|
    requires |p.owner| == (if p.cursor < |found| then p.cursor else |found|)
    requires WorkerOk(found, p.workers[u], p.lists[u], p.owner, u)
    ensures var n := Next(found, p, Claim(t)); WorkerOk(found, n.workers[u], n.lists[u], n.owner, u)
  {
    if Next(found, p, Claim(t)).owner != p.owner {
      ShareGrows(found, p.owner, t, u);
      assert found[|p.owner|][0..] == found[|p.owner|];
    }
  }

  lemma OneMore(list: seq<Match>, hits: seq<Match>, k: nat)
    requires k < |hits|
    ensures list + [hits[k]] + hits[k + 1..] == list + hits[k..]
  {
    assert hits[k..] == [hits[k]] + hits[k + 1..];
  }

  lemma AddKeeps(found: seq<seq<Match>>, p: Pool, t: nat)
    requires Inv(found, p) && Enabled(found, p, Add(t))
    ensures Inv(found, Next(found, p, Add(t)))
  {
    var n, w := Next(found, p, Add(t)), p.workers[t];
    var m := found[w.file][w.done];
    FlattenAdds(p.lists, t, [m]);
    OneMore(p.lists[t], found[w.file], w.done);
    forall u | 0 <= u < |n.workers| ensures WorkerOk(found, n.workers[u], n.lists[u], n.owner, u) {
      assert WorkerOk(found, p.workers[u], p.lists[u], p.owner, u);
    }
  }

  lemma FinishKeeps(found: seq<seq<Match>>, p: Pool, t: nat)
    requires Inv(found, p) && Enabled(found, p, Finish(t))
    ensures Inv(found, Next(found, p, Finish(t)))
  {
    var n, w := Next(found, p, Finish(t)), p.workers[t];
    forall u | 0 <= u < |n.workers| ensures WorkerOk(found, n.workers[u], n.lists[u], n.owner, u) {
      assert WorkerOk(found, p.workers[u], p.lists[u], p.owner, u);
      assert found[w.file][w.done..] == [];
    }
  }

  lemma {:induction false} StepKeeps(found: seq<seq<Match>>, p: Pool, e: Event)
    requires Inv(found, p) && Enabled(found, p, e)
    ensures Inv(found, Next(found, p, e))
  {
    match e
    case Claim(t) => ClaimKeeps(found, p, t);
    case Add(t) => AddKeeps(found, p, t);
    case Finish(t) => FinishKeeps(found, p, t);
    case Cancel =>
  }

  lemma {:induction false} RunKeeps(found: seq<seq<Match>>, from: Pool, events: seq<Event>, to: Pool)
    requires Inv(found, from) && Run(found, from, events, to)
    ensures Inv(found, to)
    decreases |events|
  {
    if events != [] {
      StepKeeps(found, from, events[0]);
      RunKeeps(found, Next(found, from, events[0]), events[1..], to);
    }
  }

  lemma {:induction false} OwnersStay(found: seq<seq<Match>>, from: Pool, events: seq<Event>, to: Pool)
    requires Inv(found, from) && Run(found, from, events, to)
    ensures from.owner <= to.owner
    decreases |events|
  {
    if events != [] {
      StepKeeps(found, from, events[0]);
      OwnersStay(found, Next(found, from, events[0]), events[1..], to);
    }
  }

  /** A file is claimed at most once in a whole run: whoever searches it at one moment and whoever
      searches it at a later one are the same worker, and at no time after its claim is the file
      claimed again. */
  lemma ClaimedOnce(found: seq<seq<Match>>, created: seq<bool>, before: seq<Event>, p: Pool, after: seq<Event>, q: Pool,
                    t: nat, u: nat, v: nat)
    requires Run(found, Start(created), before, p) && Run(found, p, after, q)
    requires t < |p.workers| && p.workers[t].Busy? && u < |q.workers|
    ensures q.workers[u].Busy? && q.workers[u].file == p.workers[t].file ==> u == t
    ensures Enabled(found, q, Claim(v)) && Next(found, q, Claim(v)).workers[v].Busy? ==>
              Next(found, q, Claim(v)).workers[v].file != p.workers[t].file
  {
    StartInv(found, created);
    RunKeeps(found, Start(created), before, p);
    RunKeeps(found, p, after, q);
    OwnersStay(found, p, after, q);
    assert WorkerOk(found, p.workers[t], p.lists[t], p.owner, t);
    assert WorkerOk(found, q.workers[u], q.lists[u], q.owner, u);
    assert p.owner[p.workers[t].file] == q.owner[p.workers[t].file];
  }

  // ---------------------------------------------------------------------
  // When all workers have been joined.
  // ---------------------------------------------------------------------

  predicate Joined(p: Pool)
  {
    forall t :: 0 <= t < |p.workers| ==> p.workers[t].Stopped? || p.workers[t].Missing?
  }

  predicate SomeRan(p: Pool)
  {
    exists t :: 0 <= t < |p.workers| && p.workers[t].Stopped?
  }

  function Shares(found: seq<seq<Match>>, owner: seq<nat>, n: nat): (shares: seq<seq<Match>>)
    requires |owner| <= |found|
    ensures |shares| == n
  {
    seq(n, t requires 0 <= t < n => Share(found, owner, t))
  }

  /** Claiming one more file adds its matches to the claimer's share. */
  lemma SharesGrow(found: seq<seq<Match>>, owner: seq<nat>, who: nat, n: nat)
    requires |owner| < |found| && who < n
    ensures var shares := Shares(found, owner, n);
            Shares(found, owner + [who], n) == shares[who := shares[who] + found[|owner|]]
  {
    forall t | 0 <= t < n
      ensures Share(found, owner + [who], t) == Share(found, owner, t) + if who == t then found[|owner|] else []
    {
      ShareGrows(found, owner, who, t);
    }
    var shares, now := Shares(found, owner, n), Shares(found, owner + [who], n);
    var updated := shares[who := shares[who] + found[|owner|]];
    forall t | 0 <= t < n ensures now[t] == updated[t] {
    }
  }

  /** The shares together are the claimed files together. */
  lemma {:induction false} SharesAddUp(found: seq<seq<Match>>, owner: seq<nat>, n: nat)
    requires |owner| <= |found| && forall i :: 0 <= i < |owner| ==> owner[i] < n
    ensures multiset(Flatten(Shares(found, owner, n))) == multiset(Flatten(found[..|owner|]))
    decreases |owner|
  {
    if owner == [] {
      NoLists(Shares(found, [], n));
      assert found[..0] == [];
    } else {
      var last := |owner| - 1;
      var before, who := owner[..last], owner[last];
      SharesAddUp(found, before, n);
      assert owner == before + [who];
      SharesGrow(found, before, who, n);
      FlattenAdds(Shares(found, before, n), who, found[last]);
      assert found[..last + 1] == found[..last] + [found[last]];
      FlattenGrows(found[..last], found[last]);
    }
  }

  /** Whatever the schedule, and whether or not the search was cut short: what the joined workers
      found is all matches of a first part of the files, each once. */
  lemma JoinedIsPrefix(found: seq<seq<Match>>, p: Pool)
    requires Inv(found, p) && Joined(p)
    ensures |p.owner| <= |found|
    ensures multiset(Flatten(p.lists)) == multiset(Flatten(found[..|p.owner|]))
    ensures p.truncated ==> |Flatten(p.lists)| >= MAX_RESULTS
    ensures SomeRan(p) && !p.cancel && !p.truncated ==> |p.owner| == |found|
  {
    var shares := Shares(found, p.owner, |p.lists|);
    forall t | 0 <= t < |p.lists| ensures p.lists[t] == shares[t] {
      assert WorkerOk(found, p.workers[t], p.lists[t], p.owner, t);
    }
    assert p.lists == shares;
    forall i | 0 <= i < |p.owner| ensures p.owner[i] < |p.lists| {
      assert p.owner[i] in p.owner;
    }
    SharesAddUp(found, p.owner, |p.lists|);
  }

  // ---------------------------------------------------------------------
  // Sorting.
  // ---------------------------------------------------------------------

  /** `search_match_compare(a, b) < 0`. */
  predicate Precedes(a: Match, b: Match)
  {
    Below(a.path, b.path) || (a.path == b.path && a.line < b.line)
  }

  predicate Sorted(s: seq<Match>)
  {
    s == [] || ((forall m :: m in s[1..] ==> !Precedes(m, s[0])) && Sorted(s[1..]))
  }

  /** What `qsort` may leave: the same matches in order. */
  ghost predicate SortOf(sorted: seq<Match>, s: seq<Match>)
  {
    Sorted(sorted) && multiset(sorted) == multiset(s)
  }

  /** Different matches are ordered one way or the other. */
  ghost predicate Told(s: seq<Match>)
  {
    forall a, b :: a in s && b in s && a != b ==> Precedes(a, b) || Precedes(b, a)
  }

  /** Then there is only one way to sort, whatever `qsort` does with ties. */
  lemma {:induction false} SortIsUnique(a: seq<Match>, b: seq<Match>)
    requires Sorted(a) && Sorted(b) && multiset(a) == multiset(b) && Told(a)
    ensures a == b
    decreases |a|
  {
    assert |multiset(a)| == |a| && |multiset(b)| == |b|;
    if a != [] {
      SameFirst(a, b);
      assert a == [a[0]] + a[1..] && b == [b[0]] + b[1..];
      assert multiset(a[1..]) == multiset(a) - multiset{a[0]} == multiset(b) - multiset{b[0]} == multiset(b[1..]);
      assert forall m :: m in a[1..] ==> m in a;
      SortIsUnique(a[1..], b[1..]);
    }
  }

  lemma FirstIsLeast(s: seq<Match>, m: Match)
    requires Sorted(s) && m in multiset(s)
    ensures m == s[0] || !Precedes(m, s[0])
  {
    assert s == [s[0]] + s[1..];
  }

  lemma SameFirst(a: seq<Match>, b: seq<Match>)
    requires a != [] && b != [] && Sorted(a) && Sorted(b) && multiset(a) == multiset(b) && Told(a)
    ensures a[0] == b[0]
  {
    var x, y := a[0], b[0];
    assert x in multiset(b) && y in multiset(a);
    FirstIsLeast(a, y);
    FirstIsLeast(b, x);
  }

  lemma {:induction false} InFlatten(lists: seq<seq<Match>>, m: Match) returns (i: nat)
    requires m in Flatten(lists)
    ensures i < |lists| && m in lists[i]
    decreases |lists|
  {
    if m in lists[0] {
      i := 0;
    } else {
      i := InFlatten(lists[1..], m);
      i := i + 1;
    }
  }

  /** Files of different paths, lines of different numbers: no two matches tie. */
  lemma MatchesAreTold(files: seq<File>, pattern: seq<byte>)
    requires forall i, j :: 0 <= i < j < |files| ==> files[i].display != files[j].display
    ensures Told(Flatten(Found(files, pattern)))
  {
    var all := Flatten(Found(files, pattern));
    forall a, b | a in all && b in all && a != b ensures Precedes(a, b) || Precedes(b, a) {
      var i := InFlatten(Found(files, pattern), a);
      var j := InFlatten(Found(files, pattern), b);
      MatchOf(files[i], pattern, a);
      MatchOf(files[j], pattern, b);
      if i == j {
        SameFileTold(files[i], pattern, a, b);
      } else {
        BelowTotal(a.path, b.path);
      }
    }
  }

  lemma MatchOf(file: File, pattern: seq<byte>, m: Match)
    requires m in FoundIn(file, pattern)
    ensures m.path == file.display
  {
    HitsAreLines(file.display, pattern, Lines(file.content.value), m);
  }

  lemma SameFileTold(file: File, pattern: seq<byte>, a: Match, b: Match)
    requires a in FoundIn(file, pattern) && b in FoundIn(file, pattern) && a != b
    ensures a.path == b.path && a.line != b.line
  {
    HitsAreLines(file.display, pattern, Lines(file.content.value), a);
    HitsAreLines(file.display, pattern, Lines(file.content.value), b);
  }

  /** The main result.  Any run of the workers over files of different paths, started with at least
      one thread and neither cancelled nor cut off, gives after sorting exactly the sorted matches
      of a sequential search, whichever worker took which file. */
  lemma ParallelIsSequential(files: seq<File>, pattern: seq<byte>, created: seq<bool>, events: seq<Event>, p: Pool,
                             sorted: seq<Match>, sequential: seq<Match>)
    requires forall i, j :: 0 <= i < j < |files| ==> files[i].display != files[j].display
    requires Run(Found(files, pattern), Start(created), events, p) && Joined(p) && SomeRan(p)
    requires !p.cancel && !p.truncated
    requires SortOf(sorted, Flatten(p.lists)) && SortOf(sequential, Flatten(Found(files, pattern)))
    ensures sorted == sequential
  {
    var found := Found(files, pattern);
    StartInv(found, created);
    RunKeeps(found, Start(created), events, p);
    JoinedIsPrefix(found, p);
    assert found[..|found|] == found;
    MatchesAreTold(files, pattern);
    forall m | m in sequential ensures m in Flatten(found) {
      assert m in multiset(sequential);
    }
    SortIsUnique(sequential, sorted);
  }

  /** When no thread could be created nothing is found, and nothing says so: the uncancelled,
      unflagged result is complete exactly when some worker ran or there was nothing to find. */
  lemma CompleteExactlyWhen(found: seq<seq<Match>>, created: seq<bool>, events: seq<Event>, p: Pool)
    requires Run(found, Start(created), events, p) && Joined(p) && !p.cancel && !p.truncated
    ensures multiset(Flatten(p.lists)) == multiset(Flatten(found)) <==> SomeRan(p) || Flatten(found) == []
    ensures SomeRan(p) <==> true in created
  {
    StartInv(found, created);
    RunKeeps(found, Start(created), events, p);
    JoinedIsPrefix(found, p);
    assert found[..|found|] == found;
    MissingStays(found, Start(created), events, p);
    if p.owner != [] {
      ClaimerRan(found, p);
    }
    if true in created {
      var t: nat :| t < |created| && created[t];
      assert !Start(created).workers[t].Missing?;
      assert p.workers[t].Stopped?;
    }
    if SomeRan(p) {
      var t :| 0 <= t < |p.workers| && p.workers[t].Stopped?;
      assert !Start(created).workers[t].Missing?;
      assert created[t];
    } else {
      assert found[..0] == [];
    }
  }

  /** Such a job: one file with one match, and no thread. */
  lemma NoThreadNoMatch(m: Match)
    ensures var p := Start([false]);
            && Run([[m]], p, [], p) && Joined(p) && !p.cancel && !p.truncated
            && Flatten(p.lists) == [] && Flatten([[m]]) == [m]
  {
    NoLists(Start([false]).lists);
    assert [[m]][1..] == [];
  }

  lemma ClaimerRan(found: seq<seq<Match>>, p: Pool)
    requires Inv(found, p) && Joined(p) && p.owner != []
    ensures SomeRan(p)
  {
    assert p.owner[0] in p.owner;
    assert p.workers[p.owner[0]].Stopped?;
  }

  lemma {:induction false} MissingStays(found: seq<seq<Match>>, from: Pool, events: seq<Event>, to: Pool)
    requires Run(found, from, events, to)
    ensures |from.workers| == |to.workers|
    ensures forall t :: 0 <= t < |from.workers| ==> (from.workers[t].Missing? <==> to.workers[t].Missing?)
    decreases |events|
  {
    if events != [] {
      MissingStays(found, Next(found, from, events[0]), events[1..], to);
    }
  }
}
