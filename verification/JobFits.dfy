/** A scan or search job with a small output reaches its client whole: the batched writes of the
    worker fit the output ring, so nothing is given up while the client drains it. */
module JobFits {
  import opened Bytes
  import opened JobDrain
  import opened JobLines
  import opened OutputRing

  /** Output up to this length always fits. */
  const WHOLE: nat := 159566

  /** What the worker wrote, write by write. */
  function WritesOf(events: seq<Event>): seq<seq<byte>>
  {
    if events == [] then []
    else (if events[0].Write? then [events[0].bytes] else []) + WritesOf(events[1..])
  }

  /** The worker writes on standard output only, the slot is not reused and the client keeps at it. */
  predicate Quiet(e: Event)
  {
    (e.Write? ==> e.stream == Stdout) && !e.SlotReused? && !e.GiveUp?
  }

  lemma {:induction false} CutCount(stream: Stream, bytes: seq<byte>, next: nat)
    ensures CHUNK_BYTES * |Cut(stream, bytes, next)| <= |bytes| + CHUNK_BYTES
    decreases |bytes|
  {
    if |bytes| > CHUNK_BYTES {
      CutCount(stream, bytes[CHUNK_BYTES..], next + 1);
    } else if bytes != [] {
      assert Cut(stream, bytes[|bytes|..], next + 1) == [];
    }
  }

  /** Chunks come of writes and of their length. */
  lemma {:induction false} LogCount(from: World, events: seq<Event>, to: World)
    requires Run(from, events, to)
    ensures CHUNK_BYTES * |to.log| <=
            CHUNK_BYTES * |from.log| + CHUNK_BYTES * |WritesOf(events)| + |Flatten(WritesOf(events))|
    decreases |events|
  {
    if events != [] {
      var e := events[0];
      LogCount(Next(from, e), events[1..], to);
      if e.Write? {
        CutCount(e.stream, e.bytes, |from.log|);
        OneWrite(e.bytes, WritesOf(events[1..]));
      } else {
        EmptyJoins(WritesOf(events[1..]));
      }
    }
  }

  lemma OneWrite(bytes: seq<byte>, rest: seq<seq<byte>>)
    ensures Flatten([bytes] + rest) == bytes + Flatten(rest)
  {
    assert ([bytes] + rest)[1..] == rest;
  }

  lemma {:induction false} StdoutIs(from: World, events: seq<Event>, to: World)
    requires Run(from, events, to) && forall e :: e in events ==> Quiet(e)
    ensures to.stdout == from.stdout + Flatten(WritesOf(events))
    decreases |events|
  {
    if events == [] {
      EmptyJoins(from.stdout);
    } else {
      var e, rest := events[0], WritesOf(events[1..]);
      assert e in events;
      StdoutIs(Next(from, e), events[1..], to);
      if e.Write? {
        OneWrite(e.bytes, rest);
        Regroup(from.stdout, e.bytes, Flatten(rest));
      } else {
        EmptyJoins(rest);
      }
    }
  }

  /** The log only grows, and an end is final. */
  lemma {:induction false} RunGrows(from: World, events: seq<Event>, to: World)
    requires Run(from, events, to)
    ensures |from.log| <= |to.log| && (from.state != Running ==> to.state == from.state)
    decreases |events|
  {
    if events != [] {
      RunGrows(Next(from, events[0]), events[1..], to);
    }
  }

  lemma StepStays(w: World, e: Event)
    requires Inv(w) && Enabled(w, e) && Quiet(e) && w.present && !w.place.Thrown?
    requires |w.log| <= CHUNKS && (w.state == Running || w.state == Completed)
    ensures Next(w, e).present && !Next(w, e).place.Thrown?
  {
    if e.TakeIn? {
      assert !w.place.truncated && (w.place.status == Running || w.place.status == Completed);
    }
  }

  /** A client polling a job that completes with its whole output in the ring is never turned away. */
  lemma {:induction false} NeverThrown(from: World, events: seq<Event>, to: World)
    requires Inv(from) && from.present && !from.place.Thrown?
    requires Run(from, events, to) && forall e :: e in events ==> Quiet(e)
    requires |to.log| <= CHUNKS && to.state == Completed
    ensures Inv(to) && to.present && !to.place.Thrown?
    decreases |events|
  {
    if events != [] {
      assert events[0] in events;
      RunGrows(from, events, to);
      StepKeeps(from, events[0]);
      StepStays(from, events[0]);
      NeverThrown(Next(from, events[0]), events[1..], to);
    }
  }

  /** As many chunks as the writes of such an output make fit the ring. */
  lemma FewChunks(writes: seq<seq<byte>>, chunks: nat)
    requires Batched(writes) && |Flatten(writes)| <= WHOLE
    requires CHUNK_BYTES * chunks <= CHUNK_BYTES * |writes| + |Flatten(writes)|
    ensures chunks <= CHUNKS
  {
  }

  lemma SmallOutputFits(before: seq<Event>, w: World)
    requires Run(Start(), before, w) && (forall e :: e in before ==> Quiet(e)) && w.state == Completed
    requires Batched(WritesOf(before)) && |Flatten(WritesOf(before))| <= WHOLE
    ensures Inv(w) && Drainable(w) && !w.place.Thrown? && w.stdout == Flatten(WritesOf(before))
  {
    LogCount(Start(), before, w);
    FewChunks(WritesOf(before), |w.log|);
    StdoutIs(Start(), before, w);
    EmptyJoins(Flatten(WritesOf(before)));
    NeverThrown(Start(), before, w);
  }

  /** End to end: once a job completed whose batched output is at most 159566 bytes long, a client
      that kept polling meanwhile polls at most fifteen more times, and where it can poll no more it
      has returned with exactly what the job wrote. */
  lemma SmallOutputArrives(before: seq<Event>, w: World, polls: seq<Event>, end: World)
    requires Run(Start(), before, w) && (forall e :: e in before ==> Quiet(e)) && w.state == Completed
    requires Batched(WritesOf(before)) && |Flatten(WritesOf(before))| <= WHOLE
    requires Run(w, polls, end) && forall e :: e in polls ==> Polls(e)
    ensures |w.log| <= CHUNKS && |polls| <= 15
    ensures (end.place.Returned? && end.collected == Flatten(WritesOf(before))) ||
            (!Over(end.place) && exists e :: Polls(e) && Enabled(end, e))
  {
    SmallOutputFits(before, w);
    DrainEnds(w, polls, end);
  }
}
