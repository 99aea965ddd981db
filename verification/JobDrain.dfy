/** A job and the client that drains it: the C worker fills the output ring and ends the job while
    the TypeScript client polls `job.status` and pages through `job.output`.  A step is one critical
    section of the core or one synchronous turn of the client. */
module JobDrain {
  import opened Bytes
  import opened OutputRing
  import Base64

  datatype JobState = Running | Completed | Failed | Cancelled | TimedOut

  /** Where the client stands.  `status` is the state the last `job.status` reported; `asOf` is the
      number of chunks there were when the page was made up. */
  datatype Place =
    | Top
    | Asked(status: JobState)
    | Paged(status: JobState, wire: seq<WireChunk>, nextSeq: nat, truncated: bool, asOf: nat)
    | Returned
    | Thrown

  /** `log` is every chunk ever put in the ring, `stdout` every byte the worker wrote on standard
      output, `after` and `collected` the client's position and buffer. */
  datatype World = World(log: seq<Chunk>, stdout: seq<byte>, state: JobState, present: bool,
                         place: Place, after: nat, collected: seq<byte>)

  datatype Event =
    | Write(stream: Stream, bytes: seq<byte>)
    | End(outcome: JobState)
    | SlotReused
    | PollStatus
    | PollOutput(wire: seq<WireChunk>)
    | TakeIn(data: seq<seq<byte>>)
    | GiveUp

  function Start(): World
  {
    World([], [], Running, true, Top, 0, [])
  }

  /** `data` holds what the base64 of each standard-output chunk stands for. */
  ghost predicate Decoded(wire: seq<WireChunk>, data: seq<seq<byte>>)
  {
    |data| == |wire| && forall i :: 0 <= i < |wire| && wire[i].stream == Stdout ==>
        Base64.Encodes(data[i], wire[i].text)
  }

  /** The standard-output bytes of a page, in page order. */
  function Gather(wire: seq<WireChunk>, data: seq<seq<byte>>): seq<byte>
    requires |data| == |wire|
  {
    if wire == [] then []
    else (if wire[0].stream == Stdout then data[0] else []) + Gather(wire[1..], data[1..])
  }

  predicate Over(place: Place)
  {
    place.Returned? || place.Thrown?
  }

  ghost predicate Enabled(w: World, e: Event)
  {
    match e
    case Write(_, _) => w.state == Running
    case End(outcome) => w.state == Running && outcome != Running
    case SlotReused => w.state != Running
    case PollStatus => w.place.Top?
    case PollOutput(wire) =>
      w.place.Asked? && (w.present ==> OnWire(PageOf(w.log, w.after, CHUNKS).chunks, wire))
    case TakeIn(data) => w.place.Paged? && Decoded(w.place.wire, data)
    case GiveUp => !Over(w.place)
  }

  /** What one step does.  A job whose slot was reused answers every poll with an error. */
  function Next(w: World, e: Event): World
    requires e.TakeIn? ==> w.place.Paged? && |e.data| == |w.place.wire|
    requires e.PollOutput? ==> w.place.Asked?
  {
    match e
    case Write(stream, bytes) =>
      w.(log := w.log + Cut(stream, bytes, |w.log|),
         stdout := w.stdout + if stream == Stdout then bytes else [])
    case End(outcome) => w.(state := outcome)
    case SlotReused => w.(present := false)
    case PollStatus => w.(place := if w.present then Asked(w.state) else Thrown)
    case PollOutput(wire) =>
      if w.present then
        var page := PageOf(w.log, w.after, CHUNKS);
        w.(place := Paged(w.place.status, wire, page.nextSeq, page.truncated, |w.log|))
      else w.(place := Thrown)
    case TakeIn(data) =>
      var page := w.place;
      if page.truncated then w.(place := Thrown)
      else
        var taken := w.(collected := w.collected + Gather(page.wire, data));
        if page.nextSeq != w.after && page.wire != [] then
          taken.(after := page.nextSeq, place := Asked(page.status))
        else
          taken.(place := match page.status
                          case Running => Top
                          case Completed => Returned
                          case _ => Thrown)
    case GiveUp => w.(place := Thrown)
  }

  ghost predicate Run(from: World, events: seq<Event>, to: World)
    decreases |events|
  {
    if events == [] then from == to
    else Enabled(from, events[0]) && Run(Next(from, events[0]), events[1..], to)
  }

  // ---------------------------------------------------------------------
  // What every step keeps.
  // ---------------------------------------------------------------------

  /** A state reported as final is the job's state for good. */
  predicate Settled(status: JobState, w: World)
  {
    status != Running ==> w.state == status
  }

  /** The page in hand is the one the ring gave when it had `asOf` chunks; once the job was
      reported ended that is all of them. */
  ghost predicate HoldsPage(w: World)
    requires w.place.Paged?
  {
    var p := w.place;
    && w.after <= p.asOf <= |w.log| && (p.status != Running ==> p.asOf == |w.log|)
    && var page := PageOf(w.log[..p.asOf], w.after, CHUNKS);
       OnWire(page.chunks, p.wire) && p.nextSeq == page.nextSeq && p.truncated == page.truncated
  }

  ghost predicate Inv(w: World)
  {
    && Numbered(w.log, 0) && StreamBytes(w.log, Stdout) == w.stdout && w.after <= |w.log|
    && (w.place.Asked? ==> Settled(w.place.status, w))
    && (w.place.Paged? ==> Settled(w.place.status, w) && HoldsPage(w))
    && (!Over(w.place) ==> w.collected == StreamBytes(w.log[..w.after], Stdout))
    && (w.place.Returned? ==> w.state == Completed && w.collected == w.stdout && |w.log| <= CHUNKS)
  }

  lemma {:induction false} NumberedPrefix(log: seq<Chunk>, first: nat, n: nat)
    requires Numbered(log, first) && n <= |log|
    ensures Numbered(log[..n], first)
    decreases n
  {
    if n > 0 {
      NumberedPrefix(log[1..], first + 1, n - 1);
      assert log[..n][1..] == log[1..][..n - 1];
    }
  }

  /** Decoding a page gives back the standard-output bytes of the chunks it was made from. */
  lemma {:induction false} GatherIsStream(chunks: seq<Chunk>, wire: seq<WireChunk>, data: seq<seq<byte>>)
    requires OnWire(chunks, wire) && Decoded(wire, data)
    ensures Gather(wire, data) == StreamBytes(chunks, Stdout)
    decreases |chunks|
  {
    if chunks != [] {
      assert Sends(chunks[0], wire[0]);
      if wire[0].stream == Stdout {
        Base64.MeaningIsUnique(chunks[0].data, data[0], wire[0].text);
      }
      var rest := chunks[1..];
      forall i | 0 <= i < |rest| ensures Sends(rest[i], wire[1..][i]) {
        assert Sends(chunks[i + 1], wire[i + 1]);
      }
      GatherIsStream(rest, wire[1..], data[1..]);
    }
  }

  lemma WriteKeeps(w: World, stream: Stream, bytes: seq<byte>)
    requires Inv(w) && Enabled(w, Write(stream, bytes))
    ensures Inv(Next(w, Write(stream, bytes)))
  {
    var more := Cut(stream, bytes, |w.log|);
    CutNumbered(stream, bytes, |w.log|);
    NumberedJoins(w.log, more, 0);
    StreamJoins(w.log, more, Stdout);
    CutCarriesAll(stream, bytes, |w.log|, Stdout);
    assert (w.log + more)[..w.after] == w.log[..w.after];
    if w.place.Paged? {
      assert (w.log + more)[..w.place.asOf] == w.log[..w.place.asOf];
    }
  }

  /** A page that is not truncated is exactly the chunks between the client's position and the
      end of the log as it then was. */
  lemma PageIsWhole(w: World)
    requires Inv(w) && w.place.Paged? && !w.place.truncated
    ensures w.place.nextSeq == w.place.asOf
    ensures OnWire(w.log[w.after..w.place.asOf], w.place.wire)
  {
    var seen := w.log[..w.place.asOf];
    NumberedPrefix(w.log, 0, w.place.asOf);
    PageIsTail(seen, w.after);
    assert seen[w.after..] == w.log[w.after..w.place.asOf];
  }

  /** Taking a page in moves the client exactly to the end of the log as the page saw it. */
  lemma Collected(w: World, data: seq<seq<byte>>)
    requires Inv(w) && Enabled(w, TakeIn(data)) && !w.place.truncated
    ensures w.collected + Gather(w.place.wire, data) == StreamBytes(w.log[..w.place.asOf], Stdout)
    ensures w.place.wire == [] ==> w.place.asOf == w.after
    ensures w.place.asOf <= CHUNKS
  {
    var upTo := w.place.asOf;
    var taken := w.log[w.after..upTo];
    PageIsWhole(w);
    GatherIsStream(taken, w.place.wire, data);
    StreamJoins(w.log[..w.after], taken, Stdout);
    assert w.log[..w.after] + taken == w.log[..upTo];
  }

  lemma TakeInKeeps(w: World, data: seq<seq<byte>>)
    requires Inv(w) && Enabled(w, TakeIn(data))
    ensures Inv(Next(w, TakeIn(data)))
  {
    if !w.place.truncated {
      Collected(w, data);
      PageIsWhole(w);
      assert w.log[..|w.log|] == w.log;
    }
  }

  lemma StepKeeps(w: World, e: Event)
    requires Inv(w) && Enabled(w, e)
    ensures Inv(Next(w, e))
  {
    match e
    case Write(stream, bytes) => WriteKeeps(w, stream, bytes);
    case TakeIn(data) => TakeInKeeps(w, data);
    case PollOutput(wire) =>
      assert w.log[..|w.log|] == w.log;
    case _ =>
  }

  lemma {:induction false} RunKeeps(from: World, events: seq<Event>, to: World)
    requires Inv(from) && Run(from, events, to)
    ensures Inv(to)
    decreases |events|
  {
    if events != [] {
      StepKeeps(from, events[0]);
      RunKeeps(Next(from, events[0]), events[1..], to);
    }
  }

  /** Whatever the worker and the client do in whatever order: when the client returns, the job
      completed, nothing was ever given up, and the client has every byte the job wrote on standard
      output, in order, once. */
  lemma DrainIsComplete(events: seq<Event>, w: World)
    requires Run(Start(), events, w) && w.place.Returned?
    ensures w.state == Completed && w.collected == w.stdout && |w.log| <= CHUNKS
  {
    RunKeeps(Start(), events, w);
  }

  // ---------------------------------------------------------------------
  // The other way round: a completed job that fitted the ring is drained.
  // ---------------------------------------------------------------------

  ghost predicate Drainable(w: World)
  {
    w.state == Completed && w.present && |w.log| <= CHUNKS
  }

  predicate Polls(e: Event)
  {
    e.PollStatus? || e.PollOutput? || e.TakeIn?
  }

  /** An upper bound on the polls still to come. */
  function Rank(w: World): nat
  {
    var behind := if w.after < |w.log| then 2 else 0;
    match w.place
    case Top => 5
    case Asked(status) => (if status == Running then 10 else 0) + 2 + behind
    case Paged(status, _, _, _, asOf) =>
      (if status == Running then 10 else 0)
      + if asOf > w.after then 3 + (if asOf < |w.log| then 2 else 0) else 1
    case _ => 0
  }

  lemma PageAdvances(w: World, wire: seq<WireChunk>)
    requires Inv(w) && Drainable(w) && Enabled(w, PollOutput(wire))
    ensures var n := Next(w, PollOutput(wire)); !n.place.Thrown? && Rank(n) < Rank(w)
  {
    PageIsTail(w.log, w.after);
  }

  lemma TakeInAdvances(w: World, data: seq<seq<byte>>)
    requires Inv(w) && Drainable(w) && Enabled(w, TakeIn(data))
    ensures var n := Next(w, TakeIn(data)); !n.place.Thrown? && Rank(n) < Rank(w)
  {
    var p := w.place;
    assert !p.truncated && p.nextSeq == p.asOf && |p.wire| == p.asOf - w.after by {
      NumberedPrefix(w.log, 0, p.asOf);
      PageIsTail(w.log[..p.asOf], w.after);
    }
  }

  lemma PollAdvances(w: World, e: Event)
    requires Inv(w) && Drainable(w) && Polls(e) && Enabled(w, e)
    ensures var n := Next(w, e); Drainable(n) && !n.place.Thrown? && Rank(n) < Rank(w)
  {
    match e
    case PollStatus =>
    case PollOutput(wire) => PageAdvances(w, wire);
    case TakeIn(data) => TakeInAdvances(w, data);
  }

  /** Every page can be sent. */
  lemma {:induction false} PageHasWire(chunks: seq<Chunk>)
    ensures exists wire :: OnWire(chunks, wire)
    decreases |chunks|
  {
    var wire: seq<WireChunk> := [];
    if chunks != [] {
      var n := |chunks| - 1;
      PageHasWire(chunks[..n]);
      var front :| OnWire(chunks[..n], front);
      Base64.HasEncoding(chunks[n].data);
      var text: CText :| Base64.Encodes(chunks[n].data, text);
      wire := front + [WireChunk(chunks[n].sequence, chunks[n].stream, text)];
      OnWireAppends(chunks[..n], front, chunks[n], wire[n]);
      assert chunks[..n] + [chunks[n]] == chunks;
    }
    assert OnWire(chunks, wire);
  }

  /** And taken in. */
  lemma PageHasData(w: World)
    requires Inv(w) && w.place.Paged?
    ensures exists data :: Decoded(w.place.wire, data)
  {
    var chunks := PageOf(w.log[..w.place.asOf], w.after, CHUNKS).chunks;
    var data := seq(|chunks|, i requires 0 <= i < |chunks| => chunks[i].data);
    forall i | 0 <= i < |chunks| && w.place.wire[i].stream == Stdout
      ensures Base64.Encodes(data[i], w.place.wire[i].text)
    {
      assert Sends(chunks[i], w.place.wire[i]);
    }
    assert Decoded(w.place.wire, data);
  }

  /** A client that is not done can poll. */
  lemma CanPoll(w: World)
    requires Inv(w) && !Over(w.place)
    ensures exists e :: Polls(e) && Enabled(w, e)
  {
    match w.place
    case Top =>
      assert Enabled(w, PollStatus);
    case Asked(_) =>
      PageHasWire(PageOf(w.log, w.after, CHUNKS).chunks);
      var wire :| OnWire(PageOf(w.log, w.after, CHUNKS).chunks, wire);
      assert Enabled(w, PollOutput(wire));
    case Paged(_, _, _, _, _) =>
      PageHasData(w);
      var data :| Decoded(w.place.wire, data);
      assert Enabled(w, TakeIn(data));
  }

  /** Left alone with a completed job of at most 128 chunks, the client polls at most fifteen more
      times; where it cannot poll any more it has returned, with everything the job wrote. */
  lemma {:induction false} DrainEnds(w: World, events: seq<Event>, end: World)
    requires Inv(w) && Drainable(w) && !w.place.Thrown?
    requires Run(w, events, end) && forall e :: e in events ==> Polls(e)
    ensures |events| <= Rank(w) <= 15
    ensures (end.place.Returned? && end.collected == w.stdout) ||
            (!Over(end.place) && exists e :: Polls(e) && Enabled(end, e))
    decreases |events|
  {
    if events == [] {
      if !Over(w.place) { CanPoll(w); }
    } else {
      var n := Next(w, events[0]);
      assert events[0] in events;
      PollAdvances(w, events[0]);
      StepKeeps(w, events[0]);
      DrainEnds(n, events[1..], end);
    }
  }
}
