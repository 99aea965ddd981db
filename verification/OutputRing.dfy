/** The job output ring of core/src/rpc.c: 128 chunks of at most 4096 bytes, written by the job
    and paged out by `job.output`. */
module OutputRing {
  import opened Bytes
  import Base64

  const CHUNKS: nat := 128
  const CHUNK_BYTES: nat := 4096

  datatype Stream = Stdout | Stderr
  datatype Chunk = Chunk(sequence: nat, stream: Stream, data: seq<byte>)

  /** A chunk as `job.output` sends it, its data in base64. */
  datatype WireChunk = WireChunk(sequence: nat, stream: Stream, text: CText)
  datatype Page = Page(chunks: seq<Chunk>, nextSeq: nat, truncated: bool)

  // ---------------------------------------------------------------------
  // The ring as a function of everything ever written.
  // ---------------------------------------------------------------------

  /** Output cut into chunks, numbered from `next` on. */
  function Cut(stream: Stream, bytes: seq<byte>, next: nat): seq<Chunk>
    decreases |bytes|
  {
    if bytes == [] then []
    else
      var take := if |bytes| > CHUNK_BYTES then CHUNK_BYTES else |bytes|;
      [Chunk(next + 1, stream, bytes[..take])] + Cut(stream, bytes[take..], next + 1)
  }

  /** The bytes of one stream in a run of chunks. */
  function StreamBytes(log: seq<Chunk>, stream: Stream): seq<byte>
  {
    if log == [] then []
    else (if log[0].stream == stream then log[0].data else []) + StreamBytes(log[1..], stream)
  }

  /** Chunks are numbered `first` + 1, `first` + 2, ... and carry 1 to 4096 bytes. */
  ghost predicate Numbered(log: seq<Chunk>, first: nat)
    decreases |log|
  {
    log == [] ||
    (log[0].sequence == first + 1 && 1 <= |log[0].data| <= CHUNK_BYTES && Numbered(log[1..], first + 1))
  }

  /** What the ring still holds: the oldest chunks are given up until 128 remain. */
  function Held(log: seq<Chunk>): seq<Chunk>
    decreases |log|
  {
    if |log| <= CHUNKS then log else Held(log[1..])
  }

  lemma {:induction false} HeldIsSuffix(log: seq<Chunk>)
    ensures Held(log) == if |log| <= CHUNKS then log else log[|log| - CHUNKS..]
    decreases |log|
  {
    if |log| > CHUNKS {
      HeldIsSuffix(log[1..]);
    }
  }

  /** The chunks of a listing numbered above `after`, at most `limit` of them. */
  function Select(held: seq<Chunk>, after: nat, limit: nat): seq<Chunk>
  {
    if held == [] || limit == 0 then []
    else if held[0].sequence <= after then Select(held[1..], after, limit)
    else [held[0]] + Select(held[1..], after, limit - 1)
  }

  function LastSequence(chunks: seq<Chunk>, after: nat): nat
  {
    if chunks == [] then after else chunks[|chunks| - 1].sequence
  }

  /** The reply of `job.output`. */
  function PageOf(log: seq<Chunk>, after: nat, limit: nat): Page
  {
    var chunks := Select(Held(log), after, limit);
    Page(chunks, LastSequence(chunks, after), |log| > CHUNKS)
  }

  lemma {:induction false} StreamJoins(a: seq<Chunk>, b: seq<Chunk>, stream: Stream)
    ensures StreamBytes(a + b, stream) == StreamBytes(a, stream) + StreamBytes(b, stream)
  {
    if a == [] {
      assert a + b == b;
    } else {
      assert (a + b)[1..] == a[1..] + b;
      StreamJoins(a[1..], b, stream);
    }
  }

  /** Cutting loses and reorders nothing. */
  lemma {:induction false} CutCarriesAll(stream: Stream, bytes: seq<byte>, next: nat, of: Stream)
    ensures StreamBytes(Cut(stream, bytes, next), of) == if of == stream then bytes else []
    decreases |bytes|
  {
    if bytes != [] {
      var take := if |bytes| > CHUNK_BYTES then CHUNK_BYTES else |bytes|;
      CutCarriesAll(stream, bytes[take..], next + 1, of);
      assert Cut(stream, bytes, next)[1..] == Cut(stream, bytes[take..], next + 1);
      assert bytes == bytes[..take] + bytes[take..];
    }
  }

  lemma {:induction false} CutNumbered(stream: Stream, bytes: seq<byte>, next: nat)
    ensures Numbered(Cut(stream, bytes, next), next)
    decreases |bytes|
  {
    if bytes != [] {
      var take := if |bytes| > CHUNK_BYTES then CHUNK_BYTES else |bytes|;
      CutNumbered(stream, bytes[take..], next + 1);
      assert Cut(stream, bytes, next)[1..] == Cut(stream, bytes[take..], next + 1);
    }
  }

  lemma {:induction false} NumberedJoins(a: seq<Chunk>, b: seq<Chunk>, first: nat)
    requires Numbered(a, first) && Numbered(b, first + |a|)
    ensures Numbered(a + b, first)
    decreases |a|
  {
    if a == [] {
      assert a + b == b;
    } else {
      NumberedJoins(a[1..], b, first + 1);
      assert (a + b)[1..] == a[1..] + b;
    }
  }

  /** While nothing has been evicted, a page from the end of `seen` is everything written since. */
  lemma {:induction false} SelectIsTail(seen: seq<Chunk>, rest: seq<Chunk>, first: nat, limit: nat)
    requires Numbered(seen + rest, first) && |seen + rest| <= limit
    ensures Select(seen + rest, first + |seen|, limit) == rest
    decreases |seen|
  {
    if seen == [] {
      assert seen + rest == rest;
      AllSelected(rest, first, first, limit);
    } else {
      assert (seen + rest)[1..] == seen[1..] + rest;
      SelectIsTail(seen[1..], rest, first + 1, limit);
    }
  }

  lemma {:induction false} AllSelected(held: seq<Chunk>, first: nat, after: nat, limit: nat)
    requires Numbered(held, first) && |held| <= limit && after <= first
    ensures Select(held, after, limit) == held
    decreases |held|
  {
    if held != [] {
      AllSelected(held[1..], first + 1, after, limit - 1);
      assert held == [held[0]] + held[1..];
    }
  }

  lemma {:induction false} NumberedAt(log: seq<Chunk>, first: nat, i: nat)
    requires Numbered(log, first) && i < |log|
    ensures log[i].sequence == first + i + 1 && 1 <= |log[i].data| <= CHUNK_BYTES
    decreases i
  {
    if i > 0 {
      NumberedAt(log[1..], first + 1, i - 1);
    }
  }

  lemma PageIsTail(log: seq<Chunk>, after: nat)
    requires Numbered(log, 0) && |log| <= CHUNKS && after <= |log|
    ensures PageOf(log, after, CHUNKS) == Page(log[after..], |log|, false)
  {
    assert log == log[..after] + log[after..];
    SelectIsTail(log[..after], log[after..], 0, CHUNKS);
    if after < |log| {
      NumberedAt(log, 0, |log| - 1);
      assert log[after..][|log[after..]| - 1] == log[|log| - 1];
    }
  }

  lemma NothingSelected(held: seq<Chunk>, i: nat, after: nat, limit: nat)
    requires i == |held| || (limit == 0 && i <= |held|)
    ensures Select(held[i..], after, limit) == []
  {
  }

  /** One chunk looked at while a page is filled. */
  lemma SelectStep(held: seq<Chunk>, i: nat, after: nat, limit: nat, sent: seq<Chunk>)
    requires i < |held| && |sent| < limit
    ensures sent + Select(held[i..], after, limit - |sent|) ==
            if held[i].sequence <= after then sent + Select(held[i + 1..], after, limit - |sent|)
            else sent + [held[i]] + Select(held[i + 1..], after, limit - |sent| - 1)
  {
    assert held[i..][0] == held[i] && held[i..][1..] == held[i + 1..];
    var rest := Select(held[i + 1..], after, limit - |sent| - 1);
    assert sent + ([held[i]] + rest) == sent + [held[i]] + rest;
  }

  // ---------------------------------------------------------------------
  // The ring itself.
  // ---------------------------------------------------------------------

  function Wrap(i: nat): (w: nat)
    requires i < 2 * CHUNKS
    ensures w < CHUNKS
  {
    if i < CHUNKS then i else i - CHUNKS
  }

  /** `count` slots from `start` on, cyclically. */
  function Contents(slots: seq<Chunk>, start: nat, count: nat): (held: seq<Chunk>)
    requires |slots| == CHUNKS && start < CHUNKS && count <= CHUNKS
    ensures |held| == count
  {
    seq(count, i requires 0 <= i < count => slots[Wrap(start + i)])
  }

  /** Writing the first free slot appends to the contents. */
  lemma AppendContents(slots: seq<Chunk>, start: nat, count: nat, c: Chunk)
    requires |slots| == CHUNKS && start < CHUNKS && count < CHUNKS
    ensures Contents(slots[Wrap(start + count) := c], start, count + 1) == Contents(slots, start, count) + [c]
  {
    var now := slots[Wrap(start + count) := c];
    forall i | 0 <= i < count ensures Contents(now, start, count + 1)[i] == Contents(slots, start, count)[i] {
      assert now[Wrap(start + i)] == slots[Wrap(start + i)];
    }
  }

  /** Moving the start gives up the oldest. */
  lemma EvictContents(slots: seq<Chunk>, start: nat, count: nat)
    requires |slots| == CHUNKS && start < CHUNKS && 0 < count <= CHUNKS
    ensures Contents(slots, Wrap(start + 1), count - 1) == Contents(slots, start, count)[1..]
  {
    var rest := Contents(slots, Wrap(start + 1), count - 1);
    forall i | 0 <= i < count - 1 ensures rest[i] == Contents(slots, start, count)[i + 1] {
      assert Wrap(Wrap(start + 1) + i) == Wrap(start + (i + 1));
    }
  }

  /** The ring as a value: its slots and counters. */
  datatype Ring = Ring(slots: seq<Chunk>, start: nat, count: nat, last: nat, truncated: bool) {
    predicate Sound() {
      |slots| == CHUNKS && start < CHUNKS && count <= CHUNKS
    }

    /** One chunk goes into the slot after the newest, the oldest being given up when all slots
        are taken. */
    function Put(stream: Stream, data: seq<byte>): (r: Ring)
      requires Sound()
      ensures r.Sound()
    {
      var full := count == CHUNKS;
      var first := if full then Wrap(start + 1) else start;
      var kept := if full then count - 1 else count;
      Ring(slots[Wrap(first + kept) := Chunk(last + 1, stream, data)], first, kept + 1, last + 1, truncated || full)
    }

    /** Output put in chunk by chunk. */
    function Write(stream: Stream, bytes: seq<byte>): (r: Ring)
      requires Sound()
      ensures r.Sound()
      decreases |bytes|
    {
      if bytes == [] then this
      else
        var take := if |bytes| > CHUNK_BYTES then CHUNK_BYTES else |bytes|;
        Put(stream, bytes[..take]).Write(stream, bytes[take..])
    }

    /** The ring stands for everything ever written: it holds the last 128 chunks of it. */
    ghost predicate Stands(log: seq<Chunk>)
      requires Sound()
    {
      && Contents(slots, start, count) == Held(log) && last == |log|
      && (truncated <==> |log| > CHUNKS) && Numbered(log, 0)
    }
  }

  lemma {:induction false} HeldGrows(log: seq<Chunk>, c: Chunk)
    ensures |Held(log)| <= CHUNKS
    ensures Held(log + [c]) == if |Held(log)| == CHUNKS then Held(log)[1..] + [c] else Held(log) + [c]
    ensures |Held(log)| == CHUNKS <==> |log| >= CHUNKS
    decreases |log|
  {
    if |log| > CHUNKS {
      assert (log + [c])[1..] == log[1..] + [c];
      HeldGrows(log[1..], c);
    } else if |log| == CHUNKS {
      assert (log + [c])[1..] == log[1..] + [c];
    }
  }

  /** The slot after the newest takes the new chunk. */
  lemma PutContents(ring: Ring, stream: Stream, data: seq<byte>)
    requires ring.Sound()
    ensures var r := ring.Put(stream, data);
            var held := Contents(ring.slots, ring.start, ring.count);
            Contents(r.slots, r.start, r.count) ==
              (if ring.count == CHUNKS then held[1..] else held) + [Chunk(ring.last + 1, stream, data)]
  {
    var c := Chunk(ring.last + 1, stream, data);
    if ring.count == CHUNKS {
      EvictContents(ring.slots, ring.start, ring.count);
      AppendContents(ring.slots, Wrap(ring.start + 1), ring.count - 1, c);
    } else {
      AppendContents(ring.slots, ring.start, ring.count, c);
    }
  }

  lemma PutStands(ring: Ring, log: seq<Chunk>, stream: Stream, data: seq<byte>)
    requires ring.Sound() && ring.Stands(log) && 1 <= |data| <= CHUNK_BYTES
    ensures ring.Put(stream, data).Stands(log + [Chunk(|log| + 1, stream, data)])
  {
    var c := Chunk(|log| + 1, stream, data);
    NumberedJoins(log, [c], 0);
    HeldGrows(log, c);
    PutContents(ring, stream, data);
  }

  /** Writing extends the log by the cut of the bytes, for any ring and any output. */
  lemma {:induction false} WriteStands(ring: Ring, log: seq<Chunk>, stream: Stream, bytes: seq<byte>)
    requires ring.Sound() && ring.Stands(log)
    ensures ring.Write(stream, bytes).Stands(log + Cut(stream, bytes, |log|))
    decreases |bytes|
  {
    if bytes == [] {
      assert log + [] == log;
    } else {
      var take := if |bytes| > CHUNK_BYTES then CHUNK_BYTES else |bytes|;
      var c := Chunk(|log| + 1, stream, bytes[..take]);
      var next, rest := ring.Put(stream, bytes[..take]), Cut(stream, bytes[take..], |log| + 1);
      PutStands(ring, log, stream, bytes[..take]);
      WriteStands(next, log + [c], stream, bytes[take..]);
      Regroup(log, [c], rest);
      assert Cut(stream, bytes, |log|) == [c] + rest;
    }
  }

  class JobOutput {
    var output: array<Chunk>
    var outputStart: nat
    var outputCount: nat
    var nextOutputSequence: nat
    var outputTruncated: bool

    ghost function State(): Ring
      reads this, output
    {
      Ring(output[..], outputStart, outputCount, nextOutputSequence, outputTruncated)
    }

    ghost predicate Valid()
      reads this, output
    {
      State().Sound()
    }

    constructor ()
      ensures Valid() && fresh(output) && State().Stands([])
    {
      output := new Chunk[CHUNKS](_ => Chunk(0, Stdout, []));
      outputStart, outputCount, nextOutputSequence, outputTruncated := 0, 0, 0, false;
    }

    /** One chunk into the ring, over the oldest one when it is full. */
    method Put(stream: Stream, data: seq<byte>)
      requires Valid()
      modifies this`outputStart, this`outputCount, this`nextOutputSequence, this`outputTruncated, output
      ensures Valid() && State() == old(State()).Put(stream, data)
    {
      ghost var slots := output[..];
      if outputCount == CHUNKS {
        outputStart := Wrap(outputStart + 1);
        outputCount := outputCount - 1;
        outputTruncated := true;
      }
      var index := Wrap(outputStart + outputCount);
      nextOutputSequence := nextOutputSequence + 1;
      output[index] := Chunk(nextOutputSequence, stream, data);
      outputCount := outputCount + 1;
      assert output[..] == slots[index := Chunk(nextOutputSequence, stream, data)];
    }

    /** `job_output`. */
    method Write(stream: Stream, bytes: seq<byte>)
      requires Valid()
      modifies this`outputStart, this`outputCount, this`nextOutputSequence, this`outputTruncated, output
      ensures Valid() && State() == old(State()).Write(stream, bytes)
    {
      var offset := 0;
      ghost var goal := State().Write(stream, bytes);
      assert bytes[0..] == bytes;
      while offset < |bytes|
        invariant 0 <= offset <= |bytes| && Valid() && output == old(output)
        invariant State().Write(stream, bytes[offset..]) == goal
      {
        var take := |bytes| - offset;
        if take > CHUNK_BYTES { take := CHUNK_BYTES; }
        assert bytes[offset..][..take] == bytes[offset..offset + take]
            && bytes[offset..][take..] == bytes[offset + take..];
        Put(stream, bytes[offset..offset + take]);
        offset := offset + take;
      }
    }

    /** `job.output`: what is sent, and the page it stands for. */
    method Output(after: nat, limit: nat, ghost log: seq<Chunk>)
      returns (wire: seq<WireChunk>, nextSeq: nat, truncated: bool)
      requires Valid() && State().Stands(log)
      ensures var page := PageOf(log, after, limit);
              && nextSeq == page.nextSeq && truncated == page.truncated && OnWire(page.chunks, wire)
    {
      wire, nextSeq := [], after;
      ghost var held, sent: seq<Chunk> := Contents(output[..], outputStart, outputCount), [];
      ghost var answer := Select(held, after, limit);
      var i := 0;
      assert held[0..] == held && [] + answer == answer;
      while i < outputCount && |wire| < limit
        invariant 0 <= i <= outputCount == |held| && |sent| == |wire| <= limit
        invariant answer == sent + Select(held[i..], after, limit - |sent|)
        invariant OnWire(sent, wire) && nextSeq == LastSequence(sent, after)
      {
        var chunk := output[Wrap(outputStart + i)];
        assert chunk == held[i];
        SelectStep(held, i, after, limit, sent);
        if chunk.sequence > after {
          var text := Base64.EncodeBytes(chunk.data);
          Base64.NoNul(chunk.data, text);
          OnWireAppends(sent, wire, chunk, WireChunk(chunk.sequence, chunk.stream, text));
          wire, sent := wire + [WireChunk(chunk.sequence, chunk.stream, text)], sent + [chunk];
          nextSeq := chunk.sequence;
        }
        i := i + 1;
      }
      NothingSelected(held, i, after, limit - |sent|);
      assert sent + [] == sent;
      return wire, nextSeq, outputTruncated;
    }
  }

  /** Number and stream unchanged, data in base64. */
  ghost predicate Sends(chunk: Chunk, wire: WireChunk)
  {
    chunk.sequence == wire.sequence && chunk.stream == wire.stream && Base64.Encodes(chunk.data, wire.text)
  }

  ghost predicate OnWire(chunks: seq<Chunk>, wire: seq<WireChunk>)
  {
    |chunks| == |wire| && forall i :: 0 <= i < |chunks| ==> Sends(chunks[i], wire[i])
  }

  lemma OnWireAppends(chunks: seq<Chunk>, wire: seq<WireChunk>, c: Chunk, w: WireChunk)
    requires OnWire(chunks, wire) && Sends(c, w)
    ensures OnWire(chunks + [c], wire + [w])
  {
  }
}
