/** How a scan or search job writes its JSON lines: gathered into batches of 3584 bytes, so that a
    chunk of the output ring carries many lines (core/src/rpc.c). */
module JobLines {
  import opened Bytes

  const BATCH: nat := 3584

  /** Few writes for the length: two per 3584 bytes, and one. */
  predicate Batched(writes: seq<seq<byte>>)
  {
    BATCH * |writes| <= 2 * |Flatten(writes)| + BATCH
  }

  /** The batch buffer and the writes made so far. */
  class Batcher {
    var batch: array<byte>
    var used: nat
    var writes: seq<seq<byte>>

    ghost predicate Valid()
      reads this, batch
    {
      batch.Length == BATCH && used <= BATCH && BATCH * |writes| <= 2 * |Flatten(writes)| + used
    }

    /** Everything handed over so far, written or still in the batch. */
    ghost function Sent(): seq<byte>
      requires Valid()
      reads this, batch
    {
      Flatten(writes) + batch[..used]
    }

    constructor ()
      ensures Valid() && fresh(batch) && Sent() == []
    {
      batch := new byte[BATCH];
      used, writes := 0, [];
    }

    method Flush()
      requires batch.Length == BATCH && used <= BATCH
      modifies this`used, this`writes
      ensures used == 0 && writes == old(writes + [batch[..used]])
      ensures Flatten(writes) == old(Flatten(writes) + batch[..used])
    {
      FlattenGrows(writes, batch[..used]);
      writes, used := writes + [batch[..used]], 0;
    }

    /** `memcpy(batch + used, line, length)`. */
    method Copy(line: seq<byte>)
      requires batch.Length == BATCH && used + |line| <= BATCH
      modifies this`used, batch
      ensures used == old(used) + |line| && batch[..used] == old(batch[..used]) + line
    {
      forall i | 0 <= i < |line| { batch[used + i] := line[i]; }
      used := used + |line|;
    }

    method AddLine(line: seq<byte>)
      requires Valid()
      modifies this`used, this`writes, batch
      ensures Valid() && Sent() == old(Sent()) + line
    {
      if |line| > BATCH - used {
        Flush();
      }
      if |line| >= BATCH {
        FlattenGrows(writes, line);
        writes := writes + [line];
      } else {
        Copy(line);
      }
    }

    /** The last line, kept under 256 bytes. */
    method AddSummary(summary: seq<byte>)
      requires Valid() && |summary| < 256
      modifies this`used, this`writes, batch
      ensures Valid() && Sent() == old(Sent()) + summary
    {
      if BATCH - used <= |summary| {
        Flush();
      }
      Copy(summary);
    }
  }

  /** The whole write-out.  `cancelSeen` is the number of the first look at the cancel flag that
      finds it set: look `i` comes after line `i`, the last one before the summary. */
  method WriteOut(lines: seq<seq<byte>>, summary: seq<byte>, cancelSeen: nat) returns (writes: seq<seq<byte>>)
    requires |summary| < 256
    ensures Flatten(writes) == if cancelSeen < |lines| then Flatten(lines[..cancelSeen + 1])
                              else Flatten(lines) + if cancelSeen == |lines| then [] else summary
    ensures Batched(writes)
  {
    var out := new Batcher();
    var i := 0;
    while i < |lines|
      invariant 0 <= i <= |lines| && i <= cancelSeen && fresh(out) && fresh(out.batch) && out.Valid()
      invariant out.Sent() == Flatten(lines[..i])
    {
      assert lines[..i + 1] == lines[..i] + [lines[i]];
      FlattenGrows(lines[..i], lines[i]);
      out.AddLine(lines[i]);
      if cancelSeen == i {
        break;
      }
      i := i + 1;
    }
    assert lines[..|lines|] == lines;
    if cancelSeen > |lines| {
      out.AddSummary(summary);
    }
    if out.used > 0 {
      out.Flush();
    }
    writes := out.writes;
  }
}
