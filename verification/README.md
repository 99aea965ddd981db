# OpenWebCode core: a verified model

OpenWebCode runs commands, searches and file operations in a C executor (`core/src`) that a Node
server reaches over JSON-RPC (`server/src/core-client.ts`). This project models the parts of the
two that carry state or have to agree with each other, and proves what they promise: the executor's
thread pools and tables, its JSON, base64, UTF-8 and SHA-256 code, its matching, path and scan code,
the client's connection and queue logic, and the cron scheduler of the server.

Two forms are used side by side.

* Sequential code keeps its shape. Loops over buffers are methods with invariants, and objects that
  are updated in place are classes (`Sha256.Hash`, `KeySet.Keys`, `JsonParser.Parser`,
  `ExecQueue.ExecPool`, `OutputRing.JobOutput`, `Sessions.Registry`, `CoreClient.Core`,
  `CronJobs.Scheduler`). Each is proved equal to a function or relation that says what is computed,
  and lemmas say what that function means.
* Code that runs concurrently is a state machine whose steps are the critical sections of the C
  code or the synchronous turns of the JavaScript code. Invariants hold over every sequence of
  steps.

`dafny verify dfyconfig.toml` checks everything.

| files | subject |
|---|---|
| `Bytes` | bytes, C strings, `strcmp` order |
| `Glob` | `*` and `?` matching |
| `Utf8`, `Base64`, `Sha256`, `FileHash` | encodings and hashing |
| `FsEdit`, `FsScan`, `PathPolicy` | text edits, directory scans, path policy |
| `JsonText`, `JsonParser`, `KeySet` | what the JSON parser computes, the parser itself, duplicate keys |
| `JsonNumbers`, `JsonGrammar`, `JsonAccepted`, `JsonRoundTrip` | the grammar of RFC 8259 apart from the parser, their agreement, printing and reading back |
| `ExecLists`, `ExecQueue`, `ExecProtocol` | the `exec.run` pool: lists in memory, and as a protocol |
| `OutputRing`, `JobDrain`, `JobLines`, `JobFits` | job output from the worker's writes to the client's text |
| `GrepFile`, `GrepPool`, `SymbolDriver` | parallel search; the symbol extraction driver |
| `Sessions` | session, pty and watch tables |
| `CoreState`, `CoreInvariants`, `CoreScheduler`, `CoreRuns`, `CoreProgress`, `CoreClient` | the core client |
| `CronFields`, `CronNext`, `CronJobs` | the cron scheduler |

## Where the code does not do what is said of it

* Relative paths under a working directory made only of slashes lose the leading slash:
  `PathPolicy.RelativeKeepsRoot` gives the exact condition, `PathPolicy.RootLosesSlash` the case.
* The JSON parser skips C `isspace`, which is wider than section 2 of RFC 8259, and so accepts a
  vertical tab in front of a value (`JsonAccepted.VerticalTabAccepted`). An accepted text keeps to
  the white space of the RFC exactly when it holds neither a vertical tab nor a form feed:
  `JsonAccepted.StrictExactlyWhen`.
* A grep job for which no search thread can be created ends with no matches and no flag:
  `GrepPool.CompleteExactlyWhen` gives the exact condition, `GrepPool.NoThreadNoMatch` the case.
* The client says that it never gives up restarting the executor (server/src/core-client.ts:850-851),
  and guards the write of a call against an exception (server/src/core-client.ts:775-779). Should that
  exception come from the handshake call inside `start`, the executor is never started again:
  `CoreRuns.HandshakeWriteFailureIsFinal`, and over all runs it is the only way to lose the restart:
  `CoreRuns.RestartsExactlyWhen`. This is conditional: no way is known in which the write of
  `StdioTransport` (server/src/rpc/transport.ts:35-39) throws, because Node reports the errors of
  a stream later, as events.
* For a one-shot job loaded with a `lastFiredAt`, the time shown and the timer go by its creation,
  while the check goes by its last fire, so the timer can ring for a job that no check fires:
  `CronJobs.FiredOneShotIsNotDue` is such a job, `CronJobs.DueIsActionReachedExactlyWhen` says for
  every job and time when the two agree, and `CronJobs.AlwaysDueIsActionReachedExactlyWhen` for which
  jobs they always do. For every job the scheduler makes itself they do: `CronJobs.DueIsActionReached`.

## Model

| member | source | states |
|---|---|---|
| Glob.MatchPattern | core/src/fs.c:115-125 | the single-backtrack loop accepts exactly what the recursive meaning of `*` and `?` matches, within a step bound |
| Glob.StarIsAnyRun | core/src/fs.c:105-114 | a star matches iff some suffix of the value matches the rest of the pattern |
| Glob.StepLimitClosed | core/src/fs.c:109-113 | the step bound is less than (pattern length + 1) × (value length + 1) |
| Utf8.Valid | core/src/fs.c:15-28 | the validator accepts exactly the concatenations of encodings of non-zero Unicode scalar values (sections 3 and 4 of RFC 3629) |
| Utf8.EncodedIsText | core/src/json.c:36-41 | whatever `push_utf8` emits for such a value is accepted by the validator |
| Utf8.TextStep | core/src/fs.c:17-26 | text starting with one whole sequence is text iff what follows it is |
| Utf8.TextSplits | core/src/rpc.c:1534 | text cut where no continuation octet follows falls into two texts |
| Utf8.NoCutInside | core/src/rpc.c:1534 | conversely, a prefix that is text ends where no continuation octet follows |
| Utf8.CutIsText | core/src/symbol_extract.c:829-833 | stepping back over continuation octets gives the longest valid prefix within the limit, at most three octets shorter |
| Utf8.CutBack | core/src/rpc.c:1534 | the loop computes that cut |
| Base64.EncodeBytes | core/src/rpc.c:185-195 | the encoder's text spells the data group by group as section 4 of RFC 4648 lays it out |
| Base64.EncodingIsUnique | core/src/rpc.c:185-195 | data has one encoding only |
| Base64.MeaningIsUnique | core/src/rpc.c:940-991 | a text encodes at most one data |
| Base64.DecodeBounded | core/src/rpc.c:940-991 | the strict decoder returns d iff d is non-empty, within the size limit and the text is the encoding of d; so unused bits are zero and padding is in the last group only |
| Base64.DecodeGroup | core/src/rpc.c:955-986 | one group decodes exactly when some data has it as its group, and writes that data's octets |
| Base64.RoundTrip | core/src/rpc.c:185-195 | decoding what was encoded gives it back, whenever it is within the limit and not empty |
| Base64.HasEncoding | core/src/rpc.c:185-195 | every data has an encoding |
| Sha256.FoldJoins | core/src/fs.c:35 | compressing a concatenation is compressing the first part and going on with its remainder |
| Sha256.AbsorbJoins | core/src/fs.c:35 | feeding two pieces leaves the same state, byte count and buffer as feeding their concatenation |
| Sha256.ChunkingIrrelevant | core/src/fs.c:35 | any chunking of the same bytes gives the same state |
| Sha256.FinalIsPaddedFold | core/src/fs.c:36 | finalising any chunking of a message compresses exactly the padded message of section 5.1.1 of FIPS 180-4 |
| Sha256.PadIsBlocks | core/src/fs.c:36 | the padded message is a whole number of 64-byte blocks |
| Sha256.ExpandSchedule | core/src/fs.c:33 | the work array holds the message schedule of section 6.2.2 |
| Sha256.Hash.CompressBlock | core/src/fs.c:33 | the in-place block function is the compression function of section 6.2.2 |
| Sha256.Hash.Update | core/src/fs.c:35 | update absorbs the data and keeps fewer than 64 bytes buffered |
| Sha256.Hash.Final | core/src/fs.c:36 | finalisation absorbs the marker, the zeros and the length, and writes the digest in hexadecimal |
| FileHash.HashFile | core/src/fs.c:96 | the hash of a file's content, with the code's own constants, is the hexadecimal block fold of the padded content |
| FsEdit.EditFile | core/src/fs.c:79-94 | the checks and both passes give exactly the specified verdict, content and count, without overflow or underflow of the precomputed size |
| FsEdit.Count | core/src/fs.c:86 | the counting pass counts the left-to-right non-overlapping occurrences |
| FsEdit.OutputSize | core/src/fs.c:88-89 | the size computed in advance is the exact output length, or too large for a size |
| FsEdit.Rewrite | core/src/fs.c:92 | the rewriting pass fills the output exactly |
| FsEdit.PassesAgree | core/src/fs.c:86-92 | what the second pass writes is the replacement at the occurrences the first pass counted |
| FsEdit.OccurrencesComplete | core/src/fs.c:86 | no occurrence is missed unless it overlaps the chosen one before it |
| FsEdit.OccurrencesSound | core/src/fs.c:86 | every chosen position is an occurrence |
| FsEdit.SingleEditIsUnambiguous | core/src/fs.c:87 | a single edit replaces one occurrence, and every occurrence overlaps that one |
| FsEdit.EditKeepsText | core/src/fs.c:82-93 | an edited file is valid UTF-8 |
| PathPolicy.SessionPolicyPath | core/src/rpc.c:692-731 | the in-place byte-buffer normaliser computes the walk over components and never writes outside its allocation |
| PathPolicy.NormalizeAbsolute | core/src/rpc.c:697-727 | an absolute path is the fold of its components (`.` skipped, `..` pops), refused when empty or over 256 components |
| PathPolicy.NormalizeRelative | core/src/rpc.c:703-727 | a relative path under a working directory with at least one component is the fold starting from that directory; `..` refuses it |
| PathPolicy.RelativeKeepsRoot | core/src/rpc.c:703-704 | a relative result stays absolute iff the working directory has a byte that is not a separator |
| PathPolicy.RootLosesSlash | core/src/rpc.c:703-727 | `x` under `/` becomes `x` |
| PathPolicy.IsWithin | core/src/path_policy.c:15-31 | the byte loops compute the prefix test |
| PathPolicy.WithinIsComponentPrefix | core/src/path_policy.c:15-31 | on normalised paths the byte-prefix test is the component-prefix test |
| PathPolicy.PolicyCheck | core/src/path_policy.c:33-41 | allowed iff under no deny root and under some root of the permission |
| PathPolicy.SessionPathCheck | core/src/rpc.c:733 | the session check is the policy's verdict on the normalised path |
| PathPolicy.VerdictByComponents | core/src/path_policy.c:33-41 | being under some canonical root is having its components as a prefix |
| PathPolicy.AllowedByComponents | core/src/rpc.c:692-733 | for a working directory with at least one component and canonical roots: a path is allowed iff it leads somewhere, under some root of the permission and under no deny root, all said in components |
| KeySet.Keys.Ensure | core/src/json.c:112-126 | the rebuilt table holds exactly the indices of the keys so far, without gaps in probe chains and below half full |
| KeySet.Keys.Probe | core/src/json.c:129-137 | probing ends, answers whether the key is new, and keeps the table's meaning |
| KeySet.Keys.Duplicate | core/src/json.c:160-171 | hash path or linear path, the verdict is whether the key occurs already |
| KeySet.AcceptKeys | core/src/json.c:154-172 | for every sequence of keys and every pattern of failed table allocations, the keys are accepted iff they are distinct |
| KeySet.ProbeSound | core/src/json.c:129-137 | an empty slot reached by probing proves the key absent |
| KeySet.EmptySlot | core/src/json.c:110-115 | a table that is not full has an empty slot |
| JsonAccepted.ParseIsGrammar | core/src/json.c:139-231 | a text is accepted with a value iff it is spelt by a syntax tree of sections 2 to 7 of RFC 8259 (with C's white space; no NUL, no lone surrogate), within the depth limit and with distinct keys, that means this value, and the value has at most 1,000,000 nodes |
| JsonAccepted.StrictExactlyWhen | core/src/json.c:23 | a text of that grammar uses only the white space of section 2 of RFC 8259 iff it holds neither a vertical tab nor a form feed |
| JsonAccepted.VerticalTabAccepted | core/src/json.c:23 | a vertical tab in front of `true` is accepted and is not in the grammar with the white space of section 2 |
| JsonGrammar.ValueReads | core/src/json.c:209-224 | whatever text a tree spells, with any white space and escapes, is read as what the tree means, using exactly as many budget nodes as the value has |
| JsonAccepted.ValueTaken | core/src/json.c:209-224 | whatever is read was spelt by a tree that means the value read |
| JsonGrammar.CharReads | core/src/json.c:55-84 | each way of writing a character is read as its bytes, surrogate pairs as one code point |
| JsonRoundTrip.ParsePrinted | core/src/json.c:139-281 | every well-formed value within the node budget is read back from its printed form, and that form is in the grammar with the white space of section 2 of RFC 8259 |
| JsonRoundTrip.PrintReads | core/src/json.c:209-224 | reading a printed value uses exactly as many budget nodes as the value has and stops at its end |
| JsonRoundTrip.QuoteReads | core/src/json.c:55-84 | a string printed by the escaper is read back |
| JsonRoundTrip.EscapeReads | core/src/json.c:264-281 | escaped bytes are read back one for one |
| JsonNumbers.NumberExtend | core/src/json.c:185-207 | a number token followed by anything that cannot continue it is read as itself |
| JsonNumbers.TokenIsNumber | core/src/json.c:185-207 | the text a number scan takes is itself a complete number token |
| JsonNumbers.NumberIsScanned | core/src/json.c:185-207 | the scan takes a text in full iff it is a number by section 6 of RFC 8259 |
| JsonRoundTrip.ValueSound | core/src/json.c:209-224 | what is read is well formed for its depth and paid for from the budget |
| JsonRoundTrip.ParseAccepts | core/src/json.c:226-231 | every accepted document has bounded nesting, no duplicate key at any depth and no NUL in a string |
| JsonRoundTrip.AcceptedExactly | core/src/json.c:139-231 | some text is accepted as a value iff the value is well formed and within the budget |
| JsonParser.ParseDocument | core/src/json.c:226-231 | the parser that moves a cursor and a node counter computes the grammar's result |
| JsonParser.Parser.ParseString | core/src/json.c:55-84 | string reading follows the grammar byte for byte, and leaves the cursor after the string |
| JsonParser.Parser.ParseValue | core/src/json.c:209-224 | value reading follows the grammar, with depth and node limits |
| JsonParser.Parser.ParseCollection | core/src/json.c:139-180 | arrays and objects follow the grammar, duplicate keys refused |
| JsonParser.EscapeString | core/src/json.c:264-281 | the escaper's loop prints the quoted form |
| ExecQueue.ExecPool.Enqueue | core/src/rpc.c:537-554 | a request joins the tail of the queue and the front of the active list, unless 64 are queued |
| ExecQueue.ExecPool.Take | core/src/rpc.c:504-512 | a worker gets the head of the queue, marked running |
| ExecQueue.ExecPool.Finish | core/src/rpc.c:514-518 | a finished request leaves the running set and the active list |
| ExecQueue.ExecPool.QueueRemove | core/src/rpc.c:484-498 | unlinking from the middle of the queue keeps head, tail, order and count right |
| ExecQueue.ExecPool.ActiveRemove | core/src/rpc.c:474-480 | unlinking from the active list keeps the others in order |
| ExecQueue.ExecPool.Cancel | core/src/rpc.c:556-576 | the first request named is flagged if running, taken off both lists if queued; no other is touched |
| ExecLists.EnqueueKeepsOrder | core/src/rpc.c:537-554 | after an enqueue the active list is still the disjoint union of queue and running set |
| ExecLists.TakeKeepsOrder | core/src/rpc.c:504-512 | likewise after a take |
| ExecLists.FinishKeepsOrder | core/src/rpc.c:514-518 | likewise after a finish |
| ExecLists.DropKeepsOrder | core/src/rpc.c:567-571 | likewise after a cancel of a queued request |
| ExecProtocol.StepKeeps | core/src/rpc.c:399-582 | every critical section and every reply or free keeps the pool's invariant |
| ExecProtocol.ReachableStructure | core/src/rpc.c:350-358 | in every reachable state the active list is queue plus running set, at most 64 wait, at most 8 run, and requests are taken in the order accepted |
| ExecProtocol.AnsweredOnce | core/src/rpc.c:399-582 | every accepted request is freed at most once and answered at most once, exactly once each when it is done (no answer without an id), and one cancelled while queued is never executed |
| ExecProtocol.NothingStuck | core/src/rpc.c:500-522 | while an accepted request is not done the pool can take a step of its own |
| ExecProtocol.EverythingGetsDone | core/src/rpc.c:399-582 | without new requests, whatever is cancelled meanwhile, the steps of the pool run out, and where no step is left every accepted request is done, hence answered and freed exactly once |
| OutputRing.JobOutput.Put | core/src/rpc.c:1219 | one chunk goes into the ring in place, over the oldest when it is full |
| OutputRing.JobOutput.Write | core/src/rpc.c:1219 | a write puts its bytes in as chunks of at most 4096 |
| OutputRing.JobOutput.Output | core/src/rpc.c:1917 | the page sent is the held chunks numbered above `afterSeq`, up to the limit, each in base64 |
| OutputRing.WriteStands | core/src/rpc.c:1219 | after any write the ring holds the last 128 chunks of everything written, numbered from 1, and the flag says whether any was given up |
| OutputRing.CutCarriesAll | core/src/rpc.c:1219 | cutting output into chunks loses, repeats and reorders nothing |
| OutputRing.HeldIsSuffix | core/src/rpc.c:1219 | what is held is the last 128 chunks |
| OutputRing.PageIsTail | core/src/rpc.c:1917 | while nothing was given up, a full page is everything written since |
| JobDrain.StepKeeps | server/src/core-client.ts:651-676 | every write, end, poll and turn of the client keeps the client's buffer equal to the standard output up to its position |
| JobDrain.DrainIsComplete | server/src/core-client.ts:651-676 | whatever the interleaving, when the client returns the job completed, no chunk was given up and the client has every standard-output byte in order, once |
| JobDrain.DrainEnds | server/src/core-client.ts:651-676 | with a completed job of at most 128 chunks the client polls at most fifteen more times, and where it can poll no more it has returned with everything the job wrote |
| JobDrain.CanPoll | server/src/core-client.ts:651-676 | a client that is not done can poll |
| JobDrain.GatherIsStream | server/src/core-client.ts:663-665 | decoding a page gives the bytes of the chunks it was made from |
| JobLines.WriteOut | core/src/rpc.c:1325-1354 | the batched writes put together are the lines and the summary (or, cancelled, the lines so far), in at most two writes per 3584 bytes plus one |
| JobFits.SmallOutputArrives | core/src/rpc.c:1325-1354 | output of at most 159566 bytes, batched in this way, never overflows the ring: once such a job completed, a client that kept polling polls at most fifteen more times, and where it can poll no more it has returned with exactly what the job wrote |
| JobLines.Batcher.AddLine | core/src/rpc.c:1340-1342 | a line goes into the batch or past it without overtaking what is batched |
| GrepFile.SearchFile | core/src/rpc.c:1525-1546 | the loops over one file list exactly the matches of its lines |
| GrepFile.HitsAreLines | core/src/rpc.c:1527-1544 | a line is listed iff it contains the pattern, under its own number and with its own text |
| GrepFile.HitsInOrder | core/src/rpc.c:1526-1546 | matches of a file come in line order |
| GrepFile.LinesRejoin | core/src/rpc.c:1526-1546 | the lines joined by newlines are the file |
| GrepFile.NoNewlineInside | core/src/rpc.c:1527 | no line holds a newline |
| GrepFile.AllHitsAreText | core/src/rpc.c:1533-1537 | the text shown for a match in a valid file is valid UTF-8 of at most 512 bytes |
| GrepPool.StepKeeps | core/src/rpc.c:1512-1551 | every claim, match and finish of a worker keeps each list equal to the matches of the files its worker claimed |
| GrepPool.ClaimedOnce | core/src/rpc.c:1516-1522 | over a whole run a file is claimed at most once: whoever searches it now or later is the same worker, and no later claim gets it |
| GrepPool.JoinedIsPrefix | core/src/rpc.c:1578-1590 | cut short or not, the joined workers found all matches of a first part of the files, each once |
| GrepPool.ParallelIsSequential | core/src/rpc.c:1553-1593 | not cancelled and not cut off, the sorted result is the sorted sequential result, whatever the schedule |
| GrepPool.SortIsUnique | core/src/rpc.c:1408-1413 | two sorted arrangements of the same matches are equal, provided path and line tell different ones apart |
| GrepPool.MatchesAreTold | core/src/rpc.c:1408-1413 | no two matches found in files of different paths compare equal |
| GrepPool.CompleteExactlyWhen | core/src/rpc.c:1574-1579 | an uncancelled, unflagged result is complete iff some thread was created or there was nothing to find |
| GrepPool.NoThreadNoMatch | core/src/rpc.c:1574-1579 | a job with one match to find and no thread ends uncancelled, unflagged and empty |
| FsScan.ScanCollect | core/src/rpc.c:1075-1119 | the stack walk fails only on a directory the recursive walk may not skip, is flagged over budget only when there are more than 2048 entries, and otherwise has exactly the recursive walk's items and flags |
| FsScan.ScanEntries | core/src/rpc.c:1094-1113 | the entries of one directory, as far as the budget goes, are met exactly |
| FsScan.DirOnce | core/src/rpc.c:1066-1119 | a walk of a proper tree meets every path once, and only paths below its start |
| FsScan.DeeperIsSame | core/src/rpc.c:1109 | a walk that never met its depth limit is the walk of any greater limit |
| FsScan.UnflaggedIsWholeTree | core/src/rpc.c:1066-1119 | an unflagged scan lists exactly the items the recursive walk meets, strictly sorted, each once |
| FsScan.StrictIsUnique | core/src/rpc.c:1072 | there is one sorted list, so all pages come from the same one |
| FsScan.FillPage | core/src/rpc.c:1132-1140 | the page loop gives the page and the next cursor, also for cursors past the end |
| FsScan.FollowGathersAll | core/src/rpc.c:1128-1140 | following the next cursor from 0, with any page sizes, ends and gathers the whole list, every cursor within the accepted range |
| Sessions.RunKeeps | core/src/rpc.c:811-873 | any requests keep this: there are at most 64 sessions, no id twice, and every live pty or watch belongs to a configured session and was opened under its present policy |
| Sessions.Reachable | core/src/rpc.c:811-873 | after any requests to a server that starts with empty tables, all of this holds |
| Sessions.OthersUntouched | core/src/rpc.c:820-873 | a request of one session leaves every other session's policy, ptys and watches alone |
| Sessions.ConfigureIs | core/src/rpc.c:813-868 | configuring an equal policy changes nothing; another one is in force afterwards with no pty or watch of the session left; a refusal changes nothing, except that failed bind links unconfigure the session |
| Sessions.CleanupIs | core/src/rpc.c:869-873 | cleaning up leaves neither the session nor anything it owned |
| Sessions.CloseIs | core/src/rpc.c:1943-1953 | a pty is closed by its own session only, and exactly that one |
| Sessions.DropPolicy | core/src/rpc.c:873 | moving the last session into the gap takes away the dropped id and no other |
| Sessions.Registry.ConfigureSession | core/src/rpc.c:820-868 | the tables change in place as specified |
| Sessions.Registry.CleanupSession | core/src/rpc.c:869-873 | likewise for a cleanup |
| Sessions.Registry.OpenPty | core/src/rpc.c:1973-2034 | likewise for opening a pty: own root only, 16 at most, number used up even on failure |
| Sessions.Registry.ClosePty | core/src/rpc.c:2060-2068 | likewise for closing one |
| Sessions.Registry.StartWatch | core/src/rpc.c:1159-1169 | likewise for starting a watch |
| Sessions.Registry.CancelWatch | core/src/rpc.c:1204-1206 | likewise for cancelling one |
| CoreInvariants.TurnRpc | server/src/core-client.ts:443-867 | over starts, crashes, time-outs, stale events, messages and stops, pending calls belong to the live generation and no promise is settled twice |
| CoreInvariants.StartRpc | server/src/core-client.ts:443-453 | a start that advances the generation finds no call pending |
| CoreInvariants.CallRpc | server/src/core-client.ts:761-781 | a call is noted under a fresh id of the live generation or refused; a restart it causes finds nothing pending |
| CoreScheduler.BestIsFairest | server/src/core-client.ts:569-585 | the item picked is the first of those whose session has the fewest running |
| CoreScheduler.DrainKeeps | server/src/core-client.ts:550-566 | the drain loop ends with nothing queued or as many running as may, even when sending fails inside it |
| CoreScheduler.TurnKeeps | server/src/core-client.ts:488-585 | between turns nothing queued waits while fewer run than may, every item is answered at most once and is answered unless queued or running, and a session's items start in order |
| CoreScheduler.RunKeeps | server/src/core-client.ts:443-867 | both sets of invariants hold after any turns |
| CoreRuns.NoneForgotten | server/src/core-client.ts:558-564 | a started item without an answer waits for a call pending on the live connection, or can be answered now |
| CoreProgress.TurnRank | server/src/core-client.ts:550-568 | an answer coming in, being passed on or cleaned up after lowers the rank, and nothing but a new command raises it |
| CoreProgress.EveryCommandAnswered | server/src/core-client.ts:550-568 | from any reachable state, without new commands and whatever else happens, at most that many turns move a command on, and exactly where none is left nothing is queued or running and every command was answered once |
| CoreRuns.RestartsExactlyWhen | server/src/core-client.ts:443-453 | after any run, once the present generation has failed, the next call starts the core again iff the handshake call of the last start could be written (for a client that spawns its own core and is not stopping) |
| CoreRuns.HandshakeWriteFailureIsFinal | server/src/core-client.ts:443-453 | should the write of the handshake call throw inside any `start`, no later turn starts the core again |
| CoreClient.Core.FailConnection | server/src/core-client.ts:829-848 | refusing calls and queue one by one is the specified failure turn |
| CoreClient.Core.PickExecIndex | server/src/core-client.ts:569-585 | counting by session and scanning the queue finds the specified item |
| CoreClient.Core.DrainExecQueue | server/src/core-client.ts:550-566 | the loop is the specified drain |
| CoreClient.Core.CallCore | server/src/core-client.ts:761-781 | calling is the specified turn |
| CoreClient.Core.StartCore | server/src/core-client.ts:443-453 | starting is the specified turn, the promise being recorded last |
| CoreClient.Core.OnMessage | server/src/core-client.ts:783-827 | receiving is the specified turn |
| CoreClient.Core.CancelCommand | server/src/core-client.ts:532-548 | cancelling is the specified turn |
| CoreClient.Core.RunCommand | server/src/core-client.ts:488-498 | queueing is the specified turn, refused at 64 |
| CronFields.ParseField | server/src/cron-scheduler.ts:92-127 | a field is accepted iff each list item is well formed and in range; its values are exactly those named, ascending, at least one, with weekday 7 as 0 |
| CronFields.SplitJoins | server/src/cron-scheduler.ts:94-96 | the parts of a split joined again are the text, and hold no separator |
| CronFields.ParseExpression | server/src/cron-scheduler.ts:130-144 | an expression is accepted iff it is at most 100 long and its runs without white space are five well-formed fields; the result holds exactly what they name |
| CronFields.RunsAreWords | server/src/cron-scheduler.ts:132 | there is exactly one way to see an expression as runs without white space, the one the parser takes |
| CronFields.FullMeansAll | server/src/cron-scheduler.ts:141-142 | a field as long as its range holds every value of it |
| CronNext.NextFireIsLeast | server/src/cron-scheduler.ts:160-174 | the search gives the least matching minute strictly after the reference, and none only if there is none within the search window |
| CronNext.FindNextFire | server/src/cron-scheduler.ts:160-174 | the nested loops are that search |
| CronJobs.DueIsActionReached | server/src/cron-scheduler.ts:274-332 | a job is due iff its next action is at or before now, for every job that is recurring or has not fired |
| CronJobs.DueIsActionReachedExactlyWhen | server/src/cron-scheduler.ts:274-332 | for every job and time: being due is having the next action at or before now iff the job is recurring, or has not fired, or matching minutes have come both since its creation and since its last fire, or since neither |
| CronJobs.AlwaysDueIsActionReachedExactlyWhen | server/src/cron-scheduler.ts:283-331 | for a fired one-shot the two agree at all times iff no matching minute lies between its creation and its last fire and the later search window adds none |
| CronJobs.FiredOneShotIsNotDue | server/src/cron-scheduler.ts:283-331 | a one-shot for the midnight of a first of January that fired at that midnight has reached its next action a millisecond later and is not due |
| CronJobs.SecondCheckIsIdle | server/src/cron-scheduler.ts:274-301 | a second check at the same instant fires nothing and changes nothing |
| CronJobs.CheckKeepsUnfired | server/src/cron-scheduler.ts:289-299 | checks never leave a one-shot that has fired |
| CronJobs.Scheduler.Check | server/src/cron-scheduler.ts:274-301 | a check fires the due jobs in order, removes the expired and one-shot ones by id and stamps the others |
| CronJobs.Scheduler.Reschedule | server/src/cron-scheduler.ts:304-320 | the timer is set for the least next action, within what a timer can hold |
| CronJobs.TimerIsTight | server/src/cron-scheduler.ts:304-332 | no job becomes due before the timer rings, and some job is due when it does, unless the delay was cut off |
| SymbolDriver.Extract | core/src/symbol_extract.c:774-846 | the driver's passes give the records of the first matches |
| SymbolDriver.FindMatches | core/src/symbol_extract.c:788-811 | the first pass finds the first matches in line order, skipping overlong lines |
| SymbolDriver.FindLine | core/src/symbol_extract.c:816-825 | counting newlines again finds the line of the match |
| SymbolDriver.RangesTile | core/src/symbol_extract.c:841-843 | the records' line ranges follow one another without gap or overlap to the end of the file |
| SymbolDriver.NamesStand | core/src/symbol_extract.c:834-842 | a record's name, kind and signature are those of the line it starts at |
| SymbolDriver.SignatureIsText | core/src/symbol_extract.c:826-833 | the signature of a valid line is valid UTF-8 of at most 120 bytes |

## Left out

- Platform layers: process spawning, sandbox backends, bind links in the system, overlay mounts, sockets and directory enumeration are parameters or given functions; `Sessions` keeps only whether making bind links worked.
- Windows branches: case folding, drive letters, backslash roots and filtered-network grants are not modelled; paths are those without a colon in second position.
- Allocation failure: modelled for the JSON key table only, where it matters.
- JsonAccepted.ParseIsGrammar: as in the code, bytes from 0x80 on stand for themselves in strings and their UTF-8 is not checked; NUL escapes and lone surrogates, which the RFC's grammar has, are refused and so not in this one.
- Floating point: `strtod` and finiteness are a predicate on number tokens; numeric conversion and range checks are left out.
- Counters: pty, watch, chunk and call numbers do not wrap around.
- Calendar: local time is days of 86 400 000 milliseconds with a given month, day and weekday; time zones and clock shifts are left out.
- CoreState.Turn: late events (transport errors, timers, a resolving connection factory, the restart timer) may come at any moment rather than only where the runtime can deliver them, so the invariants cover more runs than exist; event listeners do not call back into the client.
- CoreRuns.NoneForgotten: says that an answer can be passed on, not that the JavaScript runtime does so.
- CoreProgress.EveryCommandAnswered: that the executor answers a pending call, or its timer rings, is a turn like the others and not promised to come.
- CronJobs.Scheduler.Check: no other turn runs while a fire is awaited; a job file with an expression that does not parse makes the code's check throw and is not modelled; create, list, delete and persistence are left out.
- CronFields.ParseField: the result says which fields are accepted, not the wording of the error.
- GrepPool.ParallelIsSequential: a file reads the same whenever it is read; the candidate walk before the search is that of `FsScan` with other limits and is not repeated.
- FsScan.UnflaggedIsWholeTree: the tree does not change during the scan, and its listings hold distinct non-empty names without slashes.
- JobDrain.DrainIsComplete: polls answer or fail; the client's own decoding of the text into records is left out.
- ExecProtocol.AnsweredOnce: an accepted cancel of a running request need not lead to a "cancelled" reply, as in the code; what a command does is one step with any outcome.
- SymbolDriver.Extract: the per-language line matchers are a parameter.
- Watch events (folding and merging of a batch), `fs.read` paging, HTTP routes, settings, update, export and storage code: many branches, little that spans operations.
