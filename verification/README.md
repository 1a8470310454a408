# AIS server: a verified model of the stream processor

A Dafny model of the in-memory core of the AIS server: bytes from many receiver nodes are cut into
lines, NMEA sentences are accepted and de-duplicated, put into chronological order by a jitter buffer,
and fanned out to endpoints through bounded queues; a registry accounts for the nodes' sessions.

Code that changes state is modelled by classes with the same fields (the heap list, the cache, the
registry's shared `NodeInfo` objects, the workers' queues). Each method is proved against a specification
on values; the properties below are then proved about those specifications, over all inputs and all runs.
Threads are modelled by interleaving: an operation under one lock, or one queue operation, is one atomic
step. Methods that are interrupted between steps take the other threads' steps as arguments
(`Forwarder`), or let them do anything the registry allows (`Ingest`).

`dafny verify dfyconfig.toml` checks the project.

## Layout

- `Wrappers`, `Numbers`, `Ids`, `Text`: options, powers of two, id lists, the Python string operations in use.
- `ReorderSpec`, `HeapQueue`, `ReorderRuns`, `ReorderHold`, `ReorderOverflow`, `Reorder`: the jitter buffer.
- `DedupSpec`, `Dedup`: the bounded time-to-live cache against a scan of the history.
- `Nmea`, `Calendar`, `Payload`: checksum, canonical form, parse, six-bit payloads and UTC times
  (Recommendation ITU-R M.1371-5, Annex 8, section 3.2).
- `Framing`, `TagBlock`, `LineSpec`, `RegistrySpec`, `SessionRuns`, `Registry`, `HandlerSpec`,
  `SessionExamples`, `Credits`, `Wire`, `Ingest`: from received bytes to delivered sentences, and the accounts
  kept on the way.
- `WorkerSpec`, `WorkerLoop`, `WorkerOrder`, `Isolation`, `Forwarder`, `Manager`: endpoint workers and their manager.
- `PipelineSpec`, `PipelineRuns`, `EndToEnd`, `Intake`, `Delivery`, `Pipeline`: the glue, and the end-to-end claims, up to
  the last send of each worker.

## Where the code and its documentation differ

The model follows the code.

- Output is not always chronological (README.md:11): a sentence stamped behind one already released comes
  out behind it (`ReorderRuns.LatePushComesOutLate`). `ReorderRuns.SortedIffNothingLate` says exactly when
  the output is sorted.
- "Held at most `hold_ms`" (ais_server/reorder.py:14-15) holds, over all ways a run can go on, exactly for
  items stamped no later than the clock of their push (`ReorderHold.HoldBoundIff`). An item leaves with the
  first `pop_ready` after its push whose cutoff reaches its stamp, unless it was evicted before
  (`ReorderHold.ReleasedWhen`); `ReorderHold.FutureStampHeldLonger` is a run that holds one longer.
- A dropped-oldest sentence is not counted in `stats.dropped` (`Forwarder.UndisturbedPut`).
- A failed TCP send re-queues at the tail. The order survives exactly when the queue is empty or full at the
  re-queue, whatever was put in between (`WorkerOrder.FailedSendKeepsOrderIff`); that nothing waits when the
  send fails is not enough (`WorkerOrder.OvertakenInTheGap`).
- A reconnect under a known source id leaves the host entry counted as active with no session open
  (`SessionExamples.ReconnectDrifts`; the exact condition is `SessionRuns.UpgradeExactIffClean`). The registry
  then counts one active session too many for good, under the host or under an identity a later session of the
  host takes (`SessionExamples.ReconnectStaysCounted`); `SessionRuns.ActiveTotal` is the exact total. An entry
  pruned between a line's `set_source_id` and its `touch` makes the next line raise a KeyError, which ends the
  session (`SessionExamples.StaleRunEndsSession`).
- The logical key given to the pipeline (ais_server/ingest.py:327-330) is not always the node a line names. The
  handler compares identities with the entry it got at session start (ais_server/ingest.py:288, 315-318). On a
  registry that knows node B, a session whose lines name A, B, A has its third sentence, of A, credited to B
  (`Credits.ReturnIsMiscredited`), and is never credited to A again (`Credits.NeverOwnAgain`).
  `Credits.SessionFaithfulIff` says exactly which sessions are credited right.
- The canonical form is not always stable under a second application: white space as the second character
  after the last `*` is cut next time (`Nmea.IdempotentIff`). Nor does it always keep the checksum verdict, for
  two reasons (`Nmea.KeepsVerdict` has the exact condition over all sentences). `str.strip` takes the characters
  28..31 for white space and `int` does not: `*0` followed by character 28 is bad and its canonical form good
  (`Nmea.VerdictLost`). And the checksum covers white space in front, which trimming removes: `" *20"` is good
  and its canonical form bad (`Nmea.VerdictLostByTrimming`, `Nmea.GoodStaysGoodIff`). Sentences the ingest
  accepts start with `!`.
- Copies of a sentence with good checksums have the same key exactly when they spell the checksum with two
  digits like the two-digit copy (`Nmea.CopySharesKeyIff`); a one-digit spelling splits it off
  (`Nmea.UnpaddedKeyDiffers`).
- The comment at ais_server/pipeline.py:56-57 speaks of passing a duplicate's earliest arrival to the reorder layer;
  the code drops duplicates.
- Multi-part messages are not reassembled; `multipart` (ais_server/ingest.py:60) is never used.

## Model

| member | source | states |
|---|---|---|
| ReorderSpec.LeastIsLeast | ais_server/reorder.py:30-34 | among items with distinct sequence numbers the (ts, seq) order has a least element, whatever the payloads |
| ReorderSpec.ListingUnique | ais_server/reorder.py:64-74 | a set of buffered items has exactly one strictly sorted listing, the one pop_ready must produce |
| HeapQueue.Push | ais_server/reorder.py:60 | heappush keeps the heap order and adds exactly the one item |
| HeapQueue.Pop | ais_server/reorder.py:56-71 | heappop returns the root, keeps the heap order and removes exactly that item |
| HeapQueue.RootIsLeast | ais_server/reorder.py:69-70 | nothing in a heap is before its root, so testing the head decides for the whole buffer |
| Reorder.ReorderBuffer.constructor | ais_server/reorder.py:38-47 | the buffer starts empty, with no history and all counters at zero |
| Reorder.ReorderBuffer.TakeTicket | ais_server/reorder.py:52 | the sequence number drawn outside the lock is unused, and stays reserved until its push |
| Reorder.ReorderBuffer.Insert | ais_server/reorder.py:53-61 | the locked half of push: the buffer moves to the specified next state of its run, whichever reserved ticket it uses; a full buffer gives up the item with the smallest timestamp, of several the one with the smallest sequence number, and one with room gives up none |
| Reorder.ReorderBuffer.Push | ais_server/reorder.py:50-61 | push by one thread enters one item under the given stamp, or the clock if none |
| Reorder.ReorderBuffer.PopReady | ais_server/reorder.py:64-74 | returns the payloads of exactly the buffered items stamped at or before now - hold, by timestamp and those with one timestamp by sequence number, smallest first, and leaves exactly the others |
| Reorder.ReorderBuffer.PopLocked | ais_server/reorder.py:66-74 | the pop loop over the heap list computes that output and counts it |
| Reorder.ReorderBuffer.QSize | ais_server/reorder.py:90-92 | the size is the number of buffered items, at most max_queue, and pushed = popped + dropped + size |
| ReorderRuns.Conservation | ais_server/reorder.py:50-74 | in every run each pushed item is in exactly one of buffer, output and dropped, none is output twice, and the counters count those places |
| ReorderRuns.BatchOrder | ais_server/reorder.py:64-74 | in every run, items released by one pop_ready come out by timestamp, and with equal timestamps by sequence number, smallest first |
| ReorderRuns.TiesInPushOrder | ais_server/reorder.py:30-34 | two items with one timestamp come out as they were pushed |
| ReorderRuns.EvictsOldest | ais_server/reorder.py:53-61 | in every run, a push into a full buffer discards the buffered item with the smallest timestamp, of several the one with the smallest sequence number; a push with room discards nothing |
| ReorderRuns.OutOfOrderMeansPushedLate | ais_server/reorder.py:50-74 | if y comes out after a greater x, then y was pushed after the pop_ready that released x |
| ReorderRuns.SortedIffNothingLate | ais_server/reorder.py:50-74 | the whole output is strictly sorted if and only if no released item was pushed behind an item already out |
| ReorderRuns.FreshPushesSort | ais_server/reorder.py:50-74 | if every push is stamped above all earlier cutoffs, the whole output is strictly sorted |
| ReorderRuns.LatePushComesOutLate | ais_server/reorder.py:50-74 | a run in which a late push makes the output unsorted |
| ReorderHold.ReleasedWhen | ais_server/reorder.py:50-74 | in every run an item is released by a pop_ready if and only if that is the first one after its push whose cutoff reaches its stamp and the item was not evicted before |
| ReorderHold.HoldBoundIff | ais_server/reorder.py:14-15 | over all ways a run can go on, an item is out by any pop_ready at least hold after its push, if and only if its stamp is not after the clock of the push |
| ReorderHold.FutureStampHeldLonger | ais_server/reorder.py:50-74 | a run in which a future stamp is held longer than hold |
| ReorderOverflow.OverflowClosedForm | ais_server/reorder.py:54-61 | after n pushes and no pop the buffer is the last item plus the max_queue - 1 greatest of the earlier ones, and dropped = max(0, n - max_queue) |
| DedupSpec.CheckSummarises | ais_server/dedup.py:36-52 | one check keeps the invariant: the cache holds the last new verdict of its keys, and a key it lost is expired or fell to a burst |
| DedupSpec.EvictionNeedsBurst | ais_server/dedup.py:49 | a live entry is evicted only if max_entries other distinct keys were judged new within one ttl |
| DedupSpec.CacheRefinesScan | ais_server/dedup.py:36-52 | at every check of every run, "duplicate" agrees with a scan of the full history and returns that verdict's arrival time; "new" disagrees with it only after a burst |
| DedupSpec.NewVerdictsApart | ais_server/dedup.py:36-52 | two new verdicts for one key are at least ttl apart on the cache clock, or a burst came between |
| DedupSpec.ExpiredIsNew | ais_server/dedup.py:36-52 | in every run, once ttl has passed since every copy judged new, the next copy is new again, under its own arrival time |
| DedupSpec.DuplicateIsRecent | ais_server/dedup.py:36-52 | in every run, a duplicate has a copy judged new less than ttl before, and gets its arrival time |
| DedupSpec.DuplicateIffRecent | ais_server/dedup.py:36-52 | where no ttl window held more than max_entries new keys, a copy is a duplicate if and only if some copy was judged new less than ttl before |
| DedupSpec.UncrowdedRunsMatchReference | ais_server/dedup.py:36-52 | if no ttl window of the unbounded reference run holds more than max_entries new keys, every bounded run gives exactly its answers, whatever the cache evicts |
| DedupSpec.EvictionRepeats | ais_server/dedup.py:49 | with room for one entry, a second key makes the first be judged new again at once |
| Dedup.TtlCache.Get | ais_server/dedup.py:47 | a look-up finds an entry less than ttl after it was stored, and never extends it |
| Dedup.TtlCache.Set | ais_server/dedup.py:49 | a store drops every entry stored ttl or more ago first, and one live entry only if the cache is still full |
| Dedup.Deduper.CheckKey | ais_server/dedup.py:45-52 | the locked look-up and store extend the history by one verdict that agrees with the scan, up to a burst: new once ttl has passed since every copy judged new, duplicate only with one less than ttl before, whose arrival it returns; the counters follow |
| Dedup.Deduper.Check | ais_server/dedup.py:31-52 | the same for a sentence, keyed by its canonical form |
| Text.StripCuts | ais_server/nmea.py:45 | stripping cuts class characters off the two ends of the text and nothing else |
| Text.StripExactly | ais_server/nmea.py:45 | whatever way class characters are split off both ends, a rest that starts and ends outside the class is the result |
| Text.ClassTable | ais_server/nmea.py:29 | which ASCII characters trimming, int(), the line ends and the start marks cover |
| Text.Split | ais_server/nmea.py:71 | the parts hold no separator and join back to the text |
| Text.SplitJoin | ais_server/nmea.py:71 | splitting undoes joining when no part holds the separator |
| Text.SplitPrefix | ais_server/nmea.py:70-71 | text appended to a line changes its last part at the earliest |
| Text.DigitTable | ais_server/nmea.py:33 | the decimal digits and the hexadecimal digits in either case, and their values |
| Text.ParseCodesExactly | ais_server/nmea.py:76-77 | a numeral starts and ends with a digit and has only digits and single underscores between; its value is positional |
| Text.PyIntExactly | ais_server/nmea.py:76-77 | int() of any text: white space around, at most one sign, and a numeral, or else ValueError |
| Text.PyIntOfDecimal | ais_server/nmea.py:76-77 | int() reads a rendered decimal back |
| Text.UpperPyInt | ais_server/nmea.py:33 | the case of the digits does not change a parsed hexadecimal number |
| Nmea.XorLoop | ais_server/nmea.py:30-32 | the loop computes the exclusive or of all character codes |
| Nmea.XorBitwise | ais_server/nmea.py:32 | a bit of the exclusive or is set exactly when the bits of the two numbers differ |
| Nmea.XorOfInjective | ais_server/nmea.py:30-32 | the checksum determines any one character from the others |
| Nmea.ValidateChecksum | ais_server/nmea.py:24-35 | true exactly when the two characters after the last star spell the XOR of the body |
| Nmea.SealedIsOk | ais_server/nmea.py:24-35 | a body with its own two-digit checksum appended is accepted by the checksum |
| Nmea.TrailerDropped | ais_server/nmea.py:38-50 | whatever a gateway appends behind the two checksum digits leaves the checksum good and the key that of the sentence without it |
| Nmea.SingleChangeExposed | ais_server/nmea.py:24-35 | two accepted sentences with the same stated checksum that differ at most at one place have the same body |
| Nmea.ParseRendered | ais_server/nmea.py:65-85 | rendering any record with a talker prefix, plain fields and its checksum parses back to that record, accepted |
| Nmea.AcceptedTypes | ais_server/nmea.py:21 | a sentence parses only with one of the seven types between the start mark, in front, and the first comma |
| Nmea.TypeDecides | ais_server/nmea.py:21-85 | a record with plain fields and its checksum is accepted and read back with any of the seven types in front, and refused with any other |
| Nmea.ParseOfParts | ais_server/nmea.py:65-85 | what any sentence parses to: its text before the first star, cut at the commas, needs seven parts, a known type and two numbers |
| Nmea.FillBitsExactly | ais_server/nmea.py:81 | the fill bits are the number spelled by a field of nothing but digits, and zero otherwise |
| Nmea.PayloadIsFieldFive | ais_server/pipeline.py:64-65 | cutting the whole sentence at the commas gives the payload that parsing gives |
| Nmea.IdempotentIff | ais_server/nmea.py:38-50 | canonicalising twice equals once, if and only if the second character after the last star of the trimmed sentence is not white space |
| Nmea.GoodStaysGoodIff | ais_server/nmea.py:24-50 | a sentence with a good checksum keeps it in canonical form if and only if the white space in front and the start marks behind it cancel out in the XOR (with none in front they do) |
| Nmea.SolidKeepsVerdict | ais_server/nmea.py:24-50 | for a sentence with no leading white space, the canonical form has the same checksum verdict if and only if no good one-digit checksum is followed at once by a character 28..31 |
| Nmea.KeepsVerdict | ais_server/nmea.py:24-50 | over all sentences, the exact condition under which the verdict on the canonical form is the same |
| Nmea.VerdictLost | ais_server/nmea.py:24-50 | an input whose checksum is bad and whose canonical form has a good one |
| Nmea.VerdictLostByTrimming | ais_server/nmea.py:24-50 | an input whose checksum is good and whose canonical form has a bad one |
| Nmea.SameKeyIffSameBody | ais_server/nmea.py:38-50 | accepted sentences with two hexadecimal digits after the last star have equal canonical forms exactly when their bodies are equal, and that form is stable and keeps a good checksum |
| Nmea.CopySharesKeyIff | ais_server/nmea.py:38-50 | a good copy of a sentence has the key of the copy with a two-digit checksum if and only if it spells its own with two digits |
| Nmea.UnpaddedKeyDiffers | ais_server/nmea.py:38-50 | so the same checksum below 16 written with one digit is good, and gives another key |
| Calendar.NextDayAddsOne | ais_server/nmea.py:135-136 | the next valid date is one day later, through month ends and leap years |
| Calendar.NextDayNextSecond | ais_server/nmea.py:135-136 | the second after the last second of a valid date is the first of the next date |
| Calendar.ValidMonthByMonth | ais_server/nmea.py:135-136 | which dates there are, month by month, with the leap years spelled out |
| Calendar.UnixTimeClosedForm | ais_server/nmea.py:135-136 | the Unix time of every valid date and time of day, in one formula |
| Calendar.EndOfMay | ais_server/nmea.py:135-136 | 31 May 2024 is a date, 1717113600 at midnight, and 31 April is none |
| Calendar.EpochIsZero | ais_server/nmea.py:135-136 | 1 January 1970, 00:00:00 is Unix time zero |
| Calendar.OrdinalOrder | ais_server/nmea.py:135-136 | day numbers order valid dates as the calendar does |
| Payload.Bits | ais_server/nmea.py:92-99 | the loop produces six bits for each character |
| Payload.SixBitTable | ais_server/nmea.py:94-98 | the six bits of every ASCII character, inside the alphabet and outside |
| Payload.SliceIsDivMod | ais_server/nmea.py:92-99 | any slice of the bit string is the payload's base-64 number divided and reduced by powers of two |
| Payload.TimestampExactlyWhen | ais_server/nmea.py:112-138 | a payload carries a time if and only if it is a type 4 or 11 report of at least 14 characters whose fields are a real instant since 1970, and then it is that instant |
| Payload.TimestampByArithmetic | ais_server/nmea.py:112-138 | the time a payload carries, by division and remainder on its base-64 number: none below fourteen characters, nor outside types 4 and 11, nor for fields that are no instant since 1970 |
| Payload.InstantTable | ais_server/nmea.py:132-136 | the instants a payload can carry: existing dates from 1970 to 9999, with hour below 24, minute and second below 60 |
| Payload.MmsiByArithmetic | ais_server/nmea.py:102-109 | type and MMSI by the same arithmetic, from seven characters on |
| Payload.TimeOrderIsBitOrder | ais_server/nmea.py:112-138 | the times of two payloads compare exactly as their 40-bit numbers at bits 38..78 |
| Payload.DecodeArmour | ais_server/nmea.py:92-99 | decoding undoes armouring |
| Payload.ArmourDecode | ais_server/nmea.py:92-99 | armouring undoes decoding on the 64-character alphabet |
| Payload.ReportRoundTrip | ais_server/nmea.py:92-138 | every valid type 4/11 report, packed and armoured, decodes to its own instant, type and MMSI |
| Framing.FramingRebuilds | ais_server/ingest.py:281-288 | lines joined with newlines plus the residual rebuild the stream, and none of them holds a newline |
| Framing.FramingIsUnique | ais_server/ingest.py:281-288 | there is only one such cut of a stream |
| Framing.FramingIsIncremental | ais_server/ingest.py:268-288 | framing a prefix, then its residual with the rest, is framing the whole |
| Framing.ChunkingDoesNotMatter | ais_server/ingest.py:268-288 | every split into recv chunks gives the same lines and the same residual |
| TagBlock.StripTag | ais_server/ingest.py:218-238 | the loop over the fields, with its break, finds the sentence and the identity of the first `s:` field |
| TagBlock.TagRoundTrip | ais_server/ingest.py:218-238 | any sentence behind a well-formed tag block comes out unchanged with that block's identity |
| TagBlock.BlockIdentity | ais_server/ingest.py:218-238 | of any block, with or without a checksum, the identity is the trimmed rest of the first field that starts with `s:`, and none if that is blank or there is no such field |
| TagBlock.UntaggedPasses | ais_server/ingest.py:223-227 | a line without a backslash in front, or without a second one, passes whole |
| TagBlock.StrippedIsSuffix | ais_server/ingest.py:218-238 | what is stripped is only a front part of the line, and an identity is never empty |
| LineSpec.NonAsciiIgnored | ais_server/ingest.py:307 | a line reads the same without its bytes of 128 and more |
| LineSpec.ByteDropped | ais_server/ingest.py:307 | such a byte can be put anywhere in a line without changing its outcome |
| LineSpec.BlankIff | ais_server/ingest.py:307-312 | a line counts for nothing if and only if, bytes outside ASCII aside, it holds only tabs, line feeds, carriage returns and spaces |
| RegistrySpec.OperationsKeepWellFormed | ais_server/ingest.py:106-207 | every operation keeps each entry under its own key with no more open sessions than it ever had |
| RegistrySpec.OperationsKeepWellNamed | ais_server/ingest.py:106-207 | every operation keeps an entry that has a source id under that id |
| RegistrySpec.PrunedExactly | ais_server/ingest.py:187-207 | an entry is removed if and only if it has no open session and was last seen more than a positive limit ago; every other entry stays as it is |
| RegistrySpec.OperationsAreLocal | ais_server/ingest.py:106-161 | no operation touches an entry other than those it names |
| RegistrySpec.StartedEntry | ais_server/ingest.py:106-124 | a start goes to the entry of the source id, or of the host without one, and adds one session and one active session there, seen now |
| RegistrySpec.EndedEntry | ais_server/ingest.py:126-130 | an end takes one active session from the entry of the key, if it has one, and changes nothing else in it |
| RegistrySpec.TouchedEntry | ais_server/ingest.py:150-161 | bytes, messages and invalid lines go to the entry of the key if there is one, and nowhere else |
| RegistrySpec.UpgradedEntry | ais_server/ingest.py:132-148 | an upgrade to a new id moves the entry with all its counts and clocks, or makes an empty one; to a known id it leaves the table alone |
| RegistrySpec.UpgradeConserves | ais_server/ingest.py:132-148 | set_source_id conserves the totals of messages, invalid, bytes, sessions and active sessions in every branch that returns, and raises exactly when the session already sits under that id and the entry is gone |
| RegistrySpec.SessionTotals | ais_server/ingest.py:106-130 | a start adds one to the active total, an end takes at most one away |
| RegistrySpec.MaintenanceTotals | ais_server/ingest.py:150-207 | pruning and touching leave the active total alone |
| SessionRuns.ActiveTotal | ais_server/ingest.py:106-207 | in every run of concurrent sessions the active total is exactly the open sessions plus the sessions that ended under a key with no active count left, by closing or by a KeyError |
| SessionRuns.ExcessStays | ais_server/ingest.py:106-207 | what is counted too much stays counted however the run goes on |
| SessionRuns.ActiveCoversOpen | ais_server/ingest.py:106-207 | so the registry never counts fewer active sessions than are open |
| SessionRuns.RegistriesAreWellNamed | ais_server/ingest.py:106-207 | in every reachable registry an entry with a source id sits under it |
| SessionRuns.SeenInOrder | ais_server/ingest.py:106-207 | in every run on a clock that does not go back, each entry was first seen no later than last seen, and neither lies ahead of the clock |
| SessionRuns.PrunedInRun | ais_server/ingest.py:187-207 | in every run a prune keeps an entry, unchanged, if and only if it has an open session or was seen within the limit |
| SessionRuns.CleanRunsAreExact | ais_server/ingest.py:106-148 | in runs whose upgrades go to fresh ids from keys no other session holds, each entry counts exactly its open sessions |
| SessionRuns.UpgradeExactIffClean | ais_server/ingest.py:132-148 | from exact counts, an upgrade leaves them exact if and only if it is such a clean one |
| SessionRuns.SameUpgradeExact | ais_server/ingest.py:135-138 | with exact counts a repeated identity cannot raise and changes nothing |
| SessionExamples.LineIsRun | ais_server/ingest.py:305-335 | every line a handler takes, with its guard, is a run of the registry's locked operations, and the KeyError closes the session |
| SessionExamples.ReconnectDrifts | ais_server/ingest.py:106-148 | a run from the empty registry: one node connects twice, and with no session open its host stays counted as active through any pruning |
| SessionExamples.ReconnectStaysCounted | ais_server/ingest.py:106-207 | and after that the registry counts at least one active session too many, however the run goes on |
| SessionExamples.VisitIsHandled | ais_server/ingest.py:257-335 | the handler takes exactly the steps of such a visit |
| SessionExamples.StaleRunEndsSession | ais_server/ingest.py:132-212 | a run from the empty registry in which an entry pruned between a line's upgrade and its count ends the session by a KeyError and leaves its host counted |
| SessionExamples.StaleIsHandled | ais_server/ingest.py:305-335 | the handler, with its guard, takes those steps and raises at the second line |
| Registry.NodeRegistry.constructor | ais_server/ingest.py:76-80 | the registry starts empty |
| Registry.NodeRegistry.OnSessionStart | ais_server/ingest.py:106-124 | the shared entry of the key, or a new one, is opened; every other object is untouched |
| Registry.NodeRegistry.OnSessionEnd | ais_server/ingest.py:126-130 | one open session less, never below zero, on the key's entry only |
| Registry.NodeRegistry.SetSourceId | ais_server/ingest.py:132-148 | the same object moves to its new key, a known id keeps the registry as it is, and the result is the entry under the id or the KeyError |
| Registry.NodeRegistry.Touch | ais_server/ingest.py:150-161 | counts on the key's entry only, and on none if it is gone |
| Registry.NodeRegistry.PruneInactive | ais_server/ingest.py:187-212 | the loop removes exactly the idle entries without open sessions, and returns how many |
| HandlerSpec.HandledSane | ais_server/ingest.py:305-335 | a line never loses the session's entry or the start object, does not raise, and delivers its sentence exactly when it is accepted |
| HandlerSpec.SessionDelivers | ais_server/ingest.py:257-302 | an undisturbed session on any well-formed registry never raises and delivers exactly the accepted sentences of its stream in order, for every chunking |
| HandlerSpec.SessionAccounts | ais_server/ingest.py:257-335 | the registry's totals grow by exactly the bytes received, the sentences delivered and the other non-blank lines, whatever identities the lines name |
| HandlerSpec.ArrivedEntry | ais_server/ingest.py:281 | the bytes of a chunk go to the entry under the handler's key, seen at that moment; every other entry stays as it is |
| HandlerSpec.UntaggedAccounts | ais_server/ingest.py:257-335 | a session whose lines name no identity is accounted for under its own key alone: its bytes, its delivered sentences and its rejected lines |
| HandlerSpec.DeliveredNow | ais_server/ingest.py:326-330 | what the lines of a chunk deliver comes after what was delivered before, with the clock of that chunk as arrival time |
| Credits.LineCreditIff | ais_server/ingest.py:315-330 | in whatever state other threads left the registry: unless set_source_id raises, a tagged sentence is credited to the node it names if and only if the start object does not bear that identity while the session sits under another key |
| Credits.SessionCredits | ais_server/ingest.py:257-335 | over whole undisturbed sessions with any identities and any chunking, the keys delivered are those decided by the handler's key, the start object's place and identity, and the known ids |
| Credits.NeverOwnAgain | ais_server/ingest.py:315-330 | once a session has left its own identity for a known node, no sentence is credited to that identity again |
| Credits.SessionFaithfulIff | ais_server/ingest.py:257-335 | a new session on a reachable registry credits every tagged sentence to the node it names if and only if it does not take an identity, name another known node, and name its own again |
| Credits.ReturnIsMiscredited | ais_server/ingest.py:288-318 | a session that sends lines of A, B, A on a registry that knows B has them credited to A, B, B |
| Credits.NodeCredits | ais_server/ingest.py:305-335 | when all tag blocks name one node, the sentences before the first tagged line are delivered under the host and all later ones under that node |
| Wire.WireRoundTrip | ais_server/ingest.py:218-335 | any list of accepted, trimmed ASCII sentences sent as CRLF lines, each with or without a well-formed tag block, is delivered as exactly that list for every chunking; the registry's totals grow by their number and by every byte, and by no invalid line |
| Wire.RenderIsCrLf | ais_server/ingest.py:282-288 | the stream is each sentence with its tag block, a carriage return and a line feed, byte by byte |
| Ingest.ReadLine | ais_server/ingest.py:305-323 | decoding, trimming, stripping and parsing compute the specified outcome of a line |
| Ingest.ConnectionHandler.Identify | ais_server/ingest.py:315-319 | undisturbed, set_source_id is called exactly when the line names an identity other than the start object's, which the handler never rebinds; disturbed, the key still changes only to the identity named and stays on a KeyError |
| Ingest.ConnectionHandler.Upgrade | ais_server/ingest.py:315-319 | the call moves the session to the identity or raises, and the start object keeps its place or moves to the new key |
| Ingest.ConnectionHandler.Judge | ais_server/ingest.py:321-332 | counts the line and delivers it exactly when accepted |
| Ingest.ConnectionHandler.HandleLine | ais_server/ingest.py:305-335 | undisturbed it takes the specified session step; disturbed it still delivers exactly this line's sentence unless it raises |
| Ingest.ConnectionHandler.HandleBuffer | ais_server/ingest.py:281-288 | the inner loop handles every complete line of the buffer in order and leaves the residual, or stops at an exception |
| Ingest.ConnectionHandler.Run | ais_server/ingest.py:257-302 | whatever other threads do to the registry, the delivered sentences are the accepted ones of the stream in order, or a prefix of them if set_source_id raises; undisturbed it never raises and leaves the specified registry |
| WorkerSpec.RunConserves | ais_server/forwarder.py:61-80 | every run of the shared queue keeps the number of places of each token |
| WorkerSpec.RunKeepsInv | ais_server/forwarder.py:61-149 | in every interleaving the queue stays within queue_size and the counters match what was sent and lost |
| WorkerSpec.ExactlyOnePlace | ais_server/forwarder.py:61-149 | in every interleaving each accepted sentence is in exactly one of queue, producer's hand, worker's hand, sent, displaced, lost and skipped, and is sent at most once |
| WorkerLoop.RunWired | ais_server/forwarder.py:100-149 | in every interleaving a worker is shown as connected exactly while it has a socket, fetches and sends only with one, and leaves its loop only stopped and without one |
| WorkerLoop.ErrorsCounted | ais_server/forwarder.py:111-144 | the error counter is the number of failed connects and failed sends |
| WorkerLoop.StopTakesEffect | ais_server/forwarder.py:75-102 | in every interleaving, once stopped a worker sends at most one sentence more, none from the top of its loop, and is out of the loop for good after four steps of it, or one from the top, with its socket closed and shown as disconnected |
| WorkerLoop.StoppedWindsDown | ais_server/forwarder.py:75-102 | the same bound from any state with the flag up, over all its continuations |
| WorkerLoop.ExitsOnlyStopped | ais_server/forwarder.py:100-102 | a worker that nobody stops stays in its loop |
| WorkerOrder.CalmDelivery | ais_server/forwarder.py:61-132 | with no stop and no failed send, the queue is a suffix of the put history, sent + in hand + queue is an in-order part of it, nothing is lost, and sorted puts are delivered sorted |
| WorkerOrder.FailedSendKeepsOrderIff | ais_server/forwarder.py:139-149 | after a failed send, with any puts before its re-queue, sent + in hand + queue stays an in-order part of the put history if and only if the queue is empty or full at the re-queue |
| WorkerOrder.TameRunInOrder | ais_server/forwarder.py:61-149 | through any number of failed sends the order holds as long as each re-queue finds the queue empty or full |
| WorkerOrder.TameDelivery | ais_server/forwarder.py:61-149 | and then sorted puts are delivered sorted |
| WorkerOrder.OvertakenInTheGap | ais_server/forwarder.py:139-149 | a run in which the queue is empty when the send fails and the sentence is overtaken all the same |
| Isolation.WorkerIsIsolated | ais_server/forwarder.py:284-289 | after any interleaving of dispatches and worker steps, one worker's state equals that of the run with all other workers' steps erased |
| Isolation.WorkerRuns | ais_server/forwarder.py:284-289 | and it is a run of the single-worker machine |
| Forwarder.EndpointWorker.constructor | ais_server/forwarder.py:51-58 | a worker starts with an empty queue and no socket |
| Forwarder.EndpointWorker.Put | ais_server/forwarder.py:61-73 | put with any interference between its three queue operations is a run of the worker machine |
| Forwarder.EndpointWorker.Stop | ais_server/forwarder.py:75-80 | stop raises the flag and queues the sentinel unless the queue is full; the worker then sends at most one sentence more and leaves its loop |
| Forwarder.StopWakes | ais_server/forwarder.py:75-80 | stop puts an empty text at the end of the queue unless it is full, so that it is not empty and a waiting loop wakes up; nothing is displaced, lost or counted |
| Forwarder.EndpointWorker.CloseSock | ais_server/forwarder.py:231-238 | closing forgets the socket and clears the connected flag |
| Forwarder.EndpointWorker.OneTurn | ais_server/forwarder.py:100-149 | one turn of the loop, with any outcomes and interference, is a run of the worker machine |
| Forwarder.EndpointWorker.RunTcp | ais_server/forwarder.py:100-149 | and so is any number of turns; a worker already stopped leaves the loop in the first one without its socket and sends nothing, and the loop is left only when stopped |
| Forwarder.UndisturbedPut | ais_server/forwarder.py:61-73 | an undisturbed put leaves the newest queue_size of the queue and the sentence, displaces at most the oldest, and counts no drop |
| Forwarder.UndisturbedTurn | ais_server/forwarder.py:102-149 | what an undisturbed turn does from start to end, for each outcome of connecting and sending: queue, sent, socket and counters |
| Manager.WantedIsEnabled | ais_server/forwarder.py:253-254 | with unique ids the wanted endpoints are exactly the enabled ones |
| Manager.LastIsWanted | ais_server/forwarder.py:256 | of several enabled endpoints with one id the last one is wanted |
| Manager.MatchSparesDates | ais_server/forwarder.py:276-281 | two endpoints match if and only if they differ at most in their id and dates |
| Manager.ForwarderManager.Sync | ais_server/forwarder.py:252-273 | the workers are then exactly the wanted endpoints, each with the host, port, protocol, path, name, enabled and broadcast of its endpoint; matching workers are the same untouched objects, every other former worker is gone, stopped, and sends at most one sentence more, and a second sync changes nothing |
| Manager.ForwarderManager.Dispatch | ais_server/forwarder.py:284-289 | every running worker gets exactly one put of the sentence |
| PipelineRuns.RunKeepsInv | ais_server/pipeline.py:55-108 | in every interleaving of checks, tickets, pushes, pops and dispatches, each verdict judged new is held, ticketed or entered once, and tickets are distinct |
| PipelineRuns.ExactlyOnePlace | ais_server/pipeline.py:55-108 | at every moment each sentence judged new is in exactly one of: its ingest thread's hands before or after the ticket, the buffer, dropped, popped, dispatched; a duplicate is nowhere |
| PipelineRuns.ReleasedOnce | ais_server/pipeline.py:99-105 | no sentence comes out twice |
| PipelineRuns.DispatchesApart | ais_server/pipeline.py:55-108 | two copies that come out had checks at least ttl apart on the cache clock, unless a burst of max_entries other new keys came between |
| PipelineRuns.Balance | ais_server/pipeline.py:55-108 | new verdicts = in flight + buffered + dropped + released, at every moment |
| PipelineRuns.OutputSorted | ais_server/pipeline.py:66-108 | when nothing is stamped late the output is strictly sorted, each sentence under its own time or its first arrival |
| EndToEnd.SameBodiesApart | ais_server/pipeline.py:55-108 | accepted sentences with the same body come out only ttl apart, or after a burst |
| EndToEnd.StampOfParts | ais_server/pipeline.py:62-72 | any text is stamped with the time in its sixth comma-separated part, and with its effective arrival if there is no such part or no time in it |
| EndToEnd.StampOfParsed | ais_server/pipeline.py:62-72 | a sentence that parses is stamped with the time in its payload, and with its effective arrival if the payload carries none |
| EndToEnd.ReportStamped | ais_server/pipeline.py:62-72 | a base-station report packed and armoured into any sentence is accepted and stamped with the report's own instant, whenever it arrives |
| EndToEnd.OutputFollowsClocks | ais_server/pipeline.py:66-108 | when nothing is stamped late, sentences that carry a UTC time come out in the order of those 40 bits |
| Intake.EachLineCheckedOnce | ais_server/pipeline.py:55-60 | in every interleaving of sessions and pipeline threads, the verdicts of each session are those of exactly the accepted sentences of the lines it has handled, in order |
| Intake.WireToPipeline | ais_server/ingest.py:218-335 | from bytes to places: each sentence a node sends as CRLF lines, in any chunks, has one verdict, in order, and every new verdict is in exactly one place of the pipeline |
| Delivery.WorldRuns | ais_server/pipeline.py:55-108 | with a fixed set of workers, every run of the whole is a run of the pipeline and of the workers, and each worker has been given exactly the sentences dispatched so far, in order |
| Delivery.SentOnce | ais_server/pipeline.py:55-108 | each sentence judged new is issued at most once to each worker and sent by it at most once |
| Delivery.SentSorted | ais_server/pipeline.py:99-108 | a worker whose re-queues overtake nothing sends in order of release, and in strict (timestamp, ticket) order when nothing is stamped late |
| Delivery.SentFollowsClocks | ais_server/pipeline.py:99-108 | and the sentences that carry a UTC time in the order of those 40 bits |
| Pipeline.Server.constructor | ais_server/pipeline.py:27-40 | the server starts in the first state of the machine |
| Pipeline.Server.Detect | ais_server/pipeline.py:58-60 | the duplicate check is a step of the machine and leaves a new sentence in the thread's hand |
| Pipeline.Server.Forward | ais_server/pipeline.py:62-76 | the ticket and the push are the next two steps, under the sentence's own time or the effective arrival |
| Pipeline.Server.OnSentence | ais_server/pipeline.py:55-76 | a duplicate changes only the detector's history; a new sentence enters the buffer once, under the time in its payload or else its effective arrival |
| Pipeline.Server.OutputRound | ais_server/pipeline.py:99-108 | one round dispatches exactly the sentences stamped at or before now - hold, by timestamp and then by sequence number, and leaves the others |

## Left out

- Dedup.TtlCache.Set: cachetools is not part of the repository; which live entry a full cache evicts is left open, so every claim holds for any choice.
- Dedup.Deduper.Check: SHA-1 is replaced by the canonical sentence itself, so hash collisions are not modelled.
- HeapQueue.Pop: heapq is not part of the repository; the sift operations follow its documented heap order on a zero-based list.
- Reorder.ReorderBuffer.constructor: requires max_queue of at least one, as the drop-oldest branch needs an element to pop.
- WorkerSpec.RunKeepsInv: `stats.dropped += 1` (ais_server/forwarder.py:73, 149) runs on two threads without a lock; the model counts it together with the queue operation before it, so a lost update is not modelled.
- Intake.EachLineCheckedOnce: the keys under which concurrent sessions deliver are arbitrary here; HandlerSpec and Credits say what they are.
- Manager.ForwarderManager.Sync: requires a queue size of at least one (zero means unbounded in Python), and starting and joining threads is taken as immediate.
- Credits.SessionCredits: for sessions no other thread disturbs.
- Ingest.ConnectionHandler.Run: one reading of the clock is used for all registry operations of one received chunk; an idle timeout or socket error is the end of the list of chunks.
- Pipeline.Server.OnSentence: this object runs one thread at a time; the interleavings of several ingest threads with the output thread are in PipelineRuns.
- Pipeline.Server.OutputRound: dispatch records the call; what the workers do with it is in Manager, Isolation and Delivery.
- Delivery.SentOnce: the set of workers is fixed and none is stopped, as sync replaces workers with new, empty queues.
- Text.StripCuts: text is ASCII, as the ingest decodes it; white space, digits and case of other characters are not modelled.
- Text.PyIntOfDecimal: recent Python versions refuse to convert very long decimals; that limit is not modelled.
- Times, hold and ttl are integers; floating-point rounding is not modelled.
- TCP sockets, keepalive and real threads: recv is a list of chunks, sendall succeeds or fails nondeterministically.
- The UDP and HTTP workers, reconnect backoff, and the error texts and rates in the statistics would add only easy members.
- Log rate-limiting, snapshots for the web pages, the rate and MMSI statistics, the incoming-data feed, and `wait_next` do not influence the stream.
- An exception in the `on_sentence` callback is logged by the handler; the model's callback does not raise.
- Web UI, command line, database, configuration, supervisor and system probes are outside the core.
