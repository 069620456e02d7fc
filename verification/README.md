# AIOS pure logic in Dafny

A model of the parts of AIOS that carry its protocol and data invariants, with
proofs that hold for every input, every run and every interleaving.

| files | what they model |
|---|---|
| `OwnerStamp`, `LockProtocol`, `StampReuse`, `LockSnapshot`, `SnapshotRuns` | the owner-stamped lock: the 64-bit stamp word, contention verdicts over all interleavings of CPUs, threads, interrupts and dispatches, when a stamp is stored twice, and consistent snapshots of the holder |
| `WakeTable`, `WakeVerdicts`, `WakeRuns`, `Masks`, `TwoStrike` | the tripwire detectors: skipped-wake verdicts, thread masks, two-strike confirmation and its counters |
| `TripwireKeys`, `TripwireSlots`, `TripwireLine`, `TripwireWriter`, `TripwireReader`, `TripwireLog`, `SerialLog` | the tripwire keys and their counter slots; the line, its writer and its length; its reader, and the text of logs with torn lines and other output |
| `Capabilities`, `CapabilityRuns` | the capability table: cascade revocation, and what every run of grants, attenuations and revocations keeps |
| `Utf8`, `LogMessages`, `LogDrain`, `SurfaceTitles` | log messages from formatting to printing with entries lost on the way, and surface titles, over the UTF-8 grammar |
| `Crc32c`, `CrcBursts`, `Wal`, `MemTable` | CRC-32C, what it protects in write-ahead-log entries, and the block index |
| `Paths`, `RelativePaths`, `LinkWalks`, `ResolvedPaths`, `Realpath` | POSIX path algebra and symbolic-link resolution |
| `Bump`, `CacheLines` | the early-boot allocator and cache-line enumeration |
| `Basics`, `Bits`, `ExclusiveOr`, `Text`, `Decimal` | machine-word operations on natural numbers, splitting and joining, decimal digits |

`dafny verify dfyconfig.toml` checks the project.

## How the source is read

- A machine word is a natural number below its bound; wrap-around, truncation
  and masking are written out with `Bits` and `ExclusiveOr`.
- Concurrent code is a state machine of atomic steps, and a theorem about it
  quantifies over all step sequences. Interleavings are sequentially consistent.
- Objects that the source updates in place are classes; each method's
  postcondition ties the new state to a specification function, and the laws are
  lemmas about those functions.
- Clocks, counters read from hardware, register values and the file system are
  parameters.

## Where the source promises more than it does

- `shared/src/compositor.rs:548-550` says a title built from invalid UTF-8 keeps
  the longest valid prefix. `SurfaceTitles.InvalidByteKept` is a byte that is
  kept although no prefix with it is valid; `LongestPrefixExactly` is the exact
  condition.
- `shared/src/tripwire.rs:1934-1936` says a `latereply` caller is woken by its
  timeout, or has been. In `WakeRuns.EarlyTimeoutHidesWedge` the timeout is
  spent before the caller blocks, and nothing is left to wake it. In
  `WakeRuns.LateReplyCanRemoveAnotherWaitsTimeout` the timeout of the wait that
  was replied to did wake the caller; what fails is the caller's next wait, whose
  timeout entry the late reply removes. `WakeVerdicts.LateReplyExactly` says, for
  every run, exactly when a timeout is still to come.
- The same table calls a skipped wake on the waiter's channel `rblk` when the
  wake removed the waiter's timeout entry. `WakeRuns.SlowTimeoutRaisesFalseAlarm`
  is a run in which the entry removed was an earlier wait's;
  `WakeVerdicts.BlockedVerdictExactly` is the exact condition.
- `kernel/src/ipc/channel.rs:250-262` drops a call's reference only when it was
  woken with an error. In `WakeRuns.MisdirectedReplyLeavesReference` another
  call's late reply wakes the caller, which leaves with the channel still naming
  it.
- `shared/src/lock.rs:403-405` says a stamp is taken again only on the same CPU
  with no dispatch. In `StampReuse.RetakenAfterDispatch` a dispatch falls between
  a stamp's read and its CAS, and the second CAS is on another CPU;
  `StampReuse.StoredTwiceExactly` is the exact condition.
- A run of 2^32 inserts of one key wraps its reference count to 0, and the next
  decrement frees a block still referred to (`MemTable.WrappedCountFreesEarly`);
  `MemTable.RefcountExactly` says for how long a count is right.
- The relative-path law fails from a bare relative directory
  (`RelativePaths.RelPathFromBareDirectory`); `RelPathExactly` says when it holds.
- A generation that wraps 54 bits forges a re-entry
  (`OwnerStamp.WrappedGenerationForgesReentry`), a reused stamp word mixes two
  holders in one snapshot (`LockSnapshot.ReusedStampMixesHolders`), and one
  five-byte change to a message keeps its CRC-32C
  (`CrcBursts.FiveByteChangeUnseen`): each bound in the theorems beside them is
  needed.
- Two messages with one timestamp and core can be joined when entries are lost
  (`LogDrain.SharedStampJoinsTwoMessages`). `LogDrain.LossyDrainExactly` says
  exactly when; a ring that lost nothing needs no condition on the stamps.

## Model

| member | source | states |
|---|---|---|
| OwnerStamp.StampRoundTrip | shared/src/lock.rs:132-195 | decoding a stamp gives back CPU and IRQ state for every input, and the generation modulo 2^54; a stamp is never the free word |
| OwnerStamp.WordRoundTrip | shared/src/lock.rs:149-190 | a 64-bit word decodes exactly when its top bit is set, and every such word is the encoding of its own fields |
| OwnerStamp.StampMatches | shared/src/lock.rs:186-195 | a stamp matches a counter exactly when they agree modulo 2^54 |
| OwnerStamp.ClassifyExactly | shared/src/lock.rs:276-301 | on any two held words the verdict is the unbounded one on generations taken modulo 2^54, whatever the IRQ bits |
| OwnerStamp.NearGenerationsDiffer | shared/src/lock.rs:186-195 | generations less than 2^54 apart are told apart |
| OwnerStamp.ClassifyRefinesJudge | shared/src/lock.rs:276-301 | on words, contention is classified as on unbounded generations while no compared stamp is 2^54 dispatches old |
| OwnerStamp.WrappedGenerationForgesReentry | shared/src/lock.rs:186-195 | at 2^54 dispatches a preempted holder is classified as the waiter's own re-entry |
| LockProtocol.StepKeepsInv | shared/src/lock.rs:45-86 | every atomic step of every CPU, thread, interrupt and dispatcher keeps the protocol's invariant |
| LockProtocol.RunKeepsInv | shared/src/lock.rs:45-86 | so does every run |
| LockProtocol.StampNamesOwnOrEndedGeneration | shared/src/lock.rs:303-326 | a stamp read across preemptions and migrations names the taker's current stream or a generation already over |
| LockProtocol.ReentryIsOwnStream | shared/src/lock.rs:45-86 | a re-entry verdict means the waiter never left the generation it stamped, and its own stream stored the word it saw and still holds the lock |
| LockProtocol.VerdictTable | shared/src/lock.rs:235-301 | each of the four verdicts holds exactly under its stated position of waiter and holder; a switched waiter gets only other-CPU verdicts |
| LockProtocol.ReentryNeverEnds | shared/src/lock.rs:45-86 | after a re-entry verdict the lock stays held by the same stack for as long as the waiter waits |
| LockProtocol.AtMostOneGuard | shared/src/lock.rs:440-468 | in every reachable state one frame at most holds the guard |
| LockProtocol.RuleBIsNeeded | shared/src/lock.rs:60-86 | without the rule that a dispatcher drops the lock before it restores a thread, a run reaches a false re-entry |
| StampReuse.StampWasRead | shared/src/lock.rs:303-326 | in every run a frame's stamp is what that frame's last generation read gave |
| StampReuse.StoredTwiceExactly | shared/src/lock.rs:403-405 | two steps of a run store the same stamp exactly when the reads behind them were of one CPU with no dispatch on it between them |
| StampReuse.RetakenAfterDispatch | shared/src/lock.rs:403-405 | a run stores one stamp twice with a dispatch between the stores, and the second time on another CPU |
| LockSnapshot.AtMostOneGuard | shared/src/lock.rs:440-468 | with restamping and field clearing, one guard at most, and the word names its acquisition |
| LockSnapshot.SnapshotWithinTwoLoads | shared/src/lock.rs:408-421 | a returned snapshot saw only cleared fields or fields stored between the acquisitions of its two loads |
| LockSnapshot.SnapshotIsOfTheStampsOwner | shared/src/lock.rs:88-100 | with no stamp word reused, those fields belong to the one acquisition that owns the returned stamp |
| LockSnapshot.ReusedStampMixesHolders | shared/src/lock.rs:88-100 | with a stamp word reused, a snapshot returns a later holder's field |
| SnapshotRuns.NotReusedExactly | shared/src/lock.rs:396-405 | when a snapshot run stores the stamps of a protocol run, no stamp is reused exactly when no two acquisitions store stamps read on one CPU with no dispatch on it between the reads |
| SnapshotRuns.SnapshotIsOfTheOwner | shared/src/lock.rs:396-405 | in every such run a snapshot's fields are cleared or those of the acquisition that owns its stamp |
| WakeTable.StepKeepsInv | kernel/src/ipc/channel.rs:103-262 | each step of the waiter, of any number of replies, sends and cancellations, and of the timer keeps the relation between phase, channel, timeout entry, references and what every wake under way has done |
| WakeVerdicts.EntryExactly | kernel/src/ipc/timeout.rs:88-122 | a blocked waiter has its timeout entry exactly when it is timed and no wake is its timeout or removed that entry |
| WakeVerdicts.TouchedOnce | kernel/src/ipc/timeout.rs:88-122 | one wake at most is that or did that |
| WakeVerdicts.RemoverIs | kernel/src/ipc/timeout.rs:184-199 | a wake that removed a blocked waiter's entry answers or cancels that very wait, or comes from an earlier one |
| WakeVerdicts.TimeoutToComeExactly | kernel/src/ipc/timeout.rs:88-168 | a timeout is still to wake a blocked waiter exactly when it is timed, no wake removed its entry and its timeout's own wake is not over |
| WakeVerdicts.VerdictTable | shared/src/tripwire.rs:1973-2041 | over every run, each verdict on a skipped wake holds exactly under its stated relation of the waiter's wait to the wake's side, channel, phase and clear |
| WakeVerdicts.BlockedVerdictExactly | shared/src/tripwire.rs:1973-2041 | rblk and vblk mean a waiter blocked in that wait with no entry exactly when, in that wait, a timed waiter's entry was fired or removed by some wake just when this wake is to blame |
| WakeVerdicts.SkippedWakeVerdict | shared/src/tripwire.rs:1973-2041 | they do whenever no other wake touched the wait's entry and this one's clear was not an earlier wait's; rpre, vpre and latereply waiters in that wait then block with one |
| WakeVerdicts.LateReplyExactly | shared/src/tripwire.rs:1934-1970 | a blocked latereply caller has a timeout to come exactly when its wait is timed, no wake removed its entry, and its timeout was not spent before it blocked |
| WakeVerdicts.WakeVerdictOfWoken | shared/src/tripwire.rs:2000-2041 | a reply that woke counts misrep exactly when the waiter was blocked in another wait |
| WakeVerdicts.AnsweredOnce | kernel/src/ipc/channel.rs:418-432 | every wait is answered or cancelled once at most, in its own place, and not while its reference is still there |
| WakeVerdicts.ReferencesAreOfWaits | kernel/src/ipc/channel.rs:117-136 | each channel that names the waiter does so for a wait of its own, and in a wait only its own channel does so for it |
| WakeRuns.EarlyTimeoutHidesWedge | shared/src/tripwire.rs:1934-1970 | a timeout spent before the waiter blocks leaves a wedge counted as latereply |
| WakeRuns.LateReplyCanRemoveAnotherWaitsTimeout | kernel/src/ipc/timeout.rs:184-199 | a reply one wait late removes the next wait's timeout and counts latereply |
| WakeRuns.SlowTimeoutRemovesNextTimeout | kernel/src/ipc/timeout.rs:88-122 | a timeout that has taken its entry and is slow to wake removes the next wait's |
| WakeRuns.SlowTimeoutRaisesFalseAlarm | shared/src/tripwire.rs:1973-2041 | a reply that removed an earlier wait's entry counts rblk for a waiter that has its own |
| WakeRuns.MisdirectedReplyLeavesReference | kernel/src/ipc/channel.rs:228-262 | a late reply wakes the caller's next call, counts misrep, and the caller leaves with that channel still naming it |
| Masks.MaskTestIsMember | shared/src/tripwire.rs:1389-1396 | the bit test is membership in the mask's set of threads |
| Masks.SetTid | shared/src/tripwire.rs:1361-1387 | adds exactly that thread and says whether it is new, was there, or is no thread of the mask, which then stays as it was |
| Masks.AndIsIntersection | shared/src/tripwire.rs:1692-1741 | masking two masks intersects their sets |
| Masks.PopLowest | shared/src/tripwire.rs:1398-1412 | takes the least thread out of the set, or reports the empty set |
| Masks.CountTids | shared/src/tripwire.rs:1418-1427 | the nibble loop counts the set's members |
| Strikes.TwoStrike.CheckGate | shared/src/tripwire.rs:1692-1741 | the gate is open exactly when each online CPU with a non-zero tick advanced at least 100 |
| Strikes.TwoStrike.Strike | shared/src/tripwire.rs:1692-1741 | confirms the twice-flagged threads with equal LAST_RUN, and records every flagged thread's |
| Strikes.TwoStrike.Scan | shared/src/tripwire.rs:1692-1741 | one scan gives the specified result and history, and changes nothing when it stalls |
| Strikes.HistoryRemembers | shared/src/tripwire.rs:1640-1741 | after any run of scans the kept state is what the last completed scan read |
| Strikes.ConfirmedExactly | shared/src/tripwire.rs:1640-1741 | over any run, a thread is confirmed exactly when this scan and the last completed one flag it with equal LAST_RUN and the gate opened; a stall leaves the history |
| Strikes.EventsAreRisingEdges | shared/src/tripwire.rs:1752-1796 | the events counted are the rising edges of each thread's confirmed bit, summed over threads |
| Strikes.EventsAppend | shared/src/tripwire.rs:1752-1796 | each recorded set adds the number of threads that entered it |
| Strikes.EdgeCounter.Update | shared/src/tripwire.rs:1789-1796 | replaces the set and returns exactly the threads that entered |
| Strikes.ScanKind.Record | kernel/src/observability/tripwire.rs:855-872 | keeps the counter equal to the events of all recorded sets and the gauge equal to the last set's size |
| Strikes.ScanKind.Confirm | kernel/src/observability/tripwire.rs:855-872 | a stalled scan counts only itself, any other records its confirmed set |
| TripwireKeys.NameFacts | shared/src/tripwire.rs:594-660 | every key's name is free of separators and determines its key |
| TripwireKeys.NamesAreDistinct | shared/src/tripwire.rs:594-660 | no two keys print the same name |
| TripwireSlots.SlotBases | shared/src/tripwire.rs:741-770 | the loop gives each key the sum of the slots before it |
| TripwireSlots.SlotsAreDistinct | shared/src/tripwire.rs:720-727 | no two values of any keys share a counter slot |
| TripwireSlots.SlotsFillRow | shared/src/tripwire.rs:720-770 | the slots handed out are exactly those of a row |
| TripwireLine.ValueTextRoundTrip | shared/src/tripwire.rs:36-59 | a key's comma-separated values split back into their digits |
| TripwireLine.ReadBack | shared/src/tripwire.rs:54-59 | for all values, CPU counts and modes every key's numbers are found among the line's pairs, omitted keys as zeros |
| TripwireReader.KeyTexts | tools/src/cmd/soak/tripwire.rs:116-124 | the loop over the pairs gives each key the text of its last pair, or 0 |
| TripwireReader.ParseLine | tools/src/cmd/soak/tripwire.rs:83-140 | the reader's loops compute the specified line from the record's first marker, or nothing |
| TripwireReader.FindIsFirst | tools/src/cmd/soak/awk.rs:222-228 | the place found is one, and there is none before it |
| TripwireReader.MarkerFound | tools/src/cmd/soak/awk.rs:222-228 | a marker in what comes before a line is found first, otherwise the line's own |
| TripwireReader.FieldsAppend | tools/src/cmd/soak/awk.rs:210-215 | the fields of two texts with a blank between them are the fields of each |
| TripwireLog.MidRecordExactly | tools/src/cmd/soak/tripwire.rs:9-15 | a whole line is read, with its own text and pairs, exactly when nothing before it on its record holds a marker |
| TripwireLog.TornExactly | tools/src/cmd/soak/tripwire.rs:12-25 | a line cut anywhere, after text without a marker, is never read; the whole line is |
| TripwireLog.BodyIsOneLine | shared/src/tripwire.rs:50-51 | the newline that ends a written line is its only one |
| SerialLog.RecordsAre | tools/src/cmd/soak/classify.rs:348-355 | the records of terminated lines and an open tail are those lines, and the tail unless it is empty |
| SerialLog.RecordIsRead | tools/src/cmd/soak/tripwire.rs:83-140 | from a record with a whole line, a torn one or neither, the reader gets exactly the line written whole in it |
| SerialLog.LastLines.Observe | tools/src/cmd/soak/tripwire.rs:151-161 | keeps the last complete line and the last complete `src=g1` line of all records observed |
| SerialLog.ReadLog | tools/src/cmd/soak/classify.rs:359-366 | observing every record of a log's text in turn computes what the specification keeps of it |
| SerialLog.LastOfExactly | tools/src/cmd/soak/tripwire.rs:142-161 | a line is kept exactly when some complete line meets the condition, and it is the one at the greatest index |
| SerialLog.LogIsRead | tools/src/cmd/soak/tripwire.rs:9-25 | of the text of any log of whole lines, torn lines and other output, terminated or not, exactly the lines written whole are read |
| SerialLog.LogKeepsLastWhole | tools/src/cmd/soak/tripwire.rs:16-25 | a log's text keeps its last whole line, whatever was torn or printed after it |
| SerialLog.LogKeepsNone | tools/src/cmd/soak/tripwire.rs:16-25 | and no line exactly when none was written whole in it |
| SerialLog.CutStreamIsRead | shared/src/tripwire.rs:50-59 | a stream of written lines that ends anywhere is read as its last line that is all there but perhaps for its newline |
| SerialLog.StreamRecoversValues | shared/src/tripwire.rs:1104-1149 | after any written lines, what the writer's next line adds to the stream is read back with its source, prefix and values |
| TripwireLog.LineRecoversValues | shared/src/tripwire.rs:1104-1149 | for all values, CPU counts, modes and marker-free output before it, the written line is read as version 1 with its source, its prefix and every printed key's values, the others as 0 |
| TripwireWriter.TopPower | shared/src/tripwire.rs:964-981 | finds the largest power of ten not above a 64-bit value, whose tenfold may overflow |
| TripwireWriter.BufSink.Put | shared/src/tripwire.rs:950-962 | keeps the first bytes that fit and notes an overflow |
| TripwireWriter.BufSink.PutDec | shared/src/tripwire.rs:964-981 | appends exactly the decimal digits of the value |
| TripwireWriter.BufSink.WriteLine | shared/src/tripwire.rs:1104-1149 | appends exactly the specified line |
| TripwireWriter.LineFits | shared/src/tripwire.rs:1048-1094 | no line exceeds MAX_LINE_LEN |
| TripwireWriter.LongestLine | shared/src/tripwire.rs:1048-1094 | a full panic line of 20-digit values has exactly that length |
| TripwireWriter.MaxValueLen | shared/src/tripwire.rs:1087-1094 | the largest 64-bit value has 20 digits |
| Capabilities.PermitsExactly | shared/src/cap.rs:76-101 | a capability permits itself and nothing else |
| Capabilities.AttenuationIsPreorder | shared/src/cap.rs:107-119 | attenuation is reflexive, transitive and antisymmetric, and never widens what is permitted |
| Capabilities.CapabilityTable.constructor | shared/src/cap.rs:166-171 | the new table has 256 free slots and count 0 |
| Capabilities.CapabilityTable.Grant | shared/src/cap.rs:174-183 | fills the first free slot or reports a full table; count stays the number of live tokens exactly unless a token is granted already revoked |
| Capabilities.CapabilityTable.Get | shared/src/cap.rs:186-192 | yields the live token of the slot and nothing for any other handle |
| Capabilities.CapabilityTable.FindAuthorizingToken | shared/src/cap.rs:202-221 | the first live unexpired token that permits the action, and none only when there is none |
| Capabilities.CapabilityTable.Revoke | shared/src/cap.rs:224-260 | ends, marks exactly the live tokens joined to a live `id` by parent links through live tokens, changes no other, and keeps count the number of live tokens |
| Capabilities.CapabilityTable.MarkSlot | shared/src/cap.rs:243-256 | each revoked token's id gets a place in the list: the capacity guard never drops one |
| Capabilities.CapabilityTable.MarkChildren | shared/src/cap.rs:239-259 | a pass that marks nothing leaves the marks closed under parent links, any other lengthens the list |
| Capabilities.CapabilityTable.Attenuate | shared/src/cap.rs:266-299 | grants a narrower child of a live token, or reports the error the source gives |
| Capabilities.MarksAreDoomed | shared/src/cap.rs:224-260 | a closed set of marks within the cascade is the whole cascade |
| CapabilityRuns.StepKeepsInv | shared/src/cap.rs:174-299 | each operation keeps ids unique, parents before children, links narrowing, and parents of live tokens live |
| CapabilityRuns.RunKeepsInv | shared/src/cap.rs:174-299 | so does every run |
| CapabilityRuns.AncestorsLiveAndBroader | shared/src/cap.rs:107-119 | in every run all ancestors of a live token are live and each could be attenuated to it directly |
| CapabilityRuns.LiveFromRoot | shared/src/cap.rs:107-119 | in every run a live token's parent links lead to a granted root, and every token on the way is live and could be attenuated to it directly |
| CapabilityRuns.HandleNamesOneToken | shared/src/cap.rs:174-192 | a handle names the same token for ever; looking it up later gives that token unchanged or nothing |
| CapabilityRuns.DoomedExactlyDescendants | shared/src/cap.rs:224-260 | in reached tables a revocation hits exactly the live descendants |
| CapabilityRuns.RevocationsCommute | shared/src/cap.rs:224-260 | two revocations leave the same table in either order, and repeating one changes nothing |
| Utf8.BoundaryCuts | shared/src/observability.rs:191-204 | in valid text the byte test for a character boundary finds exactly the offsets that leave valid text on both sides |
| Utf8.FloorIsLongest | shared/src/observability.rs:191-204 | the cut is the longest valid prefix within the limit |
| Utf8.FloorCharBoundary | shared/src/observability.rs:193-204 | the backward search finds that cut |
| Utf8.ValidUpToIsLongest | shared/src/observability.rs:162-168 | text is cut at the end of the longest valid prefix |
| LogMessages.TextIsValid | shared/src/observability.rs:158-168 | whatever bytes an entry holds, its text is valid UTF-8 and the longest such prefix |
| LogMessages.TextRoundTrip | shared/src/observability.rs:173-188 | an entry made from text and mark reads back as both |
| LogMessages.SplitFits | shared/src/observability.rs:227-248 | each piece of a split is valid text and fits its entry with its mark |
| LogMessages.LogMessageBuf.WriteStr | shared/src/observability.rs:325-338 | keeps the longest character-boundary prefix of at most 96 bytes of all that was written, and is truncated exactly when more was written |
| LogMessages.LogMessageBuf.Format | shared/src/observability.rs:251-338 | the same for any sequence of writes |
| LogMessages.LogMessageBuf.Entries | shared/src/observability.rs:293-315 | the entries are those of the whole message written |
| LogDrain.PrintRoundTrip | shared/src/observability.rs:289-379 | formatting, splitting, joining and printing gives the message when its pieces fit, otherwise a boundary prefix and `~`; each entry's text is valid UTF-8 |
| LogDrain.PrintedWholeExactly | shared/src/observability.rs:217-248 | the message is printed unchanged exactly when its pieces fit |
| LogDrain.Drain.NextLogLine | shared/src/observability.rs:394-430 | takes exactly the next line's entries, leaves every other unread, a pending one included, and reports nothing only when nothing is left |
| LogDrain.Drain.All | shared/src/observability.rs:381-430 | calling until nothing is left gives the lines of all unread entries |
| LogDrain.LinesPartitionEntries | shared/src/observability.rs:394-430 | every entry read is in exactly one line, in order |
| LogDrain.LossyDrainExactly | shared/src/observability.rs:394-430 | whatever entries are lost, each message yields exactly its own lines, joined or marked, exactly when no head that lost its tail is followed, as the next entry read, by a tail with its stamp that lost its head |
| LogDrain.LossyDrain | shared/src/observability.rs:394-430 | so always when each message has its own stamp; then no line joins two messages |
| LogDrain.SharedStampJoinsTwoMessages | shared/src/observability.rs:381-393 | two messages with one stamp, a tail and a head lost, are read as one |
| LogDrain.LossFreeRingPrintsAll | shared/src/observability.rs:394-430 | a ring that lost nothing prints every message from a whole line, whatever the stamps |
| SurfaceTitles.IsContinuation | shared/src/compositor.rs:557-561 | the mask test picks exactly the UTF-8 continuation bytes |
| SurfaceTitles.FromBytes | shared/src/compositor.rs:551-605 | the nested loops end and keep the bytes before an unfinished last character, zero-padded to 64 |
| SurfaceTitles.TitleOfValid | shared/src/compositor.rs:546-605 | from valid UTF-8 the title is the longest valid prefix of at most 64 bytes |
| SurfaceTitles.LongestPrefixExactly | shared/src/compositor.rs:546-605 | on any bytes it is the longest valid prefix exactly when they are valid text followed at most by a character cut short |
| SurfaceTitles.InvalidByteKept | shared/src/compositor.rs:548-550 | a lone 0xFF is kept |
| Crc32c.PolyIsReflected | shared/src/storage.rs:830-833 | the table's constant is the generator 0x1EDC6F41 bit-reversed |
| Crc32c.BuildTable | shared/src/storage.rs:831-850 | each entry is eight steps of the bitwise register from its index |
| Crc32c.TableStep | shared/src/storage.rs:853-859 | an entry and a shift do eight bitwise steps |
| Crc32c.StepDivides | shared/src/storage.rs:831-850 | a step of the reflected register is a step of polynomial division |
| Crc32c.FoldIsCrc | shared/src/storage.rs:853-859 | folding bytes into an all-ones register and complementing is the CRC by division over message bits |
| Crc32c.Checksum | shared/src/storage.rs:853-859 | the table-driven loop computes the CRC-32C of every byte string |
| CrcBursts.CrcUnique | shared/src/storage.rs:853-859 | a message has one CRC-32C |
| CrcBursts.FoldIsSteps | shared/src/storage.rs:853-859 | folding a message is mixing its number in once and stepping |
| CrcBursts.ShortFoldInjective | shared/src/storage.rs:853-859 | up to four bytes are determined by the register before and after them |
| CrcBursts.BurstDetected | shared/src/storage.rs:853-859 | a change confined to four consecutive bytes changes the checksum, in every message |
| CrcBursts.FiveByteChangeUnseen | shared/src/storage.rs:853-859 | five bytes are too many: one change anywhere in any message keeps it |
| Wal.WalEntry.IsValid | shared/src/storage.rs:1230-1241 | accepts exactly the entries whose checksum is the CRC-32C of their first 56 bytes |
| Wal.DamagedEntryInvalid | shared/src/storage.rs:1175-1241 | a valid entry changed within four consecutive of those bytes is invalid |
| Wal.SizeAndCommitProtected | shared/src/storage.rs:1175-1241 | changing the size field or the commit flag of a valid entry makes it invalid |
| MemTable.LessTotal | shared/src/storage.rs:984-987 | hashes are totally ordered byte by byte |
| MemTable.LessTrans | shared/src/storage.rs:984-987 | and the order is transitive |
| MemTable.MemTable.constructor | shared/src/storage.rs:889-894 | a new table is empty |
| MemTable.MemTable.BinarySearch | shared/src/storage.rs:984-987 | finds the key, or the one gap where it belongs |
| MemTable.MemTable.Get | shared/src/storage.rs:917-920 | agrees with the reference map, absent keys included |
| MemTable.MemTable.Insert | shared/src/storage.rs:931-957 | keeps the vector strictly sorted and within capacity and acts on the reference map: one more 32-bit reference, a new block, or full |
| MemTable.MemTable.Remove | shared/src/storage.rs:960-964 | the same for removal |
| MemTable.MemTable.DecRef | shared/src/storage.rs:970-981 | the same for dropping a reference, removing at the last |
| MemTable.RefcountExactly | shared/src/storage.rs:931-981 | in every run a key's location is that of the insert that brought it in, and its count has been the inserts minus decrements since it was last absent, at least 1, exactly as long as that number has fitted 32 bits |
| MemTable.FewInsertsFit | shared/src/storage.rs:931-957 | it has fitted if the key had fewer than 2^32 inserts |
| MemTable.WrappedCountFreesEarly | shared/src/storage.rs:931-981 | a run of 2^32 inserts of one key wraps its count to 0, and the next decrement frees the block with 2^32 - 1 references left |
| Paths.NormPath | tools/src/paths.rs:28-57 | the component stack computes the normal form |
| Paths.ComponentsNormal | tools/src/paths.rs:28-57 | its components have no empty or `.` part, and `..` only leading a relative path |
| Paths.ParseRender | tools/src/paths.rs:28-57 | slashes and components are recovered from a normal form |
| Paths.NormIdempotent | tools/src/paths.rs:28-57 | normalising twice is normalising once |
| Paths.JoinedComponents | tools/src/paths.rs:60-68 | a joined path reads the first path's components, then the second's |
| Paths.NormBeforeJoin | tools/src/paths.rs:60-68 | normalising the first path before a join changes nothing, for all pairs |
| Paths.JoinDirAndBase | tools/src/paths.rs:71-85 | directory and last component of any path join back to it |
| RelativePaths.RelPathExactly | tools/src/paths.rs:107-128 | joining the relative path to the start gives the target exactly when leading slashes agree and the start does not climb past what they share |
| RelativePaths.RelPathOfAbsolute | tools/src/paths.rs:107-128 | always, for absolute paths with one leading slash |
| RelativePaths.RelPathFromBareDirectory | tools/src/paths.rs:112-128 | from a bare current directory, the name `a` becomes `../a` and the law fails |
| Realpath.Follow | tools/src/paths.rs:166-203 | each branch on a name, cached links and links in progress included, stays on the way of plain expansion or has met a loop |
| Realpath.RealPath | tools/src/paths.rs:130-213 | ends on every finite set of links and from every directory, meets a link again while resolving it exactly when plain expansion never ends, and otherwise arrives where plain expansion does; with a loop or without, every link left in the path cannot be read or never ends |
| Realpath.MetAgainDiverges | tools/src/paths.rs:178-186 | a link found in progress by the resolver's own bookkeeping never ends |
| LinkWalks.LoopDiverges | tools/src/paths.rs:178-186 | a link met again within its own expansion never ends |
| ResolvedPaths.ResolvedNoLinks | tools/src/paths.rs:130-213 | with no loop and a link-free working directory, no prefix of the result is a readable link |
| ResolvedPaths.FixedExactly | tools/src/paths.rs:130-213 | a canonical path resolves to itself exactly when no prefix of it is a readable link: links that cannot be read stay |
| ResolvedPaths.ResolvedTwice | tools/src/paths.rs:130-213 | resolving a resolved path again changes nothing |
| Bump.AlignedIs | kernel/src/mm/bump.rs:29-33 | masking rounds up to the first multiple of the alignment |
| Bump.StepKeepsInv | kernel/src/mm/bump.rs:27-44 | each step of each call keeps the blocks in order below the offset, which never decreases |
| Bump.BlocksDisjoint | kernel/src/mm/bump.rs:23-44 | in every interleaving, spurious failures included, returned blocks are aligned, inside the buffer and pairwise disjoint |
| Bump.OffsetNeverDecreases | kernel/src/mm/bump.rs:27-44 | the offset never goes back between two points of a run |
| Bump.NullOnlyWhenFull | kernel/src/mm/bump.rs:34-36 | a call that gives up on an old offset would not fit at the current one |
| CacheLines.DecodesLineSize | shared/src/cache.rs:32-39 | bits 19 to 16 give a line of a power of two bytes, from 4 to 128 KiB |
| CacheLines.DecodesFlags | shared/src/cache.rs:32-39 | the flags are bits 28 and 29 |
| CacheLines.OnePerLine | shared/src/cache.rs:74-82 | the addresses rise strictly, lie in the range, start at its start, and each overlapping line has exactly one, up to the top of the address space |
| CacheLines.EveryRegisterValue | shared/src/cache.rs:32-82 | the same for the line size of every register value |

## Left out

- Weak memory orderings and compiler fences of the lock and the allocator: interleavings are sequentially consistent.
- `unsafe` aliasing and the data behind the lock.
- WakeVerdicts.SkippedWakeVerdict: it holds for undisturbed waits, because the table is wrong for others; `BlockedVerdictExactly` has the exact condition.
- WakeTable.StepKeepsInv: one waiter, with other threads as wakes; a direct switch to the waiter counts as its unblock, and select and notification waits are not modelled.
- TwoStrike's readers of scheduler state, `classify_slot`, `is_starved` and the other detectors' decisions: finite case tables.
- The soak tool's event counts and reports, and its preprocessing: a log's text is what is left once NUL, carriage-return and escape bytes are dropped.
- `put_hex`, the re-entry message and the counter rows' sums and maxima: formatting and folds of the same kind as what is modelled.
- CapabilityRuns.AncestorsLiveAndBroader: does not say that an expiry narrows, because `attenuate` stores the new expiry as given.
- `CapabilityTable::list` and usage counts.
- MemTable.MemTable.Insert: the count wraps at 32 bits as in a build without overflow checks; a build with them stops there instead.
- `MemTable::get_mut` and the object and space indexes: they hand out unrestricted mutable references, or repeat the same sorted vector.
- Wal.WalEntry.IsValid: integers are laid out little-endian as on AArch64; the padding after the checksum is not part of the entry.
- SHA-256 content hashes: keys are any byte strings.
- Realpath.RealPath: links do not change during a call, and targets are text. Once a loop is met, the text of the rest of the path is not determined, only which links it can contain.
- ResolvedPaths.ResolvedNoLinks: speaks of links that can be read, because the resolver keeps those that cannot (`FixedExactly`).
- Bump.BlocksDisjoint: the sums the source forms, base with buffer and alignment and offset with size, stay within an address of any width; it wraps otherwise.
- CacheLines.OnePerLine: addresses are below 2^width for any width, 64 in the source.
- `splitext`, Windows and non-UTF-8 path text.
- Boot, device probing, page tables, the scheduler, IPC payloads and the command-line tools.
