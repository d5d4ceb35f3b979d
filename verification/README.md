# Verification of the Qubic archiver core

The archiver ingests ticks of the Qubic network one by one into an ordered key-value store and
answers queries over it. This project models that core in Dafny and proves what it keeps over whole
runs: the progress machine under interruptions, the request gate, the votes it stores and serves, the
chain of digests, the empty-tick caches, the byte keys and their range scans, the transfer index and
its paging, the validation of votes and transactions, and the tick listings.

`dafny verify dfyconfig.toml` checks everything.

## How the model is built

| file | content |
|---|---|
| `Bytes.dfy`, `Wrappers.dfy`, `Selection.dfy` | integers of fixed width, byte orders, hexadecimal text, key order; options and results; keeping the elements of a list that have a property, in order |
| `Keys.dfy` | all key builders, the order in which an iterator visits keys, exactness of the range scans |
| `Progress.dfy`, `ProgressRuns.dfy`, `RunInvariant.dfy` | one processing pass as a list of durable writes, runs of passes that may stop between any two writes and be followed by any other report, and their invariant |
| `CleanRuns.dfy`, `Retries.dfy`, `CatchUp.dfy` | the exact state after runs without interruptions, what retries with the same report leave, and how repeated passes catch up with a node |
| `Gate.dfy`, `GateRuns.dfy`, `SolidRuns.dfy` | interval lookups and the request gate over all runs; intervals of more than one tick hold processed ticks only; what keeps intervals ordered |
| `Votes.dfy`, `Quorum.dfy` | hashed layouts of votes, alignment, signatures, quorum safety |
| `QuorumRecords.dfy`, `QuorumLookup.dfy`, `IntervalVotes.dfy`, `InterruptedVotes.dfy` | stored forms of votes, their reconstruction, and what is served for every tick, after whole and after interrupted passes |
| `Archive.dfy`, `ArchiveRuns.dfy`, `StoredComputors.dfy`, `ChainCommitment.dfy` | everything recorded for a tick as one state machine, whose actions are passes stopped after any write and starts of the program; its invariants; which computors are stored; what a chain digest is made of and commits to |
| `EmptyTicks.dfy`, `EmptyRetries.dfy`, `Restarts.dfy`, `EpochListing.dfy` | the empty-tick caches, retries and restarts, and the tick listings |
| `Examples.dfy` | runs for what the exact conditions exclude |
| `Paging.dfy`, `TransferIndex.dfy` | paging over groups of transfers, and the index that it reads |
| `TxValidation.dfy`, `StoreDigest.dfy` | transactions against tick data, and the order-insensitive store digest |
| `PebbleStore.dfy` | the store as a class, with the processing of a tick, the start of the program and the reads behind the endpoints, each method proved against the state machine |

The step functions (`Progress.Play`, `Archive.Act`) say what the state machines do; the methods of
`PebbleStore.Store` are the program. The store has a budget of `steps`, and a pass that uses it up ends
with an error, so `ProcessOneByOne` is proved to be a pass stopped after that many steps, for every number.
`PebbleStore.ProcessAll` proves that after any sequence of reports and restarts, each report with its own
budget, the store's contents are those of a run of `Archive.Act`. What is proved of runs therefore holds of
the program: of interrupted ones where a statement is about any run, and of passes that are not interrupted
where it is about *whole* passes (`Archive.Whole`). `ArchiveRuns.ProgressOfRun` proves that the progress
tables of an archive's run are those of the progress machine's run.

A pass has five steps for the records of a tick, three more for an empty one (clearing the list before the
first entry, count, list), and two or four for its progress. A step that turns out to have nothing to write
counts as well.

What the model assumes is written out as preconditions:

* A node report has a tick below 2^32 - 1, and if its first tick is above the last processed one, its
  epoch is not an older one (`Progress.WellFormed`). `CleanRuns.OlderEpochBreaksOrder` proves that the
  last condition is exactly what keeps the epochs ordered, which `WasSkippedByArchive` relies on.
* For interrupted runs: a pass across a gap that stops early leaves an interval beyond the last processed
  tick. Later reports may differ from the one that was interrupted, but lead to that tick again, or beyond it,
  or stay below it in an older epoch (`Progress.NotBehind`, part of `Progress.RunOk`). This is exactly what
  keeps the stored intervals ordered (`SolidRuns.OrderOverRuns`); `GateRuns.ReportBehindIsRefused` and
  `Examples.BehindCannotStart` show what happens otherwise. Runs without interruptions need no such assumption
  (`RunInvariant.NeverBehind`, `ArchiveRuns.WholeRunLosesNothing`).
* The first tick of an epoch is at least 1, and the votes of a tick, the first one received included,
  belong to the epoch the processor is in (`Archive.ReportOk`). `ArchiveRuns.FirstLookup` proves that
  the first condition is needed for the very first chain lookup.
* A start of the program is not interrupted, and recalculation does not fail (`PebbleStore.CommandsOk`);
  `Restarts.CanAlwaysStart` proves the latter after any run whose reports are not behind one another.
* Where votes of a tick are told apart from those of another one, votes name the tick they are recorded
  for (`IntervalVotes.VotesNameTicks`, `InterruptedVotes.VotesNameTheirTick`).
* Where empty ticks are counted over interrupted passes, these are fewer than 2^32, the width of the counter.
* Hash, signature check, identity conversion, calendar and protobuf encoding are arbitrary functions.
  Nothing is assumed of the hash: statements that need it to be free of collisions name the two inputs
  that would have to collide, which are the bytes hashed for two links of the compared chains
  (`ChainCommitment.LinksCollide`) or the two compared votes (`Quorum.ContentsCollide`).
* Identities have the fixed length 60. Positions of a page fit 64 bits, which holds for every page size
  the endpoint accepts; a page walk is over fewer than 2^31 pages, because page numbers are sent as signed
  32-bit integers.
* Votes with distinct computor indices are a hypothesis of quorum safety; the code does not check it.

Where a comment and the code differ, the code is modelled: transactions beyond the expected digests make
validation fail (`validator/tx/validator.go:30-33` suggests that they are ignored), and the computor index is
salted with 3 (`validator/quorum/validator.go:168` says 8).

Four promises do not hold of the code as it is. Each has its exact condition and a run that breaks it:

* The README's statement that the votes of the last tick of every processed range are saved and
  returned (`README.md:32`): the votes are written under the index of the epoch's newest interval before
  the new interval exists (`validator/validator.go:162`, `processor/processor.go:167`). For runs of whole
  passes `IntervalVotes.OwnVotesIff` states exactly which range ends are served their own votes,
  `IntervalVotes.EndTickOverRuns` what the others get, and `Examples.GapOverwritesVotes` is a run. Over
  interrupted runs `InterruptedVotes.ServedItselfIff` reads the condition off the stored intervals and the
  epoch's last pass, and `Examples.RetriedGapServesOwn` is a run where it differs from that of whole passes.
* A tick is available exactly if it was processed: an interruption between the last-tick batch and the
  interval write can lose a tick (`store/store.go:265-287`), and one after the interval append can leave an
  interval for a tick that is never processed (`processor/processor.go:167-181`). `GateRuns.GateExactIff`
  states when the gate is exact; `GateRuns.LostTickIsRefused` and `GateRuns.StrayTickIsAccepted` are runs.
* Recording a tick can be retried: empty ticks are counted once per attempt
  (`validator/validator.go:203-231`). `EmptyRetries.PassesExactIff` states when the caches survive any number
  of interruptions, `EmptyRetries.RestartRepairs` what a start with a reset repairs, and
  `Examples.EmptyTickCountedTwice` is a run.
* The listing of an epoch is that of its recorded ticks: without an empty tick in the epoch it is an error,
  until a start of the program recomputes the epoch (`main.go:151-162`, `rpc/v2_endpoints.go:403-509`).
  `EpochListing.EpochListingIsExact` has the condition; `Examples.NotListedBeforeRestart` and
  `Examples.ListedAfterRestart` are a run for each side.

## Model

| member | source | states |
|---|---|---|
| `Bytes.BigEndianOrder` | store/keys.go:45-50 | big-endian texts of one width are ordered as their numbers, and equal only for equal numbers |
| `Bytes.LittleEndianRoundTrip` | store/store.go:719-748 | reading a little-endian number back gives the number |
| `Bytes.HexRoundTrip` | validator/quorum/models.go:61-79 | decoding lower-case hexadecimal text gives the bytes it was made from |
| `Bytes.HexDigits` | validator/quorum/models.go:61-79 | two lower-case digits for each byte, the high one first |
| `Bytes.ReversedLittleIsBig` | validator/quorum/validator.go:159-165 | swapping a buffer and reading it as little-endian reads it as big-endian |
| `Keys.EncodeInjective` | store/keys.go:1-149 | no two keys share an encoding, within a family or across families |
| `Keys.KeyDecodes` | store/keys.go:7-149 | every key decodes to what it was made from: its own leading byte, and the tick, epoch, identity or text in the width it is written with |
| `Keys.EpochScanExact` | store/store.go:690-717 | the epoch scans, bounded by the decimal text of 2^64-1, visit exactly the stored epochs up to 0x31383434, ascending, whatever else the database holds |
| `Keys.EpochKeyInBounds` | store/store.go:312-320 | an epoch key lies below the textual bound exactly if the epoch is at most 0x31383434 |
| `Keys.TransferScanExact` | store/store.go:425-438 | the scan of an identity visits exactly its entries with a tick in the range, in ascending tick order |
| `Keys.TransferKeyInBounds` | store/keys.go:88-101 | a key lies between two bounds of an identity exactly if it is a transfer key of that identity with its tick in the range |
| `Keys.VisitedInOrder` | store/store.go:434-438 | keys that encode numbers in an order-preserving way are visited in the order of the numbers |
| `ProgressRuns.ContiguousStep` | processor/processor.go:117-129 | a pass onto the next tick, stopped after any of its writes: the marker moves first, then the newest interval is extended or the first one opened |
| `ProgressRuns.GapStep` | processor/processor.go:157-181 | a pass across a gap, stopped after any of its writes: the one-tick interval, then the gap, then the marker |
| `RunInvariant.PlayKeepsInv` | processor/processor.go:57-181 | every pass, stopped anywhere and whatever the reports before it, keeps the invariant over intervals, skips, marker and history, with the exact sets of ticks that lose their interval, await it, or are covered without having been processed; skipped ranges cover every tick that was not processed, and a processed one only if a newer epoch overtook it |
| `RunInvariant.RunKeepsInv` | processor/processor.go:47-55 | the invariant holds after every run, each pass with its own report and stopping place |
| `RunInvariant.NeverBehind` | processor/processor.go:131-140 | where nothing was left by an interruption, every well-formed report is not behind the stored intervals |
| `CleanRuns.CleanRunIsExact` | processor/processor.go:57-181 | without interruptions nothing is lost or pending, and the stored lists have no redundancy |
| `CleanRuns.TicksArePartitioned` | processor/processor.go:57-181 | after every uninterrupted run, processed and skipped ticks are disjoint and together 1..last; intervals expand, epoch by epoch and in order, to the run's history, are non-empty, apart and ordered across epochs; last-tick records are the ends of the newest intervals |
| `Retries.GapStepToleratesCuts` | processor/processor.go:157-181 | a gap step cut after any writes any number of times and retried gives the marker, records, covered and skipped ticks of the uninterrupted step |
| `Retries.NextTickRepairs` | store/store.go:244-290 | a contiguous step that lost its interval write is repaired, to the same state, by the next contiguous tick |
| `CatchUp.CatchesUp` | processor/processor.go:57-155 | from the state of any run, n uninterrupted passes over one report process exactly the ticks up to the node's, one after the other and at most n, from the node's first tick after a jump and otherwise from the one after the last; then the marker is at the node's tick and further passes change nothing |
| `CatchUp.ArchiveCatchesUp` | processor/processor.go:57-115 | and the archive records exactly these ticks, with the votes and data that were validated for each, the chain starting anew at the node's first tick |
| `CleanRuns.OlderEpochBreaksOrder` | processor/processor.go:131-140 | when a node jumps ahead, the order of epochs survives exactly if its epoch is not an older one |
| `Gate.WasSkippedByArchive` | validator/tick/models.go:64-79 | the nested loops report the first interval start beyond the tick, unless an interval met earlier contains the tick |
| `Gate.GetTickEpoch` | validator/tick/models.go:81-95 | the epoch of the first interval that contains the tick |
| `Gate.GetProcessedTickIntervalsForEpoch` | validator/tick/models.go:97-106 | the first entry of the epoch |
| `Gate.IsTickLastInAnyEpochInterval` | validator/tick/models.go:108-121 | the position of the first interval that ends at the tick; an error for an unknown epoch |
| `Gate.EndsAt` | validator/tick/models.go:108-121 | the position found is an interval ending at the tick, with none before it; nothing found means none ends there |
| `Gate.ScanOfRun` | store/store.go:690-717 | in every reachable state the scanned intervals start in ascending order and are exactly the stored ones |
| `Gate.FirstBeyondMeaning` | validator/tick/models.go:64-79 | on ascending starts the scan reports a skip exactly if no interval contains the tick and one starts beyond it, with the least such start |
| `Gate.EpochLookupIsExact` | validator/tick/models.go:81-95 | the epoch lookup finds an epoch exactly if the tick was processed in that epoch, or left covered in it by an interruption, and its interval write was not lost or pending |
| `Gate.GateAccepts` | rpc/middleware.go:60-92 | processed ticks that intervals cover are never reported as skipped |
| `GateRuns.RunKeepsTrailing` | processor/processor.go:157-181 | over every run, a tick without its interval was processed and directly follows a processed tick |
| `GateRuns.GateOverRuns` | rpc/middleware.go:60-92 | after any run, interrupted anywhere and continued with any reports not behind: what the gate says of every tick, processed, lost, pending, stray, skipped or too new |
| `GateRuns.GateExactIff` | rpc/middleware.go:60-92 | acceptance coincides with having been processed exactly if no lost or pending tick lies below a stored interval and no stray one below the last processed tick |
| `GateRuns.PendingIsRefusedIff` | rpc/middleware.go:60-92 | a processed tick whose interval write is pending is refused exactly while an interval is stored beyond the last processed tick |
| `GateRuns.CleanGateIsRight` | rpc/middleware.go:60-92 | without interruptions a tick is accepted exactly if processed, too new exactly if beyond the last one, and otherwise skipped with the least processed tick above it |
| `GateRuns.LostTickIsRefused` | store/store.go:265-287 | a concrete interrupted run after which a processed tick is refused |
| `GateRuns.StrayTickIsAccepted` | processor/processor.go:167-181 | a concrete run, interrupted and continued with another report, after which a tick that was never processed is accepted |
| `GateRuns.ReportBehindIsRefused` | processor/processor.go:131-181 | a concrete report behind an interrupted one, after which the tick just processed is refused |
| `GateRuns.SkipNamesProcessed` | validator/tick/models.go:64-79 | without strays, the tick that a skip names is the least processed one above |
| `SolidRuns.RunKeepsSolid` | store/store.go:265-287 | over every run, all ticks of an interval of more than one tick were processed in its epoch |
| `SolidRuns.OrderOverRuns` | store/store.go:674-688 | after any run, a pass that touches the intervals keeps them ordered, within and across epochs, if and only if its report is not behind |
| `Votes.AlignmentBytesInjective` | validator/quorum/validator.go:40-69 | the compared layout determines every compared field |
| `Votes.AlignmentLayout` | validator/quorum/validator.go:40-69 | the place of every compared field of a vote in the compared bytes |
| `Votes.ChainBytesInjective` | validator/chain/models.go:14-55 | the chained layout determines the vote content and the previous digest |
| `Votes.ChainLayout` | validator/chain/models.go:14-55 | the place of every field of a vote, and of the previous digest, in the chained bytes |
| `Quorum.HeatMap` | validator/quorum/validator.go:71-99 | the map groups the votes by class, in input order |
| `Quorum.VotesOfSelects` | validator/quorum/validator.go:71-99 | a class consists of exactly the votes whose compared bytes hash to its digest, in input order |
| `Quorum.GetAlignedVotes` | validator/quorum/validator.go:71-109 | for any order of the classes, exactly all votes of one class of maximum size, in input order |
| `Quorum.QuorumTickSigVerify` | validator/quorum/validator.go:111-146 | the loop's verdict: an unidentifiable bad signer is an error, otherwise success exactly if a quorum of votes is valid |
| `Quorum.ScoreIsBigEndian` | validator/quorum/validator.go:148-165 | the score of a signature is its first four bytes as a big-endian number |
| `Quorum.SaltedIsXor` | validator/quorum/validator.go:167-169 | salting an index flips its two lowest bits and keeps the others |
| `Quorum.ValidVoteIff` | validator/quorum/validator.go:148-157 | a vote counts exactly if its score is at most the target and its signature verifies under the computor's key over the hash of the unsigned vote with its index salted |
| `Quorum.SignatureCheckIff` | validator/quorum/validator.go:111-146 | the check succeeds exactly if at least q positions hold such a vote and the key of every other vote has an identity |
| `Quorum.Validate` | validator/quorum/validator.go:16-38 | the outcome is one of those that some visiting order allows |
| `Quorum.ValidationSucceedsIff` | validator/quorum/validator.go:16-38 | validation can return a list exactly if it is a largest class of aligned votes, there is a quorum of them, at least q positions have a score at most the target and a verifying signature, and the key of every other vote has an identity |
| `Quorum.OutcomeIsDetermined` | validator/quorum/validator.go:16-38 | with fewer than two quorums of votes, the outcome does not depend on the visiting order |
| `Quorum.AlignedVotesAgree` | validator/quorum/validator.go:40-109 | votes are aligned exactly if their epoch, tick, time, previous resource, spectrum, universe and computer digests and transaction digest agree, or the serialized contents of these two votes are different inputs with one digest |
| `Quorum.ValidatedList` | validator/quorum/validator.go:16-38 | a validated list has one class and a quorum of distinct computors with a score at most the target and a verifying signature |
| `Quorum.QuorumSafety` | validator/quorum/validator.go:16-146 | two validated lists of different classes have at least 2q-n computors with votes of different content in both, each with a score at most the target and a signature that verifies under the computor's key |
| `QuorumRecords.QubicToProto` | validator/quorum/models.go:13-59 | the full form: the first vote's structure and the last diff of every computor |
| `QuorumRecords.QubicToProtoStored` | validator/quorum/models.go:87-107 | the compressed form, likewise |
| `QuorumRecords.StructureDecodes` | validator/quorum/models.go:28-45 | the stored structure decodes, field by field, to the vote it was made from |
| `QuorumRecords.FullDecodes` | validator/quorum/models.go:13-59 | the full form has a diff for exactly the computors that voted, which decodes, field by field, to the last vote of the computor |
| `QuorumRecords.Uint32HexRoundTrip` | validator/quorum/models.go:67-79 | a 32-bit number survives its little-endian hexadecimal text |
| `QuorumRecords.ReconstructQuorumData` | validator/quorum/models.go:109-208 | the rebuilt form, for any order of the computors, or an error exactly if a digest or a key cannot be decoded |
| `QuorumRecords.DiffRoundTrip` | validator/quorum/models.go:139-226 | one computor's diff is rebuilt exactly if the epoch is at least 151 and the salted digests are those of its key with the next tick's previous digests |
| `QuorumRecords.OldFormat` | validator/quorum/models.go:139-226 | before epoch 151, what is hashed and how much of it is given for every field |
| `QuorumRecords.RebuiltFailsIff` | validator/quorum/models.go:109-137 | rebuilding fails exactly if one of the five previous digests or a voting computor's key cannot be read |
| `QuorumRecords.CompressionRoundTrip` | validator/quorum/models.go:109-208 | the tick's full form is rebuilt from the compressed forms of the tick and the next one if and only if the epoch is at least 151 and every kept vote's salts match |
| `ArchiveRuns.ChainNeverBreaks` | validator/chain/chain.go:71-86 | after any run, interrupted and restarted anywhere, the lookup of the previous chain digest for the next recorded tick succeeds, with the digest of the last recorded tick or zero at a restart of the chain |
| `ArchiveRuns.FirstLookup` | validator/chain/chain.go:71-86 | on an empty store the lookup fails exactly if the epoch starts at tick zero |
| `ArchiveRuns.ProcessWrites` | validator/validator.go:161-231 | a pass that gets through the records of a tick writes exactly its records, its chain digest and its cache entries, and then as many progress writes as are left to it |
| `ArchiveRuns.RunKeepsArchive` | validator/validator.go:46-233 | after any run, interrupted and restarted anywhere, each recorded tick has its votes, data and computors, its chain digest is the fold of vote contents since the latest restart of the chain, and a positive count of empty ticks comes with a list, so that appending never fails |
| `ArchiveRuns.WholePass` | processor/processor.go:57-115 | a pass that is not interrupted always completes: neither the chain lookup nor the list of empty ticks is missing |
| `ArchiveRuns.WholeRunKeepsArchive` | processor/processor.go:47-55 | runs of whole passes, restarted anywhere, also keep the progress tables exact |
| `ArchiveRuns.WholeRunLosesNothing` | processor/processor.go:47-55 | runs of whole passes are among the runs of the progress machine, and nothing is lost, pending or stray in them |
| `ArchiveRuns.ProgressOfRun` | processor/processor.go:57-181 | the progress tables and recorded ticks of any run are those of the progress machine |
| `StoredComputors.ComputorsOverRuns` | validator/validator.go:56-78 | after any run, a list of computors is stored for an epoch exactly if some pass stored one, and it is the list that came with the first such pass |
| `ChainCommitment.LinkOverRuns` | validator/chain/chain.go:71-113 | after any run, the digest stored for a recorded tick is the hash of 184 bytes, given field by field from its first vote, that end with the digest stored for the tick recorded before it, or with zeros where the chain starts |
| `ChainCommitment.ChainCommits` | validator/chain/chain.go:11-28 | equal chain digests mean votes that agree on every chained field back to the restart, and the same restart, or two links of the two chains were hashed from different bytes to one digest, or an earlier link of one of them has the digest zero |
| `ChainCommitment.SameChainSameDigest` | validator/chain/chain.go:11-28 | votes that agree on every chained field back to the same restart give equal digests |
| `ChainCommitment.StoredDigestsCommit` | store/store.go:510-534 | two archives after any runs, without such links, store equal chain digests if and only if their votes agree on every chained field back to the same restart |
| `QuorumLookup.RunKeepsKept` | store/store.go:829-854 | after every run of whole passes, the exact content of every per-interval entry: the first tick of the next interval once closed, else the interval's end, or nothing for a later interval of one tick |
| `QuorumLookup.CoveredTickDispatch` | rpc/rpc_server.go:140-249 | in every reachable state, for a tick that intervals cover, neither the skip branch nor the last-tick branch is reached |
| `IntervalVotes.UncoveredOverRuns` | rpc/rpc_server.go:140-166 | after any run, interrupted anywhere, a tick that is neither processed nor stray, or is lost or pending, is too new or has no epoch, so the skip branch is dead |
| `QuorumLookup.StrayEndsInterval` | rpc/rpc_server.go:165-180 | a stray ends an interval of its own, so it is answered from the entry of an interval |
| `IntervalVotes.CoveredOverRuns` | rpc/rpc_server.go:140-249 | after any run, a covered tick is answered from the entry of the first interval ending there, or was processed with the next tick of its epoch and is answered from their two records, both present |
| `QuorumLookup.InnerTickAnswer` | rpc/rpc_server.go:213-249 | in every reachable state, a covered processed tick that ends no interval is answered from its own record and that of the next tick, both present |
| `IntervalVotes.InnerTickOverRuns` | rpc/rpc_server.go:213-249 | after any run, interrupted anywhere, that answer is the full form of the validated votes if and only if the epoch is at least 151 and the salts match, where the lists of computors that came with the passes name the voting keys |
| `IntervalVotes.EndTickOverRuns` | rpc/rpc_server.go:165-180 | after any run of whole passes, the very votes that a tick ending an interval is answered with, in every case |
| `IntervalVotes.OwnVotesIff` | README.md:32 | over every run of whole passes, a range end is served its own votes exactly if its interval is the epoch's newest and is its first or has two ticks |
| `InterruptedVotes.EndServedWith` | rpc/rpc_server.go:165-180 | after any run, interrupted and restarted anywhere, the end of an interval is answered with votes of the tick that the next interval of the epoch starts with; the end of the newest one with those of the last pass that wrote votes in the epoch, or with nothing if that pass stored the interval and it is not the first |
| `InterruptedVotes.ServedItselfIff` | README.md:32 | after any such run that answer is about the tick itself if and only if the next interval starts at that tick, or, for the newest interval, the last pass that wrote votes in the epoch was over that tick and the interval is the first or was stored before |
| `Examples.GapOverwritesVotes` | validator/quorum/validator.go:185-201 | a concrete run after which a range end is served the votes of another tick |
| `Examples.RetriedGapServesOwn` | processor/processor.go:157-181 | a concrete run with a gap that is interrupted and retried, after which an older interval is served its own votes |
| `EmptyTicks.EmptyTicksOfInterval` | validator/tick/empty_tick.go:30-46 | the loop over 32-bit offsets finds exactly the ticks without data, in order, or fails if data is missing |
| `EmptyTicks.EmptyTicksOfIntervals` | validator/tick/empty_tick.go:17-51 | the same over all intervals of an epoch |
| `EmptyTicks.RunKeepsCache` | validator/validator.go:198-231 | after every run of whole passes, restarted anywhere with or without a reset, the maintained list and count of each epoch are those of the recorded empty ticks |
| `EmptyTicks.CachesAreExact` | validator/tick/empty_tick.go:17-51 | after such a run recomputation succeeds and gives the maintained list, and the count is its length |
| `EmptyTicks.EmptiesMeaning` | validator/validator.go:198-231 | the empty ticks of an epoch are those recorded without data or with an empty message |
| `EmptyTicks.RecalculationRestores` | validator/tick/empty_tick.go:71-132 | reset and recalculation restore every recorded epoch's list and count, whatever the caches held and in whatever order epochs are visited |
| `EmptyTicks.ListStoredIff` | main.go:151-162 | after such a run a list is stored for an epoch exactly if an empty tick was recorded in it or a start of the program recomputed it, and it is the list of the recorded empty ticks |
| `EmptyTicks.CanStart` | main.go:151-162 | after a run of whole passes recalculation, even of every epoch after a reset, does not fail |
| `Restarts.CanAlwaysStart` | main.go:151-162 | the same after any run, interrupted anywhere, whose reports are not behind one another |
| `Examples.BehindCannotStart` | validator/tick/empty_tick.go:30-46 | a concrete run with a report behind an interrupted one, after which recalculation fails |
| `EmptyRetries.RetryExactIff` | validator/validator.go:161-231 | after any run of whole passes, a pass stopped anywhere before its progress writes and retried leaves the epoch's caches exact if and only if the tick is not empty or was not yet counted; an empty tick stored in full is listed twice |
| `EmptyRetries.PassesExactIff` | validator/validator.go:198-231 | from any run that leaves an epoch's caches right, after any further passes stopped anywhere any number of times, the caches are those of the recorded empty ticks if and only if no pass that did not record its tick had counted it |
| `EmptyRetries.RestartRepairs` | main.go:151-162 | a start with a reset makes the caches of every recorded epoch right again after passes that were whole or stopped before their progress writes |
| `Examples.EmptyTickCountedTwice` | validator/validator.go:203-231 | a concrete run that records one empty tick and lists it twice |
| `EmptyTicks.DecodeTicks` | store/store.go:856-897 | a stored list is read back as it was written; a length that is no multiple of four is reported |
| `EpochListing.SelectPage` | rpc/v2_endpoints.go:467-496 | the page of a list, or the number of the last page if there is no such page |
| `EpochListing.PageFacts` | rpc/v2_endpoints.go:467-496 | an existing page is the next slice of the list, never empty, and announces a next page exactly if entries are left |
| `EpochListing.PageRecord` | rpc/v2_endpoints.go:467-509 | which page numbers exist, and every field of a page and its record |
| `EpochListing.PagesListAll` | rpc/v2_endpoints.go:467-509 | following the pages from the first one gives the whole list, in order |
| `EpochListing.MarkTicks` | rpc/v2_endpoints.go:434-449 | the map holds exactly the ticks of the intervals, each flagged exactly if it is in the empty list; the loops terminate below 2^32-1 |
| `EpochListing.EpochTicks` | rpc/v2_endpoints.go:434-465 | the listing has every tick once, sorted in the direction asked for, for any order of the map |
| `EpochListing.DescendingIsReverse` | rpc/v2_endpoints.go:460-465 | the descending listing is the exact reverse of the ascending one |
| `EpochListing.GetEpochTickList` | rpc/v2_endpoints.go:403-509 | every error case in its order, and otherwise a page of that listing |
| `EpochListing.GetEmptyTickList` | rpc/v2_endpoints.go:345-401 | every error case, and otherwise a page of the stored list |
| `EpochListing.EpochListingIsExact` | rpc/v2_endpoints.go:403-509 | after every run of whole passes, restarted anywhere, the listing is of the ticks recorded in the epoch, flagged exactly if recorded without data; it is an error exactly if none is recorded, or no empty tick was recorded and no start of the program recomputed the epoch |
| `EpochListing.StatusMeaning` | rpc/v2_endpoints.go:434-449 | a tick is listed exactly if it was recorded in the epoch, as empty exactly if it was recorded without data or with an empty message |
| `EpochListing.EmptyListingIsExact` | rpc/v2_endpoints.go:345-401 | after such a run the empty listing is of exactly the ticks recorded without data, and an error exactly if no list is stored |
| `EpochListing.PagesListRecorded` | rpc/v2_endpoints.go:403-509 | following the pages of a listed epoch from the first one gives every recorded tick once, flagged, in the order asked for |
| `Examples.NotListedBeforeRestart` | rpc/v2_endpoints.go:424-432 | a concrete run after which an epoch with a recorded tick is answered with an error |
| `Examples.ListedAfterRestart` | main.go:151-162 | the same run followed by a restart, after which the epoch is listed |
| `Paging.FilterTransactions` | store/store.go:495-508 | all transactions, or those with an input type, in order |
| `Paging.FilterSelects` | store/store.go:495-508 | exactly the transactions asked for are kept, all or those with an input type, in their order |
| `Paging.GetTransfersPage` | store/store.go:460-493 | advances the index by the filtered length and appends the part of the group that lies on the page, if any |
| `Paging.GetTransactionsForEntityPaged` | store/store.go:425-458 | the groups of the page and, whatever the page, the full filtered length |
| `Paging.PageIsSlice` | store/store.go:425-493 | the page flattened is the flattened filtered list cut to [page*size, page*size+size) |
| `Paging.PageShape` | store/store.go:460-493 | groups are non-empty, one per tick at most, in scan order, and each is a contiguous part of the filtered group of its tick |
| `Paging.DirectedOrdered` | store/store.go:444-452 | reading backwards visits the same groups, unchanged inside, in descending tick order |
| `Paging.GetPaginationInformation` | rpc/v2_endpoints.go:303-343 | the pagination record, with the page count as the number of pages it takes; none for arguments out of range |
| `Paging.PaginationMeaning` | rpc/v2_endpoints.go:303-343 | every field of the record by the size of the list: the number of pages, the next page exactly if entries are left, the page before, at most the last |
| `Paging.NextPageIff` | rpc/v2_endpoints.go:303-343 | there is a next page exactly if the page does not reach the end of the list |
| `Paging.GetIdentityTransfersInTickRange` | rpc/v2_endpoints.go:239-300 | page sizes above the maximum are refused, zero means the default, pages count from one; otherwise page and record |
| `Paging.RequestLimits` | rpc/v2_endpoints.go:236-254 | sizes above 250 are refused, 0 stands for 100, page 0 for page 1, and page p starts at entry (p - 1) * size |
| `Paging.WalkCollectsAll` | rpc/v2_endpoints.go:239-343 | a client that follows the next-page numbers from page one, for any accepted size, zero included, stops after max(1, ceil(total/size)) requests and receives every transaction exactly once, in order |
| `TransferIndex.RemoveNonTransferTransactions` | validator/tx/validator.go:154-170 | the transactions with a non-zero amount, in order |
| `TransferIndex.NonZeroSelects` | validator/tx/validator.go:154-170 | exactly the transactions whose amount is not zero are kept, in their order |
| `TransferIndex.CreateTransferTransactionsIdentityMap` | validator/tx/validator.go:172-190 | an identity has an entry exactly if it takes part, listing its transactions in order, a self-transfer twice |
| `TransferIndex.StoreTransferTransactions` | validator/tx/validator.go:134-152 | files a tick under every identity and changes nothing else, for any order of the map |
| `TransferIndex.IndexIsExpected` | validator/tx/validator.go:134-152 | after any run of increasing ticks, the index holds for every identity and tick exactly its non-zero transfers |
| `TransferIndex.IndexListsTransfers` | validator/tx/validator.go:134-190 | after any run of increasing ticks, a transaction of a tick with a non-zero amount is listed for an identity once as its destination and once as its source, as often as it occurs, and others not at all, in the order of the tick |
| `TransferIndex.IndexListsNothingElse` | validator/tx/validator.go:134-152 | at ticks without transactions recorded nothing is listed |
| `TransferIndex.IndexAgreement` | store/store.go:425-458 | an identity's scanned groups over a range are, tick by tick, its non-zero transfers |
| `TransferIndex.WalkSeesEveryTransfer` | rpc/v2_endpoints.go:239-300 | from validator to client: walking the pages in either direction yields exactly the recorded transfers of the identity in the range |
| `TransferIndex.WalkYieldsEachTransfer` | rpc/v2_endpoints.go:239-300 | from validator to client, transaction by transaction: how often walking the pages yields it, by its amount, input type, source, destination and occurrences in the ticks of the range |
| `TransferIndex.TwoEntriesEach` | validator/tx/validator.go:172-190 | the entries of a tick over all identities are twice its non-zero transfers |
| `TransferIndex.IndexConservation` | validator/tx/validator.go:134-190 | the stored entries of any recorded tick over all identities are twice its transactions with a non-zero amount |
| `TxValidation.CreateTxDigestsMap` | validator/tx/validator.go:91-104 | the texts of the non-zero digests |
| `TxValidation.ValidateTransactions` | validator/tx/validator.go:34-75 | success exactly if every transaction has an id, the digests are distinct and are exactly the expected ones, and every signature verifies; the result is the input |
| `TxValidation.Validate` | validator/tx/validator.go:15-28 | the same against the tick data's digests; a tick without digests keeps no transaction |
| `StoreDigest.MarshalStore` | validator/chain/models.go:63-100 | previous digest, digests in ascending order, status |
| `StoreDigest.StoreParts` | validator/chain/models.go:63-100 | the parts by their positions: the previous digest, the digests in ascending order, 32 bytes each, and the status |
| `StoreDigest.SortedUnique` | validator/chain/models.go:116-120 | a multiset of digests has one ascending arrangement |
| `StoreDigest.OrderDoesNotMatter` | validator/chain/chain.go:115-128 | the serialized input is the same for any order of the transactions |
| `StoreDigest.StoreBytesCommit` | validator/chain/models.go:63-100 | for a given number of transactions, equal inputs mean equal previous digest, digest multiset and status, and conversely |
| `PebbleStore.Store.SetLastProcessedTick` | store/store.go:244-290 | the last-tick batch and then the interval write, as many of them as the budget allows |
| `PebbleStore.Store.AppendProcessedTickInterval` | store/store.go:674-688 | appends one interval to the epoch's list |
| `PebbleStore.Store.SetSkippedTicksInterval` | store/store.go:340-365 | appends one range to the list of skips, absent read as empty |
| `PebbleStore.Store.GetProcessedTickIntervals` | store/store.go:690-717 | iterating by byte key returns the lists of all epochs that the bounds admit, in ascending epoch order |
| `PebbleStore.Store.GetLastProcessedTicksPerEpoch` | store/store.go:312-338 | the last-tick records of all epochs that the bounds admit |
| `PebbleStore.Store.SetQuorumDataForCurrentEpochInterval` | store/store.go:829-854 | writes one entry, under the index of the newest interval stored so far |
| `PebbleStore.Store.StoreVotes` | validator/quorum/validator.go:185-201 | the compressed record and the per-interval entry |
| `PebbleStore.Store.ComputeAndSave` | validator/chain/chain.go:11-28 | continues the chain, or fails and changes nothing if the previous digest is absent |
| `PebbleStore.Store.RecordEmptyTick` | validator/validator.go:203-231 | count and list as the state machine has them, for every budget; fails, with the count already raised, exactly if a count is stored without a list |
| `PebbleStore.Store.CalculateEmptyTicksForEpoch` | validator/tick/empty_tick.go:17-51 | the recomputed list of an epoch |
| `PebbleStore.Store.CalculateEmptyTicksForAllEpochs` | validator/tick/empty_tick.go:71-108 | recalculates, in any order, until an epoch has a count; fails only if some epoch cannot be recomputed |
| `PebbleStore.Store.ResetEmptyTicksForAllEpochs` | validator/tick/empty_tick.go:110-132 | removes the caches of exactly the recorded epochs |
| `PebbleStore.Store.Startup` | main.go:151-162 | a start of the state machine: the reset if asked for, then the recalculation of some admissible set of epochs |
| `PebbleStore.Store.CheckTickWithinArchiverIntervals` | rpc/middleware.go:60-92 | the verdict of the gate |
| `PebbleStore.Store.GetQuorumTickData` | rpc/rpc_server.go:140-249 | the answer of the dispatch |
| `PebbleStore.Store.GetEpochTickList` | rpc/v2_endpoints.go:403-509 | the endpoint over the stored tables |
| `PebbleStore.Store.ValidateTick` | validator/validator.go:46-233 | the writes of a validated tick in their order, as many as the budget allows, and those before the chain lookup if that fails |
| `PebbleStore.Store.ProcessSkippedTicks` | processor/processor.go:157-181 | the writes about skipped ticks, as many as the budget allows; an error exactly for distance zero or an exhausted budget |
| `PebbleStore.Store.ProcessStatus` | processor/processor.go:117-129 | the skip writes followed by the last-tick writes, as many as the budget allows |
| `PebbleStore.Store.ProcessOneByOne` | processor/processor.go:57-115 | one pass of the loop, stopped after any number of steps, is a pass of the state machine stopped there |
| `PebbleStore.DistanceNotZero` | processor/processor.go:163-165 | the next tick never equals the last one, so that error never occurs |
| `PebbleStore.ProcessAll` | processor/processor.go:47-55 | after any sequence of reports, each interrupted or not, and restarts the store holds the archive of a run of the state machine with these reports and restarts |

## Left out

- Pebble, batches and sync options, protobuf wire encoding: tables are maps, a batch is one atomic write, and values are stored as such; that two keys never collide is proved.
- Hash, signatures, identity texts, calendar conversion: arbitrary functions.
- PebbleStore.Store.ValidateTick: the fetched and validated votes, data and computors are one parameter; votes and transactions are validated in modules of their own, tick data and computors are not modelled.
- PebbleStore.Store.ValidateTick: the writes of transactions, of the transfer index, of transaction statuses and of the store digest are absent from the store and from its passes; the index and the store digest have modules of their own.
- ArchiveRuns.ProcessWrites: likewise without the transaction, transfer-index, status and store-digest writes of the cited lines.
- PebbleStore.Store.ValidateTick: computors already stored for an epoch are taken as rewritten unchanged, and the target vote signature is not stored.
- PebbleStore.Store.ProcessOneByOne: a tick whose validation failed leaves the store unchanged; the code may by then have stored the epoch's computors and target vote signature.
- PebbleStore.Store.StoreVotes: the index of an interval is a natural number, not a signed 32-bit one.
- Quorum.Validate: the indices of the aligned votes, if they are a quorum, are within the list of computors; the code would panic otherwise. Other votes may have any index.
- QuorumRecords.ReconstructQuorumData: an identity list shorter than a voting index is a missing record in the lookup; the code would panic.
- QuorumRecords.CompressionRoundTrip: identities are read back from the stored list; that no zero key was dropped from it is a hypothesis.
- PebbleStore.Store.Startup: a reset or recalculation that is itself interrupted is not modelled.
- The stored format of votes before epoch 151 is only rebuilt, as the code does, and proved not to round-trip.
- Paging.GetTransactionsForEntityPaged: values are well formed; an undecodable value in the middle of a scan, whose error the loop overwrites, is not modelled.
- Paging.GetIdentityTransfersInTickRange: the conversion of each transaction for the response and its block timestamps are left out.
- EpochListing.EpochTicks: the library sort is an insertion into a sequence, not an update in place.
- StoreDigest.MarshalStore: the library sort is a function on sequences.
- The store digest's own chain (its start at tick 13752150 and its fallback to zero) would repeat the chain of votes with a weaker lookup.
- Transfer amounts are integers; the per-tick scan that drops non-positive amounts is not modelled.
- `validator/txstatus`, `validator/computors`, send-many transactions, converters that copy fields: easy members.
- gRPC and HTTP serving, health checks, metrics, connection pool, timeouts, logging, the network client.
