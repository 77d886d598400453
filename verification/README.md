# GlassBox, verified

A Dafny model of the stateful core of the GlassBox governance runtime, with proofs about whole runs of it.

GlassBox decides on a proposed action, writes MAC-chained evidence, and only then lets the effect happen. The
project follows that path: the decision pipeline and the dispatcher, the limit store and the admission controller
in front of it, the policy rules, the evidence store with its Merkle sealer, write-once anchors and retention
scheduler, the key-service signer, and the change-event consumer that copies evidence into the Bronze table.

How it is organised:

- What a component computes is a set of functions on values (`Ledger`, `Sealing`, `Scheduling`, `Limits`, `Kms`,
  `Dispatching`, `Decisions`, `Cdc`, `Admission`, ...). Each locked block of the source is one such function, except
  for the calls listed under "Left out". `Sorting`, `Windows` and `OrderedDict` hold what several of them share: the
  stable sort, sliding windows over a history, and dictionaries that remember their order.
- Components that update state in place are classes (`EvidenceStore`, `Sealer`, `Scheduler`, `LimitStore`,
  `AdmissionControl`, `Dispatcher`, `DecisionService`, `KmsSigner`, `CdcConsumer`), with the source's loops. Each
  method is proved to do what the function says.
- The promises are lemmas about those functions over every run: `Retention`, `Audit`, `ScheduleRuns`, `LimitRuns`,
  `DecisionRuns`, `DecisionTable`, `DispatchRuns`, `OutcomeAudit`, `PurgeAudit`, `StoreAudit`, `GatedEffects` (the
  dispatcher beside the evidence store), `GovernedEffects` (decisions in front of both) and the later parts of the other
  modules. For each main operation one of them gives all its cases without naming the function that computes it.

Conventions:

- Hash and MAC are function parameters. Nothing is assumed of the hash but its 32-byte output. Where collision
  resistance is needed, the result is stated as "or here are two different strings, among those really hashed, with
  the same hash". Forgery is excluded by a log of everything that was ever signed.
- Canonical JSON is an injective encoding. Time and money are reals. The reprs of the instants that occur in a run are
  distinct and contain no colon; nothing is asked of other instants.
- Clocks, randomness, the key service's reaction, the worker's result and the answers of other dependencies are
  inputs, so every statement holds for all of them.
- An exception is an `Err` or a constructor of its own.

Where the code does less than its documentation says, the model follows the code, and the exact condition is proved:

- A record appended after a purge that emptied its segment makes `verify` report BROKEN, unless the last deleted code is
  the genesis value (`Audit.HonestVerdict`, `Audit.AppendAfterEmptyingPurge`; a run from nothing that ends there is
  `Audit.BrokenVerdictHappens`).
- Sealing the same range again is accepted only for the same time and key (`Audit.ResealExactly`; a run that is refused
  is `Audit.ResealRefusalHappens`).
- `verify` does not compare the records' segment with the one asked for; which rows pass is exact
  (`Audit.RowsPassExactly`), and `Audit.ForeignRowsPass` is an instance. Outcomes do not even name their segment, and
  which lists pass for an outcome chain is exact, too (`OutcomeAudit.OutcomesPassExactly`).
- A Merkle proof's `index` and `tree_size` are never compared with its path (`Merkle.ClaimedIndexIsIgnored`,
  `Merkle.ClaimedIndexExact`, `Merkle.ClaimedSizeMisleads`).
- `run_once` of the scheduler is documented never to raise; it raises exactly if a due purge meets an anchor whose key
  cannot be verified (`ScheduleRuns.NextLook`; such a run is `ScheduleRuns.RaiseHappens`).
- Releasing a decision's budget also frees ids that end in a colon and that id (`LimitRuns.ReleaseExactly`); a repeated
  decision id is the same admission only at the same instant (`LimitRuns.MemberExactly`).
- Eviction forgets a counter with its cooldown (`LimitRuns.EvictionForgets`); which call evicts which counter is exact
  (`LimitRuns.EvictsExactly`), and `LimitRuns.EvictionEndsCooldown` is a counter admitted inside its own cooldown.
- A pool that refuses a job leaks a slot (`Dispatching.LeakExactly`; such a run is `Dispatching.LeakHappens`).
- A key stays pending for good exactly if the pool refused its job or its call raised after giving the slot back
  (`Dispatching.PendingForGoodExactly`; the second case, without any leak, is `Dispatching.BreakHappens`).
- Under a reused decision id the effect runs on the older decision's receipt, no intent record is written about the new
  one, and its outcome joins those of the older record (`DecisionRuns.OwnRecordExactly`). So an effect may run although
  its record says deny (`GovernedEffects.DeniedRecordRuns`), exactly if a permitted decision reuses the id of one that
  was not allowed (`GovernedEffects.ReceiptSaysAllowExactly`).
- The overlap test of policy patterns is blind to `?` before the first star (`Policy.OverlapMissesExactly`,
  `Policy.QuestionMarkHidesConflict`). The order of unreported rules can matter exactly if some action or resource
  pattern has a `?` or `[` there and matches a possible name (`Policy.OrderFreeExactly`). For literals that are too
  short the test is over-careful (`Policy.OverlapExactly`).
- The civil-date formula is a day off for some days before March of year 0 (`Civil.CivilExactly`).

## Model

| member | source | states |
|---|---|---|
| `Merkle.LargestPowerOfTwoBelow` | glassbox/domain/merkle.py:72-77 | the split k of n >= 2 leaves satisfies k < n <= 2k |
| `Merkle.SplitIsLargestPowerOfTwoBelow` | glassbox/domain/merkle.py:72-77 | the split is a power of two, and no larger one lies below the count |
| `Merkle.RootIsMth` | glassbox/domain/merkle.py:80-103 | the root equals the Merkle Tree Hash of section 2.1 of RFC 6962, for every sequence, the empty one included |
| `Merkle.RootBindsSequence` | glassbox/domain/merkle.py:54-103 | two different leaf sequences of any lengths with equal roots yield an explicit collision among the strings hashed for them |
| `Merkle.VerifyProof` | glassbox/domain/merkle.py:150-161 | the folding loop accepts exactly the leaf and path that climb to the root |
| `Merkle.InclusionSound` | glassbox/domain/merkle.py:143-161 | any well-formed path that the root accepts carries the leaf at the position its left/right flags spell, or exhibits a collision |
| `Merkle.Descend` | glassbox/domain/merkle.py:201-213 | the recursive descent appends the root-to-leaf path of the leaf it looks for |
| `Merkle.BuildInclusionProof` | glassbox/domain/merkle.py:175-216 | it succeeds exactly for an index inside a non-empty tree, with its two distinct errors otherwise, and the proof verifies |
| `Merkle.InclusionComplete` | glassbox/domain/merkle.py:175-216 | the built path is accepted, its siblings are PATH(m, D[n]) of section 2.1.1 of RFC 6962, and its flags spell the index |
| `Merkle.InclusionDepth` | glassbox/domain/merkle.py:201-213 | a path has at most bit_length(n - 1) entries |
| `Merkle.ClaimedIndexIsIgnored` | glassbox/domain/merkle.py:150-161 | a genuine path is accepted whatever index and size are claimed, and the claimed index is right exactly if the flags spell it in the real tree |
| `Merkle.ClaimedIndexExact` | glassbox/domain/merkle.py:125-161 | barring a collision and whatever size is claimed, the claimed index holds the proved leaf if the flags spell it in the real tree, and over distinct leaves only then |
| `Merkle.ClaimedSizeMisleads` | glassbox/domain/merkle.py:125-161 | over three leaves the last one's path is accepted as position 1 of 2, which its flags spell in a tree of that size |
| `Civil.CivilCorrect` | glassbox/adapters/outbound/delta/rows.py:283-300 | the date is valid in the Gregorian calendar and the day count of that date is the one given |
| `Civil.CivilInverse` | glassbox/adapters/outbound/delta/rows.py:283-300 | every valid date comes back from its own day count |
| `Civil.CivilWalksTheCalendar` | glassbox/adapters/outbound/delta/rows.py:283-300 | consecutive days go to consecutive dates, leap and century rules included, from March of year 0 on |
| `Civil.CivilExactly` | glassbox/adapters/outbound/delta/rows.py:291-300 | for every integer: right exactly if the era division is exact on the shifted day, and otherwise one day late |
| `Civil.CivilWrongBeforeYearZero` | glassbox/adapters/outbound/delta/rows.py:291-300 | a concrete day that gets the date of the next day |
| `Civil.ParseRender` | glassbox/adapters/outbound/delta/rows.py:300-300 | the rendered date reads back as the same date |
| `Civil.PartitionPerDay` | glassbox/adapters/outbound/delta/rows.py:272-300 | two instants share a partition exactly if they fall on the same day |
| `Evidence.AnchorIdInjective` | glassbox/app/sealer.py:151-151 | anchor ids of different ranges or segments differ |
| `Chain.WalkIntact` | glassbox/adapters/outbound/memory/evidence.py:269-341 | with every key verifiable, walking a chain finds it intact exactly if every link has its number, its predecessor's code and its own code |
| `Chain.WalkExactly` | glassbox/adapters/outbound/memory/evidence.py:269-341 | for any list and any keys: how many links pass, that the next one is at fault, which fault it is, and that a broken verdict names the number stored there |
| `Chain.WalkTampered` | glassbox/adapters/outbound/memory/evidence.py:269-341 | under an unforgeable MAC, a walk over a replaced list that ends intact saw a prefix of the genuine one, and a broken one counted the longest genuine prefix |
| `EvidenceStore.FindKeepFrom` | glassbox/adapters/outbound/memory/evidence.py:403-413 | the index of the first record at or above the boundary |
| `EvidenceStore.CollectLeaves` | glassbox/adapters/outbound/memory/evidence.py:448-458 | the leaves of the records below the boundary, in order |
| `EvidenceStore.WalkRecords` | glassbox/adapters/outbound/memory/evidence.py:269-341 | the verification loop reaches the verdict of the walk over the records' links |
| `EvidenceStore.InMemoryEvidenceStore.AppendIntent` | glassbox/adapters/outbound/memory/evidence.py:134-192 | the whole new state and the receipt, as `StoreAudit.AppendExactly` spells them out |
| `StoreAudit.AppendExactly` | glassbox/adapters/outbound/memory/evidence.py:134-192 | in every reachable state: a known decision gets its old receipt and changes nothing; a new one is numbered by the length of the history, linked to the last live code, signed with the current key, and every field of its receipt says so; without a signature only the segment is opened, and the first attempt names tenant and opening time |
| `EvidenceStore.InMemoryEvidenceStore.AppendOutcome` | glassbox/adapters/outbound/memory/evidence.py:194-244 | the whole new state and the result, as `StoreAudit.OutcomeExactly` spells them out |
| `StoreAudit.OutcomeExactly` | glassbox/adapters/outbound/memory/evidence.py:194-244 | in every reachable state, told by what the chains hold: the two refusals, the signing failure, and success, which adds one signed record and makes it the decision's outcome exactly if no chain holds one of that decision and time |
| `StoreAudit.OutcomesAreIndexed` | glassbox/adapters/outbound/memory/evidence.py:393-422 | a decision's last outcome stands in a chain under its id, and only decisions with a receipt have one |
| `OutcomeAudit.OutcomesAreToldOnce` | glassbox/adapters/outbound/memory/evidence.py:199-244 | no two stored outcomes, in one chain or across chains, share decision and completion time, and the idempotency keys are exactly those of the stored ones |
| `OutcomeAudit.RetryIsIdle` | glassbox/adapters/outbound/memory/evidence.py:199-221 | recording what some chain holds, under any receipt and with any signer, changes nothing |
| `OutcomeAudit.RecordingTwice` | glassbox/adapters/outbound/memory/evidence.py:199-244 | a first recording adds exactly this outcome, and a second one succeeds and changes nothing |
| `EvidenceStore.InMemoryEvidenceStore.Verify` | glassbox/adapters/outbound/memory/evidence.py:246-341 | the verification loop computes the verdict that the audit lemmas speak about |
| `EvidenceStore.InMemoryEvidenceStore.VerifyOutcomeChain` | glassbox/adapters/outbound/memory/evidence.py:343-387 | the same for the outcome chain, which is never purged |
| `EvidenceStore.InMemoryEvidenceStore.SealAndPurge` | glassbox/adapters/outbound/memory/evidence.py:393-422 | a prefix goes with its receipts and outcomes, its last code is kept, its length is counted |
| `ScheduleRuns.StateStaysValid` | glassbox/adapters/outbound/memory/evidence.py:428-446 | in each of its phases under the scheduler a segment's state is well formed: it starts at the purged count and names the recorded anchor |
| `StoreAudit.StateOf` | glassbox/adapters/outbound/memory/evidence.py:428-446 | the state is none exactly if the segment was never opened, out of range exactly if its recorded seal is older than it or ends below what was purged, and otherwise has the fields named |
| `EvidenceStore.InMemoryEvidenceStore.GetSegmentLeaves` | glassbox/adapters/outbound/memory/evidence.py:448-458 | the sorted leaves below the boundary |
| `Retention.SealMarkKeeps` | glassbox/adapters/outbound/memory/evidence.py:460-465 | recording any stored anchor, at whatever moment, keeps the whole invariant |
| `StoreAudit.MarkExactly` | glassbox/adapters/outbound/memory/evidence.py:460-465 | recording a seal succeeds exactly for a known segment, touches nothing else, and is what its state then shows |
| `EvidenceStore.InMemoryEvidenceStore.PurgeBefore` | glassbox/adapters/outbound/memory/evidence.py:467-481 | nothing is deleted unless the recorded anchor ends exactly below the boundary |
| `GatedEffects.VouchedIsReturned` | glassbox/adapters/outbound/memory/evidence.py:493-501 | the store vouches only for a receipt that an append returned for a record of the history |
| `Sealer.InMemoryWormAnchorStore.Put` | glassbox/adapters/outbound/worm.py:110-129 | write once: an equal anchor is accepted again, a different one under the same id is refused |
| `Sealing.ListIsInOrder` | glassbox/adapters/outbound/worm.py:136-142 | the segment's anchors, each as often as stored, by first sequence number and then seal time, ties in the order stored |
| `Sealer.CheckContiguous` | glassbox/app/sealer.py:313-329 | the counting loop accepts exactly the leaves without a gap |
| `Sealer.FindCovering` | glassbox/app/sealer.py:246-280 | the loop finds what `Sealing.CoveringExactly` characterises |
| `Sealing.CoveringExactly` | glassbox/app/sealer.py:246-280 | for any stored anchors: of the segment's anchors that end just below the boundary and are authentic or unverifiable, the least by first number and seal time is returned, or is the cause of the integrity error; without one there is none |
| `Sealing.CoveringFound` | glassbox/app/sealer.py:246-280 | with every such key at hand, one is found exactly if an authentic one is stored |
| `Sealer.SegmentSealer.Prepare` | glassbox/app/sealer.py:114-176 | every refusal before storage is touched, in order, and otherwise the signed anchor |
| `Sealer.SegmentSealer.Seal` | glassbox/app/sealer.py:114-198 | store first, record second; both stores' new contents and the result, as `StoreAudit.SealExactly` spells them out |
| `Sealing.RefusesExactly` | glassbox/app/sealer.py:133-176 | whatever the store holds: nothing to seal, a gap between neighbouring leaves, a negative start and a missing signature are refused in this order, and nothing else is |
| `StoreAudit.SealExactly` | glassbox/app/sealer.py:114-198 | in every reachable state: each refusal exactly on its cause, no gap ever found, and otherwise an authentic seal of exactly the live records up to the boundary, stored and recorded, unless the range was sealed before at another time or with another key |
| `Sealer.SegmentSealer.Purge` | glassbox/app/sealer.py:204-232 | the new store and the result, as `PurgeAudit.PurgeExactly` spells them out |
| `PurgeAudit.PurgeExactly` | glassbox/app/sealer.py:204-232 | in every reachable state, with any number of seals: purging succeeds exactly if the recorded anchor ends just below the boundary and the first stored one of that end can be verified; then the count of purged records is at the boundary and the live ones are the rest of the history; otherwise nothing changes and the error is exact |
| `Inclusion.FindLeaf` | glassbox/app/sealer.py:302-303 | the first position with the sequence number, or -1 if there is none |
| `Inclusion.ProveInclusion` | glassbox/app/sealer.py:282-311 | an error exactly if the number is not among the leaves, and otherwise a valid proof of the sorted leaves at its place, which is also the index and size it names |
| `Inclusion.SealedLeavesProve` | glassbox/app/sealer.py:282-311 | from a seal's leaves kept in any order, the record's place, its code and the anchor's root come out |
| `Retention.PreparedAnchor` | glassbox/app/sealer.py:133-198 | an anchor attests exactly the history from the first live record to its last sequence number, however old the state its seal had read |
| `Retention.PurgeKeepsReceipts` | glassbox/adapters/outbound/memory/evidence.py:393-422 | a purge drops the receipts of the records it deletes and of no others |
| `Retention.PurgeKeepsCovered` | glassbox/app/sealer.py:204-232 | what a purge deletes lies in the range of a stored anchor |
| `Retention.StepKeeps` | glassbox/app/sealer.py:114-232 | every atomic step of appending, recording, sealing and purging keeps the invariant of history, chain, receipts, anchors and purges |
| `Retention.RunKeeps` | glassbox/app/sealer.py:114-232 | the invariant holds at every point of every interleaving |
| `Audit.PurgedRecordsStayProvable` | glassbox/app/sealer.py:114-311 | in every reachable state each purged record has a stored, signed anchor that covers it, and the proof built from that seal verifies its code at its place |
| `Audit.OnlyHistoryIsProvable` | glassbox/domain/merkle.py:143-161 | a proof that a stored anchor accepts carries the historical code at the spelled place, or exhibits a collision |
| `Audit.HonestVerdict` | glassbox/adapters/outbound/memory/evidence.py:246-341 | with the keys kept: unverifiable exactly for a segment never opened, SEALED_PURGED exactly when part of it was purged, INTACT otherwise, and BROKEN, at its first live record, exactly after an append into a segment that its last purge emptied |
| `Audit.AppendAfterEmptyingPurge` | glassbox/adapters/outbound/memory/evidence.py:150-192 | deleting every live record and appending one leads to a reachable state that `verify` reports as BROKEN exactly if the last deleted code is not the genesis value |
| `Audit.BrokenVerdictHappens` | glassbox/adapters/outbound/memory/evidence.py:246-341 | a run from the empty system, of append, seal, purge and append, that ends BROKEN |
| `Audit.HonestOutcomes` | glassbox/adapters/outbound/memory/evidence.py:343-387 | the outcome chain of every reachable state verifies in full |
| `OutcomeAudit.ReachableIsLedgered` | glassbox/adapters/outbound/memory/evidence.py:194-244 | in every reachable state the outcomes signed are exactly those that stand in the chains |
| `OutcomeAudit.OutcomesPassExactly` | glassbox/adapters/outbound/memory/evidence.py:343-387 | barring two signed payloads with one code, an arbitrary replacement list verifies as a segment's outcomes exactly if it is a prefix of some segment's genuine chain |
| `Audit.ReceiptsMatchLiveRecords` | glassbox/adapters/outbound/memory/evidence.py:150-192 | the receipts index holds exactly one entry per live record and no others |
| `Audit.CleanMeansGenuine` | glassbox/adapters/outbound/memory/evidence.py:269-341 | in every reachable state a replacement list that verifies is a prefix of the genuine rows; after an append into an emptied segment only the empty list does |
| `Audit.TamperEvident` | glassbox/adapters/outbound/memory/evidence.py:269-341 | for an arbitrary replacement list naming a segment that was not cut off by such an append: with the keys kept a clean verdict exactly for prefixes of the genuine rows, and a broken one counts the longest genuine prefix and names the number stored in the first row after it |
| `Audit.RowsPassExactly` | glassbox/adapters/outbound/memory/evidence.py:269-341 | for arbitrary unforged rows naming any segments: clean exactly if each was written, in whatever segment, at the expected position, and links to the code expected there |
| `Audit.ForeignRowsPass` | glassbox/adapters/outbound/memory/evidence.py:269-341 | an instance: the rows of one unpurged segment pass as those of another |
| `Audit.ReachableLabels` | glassbox/app/sealer.py:133-198 | in every reachable state anchor ids are distinct and anchors name the one tenant of their segment |
| `Audit.ResealExactly` | glassbox/app/sealer.py:173-198 | sealing a range again gives the same root and id, and is accepted exactly for the same time and key |
| `Audit.ResealRefusalHappens` | glassbox/app/sealer.py:133-198 | a run from the empty system after which sealing the same range at another time is refused and changes nothing |
| `Scheduler.RetentionScheduler.MaybeSeal` | glassbox/app/retention_scheduler.py:133-153 | sealing everything live once the segment is old enough, and how failures are reported |
| `Scheduler.RetentionScheduler.MaybePurge` | glassbox/app/retention_scheduler.py:155-182 | purging a seal once its grace is over, and which failure escapes |
| `Scheduler.RetentionScheduler.Consider` | glassbox/app/retention_scheduler.py:116-131 | an unsealed segment is considered for sealing, a sealed one for purging |
| `Scheduler.RetentionScheduler.RunOnce` | glassbox/app/retention_scheduler.py:102-114 | the loop over segments, with every store change and outcome |
| `ScheduleRuns.ConsiderMatches` | glassbox/app/retention_scheduler.py:116-182 | the scheduler's code and a composition of steps of the evidence system reach the same stores |
| `ScheduleRuns.PlayIsReachable` | glassbox/app/retention_scheduler.py:102-182 | every state of every scheduled run is one that the evidence system reaches by its own steps |
| `ScheduleRuns.ScheduledPurgesStayProvable` | glassbox/app/retention_scheduler.py:155-182 | so every record the scheduler ever purged has a stored, signed anchor and a proof that verifies |
| `ScheduleRuns.ScheduledVerdict` | glassbox/app/retention_scheduler.py:102-182 | and the verdict on a scheduled segment is exact, BROKEN only after an append into an emptied segment |
| `ScheduleRuns.PassIsLooks` | glassbox/app/retention_scheduler.py:102-114 | a pass considers its segments in order, all of them unless one raises |
| `ScheduleRuns.LifeCycle` | glassbox/app/retention_scheduler.py:116-182 | over every mix of appends and passes a segment is sealed at most once and then purged at most once, and its state stays valid |
| `ScheduleRuns.NextLook` | glassbox/app/retention_scheduler.py:133-182 | exactly what the next look reports: sealed whole exactly if something is live, old enough and the signer answers, failed if only the signer does not; a purge never before sealed_at + grace and of exactly the sealed records, skipped ever after, and raising exactly on an unverifiable anchor |
| `StoreAudit.ConsiderExactly` | glassbox/app/retention_scheduler.py:116-182 | the report and the stores left in any reachable state, also of segments that others seal and purge: when a look skips, seals, purges, fails and raises |
| `ScheduleRuns.RaiseHappens` | glassbox/app/retention_scheduler.py:102-182 | a write, a look that seals, and a pass that raises because its signer cannot verify under the sealing key |
| `LimitStore.PruneEntries` | glassbox/adapters/outbound/memory/governance_state.py:139-140 | the entries later than the horizon, in order |
| `LimitStore.SumCosts` | glassbox/adapters/outbound/memory/governance_state.py:151-151 | the total cost of the entries |
| `LimitStore.DropSuffix` | glassbox/adapters/outbound/memory/governance_state.py:188-189 | the entries whose member does not end in the suffix |
| `LimitStore.AnyMember` | glassbox/adapters/outbound/memory/governance_state.py:142-142 | whether some entry has the member |
| `LimitStore.InMemoryLimitStore.EvictIfNeeded` | glassbox/adapters/outbound/memory/governance_state.py:201-204 | the counters used longest ago go, with their cooldowns, until few enough are left |
| `LimitStore.InMemoryLimitStore.TryConsume` | glassbox/adapters/outbound/memory/governance_state.py:103-172 | the whole new state and verdict, or an unchanged store when unavailable |
| `LimitStore.InMemoryLimitStore.ReleaseBudget` | glassbox/adapters/outbound/memory/governance_state.py:180-189 | the matching entries go and nothing else changes |
| `LimitStore.InMemoryLimitStore.GetCumulative` | glassbox/adapters/outbound/memory/governance_state.py:174-199 | the cost in the window, without consuming |
| `Limits.Track` | glassbox/adapters/outbound/memory/governance_state.py:132-137 | making a counter the youngest keeps its entries and never evicts it |
| `Limits.CostAdds` | glassbox/adapters/outbound/memory/governance_state.py:151-151 | costs add up over any split of the entries |
| `Windows.WindowHolds` | glassbox/adapters/outbound/memory/governance_state.py:139-140 | a window holds each entry as often as the history does if its instant lies in the half-open interval, and no other |
| `LimitRuns.MemberExactly` | glassbox/domain/limits.py:150-160 | members coincide exactly for the same decision at the same instant |
| `LimitRuns.WholeSecondsAreLegible` | glassbox/domain/limits.py:150-160 | a rendering with distinct, colon-free reprs exists for infinitely many instants |
| `LimitRuns.ReleaseExactly` | glassbox/adapters/outbound/memory/governance_state.py:188-189 | releasing an id frees exactly that id and the ids that end in a colon and it |
| `LimitRuns.AdmissionExact` | glassbox/adapters/outbound/memory/governance_state.py:116-172 | the verdict on the pruned list, with its limit and observed cost, is the one the full history and the configured limit would give |
| `LimitRuns.EvictionForgets` | glassbox/adapters/outbound/memory/governance_state.py:201-204 | a call on another counter leaves this one alone or forgets it, cooldown and all |
| `LimitRuns.EvictsExactly` | glassbox/adapters/outbound/memory/governance_state.py:117-137 | a call forgets a counter exactly if its own key is neither cooling down nor tracked and the counter's place in the order is below the excess |
| `LimitRuns.CounterInUseIsKept` | glassbox/adapters/outbound/memory/governance_state.py:132-137 | eviction takes the counter used longest ago: one just charged is tracked after any run of fewer operations than subjects may be tracked |
| `LimitRuns.EvictionEndsCooldown` | glassbox/adapters/outbound/memory/governance_state.py:103-204 | a concrete counter that is rejected, evicted while cooling down, and admitted before the cooldown ends |
| `LimitRuns.StepKeeps` | glassbox/adapters/outbound/memory/governance_state.py:103-189 | every call keeps the agreement of list and history and the bound on every window |
| `LimitRuns.WindowsNeverOverflow` | glassbox/adapters/outbound/memory/governance_state.py:116-172 | in every run, unreleased admitted cost in every window, wherever it ends, is within the limit configured for the counter, or the default |
| `LimitRuns.RejectionCools` | glassbox/adapters/outbound/memory/governance_state.py:117-172 | a rejection starts a cooldown or repeats the running one and tells the exact wait; an admission tells none |
| `LimitRuns.CooldownHolds` | glassbox/adapters/outbound/memory/governance_state.py:117-164 | after an over-limit rejection every call before the end of the cooldown is rejected, with the exact remaining wait |
| `AdmissionControl.Recent` | glassbox/adapters/inbound/http/admission_control.py:91-92 | the timestamps later than the cutoff |
| `AdmissionControl.HttpAdmissionController.Check` | glassbox/adapters/inbound/http/admission_control.py:86-103 | the new buckets and the verdict |
| `AdmissionControl.HttpAdmissionController.EvictIfNeeded` | glassbox/adapters/inbound/http/admission_control.py:105-112 | the oldest-touched buckets go until the cap is met |
| `OrderedDict.TrimsOldestFirst` | glassbox/adapters/inbound/http/admission_control.py:105-112 | evicting down to a size leaves exactly the youngest part of the order |
| `Admission.OwnIsKept` | glassbox/adapters/inbound/http/admission_control.py:86-112 | the caller's own bucket is never the one evicted, unless nothing may be tracked |
| `Admission.AdmissionExact` | glassbox/adapters/inbound/http/admission_control.py:86-103 | a request is admitted, without a wait, exactly if the window that ends now has room in the full history |
| `Admission.WindowsNeverOverflow` | glassbox/adapters/inbound/http/admission_control.py:86-103 | no window, wherever it ends, ever holds more than max_requests admissions of a client |
| `Admission.RetryExact` | glassbox/adapters/inbound/http/admission_control.py:94-98 | after a rejection the next call is rejected at every time before now + retry_after_s and admitted from then on |
| `Dispatcher.InMemoryDispatcher.Reserve` | glassbox/adapters/outbound/memory/dispatch.py:105-126 | the first locked block: the recorded outcome, a refusal, or a reserved key and slot |
| `Dispatcher.InMemoryDispatcher.Dispatch` | glassbox/adapters/outbound/memory/dispatch.py:88-166 | an uninterrupted call from receipt check to recorded outcome, as `DispatchRuns.DispatchTells` spells it out |
| `DispatchRuns.DispatchTells` | glassbox/adapters/outbound/memory/dispatch.py:88-166 | the four ways not to run a job, in order and without a trace, and otherwise an outcome that tells what the job came to |
| `DispatchRuns.OutcomesAreTrue` | glassbox/adapters/outbound/memory/dispatch.py:103-166 | over every interleaving: a recorded outcome is that of the one job its key finished, executed exactly if that job returned and with its digest, failed exactly if it raised, with the class, or was quarantined, and indeterminate at the end of its time exactly if it timed out |
| `Dispatching.StepKeeps` | glassbox/adapters/outbound/memory/dispatch.py:103-166 | every step of every interleaving keeps owners, submissions, counter and receipts consistent |
| `Dispatching.AtMostOnce` | glassbox/adapters/outbound/memory/dispatch.py:103-166 | however calls interleave, a key's handler is submitted at most once, only after its receipt check passed, and every terminal outcome had a submission |
| `GatedEffects.StepKeeps` | glassbox/adapters/outbound/memory/dispatch.py:88-166 | the dispatcher, set up to check receipts, and the evidence system side by side keep both invariants, and every receipt that passed a check had been returned by an append |
| `GatedEffects.NoEffectWithoutEvidence` | glassbox/adapters/outbound/memory/dispatch.py:88-166 | with receipts checked, at every moment of every interleaving with appends, seals and purges each job handed to the pool carries a receipt that an append returned for a record of the history, and no key has two jobs |
| `GovernedEffects.StepKeeps` | glassbox/app/decision_service.py:752-770 | decisions, seals, purges and dispatches side by side keep every pending, running and submitted receipt that of a record that says allow |
| `GovernedEffects.ReceiptSaysAllowExactly` | glassbox/adapters/outbound/memory/evidence.py:150-192 | the receipt a permitted decision goes on with names an allow record exactly if its id was unused or in use for an allow |
| `GovernedEffects.OnlyAllowedEffects` | glassbox/app/decision_service.py:752-770 | in every interleaving in which no permitted decision reuses the id of one that was not allowed, each job handed to the pool carries the receipt of a record that says allow |
| `GovernedEffects.DeniedRecordRuns` | glassbox/app/decision_service.py:752-770 | a run in which an id is first refused and then permitted, and the job's record says deny |
| `Dispatching.OutcomesAreFinal` | glassbox/adapters/outbound/memory/dispatch.py:105-166 | a recorded key stays recorded, and a terminal outcome never changes again |
| `Dispatching.PendingForGoodExactly` | glassbox/adapters/outbound/memory/dispatch.py:105-166 | a pending key has one owning call, and it stays pending in every continuation exactly if the pool refused that call's job or the call raised after giving its slot back |
| `Dispatching.SettlesSoon` | glassbox/adapters/outbound/memory/dispatch.py:125-166 | any other owner settles its key within three steps of its own, with an outcome that tells what its job came to |
| `Dispatching.BreakHappens` | glassbox/adapters/outbound/memory/dispatch.py:154-166 | a run of five steps that leaves a key pending for good with no slot leaked |
| `Dispatching.InFlightExact` | glassbox/adapters/outbound/memory/dispatch.py:118-162 | the counter is the number of calls between reserve and decrement, within 0..max |
| `Dispatching.LostStays` | glassbox/adapters/outbound/memory/dispatch.py:125-128 | a call whose job the pool refused holds its slot for good |
| `Dispatching.LeakExactly` | glassbox/adapters/outbound/memory/dispatch.py:118-162 | the counter is the number of calls under way exactly if no job was refused by the pool; with all slots lost every new key is refused |
| `Dispatching.LeakHappens` | glassbox/adapters/outbound/memory/dispatch.py:118-128 | a run of four steps that leaks a slot; with one slot every new key is refused from then on |
| `Dispatching.AloneIsInterleaving` | glassbox/adapters/outbound/memory/dispatch.py:88-166 | the uninterrupted call is five steps of the interleaved system |
| `DecisionService.RunEarlyStages` | glassbox/app/decision_service.py:633-694 | the ladder down to the risk threshold, with a record per stage |
| `DecisionTable.RulingExactly` | glassbox/app/decision_service.py:880-1392 | for every combination of answers and without naming any gate: the ruling is no denial exactly under an explicit condition per stage, and is then policy's own; every denial of the pipeline has the one reason whose grounds are met; and the two ways not to rule are exact |
| `DecisionTable.StagesExactly` | glassbox/app/decision_service.py:633-716 | the nine stages are on record in order, each with the status its answers and the earlier ones call for |
| `DecisionService.Service.TakeBudget` | glassbox/app/decision_service.py:1312-1345 | consuming budget, degrading only for advisory actions |
| `DecisionService.Service.RunStages` | glassbox/app/decision_service.py:633-716 | all nine stages with their effect on the limit store |
| `DecisionService.Service.DispatchPermitted` | glassbox/app/decision_service.py:841-874 | which decisions reach the dispatcher, and what becomes of the others |
| `DecisionService.Service.Finish` | glassbox/app/decision_service.py:752-784 | evidence, then effect, then outcome record, with the failure paths |
| `DecisionService.Service.Evaluate` | glassbox/app/decision_service.py:613-784 | the whole evaluation: stages, all three stores and how it ended |
| `DecisionRuns.FirstDenialWins` | glassbox/app/decision_service.py:633-716 | the ruling is that of the first gate to deny in fixed order, or policy's own; it denies exactly if some gate does; budget is held, and each of the two ways not to rule occurs, exactly on the answers named |
| `DecisionRuns.NineStages` | glassbox/app/decision_service.py:633-716 | the nine stage records always appear, in order |
| `DecisionRuns.FailsClosed` | glassbox/app/decision_service.py:1135-1392 | a decision that is not a denial met no unavailable dependency, except that an advisory one may have missed the switch, mandate, limit or baseline store |
| `DecisionRuns.DispatchExactly` | glassbox/app/decision_service.py:841-874 | the dispatcher is called exactly for a durable, unblocked allow outside replay, and is otherwise untouched |
| `DecisionRuns.ExecutionExactly` | glassbox/app/decision_service.py:752-784 | what the caller is told per ruling, which action and key are dispatched and with which effect on the desk, and the time the outcome is recorded with |
| `DecisionRuns.EndsExactly` | glassbox/app/decision_service.py:613-784 | an evaluation is interrupted exactly if the stages do not rule, reports missing evidence exactly if the intent could not be signed, and is otherwise decided if the signer answers afterwards |
| `DecisionRuns.EvidenceComesFirst` | glassbox/app/decision_service.py:752-770 | whatever is dispatched carries a receipt the evidence store already holds and still holds afterwards, so its receipt is never refused |
| `DecisionRuns.ReachableIsIndexed` | glassbox/adapters/outbound/memory/evidence.py:150-192 | in every reachable evidence store each receipt is filed under the decision it names |
| `DecisionRuns.OwnRecordExactly` | glassbox/adapters/outbound/memory/evidence.py:150-244 | a decision leaves its own intent record, with all its fields, and receipt exactly if its id is new; a reused id runs on the older receipt, and the outcome of the run is added to the older record's segment unless that instant has one |
| `DecisionRuns.BudgetExactly` | glassbox/app/decision_service.py:1408-1435 | the window ends with the entries it began with, plus this decision's own exactly on the answers named, for every pattern of outages |
| `DecisionRuns.BudgetConserved` | glassbox/app/decision_service.py:696-766 | with the stores up, the window holds this decision's entry exactly if it was not denied and its evidence is durable |
| `Policy.OverlapSound` | glassbox/domain/policy_bundle.py:289-295 | patterns with a common match overlap, if nothing special precedes their first star |
| `Policy.OverlapMissesExactly` | glassbox/domain/policy_bundle.py:289-295 | without brackets, no common match is ever missed exactly if no question mark precedes the first star |
| `Policy.OverlapExactly` | glassbox/domain/policy_bundle.py:289-295 | for literals and prefix patterns, overlapping means a common match except for literals shorter than the other's prefix |
| `Policy.GlobMeaning` | glassbox/domain/policy_bundle.py:133-138 | what a pattern without brackets matches: its parts match consecutive pieces, a star any piece, a question mark any character, anything else itself |
| `Policy.ClassMeaning` | glassbox/domain/policy_bundle.py:133-138 | a bracketed class ends at the first closing bracket after its first member and takes one character of the class; one that is never closed stands for itself |
| `Policy.FindRule` | glassbox/domain/policy_bundle.py:208-217 | the search loop returns the first match in sorted order |
| `Policy.MatchingRuleIsBest` | glassbox/domain/policy_bundle.py:206-217 | stable sort and first match choose, among the rules whose patterns match and whose caps the action respects, the least priority value, and among equals the rule listed first |
| `Policy.SingleRule` | glassbox/domain/policy_bundle.py:131-144 | one rule decides exactly if both patterns match and the action is at most at each cap, with an amount if money is capped |
| `Policy.CapsHold` | glassbox/domain/policy_bundle.py:131-144 | whatever is decided on is within the caps of the rule that decides |
| `Policy.LessIsDecided` | glassbox/domain/policy_bundle.py:131-144 | lowering consequence or amount loses no candidate, so a smaller action is decided on by a rule at least as strong |
| `Policy.DetectWith` | glassbox/domain/policy_bundle.py:270-285 | the inner loop lists the later rules that clash with one rule |
| `Policy.DetectConflicts` | glassbox/domain/policy_bundle.py:249-286 | the nested loops list the clashes of every pair, in order |
| `Policy.ConflictFreeExactly` | glassbox/domain/policy_bundle.py:249-286 | nothing is reported exactly if no two rules clash, in whatever order they are listed |
| `Policy.ConflictsExactly` | glassbox/domain/policy_bundle.py:249-286 | the pairs reported are exactly the clashing ones, each named in the order in which the rules are asked |
| `Policy.OrderDoesNotMatter` | glassbox/domain/policy_bundle.py:249-295 | without reported conflicts, every order and every choice of priorities gives an action the same effect, if the rules that match it have nothing special before a first star |
| `Policy.OrderFreeExactly` | glassbox/domain/policy_bundle.py:249-295 | for any action and resource patterns: every conflict-free bundle of them and plain rules is independent of order and priorities exactly if each has nothing special before its first star or matches no possible name |
| `Policy.BracketFreeHarmless` | glassbox/domain/policy_bundle.py:289-295 | without brackets and over all ordinary names that condition is: no question mark before the first star |
| `Policy.IdentifiersAreNames` | glassbox/domain/serialization.py:237-259 | validated action names, and resource kinds and ids joined by a slash, contain none of the special characters |
| `Policy.QuestionMarkHidesConflict` | glassbox/domain/policy_bundle.py:289-295 | two rules, no reported conflict, and an action whose effect depends on their priorities |
| `KmsSigner.CircuitBreaker.RecordSuccess` | glassbox/adapters/outbound/kms/signer.py:110-114 | one success closes the circuit and forgets every failure |
| `KmsSigner.CircuitBreaker.RecordFailure` | glassbox/adapters/outbound/kms/signer.py:116-121 | failures are counted and open the circuit from the threshold on |
| `KmsSigner.KmsMacSigner.CacheGet` | glassbox/adapters/outbound/kms/signer.py:301-309 | a hit becomes the youngest entry; no entry is lost |
| `KmsSigner.KmsMacSigner.CachePut` | glassbox/adapters/outbound/kms/signer.py:311-319 | the entry is stored and the oldest ones evicted down to the bound |
| `KmsSigner.KmsMacSigner.Mac` | glassbox/adapters/outbound/kms/signer.py:197-236 | the code or the error, the new cache and breaker, and whether the service was contacted |
| `KmsSigner.KmsMacSigner.Verify` | glassbox/adapters/outbound/kms/signer.py:238-270 | the same for verification under a known key |
| `KmsSigner.KmsMacSigner.WithRotatedKey` | glassbox/adapters/outbound/kms/signer.py:272-295 | a new signer with an empty cache and the shared breaker; this one is untouched |
| `Kms.OpensAtThreshold` | glassbox/adapters/outbound/kms/signer.py:84-121 | after n failures in a row the circuit is open, since the last of them, exactly if n reaches the threshold |
| `Kms.MacIsTransparent` | glassbox/adapters/outbound/kms/signer.py:197-236 | after any run and with any cache size a code is the service's own; the cache stays within its bound; caching differs from asking only by answering when the service would not |
| `Kms.MacExactly` | glassbox/adapters/outbound/kms/signer.py:197-236 | after any run: signing succeeds exactly if the code is held, or the circuit lets the call through, the service answers and the code has at least 32 bytes; each error exactly on its cause |
| `Kms.SecondMacIsFree` | glassbox/adapters/outbound/kms/signer.py:301-319 | with a cache, what was signed once is signed again without the service |
| `Kms.RecentlySignedIsHeld` | glassbox/adapters/outbound/kms/signer.py:301-319 | the cache evicts what was used longest ago: a signed message is held after any run of fewer operations than the cache has places |
| `Kms.VerifyIsTransparent` | glassbox/adapters/outbound/kms/signer.py:238-270 | after any run a verification tells whether the code is the service's own, and unknown keys are exactly the refused ones |
| `Kms.VerifyExactly` | glassbox/adapters/outbound/kms/signer.py:238-270 | after any run: verifying answers exactly for a known key whose code is held or can be asked for, and each error has its one cause |
| `Kms.OpenMakesNoCall` | glassbox/adapters/outbound/kms/signer.py:84-121 | an open circuit makes no service call, and one answered call closes it |
| `Kms.OutageIsQuiet` | glassbox/adapters/outbound/kms/signer.py:84-121 | from a closed circuit on, while nothing is answered, failing service calls beyond the threshold number at most one per reset period |
| `Kms.RotationsKnowAll` | glassbox/adapters/outbound/kms/signer.py:192-295 | any chain of rotations lists the current key first, repeats none, and knows every key ever current or known |
| `Kms.RotationStarts` | glassbox/adapters/outbound/kms/signer.py:272-295 | only an empty key is refused, and the new signer shares the breaker and starts with an empty cache |
| `CdcConsumer.InsertUnmatched` | glassbox/adapters/outbound/delta/bronze.py:65-100 | the table gains the rows whose key it did not hold |
| `CdcConsumer.Consumer.PollAndLand` | glassbox/adapters/outbound/delta/cdc_consumer.py:132-144 | Bronze, then checkpoint, and what was seen and inserted |
| `CdcConsumer.Consumer.RunOnce` | glassbox/adapters/outbound/delta/cdc_consumer.py:96-113 | the rows that one batch inserted |
| `CdcConsumer.Consumer.RunUntilDrained` | glassbox/adapters/outbound/delta/cdc_consumer.py:115-130 | the bounded loop drains batch by batch and totals the insertions |
| `Cdc.LandingAdvances` | glassbox/adapters/outbound/delta/cdc_consumer.py:132-144 | one batch moves the checkpoint by the events seen and extends Bronze by exactly the new ones |
| `Cdc.StepKeeps` | glassbox/adapters/outbound/delta/cdc_consumer.py:132-144 | growth of the source, landings, crashes after the write and lost checkpoints keep Bronze a prefix of the source |
| `Cdc.ExactlyOnce` | glassbox/adapters/outbound/delta/cdc_consumer.py:115-144 | after every run Bronze is a prefix of the source without duplicates, complete up to the checkpoint, and the whole source on an empty poll |
| `Cdc.DrainExactly` | glassbox/adapters/outbound/delta/cdc_consumer.py:115-130 | draining reaches exactly as far as its batches go, and its total is what Bronze gained |
| `OrderedDict.SizeIsLength` | glassbox/adapters/outbound/memory/governance_state.py:201-204 | an ordered dictionary has as many keys as its order is long |
| `Sorting.Sort` | glassbox/domain/policy_bundle.py:206-217 | the sort shared by rules, anchors, records and leaves permutes its input |
| `Sorting.SortIsStable` | glassbox/domain/policy_bundle.py:206-217 | it keeps elements with equal keys in their order |
| `Sorting.FirstOfSorted` | glassbox/domain/policy_bundle.py:206-217 | the first hit in the sorted sequence is the hit of least key, first listed first |
| `Sorting.SortSorts` | glassbox/domain/policy_bundle.py:206-217 | its result is in order |

## Left out

- Flask application, command line, TypeScript SDK, telemetry, logging and configuration: plumbing with one-branch claims.
- Credential verification, tenant checks on entry and the resolution of tools and actions: they come in as answers.
- The Postgres, Redis, S3 and filesystem adapters: network and file access; the in-memory references are modelled.
- `PostgresLogicalReplicationSource`: reading it consumes the server's slot, so a poll does not depend on the checkpoint alone.
- Silver tables and the internals of the Delta merge: Bronze inserts the rows whose key is absent.
- Float formatting, `json.dumps` and the text of bracketed pattern classes: library behaviour, taken as parameters.
- Prompt-injection patterns, mandate contents, risk scoring and baseline statistics: they come in as answers.
- Approval workflows: approve, reject and escalate do not look at the current state, so nothing final holds of them.
- Parallel access to the limit store, the admission controller and the consumer: every locked block there is a whole call.
- Parallel access to the key-service signer: `mac` and `verify` take the cache's and the breaker's locks in turn, and the model makes each call one step.
- Parallel access during a scheduler pass: in `ScheduleRuns` a look at one segment is one step, though it consists of several locked blocks; appends fall between looks. `Retention` interleaves the single blocks.
- Parallel evaluations: `Decisions.Evaluate` is one uninterrupted evaluation; `GovernedEffects` interleaves its evidence and dispatch steps with everything else, with the ruling as an input.
- The moment of signing: a seal signs in the step in which it reads its leaves, and an append in its locked block.
- Availability of the limit store that changes within one evaluation: `Decisions.Evaluate` covers it, the class reads one flag.
- A handler that goes on running after its timeout: the model follows the call, not the worker.
- Limits.Config: fewer than one tracked subject is excluded, because the first consumption then fails on a missing key.
- Admission.Rate: a negative client cap is excluded, because eviction then runs out of clients and fails.
- LimitRuns.WindowsNeverOverflow: a ceiling that is reconfigured during the run is not covered, because the bound is about one ceiling.
- Field validation beyond sequence ranges, positive rates and thresholds.
