# Verified model of the Pirate wallet core

A Dafny 4.11 model of the parts of the wallet in which a mistake is costly or hard to see:

- the **money path**: note selection under four strategies and its consolidating variant,
  fees and dust, the pending transaction, the Sapling and Ironwood builder, and the funding
  and redeeming of script-locked trades;
- the **diversifier rotation service**, run by one owner and by any number of threads;
- the **JavaScript synchronizer**, as a protocol of atomic steps between awaits;
- the **rotating debug log**, as a window over an append-only history;
- the **codecs**: UTF-8 and the 512-byte memo field, script pushes, and Ironwood extended keys.

`dafny verify dfyconfig.toml` checks everything. Each `.dfy` file holds one module of the
same name. Where the source changes state, the model has a class or a method with a loop
that is proved against a function of the old state; what the system promises is then proved
about that function, over all inputs or all runs.

External code enters as parameters. Hashes and key checks are function values of which only
output lengths are assumed. The transaction library is a ledger of spends and outputs.
Address and internal-key derivation, the empty-tree root and the largest accepted amount are
inputs. Ironwood is active at a height when an activation height is known and reached. A
theorem about a build speaks of every ledger handed to the library; what the library then
refuses only removes cases. Machine integers are subset types, and every overflow check,
saturation and wrap-around of the source is written out.

## What the proofs say about the code

- Comments in `selection.rs` say that smallest-first minimizes change. It does not: with
  notes of 6 and 10 and a requirement of 10 it takes both and leaves 6, where the larger note
  alone leaves 0 (`SixAndTen`). It does, like every other strategy, exactly for notes whose
  positive values are all equal (`ChangeIsLeastExactly`). What smallest-first achieves for all
  notes is stated by `SmallestFirstUsesMostInputs` and `SmallestFirstChange`.
- `ReuseUntilShared(n)` hands out an index twice when `n` is 0 or 1. A restore forgets all
  shares, so the bound starts anew with each: an index is handed out at most `max(n, 2)` times
  the number of restores plus one (`SharedAtMost`), that many times in some run
  (`ShareBoundIsReached`), and `n` itself will do in place of `max(n, 2)` exactly for `n >= 2`
  (`ShareBoundHoldsExactly`). All three leave out runs in which explicit marks wrap the 32-bit
  share count.
- The reusing policies do not reuse the index they rotate to: the counter already points past
  it (`ReuseHoldsExactly`, `SharedReuseHoldsExactly`).
- A restored service has forgotten which indices received funds (`RestoreForgetsReceipts`).
  Those behind the counter stay away as long as it only moves forward; all others can be
  returned again (`ReceiptSurvivesExactly`).
- With a reusing policy the highest used index can be one less than an index that was handed
  out (`HighestLagsByOne`), never more than that (`HighestCoversReturned`). It covers all that
  were handed out exactly under the other two policies (`HighestCoversExactly`).
- The gap between the counter and the highest used index never exceeds one, so the default gap
  limit is never exceeded (`GapNeverExceedsOne`).
- A stop issued while a start is under way is undone when the start completes
  (`StopDuringStartIsUndone`), and a refresh under way overwrites the stopped status
  (`StoppedStatusHoldsExactly`).
- An override between 990,002 and 1,000,000 passes validation and can still be refused once
  dust is added (`SafeFeeIsTight`).
- A key export in the older layout is 69 bytes long and is refused by the length check before
  the fallback that would read it; padded, it is read in the current layout whenever that
  accepts it (`LegacyReadsBack`).
- A derived key at a depth that is a multiple of 256 does not survive serialization
  (`DerivedKeyRoundTrips`).

## Model

| member | source | states |
|---|---|---|
| Selection.StableSortCorrect | crates/pirate-core/src/selection.rs:344-359 | sorting gives an ordered permutation in which equal keys keep their order |
| Selection.SortNotes | crates/pirate-core/src/selection.rs:344-359 | the array is sorted in place, and first-fit leaves it alone |
| SelectionTheorems.StrategyOrders | crates/pirate-core/src/selection.rs:344-359 | what each strategy's order means in values, heights and arrival |
| Selection.CoverCount | crates/pirate-core/src/selection.rs:232-244 | the shortest prefix that reaches the requirement |
| Selection.SelectNotes | crates/pirate-core/src/selection.rs:208-267 | the loop computes the specified selection or the specified error, overflow included |
| Selection.SelectNotesWithConsolidation | crates/pirate-core/src/selection.rs:270-342 | the one-pass loop equals plain selection followed by extras from the remainder |
| SelectionTheorems.SuccessMatchesCheck | crates/pirate-core/src/selection.rs:208-267 | with values in 64 bits every strategy succeeds exactly when the sufficiency check holds |
| SelectionTheorems.SelectionSound | crates/pirate-core/src/selection.rs:230-266 | a selection is a choice from the notes, adds up, and its change is below its last note |
| SelectionTheorems.LargestFirstUsesFewestInputs | crates/pirate-core/src/selection.rs:352-354 | no covering choice of notes, however made, has fewer notes |
| SelectionTheorems.SmallestFirstUsesMostInputs | crates/pirate-core/src/selection.rs:349-351 | any cover that needs at least one of its notes has no more notes |
| SelectionTheorems.SmallestFirstChange | crates/pirate-core/src/selection.rs:349-351 | for a positive requirement the change is below the largest selected note |
| SelectionChange.ChangeIsLeastExactly | crates/pirate-core/src/selection.rs:174 | under each strategy the change is the least possible for every requirement exactly when all positive note values are equal |
| SelectionChange.SixAndTen | crates/pirate-core/src/selection.rs:383 | the notes and requirement for which smallest-first leaves 6 and another choice leaves nothing |
| SelectionTheorems.FrontIsLeast | crates/pirate-core/src/selection.rs:344-359 | the exchange argument: the front of an ordered list is least among equally long choices |
| SelectionTheorems.ConsolidationLimitZero | crates/pirate-core/src/selection.rs:306-308 | a limit of zero gives the identical result |
| SelectionTheorems.ConsolidationExtendsSelection | crates/pirate-core/src/selection.rs:270-342 | success implies plain success, extends it by at most the limit of eligible notes, and change grows by their value |
| SelectionTheorems.ConsolidationFailsOnlyWithSelection | crates/pirate-core/src/selection.rs:270-342 | with values in 64 bits consolidation succeeds exactly when plain selection does |
| SelectionTheorems.ConsolidationSound | crates/pirate-core/src/selection.rs:270-342 | the result is a choice from the notes and adds up |
| SelectionTheorems.ExtrasAreEligible | crates/pirate-core/src/selection.rs:310-319 | extras are eligible notes of the remainder, within the limit |
| SelectionTheorems.ExtrasAreMaximal | crates/pirate-core/src/selection.rs:306-319 | an eligible note is passed over only once the quota is full |
| SelectionTheorems.ExtrasAreTheFirst | crates/pirate-core/src/selection.rs:306-319 | extras are the first eligible notes in order, as many as there are up to the limit |
| Fees.BaseFee | crates/pirate-core/src/fees.rs:84-100 | the fixed fee or the override itself; an override is refused as too low or too high exactly outside 10,000 to 1,000,000 |
| Fees.DustPolicyConserves | crates/pirate-core/src/fees.rs:137-165 | dust moves between change and fee without loss; refusal exactly when the fee has no room |
| PendingTransaction.TransactionBuilder.AddOutput | crates/pirate-core/src/transaction.rs:194-217 | accepts exactly non-zero amounts with valid memos, and otherwise changes nothing |
| PendingTransaction.TransactionBuilder.Build | crates/pirate-core/src/transaction.rs:226-273 | the method computes the specified pending transaction or error |
| PendingTransaction.PendingConserves | crates/pirate-core/src/transaction.rs:244-272 | the outputs are the requested ones; input is what smallest-first selects and equals output plus fee plus change; the fee is the base fee, raised at most by dust and then without change |
| PendingTransaction.PendingAfterSelection | crates/pirate-core/src/transaction.rs:246-263 | after selection only dust without room in the fee can fail |
| PendingTransaction.PendingSucceedsExactly | crates/pirate-core/src/transaction.rs:226-273 | succeeds exactly when fee, funds and dust allow; up to 990,001 dust never matters |
| PendingTransaction.SafeFeeIsTight | crates/pirate-core/src/fees.rs:153-158 | every larger fee in range is refused for some sufficient wallet |
| ShieldedBuilder.PoolAnchor | crates/pirate-core/src/shielded_builder.rs:379-449 | finds the one root all notes of a pool witness to, or fails exactly when there is none |
| ShieldedBuilder.SaplingAnchorFor | crates/pirate-core/src/shielded_builder.rs:379-419 | the Sapling anchor for spends, outputs only, or neither |
| ShieldedBuilder.IronwoodAnchorFor | crates/pirate-core/src/shielded_builder.rs:421-462 | the Ironwood anchor, which must match the caller's when notes are spent |
| ShieldedBuilder.FirstSapling | crates/pirate-core/src/shielded_builder.rs:507-512 | exists exactly when a Sapling note was selected |
| ShieldedBuilder.AddSpends | crates/pirate-core/src/shielded_builder.rs:486-580 | one spend per note in order with the key its group, scope and recipient call for; fails exactly when data or a key is missing |
| ShieldedBuilder.AddOutputs | crates/pirate-core/src/shielded_builder.rs:587-645 | each requested output is paid in order, with its pool, amount, address, viewer and memo; fails exactly on amounts out of range |
| ShieldedBuilder.AddChange | crates/pirate-core/src/shielded_builder.rs:648-729 | routes change to Ironwood, internal Sapling or the first spent address; the missing-spend error cannot occur |
| ShieldedBuilder.Account | crates/pirate-core/src/shielded_builder.rs:282-377 | fee, selection, change and dust agree with the specification; overflow and shortfall errors after selection cannot occur |
| ShieldedBuilder.Assemble | crates/pirate-core/src/shielded_builder.rs:379-736 | assembles exactly the specified ledger, with every requested output paid at its address, exactly when it can be assembled |
| ShieldedBuilder.Builder.AddOutput | crates/pirate-core/src/shielded_builder.rs:174-219 | accepts exactly acceptable outputs and changes nothing else |
| ShieldedBuilder.Builder.BuildAndSign | crates/pirate-core/src/shielded_builder.rs:266-736 | succeeds exactly for buildable inputs with the ledger they call for, every requested output paid at its address; six errors are unreachable |
| ShieldedTheorems.BuildConserves | crates/pirate-core/src/shielded_builder.rs:587-736 | outputs plus fee equal the recorded value of the spent notes; the ledger balances exactly when recorded and carried values agree |
| ShieldedTheorems.HonestBuildBalances | crates/pirate-core/src/shielded_builder.rs:587-736 | with honestly recorded notes spends equal outputs plus change plus fee |
| ShieldedTheorems.FeeAndChangeInRange | crates/pirate-core/src/shielded_builder.rs:364-377 | fee in range; one change output exactly for non-zero change, then at least 10,000 |
| ShieldedTheorems.ChangeIsBacked | crates/pirate-core/src/shielded_builder.rs:486-730 | legacy change has a spent Sapling note; Sapling outputs have an anchor; spent notes share their pool's anchor |
| ShieldedTheorems.SaplingSpendsAreReceived | crates/pirate-core/src/shielded_builder.rs:503-535 | a Sapling note is spent with a key that receives it exactly when its key group has one, external before internal |
| ShieldedTheorems.SpendsCarryNotes | crates/pirate-core/src/shielded_builder.rs:486-580 | each spend is of a complete note, worth what the note carries, with a key of the note's group |
| ShieldedTheorems.BuildableExactly | crates/pirate-core/src/shielded_builder.rs:266-736 | a build goes through exactly when fee, selection, dust, note data, anchors, amounts and change key allow it, all written out |
| ShieldedTheorems.RequestedOutputsArePaid | crates/pirate-core/src/shielded_builder.rs:587-645 | every requested output reaches its address with its amount, viewer and memo, which decodes to itself exactly when canonical |
| ShieldedTheorems.ChangeIsRouted | crates/pirate-core/src/shielded_builder.rs:648-730 | change is the whole remainder and goes to the Ironwood, internal Sapling or first spent address, with the tests written out |
| ShieldedTheorems.AnchorsWithoutSpends | crates/pirate-core/src/shielded_builder.rs:379-462 | without spends in a pool its anchor is the empty tree's or the caller's, exactly if the pool is paid to |
| ShieldedTheorems.SpentAndFee | crates/pirate-core/src/shielded_builder.rs:282-377 | the notes spent are the smallest-first selection and its extras; the fee is the base fee, raised at most by dust and then without change |
| Qortal.TotalIsSum | crates/pirate-core/src/qortal_p2sh.rs:95-106 | the checked fold is the sum, and fails exactly past 64 bits |
| Qortal.PayRecipient | crates/pirate-core/src/qortal_p2sh.rs:273-332 | the amount, address and memo that one recipient is paid with, its carrier, and exactly when it can be paid |
| Qortal.AddOutputsAndScript | crates/pirate-core/src/qortal_p2sh.rs:263-341 | lays out all outputs and script carriers, each recipient paid in order at its address, exactly when all recipients are payable |
| Qortal.LaidWorth | crates/pirate-core/src/qortal_p2sh.rs:263-341 | outputs are worth the recipients' amounts; carriers are counted exactly; without them the k-th output pays the amount and address of the k-th transparent recipient |
| Qortal.CarriersAreEmpty | crates/pirate-core/src/qortal_p2sh.rs:326-338 | script outputs carry the script and no value |
| Qortal.ShieldedAreInOrder | crates/pirate-core/src/qortal_p2sh.rs:273-315 | the k-th shielded output pays the k-th shielded recipient's amount to its address, with its memo |
| Qortal.CarriersComeLast | crates/pirate-core/src/qortal_p2sh.rs:326-338 | a carrier directly follows each recipient, or one closes the outputs |
| QortalPlans.PlanFunds | crates/pirate-core/src/qortal_p2sh.rs:343-363 | script, totals, selection and dust of a funding plan |
| QortalPlans.BuildFunding | crates/pirate-core/src/qortal_p2sh.rs:343-573 | completes exactly the fundable plans with exactly the outputs they call for; four errors are unreachable |
| QortalPlans.FundingConserves | crates/pirate-core/src/qortal_p2sh.rs:343-573 | input minus all outputs is the plan fee plus folded dust |
| QortalPlans.FundingLayout | crates/pirate-core/src/qortal_p2sh.rs:326-338 | one carrier per recipient or exactly one, and transparent recipients paid in order at their addresses |
| QortalPlans.FundingSpends | crates/pirate-core/src/qortal_p2sh.rs:343-363 | the notes spent are the smallest-first selection for recipients and fee |
| QortalPlans.FundableExactly | crates/pirate-core/src/qortal_p2sh.rs:343-573 | a plan completes exactly when script, sums, selection, dust, note data, anchors, activation and recipients allow it, all written out |
| QortalPlans.FundingShielded | crates/pirate-core/src/qortal_p2sh.rs:512-573 | shielded recipients in order, then at most one change output with the whole remainder, routed like the shielded builder's |
| QortalPlans.BuildRedeem | crates/pirate-core/src/qortal_p2sh.rs:719-788 | builds exactly when the coin equals outputs plus fee and all can be paid, and then pays every recipient in order at its address |
| ScriptPush.BuildP2shScriptSig | crates/pirate-core/src/qortal_p2sh.rs:174-189 | a reader finds three items with the marker 0x51 for a refund, four with 0x00 for a redemption |
| ScriptPush.PushScriptData | crates/pirate-core/src/qortal_p2sh.rs:155-172 | appends one push |
| ScriptPush.PushesReadBack | crates/pirate-core/src/qortal_p2sh.rs:155-172 | a reader recovers exactly the pushed list |
| ScriptPush.PushReadsBackExactly | crates/pirate-core/src/qortal_p2sh.rs:166-171 | a push reads back exactly when its length fits in 32 bits |
| ScriptPush.PushIsShortest | crates/pirate-core/src/qortal_p2sh.rs:155-172 | no accepted encoding of the same data is shorter |
| ScriptPush.ScriptSigInjective | crates/pirate-core/src/qortal_p2sh.rs:174-189 | scripts determine signature, secret and redeem script; refund and redeem never coincide |
| Diversifier.FreshFrom | crates/pirate-core/src/diversifier.rs:215-232 | the result need not be avoided, and everything the counter passes before it must be |
| Diversifier.FreshIsLeast | crates/pirate-core/src/diversifier.rs:215-232 | without wrapping it is the least open index at or above the counter |
| Diversifier.RotationService.NextFreshIndex | crates/pirate-core/src/diversifier.rs:215-232 | the skipping loop ends and returns that index, advancing both counters |
| Diversifier.RotationService.RequestAddress | crates/pirate-core/src/diversifier.rs:245-285 | one request under each policy |
| Diversifier.RotationService.NoteShared | crates/pirate-core/src/diversifier.rs:288-294 | counts the share and records the use |
| Diversifier.RotationService.Restore | crates/pirate-core/src/diversifier.rs:201-212 | counters and used set come back, usage does not |
| DiversifierRuns.GapNeverExceedsOne | crates/pirate-core/src/diversifier.rs:355-364 | over every run the gap is at most one and the limit is never exceeded |
| DiversifierRuns.NeverReturnsReceived | crates/pirate-core/src/diversifier.rs:245-285 | over every run the automatic policies return no index known to have received funds since the service was created or restored |
| DiversifierRestores.ReceiptSurvivesExactly | crates/pirate-core/src/diversifier.rs:377-384 | an index that received funds is not returned before a restore; with restores it stays away from all forward runs exactly when the counter has passed it |
| DiversifierRestores.ReturnsAfterRestore | crates/pirate-core/src/diversifier.rs:201-212 | under every policy any index can come back after an advance and a restore, and when that run is a forward one |
| DiversifierRestores.RestoreForgetsReceipts | crates/pirate-core/src/diversifier.rs:377-384 | the shortest run in which a restored service returns an index that received funds |
| DiversifierRuns.SharedAtMost | crates/pirate-core/src/diversifier.rs:263-274 | over every run with marks, advances and restores an index is handed out at most max(n, 2) times per restored service, while the share count does not wrap |
| DiversifierRuns.ShareBoundIsReached | crates/pirate-core/src/diversifier.rs:263-274 | for every limit and every number of restores some run reaches that bound |
| DiversifierRuns.RestoreForgetsShares | crates/pirate-core/src/diversifier.rs:377-384 | with a limit of two and one restore, index 0 is handed out three times |
| DiversifierRuns.ShareBoundHoldsExactly | crates/pirate-core/src/diversifier.rs:156-157 | the bound n itself, counted anew after each restore, holds over all runs in which the share count does not wrap exactly for n at least two |
| DiversifierRuns.SmallLimitIsExceeded | crates/pirate-core/src/diversifier.rs:263-274 | for n below two the second request repeats the index |
| DiversifierRuns.ReuseHoldsExactly | crates/pirate-core/src/diversifier.rs:251-262 | an index is reused by the next request exactly when the first did not rotate |
| DiversifierRuns.SharedReuseHoldsExactly | crates/pirate-core/src/diversifier.rs:263-274 | the same for the share-counting policy, with the exact condition on count and spend |
| DiversifierRuns.FreshIndicesIncrease | crates/pirate-core/src/diversifier.rs:201-232 | over every forward run, restarts included, fresh indices strictly increase |
| DiversifierRuns.UsedIsTheHistory | crates/pirate-core/src/diversifier.rs:288-312 | the used set is exactly what was returned or marked |
| DiversifierRuns.FlagsAreTheHistory | crates/pirate-core/src/diversifier.rs:297-312 | between restores an index counts as received or spent exactly if it was marked so |
| DiversifierRuns.SharesAreTheHistory | crates/pirate-core/src/diversifier.rs:288-294 | between restores the share count is the number of returns and share marks, as a 32-bit count |
| DiversifierRuns.ManualReturnsCurrent | crates/pirate-core/src/diversifier.rs:275-278 | under the manual policy requests return the current index, which only explicit advances move |
| DiversifierRuns.HighestWasUsed | crates/pirate-core/src/diversifier.rs:333-337 | the highest index was returned or advanced to, and covers every advance |
| DiversifierRuns.HighestCoversReturned | crates/pirate-core/src/diversifier.rs:226-229 | returned indices exceed the highest by at most one, and with fresh addresses not at all |
| DiversifierRuns.HighestCoversExactly | crates/pirate-core/src/diversifier.rs:239-242 | the highest index covers every returned one in all runs exactly under the fresh and the manual policy |
| DiversifierRuns.HighestLagsByOne | crates/pirate-core/src/diversifier.rs:251-274 | the run in which either reusing policy returns an index above the highest |
| DiversifierThreads.RunsAreSafe | crates/pirate-core/src/diversifier.rs:215-232 | for any threads and interleaving the consumed range splits into returned, skipped and held values, once each |
| DiversifierThreads.QuiescentOutcome | crates/pirate-core/src/diversifier.rs:215-232 | at rest exactly the open indices were returned and the highest index is their maximum with its old value |
| DiversifierThreads.ConcurrentMatchesSequential | crates/pirate-core/src/diversifier.rs:215-232 | concurrent calls return what the same number of calls in sequence would |
| Synchronizer.PirateWalletSynchronizer.Start | bindings/react-native-pirate-wallet/src/index.js:349-360 | the step up to the await of a start |
| Synchronizer.PirateWalletSynchronizer.ResumeStart | bindings/react-native-pirate-wallet/src/index.js:360-371 | the step after the backend answered |
| Synchronizer.PirateWalletSynchronizer.Stop | bindings/react-native-pirate-wallet/src/index.js:373-388 | the step up to the await of a stop |
| Synchronizer.PirateWalletSynchronizer.SetTimer | bindings/react-native-pirate-wallet/src/index.js:415-430 | the named timer is replaced by a new pending one |
| Synchronizer.PirateWalletSynchronizer.FireTimer | bindings/react-native-pirate-wallet/src/index.js:420-421 | a fired timer starts a poll and stays named |
| Synchronizer.PirateWalletSynchronizer.ReceiveStatus | bindings/react-native-pirate-wallet/src/index.js:432-447 | the first await of a refresh |
| Synchronizer.PirateWalletSynchronizer.FinishRefresh | bindings/react-native-pirate-wallet/src/index.js:449-470 | publishes the report and the status its heights call for, and schedules the next poll if polling is on |
| Synchronizer.PirateWalletSynchronizer.HandleRejection | bindings/react-native-pirate-wallet/src/index.js:421-428 | a failed poll is retried after the error interval |
| SynchronizerRuns.OneTimerAndNoStall | bindings/react-native-pirate-wallet/src/index.js:349-473 | in every interleaving at most one timer is pending, it is the named one, and a named timer is pending or being served |
| SynchronizerRuns.EveryPollSchedulesTheNext | bindings/react-native-pirate-wallet/src/index.js:415-473 | in every run without a stop, the step that ends a poll leaves one timer pending for the right delay, whatever else happened since the poll began |
| SynchronizerRuns.WaitingPollOutcomes | bindings/react-native-pirate-wallet/src/index.js:415-473 | a poll that waits for the status ends in two steps, on a report or on a failure, with the next timer pending |
| SynchronizerRuns.RefreshPublishesItsReport | bindings/react-native-pirate-wallet/src/index.js:432-453 | whatever happens in between, a refresh publishes the report it received and the status its heights call for |
| SynchronizerRuns.PublishedIsLast | bindings/react-native-pirate-wallet/src/index.js:349-453 | in every run the published report and status are those of the last event that decides them |
| SynchronizerRuns.StartOutcomes | bindings/react-native-pirate-wallet/src/index.js:349-371 | a start does nothing while polling is on; its success schedules a poll at once, its failure nothing |
| SynchronizerRuns.TimerStartsPoll | bindings/react-native-pirate-wallet/src/index.js:420-421 | a fired timer starts exactly one poll and stays named |
| SynchronizerRuns.CallerRefreshIsQuiet | bindings/react-native-pirate-wallet/src/index.js:399-401 | asking for a refresh, or its failure, leaves polling and what is published alone |
| SynchronizerRuns.StopTurnsOff | bindings/react-native-pirate-wallet/src/index.js:373-388 | a stop leaves nothing scheduled, sets the status, and sends a cancel call exactly if polling was on or the status was another |
| SynchronizerRuns.StopHoldsExactly | bindings/react-native-pirate-wallet/src/index.js:349-388 | polling stays off until the next start in all runs exactly when no start is under way |
| SynchronizerRuns.StopDuringStartIsUndone | bindings/react-native-pirate-wallet/src/index.js:349-388 | the run in which it does not |
| SynchronizerRuns.StoppedStatusHoldsExactly | bindings/react-native-pirate-wallet/src/index.js:449-462 | the stopped status lasts exactly when no refresh under way can publish |
| DebugLog.RenamesShift | crates/pirate-core/src/debug_log.rs:394-404 | the renames move every file by exactly one slot |
| DebugLog.DebugLogFile.RotateLocked | crates/pirate-core/src/debug_log.rs:375-405 | drops an oversized or unbacked current file, otherwise shifts |
| DebugLog.DebugLogFile.EnsureCapacity | crates/pirate-core/src/debug_log.rs:413-427 | rotates exactly when the entry would not fit |
| DebugLog.DebugLogFile.EnforcePostWriteCap | crates/pirate-core/src/debug_log.rs:429-434 | discards a current file that became too large |
| DebugLog.DebugLogFile.AppendLine | crates/pirate-core/src/debug_log.rs:471-503 | what every slot holds after one write: the entry joins the current file, or the files move up by one and it starts a new one |
| DebugLog.DebugLogFile.ClearLogs | crates/pirate-core/src/debug_log.rs:459-465 | removes the current file and ten backups |
| DebugLog.DebugLogFile.Enable | crates/pirate-core/src/debug_log.rs:446-451 | disabling clears |
| DebugLogWindow.WriteWindow | crates/pirate-core/src/debug_log.rs:413-434 | a write drops at most the oldest file and appends the entry unless it is too large for any file |
| DebugLogWindow.LogIsAWindow | crates/pirate-core/src/debug_log.rs:471-553 | after any operations all files are bounded and together a suffix of the history, and while entries fit the whole of it or at least one limit per pair of slots |
| DebugLogWindow.AppendEffect | crates/pirate-core/src/debug_log.rs:471-503 | in any reachable state an append changes the window by exactly its oldest slot and the entry |
| DebugLogWindow.SwitchEffect | crates/pirate-core/src/debug_log.rs:446-465 | clearing and disabling leave no file; enabling leaves every file as it is |
| DebugLogWindow.RetentionBound | crates/pirate-core/src/debug_log.rs:375-434 | after any operations, if the entries since the last clearing fit, everything is retained or at least one file's limit per pair of slots |
| Utf8.DecodeEncode | crates/pirate-core/src/memo.rs:177-181 | every text is recovered from its bytes |
| Utf8.EncodeDecode | crates/pirate-core/src/memo.rs:177-181 | only encodings are accepted |
| Utf8.RfcExamples | crates/pirate-core/src/memo.rs:177-181 | the examples of section 7 of RFC 3629 |
| Memo.TrimPaddingCorrect | crates/pirate-core/src/memo.rs:28-35 | exactly the trailing zeros go |
| Memo.EncodeDecode | crates/pirate-core/src/memo.rs:150-182 | every 512-byte field is rebuilt from its decoding |
| Memo.DecodeEncode | crates/pirate-core/src/memo.rs:150-182 | a memo survives the field exactly when it is canonical |
| Memo.AcceptedTextRoundTrips | crates/pirate-core/src/memo.rs:38-60 | so does every memo that text entry accepts |
| Memo.TextEntryExactly | crates/pirate-core/src/memo.rs:38-60 | text is entered exactly without control characters other than tab and line ends and within 512 bytes |
| Memo.DisplayMatchesDecode | crates/pirate-core/src/memo.rs:189-207 | display text is the text that decoding finds, for fields of any length |
| Memo.TruncateToBytes | crates/pirate-core/src/memo.rs:97-111 | the longest whole-character prefix that fits |
| Memo.FromTextTruncated | crates/pirate-core/src/memo.rs:75-94 | always acceptable, and the entry's own result when the text is acceptable |
| Memo.FilterAllowedConcat | crates/pirate-core/src/memo.rs:75-94 | control characters are dropped one by one, and all else keeps its order |
| IronwoodKeys.AccountIsPath | crates/pirate-core/src/keys.rs:785-797 | the account key is the path 32, coin type, account, and each step splits its parent's hash into key and chain code |
| IronwoodKeys.MasterExactly | crates/pirate-core/src/keys.rs:676-714 | a master key exists exactly for seeds of 32 to 252 bytes whose hash starts with a valid key, and splits that hash |
| IronwoodKeys.ChildExactly | crates/pirate-core/src/keys.rs:726-777 | a child exists exactly for unhardened indices whose hash starts with a valid key; it splits the hash and carries its parent's tag |
| IronwoodKeys.PathShape | crates/pirate-core/src/keys.rs:676-777 | depth, index, lengths and parentage of every derived key, back to the master's hash |
| IronwoodKeys.PlausibleRoundTrip | crates/pirate-core/src/keys.rs:833-879 | a plausible key is read back unchanged |
| IronwoodKeys.DerivedKeyRoundTrips | crates/pirate-core/src/keys.rs:676-911 | 73 bytes, read back unchanged exactly for the master or an unwrapped depth with a non-zero tag |
| IronwoodKeys.SerializedLayout | crates/pirate-core/src/keys.rs:833-841 | where each field is in the 73 bytes |
| IronwoodKeys.FallbackExactly | crates/pirate-core/src/keys.rs:881-910 | what the fallback reads, and when it accepts it |
| IronwoodKeys.LegacyReadsBack | crates/pirate-core/src/keys.rs:881-910 | older bytes are refused at 69; padded they are read in the current layout if that accepts them, and the key material comes back exactly when it does not or when the fields repeat |

## Left out

- Proofs, signatures, sighashes, serialization of transactions and the external Sapling, Orchard and transaction libraries: their code is not visible.
- `TransactionBuilder::build_and_sign` after accounting: it repeats the accounting of the pending transaction and a Sapling-only subset of the shielded builder's loops.
- Time stamps, labels, progress, balances, transaction lists, last errors, subscriber callbacks and tracing: display data. Setting a label is modelled only as creating a usage entry.
- `advance_to` racing with fresh-index calls: threads only call `next_fresh_index`; before the counter wraps.
- `reset`, `set_policy` and custom gap limits of the rotation service: they would only add easy members.
- File-system failures of the debug log, text redaction and panic classification: an entry is the redacted text, and file operations succeed.
- A debug-log limit of exactly 2^64 - 1 bytes, at which the saturating capacity test never fires.
- The remaining native-bridge wrappers of the JavaScript binding, FFI crates, command line, network clients and platform runners: plumbing.
- `FeePolicy::multiplier` and `apply`: floating point and unused by the builders.
