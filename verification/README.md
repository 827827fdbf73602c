# GenWatch backend: a verified model

GenWatch watches a standby generator over Modbus, tracks its alarms and its transfer switch, lets
operators command both, and reports to a database, to Slack and to systemd.  This project models the
backend's state machines in Dafny and proves what they promise over whole runs.

| module | what it models |
|---|---|
| `Registers` | the register map, its validator, bit tests, first-match rules, decoding |
| `Batching` | merging registers into few reads |
| `Client` | exact-length reads with retries, write arguments |
| `Polling`, `PollRuns` | one poll as a refinement of "read each register on its own"; two poll loops and reloads interleaved |
| `ReadCodes` | the function code a register is polled with against the one it declares |
| `Comms` | link health from a bounded window, streaks and an episode deque |
| `StateTracker`, `AlarmRuns`, `LoadSource` | engine state, debounced and suppressed alarms, range alarms, load source, cross-checks |
| `Marks`, `Debounce` | what the alarm counters count, against runs of consecutive prime polls |
| `Sampling` | polling and alarm tracking together: how many decodes an alarm rests on |
| `Alarms` | the alarm table that tracker, transfer-switch service and acknowledgement share |
| `Tokens`, `TokenRuns` | single-use confirm tokens and their ledger |
| `Control`, `AtsControl`, `AtsRuns`, `Acknowledge` | generator commands, transfer-switch commands and what they rest on over runs, alarm acknowledgement |
| `Locks` | lock order and absence of deadlock |
| `System` | polling, state and commands together: what a write implies |
| `RateLimit`, `Rollup`, `Storage`, `Slack`, `Watchdog` | login limiter, telemetry rollups, prune and decimation, notifier, watchdog |

How it is built.  Objects that the source updates in place are classes whose methods are proved equal to
a function of the old state, or to a function of a ghost history; the promises are then lemmas about that
function over all histories or all interleavings.  A step between two awaits is one atomic event.

Assumptions.  Clocks are passed in as reals and do not run backwards; floats are reals.  A poll, and the
state update it triggers, end without an await in between, so they are one step.  For the poller registers
own their words, which the validator gives when none but the last register is nameless
(`Batching.AcceptedOwnWords`).  Alarm codes of bits, range checks and the disagreement check never
collide; the model keeps them apart by construction.  Device answers, database contents, random draws,
Slack's answers and wake-up times are parameters.

## Where the code and its own words differ

- `modbus/poller.py:252-257` says that one success after a watchdog trip cannot un-LOST the link.  It
  always leaves 'lost', and reaches 'healthy' when the window is at 95% (`Comms.OneSuccessAfterTrip`).
- `api/events.py:88-89,102-104` expect the next poll to raise an acknowledged alarm again while its bit is
  set.  If that poll shows the alarm, its row comes back exactly when the alarm was not on display when it
  was acknowledged (`AlarmRuns.AckReraisedIff`); an alarm shown, acknowledged and still set loses its row
  (`AlarmRuns.AckedAlarmLosesRow`), and a missing row stays away exactly as long as nothing enters the
  display (`AlarmRuns.RowStaysAwayIff`).
- `modbus/registers.py:71-72` says that a bit must stay set for so many consecutive prime polls. The tracker
  is updated after polls of both tiers (`main.py:277-279`). A bit's counter is that number throughout a run
  exactly when no base poll found the bit set and no prime poll found it set by two rules of one code
  (`Debounce.PrimeDebounceIff`, and for the poll that reaches the minimum `Debounce.BitReachedAtNthIff`);
  the validator does not check that codes are unique, and for a map the promise holds over all runs whose
  base polls find no bit set exactly when they are (`Debounce.DebounceIffUniqueCodes`). Unique codes alone
  do not help: one prime poll and any base poll display an alarm that asks for two prime polls
  (`Debounce.BasePollRaisesAlarm`, `Sampling.BasePollDisplays`).
- `services/state.py:63-71` promises three consecutive prime polls for the disagreement alarm.  The poll that
  raises it is the third exactly when it is a prime poll and, since the count left zero, no base poll
  disagreed and no prime poll was unreadable (`Debounce.DisagreementRaisedAtThirdIff`); prime, base, prime
  raises it too (`Debounce.BasePollRaisesDisagreement`).
- `services/state.py:540` promises consecutive polls for the range alarms.  The poll that raises one is the
  third in a row exactly when no poll since the count left zero had range checks off
  (`Debounce.RangeRaisedAtThirdIff`), and `Debounce.RangeRaisedAfterPause` raises otherwise.
- `services/state.py:74-76` says that a single noisy sample cannot raise a range alarm, and
  `services/state.py:538` that only fresh values are judged. A value is judged again on every update while
  the reading keeps it: the alarm rests on one decode exactly when neither the poll that raises it nor the
  one before decoded the register anew (`Sampling.RaiseRestsOnDecodes`), and one decode of a base register
  followed by two prime polls, whatever they read, raises it (`Sampling.SingleSampleRun`,
  `Sampling.SingleSampleMapExists`).
- `services/ratelimit.py:54` promises the seconds until the next check succeeds.  Truncation makes that
  too short in general (`RateLimit.Policy.ReportedWaitExact`, `RateLimit.ReportedWaitCanFail`).  It also
  promises 0 if a check would succeed now; the report does not refill, so it is positive all the same exactly
  for a bucket that was short at its last check and has refilled since (`RateLimit.Policy.NeedlessWaitIff`,
  `RateLimit.NeedlessWaitReported`).
- The limiter's rate bound needs a capacity of at least one (`RateLimit.Policy.AllowanceIffCapacity`).
- An empty register name disables the validator's overlap test for that register.  Among maps with given
  distinct names private words are guaranteed exactly when no name but the last is empty
  (`Registers.PrivateWordsIffNamed`).
- A register may declare its own read function code, and the verify endpoint uses it
  (`api/settings.py:321`); the poller reads with the map's.  The two agree on every device exactly when all
  registers of the tier declare the map's code (`ReadCodes.ReadsAsDeclaredIff`).
- `db.py:362-367` says that sample weighting recovers the true mean.  It does for every metric that is
  missing equally often from every minute of the hour, and only then (`Rollup.ExactIffEvenlyFilled`).

## Model

| member | source | states |
|---|---|---|
| `Registers.AndBit` | backend/genwatch/modbus/registers.py:154-192 | Python's `&` on unbounded integers, as the bit tests use it, is the bitwise conjunction for every operand and every bit, negative ones included |
| `Registers.FirstMatchIsEarliest` | backend/genwatch/modbus/registers.py:154-166 | engine state and panel mode are the outcome of the earliest rule whose mask is fully set, and "unknown" exactly when none is |
| `Registers.DeriveActiveAlarms` | backend/genwatch/modbus/registers.py:168-177 | the loop returns exactly the alarm bits whose mask meets a decoded register, in map order |
| `Registers.SetAlarms` | backend/genwatch/modbus/registers.py:168-177 | an alarm bit is in the result if and only if it is a rule of the map and its bit is set |
| `Registers.DecodeEncode` | backend/genwatch/modbus/registers.py:451-494 | round trip: a number the register type can hold, sign included, is recovered from the big-endian words that carry it |
| `Registers.DecodeTotal` | backend/genwatch/modbus/registers.py:451-494 | exactly the register's own number of words always decodes |
| `Registers.ScanWords` | backend/genwatch/modbus/registers.py:285-289 | the inner loop gives each word of the register to it and reports an error exactly when some word clashes with a visible owner |
| `Registers.ClaimWords` | backend/genwatch/modbus/registers.py:279-291 | the occupied-word dictionary names the last owner of each word, and an error appears exactly on an overlap with an earlier named register |
| `Registers.ValidateRegisters` | backend/genwatch/modbus/registers.py:261-295 | no error if and only if names are distinct, function codes, tiers and addresses legal, and no visible overlap exists |
| `Registers.ValidateRegisterMap` | backend/genwatch/modbus/registers.py:261-338 | sound and complete: the validator reports no error exactly for the maps described by `Accepted` |
| `Registers.AcceptedDisjoint` | backend/genwatch/modbus/registers.py:285-289 | in an accepted map in which only the last register may be nameless no word has two owners |
| `Registers.NamelessRegisterHidesOverlap` | backend/genwatch/modbus/registers.py:285-289 | for any distinct names with an empty one ahead of another, an accepted map with those names in which two registers share a word |
| `Registers.PrivateWordsIffNamed` | backend/genwatch/modbus/registers.py:285-289 | the validator guarantees private words to every map with given distinct names if and only if none but the last is empty |
| `Batching.AcceptedOwnWords` | backend/genwatch/modbus/registers.py:285-289 | an accepted map in which only the last register may be nameless gives every register its own words |
| `Batching.BatchReads` | backend/genwatch/modbus/registers.py:497-523 | the sorting and merging loop computes the table `BatchTable` for every tier whose registers own their words |
| `Batching.BatchTableShape` | backend/genwatch/modbus/registers.py:497-523 | batches are disjoint and in address order, and none is longer than max_words |
| `Batching.EachRegisterInOneBatch` | backend/genwatch/modbus/registers.py:497-523 | every register of the tier lies wholly inside exactly one batch |
| `Batching.BatchTableIsMinimal` | backend/genwatch/modbus/registers.py:497-523 | no split of the sorted registers into runs with gaps of at most 4 words and span of at most max_words uses fewer reads |
| `Client.Read` | backend/genwatch/modbus/client.py:400-438 | the retry loop returns the words of the first attempt that brought exactly the count asked for, and fails exactly when none did |
| `Client.AskBatch` | backend/genwatch/modbus/client.py:400-438 | batch and single reads through the client always satisfy the exact-length assumption of the poller model |
| `Client.WriteFrame` | backend/genwatch/modbus/client.py:440-474 | a write leaves as declared if and only if exactly one of value and values is given, is not empty, and fits the function code |
| `Client.SendControl` | backend/genwatch/services/control.py:334-347 | the call every command surface makes puts the control's own words on the wire exactly when the map's control is well formed |
| `Client.AcceptedControlsSend` | backend/genwatch/modbus/registers.py:320-336 | a control of an accepted map is never refused for its arguments |
| `Polling.FallbackSingles` | backend/genwatch/modbus/poller.py:403-434 | word list, failed offsets and the all-failed case of the fan-out; failed positions hold 0 |
| `Polling.HeadDecodes` | backend/genwatch/modbus/poller.py:317-343 | a batch decodes a register it holds exactly when all its words were read, and then from those words, never from a placeholder |
| `Polling.LookupIsFresh` | backend/genwatch/modbus/poller.py:317-343 | the first-result-wins scan over batch results equals reading the register on its own, for every pattern of failures |
| `Polling.DecodeFrom` | backend/genwatch/modbus/poller.py:318-343 | the inner loop is `Lookup` |
| `Polling.Decode` | backend/genwatch/modbus/poller.py:314-343 | tier registers that decode get value and age together; every other entry is kept |
| `Polling.Evict` | backend/genwatch/modbus/poller.py:355-376 | tier registers whose last decode is at least three periods old lose value and age together; nothing else changes |
| `Polling.HeartbeatMeansStateDecoded` | backend/genwatch/modbus/poller.py:380-396 | a heartbeat from a map with state rules implies that this very poll decoded every register those rules read |
| `Polling.Poller.ApplyRegmap` | backend/genwatch/modbus/poller.py:150-174 | after a reload both tables are those of the new map; the reading stays |
| `Polling.Poller.ReadBatch` | backend/genwatch/modbus/poller.py:287-312 | one batch yields its result and exactly one comms-health sample, however many single reads it took |
| `Polling.Poller.FinishPoll` | backend/genwatch/modbus/poller.py:314-396 | the published reading satisfies the per-register specification relative to the reading at commit time, and the heartbeat is stamped exactly when state detection is alive |
| `Polling.Poller.PollTier` | backend/genwatch/modbus/poller.py:264-401 | a whole poll refines the simple specification that reads each register on its own; an empty tier does nothing |
| `ReadCodes.PollReadsWithMapCode` | backend/genwatch/modbus/poller.py:282-296 | a poll decodes each register as reading it alone under the map's function code would |
| `ReadCodes.ReadsAsDeclaredIff` | backend/genwatch/modbus/poller.py:282-296 | polling equals reading each register with its own function code on every device if and only if all registers of the tier declare the map's |
| `ReadCodes.AcceptedMayMixCodes` | backend/genwatch/modbus/registers.py:268-284 | an accepted map may declare a register code other than the one it polls with |
| `PollRuns.SpecDetermines` | backend/genwatch/modbus/poller.py:314-378 | the per-register specification admits exactly one published reading |
| `PollRuns.EveryRun` | backend/genwatch/modbus/poller.py:150-174 | in every interleaving of prime polls, base polls and reloads: tables equal those of the current map, values and ages have the same keys, every poll in flight decodes against the map its batches came from |
| `PollRuns.ReadingIsLatestSurvivingDecode` | backend/genwatch/modbus/poller.py:264-378 | in every reachable state a register has a value if and only if some poll decoded it from words it had read, no later poll decoded it, and no poll of its tier since found it three periods old; value and age are that decode's |
| `PollRuns.SurvivorMovesIff` | backend/genwatch/modbus/poller.py:314-343 | from one commit to the next the decode behind a value stays the same exactly when the commit decodes nothing for it |
| `PollRuns.CommitIsLocalAndFresh` | backend/genwatch/modbus/poller.py:355-378 | a commit leaves every name outside its tier untouched and no register of its tier three periods old |
| `PollRuns.TiersDoNotCollide` | backend/genwatch/modbus/poller.py:314-378 | polls of one tier never lose the other tier's decodes |
| `Comms.CommsTracker.Record` | backend/genwatch/modbus/poller.py:437-473 | after each sample every bounded field is what the full history says, and the state is the classification of the full history |
| `Comms.CommsTracker.Classify` | backend/genwatch/modbus/poller.py:475-494 | the window, the rounded percentage, the streaks and the 32-entry deque decide exactly as the full history does |
| `Comms.CommsTracker.Watchdog` | backend/genwatch/modbus/poller.py:239-261 | a trip happens exactly after three silent prime periods on a link not already lost, and appends one trip to the history |
| `Comms.DequeDecidesFlapping` | backend/genwatch/modbus/poller.py:125-130 | the 32-entry deque decides the flap test exactly as the unbounded list of episodes |
| `Comms.RoundingHarmless` | backend/genwatch/modbus/poller.py:455-457 | rounding the success rate to a tenth never changes the 95% test for windows of up to 60 samples, whichever way ties go |
| `Comms.RoundingNeedsShortWindow` | backend/genwatch/modbus/poller.py:455-457 | with a longer window it would |
| `Comms.LostIffThreeFailures` | backend/genwatch/modbus/poller.py:475-477 | 'lost' holds exactly with three or more consecutive failures, trips included, after every history |
| `Comms.HealthyMeansLastSampleGood` | backend/genwatch/modbus/poller.py:475-494 | 'healthy' never coexists with a failed last sample or a trip |
| `Comms.FiveSuccessesRecover` | backend/genwatch/modbus/poller.py:483-491 | five straight successes restore 'healthy' from any history when fewer than two lost episodes lie in the last 120 s |
| `Comms.FiftySevenSuccessesRecover` | backend/genwatch/modbus/poller.py:492-494 | fifty-seven straight successes restore it whatever the flapping |
| `Comms.FiftySixSuccessesMayNotRecover` | backend/genwatch/modbus/poller.py:492-494 | fifty-six may not |
| `Comms.OneSuccessAfterTrip` | backend/genwatch/modbus/poller.py:247-261 | the first success after a trip always leaves 'lost', and reaches 'healthy' exactly when the window is at 95% or better |
| `StateTracker.StateMachine.ApplyRegmap` | backend/genwatch/services/state.py:165-192 | a reload restarts the debounce counters and keeps everything else |
| `StateTracker.StateMachine.BumpCounters` | backend/genwatch/services/state.py:357-362 | each counter grows by the number of set rules of its code, and is forgotten when none is set |
| `StateTracker.StateMachine.SyncBitRows` | backend/genwatch/services/state.py:376-427 | newly visible codes are raised, codes whose bit went low are cleared, hidden ones are neither; the events are exactly the row changes |
| `StateTracker.StateMachine.CheckNumericRanges` | backend/genwatch/services/state.py:530-615 | range counters, raised set, rows and events after one poll |
| `StateTracker.StateMachine.CheckDisagreement` | backend/genwatch/services/state.py:617-732 | disagreement counter, flag, row and event after one poll |
| `StateTracker.StateMachine.UpdateState` | backend/genwatch/services/state.py:306-526 | one poll: the whole new tracker state, and events that are exactly the inserted and deleted rows |
| `StateTracker.DeltasApart` | backend/genwatch/services/state.py:376-522 | the three alarm families insert and delete disjoint sets of rows |
| `AlarmRuns.RowsFollowBits` | backend/genwatch/services/state.py:376-427 | in every run: displayed bit codes were raised this session, raised codes have their bit set in the last poll, and no bit row this session inserted outlives its bit across suppression, reload and acknowledgement |
| `Marks.StreakIsPrimeRunIff` | backend/genwatch/services/state.py:357-362 | a counter that both tiers advance and blank polls leave alone is at least the run of consecutive prime hits, and equal to it exactly when since the last miss there was no base hit, no double hit and no blank prime poll with hits pending |
| `Marks.AlwaysPrimeRunIff` | backend/genwatch/services/state.py:357-362 | the two agree at every point of a run exactly when no poll of it does any of that |
| `Debounce.CountersAreStreaks` | backend/genwatch/services/state.py:357-732 | in every run each of the three counters is the streak of its hits over the polls of either tier that judged it |
| `Debounce.CrossChecksDebounced` | backend/genwatch/services/state.py:560-732 | in every run a range code is raised exactly with a streak of three or more, and so is the disagreement flag |
| `Debounce.RangeRaisedAtThirdIff` | backend/genwatch/services/state.py:437-440 | the poll that raises a range alarm is the third hit in a row if and only if no poll since the count left zero had range checks off |
| `Debounce.DisagreementRaisedAtThirdIff` | backend/genwatch/services/state.py:63-71 | the poll that raises the disagreement alarm is the third prime poll in a row that disagreed if and only if it is a prime poll and, since the count left zero, no base poll disagreed and no prime poll was unreadable |
| `Debounce.BasePollRaisesDisagreement` | backend/genwatch/main.py:277-279 | prime, base, prime: two prime polls and a base poll in between raise the disagreement alarm |
| `Debounce.DisputedMapExists` | backend/genwatch/services/state.py:617-732 | an accepted map and readings for which that happens |
| `Debounce.RangeRaisedAfterPause` | backend/genwatch/services/state.py:437-440 | two hits, a poll with range checks off and one more hit raise the alarm |
| `Debounce.HotMapExists` | backend/genwatch/services/state.py:560-615 | an accepted map and readings for which that happens |
| `AlarmRuns.DisplayIsUnion` | backend/genwatch/services/state.py:431-522 | after every poll the display is exactly effective bits, raised ranges and the disagreement flag, the last only with an authoritative switch and a running or alarmed engine |
| `AlarmRuns.RowLedgerBalances` | backend/genwatch/db.py:433-445 | per code, raise events minus clear events minus acknowledged deletions equals row presence now minus at the start |
| `AlarmRuns.RowBackIff` | backend/genwatch/services/state.py:377-400 | in every reachable state one event brings a missing row back exactly when the alarm enters the display with it; for range and disagreement alarms the guard is what they have raised |
| `AlarmRuns.AckReraisedIff` | backend/genwatch/api/events.py:176-176 | if the next poll shows an acknowledged alarm, its row comes back exactly when the alarm was not displayed when acknowledged |
| `AlarmRuns.RowStaysAwayIff` | backend/genwatch/api/events.py:176-176 | a missing row stays away for a whole run if and only if no event of it brings the alarm into the display |
| `AlarmRuns.AckedRowStaysAway` | backend/genwatch/api/events.py:176-176 | so an acknowledged alarm that stays displayed is not raised again |
| `AlarmRuns.AckedAlarmLosesRow` | backend/genwatch/api/events.py:176-176 | raised, acknowledged and still set on the next poll, an alarm is on display without its row |
| `Debounce.CounterIsRun` | backend/genwatch/services/state.py:357-362 | with unique codes each debounce counter is the length of the trailing run of polls, of either tier, with the bit set since the last reload |
| `Debounce.DisplayedIffDebounced` | backend/genwatch/services/state.py:368-373 | after a poll a bit alarm is displayed exactly when that run reaches min_poll_count and the engine state does not suppress it |
| `Debounce.PrimeDebounceIff` | backend/genwatch/modbus/registers.py:71-72 | at every point of every run a bit's counter is its number of consecutive prime polls exactly when nothing tore the count, and it is so throughout exactly when no base poll found the bit set and no prime poll found it set by two rules |
| `Debounce.BitReachedAtNthIff` | backend/genwatch/services/state.py:357-373 | with unique codes the poll that brings a bit's count to n is the n-th prime poll in a row if and only if it is a prime poll and no base poll found the bit set since it was last clear |
| `Debounce.DebounceIffUniqueCodes` | backend/genwatch/modbus/registers.py:71-72 | for a map: over every run whose base polls find no bit set each counter is the number of consecutive prime polls, if and only if its alarm codes are unique |
| `Debounce.BasePollRaisesAlarm` | backend/genwatch/main.py:277-279 | with unique codes, one prime poll and one base poll that see the bit display an alarm that asks for two prime polls |
| `Sampling.EveryRun` | backend/genwatch/main.py:277-279 | in every interleaving of polls of both tiers with their tracker updates, each hit counted for a register judged a value the reading then held |
| `Sampling.RaiseRestsOnDecodes` | backend/genwatch/services/state.py:530-540 | whenever a range alarm is raised, the decodes behind the three values judged last, and that they are one and the same exactly when neither the raising poll nor the one before decoded the register |
| `Sampling.OtherTierKept` | backend/genwatch/modbus/poller.py:314-378 | a poll of one tier, with any answers, keeps a register of the other as it was, decodes nothing for it, and still updates the tracker |
| `Sampling.PrimePollRepeats` | backend/genwatch/services/state.py:530-615 | any prime poll counts one more hit for an out-of-range value that a base register still holds |
| `Sampling.SingleSampleRun` | backend/genwatch/services/state.py:74-76 | from the start, one decode of a base register and two prime polls with any answers raise its range alarm |
| `Sampling.SingleSampleMapExists` | backend/genwatch/services/state.py:74-76 | an accepted map on which that happens |
| `Sampling.BasePollDisplays` | backend/genwatch/modbus/registers.py:71-72 | once a prime poll has seen the bit, any base poll displays an alarm that asks for two prime polls |
| `AlarmRuns.SourceFollowsLatch` | backend/genwatch/services/state.py:466-472 | over every run without an authoritative switch, reloads and acknowledgements included, the tracked load source is the latch over the polls' samples |
| `LoadSource.SourceIsLatch` | backend/genwatch/services/state.py:214-284 | the load is on the generator exactly when some poll set the latch and none has released it since |
| `LoadSource.OneDeadSensorNeverStarts` | backend/genwatch/services/state.py:273-284 | a sensor that never reaches its ON threshold can never start a transfer |
| `LoadSource.OneStuckSensorNeverEnds` | backend/genwatch/services/state.py:266-272 | a sensor that stays at or above its OFF threshold can never end one |
| `LoadSource.MissingReadingsHold` | backend/genwatch/services/state.py:253-261 | polls without either reading change nothing while the engine can carry load |
| `Tokens.TokenStore.Sweep` | backend/genwatch/services/control.py:208-214 | the sweep drops exactly the tokens past their expiry |
| `Tokens.TokenStore.IssueToken` | backend/genwatch/services/control.py:142-164 | after eviction one new token is in the table, under a code not in use, good for 30 s; the ledger balances |
| `Tokens.TokenStore.ConsumeToken` | backend/genwatch/services/control.py:182-206 | the verdict on a presented token, and that a token found is gone whatever the verdict |
| `Tokens.EvictionSplits` | backend/genwatch/services/control.py:208-214 | eviction splits the table into kept and evicted tokens and loses none |
| `Tokens.GrantedIff` | backend/genwatch/services/control.py:182-206 | a token is granted exactly to its operator, by its expiry, for its own action or any if unbound |
| `TokenRuns.TokenLedger` | backend/genwatch/services/control.py:142-214 | over every run of all three surfaces: each issued token is live, evicted or popped exactly once, writes use up distinct popped tokens, and each write is its operator's, in time, and for its action |
| `TokenRuns.NextFollowsStore` | backend/genwatch/services/control.py:142-214 | one event of a run does to table and ledger exactly what the store's methods promise, and writes exactly on a granted token |
| `TokenRuns.RefusedRequestsVanish` | backend/genwatch/services/control.py:236-322 | over every run of the three surfaces table, ledger and writes are those of the run without the requests that some gate of their own surface refused |
| `TokenRuns.WritesPassedGates` | backend/genwatch/services/control.py:236-347 | over every run each write is the one its own surface sends for a request of that run whose gates all held |
| `TokenRuns.AttemptBurns` | backend/genwatch/services/control.py:182-190 | past the gates the token named is burnt, granted or not |
| `TokenRuns.SpentCodeStaysDead` | backend/genwatch/services/control.py:182-190 | a code gone from the table authorises no further write until it is issued again |
| `Control.ControlService.StaleControlRegisters` | backend/genwatch/services/control.py:106-129 | exactly the source registers not decoded within two prime periods, each once |
| `Control.ControlService.CheckGates` | backend/genwatch/services/control.py:216-327 | the first refusing gate in order; none refuses exactly when all hold |
| `Control.ControlService.Execute` | backend/genwatch/services/control.py:216-347 | a write goes out if and only if every gate holds and the token is granted; a refusing gate leaves the token store unchanged |
| `AtsControl.AtsService.Update` | backend/genwatch/services/ats.py:254-462 | position, faults, normal source, identity and base flag after a poll, and fault rows raised and cleared by difference |
| `AtsControl.AtsService.DecodeFaultBits` | backend/genwatch/services/ats.py:837-845 | the fault codes whose whole mask is set |
| `AtsRuns.SnapshotTellsLastReads` | backend/genwatch/services/ats.py:254-462 | in every run position, identity and normal source are the last ones read, faults those of the very last poll, the base flag says a base poll completed, and no fault row inserted by this service outlives its bit, rows acknowledged and inserted again included |
| `AtsRuns.AssertMeansGatesHeld` | backend/genwatch/services/ats_control.py:177-222 | in every run an asserted command that passes its gates finds a link healthy by its full history, a completed base poll, version and unit last read as required, no blocking fault in the last poll, and for a forced transfer without override no available normal source last read |
| `AtsControl.AtsControlService.CheckGates` | backend/genwatch/services/ats_control.py:127-236 | no gate refuses exactly when `MayOperate` holds, and each refusal has its own cause |
| `AtsControl.AtsControlService.Execute` | backend/genwatch/services/ats_control.py:127-252 | a command is written if and only if its gates hold and the shared token is granted for this very command |
| `AtsControl.ReleaseNeverRefused` | backend/genwatch/services/ats_control.py:170-181 | a release needs nothing but the role, a mapped register and a link that is not lost |
| `AtsControl.AssertNeedsAuthority` | backend/genwatch/services/ats_control.py:175-226 | an assertion needs an authoritative link without blocking faults, and an override to force off an available utility |
| `Acknowledge.AckService.AckAlarm` | backend/genwatch/api/events.py:114-187 | refusals before the token change nothing; the row goes exactly on success; a failed write keeps it and still burns the token |
| `Acknowledge.ClearedMeansAccepted` | backend/genwatch/api/events.py:137-187 | the row is cleared exactly with a granted token and no rejected write; the controller is asked exactly with a granted token and a mapped register |
| `Locks.ProgramsDisciplined` | backend/genwatch/services/control.py:236-347 | every task takes nested locks in one order, transfer-switch lock before control lock before client lock, and gives all back |
| `Locks.NoDeadlock` | backend/genwatch/services/ats_control.py:149-252 | in every reachable state of every set of concurrent requests some task can move unless all are done |
| `Locks.RunsAreFinite` | backend/genwatch/services/ats_control.py:149-252 | every schedule is as long as the work it has done |
| `Locks.MaximalRunsServeAll` | backend/genwatch/services/ats_control.py:149-252 | a schedule that cannot be extended has served every request and freed every lock |
| `Locks.CrossedOrderDeadlocks` | backend/genwatch/services/ats_control.py:149-152 | taking the transfer-switch lock inside the control lock would allow a deadlock |
| `System.FollowsTracker` | backend/genwatch/services/state.py:321-460 | engine state and panel mode of the composed model are those of the full state machine |
| `System.WriteMeansGatesHeld` | backend/genwatch/services/control.py:236-346 | in every interleaving of polls, link events and commands on one map, a command that passes its gates finds a healthy link, every source register decoded within two prime periods, panel bits of that same reading saying auto, and an allowed engine state |
| `RateLimit.Policy.LevelIsLeastRoom` | backend/genwatch/services/ratelimit.py:34-47 | the lazily refilled, clamped level is the least room left over all windows |
| `RateLimit.Policy.GrantsIffFits` | backend/genwatch/services/ratelimit.py:34-47 | a call is let in exactly when it fits every window ending now |
| `RateLimit.Policy.AllowanceHolds` | backend/genwatch/services/ratelimit.py:34-47 | calls let in over any interval stay within capacity plus refill times its length |
| `RateLimit.Policy.AllowanceIffCapacity` | backend/genwatch/services/ratelimit.py:34-47 | that bound holds for every history if and only if the capacity is at least one |
| `RateLimit.Policy.LazyEqualsIdeal` | backend/genwatch/services/ratelimit.py:34-47 | however finely a continuously filled bucket is observed, the lazy one holds the same level |
| `RateLimit.Policy.WaitingSuffices` | backend/genwatch/services/ratelimit.py:53-60 | one second more than the reported wait is always enough |
| `RateLimit.Policy.ReportedWaitExact` | backend/genwatch/services/ratelimit.py:53-60 | the reported wait alone is enough exactly when truncation did not shorten it |
| `RateLimit.ReportedWaitCanFail` | backend/genwatch/services/ratelimit.py:53-60 | a case where it is not enough |
| `RateLimit.RateLimiter.Check` | backend/genwatch/services/ratelimit.py:34-47 | the answer is that of the key's full call history, which grows by this call; other keys are untouched |
| `RateLimit.Policy.NeedlessWaitIff` | backend/genwatch/services/ratelimit.py:53-60 | a positive wait is reported although a check would be let in if and only if the stored level was below one and would be at least one refilled to now |
| `RateLimit.NeedlessWaitReported` | backend/genwatch/services/ratelimit.py:53-60 | a conforming history where that happens |
| `RateLimit.RateLimiter.RetryAfterS` | backend/genwatch/services/ratelimit.py:53-60 | waiting the result plus one second makes the next check succeed; 0 for an unknown key; positive though a check at a given time would be let in exactly when the bucket has refilled since its last check |
| `RateLimit.RateLimiter.Reset` | backend/genwatch/services/ratelimit.py:49-51 | forgets exactly that key's history |
| `Rollup.RollTwice` | backend/genwatch/db.py:323-350 | re-running a rollup changes nothing |
| `Rollup.RollMinutesStable` | backend/genwatch/db.py:323-350 | minute rollup is idempotent and splitting its window at a bucket edge gives the same table |
| `Rollup.MeanBetweenExtremes` | backend/genwatch/db.py:323-350 | minimum, average and maximum of a minute are in order, and present together |
| `Rollup.RollHoursSplits` | backend/genwatch/db.py:352-391 | hour rollup is idempotent and splitting its window at a bucket edge gives the same table |
| `Rollup.RolledMirrors` | backend/genwatch/db.py:323-350 | after a bucket-aligned minute rollup the minute table mirrors the raw rows of the hour |
| `Rollup.HourWritten` | backend/genwatch/db.py:352-391 | the hour rollup writes a row exactly for an hour that has raw rows |
| `Rollup.HourRowExact` | backend/genwatch/db.py:352-391 | over minutes that mirror the raw rows the hour's row is their mean and count |
| `Rollup.TwoLevelRollupExact` | backend/genwatch/db.py:323-391 | minute rollup then sample-weighted hour rollup, over windows that cover the hour, stores the mean and the count of its raw rows; an hour without rows is left as it was |
| `Rollup.FullIsEven` | backend/genwatch/db.py:352-391 | a metric present in every row meets the condition for that |
| `Rollup.ExactIffEvenlyFilled` | backend/genwatch/db.py:352-391 | the hourly mean is exact for all readings if and only if the metric is missing equally often from every minute of the hour |
| `Storage.Table.DeleteChunk` | backend/genwatch/db.py:289-305 | one chunk removes doomed rows only, and fewer than chunk only when none are left |
| `Storage.Table.PruneChunked` | backend/genwatch/db.py:289-305 | with rows arriving between chunks, exactly the doomed rows go and the total counts them |
| `Storage.Decimate` | backend/genwatch/db.py:277-280 | when decimating, between max_points and 2 max_points - 1 rows come back, evenly strided |
| `Alarms.AlarmTable.Raise` | backend/genwatch/db.py:433-440 | insert-or-ignore, true exactly for a new row |
| `Alarms.AlarmTable.Clear` | backend/genwatch/db.py:442-445 | delete, true exactly when a row went |
| `Slack.DedupeMatchesLog` | backend/genwatch/services/slack.py:130-152 | pruned or not, the dedupe table decides as the full log of admitted alarms does |
| `Slack.EnqueueKeeps` | backend/genwatch/services/slack.py:286-317 | a fresh alert is always queued, last, within the bound of 200 |
| `Slack.EveryRun` | backend/genwatch/services/slack.py:319-375 | in every interleaving of alerts, worker and retry timers: queue at most 200, each message in exactly one place, at most four sends each, admitted alarms of one code and kind at least 60 s apart |
| `Slack.AlarmDecision` | backend/genwatch/services/slack.py:154-184 | after any run a wanted alarm is refused exactly when the same alarm was admitted within the last minute; otherwise it ends the queue |
| `Slack.SlackNotifier.AlertAlarm` | backend/genwatch/services/slack.py:154-184 | one alert moves the live fields as the run specification says |
| `Slack.SlackNotifier.AlertOther` | backend/genwatch/services/slack.py:186-262 | alerts without dedupe move the live fields as the run specification says |
| `Slack.SlackNotifier.WorkerTake` | backend/genwatch/services/slack.py:319-324 | the worker takes the oldest message, as the run specification says |
| `Slack.SlackNotifier.WorkerSent` | backend/genwatch/services/slack.py:333-363 | delivery, permanent failure, giving up and retry move the live fields as the run specification says |
| `Slack.SlackNotifier.RequeueAfter` | backend/genwatch/services/slack.py:365-375 | a retry goes back to the queue, or is dropped when the queue is full |
| `Watchdog.WatchdogLoop` | backend/genwatch/main.py:455-488 | a ping at each wake-up exactly when the decision says so, and a log line exactly at each change of regime |
| `Watchdog.PingIff` | backend/genwatch/services/notify.py:80-116 | a tick pings if and only if a heartbeat came within stale_after, or none ever did and the service is at most 300 s old |
| `Watchdog.AgeIsDecode` | backend/genwatch/modbus/poller.py:314-378 | every entry of the reading after a run of polls was decoded by one of them, at the time its age says |
| `Watchdog.StampNeedsState` | backend/genwatch/modbus/poller.py:389-396 | a prime poll that misses a register of the state rules stamps nothing, whatever else it reads |
| `Watchdog.SilentStateStopsPings` | backend/genwatch/modbus/poller.py:389-396 | once every prime poll misses some engine-state register, pings end within poll completion plus stale_after, even while other reads succeed |
| `Watchdog.NeverAliveStopsPings` | backend/genwatch/services/notify.py:105-112 | with no heartbeat ever, pings stop 300 s after the start |
| `Watchdog.WindowIsWide` | backend/genwatch/main.py:439-448 | the staleness window spans two ticks and six prime periods |
| `Watchdog.SteadyHeartbeatsPing` | backend/genwatch/main.py:439-479 | while heartbeats come at most stale_after apart every tick pings |

## Left out

- Polling.Poller.PollTier: no other poll runs between its reads; polls and reloads that do interleave are `PollRuns`, built from the same per-commit specification.
- PollRuns.ReadingIsLatestSurvivingDecode: after a reload a register that left the map keeps its last value, as in the source; nothing is claimed about removing it.
- Control.ControlService.StaleControlRegisters: the names come in no particular order; sorting them only shapes a message.
- Tokens.TokenStore.IssueToken: the random generator is a list of draws of which one is not in use.
- Tokens.TokenStore.Sweep: visits the tokens in an arbitrary order.
- Storage.Table.DeleteChunk: removes the first doomed rows; its contract allows any.
- Rollup.TwoLevelRollupExact: one metric at a time and non-negative timestamps; the kwh column is not modelled, and the retention loop, whose windows are not bucket-aligned, is not claimed exact.
- Storage.Decimate: max_points is not a hard cap; the bound proved is the one the code meets.
- Client.Read: reconnecting, timeouts and back-off are outcomes of an attempt; latency is not modelled.
- Acknowledge.AckService.AckAlarm: reads the control service's map; the source reads the application's, which a reload replaces last.
- AtsControl.AtsService.Update: only the fields that load source, authority, faults and command gates read; position events, read-back edges, reboot and time-skew detection are left out.
- Registers.PrivateWordsIffNamed: lists of more names than there are addresses are not considered.
- Sampling.RaiseRestsOnDecodes: one fixed map with range checks on, and a register alone behind its range code.
- TokenRuns.WritesPassedGates: what the gates look at comes with the request; that it is the live state is for `System` and `AtsRuns`.
- System.WriteMeansGatesHeld: one fixed map, and the moment of the gate check; the state may move on while the write waits for the client.
- Locks.NoDeadlock: tasks are finite and scheduling fairness is not modelled.
- Watchdog.SilentStateStopsPings: the time between a poll's decode and its stamp is a parameter.
- Comms events: the poller hands over one shared health object, so a change of comms state is not compared with an earlier copy; no claim is made that every change emits an event.
- Upper-casing of register names in range codes is ASCII.
- Message texts, severities, log lines, audit rows, wall-clock display fields and p95 latency.
- Cancellation, exceptions from the database or Slack, and process restart.
- HTTP routing, authentication, configuration and YAML loading, sockets and framing, SQLite itself, the command-line reports and the web front end.
