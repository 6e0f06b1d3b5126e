# Verified model of the OPLUS charger kernel modules

This project models the stateful core of the charging code under `oplus/kernel/charger` and proves what it
guarantees over whole runs. `dafny verify dfyconfig.toml` checks everything.

| part | files | what is modelled |
|---|---|---|
| Vote arbitration | `VoterSpec`, `Voter`, `VoterTheorems`, `VoterAnswers`, `VoterExamples` | a table of up to 32 named clients, elected by minimum, maximum or disjunction, under an override and a debug force |
| Temperature regions | `TempRegion`, `TempReversals`, `TempMonitor` | the hysteresis algorithm, once for any number of regions, used for battery and FFC |
| Fast final charge | `FfcSpec`, `FfcController`, `FfcTheorems`, `FfcReadings`, `FfcExamples` | the step machine with its counters, votes and table accesses |
| Battery full, recharge | `BatteryFull`, `BatteryReadings`, `ChargeCycle`, `ChargeEvents` | debounced detection, and the done/recharge cycle voting through the votable |
| Command handshake | `MutualCommand`, `MutualAnswers`, `MutualExamples` | requesters, readers and responders as interleaved atomic steps |
| Module registry | `ModuleSections`, `ChangedWork` | sectioned start with rollback, and the change notification with its wakeup source |
| Statistics | `SocSections`, `ScreenStats`, `UploadLimiter`, `OlcSpec`, `OlcConfig`, `OlcTheorems`, `OlcTolerance` | incremental accumulators against folds over the observations, the upload limiters, and the hexadecimal table text |
| Notification flags | `FlagWord`, `NotifyFlags` | a 64-bit word used as a set, and counters that raise flags |

Each part has value-level functions for its state and steps, classes whose methods update fields and arrays in
place and are proved equal to those functions, and lemmas about runs of the functions. Hardware reads,
clocks, allocation results and callback results are arbitrary inputs of each step. Sections under a lock are
single steps; in the two protocols every access outside one common lock section interleaves freely.

## Findings

- A MIN vote of INT_MAX and a MAX vote of INT_MIN never win the strict comparison, so with only such votes enabled
  the result is -EINVAL (`VoterTheorems.DocumentedIff`). The comment above vote_min gives INT_MAX for a table
  without enabled votes; the code and the getter's comment give -EINVAL.
- The effective client can be one that has withdrawn or voted otherwise (`VoterTheorems.BackedStepIff`,
  `VoterExamples.WithdrawnClientStays`).
- A negative votable type passes the check at creation, and the first vote then returns with the lock held
  (`VoterTheorems.DefaultArmIff`).
- On a SET_ANY votable a query for a client without an enabled vote returns 0, not the documented -EINVAL
  (`VoterTheorems.ClientVoteDocumentedIff`).
- An override with -EINVAL, an override the callback rejects and an edit of an active force value leave the
  callback's owner with a stale value (`VoterTheorems.SyncStepIff`).
- A rerun reports the elected client even while an override or a force decides the value beside it
  (`VoterTheorems.ClientSyncStepIff`).
- An override cast while a force is active keeps the client of the override before it, and comes out under that name
  when the force is lifted (`VoterAnswers.ForcedOverrideComesOut`).
- A temperature region that cannot charge ends an FFC session with the code of the gauge, which is no error
  (`FfcReadings.CheckCodes`).
- The first float-voltage vote of an FFC session is not reduced by the CV reduction, all later ones are
  (`FfcTheorems.SessionLimits`).
- The built-in battery table has seven of its eight thresholds; the last reads as 0 and the regions at 500 can
  alternate without hysteresis (`TempReversals.DefaultTableChatters`).
- The FFC monitor, which does not adopt its first region silently, needs no gap next to its lowest threshold
  (`TempReversals.ApartIffSparse`).
- The static region remembered by the FFC check outlives a session; after a session that ended on COOL or WARM the
  next one can index column -1 or 2 (`FfcTheorems.TableSafetyIff`).
- FFC_IDLE that ends with a wired charger, without wireless or without the votable leaves its output-disable vote behind,
  and so does starting a session in FFC_IDLE (`FfcTheorems.OutputAgreesIff`, two runs in `FfcExamples`).
- CMD_ACK_OK says only that some response came: it may be meant for an earlier command, or come before the command
  is read (`MutualAnswers.SuccessIsGenuineIff`, two runs in `MutualExamples`).
- "A change means the work is pending or a caller is about to schedule it" has one more phase: the work has
  started but not yet taken the lock (`ChangedWork.WakeupHeld`).
- The request resets its completion after waking the reader, so a very fast response is forgotten
  (`MutualCommand.AckIffAnsweredSinceReset`, `MutualExamples.EarlyResponseIsForgotten`).
- The read lock is released before the flag is lowered, so two readers can copy the same command
  (`MutualCommand.CopiesAreWhole`, `MutualExamples.TwoReadersCopyTwice`).
- Cool-down time goes to the level that ends an interval instead of the one in force (`ScreenStats.CreditedIff`), and
  a bad level balances only under the condition of `ScreenStats.CoolStepIff`.
- The region announcement is marked done even when the wireless module is not there to hear it
  (`TempMonitor.UpToDateIff`).
- A flag entry with a wrong magic makes its section empty, silently (`ModuleSections.Loader.FindFirstModule`).
- Setting a notification flag shifts a `long`; the model has 64 bits, which numbers 31 to 42 need.

## Model

| member | source | states |
|---|---|---|
| `VoterTheorems.StoredOutcomeIsElected` | oplus/kernel/charger/oplus_chg_voter.c:73-504 | over any run of votes, overrides, reruns, forces, force edits and queries on a fresh votable the stored result is the minimum, maximum or disjunction of the enabled votes that can win, and -EINVAL or 0 when there is none |
| `VoterTheorems.DocumentedIff` | oplus/kernel/charger/oplus_chg_voter.c:82-146 | the elected result is the documented one if and only if the type is SET_ANY, or no vote is enabled, or some enabled vote is off the far limit (INT_MAX for MIN, INT_MIN for MAX) |
| `VoterTheorems.WinnerIsBest` | oplus/kernel/charger/oplus_chg_voter.c:99-146 | the scan picks the earliest enabled ballot that no enabled ballot beats, and no ballot only when none can win |
| `VoterTheorems.ElectedIsUnique` | oplus/kernel/charger/oplus_chg_voter.c:73-146 | a table has at most one elected result, so the definition determines it |
| `VoterTheorems.ResultIsElected` | oplus/kernel/charger/oplus_chg_voter.c:73-169 | the result the scan computes over the slots is the one elected by the map of votes |
| `VoterTheorems.RunRefinesMap` | oplus/kernel/charger/oplus_chg_voter.c:148-169 | over any run of any entry points the slots refine a map from client to last vote: votes update or add an entry, queries add a disabled one, everything else leaves the map alone, and a full table admits nobody |
| `VoterTheorems.TableRefinesMap` | oplus/kernel/charger/oplus_chg_voter.c:416-504 | one call of any entry point has exactly its effect on the map |
| `VoterTheorems.RefusedVote` | oplus/kernel/charger/oplus_chg_voter.c:148-169 | a vote is refused exactly when the client is unknown and all 32 slots are taken or the name cannot be allocated; then nothing changes and the code is -EINVAL or -ENOMEM; otherwise the vote is in the table |
| `VoterTheorems.ClientVoteDocumentedIff` | oplus/kernel/charger/oplus_chg_voter.c:261-302 | a query answers -EINVAL for unknown or disabled clients, as documented, exactly except on SET_ANY votables, where such a client gets 0 |
| `VoterTheorems.InterleavingIsIrrelevant` | oplus/kernel/charger/oplus_chg_voter.c:416-504 | two runs in which each client casts the same votes in the same order end with the same table and the same result, however the clients interleave, while the slots suffice for all |
| `VoterTheorems.MapHoldsLastVotes` | oplus/kernel/charger/oplus_chg_voter.c:416-504 | after a run of votes every client's entry is its last vote, or what it was before |
| `VoterTheorems.ConsistentStep` | oplus/kernel/charger/oplus_chg_voter.c:416-648 | every entry point keeps the stored result equal to the election over the slots |
| `VoterTheorems.SyncStepIff` | oplus/kernel/charger/oplus_chg_voter.c:321-648 | from a state in which the last value delivered is the effective result, a call keeps it so if and only if it is not a force value edited to another value while in use after a delivery, an override the callback rejects with another value than the effective one, or an accepted override of -EINVAL over an elected result other than -EINVAL |
| `VoterTheorems.DeliveredIsEffective` | oplus/kernel/charger/oplus_chg_voter.c:321-648 | over any run with an accepting callback, no -EINVAL override and no edit of an active force value, the last value delivered equals the effective result |
| `VoterTheorems.ClientSyncStepIff` | oplus/kernel/charger/oplus_chg_voter.c:348-648 | from a state in which the client delivered last is the effective client, a call keeps it so if and only if it is not a rerun under an override or force by another client, nor an override that is rejected or has -EINVAL for another client |
| `VoterTheorems.DeliveredClientIsEffective` | oplus/kernel/charger/oplus_chg_voter.c:348-648 | over any run as above without reruns under an override or force, the client delivered last is the effective client |
| `VoterTheorems.BackedStepIff` | oplus/kernel/charger/oplus_chg_voter.c:416-504 | for MIN and MAX, from a state in which the remembered winner holds an enabled vote for the result (or there is none), every call of every entry point keeps that so if and only if: the first winning vote is not -EINVAL, and no withdrawal or change of vote by the remembered winner is hidden by another vote of the same value or, at -EINVAL, by nobody else being able to win |
| `VoterTheorems.WithdrawnWinnerStaysIff` | oplus/kernel/charger/oplus_chg_voter.c:366-504 | a remembered winner that withdraws, whichever slot the scan would pick, stays the effective client exactly if that is hidden in this way |
| `VoterTheorems.AnyClientIsLastTurner` | oplus/kernel/charger/oplus_chg_voter.c:354-391 | over any run of a SET_ANY votable the elected client is the first voter or the voter that last changed the result, and it is the effective one unless an override or a force is in place |
| `VoterTheorems.DefaultArmIff` | oplus/kernel/charger/oplus_chg_voter.c:466-479 | on a votable of any type that creation accepts, with no election held if the type is negative, a vote returns with the lock held if and only if the type is negative and the client has or gets a slot |
| `VoterTheorems.NoElectionWithoutVotes` | oplus/kernel/charger/oplus_chg_voter.c:416-648 | without a completed vote, whatever else is called, no election has been held |
| `VoterExamples.LimitVoteLoses` | oplus/kernel/charger/oplus_chg_voter.c:99-115 | one MIN vote of INT_MAX on a fresh votable gives -EINVAL, which is not the documented result |
| `VoterExamples.UnknownClientHasZero` | oplus/kernel/charger/oplus_chg_voter.c:273-302 | a query of a fresh SET_ANY votable answers 0 |
| `VoterExamples.RejectedOverrideIsStale` | oplus/kernel/charger/oplus_chg_voter.c:527-558 | a vote of 5 and a rejected override of 7 leave 7 delivered and 5 in effect |
| `VoterExamples.EinvalOverrideIsStale` | oplus/kernel/charger/oplus_chg_voter.c:527-558 | a vote of 5 and an accepted override of -EINVAL leave -EINVAL delivered and 5 in effect |
| `VoterExamples.EditedForceIsStale` | oplus/kernel/charger/oplus_chg_voter.c:616-648 | a force value edited while in use is in effect but not delivered |
| `VoterExamples.RerunNamesElected` | oplus/kernel/charger/oplus_chg_voter.c:560-577 | a vote by A, an override by B and a rerun deliver the value of B under the name of A |
| `VoterExamples.WithdrawnClientStays` | oplus/kernel/charger/oplus_chg_voter.c:416-504 | A off, B on 5, A on 5, and B withdraws or votes more: B stays the effective client of a result it does not vote for |
| `Voter.Votable.constructor` | oplus/kernel/charger/oplus_chg_voter.c:709-805 | a new votable of any type below the number of types has 32 free slots, no winner, no override and no force |
| `Voter.Votable.GetClientId` | oplus/kernel/charger/oplus_chg_voter.c:148-169 | the slot search over the array returns the client's slot and takes the first free one for a new client |
| `Voter.Votable.VoteExtreme` | oplus/kernel/charger/oplus_chg_voter.c:99-146 | the running minimum or maximum over the slot array is the specified winner and result |
| `Voter.Votable.VoteAny` | oplus/kernel/charger/oplus_chg_voter.c:73-84 | the disjunction over the slot array, with the voter as winner |
| `Voter.Votable.GetClientStr` | oplus/kernel/charger/oplus_chg_voter.c:171-177 | the name in a slot, or none |
| `Voter.Votable.IsClientVoteEnabled` | oplus/kernel/charger/oplus_chg_voter.c:232-259 | true exactly for a client whose vote was enabled; an unknown client is registered |
| `Voter.Votable.GetClientVote` | oplus/kernel/charger/oplus_chg_voter.c:273-302 | the queried vote, and the registration the query causes |
| `Voter.Votable.GetEffectiveResult` | oplus/kernel/charger/oplus_chg_voter.c:321-346 | force before override before election |
| `Voter.Votable.GetEffectiveClient` | oplus/kernel/charger/oplus_chg_voter.c:366-391 | the same three layers for the client |
| `Voter.Votable.Elect` | oplus/kernel/charger/oplus_chg_voter.c:466-476 | for each of the three types the switch computes the specified result and winner of the slot array |
| `Voter.Votable.Vote` | oplus/kernel/charger/oplus_chg_voter.c:416-504 | the in-place vote has exactly the specified effect on table, outcome and deliveries, and says whether it returns with the lock held |
| `Voter.Votable.VoteOverride` | oplus/kernel/charger/oplus_chg_voter.c:527-558 | the in-place override, including a callback that rejects it |
| `Voter.Votable.RerunElection` | oplus/kernel/charger/oplus_chg_voter.c:560-577 | the effective result is delivered again |
| `Voter.Votable.ForceActiveSet` | oplus/kernel/charger/oplus_chg_voter.c:616-648 | the force switch delivers the new effective result and client |
| `VoterAnswers.VoteAnswers` | oplus/kernel/charger/oplus_chg_voter.c:416-504 | a vote of a client with a slot calls the callback exactly when it is the first vote or changes the result and neither a force nor an override is in place, once and with the new result and its client; it returns the code of the callback then and 0 otherwise |
| `VoterAnswers.OverrideAnswers` | oplus/kernel/charger/oplus_chg_voter.c:527-558 | an override reports its own value and client, or on withdrawal the elected pair, and returns the code of the callback; under a force it reports nothing and returns 0 |
| `VoterAnswers.RerunAnswers` | oplus/kernel/charger/oplus_chg_voter.c:560-577 | a rerun reports the effective result once, changes no result, and returns the code of the callback, or 0 without one |
| `VoterAnswers.ForceAnswers` | oplus/kernel/charger/oplus_chg_voter.c:616-648 | the force switch reports what has become effective, the forced word read as a signed value under the debug client, and returns the code of the callback, or 0 without one |
| `VoterAnswers.ForcedOverrideComesOut` | oplus/kernel/charger/oplus_chg_voter.c:527-558 | an override cast under a force changes nothing until the force is lifted; then its value is effective, under the name of the last override that was not forced |
| `VoterAnswers.TypedVoteElects` | oplus/kernel/charger/oplus_chg_voter.c:416-504 | by integer type: a vote stores the client and ballot unless the client can have no slot, and type 0 then has the least enabled value below INT_MAX, type 1 the greatest above INT_MIN, type 2 whether any is enabled, each -EINVAL or 0 if there is none; a type without an election keeps its result |
| `VoterAnswers.FreshTyped` | oplus/kernel/charger/oplus_chg_voter.c:709-805 | a fresh votable has the result 0 for type 2 and -EINVAL for any other |
| `VoterTheorems.DefaultArmAnswers` | oplus/kernel/charger/oplus_chg_voter.c:439-479 | a vote on such a type is held unless an election has been held and the client has this ballot already; it then stores the ballot, elects and reports nothing, and returns -EINVAL, and an ignored one changes nothing and returns 0 |
| `TempRegion.NoDrift` | oplus/kernel/charger/oplus_chg_comm.c:1010-1042 | after any run of samples at most one threshold differs from its configured value, by exactly the hysteresis, and it borders the current region; no condition on the table |
| `TempRegion.RegionNearPlain` | oplus/kernel/charger/oplus_chg_comm.c:960-1042 | the region is the plain classification or its neighbour, and a neighbour only within the hysteresis of the border between them |
| `TempRegion.Settled` | oplus/kernel/charger/oplus_chg_comm.c:974-1042 | with ascending thresholds, however close, evaluating the same temperature again changes nothing |
| `TempReversals.ApartIffSparse` | oplus/kernel/charger/oplus_chg_comm.c:974-1042 | for every threshold table, ascending or not, all reversals of all runs are more than the hysteresis apart if and only if the table is sparse: for the battery, which adopts its first region, every gap between an earlier and a later threshold is at least the hysteresis; for FFC, which does not, every gap above the first threshold is |
| `TempReversals.FreshRunTravel` | oplus/kernel/charger/oplus_chg_comm.c:927-958 | with a sparse table of any size, reversals times (hysteresis + 1) is at most the total variation of the samples of the run |
| `TempReversals.ReversalsCostTravel` | oplus/kernel/charger/oplus_chg_comm.c:974-1042 | the same from any state, if the reversals are apart |
| `TempReversals.SpacedKeepsApart` | oplus/kernel/charger/oplus_chg_comm.c:974-1042 | with all gaps wide enough, every reversal happens more than the hysteresis away from the change before it, with or without adoption |
| `TempReversals.PlacedKeepsApart` | oplus/kernel/charger/oplus_chg_comm.c:1080-1106 | without adoption it is enough that the gaps above the first threshold are wide enough |
| `TempReversals.TooCloseTurns` | oplus/kernel/charger/oplus_chg_comm.c:1010-1042 | every table that is not sparse turns round too soon in a run of three samples |
| `TempReversals.DefaultTableChatters` | oplus/kernel/charger/oplus_chg_comm.c:108 | the built-in table, whose eighth entry is missing, is not sparse: 499, 500, 499 turns the region round |
| `TempMonitor.Thresholds.constructor` | oplus/kernel/charger/oplus_chg_comm.c:940-957 | the thresholds start as configured, in the invalid region |
| `TempMonitor.Thresholds.GetRegion` | oplus/kernel/charger/oplus_chg_comm.c:974-982 | the scan returns the first region whose upper threshold is above the temperature |
| `TempMonitor.Thresholds.Enter` | oplus/kernel/charger/oplus_chg_comm.c:1010-1042 | the two rewriting loops leave every threshold as configured but one, shifted by the hysteresis |
| `TempMonitor.Thresholds.GetFfcTempRegion` | oplus/kernel/charger/oplus_chg_comm.c:1072-1109 | the FFC evaluation in place is the common step over three thresholds |
| `TempMonitor.Thresholds.UpdateRegion` | oplus/kernel/charger/oplus_chg_comm.c:1007-1042 | the battery evaluation in place is the common step over eight thresholds, with the very first region adopted as it is |
| `TempMonitor.BatteryTemp.CheckVoltage` | oplus/kernel/charger/oplus_chg_comm.c:1044-1067 | the voltage flag with its own hysteresis, and the announcement: it waits while the voltage cannot be read, and is lost for a votable or wireless module that is not there |
| `TempMonitor.BatteryTemp.CheckBattTemp` | oplus/kernel/charger/oplus_chg_comm.c:987-1070 | the whole battery check: region, decision to tell the charger, voltage flag |
| `TempMonitor.BatteryTemp.UpdateConfig` | oplus/kernel/charger/oplus_chg_comm.c:1563-1575 | a changed configuration asks for an announcement with a check |
| `TempMonitor.UpToDateIff` | oplus/kernel/charger/oplus_chg_comm.c:1010-1068 | exactly which checks keep the charger told of the current region, or due to be told at the next voltage reading |
| `TempMonitor.AnnouncedIsCurrent` | oplus/kernel/charger/oplus_chg_comm.c:987-1070 | without fast charging and with the wireless module there, the region announced last is the current one, or its announcement waits for a voltage reading, over any run of checks, periodic or after a changed configuration |
| `TempMonitor.EarlyAnnouncementIsLost` | oplus/kernel/charger/oplus_chg_comm.c:1058-1066 | the first announcement without the wireless module is lost, and not repeated |
| `TempMonitor.VotedIsCurrent` | oplus/kernel/charger/oplus_chg_comm.c:987-1070 | without fast charging and with the votable there, the float voltage voted for last is that of the current region, or its announcement waits for a voltage reading, over any run of checks |
| `TempMonitor.VotedStep` | oplus/kernel/charger/oplus_chg_comm.c:987-1070 | every such check keeps that |
| `TempMonitor.TellsIff` | oplus/kernel/charger/oplus_chg_comm.c:1010-1067 | with nothing waiting, a check votes and announces exactly if the voltage flag changes or a border between two known regions is crossed, during fast charging only that between COOL and LITTLE_COOL, and tells the region entered |
| `TempMonitor.AskedCheckTells` | oplus/kernel/charger/oplus_chg_comm.c:1563-1575 | a check after a changed configuration tells everybody who is there, even during fast charging; without a reading it keeps waiting, and during FFC nothing happens |
| `TempMonitor.VoltageFlagIff` | oplus/kernel/charger/oplus_chg_comm.c:1048-1057 | after any run the flag is up exactly if some voltage was above the limit, or it was up at the start, and none since has been more than the hysteresis below the limit |
| `TempMonitor.ChecksRunMonitor` | oplus/kernel/charger/oplus_chg_comm.c:987-1042 | a run of checks takes the thresholds through the temperatures read outside FFC sessions, so that the results on runs of samples hold for it |
| `FfcTheorems.HighChecksBounded` | oplus/kernel/charger/oplus_chg_comm.c:1276-1310 | a session counts at most 6 * step_max checks with the voltage at or above cutoff |
| `FfcTheorems.ProgressRises` | oplus/kernel/charger/oplus_chg_comm.c:1276-1293 | 6 * ffc_step + ffc_fv_count never falls in FFC_FAST and rises on every high voltage |
| `FfcTheorems.LowStreakBounded` | oplus/kernel/charger/oplus_chg_comm.c:1284-1294 | at most step_max + 3 checks of a session in a row read the gauge and find the current low |
| `FfcTheorems.IdleBounded` | oplus/kernel/charger/oplus_chg_comm.c:1344-1364 | at most seven checks that can read the gauge start in FFC_IDLE; a failed reading changes nothing |
| `FfcTheorems.ProductiveSessionEnds` | oplus/kernel/charger/oplus_chg_comm.c:1183-1379 | a session in which every check reads the gauge and every fast one finds a high voltage or a low current is over within a computed number of checks |
| `FfcTheorems.CountingStep` | oplus/kernel/charger/oplus_chg_comm.c:1183-1379 | every check keeps the counters in their ranges |
| `FfcTheorems.TableSafetyIff` | oplus/kernel/charger/oplus_chg_comm.c:1126-1342 | for 1 <= step_max <= 4 all table accesses of all checks of a session are inside the tables if and only if the remembered region is PRE_NORMAL or NORMAL when the session starts |
| `FfcTheorems.RunInTables` | oplus/kernel/charger/oplus_chg_comm.c:1225-1342 | rows stay below step_max and columns are 0 or 1 although one check may advance two steps |
| `FfcTheorems.StaleRegionEscapes` | oplus/kernel/charger/oplus_chg_comm.c:1226-1268 | a session started with another remembered region indexes outside the table on its first check in that region |
| `FfcTheorems.ErrorExitRemembers` | oplus/kernel/charger/oplus_chg_comm.c:1227-1260 | a fast check leaves the remembered region fit for a later session exactly if the gauge could not be read or the region seen allows charging |
| `FfcTheorems.CallsKeepFlagsAndCounters` | oplus/kernel/charger/oplus_chg_comm.c:1111-1379 | over any run that mixes attempts to start a session with checks, ffc_charging holds at every call boundary exactly when ffc_status is not FFC_DEFAULT, and the counters of a session are in their ranges |
| `FfcTheorems.OutputAgreesIff` | oplus/kernel/charger/oplus_chg_comm.c:1111-1379 | over any run of both entry points the output-disable vote is on exactly in FFC_IDLE at every call boundary if and only if no call strands it: no start of a session in FFC_IDLE, and no end of FFC_IDLE with a wired charger, without wireless or without the votable |
| `FfcTheorems.IdleHoldsOutputIff` | oplus/kernel/charger/oplus_chg_comm.c:1111-1379 | the same condition for a single call |
| `FfcTheorems.SessionLimits` | oplus/kernel/charger/oplus_chg_comm.c:1111-1342 | from the start of a session through any run of checks, while it is in FFC_FAST the current and voltage limits in force are the table entries of the step reached and the region last seen with a working gauge, the voltage less the CV reduction of that check and not reduced before the first one |
| `FfcExamples.SecondSessionEscapes` | oplus/kernel/charger/oplus_chg_comm.c:1226-1268 | from the probed device: a session, a check at COOL or WARM, a second session and a check there index column -1 or 2, whatever the tables and readings |
| `FfcExamples.IdleLeavesOutputDisabled` | oplus/kernel/charger/oplus_chg_comm.c:1344-1378 | from the probed device: four low currents and seven checks with a wired charger end the session with the output still disabled |
| `FfcExamples.SwitchLeavesOutputDisabled` | oplus/kernel/charger/oplus_chg_comm.c:1126-1168 | from the probed device: a session that has reached FFC_IDLE is started again, and is in FFC_FAST with the output disabled |
| `FfcController.Controller.SwitchFfc` | oplus/kernel/charger/oplus_chg_comm.c:1111-1181 | starting a session in place: state, code, votes and table accesses |
| `FfcController.Controller.CheckFfc` | oplus/kernel/charger/oplus_chg_comm.c:1183-1379 | one check in place: state, code, votes in order and table accesses |
| `FfcController.Controller.MeetRegion` | oplus/kernel/charger/oplus_chg_comm.c:1226-1261 | a changed region is remembered before it may end the session |
| `FfcController.Controller.CheckIdle` | oplus/kernel/charger/oplus_chg_comm.c:1344-1378 | the idle arm in place |
| `FfcReadings.StepsExactly` | oplus/kernel/charger/oplus_chg_comm.c:1276-1356 | at any point of any session a check completes one step for the sixth high voltage since the step last changed and one for the fourth or any later low current in a row, by voltage, size of the current and tables, and none otherwise; the session goes to FFC_IDLE exactly when the last step is completed |
| `FfcReadings.CountersFollowReadings` | oplus/kernel/charger/oplus_chg_comm.c:1276-1294 | in FFC_FAST the two counters are the number of high voltages since the step last changed and the number of low currents in a row; checks with a failed reading count for neither |
| `FfcReadings.QuietCheck` | oplus/kernel/charger/oplus_chg_comm.c:1276-1314 | a check that finds neither, such as one with a large negative current, resets the low count and changes nothing else but the region remembered |
| `FfcReadings.LimitsAreEntries` | oplus/kernel/charger/oplus_chg_comm.c:1296-1342 | with tables of the configured shape, the current and voltage limits in force in FFC_FAST are the entries of the step reached and of the column of the region last seen |
| `FfcReadings.ReadingsUseEntries` | oplus/kernel/charger/oplus_chg_comm.c:1276-1288 | the voltage and the size of the current are compared with the cutoff entries of the step and the region |
| `FfcReadings.IdleEndsOnSeventh` | oplus/kernel/charger/oplus_chg_comm.c:1344-1364 | FFC_IDLE lasts for exactly six checks that can read the gauge and ends with the seventh |
| `FfcReadings.IdleLimits` | oplus/kernel/charger/oplus_chg_comm.c:1296-1314 | on the way to FFC_IDLE the float voltage goes back to that of the battery region less the CV reduction, and the idle counter starts at zero |
| `FfcReadings.SwitchCodes` | oplus/kernel/charger/oplus_chg_comm.c:1111-1181 | a session starts with all counters at zero exactly in a charging region, on wireless alone, with the four votables there; otherwise the code says which is missing and nothing is voted |
| `FfcReadings.CheckCodes` | oplus/kernel/charger/oplus_chg_comm.c:1183-1379 | what a check returns: 1 for a session that ends well, an error exactly if it ends the session otherwise, except that a region that cannot charge ends it with the code of the gauge |
| `FfcReadings.FastCheckNeeds` | oplus/kernel/charger/oplus_chg_comm.c:1226-1342 | for a fast check with a working gauge in a charging region: which chargers and votables it needs, depending on whether the region has changed and the last step is completed; its code and the next state follow exactly |
| `FfcReadings.RecordedReadsDecide` | oplus/kernel/charger/oplus_chg_comm.c:1126-1342 | the table accesses recorded for a call are all there are: tables that agree on those cells give the same outcome, and in a session that goes on each limit vote reads one entry besides the two cutoffs |
| `BatteryFull.FullOnlyAfterRow` | oplus/kernel/charger/oplus_chg_comm.c:1381-1499 | full is reported only on a counted evaluation that completes three in a row at the hardware limit, or at least min(5 * num, 10) + 1 in a row above the software limit with a fitting current; skipped calls break no row |
| `BatteryFull.EveryThirdHwReports` | oplus/kernel/charger/oplus_chg_comm.c:1480-1498 | every third evaluation in a row at the hardware limit does report |
| `BatteryFull.SwReportsInTime` | oplus/kernel/charger/oplus_chg_comm.c:1456-1478 | from any point, evaluations that are all above the software limit stay unreported for at most max(5 * num, 10) calls |
| `BatteryFull.CountersFollowRows` | oplus/kernel/charger/oplus_chg_comm.c:1381-1499 | between calls both result flags are false, the hardware counter is the row modulo 3 and the software counter is bounded by row and target |
| `BatteryFull.Detector.CheckBattFull` | oplus/kernel/charger/oplus_chg_comm.c:1381-1499 | the detector in place, with its early returns and four static variables |
| `BatteryReadings.FullOnlyAfterReadings` | oplus/kernel/charger/oplus_chg_comm.c:1381-1499 | full is reported only by a call that looks, with a charger there, in a charging region, with a working gauge, and then its reading completes three, six, ... in a row at 18 mV above the full voltage of the region less the CV reduction, or at least min(5 * num, 10) + 1 in a row above the full voltage less offset and reduction, with a current that is not charging or within the termination current |
| `BatteryReadings.ThirdReadingReports` | oplus/kernel/charger/oplus_chg_comm.c:1480-1498 | every third such reading in a row at the hardware limit does report |
| `BatteryReadings.SoftwareReportsExactly` | oplus/kernel/charger/oplus_chg_comm.c:1456-1478 | from rest, readings above the software limit alone report for the first time with number 5 * num + 1 if they taper and with number 11 if they do not charge, and the detector is then at rest again |
| `BatteryReadings.SoftwareReportsInTime` | oplus/kernel/charger/oplus_chg_comm.c:1456-1478 | from any point of any run, max(5 * num, 10) + 1 calls with readings that speak for a full battery by software report at least once |
| `BatteryReadings.RowsAreReadings` | oplus/kernel/charger/oplus_chg_comm.c:1381-1499 | the rows that the detector counts are rows of readings of voltage, current, region and configured limits |
| `BatteryReadings.BelowHardwareLimit` | oplus/kernel/charger/oplus_chg_comm.c:1480-1486 | a reading below the hardware limit resets the hardware count |
| `ChargeCycle.CycleHolds` | oplus/kernel/charger/oplus_chg_comm.c:1884-1900 | over any run of heartbeats mixed with other uses of the votable: recharge pending implies done, done and recharge alternate, and USER_VOTER disables the output exactly while done without a pending recharge |
| `ChargeCycle.HeartbeatAgreesIff` | oplus/kernel/charger/oplus_chg_comm.c:1858-1910 | for any chargers and votables, exactly when one heartbeat keeps the vote in agreement with the flags |
| `ChargeCycle.WiredFullLeavesVoteOff` | oplus/kernel/charger/oplus_chg_comm.c:1516-1521 | three heartbeats with a full battery on a wired charger mark it done without disabling the output |
| `ChargeCycle.CycleStarts` | oplus/kernel/charger/op_wlchg_v2/oplus_chg_wls.c:1877 | the withdrawal of USER_VOTER by the wireless driver establishes the invariant |
| `ChargeCycle.OthersLeaveUserVote` | oplus/kernel/charger/oplus_chg_voter.c:416-504 | no other use of the votable touches the vote of USER_VOTER |
| `ChargeCycle.TermCurrentStep` | oplus/kernel/charger/oplus_chg_comm.c:1501-1537 | what a termination check changes, in terms of the report |
| `ChargeCycle.RechargeStep` | oplus/kernel/charger/oplus_chg_comm.c:1886-1900 | what a recharge decision changes |
| `ChargeCycle.ChargeControl.CheckTerm` | oplus/kernel/charger/oplus_chg_comm.c:1501-1537 | the termination check in place, voting through the votable object |
| `ChargeCycle.ChargeControl.HeartbeatWork` | oplus/kernel/charger/oplus_chg_comm.c:1858-1910 | the heartbeat in place |
| `ChargeEvents.HeartbeatEvents` | oplus/kernel/charger/oplus_chg_comm.c:1858-1910 | a heartbeat marks the charge done exactly if it asks the detector, which it does unless the charge is done with no recharge pending, and the readings so far report a full battery; it requests a recharge exactly if then the charge is done with none pending and the voltage plus the CV reduction is down at the recharge level of a charging region, without over-voltage |
| `ChargeEvents.RechargeRequestedIff` | oplus/kernel/charger/oplus_chg_comm.c:1886-1900 | with the charge done and no recharge pending, a heartbeat ends with a recharge pending if and only if it is present, not fast charging, without over-voltage, in a charging region, and the voltage plus the CV reduction is at most the recharge level |
| `ChargeEvents.RechargesNeedLowBeats` | oplus/kernel/charger/oplus_chg_comm.c:1886-1900 | over any run with any chargers there are no more recharges than heartbeats that read a voltage so low |
| `MutualCommand.CopiesAreWhole` | oplus/kernel/charger/oplus_chg_comm.c:1985-2094 | in every interleaving of any number of requesters, readers and responders each copy is a whole stored command, copies follow the order of storing, and a copy is newer than all before it if and only if its reader took the data lock with the flag still up |
| `MutualCommand.CopiesAreWholeAndNew` | oplus/kernel/charger/oplus_chg_comm.c:1985-2094 | with a single reader every copy is newer than the one before, so no stored command is copied twice |
| `MutualExamples.TwoReadersCopyTwice` | oplus/kernel/charger/oplus_chg_comm.c:2001-2012 | two readers that pass the wait for the same command both copy it, the second with the flag down |
| `MutualExamples.EarlyResponseIsForgotten` | oplus/kernel/charger/oplus_chg_comm.c:2080-2088 | a response between the publication of a command and the reset of the completion leaves the request to time out |
| `MutualExamples.UnreadCommandIsAcknowledged` | oplus/kernel/charger/oplus_chg_comm.c:2041-2089 | a response before anybody has read the command makes the request return CMD_ACK_OK |
| `MutualExamples.LateResponseAcknowledgesNext` | oplus/kernel/charger/oplus_chg_comm.c:2041-2089 | the late response to a command that has timed out acknowledges the next command, which nobody has read |
| `MutualCommand.AcksAreAnswers` | oplus/kernel/charger/oplus_chg_comm.c:2046-2094 | at most one requester waits, and CMD_ACK_OK means a response arrived after the reset of that request |
| `MutualAnswers.SuccessIsGenuineIff` | oplus/kernel/charger/oplus_chg_comm.c:2020-2094 | all along any run, every CMD_ACK_OK a request can return stands for a response to its own record made after that record was read, if and only if each first response to a waiting request is for the newest record and comes after that record has been copied |
| `MutualAnswers.PromptResultsAreGenuine` | oplus/kernel/charger/oplus_chg_comm.c:2020-2094 | with such responders every CMD_ACK_OK that a run has returned is of this kind |
| `MutualCommand.AckIffAnsweredSinceReset` | oplus/kernel/charger/oplus_chg_comm.c:2020-2094 | a waiting request can succeed exactly when a response came after its reset; one that arrives between the wake-up and the reset is forgotten |
| `MutualCommand.LocksStep` | oplus/kernel/charger/oplus_chg_comm.c:1985-2094 | the three locks are held by exactly the parties inside their sections |
| `MutualCommand.RecordStep` | oplus/kernel/charger/oplus_chg_comm.c:2072-2079 | inside the data lock the record is written part by part, outside it the record is the last one stored |
| `MutualCommand.FreshStep` | oplus/kernel/charger/oplus_chg_comm.c:1985-2018 | outside a copy the flag is up exactly while there is a record newer than the last copied |
| `MutualCommand.CopiesStep` | oplus/kernel/charger/oplus_chg_comm.c:1985-2018 | every step keeps the copies whole, ordered, and new exactly where the flag was up |
| `MutualCommand.AckStep` | oplus/kernel/charger/oplus_chg_comm.c:2046-2094 | the completion counts the responses since the waiting request's reset |
| `MutualCommand.StoredIsRequest` | oplus/kernel/charger/oplus_chg_comm.c:2072-2079 | the record carries the command and data of the request, padded with zeros to the buffer of 256 |
| `MutualCommand.OnlyRequestsAreStored` | oplus/kernel/charger/oplus_chg_comm.c:2046-2080 | over any run whatever is stored is the whole record of a request that was begun, and nothing is stored before a reader has come in |
| `ChangedWork.WakeupHeld` | oplus/kernel/charger/oplus_chg_core.c:41-88 | in every interleaving a change and a running notifier chain hold the wakeup source, and a change has a caller about to schedule, a queued work or a just entered work to serve it |
| `ChangedWork.EnteredWorkServesAlone` | oplus/kernel/charger/oplus_chg_core.c:41-88 | a run in which a change has neither a queued work nor a caller about to schedule, only the work between its start and its first lock |
| `ChangedWork.NoChangeIsLost` | oplus/kernel/charger/oplus_chg_core.c:41-88 | once no more changes come, within a computed number of steps every interleaving ends quiet, with every change claimed by a notification and the wakeup source released |
| `ChangedWork.QuietMeansDelivered` | oplus/kernel/charger/oplus_chg_core.c:41-88 | whenever all is quiet every change has been claimed and the device may sleep |
| `ChangedWork.InvStep` | oplus/kernel/charger/oplus_chg_core.c:41-88 | every atomic step keeps the protocol invariant |
| `ChangedWork.MarksAreChanges` | oplus/kernel/charger/oplus_chg_core.c:41-60 | over any run the marks are the changes announced |
| `ChangedWork.NoIdleNotification` | oplus/kernel/charger/oplus_chg_core.c:41-88 | over any run the notifier chain is started at most once for each change: a notification claims at least one change of its own |
| `ModuleSections.Loader.FindFirstModule` | oplus/kernel/charger/oplus_chg_core.c:641-664 | the downward scan finds the start of the maximal run of the magic |
| `ModuleSections.Loader.FindLastModule` | oplus/kernel/charger/oplus_chg_core.c:666-689 | the upward scan finds its end |
| `ModuleSections.Loader.SectionModulesInit` | oplus/kernel/charger/oplus_chg_core.c:691-731 | a section comes up entirely or is rolled back in reverse order |
| `ModuleSections.Loader.SectionModulesExit` | oplus/kernel/charger/oplus_chg_core.c:733-753 | a section is exited from the end of its run to the start |
| `ModuleSections.Loader.ModulesInit` | oplus/kernel/charger/oplus_chg_core.c:755-781 | the four sections together come up as one list of entries, all or nothing, whichever section fails |
| `ModuleSections.Loader.ModulesExit` | oplus/kernel/charger/oplus_chg_core.c:783-789 | the exit calls of all sections, last entry first |
| `ModuleSections.BringUpAppend` | oplus/kernel/charger/oplus_chg_core.c:755-781 | nested rollback of two parts equals the rollback of their concatenation |
| `ModuleSections.BringUpUnfolded` | oplus/kernel/charger/oplus_chg_core.c:691-731 | nested rollback is: the inits before the first failure, the failing one, and their exits in reverse |
| `ModuleSections.ExitsMirrorInitsIff` | oplus/kernel/charger/oplus_chg_core.c:755-789 | the exits are exactly the reverse of the inits if and only if every entry has both functions or neither |
| `ModuleSections.Loader.ExitsMirrorStartIff` | oplus/kernel/charger/oplus_chg_core.c:755-789 | after a successful modules_init, modules_exit makes exactly the reverse calls over all four sections if and only if every entry has both functions or neither; the sections share no entry |
| `ModuleSections.FailureUndoesEverything` | oplus/kernel/charger/oplus_chg_core.c:755-781 | with paired entries a failed start leaves the successful inits, the failure, and the reverse of the successful inits |
| `ModuleSections.SectionIsJoined` | oplus/kernel/charger/oplus_chg_core.c:641-689 | a section consists of exactly the entries that are joined to its flag by entries with its magic |
| `ModuleSections.Loader.BringUpOrder` | oplus/kernel/charger/oplus_chg_core.c:755-781 | the entries are brought up by section, core, early, normal, late, and within a section by address |
| `ModuleSections.Loader.BringUpAll` | oplus/kernel/charger/oplus_chg_core.c:755-781 | they are exactly the entries of the four runs |
| `SocSections.SectionsAddUp` | oplus/kernel/charger/oplus_chg_track.c:6032-6170 | after any session low, medium and high time and capacity are what passed in the intervals that end charging and begin in that section; their sums are all such intervals that begin outside OVER |
| `SocSections.HoldsStep` | oplus/kernel/charger/oplus_chg_track.c:6032-6170 | one observation adds its interval to exactly the section it began in |
| `SocSections.SectionCatchesUp` | oplus/kernel/charger/oplus_chg_track.c:6032-6170 | while charging each observation moves the section one step nearer to the fitting one, except that OVER stays at exactly 90 |
| `SocSections.SocTracker.CalSectionSocIncRm` | oplus/kernel/charger/oplus_chg_track.c:6032-6170 | the in-place calculation with its static variables |
| `SocSections.SectionsAddUpSincePlug` | oplus/kernel/charger/oplus_chg_track.c:6032-6170 | over any run of plug events and observations the accumulators hold, section by section and in sum, what passed since the last plug event, and nothing from before it |
| `SocSections.RestFits` | oplus/kernel/charger/oplus_chg_track.c:6032-6155 | without charging the section is at once the one that fits the state of charge |
| `SocSections.MovesTowards` | oplus/kernel/charger/oplus_chg_track.c:6032-6155 | a section that fits stays, and one that does not moves to its neighbour on the way, except OVER at exactly 90 |
| `SocSections.ChargingFits` | oplus/kernel/charger/oplus_chg_track.c:6032-6155 | while charging at one state of charge the section fits after three observations, unless it stays at OVER at 90 |
| `ScreenStats.ScreenAccount` | oplus/kernel/charger/oplus_chg_track.c:5269-5325 | since the plug-in, on time, off time and the unflushed remainder are the length of all intervals that began charging, and each screen state has its own share |
| `ScreenStats.ScreenStep` | oplus/kernel/charger/oplus_chg_track.c:5269-5325 | one observation credits its interval to the screen state it began in |
| `ScreenStats.CoolDownAccount` | oplus/kernel/charger/oplus_chg_track.c:5055-5095 | with valid levels the table sums to the same total, and each entry is the time of the intervals that ended with its level |
| `ScreenStats.CreditStepIff` | oplus/kernel/charger/oplus_chg_track.c:5082-5089 | one observation credits the level in force if and only if it was not charging, the level does not change, or no time has passed |
| `ScreenStats.CreditedIff` | oplus/kernel/charger/oplus_chg_track.c:5082-5089 | at every boundary of a run the table is the one that credits the levels in force if and only if no observation changes the level at a cost |
| `ScreenStats.ForceTimeKept` | oplus/kernel/charger/oplus_chg_track.c:5055-5095 | such a run ends with the time each level was in force |
| `ScreenStats.ForceTimeSincePlugIn` | oplus/kernel/charger/oplus_chg_track.c:5055-5095 | the same since the plug-in, whose level is in force until the first observation |
| `ScreenStats.LevelChangeIsMiscredited` | oplus/kernel/charger/oplus_chg_track.c:5082-5083 | ten seconds at level 0 that end with level 1 are credited to level 1 |
| `ScreenStats.BadLevelLosesTime` | oplus/kernel/charger/oplus_chg_track.c:5065-5068 | ten seconds of charging that end with an invalid level are in no entry |
| `ScreenStats.EffectsCounted` | oplus/kernel/charger/oplus_chg_track.c:5070-5071 | over any run the effect counter is the number of charging observations with a valid level other than 0 |
| `ScreenStats.CoolStepIff` | oplus/kernel/charger/oplus_chg_track.c:5055-5095 | with arbitrary levels the account balances over an observation if and only if the level is valid, the charging status does not change with it, or no time is outstanding |
| `ScreenStats.CoolTimeKept` | oplus/kernel/charger/oplus_chg_track.c:5055-5095 | the balance over any run of such observations |
| `ScreenStats.LedStats.constructor` | oplus/kernel/charger/oplus_chg_track.c:6763-6800 | the screen counters after a plug-in |
| `ScreenStats.LongIntervals` | oplus/kernel/charger/oplus_chg_track.c:5269-5325 | since the plug-in the totals kept for the charging speed are the time and capacity of the charging intervals longer than two minutes, each in the screen state it began in |
| `ScreenStats.EffectsSincePlugIn` | oplus/kernel/charger/oplus_chg_track.c:5055-5071 | since the plug-in the effect counter is the number of such observations, and a level is valid exactly if the table has an entry for it |
| `ScreenStats.LedStats.CalLedOnStats` | oplus/kernel/charger/oplus_chg_track.c:5269-5325 | the in-place calculation |
| `ScreenStats.CoolDownStats.CalCoolDownStats` | oplus/kernel/charger/oplus_chg_track.c:5055-5095 | the in-place calculation over the table of levels |
| `UploadLimiter.WindowBound` | oplus/kernel/charger/oplus_chg_track.c:1968-2000 | under a clock that never runs backward any 24-hour window of any run contains at most 11 uploads |
| `UploadLimiter.InvStep` | oplus/kernel/charger/oplus_chg_track.c:1968-2000 | every attempt keeps any twelve consecutive uploads spread over more than a period |
| `UploadLimiter.SpreadBoundsWindow` | oplus/kernel/charger/oplus_chg_track.c:177-181 | sorted times so spread put at most 11 into any window |
| `UploadLimiter.Limiter.UploadBccErrInfo` | oplus/kernel/charger/oplus_chg_track.c:1954-2001 | the first limiter in place, reading the clock twice |
| `UploadLimiter.Limiter.RecordGaugeInfo` | oplus/kernel/charger/oplus_chg_track.c:7319-7369 | the second limiter in place |
| `UploadLimiter.RefusedIff` | oplus/kernel/charger/oplus_chg_track.c:1968-2000 | after any run an attempt uploads exactly if nothing else blocks it and the last eleven uploads are no burst, each asked for within 24 hours after the one before it, that reaches to the attempt |
| `OlcTheorems.RoundTrip` | oplus/kernel/charger/oplus_chg_track.c:1657-1723 | for every table of sixteen 64-bit words, setting the configuration from its printed text yields that table, whatever was there before |
| `OlcTheorems.TextIsInjective` | oplus/kernel/charger/oplus_chg_track.c:1702-1723 | two tables never print alike |
| `OlcTheorems.StoreText` | oplus/kernel/charger/oplus_chg_track.c:1657-1700 | storing a text from some entry on replaces exactly the tail of the table |
| `OlcTheorems.ParseHex` | oplus/kernel/charger/oplus_chg_track.c:1657-1700 | one printed word reads back as itself |
| `OlcTheorems.TextFits` | oplus/kernel/charger/v1/oplus_chg_exception.h:18-21 | the text of a full table fits the buffer of 272 characters even with sixteen digits in each entry |
| `OlcTolerance.StoreAnyWords` | oplus/kernel/charger/oplus_chg_track.c:1657-1700 | storing any comma-separated words writes each word that is a number into the entry of its place, leaves the entry of any other word as it was, and ends before a word of more than sixteen characters and at the end of the table |
| `OlcTolerance.ParseDressed` | oplus/kernel/charger/oplus_chg_track.c:1657-1700 | a plus sign, a prefix 0x or 0X and a final newline make no difference, and a number of more than 64 bits is refused |
| `OlcTolerance.ParseUpperHex` | oplus/kernel/charger/oplus_chg_track.c:1657-1700 | a printed word reads back as itself in upper case as well |
| `OlcTolerance.HexIsPlain` | oplus/kernel/charger/oplus_chg_track.c:1702-1723 | words are printed in lower case without leading zeros |
| `OlcTolerance.OnlyTheFront` | oplus/kernel/charger/oplus_chg_track.c:1657-1700 | what does not fit the buffer of 272 characters with its terminator has no effect |
| `OlcConfig.Config.ConfigGet` | oplus/kernel/charger/oplus_chg_track.c:1702-1723 | the printing loop over the temporary buffer leaves exactly the text, without the final comma |
| `OlcConfig.Config.ConfigSet` | oplus/kernel/charger/oplus_chg_track.c:1657-1700 | the splitting loop stores exactly what the specified parser stores |
| `FlagWord.ClearIsRemoval` | oplus/kernel/charger/oplus_debug_info.c:409-421 | the shifted mask removes exactly the flags from low to high, for all bounds below 64 |
| `FlagWord.MaskBits` | oplus/kernel/charger/oplus_debug_info.c:411-415 | the mask has exactly the bits from low to high |
| `FlagWord.SetIsInsertion` | oplus/kernel/charger/oplus_debug_info.c:1172-1190 | setting a bit adds exactly its flag |
| `FlagWord.TestIsMembership` | oplus/kernel/charger/oplus_debug_info.c:2623-2635 | the bit test is membership |
| `NotifyFlags.RaisesSinceReset` | oplus/kernel/charger/oplus_debug_info.c:1150-1193 | between counter resets and under one kind of charger the flag is raised [cnt >= T], cnt / T or cnt / (T * pct / 100) times for ONCE, REPEAT and TOTAL, in any run with other events and clears in between |
| `NotifyFlags.RaisesByFlag` | oplus/kernel/charger/oplus_debug_info.c:198-245 | how often each of the 43 flags is raised by a number of events with a slow and with a fast charger, its thresholds and policy written out by flag number |
| `NotifyFlags.ResetStartsAfresh` | oplus/kernel/charger/oplus_debug_info.c:2838-2870 | a reset makes the charger a slow one, clears all flags and zeroes exactly the counters of the slow-charge flags |
| `NotifyFlags.SetIffRaisedSinceCleared` | oplus/kernel/charger/oplus_debug_info.c:1150-2643 | after any run a flag is set exactly when an event raised it, or it was set at the start, and nothing cleared it since |
| `NotifyFlags.TableIsSound` | oplus/kernel/charger/oplus_debug_info.c:198-245 | no entry of the policy table divides by zero or has an unknown policy, so the default arm is dead |
| `NotifyFlags.DebugInfo.SetChgFlag` | oplus/kernel/charger/oplus_debug_info.c:1150-1202 | counting and raising in place; only an index out of range is refused |
| `NotifyFlags.DebugInfo.MaskNotifyFlag` | oplus/kernel/charger/oplus_debug_info.c:409-421 | the range clear in place |
| `NotifyFlags.DebugInfo.NotifyFlagIsSet` | oplus/kernel/charger/oplus_debug_info.c:2623-2635 | 1 exactly for a set flag |
| `NotifyFlags.DebugInfo.Reset` | oplus/kernel/charger/oplus_debug_info.c:2838-2870 | all flags and the counters of the slow-charge flags are cleared, other counters live on |

## Left out

- Null-pointer arguments of the entry points, and the list of votables (find, destroy, duplicate names).
- Mutexes, spinlocks, completions, work queues, wait queues and notifier chains: atomic steps or flags.
- The `step` argument of a vote, which is passed through to the callback unused.
- `oplus_vote_override` calls the callback without a null test; the model requires one there unless a force is active.
- sysfs, debugfs, procfs, device tree, logging and the packing of upload texts: input and output.
- Overflow of counters, times and sums, which are unbounded integers; 64 bits matter only in the flag word and the printed table.
- `oplus_chg_comm_status_init` in the middle of a run: it is the initial state only.
- The charging-timeout and over- and under-voltage checks of the heartbeat, which vote under other names.
- The battery status and health getters: lookups over the state.
- The charger flags are read once for a whole heartbeat or check, although the code asks again.
- ChargeCycle.ChargeControl.HeartbeatWork: leaves out the charging-timeout and voltage checks, which vote under other names, and the temperature check, which is TempMonitor.BatteryTemp.CheckBattTemp.
- What becomes of a votable whose lock is held for good: every later call of it waits.
- The charge cycle for a votable of an unlisted type: the wireless driver creates it with a listed one.
- Allocation failure for USER_VOTER inside the charge cycle: its slot exists before the cycle starts.
- ChargeCycle.CycleHolds: FFC is not entered and USER_VOTER is cast by nobody else; a wired charger or a missing votable is covered for one heartbeat by ChargeCycle.HeartbeatAgreesIff.
- The FFC and battery-full inputs take an arbitrary temperature region instead of the one of the modelled monitor, which only admits more runs.
- FfcSpec reads outside a table as an arbitrary value, so that sessions that leave their tables can be followed.
- The validation codes of malformed requests and responses: a request starts with data that fits the record.
- FlagWord represents the 64-bit word by its bits, with shifts and logical operators written out, instead of a machine word.
- `snprintf`, `strsep` and `kstrtoull` are modelled from their documented behaviour.
- The module loader for kernels before 6.12.
- `oplus_gauge.c`, `oplus_chg_symbol.c`, the operation managers, adapter and audio switch: forwarding wrappers with easy members only.
- `oplus_get_chg_time_ref`: its band arithmetic does not split the range at band edges.
- ScreenStats.LedStats.CalLedOnStats: leaves out the average charging speed that is derived from the totals over long intervals.
- The clearing of sent flags, which is a fixed list of range clears.
