# Session scheduler: a verified model

The session scheduler lets the attendees of an unconference propose discussions, say how much they
want to attend each of them, and have the discussions put into slots and rooms. This project models
its core in Dafny and proves what the core promises:

* **Scoring and scheduling** (`Scoring`, `GreedyRuns`, `GreedyLimits`, `Scheduler`). A slot scores the
  sum, over users, of each user's highest interest in it. This is a monotone, submodular set function,
  and the code's incremental score is its exact marginal value. Every run of the greedy heuristic
  conserves the discussions, respects permissions and capacities, leaves a discussion out only when
  each slot it permits is full, and is within proved factors of every other assignment.
* **The pipeline** (`Snapshot`, `ScheduleRows`, `Pipeline`, `Worth`, `Quality`, `Scheduling`). Snapshot,
  heuristic, placement through shared pointers, and storage, as one operation on the database: it fails
  only where the snapshot does, rewrites only unlocked non-break slots, schedules nothing twice, with the
  exact condition under which that last fact survives, and stores a schedule whose worth, read off the
  tables, is within a proved factor of every other schedule that could have been stored.
* **Occupancy** (`Occupancy`, `Counterexamples`). The exact conditions under which storing a plan later
  than it was made, or changing the timetable, keeps the schedule in order, and states where they fail.
* **Timetables** (`Timetable`, `TimetableView`, `Attendance`). In-place reconciliation of stored days
  and slots with a requested timetable, the exact condition for its success, the round trip through
  `GetTimetable`, and a comparison of the attendance scores it shows with what the slots are worth.
* **Discussions and users** (`Discussions`, `NewDiscussions`, `PossibleSlots`, `Users`, `Locations`,
  `Display`). Creation, editing, approval, cascading deletion, possible slots, interests, and iteration
  over all users.
* **Whole histories** (`History`, `Application`). Every interleaving of operations: invariants of all
  reachable states, exactly which histories keep the schedule in order, and what a member of the public
  can be shown. `Application.Perform` carries out any operation by the code of its component and extends
  the history by it, so the theorems about histories are theorems about that code.
* **Transactions** (`Store`, `Transactions`). The tables and constraints of the schema, statements that
  keep the constraints or fail, and the retry loop with interference by other connections.

`Ids`, `Sums` and `Queries` hold identifiers, finite sums and query result lists.

How the model is set up:

* A database state is a value of type `Store.Tables`; `Store.Database` is the subset that satisfies the
  schema. A statement is given by the tables it would produce, and `Transaction.Exec` refuses it if
  they violate a constraint, which models immediate foreign keys and unique columns. A table is a map
  keyed by its primary key or unique columns, so one row per key needs no further statement.
* Queries without an order clause return rows in any order, `sort.Slice` returns any descending
  permutation, and ranging over a Go map visits keys in any order; all three are nondeterministic here.
* Generated ids are inputs: an operation that draws several takes the sequence that the generator
  returns. An insert under an id already in use fails.
* Times are integers that count nanoseconds. The clock, busy results, interference by other
  connections and faults inside an attempt are parameters of the operations that meet them.
* The heuristic's run is recorded as a value of type `GreedyRuns.Run`: one step per discussion, with the
  slot it got. Discussions are objects; a run over objects is viewed as a run over what they record.

Where the code and its comments differ, the model follows the code:

* the check that a day spans at most 24 hours skips days of two slots and compares only the first slot
  with the last (`Timetable.SpanCheckBounds`, `Timetable.SpanCheckExceptions`);
* a slot that is turned into a break keeps its schedule rows (`Occupancy.TimetableKeepsBreaksFreeIff`,
  `Counterexamples.TimetableOccupiesBreak`), and scheduling again then duplicates its discussions unless
  it is locked (`Pipeline.AtMostOnceSurvivesIff`, `Counterexamples.BreakDuplicates`);
* snapshot and storage are separate transactions, and a plan that has become stale can schedule a
  discussion twice (`Occupancy.StalePlanIff`, `Counterexamples.StalePlanDuplicates`);
* reading a timetable back finds slots by counting days from 1, whatever the stored day ids are
  (`TimetableView.GetTimetable`);
* a possible-slots list as long as the number of non-break slots lifts the restriction, whatever is on
  it (`PossibleSlots.Restricts`);
* a display record for the approved text leaves `TitleDisplay` empty.

`dafny verify dfyconfig.toml` checks the whole project.

## Model

| member | source | states |
|---|---|---|
| Scoring.AddDiscussionInterest | event/schedule.go:305-312 | Afterwards every user's entry is the maximum of the old entry and the user's highest interest in the discussion, whatever the order and repetition of the interest rows. |
| Scoring.SumValues | event/schedule.go:322-332 | Summing a map's values gives the same total in every iteration order. |
| Scoring.ScoreSlotDelta | event/schedule.go:314-335 | The result is exactly score(slot + hyp) minus score(slot), where the score is the sum over users of their highest interest, and is never negative. |
| Scoring.ScoreOrderIrrelevant | event/schedule.go:315-335 | Score and marginal score depend only on which discussions are in the slot, not on their order or repetition. |
| Scoring.DiminishingReturns | event/schedule.go:314-335 | Adding discussions to a slot never raises what a further discussion would add: the score is submodular and monotone. |
| Scoring.ScoreAlone | event/schedule.go:210-213 | With one non-negative interest row per user, a discussion alone in a slot scores exactly its MaxInterest. |
| Scoring.DeltaAtMostMaxInterest | event/schedule.go:201-213 | No discussion adds more than its MaxInterest to any slot. |
| GreedyRuns.Conservation | event/schedule.go:346-402 | In every run the bag of placed discussions plus the unplaced ones is the bag of discussions handled. |
| GreedyRuns.GreedyIsFeasible | event/schedule.go:353-397 | Every greedy run puts each discussion into a slot it permits, and no slot gets more discussions than there are locations. |
| GreedyRuns.StepPrefersGainThenEmptier | event/schedule.go:359-384 | At every step of every run, no permitted slot with room would have gained more in score less the number of discussions it holds, and none before the chosen one as much; in particular, of equal gains the emptiest slot wins. |
| GreedyRuns.UnwantedAreBalanced | event/schedule.go:364-384 | Discussions that nobody is interested in and that permit the same slots are dealt out evenly: an earlier slot has as many as a later one, or one more. |
| GreedyRuns.Maximality | event/schedule.go:386-402 | For every discussion left unplaced, each slot it permits ends up with exactly as many discussions as there are locations. |
| GreedyRuns.NothingLeftOut | event/schedule.go:386-402 | With no more discussions than locations, nothing that has a permitted slot is left out. |
| GreedyRuns.TotalTelescopes | event/schedule.go:364-396 | The total score of a run is the sum of the marginal scores of its placements. |
| GreedyRuns.TotalAtMostMaxInterest | event/schedule.go:364-396 | The total score lies between zero and the sum of MaxInterest over the placed discussions. |
| GreedyRuns.FactorTwo | event/schedule.go:337-403 | If no permitted slot was ever skipped as full, any assignment to permitted slots, even over capacity, scores at most 2 x greedy + discussions x (locations - 1). |
| GreedyRuns.DemandMeansNoSkips | event/schedule.go:353-362 | If no slot is permitted by more discussions than there are locations, no permitted slot is ever skipped as full. |
| GreedyRuns.NoSkipsPlaceAll | event/schedule.go:386-402 | Where no permitted slot is skipped as full, every discussion with a permitted slot is placed. |
| GreedyRuns.RoomMeansNoSkips | event/schedule.go:353-362 | With no more discussions than locations, no permitted slot is ever skipped as full. |
| GreedyRuns.CapacityBound | event/schedule.go:341-403 | Every run over discussions sorted from high to low interest, full slots or not: any assignment within the capacities scores at most (locations + 2) x greedy + discussions x (locations - 1). |
| GreedyLimits.FullSlotsDefeatFactorTwo | event/schedule.go:359-362 | A concrete sorted greedy run that skips a full slot, and an assignment within the capacities that beats the factor-two bound: the hypothesis is needed. |
| Scheduler.ScheduleMakeEmpty | event/schedule.go:294-303 | The initial schedule has all slots, empty and in order, and all discussions unplaced. |
| Scheduler.SortByInterest | event/schedule.go:341-344 | A descending permutation by MaxInterest, with ties in any order. |
| Scheduler.FindBestSlot | event/schedule.go:351-384 | The index is the first permitted, non-full slot of greatest marginal score less the number of discussions it holds, stated on the slot lists themselves, and -1 exactly when there is none. |
| Scheduler.MakeScheduleHeuristic | event/schedule.go:337-403 | The slot lists and the unplaced list are those of a greedy run over the snapshot's discussions in descending order of interest, and together hold exactly the snapshot's discussions. |
| Scheduler.HeuristicConserves | event/schedule.go:294-402 | Final slot lists plus unplaced list equal the snapshot's discussions as a multiset of objects. |
| Scheduler.PlaceDiscussions | event/schedule.go:225-244 | Fails exactly when a slot is overfull; otherwise, if no object occurs twice, every object in slot i at position j is left with slot i and location j. |
| Scheduler.HeuristicIsPlaceable | event/schedule.go:226-244 | After the heuristic no object occurs at two positions and no slot is overfull, so placement cannot fail and gives distinct (slot, location) pairs. |
| Snapshot.SelectInterest | event/schedule.go:201-213 | The interest rows of a discussion in some order, each once, and their sum. |
| Snapshot.MakeSnapshot | event/schedule.go:98-223 | Fails exactly when a discussion is non-public, every slot is a break or locked, or a discussion without a row in a locked slot only is restricted to such slots; otherwise records schedulable slots by day and index, locations, and one object per discussion row outside locked slots. |
| Snapshot.MaxInterestIsMaxScore | event/discussion.go:166-190 | The snapshot's MaxInterest equals the sum of interests that GetMaxScore reports on the same state. |
| Store.Transaction.Exec | event/eventdb.go:159-257 | A statement takes effect if and only if its result satisfies every unique and foreign-key constraint; otherwise nothing changes. |
| ScheduleRows.ScheduleSetTx | event/schedule.go:246-292 | Storing a schedule processes the slots one after the other and stops at the first that is missing, locked, a break, or violates a constraint. |
| ScheduleRows.SetSlotsStores | event/schedule.go:246-292 | For a placed plan on any tables: success if and only if every slot is writable and every row refers to something, and then exactly the planned rows are in the planned slots and every other row is unchanged. |
| Pipeline.PlanIsWellPlaced | event/schedule.go:226-244 | The rows that heuristic and placement produce never share a (slot, location) pair and are storable on the snapshot's tables. |
| Pipeline.StaysAtMostOnce | event/schedule.go:148-158 | If each discussion was scheduled at most once and no unlocked break held a row, that is still so after rescheduling. |
| Pipeline.AtMostOnceSurvivesIff | event/schedule.go:148-158 | If no slot is allowed by more of the discussions to schedule than there are locations, and there is a slot to schedule into: each discussion is scheduled at most once afterwards if and only if that was so before and no unlocked break held a schedule row. |
| Pipeline.RowsAreAllowed | event/schedule.go:163-199 | Every row in an unlocked non-break slot respects the discussion's stored possible slots. |
| Pipeline.UnscheduledMeansFull | event/schedule.go:346-402 | In database terms: a discussion is left without a row only if each schedulable slot it allows uses every location. |
| Pipeline.ScheduleQuality | event/schedule.go:337-403 | For any snapshot of tables with non-negative interests, the computed schedule satisfies the capacity bound. |
| Pipeline.ScheduleFactorTwo | event/schedule.go:337-403 | If no slot is allowed by more of the discussions to schedule than there are locations, no assignment to permitted slots scores more than 2 x the computed schedule + discussions x (locations - 1). |
| Worth.ScoreIsWorth | event/schedule.go:314-335 | The scheduler's score of recorded discussions is, read off the tables, the sum over users of their highest stored interest among them. |
| Quality.RescheduleIsNearOptimal | event/schedule.go:337-403 | Every set of rows that could have been stored, within restrictions and capacities and no discussion twice, is worth at most (locations + 2) x the stored schedule + discussions x (locations - 1), and at most 2 x it + that term if no slot is allowed by more discussions than there are locations. |
| Scheduling.MakeSchedule | event/schedule.go:405-427 | Succeeds only if every discussion is public, and whenever moreover some slot is usable and no restriction names only unusable ones; fails exactly when the snapshot does and then changes nothing; success changes only schedule rows of schedulable slots, keeps restrictions, at-most-once (exactly under the condition above), free breaks and maximality, and what is stored is near-optimal as above. |
| Scheduling.PlanSchedule | event/schedule.go:405-419 | Without storing: succeeds under the same conditions; the plan targets exactly the schedulable slots, names only public discussions, respects restrictions, and plans nothing twice that was scheduled at most once. |
| Occupancy.StoredOnceIff | event/schedule.go:246-292 | A placed plan, stored on any tables, leaves each discussion scheduled at most once if and only if it plans none twice, the rows in slots it does not rewrite name none twice, and none is both planned and in such a row. |
| Occupancy.StalePlanIff | event/schedule.go:405-427 | A plan made from a snapshot of earlier tables keeps at-most-once on whatever the tables have become if and only if no planned discussion has a row in a slot that the plan does not rewrite. |
| Occupancy.StoringKeepsBreaks | event/schedule.go:251-268 | Storing a plan that is accepted leaves breaks free if and only if they were. |
| Occupancy.TimetableKeepsBreaksFreeIff | event/timetable.go:386-398 | A new timetable leaves no schedule row in a break if and only if it makes no slot a break that holds one. |
| Counterexamples.BreakDuplicates | event/schedule.go:148-158 | A concrete state, schedulable and with nothing scheduled twice, whose only discussion sits in a slot turned into a break: every reschedule leaves it scheduled twice. |
| Counterexamples.StalePlanDuplicates | event/schedule.go:405-427 | A concrete run of the heuristic on earlier tables, and later tables, both in order, on which its plan can be stored and every way of storing it leaves a discussion scheduled twice. |
| Counterexamples.TimetableOccupiesBreak | event/timetable.go:386-398 | A concrete state in order and a request that is accepted whatever ids are generated, after which a break holds a discussion. |
| Attendance.ShownTotalByUser | event/timetable.go:136-153 | Grouping the top-interest rows by discussion, as the query does, adds up to the same total as grouping them by user. |
| Attendance.ShownVersusScheduled | event/timetable.go:133-160 | The scores shown for a slot sum to at least the scheduler's score of it, with equality if and only if no user's top interest is shared by two of its discussions. |
| Timetable.DaySlotsDeleteTx | event/timetable.go:273-316 | Succeeds exactly when no slot of the range is locked or named in a possible-slots row, and then removes those slots and their schedule rows and nothing else. |
| Timetable.DeleteDayTx | event/timetable.go:318-345 | Deletes a day with its slots exactly when the day exists, its slots are numbered from 1 and each may be deleted; a missing day is reported as not found. |
| Timetable.TimetableSlotAddTx | event/timetable.go:374-384 | Adds one unlocked slot exactly when the generated id is not in use, the day exists and the position is free. |
| Timetable.TimetableSlotUpdateTx | event/timetable.go:386-398 | Changes time and break flag of the slot at a position and keeps its id, lock and schedule rows. |
| Timetable.TimetableDayAddTx | event/timetable.go:400-415 | Succeeds exactly when the ids drawn are not in use and differ; then the new day has exactly the requested slots, all unlocked, under those ids, and other days are unchanged. |
| Timetable.TimetableDayUpdateTx | event/timetable.go:417-453 | Succeeds exactly when the surplus slots may be deleted and the ids drawn for missing ones are new; then the day has exactly the requested slots, surviving indices keep slot and lock, only rows of removed slots are gone, and other days are unchanged. |
| Timetable.TimetableSetTx | event/timetable.go:455-528 | From contiguous ids: succeeds if and only if names and spans are valid, every vanishing slot is unlocked and unnamed, and each id drawn differs from the slots left by then and from the ids drawn before it; then the stored timetable is reconciled. |
| Timetable.TimetableSet | event/timetable.go:530-544 | Commits exactly when days are named, spans pass, slots that lose their position are neither locked nor named in a restriction, and drawn ids are new, leaving ids contiguous and the timetable reconciled; any failure leaves the database as it was. |
| Timetable.NewIdsSuffice | event/timetable.go:374-384 | Ids that differ from each other and from all stored ones never make a request fail. |
| Timetable.ReconciledKeepsIdentity | event/timetable.go:530-539 | Every surviving position keeps slot id, lock flag and schedule rows; a vanished one loses its rows. |
| Timetable.NewSlotsAreUnlocked | event/timetable.go:374-384 | Slots that are new have the requested time and break flag and are not locked. |
| Timetable.SpanCheckBounds | event/timetable.go:504-509 | A day is accepted if and only if its last slot is at most 24 hours after its first or it has two slots; for days in time order with another number of slots this is the same as all slots lying within 24 hours. |
| Timetable.SpanCheckExceptions | event/timetable.go:504-509 | Both gaps occur: two slots far apart, and a late slot between two early ones, are accepted. |
| Timetable.TimetableSetLockedSlots | event/timetable.go:77-98 | Afterwards a slot is locked exactly when it is listed; positions, times, break flags and all other tables are unchanged, ids of no slot are ignored, and contiguity is kept. |
| TimetableView.SelectEntries | event/timetable.go:133-156 | A slot shows each discussion that is some user's top choice there, once, by falling attendance, with the number of such users and the sum of their interests. |
| TimetableView.GetTimetable | event/timetable.go:100-177 | On any tables: day names by id, and for the i-th day the slots of day i + 1 in order of index, the j-th with the entries of index j + 1, final exactly when that day has no schedulable slot; with contiguous ids, every day with its own name, slots and entries. |
| TimetableView.FinalDayStays | event/timetable.go:115-121 | What a day that is shown as final holds, no successful scheduling changes. |
| TimetableView.EntriesShowAttendance | event/timetable.go:133-156 | An entry's attendees are the users whom nothing else in the slot interests more, its score is their summed interest, and there is an entry exactly when there is such a user. |
| TimetableView.EntriesVersusWorth | event/timetable.go:133-160 | The scores of the entries returned for a slot sum to at least what its discussions are worth to the scheduler, with equality if and only if no user's top interest is shared by two of them. |
| TimetableView.TimetableVersusWorth | event/timetable.go:100-177 | The same for every slot of the timetable that is returned, found by its position. |
| TimetableView.TimetableRoundTrip | event/timetable.go:104-131 | After a successful TimetableSet, GetTimetable returns exactly the requested day names, slot times and break flags, in order. |
| Discussions.SetInterestTx | event/user.go:128-135 | Inserts or replaces one interest row and fails exactly when user or discussion does not exist. |
| Discussions.NewDiscussionTx | event/discussion.go:112-163 | Succeeds exactly when the owner exists and may create more and id and title are free, with the error otherwise; the caller's record is then the inserted row, public and approved exactly when the owner is verified. |
| Discussions.DiscussionUpdateTx | event/discussion.go:202-276 | Succeeds exactly when discussion and owner exist and the title is free; column by column, the row is public exactly when the (new) owner is verified, approved text follows only then, a new owner gets the highest interest, and all else is unchanged. |
| Discussions.DiscussionSetPublic | event/discussion.go:340-394 | Publishing approves the current text and sets the flag; hiding clears both; other columns and rows are unchanged, and a missing discussion is an error without effect. |
| Discussions.DeleteDiscussionCommon | event/discussion.go:396-429 | No statement can violate a constraint; row by row, exactly the given discussions and the rows that refer to them are gone, and every other row is as it was. |
| Discussions.DeletionKeepsRestrictions | event/discussion.go:404-405 | Other discussions keep their possible slots. |
| Discussions.DeleteDiscussionTx | event/discussion.go:431-450 | Fails only for a missing discussion; row by row, exactly it and the rows that refer to it are gone. |
| Discussions.DeleteUserTx | event/user.go:346-400 | Fails only for a missing user, never on a constraint; row by row, exactly the user, its interests, its discussions and the rows that refer to those are gone. |
| Discussions.UserDeletionKeepsRestrictions | event/user.go:371-374 | Discussions of other users keep their possible slots. |
| NewDiscussions.NewDiscussion | event/discussion.go:102-164 | The outcome is that of the first attempt that is not busy: success exactly when it is begun, uninterrupted, allowed by what it finds and committed, and else its error. On success the caller's record is the committed row; on failure the database holds only what others committed. |
| Transactions.TxLoop | event/eventdb.go:59-105 | The error is that of the last attempt's begin, body or commit, so it succeeds exactly when that attempt commits, and then with exactly one commit of the body on what the attempt found; it repeats exactly busy attempts, begins an attempt after the fifth only while no more than a second has passed, and terminates once the clock is past the limit. |
| Transactions.LocalsAccumulate | event/eventdb.go:59-105 | Nothing that busy attempts write to the caller's variables is undone. |
| Transactions.OthersAccumulate | event/eventdb.go:59-105 | Each attempt finds what other connections have made of what the attempt before it found. |
| PossibleSlots.PossibleSlotsDBToDisplay | event/discussion.go:278-289 | In place: if no entry is checked all become checked, otherwise nothing changes. |
| PossibleSlots.DiscussionGetPossibleSlots | event/discussion.go:460-490 | All non-break slots in order, with their times, checked exactly when the decoded restriction has them. |
| PossibleSlots.SetPossibleSlotsTx | event/discussion.go:291-338 | When storing succeeds; row by row, the discussion then has the listed slots, or none if the list is as long as the number of non-break slots, and all other rows are unchanged. |
| PossibleSlots.DisplayedRows | event/discussion.go:278-289 | A slot is shown as checked exactly when it is not a break and is stored for the discussion or no non-break slot is. |
| PossibleSlots.PossibleSlotsRoundTrip | event/discussion.go:291-338 | A non-empty list of distinct slots reads back as itself if and only if none of them is a break. |
| PossibleSlots.DecodingsAgreeIff | event/schedule.go:163-199 | The scheduler's decoding is the displayed set minus locked slots, or an error when that is empty, if and only if the restriction is empty or names a non-break slot. |
| Users.SetInterest | event/user.go:137-168 | Accepts 0 to 100; 0 leaves no row, others leave that row and need an existing user and discussion; all other rows are unchanged, and anything else changes nothing. |
| Users.SetVerified | event/user.go:243-255 | That user's flag has the new value; its other columns, all other users and all other tables are unchanged, and an unknown user changes nothing. |
| Users.NewUser | event/user.go:48-103 | Succeeds exactly when the name is not blank and no e-mail address, and id and name are free; then exactly that row is added. |
| Users.AddressHasParts | event/errors.go:54-58 | An address, which no user name may be, is a user part, an at sign, a label, a dot and a domain of the allowed characters. |
| Users.PartsMakeAddress | event/errors.go:54-58 | Whatever is put together like that is an address. |
| Users.TextLeqMeans | event/user.go:467 | User ids are ordered by their first difference, and a prefix comes first. |
| Users.UserIterate | event/user.go:464-505 | The calls are made for the first users of the table that the attempt read, in increasing order of user id and each once, up to the first failing call or the last row delivered; only attempts that have processed nothing are repeated; no error means that every user of the table was visited, and which error comes back is stated. |
| Locations.NewLocation | event/location.go:37-68 | Needs a name and a positive capacity; the new id is one above the highest, or 1. |
| Locations.DeleteLocation | event/location.go:90-114 | Succeeds exactly when the location exists and no schedule row uses it, and then removes only it. |
| Display.DiscussionGetDisplay | display.go:104-167 | Insiders, and everyone for a public discussion, get the current text; others get the approved text, or nothing if none is approved. |
| History.ReachableInvariant | event/user.go:128-168 | In every state reachable by any interleaving of operations, stored interests lie in 1 to 100, texts are not blank, and day ids and slot indices are contiguous. |
| History.ReachableSnapshotsAgree | event/schedule.go:201-213 | In every reachable state, what the snapshot records is well formed and its MaxInterest is the reported maximum score. |
| History.ScheduledOnceThroughout | event/schedule.go:405-427 | Over every history, in which a plan is stored any time after it was made: at every point each discussion is scheduled at most once and no break holds one, if and only if no plan was stored while a planned discussion had a row in a slot the plan does not rewrite, and no timetable made an occupied slot a break. |
| History.ReachableScheduleIsNearOptimal | event/schedule.go:405-427 | In every history, each schedule that is made is near-optimal among all that could have been stored, with no assumption on interests. |
| History.HistoryIsFaithful | event/discussion.go:23-46 | Over every history: stored text and owner are the last ones written; a discussion is public exactly when its last write was for an owner verified at that time or made it public; and the approved text is the most recent approval since it was last hidden. |
| History.PlannedWasPublic | event/schedule.go:108-117 | Every discussion that a plan in a history names was public in the state that the plan was made from. |
| History.MadeWhilePublic | event/schedule.go:108-117 | Whenever a schedule is made in a history, every discussion is public, by its last write. |
| History.OutsiderSeesLastApproval | display.go:104-129 | A viewer who is neither owner nor administrator gets, as title and raw description, exactly the most recently approved text, and nothing if there is none. |
| Application.MakePlan | event/schedule.go:405-419 | The plan that the application makes is one that histories may store from then on. |
| Application.Perform | event/discussion.go:102-450 | Any operation, carried out by its component from wherever a history has led: succeeds exactly when foreseen from the tables and the parameters, generated ids included, has the effect that histories ascribe to it, changes nothing on failure, and extends the history. |

## Left out

- HTTP handlers, routing, templates, Markdown and sanitising are not modelled: input, output and presentation.
- Passwords, profile texts, cookies, sessions and the key-value store are not modelled: they do not affect scheduling or moderation.
- Time zones, time formatting and the display times of a timetable: times are plain integers.
- Locations: only their ids; capacity, name and URL have no effect on what is proved, and the query's location columns are not shown in entries.
- Users.NewUser: the password and its checks are not modelled.
- Users.SetInterest: the loop that repeats a busy statement is not modelled here and in the other single-statement operations, because each repetition has no effect.
- Users.UserIterate: the callback is a function of the user's id and row, so state that a callback keeps between calls is not modelled; some attempt is taken not to be repeated, since the code itself never stops repeating.
- Timetable.TimetableSet: assumes contiguous day ids and slot indices, which `History.ReachableInvariant` shows of every state that the application reaches; the exported NewDay, DayUpdate and DeleteDay, which the application does not call, are not modelled.
- Transactions.TxLoop: an attempt is a function of its number, the caller's variables and the tables it finds, so SQLite's locking is seen only through busy results and through what other connections commit between attempts.
- Scheduling.MakeSchedule: states its guarantees for the case that nothing is written between its two transactions; `ScheduleRows.SetSlotsStores` and `Occupancy.StalePlanIff` cover storing a plan on any later tables.
- Scheduler.MakeScheduleHeuristic: the snapshot's list of users, the search options and logging are left out, because the heuristic does not read them.
- Snapshot.MakeSnapshot: discussions come in any order rather than by id, because the heuristic re-sorts them with an unstable sort.
- Application.Perform: each operation is one uninterrupted attempt; retries and interference are `Transactions.TxLoop` and `NewDiscussions.NewDiscussion`. A plan to be stored is one made earlier in the history, characterised by what `Scheduling.PlanSchedule` guarantees.
- PossibleSlots.SetPossibleSlotsTx: the database driver's refusal of an empty bulk insert is modelled as a failed operation.
- Display.DiscussionGetDisplay: scheduled time, the list of all users and the form's slot list are left out.
- Iteration over discussions is not modelled: a retry may repeat callbacks, as its own comment says.
