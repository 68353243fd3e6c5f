# abacus core, modelled in Dafny

This project models the core of abacus, a web application that runs debating tournaments.
The model covers the request handlers that change the tournament database and the pure helpers
those handlers rely on:
- rounds and their concurrency groups;
- draw generation tickets, the random draw and editing of the draw;
- team and judge availability;
- rooms and room categories;
- judge constraints (room preferences);
- feedback questions;
- ballot building, submission, editing and aggregation;
- the team standings;
- the test-data loader's parsing of speaker columns.

Each database table is a sequence field of a small class. Each handler is a method that changes
those tables. A request runs in one transaction, which commits only when the handler answers with
a success or a redirect (`Http.Commits`). Every handler therefore ensures that it either produced
a committing response or left its tables exactly as they were. Wherever the source promises a
property, each operation is tied to a specification function, and lemmas state what the source
promises about those functions: ordering, uniqueness, round trips, "nothing else changes", and the
error paths of each lookup.

Identifiers generated by the server (uuids), the current time and the random-number generator
are parameters of the operations that use them. The random generator becomes a function `pick`
from step number to natural number. Whether the user is a superuser is a boolean parameter.

## Model

| member | source | states |
|---|---|---|
| SideNames.NameOfSide | src/tournaments/rounds/side_names.rs:3-36 | a name exists exactly for sides 0 and 1 (any other side reaches the `unreachable!` panic); outside the fixed table the name is "Prop"/"Proposition" or "Opp"/"Opposition" followed by the position number; never empty |
| SideNames.FixedNamesOfFormats | src/tournaments/rounds/side_names.rs:9-21 | the fixed short and long names of the one- and two-teams-per-side formats |
| Validation.IsAsciiNoSpaces | src/validation.rs:5-10 | accepts exactly the strings all of whose characters are ASCII and not whitespace; otherwise fails with the fixed message |
| Validation.IsValidSlug | src/validation.rs:24-33 | accepts exactly the strings of ASCII letters, digits and underscores; otherwise fails with "invalid slug" |
| Validation.SlugIsAsciiNoSpaces | src/validation.rs:5-33 | every valid slug also passes the username check |
| Validation.AsciiNoSpacesConcat | src/validation.rs:5-10 | a concatenation passes exactly when both parts pass |
| Validation.ValidSlugConcat | src/validation.rs:24-33 | a concatenation is a valid slug exactly when both parts are |
| Validation.EmptyPassesBoth | src/validation.rs:5-33 | the empty string passes both checks (`all` over no characters) |
| Tournaments.RoundRequiresSpeakerOrder | src/tournaments/mod.rs:170-176 | elimination rounds follow the elimination speaker-order flag, all other rounds the preliminary one |
| Tournaments.RoundRequiresSpeaks | src/tournaments/mod.rs:178-184 | elimination rounds follow the elimination speaks flag, all other rounds the preliminary one |
| Tournaments.AggMethodForCurrentRound | src/tournaments/mod.rs:87-124 | over the corrected current rounds: panics exactly when there is no current round or the first current round's kind is neither "P" nor "E"; otherwise consensus exactly when the setup for that kind is "consensus" |
| Tournaments.CheckScoreValid | src/tournaments/mod.rs:201-239 | a reply score is the `todo!` panic; a substantive score is accepted exactly when it meets every configured bound and step (a zero step is no condition), and a rejection names the bound it broke with that bound's value |
| Tournaments.ScoreMessage | src/tournaments/mod.rs:209-230 | every rejection carries a non-empty message |
| Tournaments.BelowMinReportedFirst | src/tournaments/mod.rs:207-214 | the minimum is checked first: a score below it is reported as too low whatever else it breaks |
| Tournaments.DroppingBoundsKeepsAcceptance | src/tournaments/mod.rs:201-239 | removing any one bound never rejects a score that was accepted |
| Tournaments.SpeakerPositionName | src/tournaments/mod.rs:336-361 | a name exists exactly for the sixteen listed (teams per side, side, seq, position) tuples; every other tuple is the `unreachable!` panic |
| Tournaments.SpeakerPositionNamesDistinct | src/tournaments/mod.rs:342-358 | within one format, different positions have different names |
| Rounds.OrderedBySeq | src/tournaments/rounds/mod.rs:143-147 | the rounds query's ORDER BY seq: a permutation of the table in ascending seq |
| Rounds.FoldFromElims | src/tournaments/rounds/mod.rs:156-172 | once in the elimination phase the fold succeeds exactly when every remaining round is an elimination round |
| Rounds.FoldPhasesOk | src/tournaments/rounds/mod.rs:156-172 | the fold over the ordered rounds succeeds exactly when every round is "P" or "E" and no "P" round follows an "E" round |
| Rounds.TakeSkipPartition | src/tournaments/rounds/mod.rs:191-196 | `take_while` and `skip_while` with the same test split the rounds into a prefix and the rest, which together are the rounds |
| Rounds.StatusOf | src/tournaments/rounds/mod.rs:178-188 | completed rounds are Completed; otherwise a released draw is InProgress, a draft or confirmed draw is Draft, anything else NotStarted |
| Rounds.Statuses | src/tournaments/rounds/mod.rs:176-189 | the status map has exactly the ids of the rounds as keys, each mapped to the status of a round with that id |
| Rounds.Fetch | src/tournaments/rounds/mod.rs:139-199 | succeeds exactly when the ordered rounds are well separated; then the preliminary rounds followed by the elimination rounds are the ordered rounds, each part holds only its kind, and every round id has a status |
| Rounds.PrelimsThenElims | src/tournaments/rounds/mod.rs:191-196 | on well-separated rounds, everything after the preliminary prefix is an elimination round |
| Rounds.ChunkBySeq | src/tournaments/rounds/mod.rs:206 | `chunk_by` never yields an empty group, and the first group starts with the first round |
| Rounds.ChunkBySeqConcat | src/tournaments/rounds/mod.rs:206 | the groups concatenated are the input |
| Rounds.ChunkBySeqOneSeq | src/tournaments/rounds/mod.rs:206 | every group holds rounds of a single seq |
| Rounds.ChunkBySeqAscends | src/tournaments/rounds/mod.rs:205-206 | on input sorted by seq, the groups come in strictly ascending seq, so no seq is split across groups |
| Rounds.PrelimsGroupedBySeq | src/tournaments/rounds/mod.rs:201-214 | the groups concatenate to the preliminary rounds in seq order, each has one seq, and their seqs strictly ascend |
| Rounds.AllGroupedBySeq | src/tournaments/rounds/mod.rs:216-232 | the same for the preliminary rounds chained with the elimination rounds |
| Rounds.Categories | src/tournaments/rounds/mod.rs:234-252 | panics exactly when some elimination round has no break category; otherwise the keys are exactly the categories present and each maps to that category's rounds in order |
| Rounds.CurrentRounds | src/tournaments/rounds/mod.rs:73-116 | corrected reading of the query: the current rounds are exactly the incomplete rounds with the least seq of any incomplete round; none exactly when every round is completed |
| Rounds.CurrentRoundsAsWritten | src/tournaments/rounds/mod.rs:77-106 | the query as written: exactly the incomplete rounds whose seq is the least seq of all the tournament's rounds, since the subquery's `completed` filter names the outer row |
| Rounds.CompletedFirstRoundHidesCurrent | src/tournaments/rounds/mod.rs:81-101 | with round 1 completed and round 2 open, the query as written finds no current round, the corrected reading finds round 2 |
| Rounds.FirstPrecedingRoundAsWritten | src/tournaments/rounds/mod.rs:118-128 | the query as written finds a round exactly when some round of the tournament has a smaller seq, completed or not |
| Rounds.FirstPrecedingIncompleteRound | src/tournaments/rounds/mod.rs:118-128 | the search the name describes finds a round exactly when some incomplete round has a smaller seq, and what it finds is such a round |
| Rounds.CompletedRoundStillBlocks | src/tournaments/rounds/mod.rs:118-128 | with round 1 completed, the query as written still reports it as preceding round 2, while the corrected search reports nothing |
| RoundFlags.WithCompleted | src/tournaments/rounds/manage/results.rs:153-168 | marking a round incomplete also clears its results publication; marking it complete sets only the flag; no other field changes, and "published implies complete" is kept |
| RoundFlags.WithPublished | src/tournaments/rounds/manage/results.rs:204-213 | the publication time is `now` when publishing and none when withdrawing; nothing else changes; an allowed request keeps "published implies complete" |
| RoundFlags.WithReleased | src/tournaments/rounds/manage/briefing.rs:155-167 | releasing sets status "R" with the release time, withdrawing sets "C" with none; nothing else changes |
| RoundFlags.Fetch | src/tournaments/rounds/mod.rs:57-70 | the lookup the handlers need: a round is found exactly when a row of this tournament has the id, and the result is that row's round |
| RoundFlags.FetchAsWritten | src/tournaments/rounds/mod.rs:57-70 | `Round::fetch` as written filters on the id alone: a round is found exactly when any row has the id, whatever its tournament |
| RoundFlags.CompletedRows | src/tournaments/rounds/manage/results.rs:155-167 | the UPDATE changes every row with the id as `WithCompleted` says and leaves every other row as it was |
| RoundFlags.PublishedRows | src/tournaments/rounds/manage/results.rs:204-213 | the UPDATE changes every row with the id as `WithPublished` says and leaves every other row |
| RoundFlags.ReleasedRows | src/tournaments/rounds/manage/briefing.rs:155-167 | the UPDATE changes every row with the id as `WithReleased` says and leaves every other row |
| RoundFlags.CompletedUpdate | src/tournaments/rounds/manage/results.rs:142-174 | non-superusers are refused and an unknown round is not found, both leaving the table unchanged; otherwise the round's rows are updated and the response redirects |
| RoundFlags.CompletedUpdateAsWritten | src/tournaments/rounds/manage/results.rs:142-174 | the same handler with the lookup as written; an error response leaves the table unchanged |
| RoundFlags.PublishedUpdate | src/tournaments/rounds/manage/results.rs:181-219 | as `CompletedUpdate`, and publishing an incomplete round is a bad request that changes nothing |
| RoundFlags.ReleasedUpdate | src/tournaments/rounds/manage/briefing.rs:135-173 | non-superusers are refused and an unknown round is not found, leaving the table unchanged; otherwise the draw is released or withdrawn |
| RoundFlags.CompletedKeepsInvariant | src/tournaments/rounds/manage/results.rs:153-168 | marking complete or incomplete keeps every round's "published implies complete", and a committed update sets the addressed round's flag (clearing publication when marking incomplete) |
| RoundFlags.PublishedKeepsInvariant | src/tournaments/rounds/manage/results.rs:192-213 | publishing or withdrawing keeps "published implies complete", and a request to publish an incomplete round is refused with the table unchanged |
| RoundFlags.ReleasedKeepsInvariant | src/tournaments/rounds/manage/briefing.rs:155-167 | releasing or withdrawing a draw keeps "published implies complete" |
| RoundFlags.OnlyAddressedRowChanges | src/tournaments/rounds/manage/results.rs:155-213 | with unique round ids, none of the three updates changes a row of another tournament or another round |
| RoundFlags.ForeignRoundCompleted | src/tournaments/rounds/manage/results.rs:148-168 | with the lookup as written, a superuser of tournament "t" marks complete a round of tournament "u"; the scoped lookup answers not found |
| RoundFlags.SetRoundCompleted | src/tournaments/rounds/manage/results.rs:142-174 | response and new table are those `CompletedUpdate` gives for the old table |
| RoundFlags.SetResultsPublished | src/tournaments/rounds/manage/results.rs:181-219 | response and new table are those `PublishedUpdate` gives for the old table |
| RoundFlags.SetDrawPublished | src/tournaments/rounds/manage/briefing.rs:135-173 | response and new table are those `ReleasedUpdate` gives for the old table |
| Tickets.MaxUnreleasedSeq | src/tournaments/rounds/draws/manage/drawalgs/mod.rs:54-63 | the maximum seq over the round's unreleased draw tickets: none exactly when no such ticket exists, otherwise an upper bound attained by one of them |
| Tickets.AcquireOutcome | src/tournaments/rounds/draws/manage/drawalgs/mod.rs:52-100 | a held ticket without override is AlreadyInProgress and changes nothing; with override the new ticket is numbered one above the held maximum; with none held it is numbered 0; a new ticket is appended unreleased |
| Tickets.AcquiredTicketOutranksHeld | src/tournaments/rounds/draws/manage/drawalgs/mod.rs:65-98 | a successful acquisition appends exactly one held ticket whose seq exceeds that of every ticket of the round still held |
| Tickets.OverrideLeavesTwoHeld | src/tournaments/rounds/draws/manage/drawalgs/mod.rs:65-81 | an override does not release the ticket it overrides: two draw tickets of the round are then held |
| Tickets.FindTicket | src/tournaments/rounds/draws/manage/drawalgs/mod.rs:131-140 | finds a ticket exactly when one has the id, and what it finds has that id |
| Tickets.FirstDrawExpiresAsWritten | src/tournaments/rounds/draws/manage/drawalgs/mod.rs:129-146 | the first draw of a round on an empty ticket log takes seq 0; the validity query as written then reports it expired, while the corrected test accepts it |
| Tickets.AcquiredTicketIsValid | src/tournaments/rounds/draws/manage/drawalgs/mod.rs:52-146 | a freshly taken ticket (with a fresh id) passes the corrected validity test |
| Tickets.OverriddenTicketExpires | src/tournaments/rounds/draws/manage/drawalgs/mod.rs:65-146 | a held ticket overridden by a later acquisition fails the corrected validity test |
| Tickets.Release | src/tournaments/rounds/draws/manage/drawalgs/mod.rs:206-225 | the UPDATE marks released exactly the tickets with the id and changes nothing else |
| Tickets.ReleaseIdempotent | src/tournaments/rounds/draws/manage/drawalgs/mod.rs:206-225 | releasing twice (the valid branch releases, then both branches release) is releasing once |
| Tickets.ReleasedTicketIsNotHeld | src/tournaments/rounds/draws/manage/drawalgs/mod.rs:219-225 | after the commit transaction the ticket is no longer held, whichever branch ran |
| Tickets.SideRows | src/tournaments/rounds/draws/manage/drawalgs/mod.rs:170-193 | team k of a side gets a row at that side with seq k |
| Tickets.RoomRows | src/tournaments/rounds/draws/manage/drawalgs/mod.rs:170-193 | one row per team of the room |
| Tickets.DebateRows | src/tournaments/rounds/draws/manage/drawalgs/mod.rs:162-169 | one debate row per room, in the draw, with no room assigned |
| Tickets.TeamRowsPlaceEveryTeam | src/tournaments/rounds/draws/manage/drawalgs/mod.rs:162-194 | every team of every room is written into its room's debate at its side and its index within the side |
| Tickets.PushSide | src/tournaments/rounds/draws/manage/drawalgs/mod.rs:170-193 | the inner loop appends exactly the side's rows |
| Tickets.BuildRows | src/tournaments/rounds/draws/manage/drawalgs/mod.rs:159-194 | the room loop builds exactly the debate rows and the debate-team rows of the draw |
| Tickets.DrawStore.Acquire | src/tournaments/rounds/draws/manage/drawalgs/mod.rs:52-100 | the ticket log and result are those of `AcquireOutcome`; the other tables are unchanged |
| Tickets.DrawStore.DoDraw | src/tournaments/rounds/draws/manage/drawalgs/mod.rs:43-233 | a refused acquisition changes nothing; a generator error returns it with the ticket still held; otherwise the ticket is released, and the draw, its debates and its team rows are written exactly when the ticket is still valid, else TicketExpired with no draw written |
| RandomDraw.SwapRemove | src/tournaments/rounds/draws/manage/drawalgs/random.rs:44 | `Vec::swap_remove` removes exactly the element at the index: one shorter, and the removed element plus the rest is the old multiset |
| RandomDraw.PickSide | src/tournaments/rounds/draws/manage/drawalgs/random.rs:40-47 | a side of `teams_per_side` teams is drawn from the pool; the side and what is left are together the pool |
| RandomDraw.TeamsInRoomsIsProduct | src/tournaments/rounds/draws/manage/drawalgs/random.rs:37-51 | the pool size counted room by room is rooms times teams per room |
| RandomDraw.DrawnRoomKeepsTeams | src/tournaments/rounds/draws/manage/drawalgs/random.rs:49-50 | moving one drawn room from the pool to the output keeps every team exactly once |
| RandomDraw.DrawRoom | src/tournaments/rounds/draws/manage/drawalgs/random.rs:49-50 | one room: a proposition side and an opposition side of `teams_per_side` teams each, taken from the pool without loss or duplication |
| RandomDraw.DrawRooms | src/tournaments/rounds/draws/manage/drawalgs/random.rs:39-51 | the loop yields exactly `rooms` well-formed rooms whose teams are a permutation of the input teams |
| RandomDraw.GenRandom | src/tournaments/rounds/draws/manage/drawalgs/random.rs:10-54 | no teams, or a count not divisible by twice the teams per side, is InvalidTeamCount (and only then an error); otherwise |teams| / (2 · teams per side) well-formed rooms holding every team exactly once |
| Draws.RoleOfStr | src/tournaments/rounds/manage/draw_edit.rs:776-785 | `Role::of_str` is defined exactly on "C", "P" and "T"; any other string is the `unreachable!` panic |
| Draws.RoleLetter | src/tournaments/rounds/manage/draw_edit.rs:765-773 | the stored status is one letter, and `of_str` reads it back as the same role |
| Draws.RoleOfStrInverse | src/tournaments/rounds/manage/draw_edit.rs:765-785 | displaying the role `of_str` read gives back the string it read |
| Draws.RoleOfForm | src/tournaments/rounds/manage/draw_edit.rs:866-871 | the role posted by a form: the role its letter names, and Panelist for any other value |
| Draws.AllocsIn | src/tournaments/rounds/manage/draw_edit.rs:835-847 | the allocation rows of a judge whose debate belongs to one of the rounds, and only those |
| Draws.NonEmptyTarget | src/tournaments/rounds/manage/draw_edit.rs:849 | the optional target debate counts only when present and non-empty |
| DrawEdit.Unassigned | src/tournaments/rounds/manage/draw_edit.rs:835-847 | the DELETE keeps exactly the rows that are not the judge's rows in a debate of the rounds |
| DrawEdit.MoveJudgeOutcome | src/tournaments/rounds/manage/draw_edit.rs:810-910 | for a superuser, the response is success or one of the two bad requests; "Judge not found" exactly when no judge of the tournament has the id; "Debate not found" exactly when the judge exists, a non-empty target was posted and no debate of the rounds has that id; a bad request leaves the allocations as they were (the transaction rolls the delete back) |
| DrawEdit.MoveJudge | src/tournaments/rounds/manage/draw_edit.rs:810-910 | a caller who is not a superuser is refused with the tables unchanged; otherwise response and allocation table are those of `MoveJudgeOutcome`; judges, rooms and debates are unchanged; a draw-updated notice goes out for every round exactly on success |
| DrawEdit.MoveJudgeLeavesOneAllocation | src/tournaments/rounds/manage/draw_edit.rs:835-881 | after a successful move the judge holds, in the rounds' debates, exactly the one new row with the posted role, or nothing when there is no target |
| DrawEdit.MoveJudgeKeepsOtherRows | src/tournaments/rounds/manage/draw_edit.rs:835-881 | every row other than the judge's rows in the rounds survives the move, in its order |
| DrawEdit.UnassignIsIdempotent | src/tournaments/rounds/manage/draw_edit.rs:835-849 | unassigning a judge twice is unassigning once |
| DrawEdit.SecondChairIsAccepted | src/tournaments/rounds/manage/draw_edit.rs:849-881 | moving a judge into a debate as chair succeeds and keeps another judge's chair row there: nothing prevents two chairs |
| DrawEdit.PlanMoveAsWritten | src/tournaments/rounds/manage/draw_edit.rs:642-723 | the lookups as written: the judge found has the typed number, in any tournament |
| DrawEdit.PlanMove | src/tournaments/rounds/manage/draw_edit.rs:678-723 | fails exactly when no judge of the tournament has the number, or a debate number is given and no debate of the rounds has it; otherwise the plan's judge is that judge, its existing allocation is one of that judge's rows in the rounds (none only when it has none), and its target is a debate of the rounds with the number exactly when one was typed |
| DrawEdit.ClearedFor | src/tournaments/rounds/manage/draw_edit.rs:725-740 | with no existing allocation nothing is deleted; otherwise exactly the rows of that (debate, judge) pair go |
| DrawEdit.ApplyMove | src/tournaments/rounds/manage/draw_edit.rs:678-756 | fails exactly when the plan fails, with its message and the table untouched; otherwise the table is the old one with the existing allocation deleted and the new row inserted |
| DrawEdit.ApplyMoveKeepsOneAllocation | src/tournaments/rounds/manage/draw_edit.rs:700-753 | a judge holding at most one allocation in the rounds holds exactly the moved-to allocation afterwards, or none when the command unassigns |
| DrawEdit.ClearedHoldsNone | src/tournaments/rounds/manage/draw_edit.rs:725-740 | deleting the judge's only allocation in the rounds leaves it none there |
| DrawEdit.ForeignJudgeNumberMatches | src/tournaments/rounds/manage/draw_edit.rs:642-701 | with the lookups as written, a command typed in tournament "t2" moves judge 1 of "t1" onto a "t2" panel and deletes the allocation of "t2"'s own judge 1; the scoped lookup moves "t2"'s judge |
| DrawEdit.SetRole | src/tournaments/rounds/manage/draw_edit.rs:940-949 | the UPDATE gives the role to every row of the (judge, debate) pair and changes nothing else |
| DrawEdit.ChangeJudgeRole | src/tournaments/rounds/manage/draw_edit.rs:921-962 | a caller who is not a superuser is refused with nothing changed and nobody notified; otherwise the allocation table becomes `SetRole` of the old one with the posted role (Panelist for an unknown letter), the other tables are unchanged, the response redirects and every round is notified |
| DrawEdit.SetRoleTwice | src/tournaments/rounds/manage/draw_edit.rs:940-949 | changing a role twice keeps only the second change |
| Availability.Flag | src/tournaments/rounds/manage/availability/judges.rs:496-510 | the flag stored for a (round, participant) pair: none exactly when no row has the pair, otherwise the flag of a row with the pair |
| Availability.Upsert | src/tournaments/rounds/manage/availability/judges.rs:496-510 | INSERT … ON CONFLICT DO UPDATE: rows of other pairs keep their place and value, every row of the pair takes the flag, the pair then has a row, and a row is appended only when the pair had none |
| Availability.UpsertSetsFlag | src/tournaments/rounds/manage/availability/judges.rs:496-510 | after an upsert the pair's flag is the one written |
| Availability.UpsertKeepsOthers | src/tournaments/rounds/manage/availability/judges.rs:496-510 | an upsert leaves every other pair's flag as it was |
| Availability.Cleared | src/tournaments/rounds/manage/availability/judges.rs:513-536 | the bulk UPDATE sets unavailable exactly the rows of the selected rounds (and of the participant, when one is given) and changes nothing else |
| Availability.ClearKeepsRound | src/tournaments/rounds/manage/availability/judges.rs:513-536 | clearing other rounds keeps the flag of a pair in a round not among them |
| Availability.SameSeqOthers | src/tournaments/rounds/manage/availability/judges.rs:517-529 | the other rounds of the tournament at the round's seq, never the round itself |
| Availability.FindRound | src/tournaments/rounds/manage/availability/judges.rs:450-462 | the round of the tournament with the id: none exactly when there is none |
| Availability.UpsertAllSetsFlags | src/tournaments/rounds/manage/availability/judges.rs:572-593 | after one upsert per participant, every listed participant has the flag in the round |
| Availability.UpsertEach | src/tournaments/rounds/manage/availability/judges.rs:572-593 | the loop performs exactly the upserts of `UpsertAll`, in order |
| Availability.SetForRoundEffect | src/tournaments/rounds/manage/availability/judges.rs:496-536 | after the upsert and the clearing, the participant has the flag in the round, is unavailable in every other round of the same seq, and other participants' rows are untouched |
| Availability.CheckInEffect | src/tournaments/rounds/manage/availability/judges.rs:567-614 | after "in", every listed participant is available in the round and nobody is available in the other rounds of its seq |
| Availability.CheckOut | src/tournaments/rounds/manage/availability/judges.rs:615-624 | "out" adds no row, keeps every row's pair, and leaves a row available exactly when it was and is not of the round |
| JudgeAvailability.Toggled | src/tournaments/rounds/manage/availability/judges.rs:445-501 | the stored flag is true exactly when the submitted checkbox is not "on" (the form posts the current state) |
| JudgeAvailability.UpdateOne | src/tournaments/rounds/manage/availability/judges.rs:438-547 | every refusal (not superuser, unknown round, completed round, a preceding incomplete round, unknown judge) leaves the rows unchanged |
| JudgeAvailability.UpdateOneCommitsIff | src/tournaments/rounds/manage/availability/judges.rs:447-494 | the update goes through exactly when the user is a superuser, the round exists and is not completed, no earlier incomplete round exists, and the judge belongs to the tournament |
| JudgeAvailability.UpdateOneEffect | src/tournaments/rounds/manage/availability/judges.rs:496-536 | after a successful update the judge's flag in the round is the negated checkbox and the judge is unavailable in the other rounds of its seq |
| JudgeAvailability.UpdateJudgeAvailability | src/tournaments/rounds/manage/availability/judges.rs:438-547 | response and new rows are those of `UpdateOne` on the old rows |
| JudgeAvailability.UpdateAll | src/tournaments/rounds/manage/availability/judges.rs:554-645 | commits exactly for a superuser, a known round and a check of "in" or "out"; every other request leaves the rows unchanged |
| JudgeAvailability.UpdateJudgeAvailabilityForAll | src/tournaments/rounds/manage/availability/judges.rs:554-645 | response and new rows are those of `UpdateAll` on the old rows |
| TeamAvailability.Eligible | src/tournaments/rounds/manage/availability/teams.rs:467 | the stored flag is true exactly when the form's field is "true" |
| TeamAvailability.UpdateOne | src/tournaments/rounds/manage/availability/teams.rs:457-581 | every refusal (not superuser, unknown team, unknown round, completed round, a preceding incomplete round) leaves the rows unchanged |
| TeamAvailability.UpdateOneCommitsIff | src/tournaments/rounds/manage/availability/teams.rs:464-513 | the update goes through exactly when the user is a superuser, the team and the round belong to the tournament, the round is not completed and no earlier incomplete round exists |
| TeamAvailability.UpdateOneEffect | src/tournaments/rounds/manage/availability/teams.rs:517-551 | after a successful update the team's flag in the round is the submitted one and the team is unavailable in the other rounds of its seq |
| TeamAvailability.UpdateTeamEligibility | src/tournaments/rounds/manage/availability/teams.rs:457-581 | response and new rows are those of `UpdateOne` on the old rows |
| TeamAvailability.UpdateAll | src/tournaments/rounds/manage/availability/teams.rs:349-455 | every refusal leaves the rows unchanged |
| TeamAvailability.UpdateAllCommitsIff | src/tournaments/rounds/manage/availability/teams.rs:356-444 | checking every team in or out goes through exactly for a superuser, a known, incomplete round with no earlier incomplete round, and a check of "in" or "out" |
| TeamAvailability.UpdateEligibilityForAll | src/tournaments/rounds/manage/availability/teams.rs:349-455 | response and new rows are those of `UpdateAll` on the old rows |
| TeamAvailability.SeqRounds | src/tournaments/rounds/manage/availability/teams.rs:559-563 | the ids of the rounds at the seq |
| TeamAvailability.RowCount | src/tournaments/rounds/manage/availability/teams.rs:556-569 | the COUNT of the team's rows in those rounds never exceeds the number of rows |
| TeamAvailability.SecondConcurrentRoundTripsAssertion | src/tournaments/rounds/manage/availability/teams.rs:553-570 | marking a team eligible in round 1A and then in the concurrent round 1B succeeds twice and leaves two rows (one cleared), so the `debug_assert!` as written fails although the team is available in one round only |
| TeamAvailability.OneRoundAfterUpdate | src/tournaments/rounds/manage/availability/teams.rs:531-570 | what the assertion evidently checks holds after every successful update: the team is available in no round of the seq other than the updated one |
| Standings.ViewFor | src/tournaments/standings/public/mod.rs:24-37 | the full tab exactly for a superuser or a public team tab; standings alone exactly when neither holds and standings are public; otherwise refused |
| Standings.WithWins | src/tournaments/standings/public/mod.rs:94-111 | the `filter_map`: exactly the teams that have a Wins value, each paired with it; the value is already the integer that `to_i64` yields (the truncating conversion of a fractional value is not modelled, see Left out) |
| Standings.SortedByPoints | src/tournaments/standings/public/mod.rs:112 | a permutation of the entries with the most wins first |
| Standings.Chunks | src/tournaments/standings/public/mod.rs:113 | `chunk_by` on wins: no group is empty and neighbouring groups differ in wins |
| Standings.ChunksRoundTrip | src/tournaments/standings/public/mod.rs:113-117 | reading the groups back gives the entries, in order |
| Standings.ChunksDescend | src/tournaments/standings/public/mod.rs:112-113 | chunking entries sorted by descending wins gives groups of strictly descending wins |
| Standings.SortGroups | src/tournaments/standings/public/mod.rs:115-121 | each group keeps its wins and its teams, now sorted by name |
| Standings.TeamsByPointsShape | src/tournaments/standings/public/mod.rs:94-122 | the groups are non-empty and strictly descending in wins, and together hold exactly the teams with wins, each with its own wins |
| Standings.Block | src/tournaments/standings/public/mod.rs:131-133 | every team of a group is pushed with the group's rank and wins |
| Standings.Ranked | src/tournaments/standings/public/mod.rs:124-135 | one ranked row per grouped team |
| Standings.RankIsCompetitionRank | src/tournaments/standings/public/mod.rs:129-135 | with descending groups, each team's rank is the start rank plus the number of teams with more wins |
| Standings.IsTied | src/tournaments/standings/public/mod.rs:155-158 | wins that no group has are never marked tied |
| Standings.TiedIffGroupShared | src/tournaments/standings/public/mod.rs:155-158 | with descending groups, the "=" marker for a group's wins shows exactly when that group has several teams |
| Standings.CountAtGroup | src/tournaments/standings/public/mod.rs:129-135 | the number of ranked teams with a group's wins is that group's size |
| Standings.TiedIffShared | src/tournaments/standings/public/mod.rs:154-164 | a ranked team is marked "=" exactly when another ranked team has the same wins |
| Standings.StandingsTableRanks | src/tournaments/standings/public/mod.rs:94-164 | in the standings-only table each team's rank is one more than the number of teams with more wins, and it is marked "=" exactly when another team has as many wins |
| Standings.PushGroup | src/tournaments/standings/public/mod.rs:131-133 | the inner loop appends exactly the group's block of rows |
| Standings.RankTeams | src/tournaments/standings/public/mod.rs:124-135 | the loop builds exactly the ranked rows, `current_rank` advancing by each group's size |
| RoomsManage.MaxNumber | src/tournaments/rooms/manage.rs:265-271 | the `order_by(number.desc()).first()` lookup: a number held by one of the tournament's rooms and at least every other one |
| RoomsManage.NextNumber | src/tournaments/rooms/manage.rs:265-273 | greater than every room number the tournament uses; 0 for its first room; otherwise the highest plus one |
| RoomsManage.CreateKeepsNumbersDistinct | src/tournaments/rooms/manage.rs:259-279 | inserting the new room keeps the numbers of any tournament's rooms pairwise distinct |
| RoomsManage.WithLink | src/tournaments/rooms/manage.rs:355-374 | afterwards the category holds the room; the links are unchanged when it already did, otherwise exactly one new link is appended |
| RoomsManage.AddLinkIdempotent | src/tournaments/rooms/manage.rs:355-374 | adding the same room to the same category twice is the same as adding it once |
| RoomsManage.WithoutLink | src/tournaments/rooms/manage.rs:388-394 | no link of the (category, room) pair remains and every other link is kept |
| RoomsManage.RemoveKeepsOtherLinks | src/tournaments/rooms/manage.rs:388-394 | every other (category, room) pair is linked afterwards exactly when it was before |
| RoomsManage.RoomsWithout | src/tournaments/rooms/manage.rs:292-296 | exactly the rooms whose id is not the deleted one remain |
| RoomsManage.CategoriesWithout | src/tournaments/rooms/manage.rs:334-339 | exactly the categories whose id is not the deleted one remain |
| RoomsManage.CreateRoom | src/tournaments/rooms/manage.rs:248-282 | refused without changes for a non-superuser; otherwise redirects after appending the room numbered by NextNumber; other tables untouched |
| RoomsManage.DeleteRoom | src/tournaments/rooms/manage.rs:284-299 | refused without changes for a non-superuser; otherwise redirects after deleting the room by id; other tables untouched |
| RoomsManage.CreateCategory | src/tournaments/rooms/manage.rs:301-324 | refused without changes for a non-superuser; otherwise redirects after appending the category with the submitted names |
| RoomsManage.DeleteCategory | src/tournaments/rooms/manage.rs:326-342 | refused without changes for a non-superuser; otherwise redirects after deleting the category row only |
| RoomsManage.AddRoomToCategory | src/tournaments/rooms/manage.rs:344-377 | refused without changes for a non-superuser; otherwise redirects with the links given by WithLink |
| RoomsManage.RemoveRoomFromCategory | src/tournaments/rooms/manage.rs:379-397 | refused without changes for a non-superuser; otherwise redirects with the links given by WithoutLink |
| RoomMoves.ClearRoom | src/tournaments/rounds/draws/rooms/rooms.rs:53-61 | same length; exactly the debates of the listed rounds that hold the room lose it, every other debate is unchanged |
| RoomMoves.SetRoomOf | src/tournaments/rounds/draws/rooms/rooms.rs:85-95 | same length; exactly the debates with the id get the new room column, the rest are unchanged |
| RoomMoves.FindRoom | src/tournaments/rounds/draws/rooms/rooms.rs:36-48 | none exactly when no room has that id in the tournament; a found room has the id and the tournament |
| RoomMoves.FindTarget | src/tournaments/rounds/draws/rooms/rooms.rs:66-82 | none exactly when no debate of the listed rounds has the id; a found debate is one of them |
| RoomMoves.MoveRoomOutcome | src/tournaments/rounds/draws/rooms/rooms.rs:36-117 | success or one of the two bad requests; "Room not found" exactly when the room is not the tournament's; a bad request leaves the debates as they were (rollback); "Debate not found" exactly when the room is found, a non-empty target was posted and no debate of the rounds has that id |
| RoomMoves.MoveRoom | src/tournaments/rounds/draws/rooms/rooms.rs:24-118 | a caller who is not a superuser is refused with the debates unchanged; otherwise response and debates table as MoveRoomOutcome; judges, rooms and allocations untouched; a DrawUpdated notice per listed round on success only |
| RoomMoves.MoveRoomChangesOnlyRooms | src/tournaments/rounds/draws/rooms/rooms.rs:50-98 | a move changes nothing but the room column of the debates |
| RoomMoves.PlacedOnTarget | src/tournaments/rounds/draws/rooms/rooms.rs:84-95 | on a table where no debate of the rounds holds the room, the two updates make the target the only holder and keep ids unique |
| RoomMoves.SuccessfulMoveTable | src/tournaments/rounds/draws/rooms/rooms.rs:50-98 | a successful move yields the cleared table, with the room set on the target debate of the rounds when a target was given |
| RoomMoves.ClearKeepsIds | src/tournaments/rounds/draws/rooms/rooms.rs:53-61 | clearing the room keeps debate ids unique |
| RoomMoves.MoveRoomPlacesRoomOnce | src/tournaments/rounds/draws/rooms/rooms.rs:50-98 | after a successful move, the debates of the rounds holding the room are exactly the target (so at most one); with no target none holds it |
| Aggregate.UniqueTeams | src/tournaments/rounds/ballots/aggregate.rs:78 | the teams of the canonical ballot: exactly the teams its rank entries name, each once |
| Aggregate.SpeakerResults | src/tournaments/rounds/ballots/aggregate.rs:59-75 | one speaker result per score row of the canonical ballot, in order, carrying debate, speaker, team, position and score over |
| Aggregate.TeamResults | src/tournaments/rounds/ballots/aggregate.rs:77-107 | one team result per distinct team of the canonical ballot |
| Aggregate.Outcome | src/tournaments/rounds/ballots/aggregate.rs:42-120 | an empty set fails the non-empty assertion; the individual method is unimplemented; results exist exactly when every ordered pair of ballots is isomorphic, and are then those of the first ballot |
| Aggregate.TeamPointsArePermutation | src/tournaments/rounds/ballots/aggregate.rs:90-107 | the points handed out are 0 .. team_count - 1, each once, strictly falling down the list |
| Aggregate.EveryTeamHasResult | src/tournaments/rounds/ballots/aggregate.rs:78-107 | the teams receiving results are exactly the canonical ballot's teams |
| Aggregate.NoTeamTwice | src/tournaments/rounds/ballots/aggregate.rs:77-107 | no team receives two results |
| Aggregate.HigherTotalMorePoints | src/tournaments/rounds/ballots/aggregate.rs:79-104 | a team whose speaker scores sum strictly higher receives strictly more points |
| Aggregate.CheckAgainstAll | src/tournaments/rounds/ballots/aggregate.rs:52-54 | the inner loop passes exactly when the ballot is isomorphic to every ballot |
| Aggregate.CheckConsensus | src/tournaments/rounds/ballots/aggregate.rs:51-55 | the nested loops pass exactly when every ordered pair of ballots is isomorphic |
| Aggregate.CollectSpeakerResults | src/tournaments/rounds/ballots/aggregate.rs:59-75 | the push loop builds exactly SpeakerResults of the canonical ballot |
| Aggregate.AggregateBallotSet | src/tournaments/rounds/ballots/aggregate.rs:42-120 | a failed assertion or todo inserts nothing and reports the failure; otherwise the outcome's team and speaker results are appended to their tables |
| Ballots.TeamAt | src/tournaments/rounds/ballots/mod.rs:171-172 | the team the debate seats at that side and seq; none exactly when no team sits there |
| Ballots.NumAdvancing | src/tournaments/rounds/ballots/mod.rs:695-708 | one team advances from a two-team debate or a break-category final; otherwise exactly half of the teams; always between 1 and half the teams |
| Ballots.Ids | src/tournaments/rounds/ballots/mod.rs:723 | the debate's team ids, in seating order |
| Ballots.Totals | src/tournaments/rounds/ballots/mod.rs:722-730 | each debate team paired with the sum of its recorded scores, absent scores counting nothing |
| Ballots.ByTotalDescIsTotalPreorder | src/tournaments/rounds/ballots/mod.rs:732-734 | the descending comparison on totals is total and transitive, so the stable sort is well defined |
| Ballots.SameElements | src/tournaments/rounds/ballots/mod.rs:732-734 | two lists that are permutations of each other hold the same elements |
| Ballots.SortedTotals | src/tournaments/rounds/ballots/mod.rs:732-734 | a permutation of the team totals, highest total first |
| Sorting.SortIsStable | src/tournaments/rounds/ballots/mod.rs:732-734 | `sort_by` is stable: for every element, the elements the comparison ranks level with it appear in the sorted output in their input order |
| Ballots.RanksByTotal | src/tournaments/rounds/ballots/mod.rs:738-748 | one entry per team with points strictly falling down the list, each in 0 .. n - 1 when all n teams are ranked |
| Ballots.RanksFromScores | src/tournaments/rounds/ballots/mod.rs:713-749 | one rank entry per debate team, strictly falling points, each in 0 .. n - 1 for the format's n teams |
| Ballots.RankedTeams | src/tournaments/rounds/ballots/mod.rs:325-327 | exactly the teams the rank entries name |
| Ballots.TeamIds | src/tournaments/rounds/ballots/mod.rs:723 | exactly the teams of the debate |
| Ballots.RanksByTotalCoverTeams | src/tournaments/rounds/ballots/mod.rs:722-748 | the rank entries name exactly the teams given |
| Ballots.RanksFromScoresCoverTeams | src/tournaments/rounds/ballots/mod.rs:713-749 | the rank entries name exactly the debate's teams |
| Ballots.RanksByTotalDistinct | src/tournaments/rounds/ballots/mod.rs:722-748 | teams given once are ranked once |
| Ballots.HigherTotalMorePoints | src/tournaments/rounds/ballots/mod.rs:710-748 | a team with a strictly higher total receives strictly more points ("one point for each team that they beat") |
| Ballots.RanksFromAdvancing | src/tournaments/rounds/ballots/mod.rs:751-773 | one entry per debate team, in order, worth 1 exactly when the team is advancing and 0 exactly when it is not |
| Ballots.AdvancingWinnersAreSelected | src/tournaments/rounds/ballots/mod.rs:751-773 | the teams given a point are exactly the debate's teams that are among the advancing ones |
| Ballots.RankOf | src/tournaments/rounds/ballots/mod.rs:141-145 | the other ballot's entry for the team, if any; none exactly when it ranks no such team |
| Ballots.PointProblems | src/tournaments/rounds/ballots/mod.rs:140-163 | every problem reported is a genuine points disagreement on a team both ballots rank |
| Ballots.PointProblemsComplete | src/tournaments/rounds/ballots/mod.rs:140-163 | every team of mine whose entry on the other ballot has different points is reported; nothing is reported exactly when there is no such team |
| Ballots.ScoreAt | src/tournaments/rounds/ballots/mod.rs:173-184 | a score entry of the team at that speaker position, if any; none exactly when the ballot has no such entry |
| Ballots.Problems | src/tournaments/rounds/ballots/mod.rs:125-246 | when either ballot has no speaker scores, only the points disagreements are reported |
| Ballots.PositionsReportSlot | src/tournaments/rounds/ballots/mod.rs:170-240 | when the innermost loop over speaker positions does not panic, each position it visits does not panic and all of its problems are among the loop's |
| Ballots.TeamsReportSlot | src/tournaments/rounds/ballots/mod.rs:169-241 | when the loop over a side's teams does not panic, each slot of those teams does not panic and all of its problems are among the loop's |
| Ballots.PointDisagreementReported | src/tournaments/rounds/ballots/mod.rs:140-163 | when the comparison does not panic, every points disagreement is among the problems it reports |
| Ballots.SlotDisagreementReported | src/tournaments/rounds/ballots/mod.rs:167-243 | when both ballots carry scores and the comparison does not panic, every slot of side 0 or 1 has a seated team and a score entry on both ballots, and a different speaker or a different score there is reported |
| Ballots.SlotReports | src/tournaments/rounds/ballots/mod.rs:171-239 | a slot that does not panic has a seated team and both score entries, and reports a speaker difference and a score difference |
| Ballots.NoPointProblemsWithSelf | src/tournaments/rounds/ballots/mod.rs:140-163 | rank entries naming each team once never disagree on points with themselves |
| Ballots.NoPositionProblemsWithSelf | src/tournaments/rounds/ballots/mod.rs:170-240 | comparing a ballot's scores with themselves over the speaker positions either panics or finds nothing |
| Ballots.NoSlotProblemsWithSelf | src/tournaments/rounds/ballots/mod.rs:171-239 | one slot compared with itself either panics or finds nothing |
| Ballots.NoTeamProblemsWithSelf | src/tournaments/rounds/ballots/mod.rs:169-241 | comparing a ballot's scores with themselves over the teams of a side either panics or finds nothing |
| Ballots.IsomorphicToItself | src/tournaments/rounds/ballots/mod.rs:248-258 | a ballot whose rank entries name each team once is isomorphic to itself wherever the comparison does not panic |
| Ballots.ProblemsOfSet | src/tournaments/rounds/ballots/mod.rs:260-271 | a ballot of another debate fails the assertion |
| Ballots.ThenEmpty | src/tournaments/rounds/ballots/mod.rs:279-285 | the extended problem list is empty exactly when both parts are empty |
| Ballots.AgainstOthersEmpty | src/tournaments/rounds/ballots/mod.rs:275-286 | one ballot has no problems against the set exactly when it is isomorphic to every ballot with another id |
| Ballots.PairsProblemsEmpty | src/tournaments/rounds/ballots/mod.rs:273-288 | the outer loop finds no problems exactly when every pair with distinct ids it visits is isomorphic |
| Ballots.ProblemsOfSetEmptyIffPairwiseIsomorphic | src/tournaments/rounds/ballots/mod.rs:260-289 | a set of ballots of one debate has no problems exactly when every two ballots with distinct ids are isomorphic |
| Ballots.NonTrainees | src/tournaments/rounds/ballots/mod.rs:382-386 | exactly the debate's judges whose role is not trainee |
| Ballots.DebateStatusOf | src/tournaments/rounds/ballots/mod.rs:367-405 | draft exactly when there is no non-trainee judge or one has no ballot; confirmed exactly when all have one and the set has no problems; conflict exactly when all have one and there are problems |
| Ballots.TraineesDoNotBlockConfirmation | src/tournaments/rounds/ballots/mod.rs:382-405 | a confirmed debate stays confirmed when a trainee is added to its panel |
| Ballots.BallotLedger.constructor | src/tournaments/rounds/ballots/mod.rs:65-123 | the ledger starts with the given ballot rows and debate statuses |
| BallotBuilders.NewSpeakersBuilder | src/tournaments/rounds/ballots/mod.rs:468-484 | an empty builder expecting the substantive speakers plus one when reply speeches are given |
| BallotBuilders.AddSpeaker | src/tournaments/rounds/ballots/mod.rs:486-531 | refused when positions are not recorded or the team is already full; accepted exactly when there is room and the score passes check_score_valid, and then the speaker is appended with its score only when scores are recorded; a panic comes only from a reply-speech score |
| BallotBuilders.BuildSpeakers | src/tournaments/rounds/ballots/mod.rs:533-539 | fails with "missing speaker information" exactly when positions are recorded and the team is not exactly full; otherwise yields the speakers in order |
| BallotBuilders.StoredAll | src/tournaments/rounds/ballots/mod.rs:503-529 | one stored entry per offered speaker |
| BallotBuilders.StoredAllAt | src/tournaments/rounds/ballots/mod.rs:503-529 | each stored entry keeps its speaker id and keeps its score only when scores are recorded |
| BallotBuilders.AllAdmissibleCons | src/tournaments/rounds/ballots/mod.rs:512-522 | whether a score is admissible depends only on its position, so the entries can be checked one at a time |
| BallotBuilders.StoredAllSameScores | src/tournaments/rounds/ballots/mod.rs:503-527 | what is stored depends only on whether scores are recorded |
| BallotBuilders.AddSpeakersAppends | src/tournaments/rounds/ballots/mod.rs:486-531 | entries that fit and are all admissible are appended in order |
| BallotBuilders.AddSpeakersNeedsRoom | src/tournaments/rounds/ballots/mod.rs:498-522 | adding entries succeeds only when they fit and every score is admissible |
| BallotBuilders.AddSpeakersSucceeds | src/tournaments/rounds/ballots/mod.rs:486-531 | adding entries one by one succeeds exactly when they fit and every score is admissible at its position, and then appends them |
| BallotBuilders.TeamBuildsWhenExactlyFull | src/tournaments/rounds/ballots/mod.rs:468-539 | with positions recorded a team builds exactly when it has as many speakers as expected and each score is admissible, keeping them in order |
| BallotBuilders.NoSpeakersWithoutPositions | src/tournaments/rounds/ballots/mod.rs:491-496 | with positions not recorded only an empty team is accepted, and it builds to no speakers |
| BallotBuilders.AdmitAsWritten | src/tournaments/rounds/ballots/mod.rs:569-580 | the checks as written accept exactly a matching version, a known motion and a prior version of 0 |
| BallotBuilders.AdmitAsWrittenRefusesLaterVersions | src/tournaments/rounds/ballots/mod.rs:576-580 | a second version of a ballot reaches the failing assertion |
| BallotBuilders.Admit | src/tournaments/rounds/ballots/mod.rs:569-574 | accepted exactly when the versions match and the motion belongs to the debate; the version-conflict and invalid-motion messages otherwise |
| BallotBuilders.PositionedScores | src/tournaments/rounds/ballots/mod.rs:633-643 | one score row per speaker, for the team, at the position of its index |
| BallotBuilders.BallotBuilder.constructor | src/tournaments/rounds/ballots/mod.rs:582-603 | the version is the expected one; the flags follow the round; an elimination round knows how many teams advance; nothing has been added |
| BallotBuilders.BallotBuilder.AddTeam | src/tournaments/rounds/ballots/mod.rs:615-653 | a missing seat panics; speakers are refused when positions are not recorded; otherwise their scores are appended at positions 0, 1, ..., an elimination team given one point is recorded as advancing, and the team is counted; a refusal changes nothing |
| BallotBuilders.BallotBuilder.Build | src/tournaments/rounds/ballots/mod.rs:655-693 | fails unless exactly twice teams-per-side teams were added and, in an elimination round, exactly the required number advance; the ballot ranks by advancing in an elimination round and by speaker totals otherwise |
| BallotBuilders.NewBallotBuilder | src/tournaments/rounds/ballots/mod.rs:559-604 | a builder is made exactly when Admit accepts, with the expected version and the round's flags; otherwise Admit's error |
| BallotSubmit.AnyTeamFullPassesAsWritten | src/tournaments/rounds/ballots/public/submit.rs:263-281 | a form whose second team names no speaker passes the `any` test as written and fails the every-team test the variable name describes |
| BallotSubmit.PrependNothing | src/tournaments/rounds/ballots/public/submit.rs:283-343 | prefixing no rows leaves a loop's result unchanged |
| BallotSubmit.PrependTwice | src/tournaments/rounds/ballots/public/submit.rs:283-343 | prefixing two batches of rows is prefixing their concatenation |
| BallotSubmit.SpeakerRowsFrom | src/tournaments/rounds/ballots/public/submit.rs:291-341 | an error is a bad request or a panic; otherwise one row per remaining speaker, for the team, at consecutive positions from j |
| BallotSubmit.FormRowsFrom | src/tournaments/rounds/ballots/public/submit.rs:284-342 | an error is a bad request or a panic; otherwise one row per speaker the remaining teams name |
| BallotSubmit.SpeakersFromFull | src/tournaments/rounds/ballots/public/submit.rs:263-269 | when every team names the expected number of speakers, the remaining teams name that number times their count |
| BallotSubmit.TeamRows | src/tournaments/rounds/ballots/public/submit.rs:291-341 | the inner loop yields exactly SpeakerRowsFrom from position 0 |
| BallotSubmit.FormRows | src/tournaments/rounds/ballots/public/submit.rs:283-343 | the outer loop yields exactly FormRowsFrom from the first team |
| BallotSubmit.PriorVersion | src/tournaments/rounds/ballots/public/submit.rs:217-224 | none exactly when the judge has no ballot of the debate in the tournament; otherwise the version of the latest one |
| BallotSubmit.NextVersion | src/tournaments/rounds/ballots/public/submit.rs:395 | 0 for a first ballot, otherwise one past the prior version |
| BallotSubmit.ScoreRows | src/tournaments/rounds/ballots/public/submit.rs:199-346 | an unreleased draw and then a completed round are refused with their messages; every refusal is a response that does not commit |
| BallotSubmit.Submission | src/tournaments/rounds/ballots/public/submit.rs:199-400 | as ScoreRows for the first checks; every refusal is a response that does not commit |
| BallotSubmit.SubmissionAccepted | src/tournaments/rounds/ballots/public/submit.rs:199-400 | an accepted ballot passed every check: draw released, round open, the debate's motion, twice teams-per-side teams and, where positions are recorded, every team full with one row per speaker; it carries the next version, and ranks from the advancing teams in an elimination round or from the scores otherwise |
| BallotSubmit.LatestBallots | src/tournaments/rounds/ballots/public/submit.rs:403-405 | only ballots of the debate, and every judge with a ballot of the debate keeps one |
| BallotSubmit.LatestBallotsOnePerJudge | src/tournaments/rounds/ballots/mod.rs:380 | no two kept ballots are by the same judge |
| BallotSubmit.LatestBallotsKeepOnlyLast | src/tournaments/rounds/ballots/mod.rs:380 | every kept ballot is a ballot of the debate after which its judge appended no other ballot of the debate |
| BallotSubmit.LatestBallotsKeepEveryLast | src/tournaments/rounds/ballots/mod.rs:380 | the last ballot each judge appended for the debate is kept |
| BallotSubmit.CheckedRows | src/tournaments/rounds/ballots/public/submit.rs:199-346 | the checks and loops of the handler yield exactly ScoreRows |
| BallotSubmit.Validate | src/tournaments/rounds/ballots/public/submit.rs:199-400 | the checks and row building up to the insert yield exactly Submission |
| BallotSubmit.SubmitBallot | src/tournaments/rounds/ballots/public/submit.rs:182-411 | a refusal changes nothing; a judge with no debate in the open released round gets not-found; on success the ballot of Submission is appended and the debate's status (and only it) is set to the recomputed status; a panicking recomputation rolls back |
| BallotEdit.Describe | src/tournaments/rounds/ballots/mod.rs:152-237 | a sentence for every problem, except the unreachable! panic of name_of_side exactly for a speaker or score problem whose side is neither 0 nor 1 |
| BallotEdit.DescribeNamesBoth | src/tournaments/rounds/ballots/mod.rs:152-237 | each sentence opens with "Error: the ballot from <first judge> " and holds "the ballot from <second judge> "; a points problem names the team with its points and the other ballot's points; a speaker problem names both speakers as `<speaker> as <place>`, and a score problem both scores as `<score> for <speaker> as <place>`, where the place is name_of_side of the slot's side with the speaker position as the seq, the same for both ballots |
| BallotEdit.Descriptions | src/tournaments/rounds/ballots/mod.rs:125-246 | one sentence per problem, in order, each Describe's; a panic exactly when describing some problem panics |
| BallotEdit.TeamScores | src/tournaments/rounds/ballots/manage/edit.rs:248-259 | one score row per speaker of the edited team, for that team, at the position of its index, with its score |
| BallotEdit.EditedScores | src/tournaments/rounds/ballots/manage/edit.rs:244-263 | every row of the edited ballot is the row of a speaker of the form at the position of its index within its team |
| BallotEdit.ExtantAsWritten | src/tournaments/rounds/ballots/manage/edit.rs:218-227 | the `find` as written: a stored ballot of the judge in the debate, none exactly when there is none |
| BallotEdit.LatestOfJudge | src/tournaments/rounds/ballots/manage/edit.rs:218-227 | none exactly when the judge has no stored ballot of the debate; otherwise one of them whose version is at least every other's |
| BallotEdit.EditRepeatsStoredVersion | src/tournaments/rounds/ballots/manage/edit.rs:218-282 | with versions 0 and 1 stored, the `find` as written numbers the edit 1 again, while the latest ballot numbers it 2 |
| BallotEdit.EditOne | src/tournaments/rounds/ballots/manage/edit.rs:229-288 | a failing comparison panics; a new version is one past the stored one, edited by the user, carries a change note, the judge, the debate and the edited scores |
| BallotEdit.NewVersionsShape | src/tournaments/rounds/ballots/manage/edit.rs:217-289 | a judge without a stored ballot is a bad request and a failing comparison a panic; otherwise at most one new version per form, each edited by the user and numbered one past the judge's latest stored version |
| BallotEdit.NewVersionIsNew | src/tournaments/rounds/ballots/manage/edit.rs:217-289 | every new version is numbered past all stored versions of its judge's ballot of the debate |
| BallotEdit.ErrorSticks | src/tournaments/rounds/ballots/manage/edit.rs:217-227 | once a form fails, the whole loop fails with that form's response |
| BallotEdit.CollectNewVersions | src/tournaments/rounds/ballots/manage/edit.rs:215-289 | the loop over the forms yields exactly NewVersions over the ballots stored before the edit |
| BallotEdit.EditBallotSet | src/tournaments/rounds/ballots/manage/edit.rs:203-310 | only a superuser may edit; an unknown debate is not-found; a refusal changes nothing; on success the new versions are appended after every stored row, which stay as they were; debate statuses are untouched |
| BallotEdit.AppendAll | src/tournaments/rounds/ballots/manage/edit.rs:291-302 | each new version is appended in turn after every stored row; statuses untouched |
| Constraints.ParticipantTypeOf | src/tournaments/participants/manage/constraints.rs:30-36 | speakers exactly for "speaker" or "speakers", judges exactly for "judge" or "judges", nothing otherwise |
| Constraints.NameOfParsedIsSingular | src/tournaments/participants/manage/constraints.rs:30-44 | a parsed segment is the kind's singular name or that name plus "s", and the name parses back to the same kind |
| Constraints.RowsOf | src/tournaments/participants/manage/constraints.rs:352-358 | exactly the participant's rows |
| Constraints.ByPrefIsTotalPreorder | src/tournaments/participants/manage/constraints.rs:357 | ordering by pref is total and transitive, so the ordered load is well defined |
| Constraints.ListOf | src/tournaments/participants/manage/constraints.rs:352-358 | a permutation of the participant's rows in ascending pref |
| Constraints.Ids | src/tournaments/participants/manage/constraints.rs:375-386 | the ids of the list, in order |
| Constraints.PositionOf | src/tournaments/participants/manage/constraints.rs:360-363 | the index of the first entry of the category; none exactly when the list has none |
| Constraints.LastIndexOf | src/tournaments/participants/manage/constraints.rs:375-386 | the last index at which the id occurs |
| Constraints.SetPref | src/tournaments/participants/manage/constraints.rs:376-385 | one UPDATE by id: same length, only rows with the id change their pref |
| Constraints.Renumbered | src/tournaments/participants/manage/constraints.rs:375-386 | rows named in the order take the place where their id was written last; every other row is untouched |
| Constraints.RenumberedStep | src/tournaments/participants/manage/constraints.rs:375-386 | each loop step is one SetPref applied after the steps before it |
| Constraints.Renumber | src/tournaments/participants/manage/constraints.rs:375-386 | the loop yields exactly Renumbered |
| Constraints.RenumberedFollowsOrder | src/tournaments/participants/manage/constraints.rs:375-386 | with ids given once, each listed row's pref becomes its 1-based place in the order |
| Constraints.Target | src/tournaments/participants/manage/constraints.rs:364-368 | one place up or down when that stays within the list, otherwise in place; always a valid index |
| Constraints.Moved | src/tournaments/participants/manage/constraints.rs:371-372 | remove then insert: a permutation of the list with the moved entry at the new index |
| Constraints.MoveUpSwaps | src/tournaments/participants/manage/constraints.rs:365-372 | moving up swaps the entry with its predecessor and leaves the rest in place |
| Constraints.MoveDownSwaps | src/tournaments/participants/manage/constraints.rs:366-372 | moving down swaps the entry with its successor and leaves the rest in place |
| Constraints.MovedRows | src/tournaments/participants/manage/constraints.rs:360-388 | the table is unchanged when the participant has no constraint on the category |
| Constraints.MovePrefsFollowList | src/tournaments/participants/manage/constraints.rs:360-388 | after a real move each row of the participant's list has as pref its 1-based place in the moved list; other rows are untouched |
| Constraints.MoveConstraint | src/tournaments/participants/manage/constraints.rs:333-440 | an unknown kind is not found and a non-superuser refused, changing nothing; otherwise the table of that kind becomes MovedRows and the other table is untouched |
| Constraints.MaxPref | src/tournaments/participants/manage/constraints.rs:461-468 | MAX(pref) with unwrap_or(0): at least every pref of the participant and one of them, or 0 when the participant has none |
| Constraints.NewConstraint | src/tournaments/participants/manage/constraints.rs:461-475 | the new row names the participant and the category and comes after every pref the participant has; 1 for a first constraint |
| Constraints.AddConstraint | src/tournaments/participants/manage/constraints.rs:442-511 | an unknown kind is not found and a non-superuser refused, changing nothing; otherwise one row is appended to the table of that kind, the other untouched |
| Constraints.WithoutCategory | src/tournaments/participants/manage/constraints.rs:532-543 | exactly the rows other than the participant's rows for the category remain |
| Constraints.RemovedCategoryIsGone | src/tournaments/participants/manage/constraints.rs:529-594 | after a removal the participant has no constraint on the category and no other row is lost |
| Constraints.ListedAt | src/tournaments/participants/manage/constraints.rs:546-552 | every row of the participant has a place in the participant's ordered list |
| Constraints.RemovedPrefsFollowList | src/tournaments/participants/manage/constraints.rs:545-559 | after a removal each remaining row of the participant has as pref its 1-based place in the remaining list ordered by the old prefs |
| Constraints.RemoveConstraint | src/tournaments/participants/manage/constraints.rs:513-602 | an unknown kind is not found and a non-superuser refused, changing nothing; otherwise the category is deleted from the table of that kind and the participant's list renumbered 1..n, the other table untouched |
| Constraints.AvailableCategories | src/tournaments/participants/manage/constraints.rs:84-91 | exactly the tournament's categories on which the participant has no constraint |
| Constraints.ConstraintDb.constructor | src/tournaments/participants/manage/constraints.rs:352-358 | both constraint tables start empty |
| FeedbackConfig.ParseKind | src/tournaments/feedback/manage/config.rs:267-280 | a 1-10 integer scale exactly for "score", text exactly for "text", yes/no exactly for "bool", and nothing (the bad request) for anything else |
| FeedbackConfig.QuestionTable.constructor | src/tournaments/feedback/manage/config.rs:282-302 | the question table starts empty |
| FeedbackConfig.SeqNos | src/tournaments/feedback/manage/config.rs:282-294 | the seq column of the table, row by row |
| FeedbackConfig.MaxSeq | src/tournaments/feedback/manage/config.rs:282-287 | MAX(seq) with unwrap_or(0): at least every seq of the tournament's questions and one of them, or 0 when it has none |
| FeedbackConfig.NewQuestion | src/tournaments/feedback/manage/config.rs:289-297 | the new question belongs to the tournament, stores the kind's JSON, and comes after every seq the tournament uses; 1 for a first question |
| FeedbackConfig.AddQuestion | src/tournaments/feedback/manage/config.rs:258-308 | a non-superuser is refused and an unknown kind is a bad request, both changing nothing; otherwise the new question is appended |
| FeedbackConfig.Edited | src/tournaments/feedback/manage/config.rs:329-336 | same length; the row with the id takes the form's text, kind and seq, every other row is unchanged |
| FeedbackConfig.EditQuestion | src/tournaments/feedback/manage/config.rs:318-342 | a non-superuser is refused without changes; otherwise redirects with the table given by Edited |
| FeedbackConfig.Deleted | src/tournaments/feedback/manage/config.rs:360-362 | exactly the rows whose id is not the deleted one remain |
| FeedbackConfig.DeleteCount | src/tournaments/feedback/manage/config.rs:360-362 | deleting an id no row has changes nothing; with unique ids deleting an existing one drops exactly one row |
| FeedbackConfig.DeleteQuestion | src/tournaments/feedback/manage/config.rs:349-368 | a non-superuser is refused without changes; otherwise redirects with the table given by Deleted |
| FeedbackConfig.FindById | src/tournaments/feedback/manage/config.rs:386-389 | the index of a row with the id; none exactly when no row has it |
| FeedbackConfig.Previous | src/tournaments/feedback/manage/config.rs:391-397 | the tournament's question with the greatest seq below the given one; none exactly when there is no such question |
| FeedbackConfig.Next | src/tournaments/feedback/manage/config.rs:434-440 | the tournament's question with the least seq above the given one; none exactly when there is no such question |
| FeedbackConfig.SetSeq | src/tournaments/feedback/manage/config.rs:403-411 | one UPDATE by id: same length, only rows with the id change their seq |
| FeedbackConfig.SwappedExchanges | src/tournaments/feedback/manage/config.rs:399-412 | with unique ids the two updates exchange the seqs of the two rows and touch nothing else |
| FeedbackConfig.SwapKeepsSeqNos | src/tournaments/feedback/manage/config.rs:399-412 | the two updates keep the multiset of seqs and the ids unique |
| FeedbackConfig.MovedUp | src/tournaments/feedback/manage/config.rs:386-412 | no table exactly when the question's id is unknown (the unwrap panics) |
| FeedbackConfig.MovedDown | src/tournaments/feedback/manage/config.rs:429-455 | no table exactly when the question's id is unknown (the unwrap panics) |
| FeedbackConfig.MoveUpSwapsWithNearest | src/tournaments/feedback/manage/config.rs:386-412 | moving up gives the question the greatest seq below its own and that question the old seq; with none below nothing changes; the multiset of seqs is kept |
| FeedbackConfig.MoveDownSwapsWithNearest | src/tournaments/feedback/manage/config.rs:429-455 | moving down gives the question the least seq above its own and that question the old seq; with none above nothing changes; the multiset of seqs is kept |
| FeedbackConfig.MoveQuestionUp | src/tournaments/feedback/manage/config.rs:375-418 | a non-superuser is refused and an unknown id panics, both changing nothing; otherwise redirects with the table given by MovedUp |
| FeedbackConfig.MoveQuestionDown | src/tournaments/feedback/manage/config.rs:420-461 | a non-superuser is refused and an unknown id panics, both changing nothing; otherwise redirects with the table given by MovedDown |
| TestData.BoolFromStr | src/bin/testdata.rs:449-461 | true exactly for the truthy words and false exactly for the falsey words (the empty cell included) after lower-casing and trimming; any other word is an error carrying it |
| TestData.LowerOfWhitespace | src/bin/testdata.rs:453 | lower-casing leaves whitespace as it is |
| TestData.BoolFromStrIgnoresPadding | src/bin/testdata.rs:453-460 | surrounding whitespace does not change the parsed value |
| TestData.BoolFromStrIgnoresCase | src/bin/testdata.rs:453-460 | letter case does not change the parsed value |
| TestData.NonEmpty | src/bin/testdata.rs:445 | only non-empty items of the split remain |
| TestData.Tags | src/bin/testdata.rs:435-447 | every tag is non-empty and holds no comma |
| TestData.WithoutChar | src/bin/testdata.rs:443 | the string with every occurrence of the character removed |
| TestData.WithoutCharAppend | src/bin/testdata.rs:443 | removing a character distributes over concatenation |
| TestData.WithoutAbsentChar | src/bin/testdata.rs:443 | removing an absent character changes nothing |
| TestData.FlattenCons | src/bin/testdata.rs:443-446 | joining a list with one item in front puts that item in front |
| TestData.FlattenSplit | src/bin/testdata.rs:443 | the pieces of a split on a character, joined back, are the string without that character |
| TestData.FlattenNonEmpty | src/bin/testdata.rs:445 | dropping empty items does not change the joined text |
| TestData.TagsKeepAllButCommas | src/bin/testdata.rs:435-447 | the tags hold exactly the characters of the cell other than the commas, in order |
| TestData.ParseU8 | src/bin/testdata.rs:506 | a parsed speaker number lies in 0..=255 |
| TestData.DigitValueOfChar | src/bin/testdata.rs:506 | each decimal digit character reads back as its value |
| TestData.DigitsValueOfNatToString | src/bin/testdata.rs:506 | the decimal form of a number is all digits and reads back as the number |
| TestData.ParseU8OfDecimal | src/bin/testdata.rs:506 | parsing the decimal form of a byte gives the byte back |
| TestData.SpeakerFieldAsWritten | src/bin/testdata.rs:502-507 | as written: a filed key has a number in 0..=255 and a field name without '_' |
| TestData.SpeakerField | src/bin/testdata.rs:502-507 | the corrected key parse: files exactly the keys the written one files, under the same number, with everything after the first '_' as the field name |
| TestData.ColumnParts | src/bin/testdata.rs:502-507 | "speaker<N>_<rest>" splits after the prefix into the digits of N and the rest |
| TestData.TrimDigits | src/bin/testdata.rs:506 | trimming a string of digits changes nothing |
| TestData.SpeakerFieldOfColumn | src/bin/testdata.rs:502-507 | the corrected parse reads back every column name "speaker<N>_<field>" as number N and that field |
| TestData.SpeakerFieldAsWrittenTruncates | src/bin/testdata.rs:502-507 | as written "speaker<N>_<a>_<b>" lands in field <a>; the corrected parse files it under <a>_<b> |
| TestData.BucketsOf | src/bin/testdata.rs:498-522 | every filed speaker number lies in 0..=255 |
| TestData.BucketsFrom | src/bin/testdata.rs:501-520 | every filed speaker number stays in 0..=255 |
| TestData.AddField | src/bin/testdata.rs:502-518 | the step fails exactly on a malformed speaker key; numbers stay in 0..=255 |
| TestData.AddFieldSound | src/bin/testdata.rs:508-518 | after one step a filed value is the step's own value under its number and field, or was there before |
| TestData.BucketsFromSound | src/bin/testdata.rs:501-520 | a filed value was there before or is the value of one of the remaining fields, under its own number and field name |
| TestData.BucketsOfSound | src/bin/testdata.rs:498-522 | only keys that parse as speaker columns reach a bucket, each with a value given for it |
| TestData.CollectBuckets | src/bin/testdata.rs:498-522 | the loop yields exactly BucketsOf |
| TestData.GenderCode | src/bin/testdata.rs:555-566 | "male", "female" and "other" in any case become M, F and O; other values are kept |
| TestData.GenderCodeIdempotent | src/bin/testdata.rs:555-566 | recoding a recoded gender changes nothing |
| TestData.SpeakerOf | src/bin/testdata.rs:531-568 | a speaker exactly when the bucket has a name; it carries the name, code name and url key of the bucket |
| TestData.Categories | src/bin/testdata.rs:536-545 | every category is non-blank after trimming and holds no comma |
| TestData.NonBlank | src/bin/testdata.rs:542 | only items that are non-blank after trimming remain |
| TestData.Kept | src/bin/testdata.rs:524-530 | only numbers whose bucket exists and is not all blank |
| TestData.KeptAscending | src/bin/testdata.rs:526 | the kept numbers are strictly ascending |
| TestData.KeptComplete | src/bin/testdata.rs:524-530 | every number whose bucket exists and is not all blank is kept |
| TestData.SpeakersOf | src/bin/testdata.rs:524-571 | one speaker per kept bucket |
| TestData.SpeakersOfSound | src/bin/testdata.rs:524-571 | the collection fails exactly when some kept bucket lacks a name; otherwise the i-th speaker is that of the i-th kept bucket |
| TestData.DeserializeFieldsToVec | src/bin/testdata.rs:491-572 | a malformed key fails; otherwise the speakers of the non-blank buckets in ascending speaker number |
| Rounds.TakePrelims | src/tournaments/rounds/mod.rs:193-195 | `take_while(is_prelim_round)`: only preliminary rounds |
| Rounds.SkipPrelims | src/tournaments/rounds/mod.rs:196 | `skip_while(is_prelim_round)`: the rest starts with a round that is not preliminary |
| Rounds.BySeqIsTotalPreorder | src/tournaments/rounds/mod.rs:143-147 | ordering by seq is total and transitive |
| Rounds.Incomplete | src/tournaments/rounds/mod.rs:81 | exactly the rounds not completed |
| Rounds.MinSeq | src/tournaments/rounds/mod.rs:84-95 | MIN(seq): the seq of one of the rounds and at most every other |
| Rounds.AtSeq | src/tournaments/rounds/mod.rs:97-101 | exactly the rounds at the given seq |
| RoundFlags.RoundTable.constructor | src/tournaments/rounds/manage/results.rs:153-168 | the round table starts empty |
| Availability.AvailabilityTable.constructor | src/tournaments/rounds/manage/availability/judges.rs:496-510 | the availability table starts empty |
| Tickets.DrawStore.constructor | src/tournaments/rounds/draws/manage/drawalgs/mod.rs:43-100 | the store starts with the given tickets and no draws, debates or debate teams |
| Tickets.FindTicketAfter | src/tournaments/rounds/draws/manage/drawalgs/mod.rs:131-140 | a newly appended ticket with a fresh id is found by its id |
| Tickets.FindTicketPrefix | src/tournaments/rounds/draws/manage/drawalgs/mod.rs:131-140 | appending a ticket does not change which ticket an existing id finds |
| Draws.DebatesIn | src/tournaments/rounds/manage/draw_edit.rs:835-847 | exactly the ids of the debates belonging to one of the rounds |
| Draws.DrawDb.constructor | src/tournaments/rounds/manage/draw_edit.rs:810-910 | the tables start as given |
| RoomsManage.RoomRegistry.constructor | src/tournaments/rooms/manage.rs:248-282 | the room, category and link tables start empty |
| Aggregate.ResultsDb.constructor | src/tournaments/rounds/ballots/aggregate.rs:109-116 | the result tables start empty |
| Standings.ByPointsDescIsTotalPreorder | src/tournaments/standings/public/mod.rs:112 | ordering by descending wins is total and transitive |

## Left out

General:
- Tournament lookups that fail (`Tournament::fetch` answering 404) are not modelled: every handler is given the tournament it acts on.
- The superuser check (`check_user_is_superuser`) is a boolean parameter of the handlers that make it; the table of tournament members is not modelled.
- Fresh uuids and the current time are parameters, not generated.
- The random number generator is the parameter `pick`; its distribution is not modelled.
- Iteration order of hash maps (team scores in aggregation, the buckets of the test-data loader) is unspecified in the source; the model uses debate order and ascending speaker number.
- Scores and metric values are integers: floating point, `Decimal` rounding, the `f32::EPSILON` comparison of scores and the truncating `to_i64` of a fractional Wins value are not modelled.
- Edited ballots carry no rank entries, because the edit form does not send them.
- HTML rendering, page bodies, flash messages and the page-only handlers (GET views) are not modelled; a response is only its kind and, for errors, a message.
- Foreign-key cascades on delete (deleting a room removes its allocations in the database) are not modelled; only the table the handler writes changes.
- The delete, category and link operations on rooms are not scoped to the tournament in the source, and the model follows that.
- Failures of the database itself (`map_err`, `unwrap` on a query) are not modelled; an `unwrap` on user input becomes a panic result.
- Room numbers and preference numbers are unbounded integers: the 64-bit overflow of the source is not modelled.
- Messages sent to websocket listeners after a change are not modelled beyond the list of rounds notified.
- The snapshot taken after a draw is written (`take_snapshot`, src/tournaments/rounds/draws/manage/drawalgs/mod.rs:227) is not modelled: the snapshot module is not part of this model.
- The `debug_assert!` in `current_rounds` (src/tournaments/rounds/mod.rs:108-113) is not modelled.
- `Round::of_seq` is not modelled: no core handler depends on it.
- `is_valid_email` is a regular expression match and is not modelled.
- The grammar of draw-editing commands (`Cmd::parse`) is not modelled: the model starts from a parsed command.
- The duplicate rank builders in src/tournaments/rounds/ballots/public/submit.rs are modelled by the ones in src/tournaments/rounds/ballots/mod.rs.

Members whose contract is weaker than the source, or states the corrected behaviour of a Findings row rather than the code as written:
- Tickets.DrawStore.DoDraw: writes the draw when the corrected ticket test `Tickets.TicketValid` passes; the test as written (`Tickets.TicketValidAsWritten`, Findings row 1) reports TicketExpired for the first draw of a round and writes nothing.
- Rounds.CurrentRounds: uses the corrected current rounds; as written (`Rounds.CurrentRoundsAsWritten`, Findings row 10) no round is current once the first round is completed and a later one is open, and `agg_method_for_current_round` then panics.
- Tournaments.AggMethodForCurrentRound: uses the corrected current rounds; as written (`Rounds.CurrentRoundsAsWritten`, Findings row 10) no round is current once the first round is completed and a later one is open, and `agg_method_for_current_round` then panics.
- JudgeAvailability.UpdateOne: uses the corrected `Rounds.FirstPrecedingIncompleteRound`; as written (`Rounds.FirstPrecedingRoundAsWritten`, Findings row 2) any earlier round, even a completed one, makes the source answer a bad request where the model commits.
- JudgeAvailability.UpdateOneCommitsIff: uses the corrected `Rounds.FirstPrecedingIncompleteRound`; as written (`Rounds.FirstPrecedingRoundAsWritten`, Findings row 2) any earlier round, even a completed one, makes the source answer a bad request where the model commits.
- JudgeAvailability.UpdateJudgeAvailability: uses the corrected `Rounds.FirstPrecedingIncompleteRound`; as written (`Rounds.FirstPrecedingRoundAsWritten`, Findings row 2) any earlier round, even a completed one, makes the source answer a bad request where the model commits.
- TeamAvailability.UpdateOne: uses the corrected `Rounds.FirstPrecedingIncompleteRound`; as written (`Rounds.FirstPrecedingRoundAsWritten`, Findings row 2) any earlier round, even a completed one, makes the source answer a bad request where the model commits. It also follows a release build, where the `debug_assert!` of src/tournaments/rounds/manage/availability/teams.rs:553-570 is not evaluated: in a debug build a second update in a concurrent round panics and rolls back where the model commits (Findings row 8).
- TeamAvailability.UpdateOneCommitsIff: uses the corrected `Rounds.FirstPrecedingIncompleteRound`; as written (`Rounds.FirstPrecedingRoundAsWritten`, Findings row 2) any earlier round, even a completed one, makes the source answer a bad request where the model commits.
- TeamAvailability.UpdateTeamEligibility: uses the corrected `Rounds.FirstPrecedingIncompleteRound`; as written (`Rounds.FirstPrecedingRoundAsWritten`, Findings row 2) any earlier round, even a completed one, makes the source answer a bad request where the model commits. It also follows a release build, where the `debug_assert!` of src/tournaments/rounds/manage/availability/teams.rs:553-570 is not evaluated: in a debug build a second update in a concurrent round panics and rolls back where the model commits (Findings row 8).
- TeamAvailability.UpdateAll: uses the corrected `Rounds.FirstPrecedingIncompleteRound`; as written (`Rounds.FirstPrecedingRoundAsWritten`, Findings row 2) any earlier round, even a completed one, makes the source answer a bad request where the model commits.
- TeamAvailability.UpdateAllCommitsIff: uses the corrected `Rounds.FirstPrecedingIncompleteRound`; as written (`Rounds.FirstPrecedingRoundAsWritten`, Findings row 2) any earlier round, even a completed one, makes the source answer a bad request where the model commits.
- TeamAvailability.UpdateEligibilityForAll: uses the corrected `Rounds.FirstPrecedingIncompleteRound`; as written (`Rounds.FirstPrecedingRoundAsWritten`, Findings row 2) any earlier round, even a completed one, makes the source answer a bad request where the model commits.
- JudgeAvailability.UpdateAll: looks the round up within the tournament; the source's `Round::fetch` (src/tournaments/rounds/manage/availability/judges.rs:564, src/tournaments/rounds/manage/availability/teams.rs:359) finds a round of any tournament and acts on it, where the model answers NotFound.
- JudgeAvailability.UpdateJudgeAvailabilityForAll: looks the round up within the tournament; the source's `Round::fetch` (src/tournaments/rounds/manage/availability/judges.rs:564, src/tournaments/rounds/manage/availability/teams.rs:359) finds a round of any tournament and acts on it, where the model answers NotFound.
- TeamAvailability.UpdateAll: looks the round up within the tournament; the source's `Round::fetch` (src/tournaments/rounds/manage/availability/judges.rs:564, src/tournaments/rounds/manage/availability/teams.rs:359) finds a round of any tournament and acts on it, where the model answers NotFound.
- TeamAvailability.UpdateAllCommitsIff: looks the round up within the tournament; the source's `Round::fetch` (src/tournaments/rounds/manage/availability/judges.rs:564, src/tournaments/rounds/manage/availability/teams.rs:359) finds a round of any tournament and acts on it, where the model answers NotFound.
- TeamAvailability.UpdateEligibilityForAll: looks the round up within the tournament; the source's `Round::fetch` (src/tournaments/rounds/manage/availability/judges.rs:564, src/tournaments/rounds/manage/availability/teams.rs:359) finds a round of any tournament and acts on it, where the model answers NotFound.
- RoundFlags.CompletedUpdate: looks the round up within the tournament (the corrected `RoundFlags.Fetch`, Findings row 9); the source finds the round by id alone (src/tournaments/rounds/mod.rs:57-70 used at src/tournaments/rounds/manage/results.rs:151 and 190, and the same query at src/tournaments/rounds/manage/briefing.rs:145-153) and updates a round of another tournament, where the model answers NotFound. Only completion is also modelled as written (`RoundFlags.CompletedUpdateAsWritten`).
- RoundFlags.PublishedUpdate: looks the round up within the tournament (the corrected `RoundFlags.Fetch`, Findings row 9); the source finds the round by id alone (src/tournaments/rounds/mod.rs:57-70 used at src/tournaments/rounds/manage/results.rs:151 and 190, and the same query at src/tournaments/rounds/manage/briefing.rs:145-153) and updates a round of another tournament, where the model answers NotFound. Only completion is also modelled as written (`RoundFlags.CompletedUpdateAsWritten`).
- RoundFlags.ReleasedUpdate: looks the round up within the tournament (the corrected `RoundFlags.Fetch`, Findings row 9); the source finds the round by id alone (src/tournaments/rounds/mod.rs:57-70 used at src/tournaments/rounds/manage/results.rs:151 and 190, and the same query at src/tournaments/rounds/manage/briefing.rs:145-153) and updates a round of another tournament, where the model answers NotFound. Only completion is also modelled as written (`RoundFlags.CompletedUpdateAsWritten`).
- RoundFlags.SetRoundCompleted: looks the round up within the tournament (the corrected `RoundFlags.Fetch`, Findings row 9); the source finds the round by id alone (src/tournaments/rounds/mod.rs:57-70 used at src/tournaments/rounds/manage/results.rs:151 and 190, and the same query at src/tournaments/rounds/manage/briefing.rs:145-153) and updates a round of another tournament, where the model answers NotFound. Only completion is also modelled as written (`RoundFlags.CompletedUpdateAsWritten`).
- RoundFlags.SetResultsPublished: looks the round up within the tournament (the corrected `RoundFlags.Fetch`, Findings row 9); the source finds the round by id alone (src/tournaments/rounds/mod.rs:57-70 used at src/tournaments/rounds/manage/results.rs:151 and 190, and the same query at src/tournaments/rounds/manage/briefing.rs:145-153) and updates a round of another tournament, where the model answers NotFound. Only completion is also modelled as written (`RoundFlags.CompletedUpdateAsWritten`).
- RoundFlags.SetDrawPublished: looks the round up within the tournament (the corrected `RoundFlags.Fetch`, Findings row 9); the source finds the round by id alone (src/tournaments/rounds/mod.rs:57-70 used at src/tournaments/rounds/manage/results.rs:151 and 190, and the same query at src/tournaments/rounds/manage/briefing.rs:145-153) and updates a round of another tournament, where the model answers NotFound. Only completion is also modelled as written (`RoundFlags.CompletedUpdateAsWritten`).
- DrawEdit.ApplyMove: runs on the corrected `DrawEdit.PlanMove`, which finds the judge within the tournament; as written (`DrawEdit.PlanMoveAsWritten`, Findings row 7) the first judge with that number in any tournament is moved.
- BallotSubmit.ScoreRows: uses the corrected speaker-count test `BallotSubmit.SpeakerCountOk` (every team full); as written (`BallotSubmit.SpeakerCountOkAsWritten`, Findings row 4) one full team is enough, so a ballot the source stores is refused here.
- BallotSubmit.Submission: uses the corrected speaker-count test `BallotSubmit.SpeakerCountOk` (every team full); as written (`BallotSubmit.SpeakerCountOkAsWritten`, Findings row 4) one full team is enough, so a ballot the source stores is refused here.
- BallotSubmit.SubmissionAccepted: uses the corrected speaker-count test `BallotSubmit.SpeakerCountOk` (every team full); as written (`BallotSubmit.SpeakerCountOkAsWritten`, Findings row 4) one full team is enough, so a ballot the source stores is refused here.
- BallotSubmit.CheckedRows: uses the corrected speaker-count test `BallotSubmit.SpeakerCountOk` (every team full); as written (`BallotSubmit.SpeakerCountOkAsWritten`, Findings row 4) one full team is enough, so a ballot the source stores is refused here.
- BallotSubmit.Validate: uses the corrected speaker-count test `BallotSubmit.SpeakerCountOk` (every team full); as written (`BallotSubmit.SpeakerCountOkAsWritten`, Findings row 4) one full team is enough, so a ballot the source stores is refused here.
- BallotSubmit.SubmitBallot: uses the corrected speaker-count test `BallotSubmit.SpeakerCountOk` (every team full); as written (`BallotSubmit.SpeakerCountOkAsWritten`, Findings row 4) one full team is enough, so a ballot the source stores is refused here.
- BallotBuilders.NewBallotBuilder: admits with the corrected `BallotBuilders.Admit`; as written (`BallotBuilders.AdmitAsWritten`, Findings row 5) a prior version above 0 passes the version test and then panics at the assertion.
- BallotEdit.NewVersionsShape: numbers an edit from the judge's latest ballot (`BallotEdit.LatestOfJudge`); as written (`BallotEdit.ExtantAsWritten`, Findings row 6) it is numbered from the first stored ballot of the judge, which can repeat a stored version.
- BallotEdit.CollectNewVersions: numbers an edit from the judge's latest ballot (`BallotEdit.LatestOfJudge`); as written (`BallotEdit.ExtantAsWritten`, Findings row 6) it is numbered from the first stored ballot of the judge, which can repeat a stored version.
- BallotEdit.EditBallotSet: numbers an edit from the judge's latest ballot (`BallotEdit.LatestOfJudge`); as written (`BallotEdit.ExtantAsWritten`, Findings row 6) it is numbered from the first stored ballot of the judge, which can repeat a stored version.
- TestData.AddField: files columns with the corrected `TestData.SpeakerField`; as written (`TestData.SpeakerFieldAsWritten`, Findings row 3) `speaker1_code_name` is filed under `code`.
- TestData.BucketsFrom: files columns with the corrected `TestData.SpeakerField`; as written (`TestData.SpeakerFieldAsWritten`, Findings row 3) `speaker1_code_name` is filed under `code`.
- TestData.BucketsOf: files columns with the corrected `TestData.SpeakerField`; as written (`TestData.SpeakerFieldAsWritten`, Findings row 3) `speaker1_code_name` is filed under `code`.
- TestData.AddFieldSound: files columns with the corrected `TestData.SpeakerField`; as written (`TestData.SpeakerFieldAsWritten`, Findings row 3) `speaker1_code_name` is filed under `code`.
- TestData.BucketsFromSound: files columns with the corrected `TestData.SpeakerField`; as written (`TestData.SpeakerFieldAsWritten`, Findings row 3) `speaker1_code_name` is filed under `code`.
- TestData.BucketsOfSound: files columns with the corrected `TestData.SpeakerField`; as written (`TestData.SpeakerFieldAsWritten`, Findings row 3) `speaker1_code_name` is filed under `code`.
- TestData.CollectBuckets: files columns with the corrected `TestData.SpeakerField`; as written (`TestData.SpeakerFieldAsWritten`, Findings row 3) `speaker1_code_name` is filed under `code`.
- TestData.DeserializeFieldsToVec: files columns with the corrected `TestData.SpeakerField`; as written (`TestData.SpeakerFieldAsWritten`, Findings row 3) `speaker1_code_name` is filed under `code`.
- Ballots.RanksByTotal: computes the points `n - 1 - i` as an integer; the source's `usize` subtraction (src/tournaments/rounds/ballots/mod.rs:746, src/tournaments/rounds/ballots/public/submit.rs:449) panics in a debug build when more teams are ranked than n, and in a release build wraps and casts back to the same negative number the model gives.
- Ballots.RanksFromScores: computes the points `n - 1 - i` as an integer; the source's `usize` subtraction (src/tournaments/rounds/ballots/mod.rs:746, src/tournaments/rounds/ballots/public/submit.rs:449) panics in a debug build when more teams are ranked than n, and in a release build wraps and casts back to the same negative number the model gives.
- Ballots.Problems: the judge-name and speaker-name lookups of the messages (src/tournaments/rounds/ballots/mod.rs:133-136 and 190-232) unwrap and panic when the judge or speaker is missing from the debate; the model carries no names and does not have these panics.
- BallotEdit.Describe: judges, teams and speakers are named by their ids, not by the names the source looks up (a team not in the debate reads "unknown team" there); scores are printed as integers, not as `f32` values; and the `ammonia::clean` HTML sanitising of each sentence (src/tournaments/rounds/ballots/mod.rs:152, 189, 224) is not modelled.
- BallotSubmit.LatestBallots: `DebateRepr::latest_ballots` is not part of this model; the model keeps, for each judge of the debate, the ballot appended last.
- Text.Lower: lower-cases ASCII letters only, where Rust's `to_lowercase` (src/bin/testdata.rs:453, 555-566) also lower-cases other scripts.
- RandomDraw.GenRandom: requires teams_per_side > 0; the source divides by zero otherwise.
- TeamAvailability.DebugAssertAsWritten: counts only the rows of the tournament's rounds, not of every tournament's rounds with that seq.

## Findings

| source | as written | input that shows it | evidently intended | confidence | as-written member | corrected member |
|---|---|---|---|---|---|---|
| src/tournaments/rounds/draws/manage/drawalgs/mod.rs:129-146 | a ticket counts as valid when some ticket has a seq greater than its own | the first draw of a round gets the only ticket, seq 0; no ticket is greater, so the draw is reported as expired | a ticket is valid when no newer ticket for the round exists | not executed | Tickets.FirstDrawExpiresAsWritten | Tickets.AcquiredTicketIsValid |
| src/tournaments/rounds/mod.rs:118-128 | the first round with a smaller seq, whether or not it is completed | round 1 completed, round 2 open: round 1 is still reported as preceding and incomplete | the first preceding round that is not completed | not executed | Rounds.CompletedRoundStillBlocks | Rounds.FirstPrecedingIncompleteRound |
| src/bin/testdata.rs:502-507 | the field name is the first piece after splitting on `_` | column `speaker1_code_name` is read as field `code` | the whole rest of the column name after the number | not executed | TestData.SpeakerFieldAsWrittenTruncates | TestData.SpeakerFieldOfColumn |
| src/tournaments/rounds/ballots/public/submit.rs:266-269 | the speaker count is checked with `any` | one team with the right number of speakers and one with none passes | every team has the expected number of speakers | not executed | BallotSubmit.AnyTeamFullPassesAsWritten | BallotSubmit.SpeakersFromFull |
| src/tournaments/rounds/ballots/mod.rs:569-580 | after requiring the expected version to equal the prior version, asserts that it is one more than the prior version | a ballot with prior version 1 and expected version 1 passes the first test and panics at the assertion | the version check and the assertion agree | not executed | BallotBuilders.AdmitAsWrittenRefusesLaterVersions | BallotBuilders.Admit |
| src/tournaments/rounds/ballots/manage/edit.rs:218-227 | the edit is compared with the first stored ballot of the judge | a judge with versions 0 and 1 stored: the new version is 1 again | the edit is compared with the judge's latest ballot | not executed | BallotEdit.EditRepeatsStoredVersion | BallotEdit.NewVersionIsNew |
| src/tournaments/rounds/manage/draw_edit.rs:642-701 | the judge is the first judge with that number in any tournament | judges numbered 1 in tournaments t1 and t2; a command in t2 moves t1's judge | the judge with that number in the tournament being edited | not executed | DrawEdit.ForeignJudgeNumberMatches | DrawEdit.PlanMove |
| src/tournaments/rounds/manage/availability/teams.rs:553-570 | asserts that the team has at most one row among the rounds with that seq, counting the cleared rows the handler leaves behind | rounds a and b share seq 1; marking team t available in a and then in b leaves a cleared row for a and a set row for b, so the assertion fails | the team is available in at most one round with that seq, which every successful update keeps | not executed | TeamAvailability.SecondConcurrentRoundTripsAssertion | TeamAvailability.OneRoundAfterUpdate |
| src/tournaments/rounds/mod.rs:57-70 | `Round::fetch` finds a round by id in any tournament, and the results handler then updates it | a tab director of tournament t completes round r of tournament u | only a round of the addressed tournament changes | not executed | RoundFlags.ForeignRoundCompleted | RoundFlags.OnlyAddressedRowChanges |
| src/tournaments/rounds/mod.rs:81-101 | the subquery's `completed` filter names the outer table, so the minimum is the least seq of all the tournament's rounds | round 1 (seq 1) completed and round 2 (seq 2) open: no round is current, and `agg_method_for_current_round` panics | the current rounds are the incomplete rounds at the least incomplete seq | not executed | Rounds.CompletedFirstRoundHidesCurrent | Rounds.CurrentRounds |
