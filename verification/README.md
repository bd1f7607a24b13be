# NMG League Bot, modelled in Dafny

The NMG League Bot runs a racing league on Discord. This project models its league engine (seasons,
brackets, rounds, races, standings) and the two background services that keep outside systems in step
with it (the scheduled events of each Discord guild, and the race rooms on racetime.gg), and proves
what they keep over whole runs.

## How it is organised

- `Results`, `BracketRaces`: results, outcomes, one race and its life.
- `Pairings`: round-robin pairs, the first Swiss round, later Swiss rounds.
- `Standings`, `StandingsLaws`, `StandingsRecord`: the tally loop and the ranking; conservation,
  independence of order and sides, the round-robin identity; the ranking told from wins, losses and
  times.
- `League`: the database as tables of rows, and every command as a step function.
  `LeagueInvariant` and `LeagueTheorems`: what every command keeps and what holds in every run.
  `LeagueStandings`: standings of a bracket in the database. `LeagueStore`: the handlers as they work
  (load, change, save, transaction with rollback), proved against the step functions. `SelfRaces`: races
  of a player against themself and what they block. `LeagueRuns`: runs that reach the odd states below.
  `LeagueCommands`: why commands are refused, and that a finished season stays as it is.
- `RaceEvents`, `EventSync`: reconciling link rows and live events with the races, first as a
  relation between states, then as the loop that consumes its lookup maps. `LeagueEvents`: the same
  over the league's database, from the schedule to the events.
- `Rooms`: the producer and the consumer of racetime.gg rooms. `LeagueRooms`: the same over the league's
  database, interleaved with its commands and with the scanner.
- `RaceMatching`, `LeagueLinks`: finding the league race of a racetime.gg race: exactly when it is
  found, and why the league's invariant makes that search complete for Swiss brackets.
- `Hms`: times as text. `Sequences`, `Wrappers`: shared facts and types.

A command handler is one atomic step: it loads rows, changes them and saves them. What could happen
if two handlers interleaved is not modelled. The pairing library, the shuffle, the order in which a
hash map gives up its entries, clocks and the outcome of every outside call are parameters, so the
results hold for all of them. Arithmetic that leaves its unsigned range aborts the command, as in the
build that `install.sh` makes (`cargo build`, overflow checks on).

## What turned out not to hold, and when it does

- Printing a time and parsing it gives the time back exactly from one hour up to the limit of u32
  (`ParseOfFormat`); shorter times do not parse as they are printed, but do with `0:` before them
  (`ParseOfShort`). A text whose leftmost match reads as 1193046:28:16 or
  more aborts the parser, and no other text does (`ParseExactly`), although the project's README asks for
  no panics in running code.
- A displayed forfeit is not accepted as input (`ResultRoundTrip`).
- Generating a round robin without players aborts instead of failing (`GenerateAbortsIff`, the run
  `AbortHappens`). The panic passes through the transaction without rolling it back, so the connection
  returns to the pool with the row of the round inserted (`AbortLeavesEmptyRound`), and as far as that
  connection sees, the bracket can never be started (`AbortedNeverRuns`). Rollback is claimed for errors
  only.
- A bracket can be finished although it was never started (`FinishBracketExactly`, the run
  `UnstartedBracketIsFinished`).
- The first Swiss round is a matching exactly when nobody was entered twice (`PairOffIsPerfect`);
  nothing in the database forbids that.
- An unfinished race is not always accepted for a report: not if its two players are the same
  (`ReportExactly`). Such a race arises exactly in the first round of a Swiss bracket when the shuffle
  puts two entries of one player together (`SelfRaceArisesIff`, the run `SelfRaceHappens`), which some
  shuffle does exactly if the number of entries is even and some player is entered twice
  (`SomeShuffleSelfPairsIff`). From then on, in every run, the race stays unfinished, its bracket never
  gets another round and is never finished, and neither is its season (`SelfRaceBlocksForGood`).
- Two passes settle all events exactly when no missing event is already in the past
  (`TwoPassesConverge`); one pass is enough exactly when, besides, no event to be created has
  commentators (`OnePassConverges`).
- More than one room can be opened for a scheduling (`SecondRoomHappens`): a consumer step opens another
  one exactly when storing the url of an earlier one failed (`SecondRoomIff`), and of several rooms only
  the last can be a saved one (`OnlyLastRoomIsSaved`).
- A room can be opened before the lead time (`EarlyRoomHappens`). A step that opens a room opens one
  that no tick has asked for exactly when the race was rescheduled after each of its waiting requests
  was sent (`UnrequestedRoomIff`); every room that is opened too early is of that kind
  (`EarlyRoomIsStale`).
- The scanner's map keeps, of the races with the same player 1, only the last one (`KnownRacesExactly`).
  Of a round robin with all n(n - 1)/2 races open it keeps n - 1 (`RoundRobinKeepsOnePerPlayer`).
- The search in that map misses a race exactly when every candidate is blocked by an earlier race that
  shares a name with it (`SearchExactly`). Whether it is missed in some order of the hash map's keys is
  decided by `EveryOrderFindsIff`; `OrderMattersWhenPlayersOverlap` is an example.

## Model

| member | source | states |
|---|---|---|
| Results.OutcomeFollowsBeats | src/models/bracket_races.rs:57-75 | The outcome is a win exactly for the player whose result beats the other's (finishing beats a forfeit, the faster finish wins), and exchanging the results exchanges the winner |
| BracketRaces.BracketRace.Schedule | src/models/bracket_races.rs:208-231 | Refused exactly for a finished race; otherwise only the state changes, to Scheduled |
| BracketRaces.BracketRace.AddResults | src/models/bracket_races.rs:236-259 | Refused exactly for a finished race without force; partial results overwrite but never erase, and two results finish the race |
| BracketRaces.BracketRace.Finish | src/models/bracket_races.rs:275-287 | Sets the outcome of the two results and the state, or reports a missing result |
| BracketRaces.RunKeepsConsistent | src/models/bracket_races.rs:208-287 | Over every run of schedule and add_results a race is Finished exactly when both results are present exactly when an outcome is present, which is that of the current results; players and round never change, and Finished is final |
| BracketRaces.RunStoresLastReported | src/models/bracket_races.rs:233-259 | After every run the stored results are the last ones reported and accepted for each player |
| BracketRaces.UnfinishedState | src/models/bracket_races.rs:208-259 | After every run an unfinished race is scheduled exactly when it was at first or some step scheduled it; partial results do not change that |
| BracketRaces.SavedExactly | src/models/mod.rs:26-32 | Saving only the fields that are present stores the in-memory race exactly when no stored optional field is absent in memory |
| BracketRaces.StepSavesExactly | src/models/bracket_races.rs:77-89 | No step makes an optional field absent, so every load-modify-save stores exactly the in-memory race |
| BracketRaces.ConvertsIffFinished | src/models/bracket_races.rs:289-316 | A race converts for the pairing library exactly when it is finished, with its players in order and the winner its results give |
| Pairings.RoundRobinMembers | src/models/brackets.rs:215-220 | The generator yields every unordered pair of different ids exactly once, lower id first |
| Pairings.RoundRobinIsAllPairs | src/models/brackets.rs:215-221 | For distinct players the generated pairs are a rearrangement of an independently defined list of all pairs, n(n-1)/2 of them |
| Pairings.RoundRobinAcceptsIffDistinct | src/models/brackets.rs:221-227 | For at least one entry the count check passes exactly when no player is entered twice |
| Pairings.PopPairs | src/models/brackets.rs:166-177 | The loop that pops two players at a time pairs them all off, and fails exactly on odd counts |
| Pairings.PairOffIsPerfect | src/models/brackets.rs:166-177 | Whatever the shuffle, every entry is paired as often as it was entered, and the round is a matching exactly when no entry is repeated |
| Pairings.TakePairs | src/models/brackets.rs:123-138 | Removing both players of each pair from the entered ones either uses the whole answer or stops at the first player who is not there |
| Pairings.TakenIffMatching | src/models/brackets.rs:129-138 | Whatever the library answers, a round is made of it exactly when it pairs entered players, none twice |
| Standings.RankIsKeyOrder | src/models/brackets.rs:457-461 | The ranking order is the lexicographic order of the four-part sort key, and it never ties two players |
| Standings.AwardsFollowResults | src/models/brackets.rs:436-440 | Two points go to the better result and one each to a tie, and the pairing library is told the same winner |
| Standings.Tally | src/models/brackets.rs:427-454 | The loop over the map leaves, for every player who raced and no other, the sum of points and the lists of opponents and results |
| Standings.OpponentsAreScored | src/models/brackets.rs:482-494 | Every opponent has a score: the branch for a missing score is never taken |
| Standings.Standings | src/models/brackets.rs:427-462 | The result ranks every player once with the right totals in strict order; it aborts exactly when two or more players are sorted and a total time leaves u32 |
| StandingsLaws.PointsAreConserved | src/models/brackets.rs:436-453 | Over any list of races the points add up to twice the number of races |
| StandingsLaws.OpponentPointsAreConserved | src/models/brackets.rs:455-494 | Opponent points add up to the sum over players of points times opponents met |
| StandingsLaws.RankingDependsOnAppearances | src/models/brackets.rs:457-461 | The ranked list of id, points, opponent points and time is a function of who raced whom with which results, so hash-map order does not matter |
| StandingsLaws.RankingIgnoresOrderAndSides | src/models/brackets.rs:427-462 | Reordering the races and exchanging player 1 and player 2 in any of them, with their results, leaves the ranked list as it is |
| StandingsLaws.SwappedResultsSwapSides | src/bin/add_historical_data.rs:39-43 | Exchanging the sides before the outcome is computed is exchanging the sides of the counted race, which the backfill relies on |
| StandingsLaws.RoundRobinTotals | src/models/brackets.rs:427-462 | When n players have all raced each other once, points plus opponent points is n(n-1) for each, so opponent points never break a tie |
| StandingsRecord.RankingFollowsRecord | src/models/brackets.rs:427-494 | The ranking lists exactly those who raced; points are races played plus wins less losses, opponent points are the points of all opponents met, time counts three hours for a forfeit, and the order is by these and then by id |
| StandingsRecord.OverflowByRecord | src/models/brackets.rs:455-461 | Standings abort exactly when two or more players raced and the time of one of them, three hours for each forfeit, reaches 2^32 seconds |
| LeagueTheorems.GenerateIsExact | src/models/brackets.rs:345-352 | Pairings are generated exactly when an explicit condition holds; then one whole round with the next number is committed with the right pairs and nothing else changes; the ascending-round assertion and the unique index never fire |
| LeagueTheorems.GenerateAbortsIff | src/models/brackets.rs:221 | Generating pairings aborts exactly for a round robin that was never generated and has no players |
| LeagueTheorems.AbortLeavesEmptyRound | src/models/brackets.rs:233-241 | What an abort leaves behind in the open transaction is the row of a round without races, and nothing else |
| LeagueTheorems.AbortedNeverRuns | src/models/brackets.rs:257-263 | Over every run on that connection the bracket never starts and never has a race, whoever is entered later |
| LeagueInvariant.RoundsAreOneToK | src/models/brackets.rs:318-327 | A bracket's rounds, ordered by number, are numbered exactly 1 to k |
| LeagueTheorems.ConvertIffFinished | src/models/brackets.rs:104-111 | All races of all rounds convert for the library exactly when all races of the bracket are finished |
| LeagueTheorems.SeasonMovesExactly | src/models/season.rs:98-166 | A season stays or moves one state on, to Finished exactly when every bracket row of the season is finished, and only then gets a finish time; no other row changes |
| LeagueTheorems.FinishBracketExactly | src/models/brackets.rs:292-301 | A bracket can be finished exactly when all its races are, even if it was never started |
| LeagueTheorems.ScheduleExactly | src/models/bracket_race_infos.rs:97-116 | Scheduling sets the time and clears the room url in the race's only info row and touches nothing else; refused exactly for finished races |
| LeagueTheorems.ReportExactly | src/discord/interaction_handlers/application_commands.rs:1649-1735 | A report is accepted exactly for unfinished races of two different players and a correction exactly for finished ones; both store the results and the outcome that follows |
| LeagueTheorems.RunKeepsInv | src/discord/interaction_handlers/application_commands.rs:1534-1760 | Every database that any sequence of commands reaches, with aborts among them, satisfies the invariant |
| LeagueTheorems.FinishedForGood | src/models/brackets.rs:345-352 | Over every run no step leaves any of the three Finished states and a finished bracket never gains a round |
| LeagueTheorems.FinishedReachesDown | src/models/season.rs:153-166 | Over every run a finished season has only finished brackets and a finished bracket only finished races in all its rounds |
| LeagueTheorems.RunKeepsMatches | src/models/brackets.rs:345-352 | Over every run brackets keep their kind, entries, rounds and races are only added at the end, and no race ever changes its bracket, round or players |
| LeagueCommands.GenerateRefusals | src/models/brackets.rs:87-231 | In every reachable state a refusal to generate pairings names the first thing in the way: odd entries, repeated entries with both pair counts, a round robin already made, unfinished races, no answer, or the first player of the answer who is not entered or named twice |
| LeagueCommands.RaceRefusals | src/discord/interaction_handlers/application_commands.rs:1649-1735 | Why scheduling and reporting are refused; a refused report changes no race and at most adds the race's info row |
| LeagueCommands.ReportsStore | src/discord/interaction_handlers/application_commands.rs:1688-1735 | An accepted report or correction stores each player's own result with the outcome that follows and changes no other race |
| LeagueCommands.SeasonAndBracketRefusals | src/models/season.rs:98-166 | A season that could finish but for its brackets is refused for that, every other forbidden move as such |
| LeagueCommands.CreatingAndEntering | src/models/season.rs:59-65 | Whichever season the unordered query for the active one gives: brackets are created in, and players entered for, exactly the seasons that exist and are not finished |
| LeagueCommands.PlayersAreEntries | src/models/brackets.rs:166 | A player is listed for a bracket exactly as often as entered in it |
| LeagueCommands.FinishedSeasonIsFrozen | src/models/season.rs:59-65 | Over every run a finished season gets no bracket any more, and its brackets no entry, round or race |
| SelfRaces.SelfRaceArisesIff | src/models/brackets.rs:166-177 | Generated pairings hold a race of a player against themself exactly when they are the first round of a Swiss bracket and the shuffle puts two entries of one player together |
| SelfRaces.SomeShuffleSelfPairsIff | src/models/brackets.rs:166-177 | Some shuffle does so exactly when the number of entries is even and some player is entered twice |
| SelfRaces.SelfRaceBlocksForGood | src/models/bracket_races.rs:170-188 | Over every run a race of a player against themself stays, stays unfinished, its bracket stays started and never gets another round, and its season is never finished |
| SelfRaces.UnblockingFailsInRun | src/discord/interaction_handlers/application_commands.rs:1649-1735 | In every run each command that would report such a race, finish its bracket, make its bracket's next round or finish its season fails |
| LeagueRuns.AbortHappens | src/models/brackets.rs:221 | A run from the empty database whose last command aborts |
| LeagueRuns.UnstartedBracketIsFinished | src/models/brackets.rs:292-301 | A run that finishes a bracket that was never started and has no round |
| LeagueRuns.SelfRaceHappens | src/models/brackets.rs:166-177 | For every player a run that ends with a race of that player against themself |
| LeagueTheorems.SwissRoundIsDisjoint | src/models/brackets.rs:123-139 | In every reachable state two races of a Swiss round share no player: from the second round on always, in the first if nobody was entered twice |
| LeagueTheorems.OnlyLastRoundIsOpen | src/models/brackets.rs:104-111 | All rounds before the last are wholly finished |
| LeagueTheorems.OneOpenRacePerPlayer | src/models/brackets.rs:90-142 | In a Swiss bracket with distinct entries a player has at most one unfinished race, whatever the pairing library answers |
| LeagueStandings.CollectRaces | src/models/brackets.rs:410-425 | The loop with its early exit collects the counted races round by round |
| LeagueStandings.BracketStandings | src/models/brackets.rs:367-463 | Standings are refused exactly for an unstarted bracket; otherwise they rank by record the races that count: all finished ones of a round robin, and those of a Swiss bracket's rounds before the first with an unfinished race |
| LeagueStandings.RoundRobinCountsFinished | src/models/brackets.rs:410-425 | At any time, finished or not, the standings of a round robin count one by one exactly the finished races of its rounds |
| LeagueStandings.SwissCountsCompletedRounds | src/models/brackets.rs:410-425 | Swiss standings count, one by one, the races of the completed rounds with their players, results and outcome, none dropped and none added, and only the last round can be incomplete |
| LeagueStandings.StandingsHoldStillWithinRound | src/models/brackets.rs:412-418 | Any sequence of schedule and result commands within one round that leaves it incomplete leaves the Swiss standings as they were |
| LeagueStandings.FinishedRoundRobin | src/models/brackets.rs:187-231 | In every reachable database, a wholly finished round robin ranks the first n players entered, for some n, and gives each of them n(n-1) points and opponent points |
| LeagueStandings.FinishedRoundRobinOfEntrants | src/models/brackets.rs:187-231 | Over every run, n is the number of players entered when the pairings were generated, and just these players are ranked, whatever happens afterwards |
| LeagueStore.Season.SetState | src/models/season.rs:98-140 | The state machine on the loaded object does what the transition function says and is unchanged when refused |
| LeagueStore.Season.Finish | src/models/season.rs:153-166 | Sets the finish time exactly when every bracket is finished |
| LeagueStore.Bracket.Finish | src/models/brackets.rs:292-301 | Finishes exactly when no round holds an unfinished race |
| LeagueStore.LeagueStore.HandleGeneratePairings | src/models/brackets.rs:345-352 | The generators write round, races and bracket one after the other inside a transaction; an error leaves the database unchanged, an abort leaves the inserted round |
| LeagueStore.LeagueStore.InitialPairings | src/models/brackets.rs:159-185 | Inside the transaction, writes the first round as the step function says, reports its error, or aborts after the round is inserted |
| LeagueStore.LeagueStore.CheckRounds | src/models/brackets.rs:94-111 | The two loops over earlier rounds find the next number, or the first reason why there is none |
| LeagueStore.LeagueStore.HandleSetSeasonState | src/discord/interaction_handlers/application_commands.rs:1534-1551 | Load, change, save: the stored tables change as the step function says |
| LeagueStore.LeagueStore.HandleFinishBracket | src/discord/interaction_handlers/application_commands.rs:1631-1646 | Load, change, save: the stored tables change as the step function says |
| LeagueStore.LeagueStore.HandleSchedule | src/models/bracket_races.rs:208-231 | Load, change, save of race and info row in one step |
| LeagueStore.LeagueStore.HandleReport | src/discord/interaction_handlers/application_commands.rs:1649-1735 | Load, change, save; a report that is refused, because both players are the same or the race is in the wrong state, has still created the info row |
| RaceEvents.MatchIffEditIsIdle | src/discord/helper_bot/mod.rs:334-352 | An event matches exactly when editing it would change nothing; a created event matches exactly when there is no description |
| RaceEvents.RepairAllIsSynced | src/discord/helper_bot/mod.rs:189-255 | A pass, with any calls or writes failing, repairs every race independently, never touches an event that no listed race links, and keeps link rows free of shared events |
| RaceEvents.TwoPassesConverge | src/discord/helper_bot/mod.rs:279-331 | From any link rows and events, two passes without failures settle every race exactly when no missing event was already in the past |
| RaceEvents.OnePassConverges | src/discord/helper_bot/mod.rs:314-330 | One pass suffices exactly when, besides, no event to be created has a description |
| RaceEvents.SettledPassIsSilent | src/discord/helper_bot/mod.rs:293-300 | A pass over a settled state makes no call and writes no row |
| RaceEvents.SilentPassIsSettled | src/discord/helper_bot/mod.rs:279-331 | A pass that makes no call and writes no row finds a settled state, unless a missing event is in the past |
| RaceEvents.CallsAreAccepted | src/discord/helper_bot/mod.rs:280-331 | Discord accepts every call of a pass: an active event is completed and a scheduled one cancelled, only events that are there are touched, none is created in the past; running the log of calls gives the events after the pass, and a link row is written right after each call that ends or creates an event and at no other time |
| RaceEvents.UnstartedIsCancelled | src/discord/helper_bot/mod.rs:280-284 | An event that was created and edited here and has not become active is ended as cancelled |
| RaceEvents.GroupingLosesNothing | src/discord/helper_bot/mod.rs:137-149 | Grouping consecutive rows of sorted link rows into a two-level map holds an event under a guild and race exactly when that row was loaded |
| EventSync.EventStore.UpdateDiscordEvents | src/discord/helper_bot/mod.rs:273-332 | Which call is made for a wanted or unwanted race with or without an event, and what it does when it succeeds or fails |
| EventSync.EventStore.SyncEventsInAGuild | src/discord/helper_bot/mod.rs:179-257 | The loop that consumes its two maps does what the pass does on the whole state, and no row write is refused by a unique index |
| EventSync.TasksFollowConcerns | src/discord/helper_bot/mod.rs:189-212 | For every race a guild wants the race's event if the race concerns it, and no event otherwise |
| RaceEvents.InterestingIffConcerns | src/models/guild_race_criteria.rs:58-70 | A race concerns a guild exactly when it is the main one, or some criterion names no player or one of the two and asks nothing of the restream or what holds of it |
| RaceEvents.SidesDoNotMatter | src/models/guild_race_criteria.rs:58-70 | Exchanging player 1 and player 2 does not change what a guild wants |
| EventSync.FaultyPass | src/discord/helper_bot/mod.rs:151-170 | In a pass with any failures each race of a guild that was listed is repaired as far as its calls succeed, and a guild that could not be listed keeps its rows and events |
| EventSync.EventStore.SyncRaceStatus | src/discord/helper_bot/mod.rs:120-171 | A pass over all guilds, with the loaded rows grouped by guild, is the pass over all their races; a guild that cannot be listed is skipped |
| EventSync.TwoPassesSettleIff | src/discord/helper_bot/mod.rs:120-171 | Two passes over all guilds without failures settle every race exactly when no missing event was in the past, and then the third pass does nothing |
| EventSync.ServiceConverges | src/discord/helper_bot/mod.rs:1-8 | With fixed content and no failures, two passes over all guilds settle every race in every guild and the third does nothing |
| LeagueEvents.BundlesAreThere | src/discord/helper_bot/mod.rs:426-470 | In every reachable database a pass has a bundle for exactly the info rows of started seasons, no two for the same row, and no race fails the pass |
| LeagueEvents.LeagueEventsConverge | src/discord/helper_bot/mod.rs:120-171 | From any reachable database, link rows and events: after two passes every guild has, for each scheduled race whose players and restream its criteria ask for, a live linked event from the scheduled time to 100 minutes later, and none for any other race of the running season, exactly when no such missing event was in the past |
| Rooms.SlugRoundTrip | src/racetime_bot/mod.rs:59-78 | A slug is read back from its url exactly when it is not empty and has no slash |
| Rooms.SlugFromUrlExactly | src/racetime_bot/mod.rs:59-78 | For any url: the slug read is the one after the first place that has the base, dots standing for any character, and a slash, up to the next slash or the end |
| Rooms.RunKeepsInv | src/racetime_bot/mod.rs:143-202 | The invariants on rooms, urls, known slugs and waiting requests hold in every interleaving of ticks, duplicate sends, reschedules, reports, restarts, passing time and consumer steps |
| Rooms.OnlyLastRoomIsSaved | src/racetime_bot/mod.rs:169-185 | Over every run, whatever fails: of several rooms of one scheduling, storing the url failed for all but the last |
| Rooms.OneRoomPerScheduling | src/racetime_bot/mod.rs:169-185 | Over every run at most one room is opened for a scheduling if storing the url failed for none of that scheduling's own rooms |
| Rooms.SecondRoomIff | src/racetime_bot/mod.rs:169-202 | A consumer step opens a room for a scheduling that has one exactly when it opens one and an earlier room of that scheduling was not saved |
| Rooms.SecondRoomHappens | src/racetime_bot/mod.rs:195-201 | A run in which the first room's url is lost and a second room is opened for the same scheduling |
| Rooms.UnrequestedRoomIff | src/workers/upcoming_races_worker.rs:25-36 | Over every run a consumer step opens a room for a scheduling that no tick has asked for exactly when the race was rescheduled after each of its waiting requests was sent |
| Rooms.EarlyRoomIsStale | src/workers/upcoming_races_worker.rs:25-36 | Over every run a room that is opened before the lead time is one that no tick has asked for, and its race was rescheduled after each of its waiting requests was sent |
| Rooms.OlderIffRescheduled | src/models/bracket_race_infos.rs:97-116 | Over every run a request is for an older scheduling exactly when its race was rescheduled since the request was sent |
| Rooms.EarlyRoomHappens | src/workers/upcoming_races_worker.rs:25-36 | For all times with the first start before the lead time and the second not: a run that ends with a room opened before the lead time |
| Rooms.UrlIffRoom | src/racetime_bot/mod.rs:190-202 | Over every run an unfinished race has a url exactly when its current scheduling has a saved room, and it is that room's |
| Rooms.UpcomingGetRooms | src/models/season.rs:209-229 | A tick asks for a room for every unfinished race of the season that starts before the lead time and has no url; after the queue is drained it has one exactly when a room was opened for one of its requests |
| LeagueRooms.RoomsOfJointRun | src/racetime_bot/mod.rs:143-202 | In every interleaving of commands, scans, ticks and consumer steps over one database the rooms go through a run of `Rooms`, so what holds over those runs holds here |
| LeagueRooms.JointRunKeepsInv | src/racetime_bot/mod.rs:143-202 | Over every such interleaving the league's invariant and the rooms' hold, and for every info row start time, url and whether the race is finished are what the service works with |
| LeagueRooms.OnlyWaitingMovesClock | src/workers/upcoming_races_worker.rs:25-28 | No command and no step of the service moves the clock or the lead time |
| LeagueRooms.UrlIffRoomInLeague | src/racetime_bot/mod.rs:190-202 | Over every such interleaving the info row of an unfinished race has a url exactly when the race's current scheduling has a saved room, and it is that room's |
| LeagueRooms.DueInView | src/models/season.rs:209-229 | The query over the active season in the database finds exactly the races that start before the lead time |
| LeagueRooms.UpcomingLeagueRacesGetRooms | src/workers/upcoming_races_worker.rs:25-36 | From every reachable database, a race that the query finds is asked for unless it has a url, and once the channel is drained it has one exactly when a room was opened for one of its requests |
| LeagueRooms.SelfRacesStayRoomless | src/racetime_bot/mod.rs:204-217 | Over every such interleaving no room is opened for a race of a player against themself, and its info row never gets a url |
| Rooms.LearningNeverConflicts | src/racetime_bot/mod.rs:264-281 | A new room's slug is never refused as another race's |
| Rooms.OpenedIsKnown | src/racetime_bot/mod.rs:172-176 | A consumer step that opens a room and stores its url makes exactly that room known, under its race |
| Rooms.KnownExactly | src/racetime_bot/mod.rs:264-297 | Over every run the bot handles a room as that of a race exactly when a step saved it for that race or a restart found it saved for the unfinished race, and since then it was not told to forget it nor restarted |
| Rooms.TickSendsExactly | src/workers/upcoming_races_worker.rs:25-42 | A tick puts behind the waiting requests exactly those for the current scheduling of unfinished listed races that start before the lead time and have no url, once for each listing, twice in the testing build |
| Rooms.WaitingWasDue | src/workers/upcoming_races_worker.rs:25-42 | Over every run each waiting request was sent by a tick at which its race was due and had no url, since the last restart |
| Rooms.RestartRelearns | src/racetime_bot/mod.rs:88-102 | After a restart exactly the saved rooms of unfinished races are known again |
| Rooms.RoomKeeper.RunOnce | src/workers/upcoming_races_worker.rs:25-42 | The producer sends exactly the season's unfinished races that start before the lead time and have no url, twice in the testing build |
| Rooms.RoomKeeper.CreateRooms | src/racetime_bot/mod.rs:152-186 | The receive loop performs one consumer step for each request until the channel is drained |
| Rooms.RoomKeeper.LearnAboutBri | src/racetime_bot/mod.rs:264-281 | A slug is learned unless it is known for another race |
| RaceMatching.RacesByPlayerRtgg | src/worker_funcs.rs:28-63 | The loop builds the map of races by the first player's lower-cased name, skipping races with an unknown player or name |
| RaceMatching.SearchEntrants | src/worker_funcs.rs:99-146 | The loop that removes entrants as it goes computes the recursive search |
| RaceMatching.RacetimeRace.InterestingRace | src/worker_funcs.rs:67-103 | The goal, status and start-time gates, and that the entrants are consumed exactly when they are passed |
| RaceMatching.KnownRacesExactly | src/worker_funcs.rs:28-63 | The map holds a race under a name exactly when it is the last of the races whose first player has that name |
| RaceMatching.SurvivesIffLast | src/worker_funcs.rs:54 | A race with both players known survives in the map exactly when no later one has the same first player, by lower-cased name |
| RaceMatching.RoundRobinKeepsOnePerPlayer | src/worker_funcs.rs:50-61 | Of the n(n-1)/2 open races of a round robin the map keeps n-1 |
| RaceMatching.TooOldFrom181Minutes | src/worker_funcs.rs:117-123 | The age test on truncated minutes refuses exactly from 181 minutes on |
| RaceMatching.SearchIsSound | src/worker_funcs.rs:105-146 | For every order of the keys and every map, a match is a known race with both players among the entrants that passes the time test |
| RaceMatching.MatchNamesBothPlayers | src/worker_funcs.rs:99-143 | The two entrants of a match are different entrants of the room, named as player 1 and player 2 |
| RaceMatching.LastEntrantStays | src/worker_funcs.rs:99-102 | Of several entrants whose names differ only in case the last one is kept |
| RaceMatching.SearchExactly | src/worker_funcs.rs:105-146 | For every map and order of the keys, a match is found exactly when some position holds a candidate that shares no name with a tested race at an earlier position |
| RaceMatching.SearchPicksFirst | src/worker_funcs.rs:105-146 | The race that is found is the one at the first such position |
| RaceMatching.EveryOrderFindsIff | src/worker_funcs.rs:104-146 | Every order of the keys finds a match exactly when some group of candidates shares no name with a tested race outside the group |
| RaceMatching.SomeOrderFindsIff | src/worker_funcs.rs:104-146 | Some order of the keys finds a match exactly when a candidate is filed under some entrant |
| RaceMatching.OrderMattersWhenPlayersOverlap | src/worker_funcs.rs:104-146 | An example of two orders of the same keys, one with a match and one without |
| RaceMatching.MatchIsOfTwoPlayers | src/worker_funcs.rs:139-143 | Whatever the open races, a match is one of them and never a race of a player against themself |
| RaceMatching.ScannerFindsExactly | src/workers/racetime_scanner_worker.rs:67-98 | Over any open races, the built map and the search together find a match exactly when some race that no later one replaced is a candidate and not blocked by a race filed under an earlier entrant |
| LeagueLinks.ContentIsNeverMissing | src/discord/helper_bot/mod.rs:376-420 | In every reachable database every race with an info row has event content: an event of 100 minutes while scheduled, none otherwise, and never a missing start time |
| LeagueLinks.OpenRacesAreDisjoint | src/models/season.rs:209-229 | In every reachable database the open races of a season of Swiss brackets with distinct entrants have pairwise disjoint players |
| LeagueLinks.OpenRaceSurvivesIff | src/worker_funcs.rs:28-63 | Of the open races of a season in the database, one with both players known stays in the map exactly when no later one has the same first player, by lower-cased name |
| LeagueLinks.ScannerFindsExactly | src/workers/racetime_scanner_worker.rs:55-98 | In every reachable database and for every season, a racetime.gg race is matched exactly when it is finished with the season's goal and a start time, and an open league race is found in the order of the entrants; the races searched are exactly the unfinished ones of the season before the cutoff |
| LeagueLinks.OpenRacesExactly | src/models/season.rs:165-190 | The query finds an info row exactly when its race is unfinished, in the season and scheduled before the cutoff |
| LeagueLinks.ScannerIsComplete | src/workers/racetime_scanner_worker.rs:55-98 | For a season of Swiss brackets with distinct entrants, a racetime.gg race is matched exactly when it is finished with the season's goal and a start time, and some info row of the database is of an unfinished race of the season before the cutoff whose two players are among the entrants, scheduled less than 181 minutes after the start |
| LeagueLinks.MatchNamesTheRow | src/worker_funcs.rs:104-146 | A match is of an info row that qualifies, with the entrant named as player 1 first and the one named as player 2 second |
| Hms.ParseExactly | src/utils.rs:36-51 | For every text: the parser aborts exactly if the leftmost match of the pattern is written as 1193046:28:16 or more, and gives a number of seconds exactly if it is written as an earlier time of that length, leading zeros allowed |
| Hms.ParseRaceResultExactly | src/utils.rs:57-65 | For every text: a forfeit is entered by exactly the word forfeit, a finish exactly by a text whose leftmost match is written as a time below the limit; past the limit it aborts and any other text is refused |
| Hms.ParseOfShort | src/utils.rs:16-51 | A printed time below one hour parses back once the hour is put before it |
| Hms.ParseOfFormat | src/utils.rs:16-51 | Parsing a printed time, for every number of seconds: it comes back from one hour up to the limit of u32, does not parse below, and aborts or is refused above |
| Hms.FormatOfParse | src/utils.rs:16-51 | Printing a parsed text gives the text back exactly when it was canonical, whatever characters the regular expression takes for digits |
| Hms.ResultRoundTrip | src/utils.rs:57-65 | A displayed result is read back exactly for finish times from one hour up to the limit of u32; a displayed forfeit is refused |

## Left out

- Discord, Twitch, racetime.gg, OAuth, the website, templates and scripts: only the effect of a successful or failed call on the modelled state is kept.
- The pairing library, its no-repeat setting and its time limit: its answer is an arbitrary list of pairs or an error.
- The optional url of the report commands: it is stored with the race that is then finished; for a first report of a race with an info row the scan step of `LeagueRooms` is that.
- Interleavings inside one handler: rows are saved from copies that may be stale by then.
- Asynchronous races (src/models/asyncs.rs): their setters are unguarded assignments.
- Rows that scripts or migrations put into the database before the first command: runs start from empty tables.
- Names of seasons, brackets and players, qualifiers, commentator signups and message ids.
- The order in which the races of a round robin are inserted (players are sorted by id first): rounds are read back without an order.
- Creating seasons and brackets and entering players as handlers: each is a single insert and is kept as a step function of `League` only.
- Text of event names, locations and descriptions, and criteria rows whose guild id does not parse.
- League.AddPlayer: takes the bracket by id, because bracket names are left out.
- League.CreateBracket: takes the season, because the query for the active season has no order; it can be any unfinished one.
- Standings.Standings: points are unbounded, because an i32 overflow needs a billion races; total times do overflow.
- League.AfterAbort: a run goes on with what the connection with the open transaction sees; that other connections cannot write meanwhile, and that a restart loses everything since the abort, is not modelled.
- Rooms.SlugFromUrl: takes a base url whose only special character in a regular expression is the dot.
- Rooms.RunKeepsInv: a consumer step is atomic, so a reschedule between loading and saving an info row is not covered.
- RaceEvents.TwoPassesConverge: assumes that Discord accepts every edit, also of an event that has started.
