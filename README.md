# Quest progression engine of lq-api, in Dafny

lq-api is a web service for a game companion: users link a game account, the service offers
them quests (play a given champion and reach goals such as "10 kills"), and it turns the
user's recent matches into quest progress. This project models the engine in
`routes/quest.js` and proves properties of it:

- **Role eligibility.** `createRolesArray` turns the user's six role flags into a role list,
  and the champion query keeps the champions with one of those roles in either slot
  (`roles.dfy`).
- **Offers.** `getNewQuests` works in three steps (`offers.dfy`):
  - The gate: no offer may be outstanding, and fewer than 5 quests may be active and
    uncompleted.
  - The candidates: quests the user holds in no state, on an eligible champion.
  - A window of at most three consecutive candidates at a random start, each turned into a
    fresh offer at zero progress.
- **Activation.** `activateQuest` stamps the chosen row active with a date, then deletes
  every remaining offer of the user (`activation.dfy`).
- **Ingestion.** `updateQuests` and `getParticipantData` do the rest (`progress.dfy`):
  - They pick the recent matches that qualify.
  - They record those matches in a per-user ledger.
  - They find the user's record in each game.
  - They add the summed statistics to every objective of each quest on that champion,
    clamp each objective at its goal, and complete a quest once every objective is at its
    goal.
- **The store.** `store.dfy` holds a class `QuestStore` with the UserQuest table, the ledger
  and the next row id. Its three route methods change the store in place. They keep an
  invariant (`Schema.RowsValid`) with four parts:
  - no two rows share an id;
  - no user holds a quest twice;
  - each row carries one objective per objective of its quest;
  - progress never exceeds a goal, and a completed quest has every goal reached.

  The converse does not hold. A row with every goal reached stays uncompleted until an
  update progresses it. An offer of a quest without objectives, or with every goal 0, is
  such a row from the start (`Store.SatisfiedOfferNotCompleted`).

The SQL tables become values: the reference tables are sequences, the UserQuest table is a
sequence of rows, and the UserMatch table is a set. Each ORM query becomes a function on
them: filters, lookups and a comprehension for each patch. The game data provider is an
input: the recent-match list is a sequence, and the per-game details are a map from game id
to game record. A missing entry in that map stands for a failed fetch. `Math.random()` and
the clock are parameters. Timestamps are integers in milliseconds. A missing activation
date is `None`.

Behaviours of the source that the model keeps on purpose:

- **The last window is never chosen.** The start is `floor(random * (n - 3))`, so it is
  below `n - 3` (`Offers.WindowStart`).
- **The date comparison is kept as written.** The comment in `updateQuests` speaks of
  matches played after activation, but the code keeps a match when the activation date is
  *later* than the match timestamp.
  - `Progress.ActivatedAfter` keeps the comparison as written.
  - A quest that was never activated never qualifies a match, because `Date.parse(null)` is
    NaN.
- **Progress does not check `active`.** Every quest of the user on a progressed champion
  advances, offers and completed quests included (`Progress.AdvanceAll`).
- **Activation deletes offers even when the patch misses.** The delete runs whether or not
  the patch found its row.
- **Activation does not check the row's state.** Activating a quest that is already active,
  or completed, stamps it with a new date (`Activation.ActivationEffect`).
- **The ledger is written before the match details arrive.** A failed fetch or lookup still
  leaves those matches recorded, and no progress is made (`Progress.UpdateEffect`).

## Model

| member | source | states |
|---|---|---|
| Schema.QuestById | routes/quest.js:157-158 | the eager `quest.quest` lookup finds a quest with the requested id, or reports that none has it |
| Schema.QuestByIdFinds | migrations/20170415034459-initial-schema.js:38-39 | with Quest ids unique (primary key), looking up a stored quest's id yields that very quest |
| Schema.RowsOf | routes/quest.js:52-53 | the user's `quests` relation holds exactly the stored rows whose userId is the user's |
| Roles.PreferredIn | routes/quest.js:40-48 | filtering a push order by the flags keeps exactly the preferred roles, in push order |
| Roles.EveryRoleTested | routes/quest.js:42-47 | every one of the six roles has its own flag test |
| Roles.CreateRolesArray | routes/quest.js:40-49 | the role list holds a role iff its flag is set, each role at most once, in the fixed push order |
| Roles.Eligible | routes/quest.js:57-58 | a champion is selected when its role1 or its role2 slot holds a role of the list; an empty slot holds none |
| Roles.EligibleChampionIds | routes/quest.js:56-59 | an id is selected iff some champion with that id has role1 or role2 in the list |
| Roles.EligibleForUser | routes/quest.js:54-59 | with the user's role list the query selects exactly the champions one of whose roles the user prefers |
| Offers.QuestIdsOf | routes/quest.js:63-64 | `currentQuests` lists the questId of every row of the user, position by position |
| Offers.NumOffered | routes/quest.js:65 | `numOffered` counts the rows that are not active, at most one per row |
| Offers.NumActive | routes/quest.js:66 | `numActive` counts the rows that are active and not completed, at most one per row |
| Offers.OfferAllowed | routes/quest.js:68 | the gate is open iff every row of the user is active and fewer than five are active and uncompleted |
| Offers.TallySnoc | routes/quest.js:63-67 | one more row adds its questId and counts once as offered if inactive, as active if active and uncompleted |
| Offers.NumOfferedZero | routes/quest.js:65 | no offer is counted iff every row of the user is active |
| Offers.NumActiveCounts | routes/quest.js:66 | the active count is 0 iff no row is active and uncompleted, and counts every row when all are |
| Offers.TallyQuests | routes/quest.js:60-67 | the counting loop yields the questIds, the number of offers and the number of active uncompleted quests |
| Offers.Candidates | routes/quest.js:70-73 | a quest is a candidate iff the user holds no row for it and its champion is eligible; unique ids stay unique |
| Offers.WindowStart | routes/quest.js:78-80 | the random start of the window is below `n - 3`, so the window fits |
| Offers.WindowStartReachable | routes/quest.js:80 | every start below `n - 3` is produced by some random value in [0, 1) |
| Offers.Window | routes/quest.js:78-87 | three or fewer candidates are all taken; otherwise exactly three consecutive ones at a start below `n - 3` |
| Offers.NewQuestWindow | routes/quest.js:51-87 | at most three quests, each unique, held by the user in no state, on a champion with a role the user prefers |
| Offers.ZeroProgress | routes/quest.js:88-93 | one objective per QuestObjective of the quest, in order, each at progress 0 |
| Offers.Materialise | routes/quest.js:94-100 | the record for a quest is the user's, inactive, uncompleted, with one zero-progress objective per QuestObjective carrying its id |
| Offers.GetNewQuests | routes/quest.js:51-106 | the result is null iff an offer is outstanding or at least five quests are active and uncompleted (active but completed quests do not count); otherwise one inactive, uncompleted, zero-progress record of the user per window quest, in order |
| Offers.WindowIsSlice | routes/quest.js:78-86 | the bounds `rand` and `upperLimit` select exactly the window: the whole list when at most three candidates, otherwise three from the drawn start |
| Offers.NewUserQuests | routes/quest.js:87-101 | the materialisation loops build one record per chosen candidate with one zero-progress objective per QuestObjective |
| Offers.ObjectivesAsWritten | routes/quest.js:90-93 | the objective loop as written, bounded by the j-th candidate's objectives; `None` for the TypeError it raises |
| Offers.ObjectiveBoundCounterexample | routes/quest.js:90 | the loop bound as written drops the objectives of a candidate, or fails, where the intended bound does neither |
| Activation.TruncateToSecond | routes/quest.js:127 | the stored date is the clock truncated to its second, never later than the clock and less than a second before it |
| Activation.IsTarget | routes/quest.js:124-127 | a row is patched when it has the requested id and belongs to the user |
| Activation.Activate | routes/quest.js:127 | the patched row is active with the given date, every other field as it was |
| Activation.Patch | routes/quest.js:124-127 | the patch sets `active` and the date on the user's row with the id, changes nothing else in it, and leaves every other row as it was |
| Activation.Activated | routes/quest.js:122-137 | after patch and delete, every row of the user is active and every row of other users survives |
| Activation.FindRow | routes/quest.js:124-127 | the fetched row is the user's row with the requested id, or there is none |
| Activation.DeleteOffers | routes/quest.js:131-135 | a row survives the delete iff it belongs to another user or is active |
| Activation.ActivationEffect | routes/quest.js:122-137 | the user's target row becomes active with the date, no row of the user is left inactive, other active rows survive, nothing else appears |
| Activation.ActivationSparesOthers | routes/quest.js:124-135 | the rows of every other user are unchanged, in order |
| Activation.PatchSparesOthers | routes/quest.js:124-127 | the patch, confined to the user's rows, leaves other users' rows unchanged |
| Activation.DeleteSparesOthers | routes/quest.js:131-135 | the delete, confined to the user's rows, leaves other users' rows unchanged |
| Activation.ActivationKeepsValid | routes/quest.js:122-137 | activation keeps the store invariant |
| Activation.DeleteKeepsNoClash | routes/quest.js:131-135 | deleting rows cannot make two rows clash |
| Progress.Ledgered | routes/quest.js:156 | a game is in the ledger for the user when an entry for that game and that user is recorded |
| Progress.OnChampion | routes/quest.js:158 | a row is on a champion when its quest exists and is owned by that champion |
| Progress.ActivatedAfter | routes/quest.js:157 | `Date.parse(activationDate) > timestamp`, as written: the quest has a date and it is later than the match; a missing date never compares |
| Progress.Qualifies | routes/quest.js:156-158 | a match counts when its game is not in the user's ledger and some quest of the user on its champion passes the date comparison |
| Progress.QualifyingMatches | routes/quest.js:155-158 | a recent match is kept iff it is not in the user's ledger and a quest of the user on its champion was activated after its timestamp; empty iff none qualifies |
| Progress.RecordMatches | routes/quest.js:169-174 | after the insert the ledger holds the old entries plus one (game, user) entry per qualifying match, and nothing else |
| Progress.InsertLedgerAsWritten | routes/quest.js:174 | the insert against the game-id key: the ledger is unchanged when a game of the batch is already recorded for any user or a game id repeats within the batch, and otherwise gains the whole batch |
| Progress.LedgerKeyCounterexample | migrations/20170415034459-initial-schema.js:61-65 | with the game id as the sole key, a game recorded by another user makes the insert fail and the game qualifies again |
| Progress.RecordedMatchesDoNotRequalify | routes/quest.js:155-174 | once the qualifying matches are recorded, a second pass over the same list qualifies nothing unless a quest gained a date |
| Progress.HasPlayers | routes/quest.js:32 | the game carries player data when its first identity has a player |
| Progress.FindIdentity | routes/quest.js:33-34 | the identity found carries the user's account; when every identity has a player and one of them carries it, one is found |
| Progress.FindById | routes/quest.js:35 | the participant found has the identity's participant id; none is found only if no participant does |
| Progress.FindByChampion | routes/quest.js:37 | the participant found is the first on the champion; none is found only if nobody played it |
| Progress.GetParticipantData | routes/quest.js:31-38 | with player data, the user's record is the participant of the identity carrying the account and is found; without it, the first participant on the champion; no identities is a failure |
| Progress.ResolveParticipants | routes/quest.js:169-178 | one record per qualifying match, in order, exactly when every game was fetched and every lookup succeeded; each record comes from the provider's game |
| Progress.StatSum | routes/quest.js:191-192 | the reduce adds the statistic of every record: 0 for none, at least each record's value |
| Progress.Progresses | routes/quest.js:181-182 | a quest is progressed when some record is on its champion; its `active` flag is not consulted |
| Progress.ProgressesIffApplicable | routes/quest.js:181-187 | a quest is progressed iff the records applicable to its champion are not empty |
| Progress.Applicable | routes/quest.js:186-187 | the applicable records are exactly those on the quest's champion |
| Progress.AdvanceObjective | routes/quest.js:188-195 | the objective keeps its id; progress does not decrease, stays within the goal, and reaches the goal iff old progress plus the sum does |
| Progress.AdvanceObjectives | routes/quest.js:188-199 | every objective keeps its id and its progress becomes `min(goal, progress + sum)` of its statistic over the applicable records |
| Progress.AdvanceRow | routes/quest.js:184-205 | only the objectives and the completed flag change, and only when a record is on the quest's champion; then the quest is completed iff it was or every goal is now reached; completion is never undone |
| Progress.AdvanceAll | routes/quest.js:181-206 | every row keeps its id, user, quest, active flag and date; rows of other users are unchanged; completed rows stay completed |
| Progress.AdvanceEffect | routes/quest.js:181-206 | unprogressed rows are unchanged; a progressed row gets `min(goal, progress + sum)` per objective, changes nothing else, and is completed iff every goal is reached |
| Progress.AdvanceMonotone | routes/quest.js:191-195 | no objective loses progress or passes its goal |
| Progress.AdvanceKeepsValid | routes/quest.js:181-206 | the progress update keeps the store invariant |
| Progress.AdvanceKeepsWellFormed | routes/quest.js:188-204 | each advanced row still has one objective per QuestObjective within its goal |
| Progress.AdvanceRowMatches | routes/quest.js:188-204 | advancing one row keeps one objective per QuestObjective, each within its goal |
| Progress.AdvanceNothing | routes/quest.js:181-182 | with no records no row changes |
| Progress.AdvanceKeepsActivations | routes/quest.js:181-206 | the update keeps every quest's id and activation date |
| Progress.ResolvedHaveStats | routes/quest.js:191-192 | the resolved records report every statistic an objective tracks |
| Progress.UpdateWithNoMatches | routes/quest.js:155-182 | an update with nothing to qualify succeeds and changes neither rows nor ledger |
| Progress.UpdateEffect | routes/quest.js:147-209 | the ledger only grows, by entries of the user for games it did not hold; a failed update leaves the rows as they were; other users' rows are unchanged |
| Progress.UpdateTwiceIsOnce | routes/quest.js:147-209 | a second update over the same recent matches succeeds and changes neither rows nor ledger |
| Progress.ClampScenario | routes/quest.js:191-201 | goal 10 at progress 8 plus 5 kills clamps to 10 and completes the quest |
| Store.Inserted | routes/quest.js:113 | `insertGraph` stores each record of the batch as given, with consecutive ids from the next id and no activation date |
| Store.OfferRows | routes/quest.js:110-113 | an offer adds at most three rows |
| Store.SatisfiedOfferNotCompleted | routes/quest.js:94-100 | an offer of a quest without objectives has every goal reached yet is stored uncompleted, in a valid store |
| Store.CompletedOfferDeletedOnActivation | routes/quest.js:131-135 | an offer completed by an update, still inactive, is deleted when another offer is activated |
| Store.OfferCompletedByUpdate | routes/quest.js:184-205 | in the same scenario the update completes both inactive offers; the 3-kill objective is capped at 3 after a 4-kill record |
| Store.KillsRecordCompletes | routes/quest.js:188-204 | one 4-kill record takes a 0-of-3 kills objective to 3 and completes the row |
| Store.OfferRowsAreOffers | routes/quest.js:94-100 | added rows are the user's inactive, uncompleted, undated zero-progress offers on distinct quests the user held in no state, with ids from the next id on; rows appear only when the gate is open |
| Store.OfferShutsGate | routes/quest.js:65-68 | after a non-empty offer the user's next offer request adds nothing |
| Store.OfferRowsWellFormed | routes/quest.js:88-100 | every added row refers to its quest and has one zero-progress objective per QuestObjective |
| Store.FreshRowWellFormed | routes/quest.js:88-100 | a fresh zero-progress offer on a stored quest is well formed |
| Store.OfferRowsNoClash | routes/quest.js:69-72 | added rows clash neither with each other nor with stored rows |
| Store.OfferKeepsValid | routes/quest.js:110-113 | an offer keeps the store invariant with the next id advanced past the new rows |
| Store.QuestStore.OfferQuests | routes/quest.js:110-113 | the store gains exactly the offer's rows at the end, with fresh ids; the ledger is untouched |
| Store.QuestStore.ActivateQuest | routes/quest.js:122-137 | the result is the patched row iff the user owns the row; the new table is the patch followed by the delete of the user's offers |
| Store.QuestStore.AdvanceObjectivesLoop | routes/quest.js:188-199 | the objective loop yields every objective advanced and clamped |
| Store.QuestStore.AdvanceRowsLoop | routes/quest.js:183-206 | the loop over progressed quests yields the specified progress update of every row |
| Store.QuestStore.UpdateQuests | routes/quest.js:147-209 | rows, ledger and success are those of `UpdateEffect`, whose idempotence is proved; the invariant holds |

## Left out

- `createQuestResponse` (routes/quest.js:12-30) is left out. It only flattens rows for the HTTP response.
- `allQuests` is left out, and so are the reads that follow `offerQuests` and `updateQuests`. The re-query of offers, the call to `allQuests` and its nested `offerQuests` only read or repeat operations modelled here.
- The HTTP context, `ctx.status = 500` and `console.error` are left out. Failure of `updateQuests` is the `ok` result of `Store.QuestStore.UpdateQuests`.
- Writes the source issues without awaiting them (`.then()`) are modelled as completing in order. Interleavings between concurrent requests are not modelled.
- The external data provider is an input. A failure of the recent-match fetch is not modelled, because it ends the request before anything is written.
- `Math.random()` and the clock are parameters of the operations.
- JavaScript numbers are modelled as unbounded integers. Statistics and goals are natural numbers.
- The User row is an input. A missing user, which would be a TypeError, is not modelled.
- Objective rows do not carry their own `UserQuestObjective` id. A patch reaches an objective by its position in the row.
- A game id listed twice in the recent-match list is not modelled. The source's `gameChampMap` would keep the later champion; the model uses each list entry's own champion.
- Progress.GamesHaveStats is a precondition of `Store.QuestStore.UpdateQuests`: every record reports every statistic an objective tracks. A missing key makes the sum `NaN` in the source, and that is not modelled.
- Progress.GetParticipantData: its completeness clause for ranked games assumes that every identity has a participant record. It is weaker than the case analysis in the function.
- Progress.UpdateEffect: it does not distinguish a provider failure from a lookup failure. Both lead to the source's status 500.
- Schema.RowsValid: it promises that a completed row has every goal reached, but not the converse, because the source does not keep the converse. A row is completed only by an update that progresses it, so an offer that is fully satisfied from the start stays uncompleted (`Store.SatisfiedOfferNotCompleted`).
- Activation.ActivationEffect: it does not promise that completed quests survive an activation, because the source does not keep that either. Progress ignores `active`, so an offer can be completed while inactive, and the delete of the user's offers then removes it (`Store.CompletedOfferDeletedOnActivation`).
- Progress.RecordMatches: the ledger it maintains is keyed by (game id, user id), the corrected key of the second Findings row. The schema as written keys UserMatch by the game id alone; `Progress.InsertLedgerAsWritten` models that insert.
- Store.QuestStore.UpdateQuests: its ledger follows `Progress.RecordMatches`, that is the corrected (game id, user id) key, not the schema's game-id key.
- The tables and columns in the schema that the engine never reads (Summoner, credentials, verification) are left out.

## Findings

| source | as written | input that shows it | evidently intended | confidence | as-written member | corrected member |
|---|---|---|---|---|---|---|
| routes/quest.js:90 | the objective loop's bound is `quests[j].objectives.length`, the j-th candidate instead of the i-th | candidates `[q0 with no objectives, q1 with one]` and window index 1: q1 is offered without objectives; with candidates `[q0 with one, q1 with two]` the loop throws already for q0 (i = 0, j = 1 reads q0's missing second objective) | bound by `quests[i].objectives.length` | not executed | Offers.ObjectivesAsWritten, Offers.ObjectiveBoundCounterexample | Offers.NewUserQuests |
| migrations/20170415034459-initial-schema.js:62 | UserMatch's primary key is the game id alone, while the ledger is checked per user and written fire-and-forget | user 1 has recorded game 42; user 2 played game 42 with an activated quest on that champion: the insert fails, and game 42 is applied to user 2 again on every update | key the ledger by (game id, user id) | not executed | Progress.InsertLedgerAsWritten, Progress.LedgerKeyCounterexample | Progress.RecordMatches, Progress.RecordedMatchesDoNotRequalify |
