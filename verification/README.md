# Block finder: a Dafny model of the round and scoring engine

The block finder plugin runs a hunt on a game server. Each round picks a few
target block kinds, and a player scores a point for their team by sneaking
while standing on a target or up to two blocks above one. When a target is
found, new targets are drawn.

This project models that engine as immutable datatypes and pure functions:

- `Common` (common.dfy): the shared vocabulary.
  - Players, colours and materials are opaque identities.
  - `Int32` is Java's 32-bit `int`, with the wrap-around of `++` made explicit.
  - It also holds facts about duplicate-free sequences.
- `Formatting` (formatting.dfy): the title-casing of material names.
- `Teams` (team.dfy): one team, which has a name, a colour, a roster and a score. It models `equals` as well.
- `ScoreDisplay` (scoreboard.dfy): the optional sidebar mirror.
  - It is a two-state handle, gated by the `enabled` flag.
  - It works over the host's scoreboard, seen as a map from objective name to entries.
- `TeamLedger` (team_ledger.dfy): the team manager.
  - It holds the table of teams by name and the map from player to team name.
  - The class invariant `Valid` says that a player is on a team's roster exactly when the map sends them to that team.
- `Blocks` (block_manager.dfy): the block manager.
  - It covers the target count, the pool of candidate kinds, the current targets, the selection of new targets and the credit guard `processingFound`.
  - The random number generator is an oracle: `nextInt(|pool|)` returns `draws[k] % |pool|` at the k-th pick.
- `Plugin` (plugin.dfy): the game state seen by the commands and the listener. It also models senders and which message a command sends.
- `BlockFindListener` (block_find_listener.dfy): the sneak handler. It checks three candidate blocks in order and credits only the first target among them.
- `GameCommand`, `ScoresCommand`, `TeamsCommand`: the three commands, in game_command.dfy, scores_command.dfy and teams_command.dfy.
- `GameTabCompleter`, `TeamsTabCompleter`, `ScoresTabCompleter` (tab_completers.dfy): the tab completers, modelled as pure functions.

An operation that mutates an object becomes a function from the old value to
the new one. A boolean status is returned next to the new value. An exception
becomes an explicit exit value (`Blocks.Exit`, `Plugin.Reply`), and the state
left behind at the throw is the state returned.

Two behaviours of the Java code on its failure paths are modelled as
written:

- Selection with repeat prevention, when the whole enumeration has fewer
  block kinds than the target count:
  - With repeat prevention on, `selectNewTargets` reloads a too-small pool
    instead of throwing its pool-size exception.
  - The drawing loop moves every block kind into the targets. Then it calls
    `nextInt(0)` on the empty pool, which throws.
  - When the enumeration has at least one block kind, the target set is left
    partly filled, and the game reads as running.
  - When it has none, the target set is empty, and the game reads as not
    running (`Blocks.SelectionFromShortCatalogue`).
- The credit guard after a throw:
  - `handleFoundBlock` clears `processingFound` only on its normal exits.
  - A selection that throws inside it leaves the flag set.
  - From then on every find is dropped as a double count
    (`Blocks.InterruptedCreditWedgesGuard`).

## Model

Each source cell gives a file of the repository and the lines the member models.

| member | source | states |
|---|---|---|
| Common.Increment | src/main/java/me/nbernich/blockFinderPlugin/game/Team.java:77-79 | `score++` on a Java `int`: the result is one more modulo 2^32, and exactly one more below the largest `int` |
| Common.RemoveAt | src/main/java/me/nbernich/blockFinderPlugin/game/BlockManager.java:106 | `ArrayList.remove(i)` shortens the list by one, adds nothing, and on a duplicate-free list removes exactly the element at `i` and keeps it duplicate-free |
| Formatting.ToUpper | src/main/java/me/nbernich/blockFinderPlugin/utils/Formatting.java:21 | ASCII lower-case letters map to their upper-case letters, every other character is kept |
| Formatting.ToLower | src/main/java/me/nbernich/blockFinderPlugin/utils/Formatting.java:24 | ASCII upper-case letters map to their lower-case letters, every other character is kept |
| Formatting.TitleScan | src/main/java/me/nbernich/blockFinderPlugin/utils/Formatting.java:14-27 | the left-to-right scan carrying `prevSpace` yields, at every position, the character given by the position-wise rule `TitleChar` |
| Formatting.ToTitleCase | src/main/java/me/nbernich/blockFinderPlugin/utils/Formatting.java:13-28 | length is kept; `_`, `-` and space become a space; a character that starts the string or follows a separator is upper-cased, any other is lower-cased; no `_` or `-` remains |
| Formatting.ToTitleCaseIdempotent | src/main/java/me/nbernich/blockFinderPlugin/utils/Formatting.java:13-28 | title-casing an already title-cased string changes nothing |
| Teams.NewTeam | src/main/java/me/nbernich/blockFinderPlugin/game/Team.java:20-25 | a new team has the given name and colour, score 0 and no members |
| Teams.SameTeam | src/main/java/me/nbernich/blockFinderPlugin/game/Team.java:112-121 | two teams are equal when name and colour agree; roster and score play no part (an equivalence by `Teams.SameTeamIsEquivalence`) |
| Teams.AddPlayer | src/main/java/me/nbernich/blockFinderPlugin/game/Team.java:47-49 | set insertion: the player is a member afterwards, every other player's membership is unchanged, and name, colour and score are kept |
| Teams.RemovePlayer | src/main/java/me/nbernich/blockFinderPlugin/game/Team.java:55-57 | set deletion: the player is not a member afterwards, everyone else is unchanged, and name, colour and score are kept |
| Teams.ClearMembers | src/main/java/me/nbernich/blockFinderPlugin/game/Team.java:70-72 | nobody is a member afterwards, and the score is unchanged |
| Teams.AddPoint | src/main/java/me/nbernich/blockFinderPlugin/game/Team.java:77-79 | the score rises by one modulo 2^32, and the roster is untouched |
| Teams.SetScore | src/main/java/me/nbernich/blockFinderPlugin/game/Team.java:93-95 | the score becomes the argument, whatever its sign, and the roster is untouched |
| Teams.ClearScore | src/main/java/me/nbernich/blockFinderPlugin/game/Team.java:100-102 | the score becomes 0, and the roster is untouched |
| Teams.RosterOpsIdempotent | src/main/java/me/nbernich/blockFinderPlugin/game/Team.java:47-57 | adding or removing the same player twice equals doing it once |
| Teams.AddThenRemove | src/main/java/me/nbernich/blockFinderPlugin/game/Team.java:47-57 | removing a player just added to a roster they were absent from restores the team |
| Teams.SameTeamIsEquivalence | src/main/java/me/nbernich/blockFinderPlugin/game/Team.java:112-121 | `equals` (same name and colour) is reflexive, symmetric and transitive |
| ScoreDisplay.NewDisplay | src/main/java/me/nbernich/blockFinderPlugin/game/ScoreboardDisplayManager.java:26-31 | a new manager holds no objective, and it keeps the configured `enabled` flag and the host's board |
| ScoreDisplay.Start | src/main/java/me/nbernich/blockFinderPlugin/game/ScoreboardDisplayManager.java:37-51 | disabled or already active means no change; otherwise the display is active, its objective is freshly registered and empty (a stale one of that name is dropped), and all other objectives are kept |
| ScoreDisplay.Stop | src/main/java/me/nbernich/blockFinderPlugin/game/ScoreboardDisplayManager.java:57-63 | the display is inactive afterwards; stopping an inactive display changes nothing; an active one has its objective unregistered and the other objectives kept |
| ScoreDisplay.SyncScore | src/main/java/me/nbernich/blockFinderPlugin/game/ScoreboardDisplayManager.java:69-75 | inactive means no change; active means the team's entry shows its score and every other entry and objective is kept |
| ScoreDisplay.SyncTeams | src/main/java/me/nbernich/blockFinderPlugin/game/TeamManager.java:157-160 | syncing a whole table shows every team's score under its name and leaves the entries of other names as they were |
| ScoreDisplay.SyncEach | src/main/java/me/nbernich/blockFinderPlugin/game/TeamManager.java:157-160 | the loop of `syncScore` calls over the teams: an inactive display is untouched, and an active one keeps the other objectives |
| ScoreDisplay.SyncEachWrites | src/main/java/me/nbernich/blockFinderPlugin/game/TeamManager.java:157-160 | syncing the table's teams one by one writes each listed name's table score over the old entries, and nothing else |
| ScoreDisplay.SyncEachIsSyncTeams | src/main/java/me/nbernich/blockFinderPlugin/game/TeamManager.java:168-171 | looping `syncScore` over all teams of the table, in any order, gives the same display as `SyncTeams` |
| ScoreDisplay.StartIdempotent | src/main/java/me/nbernich/blockFinderPlugin/game/ScoreboardDisplayManager.java:37-40 | starting twice equals starting once |
| ScoreDisplay.StopThenStartIsFresh | src/main/java/me/nbernich/blockFinderPlugin/game/ScoreboardDisplayManager.java:41-63 | an enabled display that is stopped and started again shows an empty objective |
| TeamLedger.TeamTable | src/main/java/me/nbernich/blockFinderPlugin/game/TeamManager.java:35-51 | the configured teams whose names hold no space are all in the table, each under its own name, with score 0 and no members; no name with a space is |
| TeamLedger.TeamTableLastWins | src/main/java/me/nbernich/blockFinderPlugin/game/TeamManager.java:36-51 | every team in the table comes from some configured entry, and its colour is that of the last entry of that name |
| TeamLedger.NewLedger | src/main/java/me/nbernich/blockFinderPlugin/game/TeamManager.java:30-52 | the constructor builds a valid ledger: the filtered team table, no memberships, and an idle display with the configured sidebar flag over the host board it was given |
| TeamLedger.TeamNames | src/main/java/me/nbernich/blockFinderPlugin/game/TeamManager.java:105-107 | the names of the configured teams, the keys of the team table |
| TeamLedger.GetPlayerTeam | src/main/java/me/nbernich/blockFinderPlugin/game/TeamManager.java:97-99 | the player's team is found exactly when they are mapped; it is then the table's team and lists them; otherwise no roster lists them |
| TeamLedger.AddPlayer | src/main/java/me/nbernich/blockFinderPlugin/game/TeamManager.java:60-74 | an unknown name returns false and changes nothing; a known name returns true, maps the player to it, puts them on that roster and takes them off every other roster; the invariant is kept |
| TeamLedger.JoinAsTeamless | src/main/java/me/nbernich/blockFinderPlugin/game/TeamManager.java:71-72 | a teamless player joining a team is added to that roster only, and the invariant is kept |
| TeamLedger.RemovePlayer | src/main/java/me/nbernich/blockFinderPlugin/game/TeamManager.java:81-90 | returns true exactly when the player had a team; the player leaves the map and every roster, nothing else changes, and the invariant is kept |
| TeamLedger.AddPoint | src/main/java/me/nbernich/blockFinderPlugin/game/TeamManager.java:127-135 | a teamless player gets false and no change; otherwise only the player's team gains a point (wrapping), and the display shows the new score |
| TeamLedger.SetScore | src/main/java/me/nbernich/blockFinderPlugin/game/TeamManager.java:143-151 | an unknown team gets false and no change; otherwise only that team's score becomes the argument, with no sign check, and the display shows it |
| TeamLedger.ResetScores | src/main/java/me/nbernich/blockFinderPlugin/game/TeamManager.java:156-161 | every score is 0, and rosters, memberships and team identities are kept |
| TeamLedger.ResetTeams | src/main/java/me/nbernich/blockFinderPlugin/game/TeamManager.java:112-120 | table and memberships end up empty; an active display shows 0 for every former team and keeps the entries of other names and the other objectives; an inactive display is untouched |
| TeamLedger.StartScoreboardDisplay | src/main/java/me/nbernich/blockFinderPlugin/game/TeamManager.java:167-172 | teams and memberships are untouched; a disabled display is left as it was; otherwise the display is active, keeps the other objectives, and shows every team's score; a freshly started objective holds exactly the team names, and an already active one keeps its entries of other names |
| TeamLedger.StopScoreboardDisplay | src/main/java/me/nbernich/blockFinderPlugin/game/TeamManager.java:178-180 | teams and memberships are untouched and the enabled flag is kept; an inactive display is left as it was; an active one unregisters only its own objective and ends inactive |
| TeamLedger.JoinTwice | src/main/java/me/nbernich/blockFinderPlugin/game/TeamManager.java:60-74 | joining one team and then another leaves the player mapped to, and on the roster of, the second team only |
| TeamLedger.JoinThenLeave | src/main/java/me/nbernich/blockFinderPlugin/game/TeamManager.java:60-90 | for a teamless player, joining and then leaving restores the ledger exactly |
| TeamLedger.TwoPointsForJoinedTeam | src/main/java/me/nbernich/blockFinderPlugin/game/TeamManager.java:127-135 | a player who joins a team at score 0 and scores twice gives that team 2 points |
| Blocks.ClampTargetCount | src/main/java/me/nbernich/blockFinderPlugin/game/BlockManager.java:40-51 | the count is always in 1..8: below 1 becomes 3, above 8 becomes 8, anything else is kept |
| Blocks.NewBlockManager | src/main/java/me/nbernich/blockFinderPlugin/game/BlockManager.java:35-57 | a new manager is valid, has the clamped count and the configured flags, an empty pool, no targets and the guard clear |
| Blocks.BlockTypesOf | src/main/java/me/nbernich/blockFinderPlugin/game/BlockManager.java:66-70 | the pool holds exactly the block kinds of the enumeration, without repeats |
| Blocks.LoadAllBlockTypes | src/main/java/me/nbernich/blockFinderPlugin/game/BlockManager.java:62-71 | the pool becomes exactly the enumeration's block kinds, whatever it held, and targets and guard are kept |
| Blocks.PoolWithinBlockTypes | src/main/java/me/nbernich/blockFinderPlugin/game/BlockManager.java:62-71 | a pool of distinct block kinds of the enumeration is never longer than the full reload `loadAllBlockTypes` gives |
| Blocks.LoadAllBlockTypesIdempotent | src/main/java/me/nbernich/blockFinderPlugin/game/BlockManager.java:62-71 | loading twice equals loading once |
| Blocks.ClearBlockTypes | src/main/java/me/nbernich/blockFinderPlugin/game/BlockManager.java:76-78 | the pool becomes empty, and targets and guard are kept |
| Blocks.DrawTargets | src/main/java/me/nbernich/blockFinderPlugin/game/BlockManager.java:100-108 | targets only grow, and only with pool kinds; they never exceed the count; a normal end has reached the count; running dry is the `nextInt(0)` throw with an empty pool; without removal the pool is unchanged |
| Blocks.DrawWithoutRepeatsMovesPicks | src/main/java/me/nbernich/blockFinderPlugin/game/BlockManager.java:100-108 | with removal, kinds move from pool to targets: the pool stays duplicate-free, loses exactly the picks, and pool plus targets keep their total size |
| Blocks.DrawWithoutRepeatsCompletes | src/main/java/me/nbernich/blockFinderPlugin/game/BlockManager.java:100-108 | with removal, a large enough pool and one draw per missing target always end normally |
| Blocks.DrawFromShortPoolThrows | src/main/java/me/nbernich/blockFinderPlugin/game/BlockManager.java:100-108 | with removal, a pool too small for the count is taken whole, and the loop then throws at `nextInt(0)` |
| Blocks.DrawWithRepeatsCompletes | src/main/java/me/nbernich/blockFinderPlugin/game/BlockManager.java:100-104 | without removal, the loop ends normally once the oracle's picks are fresh and pairwise distinct |
| Blocks.DrawInto | src/main/java/me/nbernich/blockFinderPlugin/game/BlockManager.java:100-108 | drawing into an empty target set keeps the manager valid, takes targets from the pool, reaches the count on a normal end, and with removal partitions the pool |
| Blocks.SelectNewTargets | src/main/java/me/nbernich/blockFinderPlugin/game/BlockManager.java:84-109 | `IllegalStateException` is thrown exactly when repeats are allowed and the pool is short, leaving no targets; a normal end gives exactly `targetCount` targets from the (reloaded) pool; without prevention the pool is unchanged and `nextInt(0)` is never reached; with it the pool loses exactly the new targets |
| Blocks.SelectionWithoutRepeatsCompletes | src/main/java/me/nbernich/blockFinderPlugin/game/BlockManager.java:89-108 | with prevention, an enumeration with at least `targetCount` block kinds and enough draws, selection ends normally and the pool shrinks by exactly `targetCount` |
| Blocks.SelectionFromShortCatalogue | src/main/java/me/nbernich/blockFinderPlugin/game/BlockManager.java:89-108 | with prevention and too few block kinds in the enumeration, selection throws at `nextInt(0)`, having made every block kind a target, so the game reads as running exactly when the enumeration has a block kind |
| Blocks.SelectionWithRepeatsCompletes | src/main/java/me/nbernich/blockFinderPlugin/game/BlockManager.java:89-108 | without prevention, a pool of at least `targetCount` kinds and oracle picks that are pairwise distinct kinds for the first `targetCount` draws give a normal end with exactly `targetCount` targets and the pool unchanged |
| Blocks.SelectionOfWholePool | src/main/java/me/nbernich/blockFinderPlugin/game/BlockManager.java:100-104 | without prevention, a pool of exactly `targetCount` kinds is taken whole by a completed selection |
| Blocks.ClearTargets | src/main/java/me/nbernich/blockFinderPlugin/game/BlockManager.java:114-116 | afterwards nothing is a target and the game is not running; pool and guard are kept |
| Blocks.HasCurrentTargets | src/main/java/me/nbernich/blockFinderPlugin/game/BlockManager.java:122-124 | the game runs when the target set is non-empty (some target exists, by `Blocks.RunningIffSomeTarget`) |
| Blocks.IsTarget | src/main/java/me/nbernich/blockFinderPlugin/game/BlockManager.java:131-133 | a block kind is a target when it is in the current target set |
| Blocks.RunningIffSomeTarget | src/main/java/me/nbernich/blockFinderPlugin/game/BlockManager.java:122-133 | `hasCurrentTargets` holds exactly when some block kind satisfies `isTarget` |
| Blocks.HandleFoundBlock | src/main/java/me/nbernich/blockFinderPlugin/game/BlockManager.java:140-174 | a set guard means no change and a dropped report; a teamless finder means no change; otherwise the ledger is the one the finder's point gives (that team gains a point, other teams are unchanged, the display shows it), the targets and pool are those of a fresh selection started with the guard set, the credit is interrupted exactly when that selection does not end normally and carries its exit, and the guard is cleared on a normal end but stays set after a throw |
| Blocks.InterruptedCreditWedgesGuard | src/main/java/me/nbernich/blockFinderPlugin/game/BlockManager.java:140-174 | after an interrupted credit (its selection threw, or the draw oracle ran out), every later report is dropped as a double count |
| Plugin.Scores | src/main/java/me/nbernich/blockFinderPlugin/game/TeamManager.java:226-238 | the score listing has one entry per team, and each shows that team's score |
| BlockFindListener.Candidates | src/main/java/me/nbernich/blockFinderPlugin/listeners/BlockFindListener.java:51-56 | the candidates are the player's block, then the one below, then two below |
| BlockFindListener.FirstTarget | src/main/java/me/nbernich/blockFinderPlugin/listeners/BlockFindListener.java:58-63 | nothing is found exactly when no candidate is a target; otherwise the result is a target at some position with no target before it |
| BlockFindListener.OnPlayerToggleSneak | src/main/java/me/nbernich/blockFinderPlugin/listeners/BlockFindListener.java:46-64 | with no targets nothing happens; an event is ignored exactly when no candidate is a target; otherwise exactly one `handleFoundBlock` runs, for the first matching candidate |
| BlockFindListener.OwnBlockFirst | src/main/java/me/nbernich/blockFinderPlugin/listeners/BlockFindListener.java:51-63 | when the player's own block is a target, that block is the one credited |
| BlockFindListener.CreditedIsFirstMatch | src/main/java/me/nbernich/blockFinderPlugin/listeners/BlockFindListener.java:51-63 | a credited block is a target, and every candidate before it in the order is not |
| GameCommand.TargetInfo | src/main/java/me/nbernich/blockFinderPlugin/commands/GameCommand.java:50-67 | the target listing never changes state; it lists targets exactly when the game runs |
| GameCommand.HandleStart | src/main/java/me/nbernich/blockFinderPlugin/commands/GameCommand.java:73-109 | non-operators and a running game are refused with no change; otherwise the ledger is the one `startScoreboardDisplay` leaves and the manager is the one the target selection leaves; the announcement is made exactly when selection ends normally, and then the game runs with `targetCount` targets; otherwise the reply carries the selection's exit |
| GameCommand.HandleStop | src/main/java/me/nbernich/blockFinderPlugin/commands/GameCommand.java:115-143 | non-operators and an idle game are refused with no change; otherwise the manager is the one `clearTargets` leaves, the ledger is the one stopping the display and then resetting the scores leaves, and the announcement carries the scores from before the reset |
| GameCommand.HandleSkip | src/main/java/me/nbernich/blockFinderPlugin/commands/GameCommand.java:149-174 | non-operators and an idle game are refused with no change; otherwise targets are redrawn and the teams are untouched; on a normal end the game still runs with `targetCount` targets, and otherwise the reply carries the selection's exit and no message is sent |
| GameCommand.OnCommand | src/main/java/me/nbernich/blockFinderPlugin/commands/GameCommand.java:29-44 | dispatch on the first argument (none or `targets`, `start`, `stop`, `skip`, `help`, anything else gives usage); the state changes only for an operator's `start`, `stop` or `skip` |
| GameCommand.StartStopStart | src/main/java/me/nbernich/blockFinderPlugin/commands/GameCommand.java:73-143 | a start whose selection ends normally is announced; after it and a stop, the game is idle, every score is 0, and a new start is not refused as already running |
| GameCommand.StopTwice | src/main/java/me/nbernich/blockFinderPlugin/commands/GameCommand.java:115-128 | a second stop is refused as not running and changes nothing |
| GameCommand.NoCreditAfterStop | src/main/java/me/nbernich/blockFinderPlugin/commands/GameCommand.java:130-132 | after a stop, no sneak event credits anything |
| ScoresCommand.OnCommand | src/main/java/me/nbernich/blockFinderPlugin/commands/ScoresCommand.java:29-88 | listing changes nothing; a first argument other than `set` shows usage; a non-operator's `set` is refused before the count check; `set` needs exactly 3 arguments; unparsable, negative and unknown-team requests change nothing; an accepted `set` leaves exactly the ledger that `TeamManager.setScore` leaves, display sync included; and any change is an operator's `set` of a known team to the parsed non-negative score |
| ScoresCommand.ScoresStayNonNegative | src/main/java/me/nbernich/blockFinderPlugin/commands/ScoresCommand.java:67-74 | if every score is non-negative before a score command, it still is afterwards |
| TeamsCommand.HandleJoin | src/main/java/me/nbernich/blockFinderPlugin/commands/TeamsCommand.java:68-92 | a non-player is refused; an unknown team is refused with no change; otherwise the ledger is the one `addPlayer` leaves, so the player is mapped to the team, `getPlayerTeam` then returns that team, and the reply names it |
| TeamsCommand.HandleLeave | src/main/java/me/nbernich/blockFinderPlugin/commands/TeamsCommand.java:98-115 | a non-player or a teamless player is refused with no change; otherwise the ledger is the one `removePlayer` leaves, so the player leaves the map and `getPlayerTeam` returns nothing |
| TeamsCommand.OnCommand | src/main/java/me/nbernich/blockFinderPlugin/commands/TeamsCommand.java:31-49 | none or `list` lists; exactly `leave` leaves; exactly `join <name>` joins; anything else gives usage; only a player's join or leave changes state |
| TeamsCommand.JoinThenLeaveRestores | src/main/java/me/nbernich/blockFinderPlugin/commands/TeamsCommand.java:37-45 | for a teamless player, `join <name>` then `leave` restores the state |
| GameTabCompleter.OnTabComplete | src/main/java/me/nbernich/blockFinderPlugin/tabcompleters/GameTabCompleter.java:25-48 | there are suggestions only for the first argument, starting with `help` and `targets`; a non-operator gets only those; an operator gets a repeat-free list with `stop` then `skip` exactly when running and `start` exactly when idle, and nothing else |
| GameTabCompleter.SuggestionsAreAccepted | src/main/java/me/nbernich/blockFinderPlugin/tabcompleters/GameTabCompleter.java:25-48 | no suggestion, run as the command by the same sender, gets usage, a permission refusal or a game-state refusal |
| TeamsTabCompleter.OnTabComplete | src/main/java/me/nbernich/blockFinderPlugin/tabcompleters/TeamsTabCompleter.java:25-41 | one argument gives `list`, `join`, `leave`; `join` plus one gives the team names; every other input gives nothing |
| TeamsTabCompleter.SuggestedTeamsCanBeJoined | src/main/java/me/nbernich/blockFinderPlugin/tabcompleters/TeamsTabCompleter.java:36-38 | every team name suggested after `join` can be joined by a player |
| ScoresTabCompleter.OnTabComplete | src/main/java/me/nbernich/blockFinderPlugin/tabcompleters/ScoresTabCompleter.java:25-47 | one argument gives `list`, plus `set` exactly for operators; an operator's `set` plus one gives the team names; a non-operator with no argument, and every other input, gets nothing; an operator with no argument at all makes it index past the end |
| ScoresTabCompleter.SuggestedTeamsCanBeScored | src/main/java/me/nbernich/blockFinderPlugin/tabcompleters/ScoresTabCompleter.java:42-44 | every team suggested after an operator's `set` gets its score set by `set <team> <n>` for any parsable `n >= 0` |

## Left out

- Message contents. All `Component` building, colours, usage and help texts are left out: only which message is sent is modelled. This covers `createTargetListMessage`, `createScoresListMessage` (beyond the scores it reports), `createMemberListMessage`, `getPlayerDisplayName` and `createFoundBlockMessage`, including the `showScoresOnFound` variant. Logger calls are left out too.
- Host calls.
  - The main scoreboard is a map from objective name to entries. The objective's display name and `setDisplaySlot(DisplaySlot.SIDEBAR)` are not modelled: where the objective is shown does not change which scores it holds.
  - Block lookup is the three block kinds given to the handler.
  - Broadcasts are reply values.
  - Registering and unregistering the listener in `start`/`stop` is left out: the handler acts whenever targets exist, which is when the listener is registered.
- `Random` and hash iteration order.
  - The random generator is an oracle list of draws. `DrawsExhausted` is an exit of the model only: it means the list ran out while the Java loop would keep drawing.
  - The order of `getTeamNames` is a parameter sequence.
- `Integer.parseInt` is an opaque parameter returning a 32-bit value or nothing. Its grammar is not modelled.
- `Colors.parseColor` and the plugin's enable/disable wiring, configuration loading and command registration (`BlockFinderPlugin`). A team colour arrives as an already parsed opaque value.
- `Character.toUpperCase` and `toLowerCase` beyond ASCII letters. Title-casing of other letters is left unchanged.
- Concurrency. Events arrive one at a time, so `processingFound` is a sequential re-entrancy flag.
- `onCommand` always returns `true`. This constant is not modelled.
- A selection that throws inside a command ends the command with `Interrupted`. The host's reporting of the exception is left out.
- ScoresTabCompleter.OnTabComplete: with no argument at all, an operator's request is modelled as an out-of-bounds result and a non-operator's as no suggestions. Bukkit always passes at least the word being typed, so that case does not arise there.
