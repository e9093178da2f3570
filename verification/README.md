# Walk-to-the-cheese game and its Q-learning bot, in Dafny

A model of the core of a small reinforcement-learning playground. The game is a
one-dimensional board of tiles (Empty, Player, Pit, Cheese). The player starts
on cell 5 and moves Left or Right. Reaching the Cheese wins a run and falling
into the Pit loses one; both put the player back on cell 5. Moving off either
end of the board is rejected: the score is overwritten with -1, no run is
counted and the board is not reset. A tabular Q-learning bot plays the game
epsilon-greedily and updates one table cell per step with the
temporal-difference rule. A human player types one line per move.

The repository holds two versions of this code, and both are modelled:

- the split version (`game_definition.rs`, `q_learning_agent.rs`,
  `human_agent.rs`): `update` reports a `MoveResult`, Invalid input reports a
  Loss without changing anything, the game ends once more than 20 runs are
  completed, and the bot's exploration threshold is `1/runs`;
- the earlier all-in-one version (`simple_q_learning.rs`): `update` reports
  nothing and ignores Invalid input, the game ends when the score reaches +5 or
  -5, and the bot explores with a fixed parameter given at construction.

Modules, one per source component:

- `Vocabulary` (`vocabulary.dfy`): the tile, action and move-result
  enumerations. It also holds `Outcome`, whose `Panic` case stands for the
  process aborting.
- `GameDefinition` (`game_definition.dfy`): the game record, `New`, `Update`,
  `EvaluateNewPos`, `WinRun`, `LoseRun`, `Reset` and the run-limit `GameOver`.
  It also holds the invariant `Valid`: the player is on the board, the only
  Player tile is at the player's position, and the starting cell holds Player
  or Empty. Under `Valid` the `panic!` arm of `evaluate_new_pos` cannot be
  reached.
- `QTable` (`q_table.dfy`): the action list, `get_action_id`, the greedy scan
  with its 0.0 baseline and strict comparison, and the temporal-difference
  update. It also models table construction and random initialisation. Both
  versions contain this same code.
- `QLearningAgent` (`q_learning_agent.dfy`): the bot,
  its constructor, the `1/runs` exploration threshold and `act`.
- `HumanAgent` (`human_agent.dfy`): the line classifier and the re-prompt
  loop.
- `SimpleQLearning` (`simple_q_learning.dfy`): the earlier version's `update`,
  `evaluate_new_pos`, score-bound `game_over`, `AgentFactory::bot`, and the
  bot's and the human's `act`. It reuses `win`, `lose` and `reset` and the
  Q-table functions, because their code is the same in both versions. It also
  proves that its `update` changes the game exactly as the split version's
  `update` does.

Randomness is passed in. The exploration roll and the random action index are
parameters of `act`. The table's initial values are a sequence of draws,
consumed row after row. Q-values, the learning rate and the discount factor
are `real`s. The threshold `1/runs` is `Unbounded` when `runs` is 0. Because a
roll is always below 1, the bot also explores on every step while `runs` is 1.
Human input is a given sequence of lines.

A walk of six Left moves from the start of the driver's board (Pit at 0,
Cheese at 14) never reaches the board's edge. The fifth move lands on the Pit,
and the game resets to cell 5. So the sixth move just walks to cell 4
(`FiveLeftsReachPit`). The edge rejection is shown on the same board with the
Pit removed (`SixthLeftLeavesBoard`).

## Model

| member | source | states |
|---|---|---|
| GameDefinition.New | src/q_learning/game_definition.rs:41-52 | the new game has score 0, runs 0, quit false, player and starting cell 5; it changes only cell 5, to Player; it satisfies the invariant iff the board has no other Player tile |
| GameDefinition.Reset | src/q_learning/game_definition.rs:140-143 | after a reset the only Player tile is at the player's position iff the board had no Player tile off the starting cell; the player is on the starting cell, which now holds Player; every other cell, the score, runs and quit are kept |
| GameDefinition.WinRun | src/q_learning/game_definition.rs:126-131 | a win adds 1 to score and runs and puts the player back on the starting cell, which now holds Player; every other cell and quit are kept |
| GameDefinition.LoseRun | src/q_learning/game_definition.rs:133-138 | a loss subtracts 1 from the score, adds 1 to runs and puts the player back on the starting cell, which now holds Player; every other cell and quit are kept |
| GameDefinition.EvaluateNewPos | src/q_learning/game_definition.rs:89-107 | aborts exactly when the destination holds a Player tile; otherwise the result stays on the board and keeps its length |
| GameDefinition.Update | src/q_learning/game_definition.rs:54-87 | the result stays on the board with the same length and starting cell; runs grow by at most 1; quit is set iff it was set or the action is Quit; the result is Quit iff the action is Quit; a panic needs a move onto a Player tile |
| GameDefinition.UpdatePreservesValid | src/q_learning/game_definition.rs:54-107 | from a valid game every action succeeds; the result is valid; Pit and Cheese tiles stay on exactly the same cells |
| GameDefinition.EdgeMoveOverwritesScore | src/q_learning/game_definition.rs:60-76 | Left from cell 0 or Right from the last cell reports Loss and overwrites the score with -1; nothing else changes |
| GameDefinition.MoveOntoPlayerPanics | src/q_learning/game_definition.rs:103-105 | a move that stays on the board onto a cell holding a Player tile aborts; with Update's contract, a move aborts iff it lands on a Player tile |
| GameDefinition.EmptyLanding | src/q_learning/game_definition.rs:99-102 | a move onto Empty reports NextRound; the old cell becomes Empty, the new one Player, and the position shifts by one; score and runs stay |
| GameDefinition.CheeseLanding | src/q_learning/game_definition.rs:91-94 | a move onto Cheese reports Win; score +1, runs +1, the player is back on the starting cell, and the Cheese tile stays |
| GameDefinition.PitLanding | src/q_learning/game_definition.rs:95-98 | a move onto the Pit reports Loss; score -1, runs +1, the player is back on the starting cell, and the Pit tile stays |
| GameDefinition.QuitAndInvalid | src/q_learning/game_definition.rs:55-86 | Quit only sets the quit flag and reports Quit; Invalid reports Loss and changes nothing |
| GameDefinition.ResetIdempotent | src/q_learning/game_definition.rs:140-143 | resetting twice equals resetting once |
| GameDefinition.GameOver | src/q_learning/game_definition.rs:122-124 | play goes on exactly while the game is not quit and at most 20 runs are complete |
| GameDefinition.Vacate | src/q_learning/game_definition.rs:66-78 | a move that stays on the board first empties the player's cell and moves the position one cell over, leaving every other cell as it was |
| GameDefinition.GameOverIsPermanent | src/q_learning/game_definition.rs:122-124 | under the run-limit policy, a finished game stays finished after any update |
| GameDefinition.RunLimitReached | src/q_learning/game_definition.rs:122-124 | with 20 runs done and no quit the game is not over, and the next completed run ends it |
| GameDefinition.Replay | src/q_learning/game_definition.rs:54-107 | applying a list of actions in order yields one step per action, the first being the update of the initial game by the first action; from a valid game none aborts and every game is valid |
| GameDefinition.ReplayFollowsActions | src/q_learning/game_definition.rs:54-107 | a replay is the trace of its actions: step k is exactly the update, by action k, of the game the previous step left (the initial game for step 0), and every game in it is on its board |
| GameDefinition.WalkOverEmpty | src/q_learning/game_definition.rs:66-79 | repeating a move across n Empty cells reports NextRound n times with positions p±1, …, p±n |
| GameDefinition.WalkEnd | src/q_learning/game_definition.rs:66-79 | after such a walk the start cell is Empty, the end cell holds the Player tile, and nothing else about the game has changed |
| GameDefinition.MainBoardIsDriverBoard | src/bin/main.rs:6-8 | the driver's board has 16 cells, the Pit on cell 0, the Cheese on cell 14 and Empty everywhere else |
| GameDefinition.EightRightsWalk | src/q_learning/game_definition.rs:66-79 | on the driver's board eight Rights from the start report NextRound at 6..13; only cell 13 gains the Player tile and cell 5 is Empty again |
| GameDefinition.NineRightsReachCheese | src/bin/main.rs:6-11 | on any board shaped like the driver's (16 cells, Pit 0, Cheese 14), eight Rights visit 6..13 and the ninth wins: score 1, runs 1, back on 5 |
| GameDefinition.FourLeftsWalk | src/q_learning/game_definition.rs:66-79 | on the driver's board four Lefts from the start report NextRound at 4..1; the player ends on cell 1 |
| GameDefinition.FiveLeftsReachPit | src/bin/main.rs:6-11 | on the same board four Lefts visit 4..1; the fifth falls into the Pit (score -1, runs 1, back on 5); a sixth walks to 4 |
| GameDefinition.FiveLeftsWalkWithoutPit | src/q_learning/game_definition.rs:66-79 | with the Pit replaced by Empty, five Lefts from the start leave the player on cell 0 |
| GameDefinition.SixthLeftLeavesBoard | src/q_learning/game_definition.rs:60-65 | without the Pit, five Lefts reach cell 0; the sixth reports Loss with score -1, runs still 0, and the player stays on 0 |
| QTable.ActionId | src/q_learning/q_learning_agent.rs:64-66 | a moving action's column is its position in the action list [Left, Right] |
| QTable.ActionListIsMoves | src/q_learning/q_learning_agent.rs:17 | every listed action is a move, and its column is its index |
| QTable.Scan | src/q_learning/q_learning_agent.rs:41-47 | the scan's value is at least the starting value and every scanned entry; the scan either keeps its start or returns the first index whose value is strictly above the start and above all earlier entries |
| QTable.MaxQAction | src/q_learning/q_learning_agent.rs:40-49 | the value is ≥ 0 and ≥ every entry, and is 0 or an entry; the action is Right iff the row is full and its second entry is > 0 and > the first |
| QTable.GreedyOnFullRow | src/q_learning/q_learning_agent.rs:40-49 | on a row of two, the value is max(0, Q[0], Q[1]); the action is Left iff Q[1] ≤ max(0, Q[0]); an all-non-positive row gives (Left, 0) |
| QTable.MixBetween | src/q_learning/q_learning_agent.rs:60 | for a learning rate in [0, 1] the blend lies between the old value and the target inclusive |
| QTable.UpdateQTable | src/q_learning/q_learning_agent.rs:55-62 | row lengths are kept; every cell other than (old position, column of the action) is unchanged; that cell becomes the blend of its old value and reward + γ·(greedy value of the new position's row, read before the write) |
| QTable.UpdateIsConvex | src/q_learning/q_learning_agent.rs:55-62 | for α in [0, 1] the updated cell lies between its old value and the target; α = 1 gives the target and α = 0 keeps the old value |
| QTable.ZeroTable | src/q_learning/q_learning_agent.rs:20 | n rows, each with one 0.0 per action |
| QTable.Overwrite | src/q_learning/q_learning_agent.rs:32-38 | row lengths are kept, and the entries read row after row are exactly the draws |
| QTable.OverwriteInUnitInterval | src/q_learning/q_learning_agent.rs:32-38 | draws in [0, 1) give a table whose entries are all in [0, 1) |
| QLearningAgent.New | src/q_learning/q_learning_agent.rs:19-28 | the table has one row of two zeros per board cell; the rates are as given; the exploration parameter is 1 |
| QLearningAgent.InitializeQTable | src/q_learning/q_learning_agent.rs:32-38 | only the table changes; its shape is kept and every entry is overwritten by the draws in row order |
| QLearningAgent.ExplorationThreshold | src/q_learning/q_learning_agent.rs:75 | the threshold is unbounded iff runs = 0; otherwise it is the positive value v with v·runs = 1 |
| QLearningAgent.Explores | src/q_learning/q_learning_agent.rs:77 | an unbounded threshold always explores; a finite one explores exactly on rolls strictly below it |
| QLearningAgent.ChooseAction | src/q_learning/q_learning_agent.rs:77-83 | the chosen action is always Left or Right: the listed random one when exploring, the greedy one otherwise |
| QLearningAgent.Act | src/q_learning/q_learning_agent.rs:70-89 | the returned game and result are exactly what update gives for the chosen action; from a valid game the step succeeds and stays valid; the action is a move; the game is never quit; the roll decides explore vs greedy; only cell (old position, action) changes, to the blend with target (score after − score before) + γ·greedy value at the position after the update |
| QLearningAgent.EarlyRunsAlwaysExplore | src/q_learning/q_learning_agent.rs:75-79 | with 0 or 1 completed runs every roll below 1 explores |
| QLearningAgent.HighRollExploits | src/q_learning/q_learning_agent.rs:75-83 | with runs ≥ 1 a roll ≥ 1/runs takes the greedy action |
| QLearningAgent.BotNeverQuits | src/q_learning/q_learning_agent.rs:77-86 | a bot step on a valid, running game never sets quit, so only the run limit ends it |
| QLearningAgent.EdgeStepReward | src/q_learning/q_learning_agent.rs:84-88 | an edge move teaches the reward −1 − old score (the real change of the score field), bootstrapped from the unchanged position |
| QLearningAgent.CompletedRunBootstrapsFromStart | src/q_learning/q_learning_agent.rs:84-88 | a step whose chosen move lands on the Pit or the Cheese completes a run (runs +1), reports Win (score +1) or Loss and puts the player on the starting cell; the bootstrap reads the starting cell's row |
| HumanAgent.GetAction | src/q_learning/human_agent.rs:7-27 | Left iff the line starts with a or A, Right iff d or D, Quit iff q or Q; the empty line is Invalid |
| HumanAgent.FirstCharDecides | src/q_learning/human_agent.rs:13-21 | a line classifies as its first character does; appending text changes nothing |
| HumanAgent.ClassifierExamples | src/q_learning/human_agent.rs:12-21 | "A", "abc" and "a\n" give Left; "D" gives Right; "q\n" gives Quit; "", "\n" and "x" give Invalid |
| HumanAgent.ReadAction | src/q_learning/human_agent.rs:33-37 | the loop returns the first line that is not Invalid, with all earlier lines Invalid; it keeps waiting iff every line is Invalid |
| HumanAgent.Act | src/q_learning/human_agent.rs:31-39 | the human turn updates the game only with the first valid line's action, never with Invalid |
| SimpleQLearning.EvaluateNewPos | src/q_learning/simple_q_learning.rs:72-87 | aborts exactly when the destination holds a Player tile |
| SimpleQLearning.Update | src/q_learning/simple_q_learning.rs:44-70 | changes the game exactly as the split version's update does; the invariant holds and Pit and Cheese cells stay |
| SimpleQLearning.EdgeMoveAndInvalid | src/q_learning/simple_q_learning.rs:46-60 | an edge move only sets the score to -1; Invalid changes nothing |
| SimpleQLearning.GameOver | src/q_learning/simple_q_learning.rs:89-91 | play goes on exactly while the game is not quit and the score lies strictly between -5 and 5 |
| SimpleQLearning.EdgeMoveNeverEndsGame | src/q_learning/simple_q_learning.rs:89-91 | after an edge move the score-bound game is over iff it was quit |
| SimpleQLearning.ScoreBoundIsNotPermanent | src/q_learning/simple_q_learning.rs:89-91 | one concrete valid game, not quit, over on score +5, is no longer over after an edge move |
| SimpleQLearning.FactoryBot | src/q_learning/simple_q_learning.rs:248-259 | the table has one row of two entries per board cell, filled by the draws in order; the exploration parameter is as given |
| SimpleQLearning.Act | src/q_learning/simple_q_learning.rs:223-239 | the returned game is exactly what update gives for the chosen action; the roll is compared with the bot's own fixed parameter; only the table changes; the learning rule is the split version's |
| SimpleQLearning.ExplorationParamIsFixed | src/q_learning/simple_q_learning.rs:225-232 | a step leaves the exploration parameter unchanged, so later rolls explore exactly as before |
| SimpleQLearning.HumanAct | src/q_learning/simple_q_learning.rs:167-177 | the human turn calls update only with the first valid line's action, never Invalid |

## Left out

- Rendering: `print_state`, the win/loss banners, the prompt text and the periodic Q-table dump are presentation only. The dump prints column 0 twice, but that has no effect on the game or the learning.
- The 200 ms `thread::sleep` before each bot step is pacing only.
- Reading stdin is not modelled. The input is a given sequence of lines. The panic on a read error is not modelled. At end of input `read_line` yields the empty line, which is Invalid, so the real loop spins for ever; the model reports `Pending`/`AwaitingInput` instead.
- Lower-casing is ASCII only. Rust's `to_lowercase` is Unicode-aware and can change non-ASCII first characters.
- `ThreadRng` is not modelled. The roll, the random action index and the initial draws are parameters. That they lie in [0, 1) or {0, 1} comes from the rand library and is a premise of the lemmas that need it.
- `f32` arithmetic is modelled as `real` arithmetic, so rounding is ignored, and the infinite `1.0 / 0.0` becomes `Unbounded`.
- Integer widths: `score: i32` and `runs: u32` are unbounded `int` and `nat`, so overflow is not modelled.
- Index panics are preconditions, not modelled error paths: `Game::new` on a board of 5 cells or fewer, and Q-table rows of the wrong shape. Every game built by `New` and every table built by the constructors meets these preconditions.
- `get_action_id`'s `.expect("Must be a real action")` panic (q_learning_agent.rs:65, simple_q_learning.rs:219) is the precondition `IsMove(a)` of `QTable.ActionId`, not a modelled error path. Both `Act` functions only pass it actions chosen from the action list, so they prove the panic unreachable.
- The `_ => panic!("Unhandled action")` arm of the earlier `update` cannot be reached, because the match over actions is already exhaustive.
- The `Agent` trait, its dynamic dispatch, the `agent_factory` wiring in `agent.rs` (`new` followed by `initialize_q_table`), `mod.rs`, the `main.rs` driver loop and the `test()` function are not modelled. Each agent's `act` is a separate function here. Only the driver's board is used, as a concrete witness.
