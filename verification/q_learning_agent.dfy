/** The learning bot of the split version: epsilon-greedy over the Q-table with
    exploration threshold 1/runs, and one temporal-difference update per step.
    The random source is replaced by its draws, passed in as parameters. */
module QLearningAgent {
  import opened Vocabulary
  import opened GameDefinition
  import opened QTable

  /** An exploration threshold; 1/runs is unbounded while no run has completed. */
  datatype Threshold = Unbounded | Finite(value: real)

  datatype Bot = Bot(qTable: Table, discountFactor: real, learningRate: real, explorationParam: Threshold)

  /** A bot whose table fits the board of `g`, on a game whose indices are on the board. */
  predicate Fits(b: Bot, g: Game)
  {
    Shaped(b.qTable, |g.world|) && InBounds(g)
  }

  /** A fresh bot: one row of zeros per board cell and exploration parameter 1. */
  function New(learningRate: real, discountFactor: real, g: Game): (b: Bot)
    ensures Shaped(b.qTable, |g.world|)
    ensures forall i, j :: 0 <= i < |b.qTable| && 0 <= j < |b.qTable[i]| ==> b.qTable[i][j] == 0.0
    ensures b.learningRate == learningRate && b.discountFactor == discountFactor
    ensures b.explorationParam == Finite(1.0)
  {
    Bot(ZeroTable(|g.world|), discountFactor, learningRate, Finite(1.0))
  }

  /** Fills the table with random draws, consumed row after row. */
  function InitializeQTable(b: Bot, draws: seq<real>): (r: Bot)
    requires |draws| == |Flatten(b.qTable)|
    ensures |r.qTable| == |b.qTable| && forall i :: 0 <= i < |b.qTable| ==> |r.qTable[i]| == |b.qTable[i]|
    ensures Flatten(r.qTable) == draws
    ensures r.(qTable := b.qTable) == b
  {
    b.(qTable := Overwrite(b.qTable, draws))
  }

  /** The exploration threshold 1/runs, unbounded before the first completed run. */
  function ExplorationThreshold(runs: nat): (t: Threshold)
    ensures t.Unbounded? <==> runs == 0
    ensures t.Finite? ==> t.value > 0.0 && t.value * (runs as real) == 1.0
  {
    if runs == 0 then Unbounded else Finite(1.0 / runs as real)
  }

  /** A roll below the threshold means a random action. */
  function Explores(roll: real, t: Threshold): (e: bool)
    ensures t.Unbounded? ==> e
    ensures t.Finite? ==> (e <==> roll < t.value)
  {
    t.Unbounded? || roll < t.value
  }

  /** The random action when exploring, the greedy one otherwise. */
  function ChooseAction(t: Table, pos: nat, explore: bool, randomIndex: nat): (a: Action)
    requires pos < |t| && |t[pos]| <= |ActionList| && randomIndex < |ActionList|
    ensures IsMove(a)
    ensures explore ==> a == ActionList[randomIndex]
    ensures !explore ==> a == MaxQAction(t[pos]).0
  {
    if explore then ActionList[randomIndex] else MaxQAction(t[pos]).0
  }

  /** One step of the bot and what it did. */
  datatype Turn = Turn(bot: Bot, game: Game, action: Action, result: MoveResult)

  /** Chooses an action from the roll, applies it to the game, and learns from
      the score delta and the position after the update. */
  function Act(b: Bot, g: Game, roll: real, randomIndex: nat): (r: Outcome<Turn>)
    requires Fits(b, g) && randomIndex < |ActionList|
    ensures Valid(g) ==> r.Ok? && Valid(r.value.game)
    ensures r.Ok? ==> Update(g, r.value.action) == Ok(Step(r.value.game, r.value.result))
    ensures r.Ok? ==> Fits(r.value.bot, r.value.game) && |r.value.game.world| == |g.world|
    ensures r.Ok? ==> IsMove(r.value.action) && r.value.result != MoveResult.Quit && r.value.game.quit == g.quit
    ensures r.Ok? ==> r.value.bot.explorationParam == ExplorationThreshold(g.runs)
    ensures r.Ok? ==> r.value.bot.learningRate == b.learningRate && r.value.bot.discountFactor == b.discountFactor
    ensures r.Ok? && Explores(roll, ExplorationThreshold(g.runs)) ==> r.value.action == ActionList[randomIndex]
    ensures r.Ok? && !Explores(roll, ExplorationThreshold(g.runs)) ==> r.value.action == MaxQAction(b.qTable[g.playerPos]).0
    ensures r.Ok? ==>
      var id := ActionId(r.value.action);
      var t := r.value.bot.qTable;
      && (forall i, j :: 0 <= i < |t| && 0 <= j < |t[i]| && (i != g.playerPos || j != id) ==> t[i][j] == b.qTable[i][j])
      && t[g.playerPos][id] ==
         Mix(b.learningRate, b.qTable[g.playerPos][id],
             TdTarget((r.value.game.score - g.score) as real, b.discountFactor, b.qTable[r.value.game.playerPos]))
  {
    var threshold := ExplorationThreshold(g.runs);
    var a := ChooseAction(b.qTable, g.playerPos, Explores(roll, threshold), randomIndex);
    assert Valid(g) ==> Update(g, a).Ok? && Valid(Update(g, a).value.game) by {
      if Valid(g) { UpdatePreservesValid(g, a); }
    }
    match Update(g, a)
    case Panic => Panic
    case Ok(step) =>
      var reward := (step.game.score - g.score) as real;
      var table := UpdateQTable(b.qTable, g.playerPos, step.game.playerPos, a, reward, b.learningRate, b.discountFactor);
      Ok(Turn(b.(qTable := table, explorationParam := threshold), step.game, a, step.result))
  }

  /** While at most one run has completed the bot always explores: the threshold
      is unbounded at 0 runs and 1 at 1 run, above every roll in [0, 1). */
  lemma EarlyRunsAlwaysExplore(runs: nat, roll: real)
    requires runs <= 1 && roll < 1.0
    ensures Explores(roll, ExplorationThreshold(runs))
  {
  }

  /** From the second run on, a roll at or above 1/runs exploits. */
  lemma HighRollExploits(runs: nat, roll: real)
    requires runs >= 1 && roll >= 1.0 / runs as real
    ensures !Explores(roll, ExplorationThreshold(runs))
  {
  }

  /** A bot step never quits the game, so only the run limit can end a bot's game. */
  lemma BotNeverQuits(b: Bot, g: Game, roll: real, randomIndex: nat)
    requires Fits(b, g) && randomIndex < |ActionList| && Valid(g) && !g.quit
    ensures Act(b, g, roll, randomIndex).Ok?
    ensures !Act(b, g, roll, randomIndex).value.game.quit
    ensures GameOver(Act(b, g, roll, randomIndex).value.game) <==> Act(b, g, roll, randomIndex).value.game.runs > RunLimit
  {
  }

  /** A step off the board teaches the bot the reward -1 - score, the actual
      change of the score field, bootstrapped from the unchanged position. */
  lemma EdgeStepReward(b: Bot, g: Game, roll: real, randomIndex: nat)
    requires Fits(b, g) && randomIndex < |ActionList|
    requires AtEdge(g, ChooseAction(b.qTable, g.playerPos, Explores(roll, ExplorationThreshold(g.runs)), randomIndex))
    ensures Act(b, g, roll, randomIndex).Ok?
    ensures var r := Act(b, g, roll, randomIndex).value;
      var id := ActionId(r.action);
      && r.result == Loss && r.game.playerPos == g.playerPos && r.game.runs == g.runs
      && r.bot.qTable[g.playerPos][id] ==
         Mix(b.learningRate, b.qTable[g.playerPos][id], TdTarget(-1.0 - g.score as real, b.discountFactor, b.qTable[g.playerPos]))
  {
    EdgeMoveOverwritesScore(g, ChooseAction(b.qTable, g.playerPos, Explores(roll, ExplorationThreshold(g.runs)), randomIndex));
  }

  /** After a step that completes a run, by landing on the Pit or the Cheese,
      the bootstrap reads the starting cell's row: the board has already been
      reset, so there is no terminal state. */
  lemma CompletedRunBootstrapsFromStart(b: Bot, g: Game, roll: real, randomIndex: nat)
    requires Fits(b, g) && randomIndex < |ActionList| && Valid(g)
    requires var a := ChooseAction(b.qTable, g.playerPos, Explores(roll, ExplorationThreshold(g.runs)), randomIndex);
      !AtEdge(g, a) && (g.world[Target(g, a)] == Pit || g.world[Target(g, a)] == Cheese)
    ensures var r := Act(b, g, roll, randomIndex).value;
      var id := ActionId(r.action);
      && (r.result == MoveResult.Win || r.result == Loss)
      && r.game.runs == g.runs + 1
      && r.game.playerPos == g.startingPos
      && (r.result == MoveResult.Win <==> r.game.score == g.score + 1)
      && r.bot.qTable[g.playerPos][id] ==
         Mix(b.learningRate, b.qTable[g.playerPos][id],
             TdTarget((r.game.score - g.score) as real, b.discountFactor, b.qTable[g.startingPos]))
  {
    var a := ChooseAction(b.qTable, g.playerPos, Explores(roll, ExplorationThreshold(g.runs)), randomIndex);
    if g.world[Target(g, a)] == Cheese {
      CheeseLanding(g, a);
    } else {
      PitLanding(g, a);
    }
  }
}
