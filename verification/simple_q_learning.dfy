/** The earlier all-in-one version: `update` returns nothing and ignores an
    Invalid action, the game ends on a score bound, and the bot explores with a
    fixed, constructor-supplied parameter. The board bookkeeping (win, lose,
    reset) and the Q-table functions are the same code as in the split version
    and are shared with it. */
module SimpleQLearning {
  import opened Vocabulary
  import opened QTable
  import G = GameDefinition
  import QLearningAgent
  import HumanAgent

  /** The game is over once the score reaches this bound in either direction. */
  const ScoreBound: int := 5

  /** Judges the tile the player has just moved onto; a Player tile there aborts. */
  function EvaluateNewPos(g: G.Game): (r: Outcome<G.Game>)
    requires G.InBounds(g)
    ensures r.Panic? <==> g.world[g.playerPos] == Player
  {
    match g.world[g.playerPos]
    case Cheese => Ok(G.WinRun(g))
    case Pit => Ok(G.LoseRun(g))
    case Empty => Ok(g.(world := g.world[g.playerPos := Player]))
    case Player => Panic
  }

  /** The only mutator of this version's game: applies one action, reporting nothing. */
  function Update(g: G.Game, a: Action): (r: Outcome<G.Game>)
    requires G.InBounds(g)
    ensures r == (match G.Update(g, a) case Panic => Panic case Ok(s) => Ok(s.game))
    ensures r.Ok? ==> G.InBounds(r.value) && |r.value.world| == |g.world|
    ensures G.Valid(g) ==> r.Ok? && G.Valid(r.value) && G.SameFixtures(g.world, r.value.world)
  {
    assert G.Valid(g) ==> G.Update(g, a).Ok? && G.Valid(G.Update(g, a).value.game)
                          && G.SameFixtures(g.world, G.Update(g, a).value.game.world) by {
      if G.Valid(g) { G.UpdatePreservesValid(g, a); }
    }
    match a
    case Invalid => Ok(g)
    case Left =>
      if g.playerPos == 0 then Ok(g.(score := -1))
      else EvaluateNewPos(g.(world := g.world[g.playerPos := Empty], playerPos := g.playerPos - 1))
    case Right =>
      if g.playerPos == |g.world| - 1 then Ok(g.(score := -1))
      else EvaluateNewPos(g.(world := g.world[g.playerPos := Empty], playerPos := g.playerPos + 1))
    case Quit => Ok(g.(quit := true))
  }

  /** An edge move only overwrites the score with -1; Invalid changes nothing. */
  lemma EdgeMoveAndInvalid(g: G.Game, a: Action)
    requires G.InBounds(g)
    ensures IsMove(a) && G.AtEdge(g, a) ==> Update(g, a) == Ok(g.(score := -1))
    ensures Update(g, Invalid) == Ok(g)
  {
  }

  /** Score-bound termination policy: play goes on while the game is not quit
      and the score lies strictly between the two bounds. */
  function GameOver(g: G.Game): (over: bool)
    ensures !over <==> !g.quit && -ScoreBound < g.score < ScoreBound
  {
    g.quit || g.score <= -ScoreBound || g.score >= ScoreBound
  }

  /** An edge move sets the score to -1, strictly inside the bounds, so it can
      never end the game and even revives a game whose score had hit a bound. */
  lemma EdgeMoveNeverEndsGame(g: G.Game, a: Action)
    requires G.InBounds(g) && IsMove(a) && G.AtEdge(g, a)
    ensures GameOver(Update(g, a).value) <==> g.quit
  {
  }

  /** A concrete game that is over on the score bound and is no longer over
      after an edge move: unlike the run-limit policy, this one is not permanent.
      This is a property of the policy, not a reachable trace of the driver: a
      win puts the player back on cell 5, and the driver stops once the game is over. */
  lemma ScoreBoundIsNotPermanent()
    ensures var g := G.Game(G.MainBoard[0 := Player], ScoreBound, 3, 0, G.StartingPos, false);
      && G.Valid(g) && GameOver(g)
      && !GameOver(Update(g, Left).value)
  {
  }

  /** AgentFactory::bot: a table of one row per board cell and one column per
      action, filled with random draws, and the given fixed exploration parameter. */
  function FactoryBot(learningRate: real, discountFactor: real, explorationParam: real, g: G.Game, draws: seq<real>)
    : (b: QLearningAgent.Bot)
    requires |draws| == |ActionList| * |g.world|
    ensures Shaped(b.qTable, |g.world|) && Flatten(b.qTable) == draws
    ensures b.learningRate == learningRate && b.discountFactor == discountFactor
    ensures b.explorationParam == QLearningAgent.Finite(explorationParam)
  {
    var zeros := ZeroTable(|g.world|);
    FlattenLength(zeros, |g.world|);
    QLearningAgent.Bot(Overwrite(zeros, draws), discountFactor, learningRate, QLearningAgent.Finite(explorationParam))
  }

  /** One step of this version's bot and the action it applied. */
  datatype Turn = Turn(bot: QLearningAgent.Bot, game: G.Game, action: Action)

  /** Chooses an action by comparing the roll with the bot's own exploration
      parameter, applies it, and learns from the score delta and the position
      after the update. */
  function Act(b: QLearningAgent.Bot, g: G.Game, roll: real, randomIndex: nat): (r: Outcome<Turn>)
    requires QLearningAgent.Fits(b, g) && randomIndex < |ActionList|
    ensures G.Valid(g) ==> r.Ok? && G.Valid(r.value.game)
    ensures r.Ok? ==> Update(g, r.value.action) == Ok(r.value.game)
    ensures r.Ok? ==> |r.value.game.world| == |g.world|
    ensures r.Ok? ==> QLearningAgent.Fits(r.value.bot, r.value.game) && IsMove(r.value.action)
    ensures r.Ok? ==> r.value.game.quit == g.quit
    ensures r.Ok? ==> r.value.bot == b.(qTable := r.value.bot.qTable)
    ensures r.Ok? && QLearningAgent.Explores(roll, b.explorationParam) ==> r.value.action == ActionList[randomIndex]
    ensures r.Ok? && !QLearningAgent.Explores(roll, b.explorationParam) ==> r.value.action == MaxQAction(b.qTable[g.playerPos]).0
    ensures r.Ok? ==>
      var id := ActionId(r.value.action);
      var t := r.value.bot.qTable;
      && (forall i, j :: 0 <= i < |t| && 0 <= j < |t[i]| && (i != g.playerPos || j != id) ==> t[i][j] == b.qTable[i][j])
      && t[g.playerPos][id] ==
         Mix(b.learningRate, b.qTable[g.playerPos][id],
             TdTarget((r.value.game.score - g.score) as real, b.discountFactor, b.qTable[r.value.game.playerPos]))
  {
    var a := QLearningAgent.ChooseAction(b.qTable, g.playerPos, QLearningAgent.Explores(roll, b.explorationParam), randomIndex);
    match Update(g, a)
    case Panic => Panic
    case Ok(next) =>
      var reward := (next.score - g.score) as real;
      Ok(Turn(b.(qTable := UpdateQTable(b.qTable, g.playerPos, next.playerPos, a, reward, b.learningRate, b.discountFactor)), next, a))
  }

  /** The bot's exploration parameter is fixed: after a step it still
      explores exactly on the rolls below it. */
  lemma ExplorationParamIsFixed(b: QLearningAgent.Bot, g: G.Game, roll: real, randomIndex: nat, nextRoll: real)
    requires QLearningAgent.Fits(b, g) && randomIndex < |ActionList| && Act(b, g, roll, randomIndex).Ok?
    ensures var b' := Act(b, g, roll, randomIndex).value.bot;
      b'.explorationParam == b.explorationParam &&
      (QLearningAgent.Explores(nextRoll, b'.explorationParam) <==> QLearningAgent.Explores(nextRoll, b.explorationParam))
  {
  }

  /** What a human turn of this version did. */
  datatype HumanTurn = AwaitingInput | Applied(action: Action, consumed: nat, outcome: Outcome<G.Game>)

  /** A human turn of this version: the update only ever sees Left, Right or Quit. */
  method HumanAct(g: G.Game, lines: seq<string>) returns (t: HumanTurn)
    requires G.InBounds(g)
    ensures t.AwaitingInput? <==> forall i :: 0 <= i < |lines| ==> HumanAgent.GetAction(lines[i]) == Invalid
    ensures t.Applied? ==>
      && t.action != Invalid
      && 0 < t.consumed <= |lines| && t.action == HumanAgent.GetAction(lines[t.consumed - 1])
      && (forall i :: 0 <= i < t.consumed - 1 ==> HumanAgent.GetAction(lines[i]) == Invalid)
      && t.outcome == Update(g, t.action)
  {
    var p := HumanAgent.ReadAction(lines);
    if p.Pending? {
      return AwaitingInput;
    }
    return Applied(p.action, p.consumed, Update(g, p.action));
  }
}
