/** The game state machine of the split version: `update` reports a MoveResult
    and the game ends after a fixed number of completed runs. */
module GameDefinition {
  import opened Vocabulary

  /** The cell the player starts on and is put back on after every run. */
  const StartingPos: nat := 5

  /** `game_over` holds once more than this many runs are completed. */
  const RunLimit: nat := 20

  datatype Game = Game(
    world: seq<Tile>,
    score: int,
    runs: nat,
    playerPos: nat,
    startingPos: nat,
    quit: bool)

  /** A game after one update together with what the update reported. */
  datatype Step = Step(game: Game, result: MoveResult)

  /** Both indices the game uses to index its board are on the board. */
  predicate InBounds(g: Game)
  {
    g.playerPos < |g.world| && g.startingPos < |g.world|
  }

  /** `w` holds exactly one Player tile, at index `p`. */
  predicate OnlyPlayerAt(w: seq<Tile>, p: nat)
  {
    p < |w| && w[p] == Player &&
    forall i :: 0 <= i < |w| && w[i] == Player ==> i == p
  }

  /** The invariant of every game built by New from a board without stray Player tiles. */
  predicate Valid(g: Game)
  {
    InBounds(g) &&
    OnlyPlayerAt(g.world, g.playerPos) &&
    (g.world[g.startingPos] == Player || g.world[g.startingPos] == Empty)
  }

  /** Same length, and the Pit and Cheese tiles sit on exactly the same cells. */
  predicate SameFixtures(w: seq<Tile>, w': seq<Tile>)
  {
    |w| == |w'| &&
    forall i :: 0 <= i < |w| ==> (w[i] == Pit <==> w'[i] == Pit) && (w[i] == Cheese <==> w'[i] == Cheese)
  }

  /** Builds a game on `world`, marking the starting cell as the player. */
  function New(world: seq<Tile>): (g: Game)
    requires |world| > StartingPos
    ensures g.score == 0 && g.runs == 0 && !g.quit
    ensures g.playerPos == StartingPos && g.startingPos == StartingPos
    ensures |g.world| == |world| && g.world[StartingPos] == Player
    ensures forall i :: 0 <= i < |world| && i != StartingPos ==> g.world[i] == world[i]
    ensures Valid(g) <==> forall i :: 0 <= i < |world| && world[i] == Player ==> i == StartingPos
  {
    Game(world[StartingPos := Player], 0, 0, StartingPos, StartingPos, false)
  }

  /** The move would leave the board. */
  predicate AtEdge(g: Game, a: Action)
  {
    (a.Left? && g.playerPos == 0) || (a.Right? && g.playerPos + 1 == |g.world|)
  }

  /** The cell a move that stays on the board lands on. */
  function Target(g: Game, a: Action): (d: nat)
    requires IsMove(a) && !AtEdge(g, a)
    ensures a.Left? ==> d + 1 == g.playerPos
    ensures a.Right? ==> d == g.playerPos + 1
  {
    if a.Left? then g.playerPos - 1 else g.playerPos + 1
  }

  /** Puts the player marker back on the starting cell. */
  function Reset(g: Game): (r: Game)
    requires g.startingPos < |g.world|
    ensures OnlyPlayerAt(r.world, r.playerPos) <==> forall i :: 0 <= i < |g.world| && g.world[i] == Player ==> i == g.startingPos
    ensures r.score == g.score && r.runs == g.runs && r.quit == g.quit && r.startingPos == g.startingPos
    ensures r.playerPos == g.startingPos && |r.world| == |g.world| && r.world[g.startingPos] == Player
    ensures forall i :: 0 <= i < |g.world| && i != g.startingPos ==> r.world[i] == g.world[i]
  {
    var w := g.world[g.startingPos := Player];
    assert forall i :: 0 <= i < |w| && i != g.startingPos ==> w[i] == g.world[i];
    g.(world := w, playerPos := g.startingPos)
  }

  /** Completes a run by reaching the cheese. */
  function WinRun(g: Game): (r: Game)
    requires g.startingPos < |g.world|
    ensures r.score == g.score + 1 && r.runs == g.runs + 1
    ensures r.quit == g.quit && r.startingPos == g.startingPos && r.playerPos == g.startingPos
    ensures |r.world| == |g.world| && r.world[g.startingPos] == Player
    ensures forall i :: 0 <= i < |g.world| && i != g.startingPos ==> r.world[i] == g.world[i]
  {
    Reset(g.(score := g.score + 1, runs := g.runs + 1))
  }

  /** Completes a run by falling into the pit. */
  function LoseRun(g: Game): (r: Game)
    requires g.startingPos < |g.world|
    ensures r.score == g.score - 1 && r.runs == g.runs + 1
    ensures r.quit == g.quit && r.startingPos == g.startingPos && r.playerPos == g.startingPos
    ensures |r.world| == |g.world| && r.world[g.startingPos] == Player
    ensures forall i :: 0 <= i < |g.world| && i != g.startingPos ==> r.world[i] == g.world[i]
  {
    Reset(g.(score := g.score - 1, runs := g.runs + 1))
  }

  /** Judges the tile the player has just moved onto; a Player tile there aborts. */
  function EvaluateNewPos(g: Game): (r: Outcome<Step>)
    requires InBounds(g)
    ensures r.Panic? <==> g.world[g.playerPos] == Player
    ensures r.Ok? ==> InBounds(r.value.game) && |r.value.game.world| == |g.world|
  {
    match g.world[g.playerPos]
    case Cheese => Ok(Step(WinRun(g), MoveResult.Win))
    case Pit => Ok(Step(LoseRun(g), Loss))
    case Empty => Ok(Step(g.(world := g.world[g.playerPos := Player]), NextRound))
    case Player => Panic
  }

  /** The game right after leaving the current cell for the target cell,
      before the target cell is judged. */
  function Vacate(g: Game, a: Action): (v: Game)
    requires InBounds(g) && IsMove(a) && !AtEdge(g, a)
    ensures InBounds(v) && |v.world| == |g.world| && v.playerPos == Target(g, a)
    ensures v.world[g.playerPos] == Empty
    ensures forall i :: 0 <= i < |g.world| && i != g.playerPos ==> v.world[i] == g.world[i]
  {
    g.(world := g.world[g.playerPos := Empty], playerPos := Target(g, a))
  }

  /** The only mutator of the game: applies one action. */
  function Update(g: Game, a: Action): (r: Outcome<Step>)
    requires InBounds(g)
    ensures r.Ok? ==> InBounds(r.value.game) && |r.value.game.world| == |g.world|
    ensures r.Ok? ==> r.value.game.startingPos == g.startingPos
    ensures r.Ok? ==> r.value.game.runs == g.runs || r.value.game.runs == g.runs + 1
    ensures r.Ok? ==> (r.value.game.quit <==> g.quit || a == Action.Quit)
    ensures r.Ok? ==> (r.value.result == MoveResult.Quit <==> a == Action.Quit)
    ensures r.Panic? ==> IsMove(a) && !AtEdge(g, a) && g.world[Target(g, a)] == Player
  {
    match a
    case Invalid => Ok(Step(g, Loss))
    case Left =>
      if g.playerPos == 0 then Ok(Step(g.(score := -1), Loss))
      else EvaluateNewPos(Vacate(g, a))
    case Right =>
      if g.playerPos == |g.world| - 1 then Ok(Step(g.(score := -1), Loss))
      else EvaluateNewPos(Vacate(g, a))
    case Quit => Ok(Step(g.(quit := true), MoveResult.Quit))
  }

  /** Update keeps the invariant, never reaches its panic arm and never
      overwrites a Pit or Cheese tile. */
  lemma UpdatePreservesValid(g: Game, a: Action)
    requires Valid(g)
    ensures Update(g, a).Ok?
    ensures Valid(Update(g, a).value.game)
    ensures SameFixtures(g.world, Update(g, a).value.game.world)
  {
    if IsMove(a) && !AtEdge(g, a) {
      var d := Target(g, a);
      var v := Vacate(g, a);
      assert g.world[d] != Player;
      assert forall i :: 0 <= i < |v.world| ==> v.world[i] != Player;
      var w' := Update(g, a).value.game.world;
      match g.world[d]
      case Empty =>
        assert w' == v.world[d := Player];
      case Cheese =>
        assert w' == v.world[g.startingPos := Player];
        assert g.startingPos != d;
      case Pit =>
        assert w' == v.world[g.startingPos := Player];
        assert g.startingPos != d;
    }
  }

  /** Run-limit termination policy: play goes on while the game is not quit
      and at most RunLimit runs are complete. */
  function GameOver(g: Game): (over: bool)
    ensures !over <==> !g.quit && g.runs <= RunLimit
  {
    g.quit || g.runs > RunLimit
  }

  /** A move off either end overwrites the score with -1 and changes nothing else:
      no run is counted and the board is not reset. */
  lemma EdgeMoveOverwritesScore(g: Game, a: Action)
    requires InBounds(g) && IsMove(a) && AtEdge(g, a)
    ensures Update(g, a) == Ok(Step(g.(score := -1), Loss))
  {
  }

  /** A move onto a cell that already holds a Player tile aborts: the
      converse of Update's promise that an abort needs such a move. */
  lemma MoveOntoPlayerPanics(g: Game, a: Action)
    requires InBounds(g) && IsMove(a) && !AtEdge(g, a) && g.world[Target(g, a)] == Player
    ensures Update(g, a).Panic?
  {
  }

  /** A move onto an Empty cell carries the Player marker one cell over. */
  lemma EmptyLanding(g: Game, a: Action)
    requires InBounds(g) && IsMove(a) && !AtEdge(g, a) && g.world[Target(g, a)] == Empty
    ensures var r := Update(g, a);
      && r.Ok? && r.value.result == NextRound
      && r.value.game == g.(world := g.world[g.playerPos := Empty][Target(g, a) := Player], playerPos := Target(g, a))
  {
  }

  /** Reaching the cheese scores a point, completes a run and restarts at the
      starting cell; the Cheese tile itself stays where it is. */
  lemma CheeseLanding(g: Game, a: Action)
    requires InBounds(g) && IsMove(a) && !AtEdge(g, a) && g.world[Target(g, a)] == Cheese
    ensures var r := Update(g, a);
      && r.Ok? && r.value.result == MoveResult.Win
      && r.value.game.score == g.score + 1 && r.value.game.runs == g.runs + 1
      && r.value.game.playerPos == g.startingPos && r.value.game.quit == g.quit
      && r.value.game.world == g.world[g.playerPos := Empty][g.startingPos := Player]
    ensures Valid(g) ==> Update(g, a).value.game.world[Target(g, a)] == Cheese
  {
  }

  /** Falling into the pit loses a point, completes a run and restarts at the
      starting cell; the Pit tile itself stays where it is. */
  lemma PitLanding(g: Game, a: Action)
    requires InBounds(g) && IsMove(a) && !AtEdge(g, a) && g.world[Target(g, a)] == Pit
    ensures var r := Update(g, a);
      && r.Ok? && r.value.result == Loss
      && r.value.game.score == g.score - 1 && r.value.game.runs == g.runs + 1
      && r.value.game.playerPos == g.startingPos && r.value.game.quit == g.quit
      && r.value.game.world == g.world[g.playerPos := Empty][g.startingPos := Player]
    ensures Valid(g) ==> Update(g, a).value.game.world[Target(g, a)] == Pit
  {
  }

  /** Quit only raises the quit flag; Invalid reports a loss and changes nothing. */
  lemma QuitAndInvalid(g: Game)
    requires InBounds(g)
    ensures Update(g, Action.Quit) == Ok(Step(g.(quit := true), MoveResult.Quit))
    ensures Update(g, Action.Invalid) == Ok(Step(g, Loss))
  {
  }

  /** Resetting twice is resetting once. */
  lemma ResetIdempotent(g: Game)
    requires g.startingPos < |g.world|
    ensures Reset(Reset(g)) == Reset(g)
  {
  }

  /** Once over, a run-limit game stays over whatever action is applied. */
  lemma GameOverIsPermanent(g: Game, a: Action)
    requires InBounds(g) && GameOver(g) && Update(g, a).Ok?
    ensures GameOver(Update(g, a).value.game)
  {
  }

  /** The game ends exactly when the run that takes the count past the limit completes. */
  lemma RunLimitReached(g: Game, a: Action)
    requires InBounds(g) && !g.quit && g.runs == RunLimit
    requires IsMove(a) && !AtEdge(g, a)
    requires g.world[Target(g, a)] == Pit || g.world[Target(g, a)] == Cheese
    ensures !GameOver(g) && GameOver(Update(g, a).value.game)
  {
  }

  /** Applies the actions in order, as the driver loop does, collecting every step. */
  function Replay(g: Game, actions: seq<Action>): (r: Outcome<seq<Step>>)
    requires InBounds(g)
    ensures r.Ok? ==> |r.value| == |actions|
    ensures r.Ok? && |actions| > 0 ==> Update(g, actions[0]) == Ok(r.value[0])
    ensures Valid(g) ==> r.Ok? && forall k :: 0 <= k < |r.value| ==> Valid(r.value[k].game)
    decreases |actions|
  {
    if |actions| == 0 then Ok([])
    else
      match Update(g, actions[0])
      case Panic => Panic
      case Ok(s) =>
        assert Valid(g) ==> Valid(s.game) by {
          if Valid(g) { UpdatePreservesValid(g, actions[0]); }
        }
        match Replay(s.game, actions[1..])
        case Panic => Panic
        case Ok(rest) => Ok([s] + rest)
  }

  /** The game step `k` of a trace starts from: the initial game for the first
      step, the game left by the previous step otherwise. */
  function Before(g: Game, trace: seq<Step>, k: nat): Game
    requires k <= |trace|
  {
    if k == 0 then g else trace[k - 1].game
  }

  /** A replay is the trace of its actions: step `k` is exactly the update of
      the game before it by action `k`, and both games are on their board. */
  lemma {:induction false} ReplayFollowsActions(g: Game, actions: seq<Action>, k: nat)
    requires InBounds(g) && Replay(g, actions).Ok? && k < |actions|
    ensures InBounds(Before(g, Replay(g, actions).value, k))
    ensures Update(Before(g, Replay(g, actions).value, k), actions[k]) == Ok(Replay(g, actions).value[k])
    ensures InBounds(Replay(g, actions).value[k].game)
    decreases k
  {
    var s := Update(g, actions[0]).value;
    ReplayFirst(g, actions);
    if k > 0 {
      var t := Replay(g, actions).value;
      var rest := Replay(s.game, actions[1..]).value;
      ReplayFollowsActions(s.game, actions[1..], k - 1);
      assert t[k] == rest[k - 1] && actions[k] == actions[1..][k - 1];
      assert Before(g, t, k) == Before(s.game, rest, k - 1);
    }
  }

  /** The board the driver plays on: sixteen cells, Pit at 0, Cheese at 14. */
  const MainBoard: seq<Tile> := seq(16, i => if i == 0 then Pit else if i == 14 then Cheese else Empty)

  /** The same action `n` times. */
  function Repeat(a: Action, n: nat): (r: seq<Action>)
    ensures |r| == n && forall k :: 0 <= k < n ==> r[k] == a
  {
    seq(n, _ => a)
  }

  /** Where `k` moves in the direction of `a` take a player standing on `p`. */
  function Shift(p: nat, a: Action, k: nat): int
  {
    if a.Left? then p - k else p + k
  }

  /** The first step of a walk over Empty cells leaves a game on the board
      whose remaining walk is one cell shorter. */
  lemma WalkFirstStep(g: Game, a: Action, n: nat)
    requires InBounds(g) && IsMove(a) && n > 0
    requires 0 <= Shift(g.playerPos, a, n) < |g.world|
    requires forall k :: 1 <= k <= n ==> g.world[Shift(g.playerPos, a, k)] == Empty
    ensures Update(g, a).Ok? && Update(g, a).value.result == NextRound
    ensures var g1 := Update(g, a).value.game;
      && InBounds(g1)
      && g1 == g.(world := g.world[g.playerPos := Empty][Shift(g.playerPos, a, 1) := Player],
                 playerPos := Shift(g.playerPos, a, 1))
      && Shift(g1.playerPos, a, n - 1) == Shift(g.playerPos, a, n)
      && forall k :: 1 <= k <= n - 1 ==> g1.world[Shift(g1.playerPos, a, k)] == Empty
  {
    assert g.world[Shift(g.playerPos, a, 1)] == Empty;
    EmptyLanding(g, a);
    var g1 := Update(g, a).value.game;
    forall k | 1 <= k <= n - 1
      ensures g1.world[Shift(g1.playerPos, a, k)] == Empty
    {
      assert Shift(g1.playerPos, a, k) == Shift(g.playerPos, a, k + 1);
      assert g.world[Shift(g.playerPos, a, k + 1)] == Empty;
    }
  }

  /** Replaying a non-empty list is one update followed by replaying the rest. */
  lemma ReplayFirst(g: Game, actions: seq<Action>)
    requires InBounds(g) && |actions| > 0 && Update(g, actions[0]).Ok?
    ensures var s := Update(g, actions[0]).value;
      && (Replay(g, actions).Ok? <==> Replay(s.game, actions[1..]).Ok?)
      && (Replay(g, actions).Ok? ==> Replay(g, actions).value == [s] + Replay(s.game, actions[1..]).value)
  {
  }

  /** Repeating one move across `n` Empty cells walks the marker cell by cell,
      reporting NextRound each time. */
  lemma {:induction false} WalkOverEmpty(g: Game, a: Action, n: nat)
    requires InBounds(g) && IsMove(a)
    requires 0 <= Shift(g.playerPos, a, n) < |g.world|
    requires forall k :: 1 <= k <= n ==> g.world[Shift(g.playerPos, a, k)] == Empty
    ensures var r := Replay(g, Repeat(a, n));
      && r.Ok?
      && forall k :: 0 <= k < n ==> r.value[k].result == NextRound && r.value[k].game.playerPos == Shift(g.playerPos, a, k + 1)
    decreases n
  {
    if n > 0 {
      WalkFirstStep(g, a, n);
      var s := Update(g, a).value;
      WalkOverEmpty(s.game, a, n - 1);
      assert Repeat(a, n)[1..] == Repeat(a, n - 1);
      ReplayFirst(g, Repeat(a, n));
      var rest := Replay(s.game, Repeat(a, n - 1)).value;
      var r := Replay(g, Repeat(a, n)).value;
      forall k | 0 <= k < n
        ensures r[k].result == NextRound && r[k].game.playerPos == Shift(g.playerPos, a, k + 1)
      {
        if k > 0 {
          assert r[k] == rest[k - 1];
        }
      }
    }
  }

  /** After such a walk only the marker's old and new cells have changed. */
  lemma {:induction false} WalkEnd(g: Game, a: Action, n: nat)
    requires InBounds(g) && IsMove(a) && n > 0
    requires 0 <= Shift(g.playerPos, a, n) < |g.world|
    requires forall k :: 1 <= k <= n ==> g.world[Shift(g.playerPos, a, k)] == Empty
    ensures Replay(g, Repeat(a, n)).Ok?
    ensures Replay(g, Repeat(a, n)).value[n - 1].game ==
      g.(world := g.world[g.playerPos := Empty][Shift(g.playerPos, a, n) := Player],
         playerPos := Shift(g.playerPos, a, n))
    decreases n
  {
    WalkFirstStep(g, a, n);
    var s := Update(g, a).value;
    assert Repeat(a, n)[1..] == Repeat(a, n - 1);
    ReplayFirst(g, Repeat(a, n));
    if n == 1 {
      assert Replay(s.game, Repeat(a, 0)) == Ok([]);
    } else {
      WalkEnd(s.game, a, n - 1);
      var rest := Replay(s.game, Repeat(a, n - 1)).value;
      assert Replay(g, Repeat(a, n)).value[n - 1] == rest[n - 2];
      var e := Shift(g.playerPos, a, n);
      assert s.game.world[s.game.playerPos := Empty][e := Player] == g.world[g.playerPos := Empty][e := Player];
    }
  }

  /** The cells of the driver's board, stated cell by cell. */
  predicate DriverBoard(w: seq<Tile>)
  {
    |w| == 16 && w[0] == Pit && w[14] == Cheese &&
    forall i :: 0 < i < 16 && i != 14 ==> w[i] == Empty
  }

  /** MainBoard is the driver's board. */
  lemma MainBoardIsDriverBoard()
    ensures DriverBoard(MainBoard)
  {
  }

  /** Eight Right moves from the start walk 6, 7, ..., 13 over Empty cells. */
  lemma EightRightsWalk(w: seq<Tile>)
    requires DriverBoard(w)
    ensures Replay(New(w), Repeat(Right, 8)).Ok?
    ensures forall k :: 0 <= k < 8 ==>
      Replay(New(w), Repeat(Right, 8)).value[k].result == NextRound &&
      Replay(New(w), Repeat(Right, 8)).value[k].game.playerPos == 6 + k
    ensures Replay(New(w), Repeat(Right, 8)).value[7].game == New(w).(world := w[13 := Player], playerPos := 13)
  {
    var g0 := New(w);
    forall k | 1 <= k <= 8
      ensures g0.world[Shift(g0.playerPos, Right, k)] == Empty
    {
    }
    WalkOverEmpty(g0, Right, 8);
    WalkEnd(g0, Right, 8);
    var r := Replay(g0, Repeat(Right, 8)).value;
    forall k | 0 <= k < 8
      ensures r[k].result == NextRound && r[k].game.playerPos == 6 + k
    {
      assert Shift(g0.playerPos, Right, k + 1) == 6 + k;
    }
    assert g0.world[5 := Empty][13 := Player] == w[13 := Player];
  }

  /** Nine Right moves on the driver's board walk 6, 7, ..., 13 and then onto
      the cheese at 14: a win that scores 1, counts run 1 and restarts at 5. */
  lemma NineRightsReachCheese(w: seq<Tile>)
    requires DriverBoard(w)
    ensures Replay(New(w), Repeat(Right, 8)).Ok?
    ensures forall k :: 0 <= k < 8 ==>
      Replay(New(w), Repeat(Right, 8)).value[k].result == NextRound &&
      Replay(New(w), Repeat(Right, 8)).value[k].game.playerPos == 6 + k
    ensures var last := Update(Replay(New(w), Repeat(Right, 8)).value[7].game, Right);
      && last.Ok? && last.value.result == MoveResult.Win
      && last.value.game.score == 1 && last.value.game.runs == 1 && last.value.game.playerPos == StartingPos
  {
    EightRightsWalk(w);
    var g8 := New(w).(world := w[13 := Player], playerPos := 13);
    assert InBounds(g8) && !AtEdge(g8, Right) && Target(g8, Right) == 14 && g8.world[14] == Cheese;
    CheeseLanding(g8, Right);
  }

  /** Four Left moves from the start walk 4, 3, 2, 1 over Empty cells. */
  lemma FourLeftsWalk(w: seq<Tile>)
    requires DriverBoard(w)
    ensures Replay(New(w), Repeat(Left, 4)).Ok?
    ensures forall k :: 0 <= k < 4 ==>
      Replay(New(w), Repeat(Left, 4)).value[k].result == NextRound &&
      Replay(New(w), Repeat(Left, 4)).value[k].game.playerPos == 4 - k
    ensures Replay(New(w), Repeat(Left, 4)).value[3].game == New(w).(world := w[1 := Player], playerPos := 1)
  {
    var g0 := New(w);
    forall k | 1 <= k <= 4
      ensures g0.world[Shift(g0.playerPos, Left, k)] == Empty
    {
    }
    WalkOverEmpty(g0, Left, 4);
    WalkEnd(g0, Left, 4);
    var r := Replay(g0, Repeat(Left, 4)).value;
    forall k | 0 <= k < 4
      ensures r[k].result == NextRound && r[k].game.playerPos == 4 - k
    {
      assert Shift(g0.playerPos, Left, k + 1) == 4 - k;
    }
    assert g0.world[5 := Empty][1 := Player] == w[1 := Player];
  }

  /** Five Left moves on the driver's board walk 4, 3, 2, 1 and then into the
      pit at 0: a loss that scores -1, counts run 1 and restarts at 5, so a
      sixth Left simply walks to 4 again. */
  lemma FiveLeftsReachPit(w: seq<Tile>)
    requires DriverBoard(w)
    ensures Replay(New(w), Repeat(Left, 4)).Ok?
    ensures forall k :: 0 <= k < 4 ==>
      Replay(New(w), Repeat(Left, 4)).value[k].result == NextRound &&
      Replay(New(w), Repeat(Left, 4)).value[k].game.playerPos == 4 - k
    ensures var fifth := Update(Replay(New(w), Repeat(Left, 4)).value[3].game, Left);
      && fifth.Ok? && fifth.value.result == Loss
      && fifth.value.game.score == -1 && fifth.value.game.runs == 1 && fifth.value.game.playerPos == StartingPos
      && var sixth := Update(fifth.value.game, Left);
      && sixth.Ok? && sixth.value.result == NextRound && sixth.value.game.playerPos == 4
  {
    FourLeftsWalk(w);
    var g4 := New(w).(world := w[1 := Player], playerPos := 1);
    assert InBounds(g4) && !AtEdge(g4, Left) && Target(g4, Left) == 0 && g4.world[0] == Pit;
    PitLanding(g4, Left);
    var g5 := Update(g4, Left).value.game;
    assert g5.playerPos == 5 && g5.world[4] == Empty && Target(g5, Left) == 4;
    EmptyLanding(g5, Left);
  }

  /** Five Left moves from the start of the driver's board without its pit
      walk 4, 3, 2, 1, 0 over Empty cells. */
  lemma FiveLeftsWalkWithoutPit(w: seq<Tile>)
    requires DriverBoard(w)
    ensures Replay(New(w[0 := Empty]), Repeat(Left, 5)).Ok?
    ensures Replay(New(w[0 := Empty]), Repeat(Left, 5)).value[4].game ==
      New(w[0 := Empty]).(world := w[0 := Player], playerPos := 0)
  {
    var g0 := New(w[0 := Empty]);
    forall k | 1 <= k <= 5
      ensures g0.world[Shift(g0.playerPos, Left, k)] == Empty
    {
    }
    WalkEnd(g0, Left, 5);
    assert g0.world[5 := Empty][0 := Player] == w[0 := Player];
  }

  /** On a board without a pit, the sixth Left from the start tries to leave
      the board from cell 0: a loss that sets the score to -1 but counts no run
      and leaves the player on cell 0. */
  lemma SixthLeftLeavesBoard(w: seq<Tile>)
    requires DriverBoard(w)
    ensures Replay(New(w[0 := Empty]), Repeat(Left, 5)).Ok?
    ensures Replay(New(w[0 := Empty]), Repeat(Left, 5)).value[4].game.playerPos == 0
    ensures var sixth := Update(Replay(New(w[0 := Empty]), Repeat(Left, 5)).value[4].game, Left);
      && sixth.Ok? && sixth.value.result == Loss
      && sixth.value.game.score == -1 && sixth.value.game.runs == 0 && sixth.value.game.playerPos == 0
  {
    FiveLeftsWalkWithoutPit(w);
    var g5 := New(w[0 := Empty]).(world := w[0 := Player], playerPos := 0);
    assert InBounds(g5) && AtEdge(g5, Left);
    EdgeMoveOverwritesScore(g5, Left);
  }
}
