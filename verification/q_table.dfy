/** The tabular value estimates both bot versions keep: one row per board cell,
    one column per action of the action list. Values are modelled as reals. */
module QTable {
  import opened Vocabulary

  /** The canonical action list; a column index is a position in this list. */
  const ActionList: seq<Action> := [Left, Right]

  type Table = seq<seq<real>>

  /** `t` has `n` rows, each with one entry per action. */
  predicate Shaped(t: Table, n: nat)
  {
    |t| == n && forall i :: 0 <= i < |t| ==> |t[i]| == |ActionList|
  }

  /** The column of a moving action: its position in the action list. */
  function ActionId(a: Action): (id: nat)
    requires IsMove(a)
    ensures id < |ActionList| && ActionList[id] == a
  {
    if a.Left? then 0 else 1
  }

  /** Every action of the list is a moving one, and each has a distinct column. */
  lemma ActionListIsMoves()
    ensures forall k :: 0 <= k < |ActionList| ==> IsMove(ActionList[k]) && ActionId(ActionList[k]) == k
  {
  }

  /** The greedy scan over `row[k..]`, carrying the best index and value found so
      far; a later entry replaces them only when strictly greater. */
  function Scan(row: seq<real>, k: nat, id: nat, best: real): (r: (nat, real))
    requires k <= |row|
    ensures r.1 >= best
    ensures forall j :: k <= j < |row| ==> row[j] <= r.1
    ensures (r.0 == id && r.1 == best) ||
            (k <= r.0 < |row| && row[r.0] == r.1 && best < r.1 && forall j :: k <= j < r.0 ==> row[j] < r.1)
    decreases |row| - k
  {
    if k == |row| then (id, best)
    else if row[k] > best then Scan(row, k + 1, k, row[k])
    else Scan(row, k + 1, id, best)
  }

  /** The greedy action of a row and the value it reports, starting from the
      baseline Left with value 0.0. */
  function MaxQAction(row: seq<real>): (r: (Action, real))
    requires |row| <= |ActionList|
    ensures IsMove(r.0)
    ensures r.1 >= 0.0 && forall j :: 0 <= j < |row| ==> row[j] <= r.1
    ensures r.1 == 0.0 || exists j :: 0 <= j < |row| && row[j] == r.1
    ensures r.0 == Right <==> |row| == 2 && row[1] > 0.0 && row[1] > row[0]
  {
    var (id, best) := Scan(row, 0, 0, 0.0);
    (ActionList[id], best)
  }

  function RealMax(x: real, y: real): real
  {
    if x < y then y else x
  }

  function RealMin(x: real, y: real): real
  {
    if x < y then x else y
  }

  /** On a full row the greedy value is the largest of 0 and both entries, and
      Left wins every tie, including rows with no positive entry. */
  lemma GreedyOnFullRow(row: seq<real>)
    requires |row| == |ActionList|
    ensures MaxQAction(row).1 == RealMax(0.0, RealMax(row[0], row[1]))
    ensures MaxQAction(row).0 == Left <==> row[1] <= RealMax(0.0, row[0])
    ensures row[0] <= 0.0 && row[1] <= 0.0 ==> MaxQAction(row) == (Left, 0.0)
  {
  }

  /** The learning-rate blend of a prior estimate and a new target. */
  function Mix(alpha: real, prior: real, target: real): real
  {
    (1.0 - alpha) * prior + alpha * target
  }

  /** For a learning rate in [0, 1] the blend lies between the prior estimate and
      the target, inclusive. */
  lemma MixBetween(alpha: real, prior: real, target: real)
    requires 0.0 <= alpha <= 1.0
    ensures RealMin(prior, target) <= Mix(alpha, prior, target) <= RealMax(prior, target)
  {
    var d := target - prior;
    assert Mix(alpha, prior, target) == prior + alpha * d;
    assert alpha * d + (1.0 - alpha) * d == d;
    if prior <= target {
      ProductNonNegative(alpha, d);
      ProductNonNegative(1.0 - alpha, d);
    } else {
      ProductNonNegative(alpha, -d);
      ProductNonNegative(1.0 - alpha, -d);
    }
  }

  lemma ProductNonNegative(x: real, y: real)
    requires 0.0 <= x && 0.0 <= y
    ensures 0.0 <= x * y
  {
  }

  /** The temporal-difference target: reward plus discounted best future value. */
  function TdTarget(reward: real, gamma: real, future: seq<real>): real
    requires |future| <= |ActionList|
  {
    reward + gamma * MaxQAction(future).1
  }

  /** Writes one cell, (oldPos, column of `a`), with the blend of its prior value and
      the target bootstrapped from row `newPos`, read before the write. */
  function UpdateQTable(t: Table, oldPos: nat, newPos: nat, a: Action, reward: real, alpha: real, gamma: real): (r: Table)
    requires IsMove(a) && oldPos < |t| && newPos < |t|
    requires ActionId(a) < |t[oldPos]| && |t[newPos]| <= |ActionList|
    ensures |r| == |t| && forall i :: 0 <= i < |t| ==> |r[i]| == |t[i]|
    ensures forall i, j :: 0 <= i < |t| && 0 <= j < |t[i]| && (i != oldPos || j != ActionId(a)) ==> r[i][j] == t[i][j]
    ensures r[oldPos][ActionId(a)] == Mix(alpha, t[oldPos][ActionId(a)], TdTarget(reward, gamma, t[newPos]))
  {
    var id := ActionId(a);
    t[oldPos := t[oldPos][id := Mix(alpha, t[oldPos][id], TdTarget(reward, gamma, t[newPos]))]]
  }

  /** The updated cell lies between its prior value and the target; with rate 1
      it becomes the target and with rate 0 it keeps its value. */
  lemma UpdateIsConvex(t: Table, oldPos: nat, newPos: nat, a: Action, reward: real, alpha: real, gamma: real)
    requires IsMove(a) && oldPos < |t| && newPos < |t|
    requires ActionId(a) < |t[oldPos]| && |t[newPos]| <= |ActionList|
    requires 0.0 <= alpha <= 1.0
    ensures var v := UpdateQTable(t, oldPos, newPos, a, reward, alpha, gamma)[oldPos][ActionId(a)];
      var prior := t[oldPos][ActionId(a)];
      var target := TdTarget(reward, gamma, t[newPos]);
      && RealMin(prior, target) <= v <= RealMax(prior, target)
      && (alpha == 1.0 ==> v == target)
      && (alpha == 0.0 ==> v == prior)
  {
    MixBetween(alpha, t[oldPos][ActionId(a)], TdTarget(reward, gamma, t[newPos]));
  }

  /** A table of `n` rows of zeros, one entry per action. */
  function ZeroTable(n: nat): (t: Table)
    ensures Shaped(t, n)
    ensures forall i, j :: 0 <= i < n && 0 <= j < |t[i]| ==> t[i][j] == 0.0
  {
    seq(n, _ => seq(|ActionList|, _ => 0.0))
  }

  /** All entries of a table, row after row. */
  function Flatten(t: Table): (f: seq<real>)
  {
    if |t| == 0 then [] else t[0] + Flatten(t[1..])
  }

  /** A shaped table has one entry per action and row. */
  lemma {:induction false} FlattenLength(t: Table, n: nat)
    requires Shaped(t, n)
    ensures |Flatten(t)| == |ActionList| * n
    decreases n
  {
    if n > 0 {
      FlattenLength(t[1..], n - 1);
    }
  }

  /** Overwrites every entry with the next of `draws`, row after row, in the
      order the random source is consumed. */
  function Overwrite(t: Table, draws: seq<real>): (r: Table)
    requires |draws| == |Flatten(t)|
    ensures |r| == |t| && forall i :: 0 <= i < |t| ==> |r[i]| == |t[i]|
    ensures Flatten(r) == draws
  {
    if |t| == 0 then []
    else
      var k := |t[0]|;
      assert draws[..k] + draws[k..] == draws;
      [draws[..k]] + Overwrite(t[1..], draws[k..])
  }

  /** Every entry of a table appears in its flattening. */
  lemma {:induction false} EntryInFlatten(t: Table, i: nat, j: nat)
    requires i < |t| && j < |t[i]|
    ensures t[i][j] in Flatten(t)
    decreases i
  {
    if i == 0 {
      assert Flatten(t)[j] == t[0][j];
    } else {
      EntryInFlatten(t[1..], i - 1, j);
    }
  }

  /** Draws in [0, 1) give a table whose every entry is in [0, 1). */
  lemma OverwriteInUnitInterval(t: Table, draws: seq<real>)
    requires |draws| == |Flatten(t)|
    requires forall k :: 0 <= k < |draws| ==> 0.0 <= draws[k] < 1.0
    ensures var r := Overwrite(t, draws);
      forall i, j :: 0 <= i < |r| && 0 <= j < |r[i]| ==> 0.0 <= r[i][j] < 1.0
  {
    var r := Overwrite(t, draws);
    forall i, j | 0 <= i < |r| && 0 <= j < |r[i]|
      ensures 0.0 <= r[i][j] < 1.0
    {
      EntryInFlatten(r, i, j);
    }
  }
}
