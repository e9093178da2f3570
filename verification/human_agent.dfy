/** The human player: one typed line per request, classified by its first
    character, re-requested until it names a real action. Reading a line is
    replaced by a given sequence of lines. */
module HumanAgent {
  import opened Vocabulary
  import GameDefinition

  /** ASCII lower-casing of one character. */
  function LowerChar(c: char): char
  {
    if 'A' <= c <= 'Z' then (c as int + 32) as char else c
  }

  /** ASCII lower-casing of a line. */
  function ToLower(s: string): (r: string)
    ensures |r| == |s| && forall i :: 0 <= i < |s| ==> r[i] == LowerChar(s[i])
  {
    seq(|s|, i requires 0 <= i < |s| => LowerChar(s[i]))
  }

  predicate StartsWith(s: string, prefix: string)
  {
    |prefix| <= |s| && s[..|prefix|] == prefix
  }

  /** Lower-cases the line, then maps a leading "a" to Left, "d" to Right,
      "q" to Quit and everything else to Invalid. */
  function GetAction(line: string): (a: Action)
    ensures a == Left <==> |line| > 0 && (line[0] == 'a' || line[0] == 'A')
    ensures a == Right <==> |line| > 0 && (line[0] == 'd' || line[0] == 'D')
    ensures a == Action.Quit <==> |line| > 0 && (line[0] == 'q' || line[0] == 'Q')
    ensures |line| == 0 ==> a == Invalid
  {
    var lower := ToLower(line);
    if StartsWith(lower, "a") then Left
    else if StartsWith(lower, "d") then Right
    else if StartsWith(lower, "q") then Action.Quit
    else Invalid
  }

  /** Only the first character of a line decides its action. */
  lemma FirstCharDecides(line: string, rest: string)
    requires |line| > 0
    ensures GetAction(line) == GetAction(line[..1])
    ensures GetAction(line + rest) == GetAction(line)
  {
    assert (line + rest)[0] == line[0];
    assert line[..1][0] == line[0];
  }

  /** Classifier examples: either case selects the action, trailing text is
      ignored, and the empty line and unknown letters are invalid. */
  lemma ClassifierExamples()
    ensures GetAction("A") == Left && GetAction("abc") == Left && GetAction("a\n") == Left
    ensures GetAction("D") == Right && GetAction("q\n") == Action.Quit
    ensures GetAction("") == Invalid && GetAction("\n") == Invalid && GetAction("x") == Invalid
  {
  }

  /** Whether the prompt got an answer, and how many lines it read. */
  datatype Prompt = Pending | Answered(action: Action, consumed: nat)

  /** The re-prompt loop: reads lines until one is not Invalid. */
  method ReadAction(lines: seq<string>) returns (p: Prompt)
    ensures p.Pending? <==> forall i :: 0 <= i < |lines| ==> GetAction(lines[i]) == Invalid
    ensures p.Answered? ==>
      && 0 < p.consumed <= |lines|
      && p.action != Invalid
      && p.action == GetAction(lines[p.consumed - 1])
      && forall i :: 0 <= i < p.consumed - 1 ==> GetAction(lines[i]) == Invalid
  {
    var action := Invalid;
    var k := 0;
    while action == Invalid
      invariant k <= |lines|
      invariant action == Invalid ==> forall i :: 0 <= i < k ==> GetAction(lines[i]) == Invalid
      invariant action != Invalid ==>
        0 < k && action == GetAction(lines[k - 1]) && forall i :: 0 <= i < k - 1 ==> GetAction(lines[i]) == Invalid
      decreases |lines| - k, if action == Invalid then 1 else 0
    {
      if k == |lines| {
        return Pending;
      }
      action := GetAction(lines[k]);
      k := k + 1;
    }
    return Answered(action, k);
  }

  /** What a human turn did: nothing yet while every line read was invalid, or
      the one update it applied. */
  datatype HumanTurn = AwaitingInput | Applied(action: Action, consumed: nat, outcome: Outcome<GameDefinition.Step>)

  /** A human turn of the split version: the update only ever sees Left, Right or Quit. */
  method Act(g: GameDefinition.Game, lines: seq<string>) returns (t: HumanTurn)
    requires GameDefinition.InBounds(g)
    ensures t.AwaitingInput? <==> forall i :: 0 <= i < |lines| ==> GetAction(lines[i]) == Invalid
    ensures t.Applied? ==>
      && t.action != Invalid
      && 0 < t.consumed <= |lines| && t.action == GetAction(lines[t.consumed - 1])
      && (forall i :: 0 <= i < t.consumed - 1 ==> GetAction(lines[i]) == Invalid)
      && t.outcome == GameDefinition.Update(g, t.action)
    ensures t.Applied? && GameDefinition.Valid(g) ==> t.outcome.Ok? && GameDefinition.Valid(t.outcome.value.game)
  {
    var p := ReadAction(lines);
    if p.Pending? {
      return AwaitingInput;
    }
    if GameDefinition.Valid(g) {
      GameDefinition.UpdatePreservesValid(g, p.action);
    }
    return Applied(p.action, p.consumed, GameDefinition.Update(g, p.action));
  }
}
