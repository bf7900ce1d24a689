/** The level table of constants.ts: each level's switch labels, the gates it offers
    and its goal, a predicate over the switch values in input order. */
module Levels {
  import opened Circuit

  datatype Level = Level(
    id: nat,
    title: string,
    inputs: seq<string>,
    gatesAvailable: seq<GateType>,
    goal: seq<bool> -> bool)

  /** `inputs[k]` inside a goal. The validator passes one entry per switch, and every goal
      reads only entries below its level's switch count, so the index is always in range on
      a loaded board; past the end the model reads false. */
  function At(xs: seq<bool>, k: nat): bool
  {
    k < |xs| && xs[k]
  }

  /** The LEVELS table. */
  function LevelTable(): (ls: seq<Level>)
    ensures |ls| == 5
    ensures forall l :: 0 <= l < |ls| ==> ls[l].id == l + 1 && 1 <= |ls[l].inputs| <= 3
  {
    [ Level(1, "Level 1: The Flipper", ["A"], [Not],
            xs => !At(xs, 0)),
      Level(2, "Level 2: Best Friends", ["A", "B"], [And],
            xs => At(xs, 0) && At(xs, 1)),
      Level(3, "Level 3: Any Will Do", ["A", "B"], [Or],
            xs => At(xs, 0) || At(xs, 1)),
      Level(4, "Level 4: Mix It Up", ["A", "B"], [Not, And],
            xs => !At(xs, 0) && At(xs, 1)),
      Level(5, "Level 5: Security Alarm", ["A", "B", "C"], [And, Or],
            xs => At(xs, 0) && (At(xs, 1) || At(xs, 2)))
    ]
  }

  /** Each goal, on an assignment with one entry per switch of its level. */
  lemma LevelGoals(xs: seq<bool>)
    ensures |xs| == 1 ==> (LevelTable()[0].goal(xs) <==> !xs[0])
    ensures |xs| == 2 ==> (LevelTable()[1].goal(xs) <==> xs[0] && xs[1])
    ensures |xs| == 2 ==> (LevelTable()[2].goal(xs) <==> xs[0] || xs[1])
    ensures |xs| == 2 ==> (LevelTable()[3].goal(xs) <==> !xs[0] && xs[1])
    ensures |xs| == 3 ==> (LevelTable()[4].goal(xs) <==> xs[0] && (xs[1] || xs[2]))
  {
  }

  /** Labels and gate inventories of the five levels. */
  lemma LevelInventories()
    ensures LevelTable()[0].inputs == ["A"] && LevelTable()[0].gatesAvailable == [Not]
    ensures LevelTable()[1].inputs == ["A", "B"] && LevelTable()[1].gatesAvailable == [And]
    ensures LevelTable()[2].inputs == ["A", "B"] && LevelTable()[2].gatesAvailable == [Or]
    ensures LevelTable()[3].inputs == ["A", "B"] && LevelTable()[3].gatesAvailable == [Not, And]
    ensures LevelTable()[4].inputs == ["A", "B", "C"] && LevelTable()[4].gatesAvailable == [And, Or]
  {
  }

  /** A goal reads only the entries below its level's number of switches: two
      assignments that agree there get the same verdict. */
  lemma GoalReadsOnlyItsInputs(l: nat, xs: seq<bool>, ys: seq<bool>)
    requires l < |LevelTable()|
    requires |xs| >= |LevelTable()[l].inputs| && |ys| >= |LevelTable()[l].inputs|
    requires forall k :: 0 <= k < |LevelTable()[l].inputs| ==> xs[k] == ys[k]
    ensures LevelTable()[l].goal(xs) == LevelTable()[l].goal(ys)
  {
  }
}
