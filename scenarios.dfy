/** End-to-end scenarios on concrete boards: the Level 1 and Level 5 boards as the
    player builds them with the edits, what the validator says about them, and a NOT
    gate fed by its own output. The gate id `g` and the wire ids stand for whatever
    `generateId` returns. */
module Scenarios {
  import opened Circuit
  import opened Propagation
  import opened Validator
  import opened Levels
  import opened Editing
  import opened Ids

  /** The Level 5 board with the lamp fed straight from OR(B, C), in array order:
      the three switches, the lamp, then the dropped gate. */
  function Alarm(a: bool, b: bool, c: bool, g: bool, o: bool): seq<Node>
  {
    [ Node("input-0", Input, "A", a), Node("input-1", Input, "B", b), Node("input-2", Input, "C", c),
      Node("output-main", Output, "LAMP", o), Node("g", Gate(Some(Or)), "OR", g) ]
  }

  function AlarmWires(): seq<Wire>
  {
    [ Wire("w1", "input-1", "g", 0), Wire("w2", "input-2", "g", 1),
      Wire("w3", "g", "output-main", 0) ]
  }

  /** Which source each slot of the alarm board reads. */
  lemma AlarmSources()
    ensures SlotSource(AlarmWires(), "output-main", 0) == Some("g")
    ensures SlotSource(AlarmWires(), "output-main", 1) == None
    ensures SlotSource(AlarmWires(), "g", 0) == Some("input-1")
    ensures SlotSource(AlarmWires(), "g", 1) == Some("input-2")
  {
  }

  lemma AlarmUnique(a: bool, b: bool, c: bool, g: bool, o: bool)
    ensures UniqueIds(Alarm(a, b, c, g, o))
  {
  }

  lemma AlarmLampReads(a: bool, b: bool, c: bool, g: bool, o: bool)
    ensures NodeValue(Alarm(a, b, c, g, o), AlarmWires(), 3) == g
  {
    AlarmSources();
    AlarmSourceValue(a, b, c, g, o, 4);
  }

  /** Every node of the alarm board is found by its own id. */
  lemma AlarmSourceValue(a: bool, b: bool, c: bool, g: bool, o: bool, i: nat)
    requires i < 5
    ensures SourceValue(Alarm(a, b, c, g, o), Alarm(a, b, c, g, o)[i].id) == Alarm(a, b, c, g, o)[i].value
  {
    AlarmUnique(a, b, c, g, o);
    SourceValueOfUnique(Alarm(a, b, c, g, o), i);
  }

  lemma AlarmGateReads(a: bool, b: bool, c: bool, g: bool, o: bool)
    ensures NodeValue(Alarm(a, b, c, g, o), AlarmWires(), 4) == (b || c)
  {
    var s := Alarm(a, b, c, g, o);
    var w := AlarmWires();
    AlarmSources();
    AlarmSourceValue(a, b, c, g, o, 1);
    AlarmSourceValue(a, b, c, g, o, 2);
    assert SlotValue(s, w, s[4].id, 0) == b;
    assert SlotValue(s, w, s[4].id, 1) == c;
  }

  lemma AlarmVisitLamp(a: bool, b: bool, c: bool, g: bool, o: bool)
    ensures Visit(Alarm(a, b, c, g, o), AlarmWires(), 3) == Alarm(a, b, c, g, g)
  {
    AlarmLampReads(a, b, c, g, o);
    var s := Alarm(a, b, c, g, o);
    if o != g {
      assert s[3 := s[3].(value := g)] == Alarm(a, b, c, g, g);
    }
  }

  lemma AlarmVisitGate(a: bool, b: bool, c: bool, g: bool, o: bool)
    ensures Visit(Alarm(a, b, c, g, o), AlarmWires(), 4) == Alarm(a, b, c, b || c, o)
  {
    AlarmGateReads(a, b, c, g, o);
    var s := Alarm(a, b, c, g, o);
    if g != (b || c) {
      assert s[4 := s[4].(value := b || c)] == Alarm(a, b, c, b || c, o);
    }
  }

  /** One round visits the lamp before the gate, so the lamp takes the gate's old
      value and the gate takes B or C. */
  lemma AlarmRound(a: bool, b: bool, c: bool, g: bool, o: bool)
    ensures Round(Alarm(a, b, c, g, o), AlarmWires()) == Alarm(a, b, c, b || c, g)
  {
    var s := Alarm(a, b, c, g, o);
    var w := AlarmWires();
    assert RoundPrefix(s, w, 1) == s;
    assert RoundPrefix(s, w, 2) == s;
    assert RoundPrefix(s, w, 3) == s;
    AlarmVisitLamp(a, b, c, g, o);
    assert RoundPrefix(s, w, 4) == Alarm(a, b, c, g, g);
    AlarmVisitGate(a, b, c, g, g);
  }

  /** The OR gate changes only when B or C is on; the lamp follows one round later. */
  lemma AlarmSettles(a: bool, b: bool, c: bool)
    ensures Propagate(Alarm(a, b, c, false, false), AlarmWires()) == Alarm(a, b, c, b || c, b || c)
    ensures RoundsUsed(Alarm(a, b, c, false, false), AlarmWires(), MaxRounds) == if b || c then 3 else 1
  {
    var w := AlarmWires();
    AlarmRound(a, b, c, false, false);
    if b || c {
      AlarmRound(a, b, c, true, false);
      AlarmRound(a, b, c, true, true);
      assert Relax(Alarm(a, b, c, true, true), w, MaxRounds - 2) == Alarm(a, b, c, true, true);
      assert RoundsUsed(Alarm(a, b, c, true, true), w, MaxRounds - 2) == 1;
    }
  }

  lemma SwitchIds()
    ensures InputId(0) == "input-0" && InputId(1) == "input-1" && InputId(2) == "input-2"
  {
  }

  lemma AlarmSwitchPinned(xs: seq<bool>, k: nat)
    requires |xs| == 3 && k < 3
    ensures PinInputs(Alarm(false, false, false, false, false), xs)[k].value == xs[k]
  {
    SwitchIds();
    PinnedSwitch(Alarm(false, false, false, false, false), xs, k, k);
  }

  /** The validator pins switch `input-k` of the alarm board to entry `k`. */
  lemma AlarmPinned(xs: seq<bool>)
    requires |xs| == 3
    ensures PinInputs(Alarm(false, false, false, false, false), xs) == Alarm(xs[0], xs[1], xs[2], false, false)
  {
    var s := Alarm(false, false, false, false, false);
    var p := PinInputs(s, xs);
    var t := Alarm(xs[0], xs[1], xs[2], false, false);
    forall k | 0 <= k < 5 ensures p[k] == t[k] {
      if k < 3 {
        AlarmSwitchPinned(xs, k);
        assert p[k] == s[k].(value := xs[k]);
      }
    }
  }

  lemma AlarmOutput(a: bool, b: bool, c: bool, g: bool, o: bool)
    ensures OutputValue(Alarm(a, b, c, g, o)) == Some(o)
  {
    var s := Alarm(a, b, c, g, o);
    assert s[3].kind.Output? && !s[0].kind.Output? && !s[1].kind.Output? && !s[2].kind.Output?;
    assert Find(s, (n: Node) => n.kind.Output?) == Some(3);
  }

  /** On the alarm board the settled lamp shows B or C, whatever A is. */
  lemma AlarmLamp(xs: seq<bool>)
    requires |xs| == 3
    ensures LampFor(Alarm(false, false, false, false, false), AlarmWires(), xs) == Some(xs[1] || xs[2])
  {
    AlarmPinned(xs);
    AlarmSettles(xs[0], xs[1], xs[2]);
    assert SettledFor(Alarm(false, false, false, false, false), AlarmWires(), xs)
        == Alarm(xs[0], xs[1], xs[2], xs[1] || xs[2], xs[1] || xs[2]);
    AlarmOutput(xs[0], xs[1], xs[2], xs[1] || xs[2], xs[1] || xs[2]);
  }

  lemma AlarmCounts()
    ensures InputCount(Alarm(false, false, false, false, false)) == 3
    ensures HasOutput(Alarm(false, false, false, false, false))
  {
    assert Alarm(false, false, false, false, false)[3].kind.Output?;
  }

  lemma FirstAssignments()
    ensures Assignment(0, 3) == [false, false, false]
    ensures Assignment(1, 3) == [true, false, false]
    ensures Assignment(2, 3) == [false, true, false]
  {
  }

  lemma AlarmCase(j: nat)
    requires j < 3
    ensures CaseLamp(Alarm(false, false, false, false, false), AlarmWires(), j) == Some(j == 2)
  {
    var s := Alarm(false, false, false, false, false);
    AlarmCounts();
    FirstAssignments();
    var xs := Assignment(j, 3);
    assert CaseLamp(s, AlarmWires(), j) == LampFor(s, AlarmWires(), xs);
    AlarmLamp(xs);
    assert xs[1] || xs[2] <==> j == 2 by {
      if j == 0 {} else if j == 1 {} else {}
    }
  }

  lemma AlarmGoalOff(j: nat)
    requires j < 3
    ensures !LevelTable()[4].goal(Assignment(j, 3))
  {
    FirstAssignments();
    LevelGoals(Assignment(j, 3));
  }

  /** Level 5 ("Security Alarm") with the lamp wired straight from OR(B, C): the first
      failing counter is 2 (A off, B on, C off), where the lamp is on but the goal
      wants it off. */
  lemma AlarmFailsAtTwo()
    ensures Validate(Alarm(false, false, false, false, false), AlarmWires(), LevelTable()[4].goal).verdict == Failure(2)
  {
    var s := Alarm(false, false, false, false, false);
    var goal := LevelTable()[4].goal;
    AlarmCasesPass();
    AlarmCounts();
    assert Pow2(3) == 8;
    assert !CasePasses(s, AlarmWires(), goal, 2);
    assert forall j :: 0 <= j < 2 ==> CasePasses(s, AlarmWires(), goal, j);
    ValidateFailsAtFirstMismatch(s, AlarmWires(), goal, 2);
  }

  lemma AlarmCasesPass()
    ensures forall j :: 0 <= j < 3 ==>
              (CasePasses(Alarm(false, false, false, false, false), AlarmWires(), LevelTable()[4].goal, j) <==> j < 2)
  {
    AlarmCounts();
    forall j | 0 <= j < 3 ensures CasePasses(Alarm(false, false, false, false, false), AlarmWires(), LevelTable()[4].goal, j) <==> j < 2 {
      AlarmCase(j);
      AlarmGoalOff(j);
    }
  }

  /** The board shown after that failure is counter 2's settled board: the lamp is on. */
  lemma AlarmShowsFailingBoard()
    ensures Validate(Alarm(false, false, false, false, false), AlarmWires(), LevelTable()[4].goal).shown
         == Alarm(false, true, false, true, true)
  {
    var s := Alarm(false, false, false, false, false);
    AlarmFailsAtTwo();
    ValidateFailsAtFirstMismatch(s, AlarmWires(), LevelTable()[4].goal, 2);
    AlarmCounts();
    FirstAssignments();
    AlarmPinned([false, true, false]);
    AlarmSettles(false, true, false);
  }

  /** The Level 1 board with a NOT gate between the switch and the lamp. */
  function Flipper(a: bool, o: bool, g: bool): seq<Node>
  {
    [ Node("input-0", Input, "A", a), Node("output-main", Output, "LAMP", o), Node("g", Gate(Some(Not)), "NOT", g) ]
  }

  function FlipperWires(): seq<Wire>
  {
    [ Wire("w1", "input-0", "g", 0), Wire("w2", "g", "output-main", 0) ]
  }

  lemma FlipperSources()
    ensures SlotSource(FlipperWires(), "output-main", 0) == Some("g")
    ensures SlotSource(FlipperWires(), "output-main", 1) == None
    ensures SlotSource(FlipperWires(), "g", 0) == Some("input-0")
    ensures SlotSource(FlipperWires(), "g", 1) == None
  {
  }

  lemma FlipperUnique(a: bool, o: bool, g: bool)
    ensures UniqueIds(Flipper(a, o, g))
  {
  }

  lemma FlipperVisitLamp(a: bool, o: bool, g: bool)
    ensures Visit(Flipper(a, o, g), FlipperWires(), 1) == Flipper(a, g, g)
  {
    FlipperSources();
    FlipperUnique(a, o, g);
    var s := Flipper(a, o, g);
    SourceValueOfUnique(s, 2);
    assert NodeValue(s, FlipperWires(), 1) == g;
    if o != g {
      assert s[1 := s[1].(value := g)] == Flipper(a, g, g);
    }
  }

  lemma FlipperVisitGate(a: bool, o: bool, g: bool)
    ensures Visit(Flipper(a, o, g), FlipperWires(), 2) == Flipper(a, o, !a)
  {
    FlipperSources();
    FlipperUnique(a, o, g);
    var s := Flipper(a, o, g);
    SourceValueOfUnique(s, 0);
    assert NodeValue(s, FlipperWires(), 2) == !a;
    if g != !a {
      assert s[2 := s[2].(value := !a)] == Flipper(a, o, !a);
    }
  }

  /** One round: the lamp takes the gate's old value, the gate takes the negated switch. */
  lemma FlipperRound(a: bool, o: bool, g: bool)
    ensures Round(Flipper(a, o, g), FlipperWires()) == Flipper(a, g, !a)
  {
    var s := Flipper(a, o, g);
    var w := FlipperWires();
    assert RoundPrefix(s, w, 1) == s;
    FlipperVisitLamp(a, o, g);
    assert RoundPrefix(s, w, 2) == Flipper(a, g, g);
    FlipperVisitGate(a, g, g);
  }

  /** From a dark board the lamp settles to the negated switch. */
  lemma FlipperSettles(a: bool)
    ensures Propagate(Flipper(a, false, false), FlipperWires()) == Flipper(a, !a, !a)
  {
    var w := FlipperWires();
    FlipperRound(a, false, false);
    if !a {
      FlipperRound(a, false, true);
      FlipperRound(a, true, true);
      assert Relax(Flipper(a, true, true), w, MaxRounds - 2) == Flipper(a, true, true);
    }
  }

  lemma FlipperSwitchPinned(xs: seq<bool>)
    requires |xs| == 1
    ensures PinInputs(Flipper(false, false, false), xs)[0].value == xs[0]
  {
    SwitchIds();
    PinnedSwitch(Flipper(false, false, false), xs, 0, 0);
  }

  lemma FlipperPinned(xs: seq<bool>)
    requires |xs| == 1
    ensures PinInputs(Flipper(false, false, false), xs) == Flipper(xs[0], false, false)
  {
    var s := Flipper(false, false, false);
    var p := PinInputs(s, xs);
    var t := Flipper(xs[0], false, false);
    forall k | 0 <= k < 3 ensures p[k] == t[k] {
      if k == 0 {
        FlipperSwitchPinned(xs);
        assert p[0] == s[0].(value := xs[0]);
      }
    }
  }

  lemma FlipperOutput(a: bool, o: bool, g: bool)
    ensures OutputValue(Flipper(a, o, g)) == Some(o)
  {
    var s := Flipper(a, o, g);
    assert s[1].kind.Output? && !s[0].kind.Output?;
    assert Find(s, (n: Node) => n.kind.Output?) == Some(1);
  }

  lemma FlipperLamp(xs: seq<bool>)
    requires |xs| == 1
    ensures LampFor(Flipper(false, false, false), FlipperWires(), xs) == Some(!xs[0])
  {
    FlipperPinned(xs);
    FlipperSettles(xs[0]);
    assert SettledFor(Flipper(false, false, false), FlipperWires(), xs) == Flipper(xs[0], !xs[0], !xs[0]);
    FlipperOutput(xs[0], !xs[0], !xs[0]);
  }

  /** Level 1 ("The Flipper") solved with one NOT gate between the switch and the lamp:
      every case shows the goal, so the run succeeds. */
  lemma FlipperPasses()
    ensures Validate(Flipper(false, false, false), FlipperWires(), LevelTable()[0].goal).verdict == Success
  {
    var s := Flipper(false, false, false);
    assert InputCount(s) == 1;
    forall xs: seq<bool> | |xs| == 1
      ensures LampFor(s, FlipperWires(), xs) == Some(LevelTable()[0].goal(xs))
    {
      FlipperLamp(xs);
      LevelGoals(xs);
    }
    ValidateSucceedsIff(s, FlipperWires(), LevelTable()[0].goal);
  }

  /** A NOT gate whose output feeds its own input. */
  function Loop(v: bool): seq<Node>
  {
    [Node("g", Gate(Some(Not)), "NOT", v)]
  }

  function LoopWires(): seq<Wire>
  {
    [Wire("w", "g", "g", 0)]
  }

  /** Each round flips the self-fed gate. */
  lemma LoopRound(v: bool)
    ensures Round(Loop(v), LoopWires()) == Loop(!v)
  {
    var s := Loop(v);
    assert SlotSource(LoopWires(), "g", 0) == Some("g");
    assert SlotSource(LoopWires(), "g", 1) == None;
    SourceValueOfUnique(s, 0);
    assert NodeValue(s, LoopWires(), 0) == !v;
    assert RoundPrefix(s, LoopWires(), 1) == Visit(s, LoopWires(), 0);
  }

  /** Two rounds bring the self-fed gate back to where it was. */
  lemma {:induction false} LoopRelax(v: bool, k: nat)
    ensures Relax(Loop(v), LoopWires(), 2 * k) == Loop(v)
    decreases k
  {
    if k > 0 {
      var w := LoopWires();
      LoopRound(v);
      LoopRound(!v);
      assert Loop(!v) != Loop(v) by {
        assert Loop(!v)[0] != Loop(v)[0];
      }
      assert Loop(v) != Loop(!v) by {
        assert Loop(!v)[0] != Loop(v)[0];
      }
      assert Relax(Loop(v), w, 2 * k) == Relax(Loop(!v), w, 2 * k - 1);
      assert Relax(Loop(!v), w, 2 * k - 1) == Relax(Loop(v), w, 2 * (k - 1));
      LoopRelax(v, k - 1);
    }
  }

  lemma LoopRelaxTwice(v: bool, fuel: nat, k: nat)
    requires fuel == 2 * k
    ensures Relax(Loop(v), LoopWires(), fuel) == Loop(v)
  {
    LoopRelax(v, k);
  }

  lemma {:induction false} LoopRoundsUsed(v: bool, fuel: nat)
    ensures RoundsUsed(Loop(v), LoopWires(), fuel) == fuel
    decreases fuel
  {
    if fuel > 0 {
      LoopRound(v);
      LoopRoundsUsed(!v, fuel - 1);
    }
  }

  /** The self-fed NOT gate flips on every round, so the loop always runs out its
      20 rounds; after an even number of flips it ends where it started, unsettled. */
  lemma LoopNeverSettles(v: bool)
    ensures RoundsUsed(Loop(v), LoopWires(), MaxRounds) == MaxRounds
    ensures Propagate(Loop(v), LoopWires()) == Loop(v)
    ensures !Settled(Propagate(Loop(v), LoopWires()), LoopWires())
  {
    LoopRelaxTwice(v, MaxRounds, 10);
    LoopRoundsUsed(v, MaxRounds);
    LoopUnsettled(v);
  }

  lemma LoopUnsettled(v: bool)
    ensures !Settled(Loop(v), LoopWires())
  {
    LoopRound(v);
    RoundFixedIffSettled(Loop(v), LoopWires());
  }

  /** Dragging from a node's output port to a free input slot of another node. */
  lemma Drag(ws: seq<Wire>, from: string, to: string, slot: int, id: string)
    requires from != "" && from != to
    requires forall k :: 0 <= k < |ws| ==> !FeedsSlot(ws[k], to, slot)
    ensures PortClick(PortClick(Wiring(ws, None), from, false, 0, "unused"), to, true, slot, id)
            == Wiring(ws + [Wire(id, from, to, slot)], None)
  {
    ConnectFreeSlot(ws, from, to, slot, id);
  }

  /** The Level 1 board as the player builds it: load the level and drop a NOT gate... */
  lemma FlipperBuiltNodes()
    ensures DropGate(LoadLevel(LevelTable()[0]), "NOT", "g") == Board(Flipper(false, false, false), [])
  {
    SwitchIds();
  }

  /** ... then drag a wire from the switch to the gate and one from the gate to the lamp. */
  lemma FlipperBuiltWires()
    ensures PortClick(PortClick(PortClick(PortClick(Wiring([], None),
              "input-0", false, 0, "unused"), "g", true, 0, "w1"),
              "g", false, 0, "unused"), "output-main", true, 0, "w2")
            == Wiring(FlipperWires(), None)
  {
    var w1 := Wire("w1", "input-0", "g", 0);
    Drag([], "input-0", "g", 0, "w1");
    assert [] + [w1] == [w1];
    Drag([w1], "g", "output-main", 0, "w2");
  }

  /** The Level 5 board as the player builds it: load the level and drop an OR gate... */
  lemma AlarmBuiltNodes()
    ensures DropGate(LoadLevel(LevelTable()[4]), "OR", "g") == Board(Alarm(false, false, false, false, false), [])
  {
    SwitchIds();
  }

  /** ... then wire B and C into the gate and the gate into the lamp. */
  lemma AlarmBuiltWires()
    ensures PortClick(PortClick(PortClick(PortClick(PortClick(PortClick(Wiring([], None),
              "input-1", false, 0, "unused"), "g", true, 0, "w1"),
              "input-2", false, 0, "unused"), "g", true, 1, "w2"),
              "g", false, 0, "unused"), "output-main", true, 0, "w3")
            == Wiring(AlarmWires(), None)
  {
    var w1 := Wire("w1", "input-1", "g", 0);
    var w2 := Wire("w2", "input-2", "g", 1);
    var s1 := PortClick(PortClick(Wiring([], None), "input-1", false, 0, "unused"), "g", true, 0, "w1");
    Drag([], "input-1", "g", 0, "w1");
    assert [] + [w1] == [w1];
    assert s1 == Wiring([w1], None);
    var s2 := PortClick(PortClick(s1, "input-2", false, 0, "unused"), "g", true, 1, "w2");
    Drag([w1], "input-2", "g", 1, "w2");
    assert s2 == Wiring([w1, w2], None);
    Drag([w1, w2], "g", "output-main", 0, "w3");
    assert [w1, w2] + [Wire("w3", "g", "output-main", 0)] == AlarmWires();
  }
}
