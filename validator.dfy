/** The validator, `checkSolution` (App.tsx:134-208): it tries every assignment of the
    switches in ascending counter order, settles a private copy of the board for each,
    and stops at the first whose lamp disagrees with the goal. */
module Validator {
  import opened Circuit
  import opened Ids
  import opened Propagation

  datatype Verdict =
    | Success
      /** The first counter whose settled lamp differs from the goal. */
    | Failure(counter: nat)
      /** No OUTPUT node: reading `outputNode.value` throws, and the run ends there. */
    | NoOutputNode

  /** What a run reports, and the board it leaves on display. */
  datatype Report = Report(verdict: Verdict, shown: seq<Node>)

  function Pow2(k: nat): (r: nat)
    ensures r >= 1
  {
    if k == 0 then 1 else 2 * Pow2(k - 1)
  }

  /** `nodes.filter(n => n.type === NodeType.INPUT).length`. */
  function InputCount(nodes: seq<Node>): (n: nat)
    ensures n <= |nodes|
  {
    |Filter(nodes, (m: Node) => m.kind.Input?)|
  }

  /** `Boolean((i >> k) & 1)`: bit `k` of the counter, least significant first. */
  function Bit(i: nat, k: nat): bool
    decreases k
  {
    if k == 0 then i % 2 == 1 else Bit(i / 2, k - 1)
  }

  /** Bits at or above the counter's width are off. */
  lemma {:induction false} BitAboveWidth(i: nat, k: nat)
    requires i < Pow2(k)
    ensures !Bit(i, k)
  {
    if k > 0 {
      BitAboveWidth(i / 2, k - 1);
    }
  }

  /** `currentInputValues` for counter `i` and `n` switches. */
  function Assignment(i: nat, n: nat): (xs: seq<bool>)
    ensures |xs| == n
  {
    seq(n, k requires 0 <= k < n => Bit(i, k))
  }

  /** The counter whose assignment is `xs`: entry `k` is bit `k`. */
  function Encode(xs: seq<bool>): (i: nat)
    ensures i < Pow2(|xs|)
  {
    if xs == [] then 0 else (if xs[0] then 1 else 0) + 2 * Encode(xs[1..])
  }

  lemma AssignmentStep(i: nat, n: nat)
    ensures Assignment(i, n + 1) == [i % 2 == 1] + Assignment(i / 2, n)
  {
  }

  /** Every assignment of `n` switches is the assignment of exactly one counter below
      `2^n`: decoding the counter of `xs` gives `xs` back ... */
  lemma {:induction false} AssignmentOfEncode(xs: seq<bool>)
    ensures Assignment(Encode(xs), |xs|) == xs
  {
    if xs != [] {
      var i := Encode(xs);
      AssignmentOfEncode(xs[1..]);
      assert i / 2 == Encode(xs[1..]);
      assert (i % 2 == 1) == xs[0];
      AssignmentStep(i, |xs| - 1);
      assert [xs[0]] + xs[1..] == xs;
    }
  }

  /** ... and encoding the assignment of a counter below `2^n` gives the counter back. */
  lemma {:induction false} EncodeOfAssignment(i: nat, n: nat)
    requires i < Pow2(n)
    ensures Encode(Assignment(i, n)) == i
  {
    if n > 0 {
      AssignmentStep(i, n - 1);
      var xs := Assignment(i, n);
      assert xs[1..] == Assignment(i / 2, n - 1);
      EncodeOfAssignment(i / 2, n - 1);
    }
  }

  /** The test board for one assignment (App.tsx:147-153): every INPUT node takes the
      entry its id names. An id that does not parse, or names an entry past the end,
      gives `undefined`, which reads as false. */
  function PinNode(n: Node, xs: seq<bool>): (r: Node)
    ensures r.id == n.id && r.kind == n.kind && r.caption == n.caption
    ensures !n.kind.Input? ==> r == n
    ensures n.kind.Input? ==> (r.value <==> exists k :: InputIndex(n.id) == Some(k) && k < |xs| && xs[k])
  {
    if n.kind.Input? then
      n.(value := match InputIndex(n.id) case Some(k) => k < |xs| && xs[k] case None => false)
    else n
  }

  function PinInputs(nodes: seq<Node>, xs: seq<bool>): (r: seq<Node>)
    ensures |r| == |nodes|
  {
    seq(|nodes|, i requires 0 <= i < |nodes| => PinNode(nodes[i], xs))
  }

  /** The switch with id `input-k` is pinned to entry `k`. */
  lemma PinnedSwitch(nodes: seq<Node>, xs: seq<bool>, p: nat, k: nat)
    requires p < |nodes| && nodes[p].kind.Input? && nodes[p].id == InputId(k) && k < |xs|
    ensures PinInputs(nodes, xs)[p].value == xs[k]
  {
    InputIndexOfInputId(k);
  }

  /** Position of the OUTPUT node that `find(n => n.type === NodeType.OUTPUT)` picks:
      the first one. */
  function FirstOutput(s: seq<Node>): (r: Option<nat>)
    ensures r.Some? ==> r.value < |s| && s[r.value].kind.Output?
    ensures r.Some? ==> forall j :: 0 <= j < r.value ==> !s[j].kind.Output?
    ensures r.None? <==> forall k :: 0 <= k < |s| ==> !s[k].kind.Output?
  {
    Find(s, (n: Node) => n.kind.Output?)
  }

  /** Two boards whose nodes have the same kinds position by position have their first
      OUTPUT node at the same place. */
  lemma FirstOutputByKinds(s: seq<Node>, t: seq<Node>)
    requires |s| == |t| && forall k :: 0 <= k < |s| ==> s[k].kind == t[k].kind
    ensures FirstOutput(s) == FirstOutput(t)
  {
  }

  /** `simNodes.find(n => n.type === NodeType.OUTPUT).value`; `None` when there is none. */
  function OutputValue(s: seq<Node>): (r: Option<bool>)
    ensures r.None? <==> forall k :: 0 <= k < |s| ==> !s[k].kind.Output?
    ensures r.Some? ==> FirstOutput(s).Some? && r.value == s[FirstOutput(s).value].value
  {
    match FirstOutput(s)
    case None => None
    case Some(k) => Some(s[k].value)
  }

  /** The settled private board for assignment `xs`. */
  function SettledFor(nodes: seq<Node>, wires: seq<Wire>, xs: seq<bool>): seq<Node>
  {
    Propagate(PinInputs(nodes, xs), wires)
  }

  /** The lamp the validator reads for assignment `xs`. */
  function LampFor(nodes: seq<Node>, wires: seq<Wire>, xs: seq<bool>): (r: Option<bool>)
    ensures r.None? <==> forall k :: 0 <= k < |nodes| ==> !nodes[k].kind.Output?
    ensures r.Some? ==> FirstOutput(nodes).Some?
                        && r.value == SettledFor(nodes, wires, xs)[FirstOutput(nodes).value].value
  {
    var t := SettledFor(nodes, wires, xs);
    assert forall k :: 0 <= k < |nodes| ==> t[k].kind == PinInputs(nodes, xs)[k].kind == nodes[k].kind;
    FirstOutputByKinds(nodes, t);
    OutputValue(t)
  }

  /** The settled private board of case `i`. */
  function CaseBoard(nodes: seq<Node>, wires: seq<Wire>, i: nat): seq<Node>
  {
    SettledFor(nodes, wires, Assignment(i, InputCount(nodes)))
  }

  predicate HasOutput(nodes: seq<Node>)
  {
    exists k :: 0 <= k < |nodes| && nodes[k].kind.Output?
  }

  /** The lamp read in case `i`. */
  function CaseLamp(nodes: seq<Node>, wires: seq<Wire>, i: nat): (r: Option<bool>)
    ensures r.None? <==> !HasOutput(nodes)
    ensures r.Some? ==> FirstOutput(nodes).Some?
                        && r.value == CaseBoard(nodes, wires, i)[FirstOutput(nodes).value].value
  {
    LampFor(nodes, wires, Assignment(i, InputCount(nodes)))
  }

  /** On a board with a single OUTPUT node, the lamp is that node's settled value. */
  lemma LampOfOnlyOutput(nodes: seq<Node>, wires: seq<Wire>, xs: seq<bool>, p: nat)
    requires p < |nodes| && nodes[p].kind.Output?
    requires forall j :: 0 <= j < |nodes| && j != p ==> !nodes[j].kind.Output?
    ensures LampFor(nodes, wires, xs) == Some(SettledFor(nodes, wires, xs)[p].value)
  {
  }

  /** Case `i` passes when the lamp exists and equals the goal of its assignment. */
  predicate CasePasses(nodes: seq<Node>, wires: seq<Wire>, goal: seq<bool> -> bool, i: nat)
  {
    CaseLamp(nodes, wires, i) == Some(goal(Assignment(i, InputCount(nodes))))
  }

  /** In case `i`, the settled board still shows switch `input-k` at bit `k` of `i`. */
  lemma SwitchFollowsCounter(nodes: seq<Node>, wires: seq<Wire>, i: nat, p: nat, k: nat)
    requires p < |nodes| && nodes[p].kind.Input? && nodes[p].id == InputId(k) && k < InputCount(nodes)
    ensures CaseBoard(nodes, wires, i)[p].value == Bit(i, k)
  {
    var xs := Assignment(i, InputCount(nodes));
    PinnedSwitch(nodes, xs, p, k);
  }

  /** The fail-fast case loop from counter `i` on, over `count` counters: `lamp(j)` is
      the lamp read in case `j` (`None` when the board has no OUTPUT node), `expected(j)`
      the goal's value and `board(j)` the settled board; `shown` is the board committed
      by the previous case. */
  function RunFrom(lamp: nat -> Option<bool>, expected: nat -> bool, board: nat -> seq<Node>,
                   count: int, i: nat, shown: seq<Node>): (r: Report)
    ensures r.verdict.Failure? ==> i <= r.verdict.counter < count && r.shown == board(r.verdict.counter)
    ensures r.verdict == NoOutputNode ==> i < count
    ensures r.verdict == Success && i < count ==> r.shown == board(count - 1)
    decreases count - i
  {
    if i >= count then Report(Success, shown)
    else
      match lamp(i)
      case None => Report(NoOutputNode, shown)
      case Some(l) =>
        if l != expected(i) then Report(Failure(i), board(i))
        else RunFrom(lamp, expected, board, count, i + 1, board(i))
  }

  /** The three views of the cases that the loop consumes. */
  function Lamps(nodes: seq<Node>, wires: seq<Wire>): nat -> Option<bool>
  {
    (j: nat) => CaseLamp(nodes, wires, j)
  }

  function Expected(nodes: seq<Node>, goal: seq<bool> -> bool): nat -> bool
  {
    (j: nat) => goal(Assignment(j, InputCount(nodes)))
  }

  function Boards(nodes: seq<Node>, wires: seq<Wire>): nat -> seq<Node>
  {
    (j: nat) => CaseBoard(nodes, wires, j)
  }

  /** The validator over all `2^n` counters, for `n` switches. */
  function Validate(nodes: seq<Node>, wires: seq<Wire>, goal: seq<bool> -> bool): Report
  {
    RunFrom(Lamps(nodes, wires), Expected(nodes, goal), Boards(nodes, wires), Pow2(InputCount(nodes)), 0, nodes)
  }

  lemma {:induction false} RunFromSuccess(lamp: nat -> Option<bool>, expected: nat -> bool, board: nat -> seq<Node>,
                                          count: int, i: nat, shown: seq<Node>)
    ensures RunFrom(lamp, expected, board, count, i, shown).verdict == Success
        <==> forall j :: i <= j < count ==> lamp(j) == Some(expected(j))
    decreases count - i
  {
    if i < count {
      RunFromSuccess(lamp, expected, board, count, i + 1, board(i));
    }
  }

  lemma {:induction false} RunFromFailure(lamp: nat -> Option<bool>, expected: nat -> bool, board: nat -> seq<Node>,
                                          count: int, i: nat, shown: seq<Node>, c: nat)
    requires forall j :: i <= j < count ==> lamp(j).Some?
    ensures RunFrom(lamp, expected, board, count, i, shown).verdict == Failure(c)
        <==> i <= c < count && lamp(c) != Some(expected(c))
             && forall j :: i <= j < c ==> lamp(j) == Some(expected(j))
    ensures RunFrom(lamp, expected, board, count, i, shown).verdict == Failure(c) ==>
            RunFrom(lamp, expected, board, count, i, shown).shown == board(c)
    decreases count - i
  {
    if i < count {
      RunFromFailure(lamp, expected, board, count, i + 1, board(i), c);
    }
  }

  lemma {:induction false} RunFromNoOutput(lamp: nat -> Option<bool>, expected: nat -> bool, board: nat -> seq<Node>,
                                           count: int, i: nat, shown: seq<Node>, present: bool)
    requires forall j :: i <= j < count ==> (lamp(j).Some? <==> present)
    ensures RunFrom(lamp, expected, board, count, i, shown).verdict == NoOutputNode
        <==> i < count && !present
    decreases count - i
  {
    if i < count {
      RunFromNoOutput(lamp, expected, board, count, i + 1, board(i), present);
    }
  }

  /** Success exactly when, for every assignment of the switches, the settled lamp
      exists and equals the goal: the circuit implements the goal. */
  lemma ValidateSucceedsIff(nodes: seq<Node>, wires: seq<Wire>, goal: seq<bool> -> bool)
    ensures Validate(nodes, wires, goal).verdict == Success
        <==> forall xs: seq<bool> :: |xs| == InputCount(nodes) ==> LampFor(nodes, wires, xs) == Some(goal(xs))
  {
    var n := InputCount(nodes);
    RunFromSuccess(Lamps(nodes, wires), Expected(nodes, goal), Boards(nodes, wires), Pow2(n), 0, nodes);
    if Validate(nodes, wires, goal).verdict == Success {
      forall xs: seq<bool> | |xs| == n
        ensures LampFor(nodes, wires, xs) == Some(goal(xs))
      {
        AssignmentOfEncode(xs);
        var i := Encode(xs);
        assert Lamps(nodes, wires)(i) == Some(Expected(nodes, goal)(i));
      }
    } else {
      var j :| 0 <= j < Pow2(n) && Lamps(nodes, wires)(j) != Some(Expected(nodes, goal)(j));
      var xs := Assignment(j, n);
      assert LampFor(nodes, wires, xs) != Some(goal(xs));
    }
  }

  /** Fail fast: the run fails at counter `c` exactly when case `c` is the first that
      does not pass, and it then shows the settled board of that case. */
  lemma ValidateFailsAtFirstMismatch(nodes: seq<Node>, wires: seq<Wire>, goal: seq<bool> -> bool, c: nat)
    requires HasOutput(nodes)
    ensures Validate(nodes, wires, goal).verdict == Failure(c)
        <==> c < Pow2(InputCount(nodes)) && !CasePasses(nodes, wires, goal, c)
             && forall j :: 0 <= j < c ==> CasePasses(nodes, wires, goal, j)
    ensures Validate(nodes, wires, goal).verdict == Failure(c) ==>
            Validate(nodes, wires, goal).shown == CaseBoard(nodes, wires, c)
  {
    var lamp, expected := Lamps(nodes, wires), Expected(nodes, goal);
    RunFromFailure(lamp, expected, Boards(nodes, wires), Pow2(InputCount(nodes)), 0, nodes, c);
    assert forall j: nat :: CasePasses(nodes, wires, goal, j) <==> lamp(j) == Some(expected(j));
  }

  /** A board without an OUTPUT node ends the run at its first case. */
  lemma ValidateNeedsOutput(nodes: seq<Node>, wires: seq<Wire>, goal: seq<bool> -> bool)
    ensures Validate(nodes, wires, goal).verdict == NoOutputNode <==> !HasOutput(nodes)
  {
    RunFromNoOutput(Lamps(nodes, wires), Expected(nodes, goal), Boards(nodes, wires),
                    Pow2(InputCount(nodes)), 0, nodes, HasOutput(nodes));
  }

  /** After success the board left on display is the settled board of the last
      counter, `2^n - 1`. */
  lemma ValidateShowsLastCase(nodes: seq<Node>, wires: seq<Wire>, goal: seq<bool> -> bool)
    ensures Validate(nodes, wires, goal).verdict == Success ==>
            Validate(nodes, wires, goal).shown == CaseBoard(nodes, wires, Pow2(InputCount(nodes)) - 1)
  {
    var count := Pow2(InputCount(nodes));
    RunShowsLast(Lamps(nodes, wires), Expected(nodes, goal), Boards(nodes, wires), count, nodes);
    BoardsAt(nodes, wires, count - 1);
  }

  lemma RunShowsLast(lamp: nat -> Option<bool>, expected: nat -> bool, board: nat -> seq<Node>,
                     count: nat, shown: seq<Node>)
    requires count >= 1
    ensures RunFrom(lamp, expected, board, count, 0, shown).verdict == Success ==>
            RunFrom(lamp, expected, board, count, 0, shown).shown == board(count - 1)
  {
  }

  lemma BoardsAt(nodes: seq<Node>, wires: seq<Wire>, j: nat)
    ensures Boards(nodes, wires)(j) == CaseBoard(nodes, wires, j)
  {
  }

  /** Without an OUTPUT node the first case throws, and the live board stays on display. */
  lemma ValidateShowsLiveWithoutOutput(nodes: seq<Node>, wires: seq<Wire>, goal: seq<bool> -> bool)
    requires !HasOutput(nodes)
    ensures Validate(nodes, wires, goal) == Report(NoOutputNode, nodes)
  {
    var lamp := Lamps(nodes, wires);
    assert lamp(0).None?;
    RunFromStep(lamp, Expected(nodes, goal), Boards(nodes, wires), Pow2(InputCount(nodes)), 0, nodes);
  }

  /** A goal and its negation never both pass: every run tries at least one case. */
  lemma GoalAndNegationNotBothPass(nodes: seq<Node>, wires: seq<Wire>, goal: seq<bool> -> bool)
    ensures Validate(nodes, wires, goal).verdict != Success
         || Validate(nodes, wires, xs => !goal(xs)).verdict != Success
  {
    var n := InputCount(nodes);
    var negated := xs => !goal(xs);
    RunFromSuccess(Lamps(nodes, wires), Expected(nodes, goal), Boards(nodes, wires), Pow2(n), 0, nodes);
    RunFromSuccess(Lamps(nodes, wires), Expected(nodes, negated), Boards(nodes, wires), Pow2(n), 0, nodes);
    assert Expected(nodes, negated)(0) != Expected(nodes, goal)(0);
  }

  /** `1 << n` as JavaScript computes it: the shift count is taken modulo 32 and the
      result is a signed 32-bit integer. */
  function JsShiftOne(n: nat): (r: int)
    ensures n <= 30 ==> r == Pow2(n)
    ensures n % 32 == 31 ==> r < 0
  {
    var s := n % 32;
    if s == 31 then -0x8000_0000 else Pow2(s)
  }

  /** The validator with the counter bound exactly as written. */
  function ValidateAsWritten(nodes: seq<Node>, wires: seq<Wire>, goal: seq<bool> -> bool): (r: Report)
    ensures InputCount(nodes) <= 30 ==> r == Validate(nodes, wires, goal)
  {
    RunFrom(Lamps(nodes, wires), Expected(nodes, goal), Boards(nodes, wires), JsShiftOne(InputCount(nodes)), 0, nodes)
  }

  /** Up to 30 switches the written bound is `2^n`; at 31 (and 63, ...) it is negative,
      and at 32 (and 64, ...) the shift count wraps to 0. */
  lemma JsShiftOneWraps()
    ensures forall n: nat :: n <= 30 ==> JsShiftOne(n) == Pow2(n)
    ensures forall n: nat :: n % 32 == 31 ==> JsShiftOne(n) < 0
    ensures forall n: nat :: n % 32 == 0 ==> JsShiftOne(n) == 1
  {
  }

  lemma JsShiftOneNegative(n: nat)
    requires n % 32 == 31
    ensures JsShiftOne(n) < 0
  {
  }

  /** With 31 switches the written bound is negative, so no case runs and any circuit
      passes any goal, even a goal and its negation together. */
  lemma AsWrittenPassesAnything(nodes: seq<Node>, wires: seq<Wire>, goal: seq<bool> -> bool)
    requires InputCount(nodes) == 31
    ensures ValidateAsWritten(nodes, wires, goal) == Report(Success, nodes)
    ensures ValidateAsWritten(nodes, wires, xs => !goal(xs)) == Report(Success, nodes)
  {
    var bound := JsShiftOne(InputCount(nodes));
    JsShiftOneNegative(InputCount(nodes));
    RunFromEnd(Lamps(nodes, wires), Expected(nodes, goal), Boards(nodes, wires), bound, 0, nodes);
    RunFromEnd(Lamps(nodes, wires), Expected(nodes, xs => !goal(xs)), Boards(nodes, wires), bound, 0, nodes);
  }

  /** One case on a private copy: the pinned board is copied into a fresh array (the
      `JSON.parse(JSON.stringify(...))` clone of App.tsx:156) and settled in place by the
      same loop as the live refresh; then the lamp is read. */
  method RunCase(nodes: seq<Node>, wires: seq<Wire>, i: nat) returns (lamp: Option<bool>, board: seq<Node>)
    ensures board == CaseBoard(nodes, wires, i)
    ensures lamp == CaseLamp(nodes, wires, i)
  {
    var xs := Assignment(i, InputCount(nodes));
    var testNodes := PinInputs(nodes, xs);
    var sim := new Node[|testNodes|](k requires 0 <= k < |testNodes| => testNodes[k]);
    assert sim[..] == testNodes;
    var _ := Settle(sim, wires);
    board := sim[..];
    lamp := OutputValue(board);
  }

  /** One turn of the case loop, for each way the case can end. */
  lemma RunFromStep(lamp: nat -> Option<bool>, expected: nat -> bool, board: nat -> seq<Node>,
                    count: int, i: nat, shown: seq<Node>)
    requires i < count
    ensures lamp(i).None? ==> RunFrom(lamp, expected, board, count, i, shown) == Report(NoOutputNode, shown)
    ensures lamp(i).Some? && lamp(i).value != expected(i) ==>
              RunFrom(lamp, expected, board, count, i, shown) == Report(Failure(i), board(i))
    ensures lamp(i) == Some(expected(i)) ==>
              RunFrom(lamp, expected, board, count, i, shown) == RunFrom(lamp, expected, board, count, i + 1, board(i))
  {
  }

  lemma RunFromEnd(lamp: nat -> Option<bool>, expected: nat -> bool, board: nat -> seq<Node>,
                   count: int, i: nat, shown: seq<Node>)
    requires i >= count
    ensures RunFrom(lamp, expected, board, count, i, shown) == Report(Success, shown)
  {
  }

  /** The validator from counter `i` on, with `shown` the board of the previous case. */
  function ValidateFrom(nodes: seq<Node>, wires: seq<Wire>, goal: seq<bool> -> bool, i: nat, shown: seq<Node>): Report
  {
    RunFrom(Lamps(nodes, wires), Expected(nodes, goal), Boards(nodes, wires), Pow2(InputCount(nodes)), i, shown)
  }

  /** One case of `checkSolution`'s loop (App.tsx:150-194): run the case on a copy,
      read the lamp and compare it with the goal. `lamp.None?` is the missing OUTPUT
      node; otherwise `pass` says whether the lamp shows the goal's value. The three
      ways the case can end are tied to the rest of the run. */
  method TryCase(nodes: seq<Node>, wires: seq<Wire>, goal: seq<bool> -> bool, i: nat, shown: seq<Node>)
    returns (lamp: Option<bool>, pass: bool, board: seq<Node>)
    requires i < Pow2(InputCount(nodes))
    ensures lamp.None? ==> ValidateFrom(nodes, wires, goal, i, shown) == Report(NoOutputNode, shown)
    ensures lamp.Some? && !pass ==> ValidateFrom(nodes, wires, goal, i, shown) == Report(Failure(i), board)
    ensures lamp.Some? && pass ==> ValidateFrom(nodes, wires, goal, i, shown) == ValidateFrom(nodes, wires, goal, i + 1, board)
  {
    lamp, board := RunCase(nodes, wires, i);
    var want := goal(Assignment(i, InputCount(nodes)));
    pass := lamp == Some(want);
    RunFromStep(Lamps(nodes, wires), Expected(nodes, goal), Boards(nodes, wires), Pow2(InputCount(nodes)), i, shown);
  }

  /** `checkSolution`: try the counters in ascending order on private copies, and break
      at the first case whose lamp differs from the goal. `nodes` is the board's state
      value, which is only read; `shown` is the board committed by the last case tried. */
  method CheckSolution(nodes: seq<Node>, wires: seq<Wire>, goal: seq<bool> -> bool)
    returns (verdict: Verdict, shown: seq<Node>)
    ensures Report(verdict, shown) == Validate(nodes, wires, goal)
  {
    var combinations := Pow2(InputCount(nodes));
    var allPassed := true;
    var failedAt := 0;
    shown := nodes;
    var i := 0;
    while i < combinations
      invariant 0 <= i <= combinations
      invariant ValidateFrom(nodes, wires, goal, i, shown) == Validate(nodes, wires, goal)
    {
      var lamp, pass, board := TryCase(nodes, wires, goal, i, shown);
      if lamp.None? {
        return NoOutputNode, shown;
      }
      if !pass {
        allPassed := false;
        failedAt := i;
        shown := board;
        break;
      }
      shown := board;
      i := i + 1;
    }
    if allPassed {
      RunFromEnd(Lamps(nodes, wires), Expected(nodes, goal), Boards(nodes, wires), combinations, i, shown);
    }
    verdict := if allPassed then Success else Failure(failedAt);
  }
}
