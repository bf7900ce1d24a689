/** The propagation engine: the bounded Gauss-Seidel relaxation that `simulate`
    (App.tsx:76-121) and the inline loop of `checkSolution` (App.tsx:157-182) both run.
    It is defined once, as the specification `Propagate` over a sequence of nodes, and
    implemented once, as the in-place method `Settle`. */
module Propagation {
  import opened Circuit

  /** The round cap of both relaxation loops. */
  const MaxRounds: nat := 20

  predicate FeedsSlot(w: Wire, id: string, slot: int)
  {
    w.to == id && w.toInputIndex == slot
  }

  /** Source id of the wire read for slot `slot` of node `id`. Filtering the wires into
      `id` and then finding the first with the slot index picks the first wire in the
      whole list that has both properties. */
  function SlotSource(wires: seq<Wire>, id: string, slot: int): (r: Option<string>)
    ensures r.None? <==> forall k :: 0 <= k < |wires| ==> !FeedsSlot(wires[k], id, slot)
    ensures r.Some? ==> exists k :: 0 <= k < |wires| && FeedsSlot(wires[k], id, slot) && wires[k].from == r.value
  {
    match Find(wires, (w: Wire) => FeedsSlot(w, id, slot))
    case None => None
    case Some(k) => Some(wires[k].from)
  }

  /** `nodes.find(n => n.id === id)?.value`, where `undefined` behaves as false. */
  function SourceValue(nodes: seq<Node>, id: string): (v: bool)
    ensures v ==> exists k :: 0 <= k < |nodes| && nodes[k].id == id && nodes[k].value
  {
    match Find(nodes, (n: Node) => n.id == id)
    case None => false
    case Some(k) => nodes[k].value
  }

  /** The value a node reads on one input slot: false when no wire feeds the slot or
      when the wire's source is not on the board. */
  function SlotValue(nodes: seq<Node>, wires: seq<Wire>, id: string, slot: int): (r: bool)
    ensures SlotSource(wires, id, slot).None? ==> !r
    ensures r ==> SlotSource(wires, id, slot).Some?
                  && exists k :: 0 <= k < |nodes| && nodes[k].id == SlotSource(wires, id, slot).value && nodes[k].value
  {
    match SlotSource(wires, id, slot)
    case None => false
    case Some(src) => SourceValue(nodes, src)
  }

  /** The evaluation chain of `simulate` (App.tsx:98-111), for slot values `a` and `b`. */
  function Rule(kind: NodeKind, a: bool, b: bool): (r: bool)
    requires !kind.Input?
    ensures !a && !b ==> (r <==> kind == Gate(Some(Not)))
    ensures a && b ==> (r <==> kind != Gate(Some(Not)) && kind != Gate(None))
  {
    match kind
    case Output => a
    case Gate(g) =>
      match g
      case Some(And) => a && b
      case Some(Or) => a || b
      case Some(Not) => !a
      case None => false
  }

  /** The evaluation chain as `checkSolution` writes it (App.tsx:171-175): it tests the
      gate type without first testing that the node is a GATE. It agrees with `simulate`'s
      chain on every node kind, so one propagation serves both call sites. */
  function InlineRule(kind: NodeKind, a: bool, b: bool): (r: bool)
    requires !kind.Input?
    ensures r == Rule(kind, a, b)
  {
    if kind == Output then a
    else if GateTypeOf(kind) == Some(And) then a && b
    else if GateTypeOf(kind) == Some(Or) then a || b
    else if GateTypeOf(kind) == Some(Not) then !a
    else false
  }

  /** The per-kind rules, stated for every pair of slot values. */
  lemma RuleTable(a: bool, b: bool)
    ensures Rule(Output, a, b) == a
    ensures Rule(Gate(Some(And)), a, b) <==> a && b
    ensures Rule(Gate(Some(Or)), a, b) <==> a || b
    ensures Rule(Gate(Some(Not)), a, b) == !a
    ensures Rule(Gate(None), a, b) == false
  {
  }

  /** Slot B is ignored by a NOT gate and by the lamp. */
  lemma RuleIgnoresSlotB(kind: NodeKind, a: bool, b: bool, b': bool)
    requires kind == Output || kind == Gate(Some(Not))
    ensures Rule(kind, a, b) == Rule(kind, a, b')
  {
  }

  /** What node `i` computes from the values currently in `s`: a node other than a NOT
      gate is on only when one of its slots is. */
  function NodeValue(s: seq<Node>, wires: seq<Wire>, i: nat): (r: bool)
    requires i < |s| && !s[i].kind.Input?
    ensures r && s[i].kind != Gate(Some(Not)) ==> SlotValue(s, wires, s[i].id, 0) || SlotValue(s, wires, s[i].id, 1)
  {
    Rule(s[i].kind, SlotValue(s, wires, s[i].id, 0), SlotValue(s, wires, s[i].id, 1))
  }

  /** A missing wire, or a wire from a node that is not on the board, reads as false;
      so an unwired NOT gate computes true and an unwired AND, OR or OUTPUT false. */
  lemma UnwiredSlotsReadFalse(s: seq<Node>, wires: seq<Wire>, i: nat)
    requires i < |s| && !s[i].kind.Input?
    requires forall k :: 0 <= k < |wires| ==> wires[k].to != s[i].id
    ensures NodeValue(s, wires, i) == (s[i].kind == Gate(Some(Not)))
  {
    assert SlotSource(wires, s[i].id, 0).None?;
    assert SlotSource(wires, s[i].id, 1).None?;
  }

  /** One visit of the round: an INPUT node is skipped; any other node is re-evaluated
      against the current values and written back only when its value differs. */
  function Visit(t: seq<Node>, wires: seq<Wire>, i: nat): (r: seq<Node>)
    requires i < |t|
    ensures SameBoard(t, r)
    ensures forall j :: 0 <= j < |t| && j != i ==> r[j] == t[j]
    ensures !t[i].kind.Input? ==> r[i].value == NodeValue(t, wires, i)
  {
    if t[i].kind.Input? then t
    else
      var v := NodeValue(t, wires, i);
      if t[i].value == v then t else t[i := t[i].(value := v)]
  }

  /** `t` is `s` with at most the values of its non-INPUT nodes changed. */
  predicate SameBoard(s: seq<Node>, t: seq<Node>)
  {
    && |t| == |s|
    && forall i :: 0 <= i < |s| ==>
         && t[i].id == s[i].id && t[i].kind == s[i].kind && t[i].caption == s[i].caption
         && (s[i].kind.Input? ==> t[i].value == s[i].value)
  }

  /** The board after the first `k` visits of a round that started from `s`. */
  function RoundPrefix(s: seq<Node>, wires: seq<Wire>, k: nat): (r: seq<Node>)
    requires k <= |s|
    ensures SameBoard(s, r)
    decreases k
  {
    if k == 0 then s else Visit(RoundPrefix(s, wires, k - 1), wires, k - 1)
  }

  /** One full round: every node visited once, in array order. */
  function Round(s: seq<Node>, wires: seq<Wire>): (r: seq<Node>)
    ensures SameBoard(s, r)
  {
    RoundPrefix(s, wires, |s|)
  }

  /** The relaxation loop with `fuel` rounds left: a round that changes nothing ends it. */
  function Relax(s: seq<Node>, wires: seq<Wire>, fuel: nat): (r: seq<Node>)
    ensures SameBoard(s, r)
    decreases fuel
  {
    if fuel == 0 then s
    else
      var t := Round(s, wires);
      if t == s then s else Relax(t, wires, fuel - 1)
  }

  /** The number of rounds the loop runs, the last one included. */
  function RoundsUsed(s: seq<Node>, wires: seq<Wire>, fuel: nat): (r: nat)
    ensures fuel > 0 ==> 1 <= r <= fuel
    ensures fuel == 0 ==> r == 0
    decreases fuel
  {
    if fuel == 0 then 0
    else
      var t := Round(s, wires);
      if t == s then 1 else 1 + RoundsUsed(t, wires, fuel - 1)
  }

  /** The settled board: at most `MaxRounds` rounds, with every INPUT value and every
      id, kind and caption kept. */
  function Propagate(s: seq<Node>, wires: seq<Wire>): (r: seq<Node>)
    ensures SameBoard(s, r)
  {
    Relax(s, wires, MaxRounds)
  }

  /** Every non-INPUT node holds the value it computes from the others. */
  predicate Settled(s: seq<Node>, wires: seq<Wire>)
  {
    forall i :: 0 <= i < |s| && !s[i].kind.Input? ==> s[i].value == NodeValue(s, wires, i)
  }

  lemma {:induction false} RoundPrefixUntouched(s: seq<Node>, wires: seq<Wire>, k: nat)
    requires k <= |s|
    ensures RoundPrefix(s, wires, k)[k..] == s[k..]
    decreases k
  {
    if k > 0 {
      RoundPrefixUntouched(s, wires, k - 1);
    }
  }

  lemma {:induction false} RoundPrefixFrozen(s: seq<Node>, wires: seq<Wire>, k: nat, m: nat)
    requires k <= m <= |s|
    ensures RoundPrefix(s, wires, m)[..k] == RoundPrefix(s, wires, k)[..k]
    decreases m
  {
    if m > k {
      RoundPrefixFrozen(s, wires, k, m - 1);
    }
  }

  /** After `k` visits the board holds the round's final values below `k` and the
      starting values from `k` on. */
  lemma RoundPrefixView(s: seq<Node>, wires: seq<Wire>, k: nat)
    requires k <= |s|
    ensures RoundPrefix(s, wires, k) == Round(s, wires)[..k] + s[k..]
  {
    var p := RoundPrefix(s, wires, k);
    RoundPrefixUntouched(s, wires, k);
    RoundPrefixFrozen(s, wires, k, |s|);
    assert p == p[..k] + p[k..];
  }

  /** Gauss-Seidel order: node `i` is evaluated against the values the same round has
      already written to the nodes before it and the old values of the nodes after it. */
  lemma RoundSeesEarlierWrites(s: seq<Node>, wires: seq<Wire>, i: nat)
    requires i < |s| && !s[i].kind.Input?
    ensures (Round(s, wires)[..i] + s[i..])[i] == s[i]
    ensures Round(s, wires)[i].value == NodeValue(Round(s, wires)[..i] + s[i..], wires, i)
  {
    var r := Round(s, wires);
    RoundPrefixFrozen(s, wires, i + 1, |s|);
    assert r[i] == RoundPrefix(s, wires, i + 1)[i];
    RoundPrefixView(s, wires, i);
  }

  lemma {:induction false} SettledRoundPrefix(s: seq<Node>, wires: seq<Wire>, k: nat)
    requires k <= |s| && Settled(s, wires)
    ensures RoundPrefix(s, wires, k) == s
    decreases k
  {
    if k > 0 {
      SettledRoundPrefix(s, wires, k - 1);
    }
  }

  /** A round changes nothing exactly when the board is settled. */
  lemma RoundFixedIffSettled(s: seq<Node>, wires: seq<Wire>)
    ensures Round(s, wires) == s <==> Settled(s, wires)
  {
    if Settled(s, wires) {
      SettledRoundPrefix(s, wires, |s|);
    }
    if Round(s, wires) == s {
      forall i | 0 <= i < |s| && !s[i].kind.Input?
        ensures s[i].value == NodeValue(s, wires, i)
      {
        RoundSeesEarlierWrites(s, wires, i);
        assert s[..i] + s[i..] == s;
      }
    }
  }

  lemma {:induction false} RelaxEndsOnFixpoint(s: seq<Node>, wires: seq<Wire>, fuel: nat)
    requires RoundsUsed(s, wires, fuel) < fuel
    ensures Round(Relax(s, wires, fuel), wires) == Relax(s, wires, fuel)
    decreases fuel
  {
    var t := Round(s, wires);
    if t != s {
      RelaxEndsOnFixpoint(t, wires, fuel - 1);
    }
  }

  /** A loop that stops before the cap leaves a settled board, and propagating that
      board again changes nothing. */
  lemma EarlyExitIsFixpoint(s: seq<Node>, wires: seq<Wire>)
    requires RoundsUsed(s, wires, MaxRounds) < MaxRounds
    ensures Settled(Propagate(s, wires), wires)
    ensures Propagate(Propagate(s, wires), wires) == Propagate(s, wires)
  {
    var p := Propagate(s, wires);
    RelaxEndsOnFixpoint(s, wires, MaxRounds);
    RoundFixedIffSettled(p, wires);
  }

  /** A settled board is left as it is, after a single round. */
  lemma SettledIsKept(s: seq<Node>, wires: seq<Wire>)
    requires Settled(s, wires)
    ensures Propagate(s, wires) == s
    ensures RoundsUsed(s, wires, MaxRounds) == 1
  {
    RoundFixedIffSettled(s, wires);
  }

  /** One round of the loop on `a`, in place; `changed` reports whether any value moved. */
  method RunRound(a: array<Node>, wires: seq<Wire>) returns (changed: bool)
    modifies a
    ensures a[..] == Round(old(a[..]), wires)
    ensures changed <==> a[..] != old(a[..])
  {
    ghost var s := a[..];
    changed := false;
    var i := 0;
    while i < a.Length
      invariant 0 <= i <= a.Length
      invariant a[..] == RoundPrefix(s, wires, i)
      invariant changed <==> exists j :: 0 <= j < i && a[j] != s[j]
    {
      RoundPrefixUntouched(s, wires, i);
      assert a[i] == s[i];
      if !a[i].kind.Input? {
        var v := NodeValue(a[..], wires, i);
        if a[i].value != v {
          a[i] := a[i].(value := v);
          changed := true;
        }
      }
      i := i + 1;
    }
    if a[..] != s {
      var j :| 0 <= j < |s| && a[..][j] != s[j];
      assert a[j] != s[j];
    }
  }

  /** The relaxation loop, run in place on `a`: at most `MaxRounds` rounds, stopping
      after the first round that changes nothing. `rounds` is the loop counter. */
  method Settle(a: array<Node>, wires: seq<Wire>) returns (rounds: nat)
    modifies a
    ensures a[..] == Propagate(old(a[..]), wires)
    ensures rounds == RoundsUsed(old(a[..]), wires, MaxRounds)
  {
    ghost var s0 := a[..];
    var changed := true;
    rounds := 0;
    while changed && rounds < MaxRounds
      invariant 0 <= rounds <= MaxRounds
      invariant Relax(a[..], wires, MaxRounds - rounds) == Propagate(s0, wires)
      invariant changed ==> rounds + RoundsUsed(a[..], wires, MaxRounds - rounds) == RoundsUsed(s0, wires, MaxRounds)
      invariant !changed ==> rounds == RoundsUsed(s0, wires, MaxRounds) && Round(a[..], wires) == a[..]
    {
      changed := RunRound(a, wires);
      rounds := rounds + 1;
    }
  }

  /** The live refresh after an edit: suppressed while a validation pass is running,
      otherwise the live node objects are settled in place (the copy at App.tsx:77 is
      shallow, so `simulate` writes into the nodes the board shows). */
  method Refresh(live: array<Node>, wires: seq<Wire>, simulating: bool)
    modifies live
    ensures simulating ==> live[..] == old(live[..])
    ensures !simulating ==> live[..] == Propagate(old(live[..]), wires)
  {
    if simulating {
      return;
    }
    var _ := Settle(live, wires);
  }
}
