/** The board edits of App.tsx as list rewrites: loading a level, dropping a gate,
    toggling a switch, the connect click, and deleting a node or a wire. Ids for new
    nodes and wires (`generateId`, App.tsx:9) are supplied by the caller. */
module Editing {
  import opened Circuit
  import opened Ids
  import opened Levels
  import opened Propagation
  import opened Validator

  /** The live `nodes` and `wires` state. */
  datatype Board = Board(nodes: seq<Node>, wires: seq<Wire>)

  const OutputId: string := "output-main"

  predicate HasNode(nodes: seq<Node>, id: string)
  {
    exists i :: 0 <= i < |nodes| && nodes[i].id == id
  }

  predicate UniqueIds(nodes: seq<Node>)
  {
    forall i, j :: 0 <= i < j < |nodes| ==> nodes[i].id != nodes[j].id
  }

  /** With distinct ids, a wire from node `i` reads node `i`'s value. */
  lemma SourceValueOfUnique(nodes: seq<Node>, i: nat)
    requires UniqueIds(nodes) && i < |nodes|
    ensures SourceValue(nodes, nodes[i].id) == nodes[i].value
  {
    var f := Find(nodes, (n: Node) => n.id == nodes[i].id);
    assert f == Some(i);
  }

  function OutputCount(nodes: seq<Node>): nat
  {
    |Filter(nodes, (n: Node) => n.kind.Output?)|
  }

  /** Every wire starts and ends at a node on the board. */
  predicate WiresClosed(nodes: seq<Node>, wires: seq<Wire>)
  {
    forall k :: 0 <= k < |wires| ==> HasNode(nodes, wires[k].from) && HasNode(nodes, wires[k].to)
  }

  /** The board invariants the editor keeps: distinct node ids, exactly one OUTPUT
      node, and no wire whose source or target is missing. */
  predicate WellFormed(b: Board)
  {
    UniqueIds(b.nodes) && OutputCount(b.nodes) == 1 && WiresClosed(b.nodes, b.wires)
  }

  /** `loadLevel`: one switch `input-k` per label of the level, off, then the lamp,
      off, and no wires. */
  function LoadLevel(level: Level): (b: Board)
    ensures |b.nodes| == |level.inputs| + 1 && b.wires == []
  {
    Board(Switches(level.inputs) + [Lamp()], [])
  }

  /** One switch per label, switch `k` named `input-k`. */
  function Switches(labels: seq<string>): (s: seq<Node>)
    ensures |s| == |labels|
    ensures forall k :: 0 <= k < |s| ==> s[k] == Node(InputId(k), Input, labels[k], false)
  {
    seq(|labels|, k requires 0 <= k < |labels| => Node(InputId(k), Input, labels[k], false))
  }

  function Lamp(): Node
  {
    Node(OutputId, Output, "LAMP", false)
  }

  lemma SwitchesUnique(labels: seq<string>)
    ensures UniqueIds(Switches(labels) + [Lamp()])
  {
    var nodes := Switches(labels) + [Lamp()];
    forall i, j | 0 <= i < j < |nodes| ensures nodes[i].id != nodes[j].id {
      if j < |labels| {
        InputIdInjective(i, j);
      } else {
        assert nodes[i].id[0] == 'i' && nodes[j].id[0] == 'o';
      }
    }
  }

  /** The fresh board is well formed. */
  lemma LoadLevelWellFormed(level: Level)
    ensures WellFormed(LoadLevel(level))
  {
    var switches := Switches(level.inputs);
    SwitchesUnique(level.inputs);
    FilterSnoc(switches, Lamp(), (m: Node) => m.kind.Output?);
    FilterNone(switches, (m: Node) => m.kind.Output?);
  }

  /** The validator counts one switch per label on the fresh board. */
  lemma LoadLevelInputCount(level: Level)
    ensures InputCount(LoadLevel(level).nodes) == |level.inputs|
  {
    var switches := Switches(level.inputs);
    FilterSnoc(switches, Lamp(), (m: Node) => m.kind.Input?);
    FilterKeepsAll(switches, (m: Node) => m.kind.Input?);
  }

  /** On the fresh board every switch is off and switch `k`, labelled with the level's
      `k`-th label, is the one the validator pins to bit `k` of the counter; the lamp
      comes last, off. */
  lemma LoadLevelSwitches(level: Level)
    ensures forall k :: 0 <= k < |level.inputs| ==>
              var m := LoadLevel(level).nodes[k];
              m.kind.Input? && InputIndex(m.id) == Some(k) && m.caption == level.inputs[k] && !m.value
    ensures var m := LoadLevel(level).nodes[|level.inputs|];
            m.kind.Output? && m.id == OutputId && !m.value
  {
    var nodes := LoadLevel(level).nodes;
    forall k | 0 <= k < |level.inputs| ensures InputIndex(nodes[k].id) == Some(k) {
      assert nodes[k].id == InputId(k);
      InputIndexOfInputId(k);
    }
  }

  /** The gate kind named by a dragged string; any other string gives a GATE without
      a usable gate type. */
  function ParseGateType(s: string): (g: Option<GateType>)
    ensures g == Some(And) <==> s == "AND"
    ensures g == Some(Or) <==> s == "OR"
    ensures g == Some(Not) <==> s == "NOT"
  {
    if s == "AND" then Some(And) else if s == "OR" then Some(Or) else if s == "NOT" then Some(Not) else None
  }

  /** `handleBoardDrop`: an empty drag payload does nothing; otherwise a GATE node
      with that gate type and label, off, is appended. */
  function DropGate(b: Board, dropped: string, id: string): (r: Board)
    ensures dropped == "" ==> r == b
    ensures dropped != "" ==> r.wires == b.wires && |r.nodes| == |b.nodes| + 1 && r.nodes[..|b.nodes|] == b.nodes
    ensures dropped != "" ==> r.nodes[|b.nodes|].id == id && r.nodes[|b.nodes|].caption == dropped
    ensures dropped != "" ==> r.nodes[|b.nodes|].kind.Gate? && r.nodes[|b.nodes|].kind.gate == ParseGateType(dropped)
    ensures dropped != "" ==> !r.nodes[|b.nodes|].value
  {
    if dropped == "" then b
    else Board(b.nodes + [Node(id, Gate(ParseGateType(dropped)), dropped, false)], b.wires)
  }

  /** Dropping a gate under a fresh id keeps the board well formed. */
  lemma DropGateKeepsWellFormed(b: Board, dropped: string, id: string)
    requires WellFormed(b) && !HasNode(b.nodes, id)
    ensures WellFormed(DropGate(b, dropped, id))
  {
    if dropped != "" {
      var g := Node(id, Gate(ParseGateType(dropped)), dropped, false);
      FilterSnoc(b.nodes, g, (m: Node) => m.kind.Output?);
      var r := DropGate(b, dropped, id);
      forall k | 0 <= k < |r.wires| ensures HasNode(r.nodes, r.wires[k].from) && HasNode(r.nodes, r.wires[k].to) {
        var i :| 0 <= i < |b.nodes| && b.nodes[i].id == b.wires[k].from;
        var j :| 0 <= j < |b.nodes| && b.nodes[j].id == b.wires[k].to;
        assert r.nodes[i] == b.nodes[i] && r.nodes[j] == b.nodes[j];
      }
    }
  }

  /** `handleInputToggle`: flips the value of every node with that id, and nothing else. */
  function ToggleInput(b: Board, id: string): (r: Board)
    ensures r.wires == b.wires && |r.nodes| == |b.nodes|
    ensures forall i :: 0 <= i < |b.nodes| ==>
              r.nodes[i].id == b.nodes[i].id && r.nodes[i].kind == b.nodes[i].kind && r.nodes[i].caption == b.nodes[i].caption
    ensures forall i :: 0 <= i < |b.nodes| ==> (r.nodes[i].value != b.nodes[i].value <==> b.nodes[i].id == id)
  {
    Board(seq(|b.nodes|, i requires 0 <= i < |b.nodes| =>
            if b.nodes[i].id == id then b.nodes[i].(value := !b.nodes[i].value) else b.nodes[i]),
          b.wires)
  }

  /** Toggling twice restores the board. */
  lemma ToggleTwice(b: Board, id: string)
    ensures ToggleInput(ToggleInput(b, id), id) == b
  {
    var r := ToggleInput(ToggleInput(b, id), id);
    assert forall i :: 0 <= i < |b.nodes| ==> r.nodes[i] == b.nodes[i];
  }

  lemma ToggleKeepsWellFormed(b: Board, id: string)
    requires WellFormed(b)
    ensures WellFormed(ToggleInput(b, id))
  {
    var r := ToggleInput(b, id);
    FilterSameKinds(b.nodes, r.nodes);
    forall k | 0 <= k < |r.wires| ensures HasNode(r.nodes, r.wires[k].from) && HasNode(r.nodes, r.wires[k].to) {
      var i :| 0 <= i < |b.nodes| && b.nodes[i].id == b.wires[k].from;
      var j :| 0 <= j < |b.nodes| && b.nodes[j].id == b.wires[k].to;
      assert r.nodes[i].id == b.nodes[i].id && r.nodes[j].id == b.nodes[j].id;
    }
  }

  lemma {:induction false} FilterSameKinds(s: seq<Node>, t: seq<Node>)
    requires |s| == |t| && forall i :: 0 <= i < |s| ==> t[i].kind == s[i].kind
    ensures OutputCount(t) == OutputCount(s)
  {
    if s != [] {
      FilterSameKinds(s[1..], t[1..]);
    }
  }

  /** The connect branch of `handlePortClick`: drop every wire on slot `slot` of `to`
      and append the new wire at the end. */
  function ConnectWire(wires: seq<Wire>, from: string, to: string, slot: int, id: string): (r: seq<Wire>)
    ensures |r| >= 1 && r[|r| - 1] == Wire(id, from, to, slot)
    ensures forall w :: w in r[..|r| - 1] <==> w in wires && !FeedsSlot(w, to, slot)
    ensures r[..|r| - 1] == Filter(wires, (w: Wire) => !FeedsSlot(w, to, slot))
  {
    Filter(wires, (w: Wire) => !FeedsSlot(w, to, slot)) + [Wire(id, from, to, slot)]
  }

  /** The slot reads the first wire that feeds it: the head if it does, else the tail's. */
  lemma SlotSourceCons(ws: seq<Wire>, t: string, k: int)
    requires ws != []
    ensures SlotSource(ws, t, k) == if FeedsSlot(ws[0], t, k) then Some(ws[0].from) else SlotSource(ws[1..], t, k)
  {
    FindCons(ws, (w: Wire) => FeedsSlot(w, t, k));
  }

  lemma {:induction false} SlotSourceSkipsOthers(ws: seq<Wire>, keep: Wire -> bool, t: string, k: int)
    requires forall i :: 0 <= i < |ws| && !keep(ws[i]) ==> !FeedsSlot(ws[i], t, k)
    ensures SlotSource(Filter(ws, keep), t, k) == SlotSource(ws, t, k)
  {
    if ws != [] {
      SlotSourceSkipsOthers(ws[1..], keep, t, k);
      SlotSourceCons(ws, t, k);
      var f := Filter(ws[1..], keep);
      if keep(ws[0]) {
        assert Filter(ws, keep) == [ws[0]] + f;
        assert ([ws[0]] + f)[1..] == f;
        SlotSourceCons([ws[0]] + f, t, k);
      }
    }
  }

  /** A filter that drops only wires from `d` leaves a slot reading what it read, as long
      as that was not `d`. */
  lemma {:induction false} SlotSourceKeepsFirst(ws: seq<Wire>, keep: Wire -> bool, t: string, k: int, d: string)
    requires forall i :: 0 <= i < |ws| && FeedsSlot(ws[i], t, k) && !keep(ws[i]) ==> ws[i].from == d
    requires SlotSource(ws, t, k) != Some(d)
    ensures SlotSource(Filter(ws, keep), t, k) == SlotSource(ws, t, k)
  {
    if ws != [] {
      SlotSourceCons(ws, t, k);
      var f := Filter(ws[1..], keep);
      if FeedsSlot(ws[0], t, k) {
        assert keep(ws[0]);
        assert Filter(ws, keep) == [ws[0]] + f;
        assert ([ws[0]] + f)[1..] == f;
        SlotSourceCons([ws[0]] + f, t, k);
      } else {
        SlotSourceKeepsFirst(ws[1..], keep, t, k, d);
        if keep(ws[0]) {
          assert Filter(ws, keep) == [ws[0]] + f;
          assert ([ws[0]] + f)[1..] == f;
          SlotSourceCons([ws[0]] + f, t, k);
        }
      }
    }
  }

  lemma {:induction false} SlotSourceAppend(ws: seq<Wire>, x: Wire, t: string, k: int)
    ensures SlotSource(ws + [x], t, k) == if SlotSource(ws, t, k).Some? then SlotSource(ws, t, k)
                                          else if FeedsSlot(x, t, k) then Some(x.from) else None
  {
    if ws == [] {
      assert ws + [x] == [x];
      SlotSourceCons([x], t, k);
      assert [x][1..] == [];
    } else {
      assert (ws + [x])[1..] == ws[1..] + [x];
      SlotSourceCons(ws + [x], t, k);
      SlotSourceCons(ws, t, k);
      SlotSourceAppend(ws[1..], x, t, k);
    }
  }

  /** After connecting, the engine reads `from` on that slot, exactly one wire occupies
      the slot, and every other slot reads the source it read before. */
  lemma ConnectRewiresOneSlot(wires: seq<Wire>, from: string, to: string, slot: int, id: string, t: string, k: int)
    ensures SlotSource(ConnectWire(wires, from, to, slot, id), to, slot) == Some(from)
    ensures |Filter(ConnectWire(wires, from, to, slot, id), (w: Wire) => FeedsSlot(w, to, slot))| == 1
    ensures (t, k) != (to, slot) ==>
              SlotSource(ConnectWire(wires, from, to, slot, id), t, k) == SlotSource(wires, t, k)
  {
    var kept := Filter(wires, (w: Wire) => !FeedsSlot(w, to, slot));
    var w := Wire(id, from, to, slot);
    ConnectReadsNewSource(kept, w);
    ConnectLeavesOneWire(kept, w);
    if (t, k) != (to, slot) {
      SlotSourceAppend(kept, w, t, k);
      SlotSourceSkipsOthers(wires, (v: Wire) => !FeedsSlot(v, to, slot), t, k);
    }
  }

  lemma ConnectReadsNewSource(kept: seq<Wire>, w: Wire)
    requires forall v :: v in kept ==> !FeedsSlot(v, w.to, w.toInputIndex)
    ensures SlotSource(kept + [w], w.to, w.toInputIndex) == Some(w.from)
  {
    SlotSourceAppend(kept, w, w.to, w.toInputIndex);
    assert forall i :: 0 <= i < |kept| ==> kept[i] in kept;
  }

  lemma ConnectLeavesOneWire(kept: seq<Wire>, w: Wire)
    requires forall v :: v in kept ==> !FeedsSlot(v, w.to, w.toInputIndex)
    ensures |Filter(kept + [w], (v: Wire) => FeedsSlot(v, w.to, w.toInputIndex))| == 1
  {
    var feeds := (v: Wire) => FeedsSlot(v, w.to, w.toInputIndex);
    assert forall i :: 0 <= i < |kept| ==> kept[i] in kept;
    FilterSnoc(kept, w, feeds);
    FilterNone(kept, feeds);
  }

  /** Connecting two nodes that are on the board keeps the board well formed. */
  lemma ConnectKeepsWellFormed(b: Board, from: string, to: string, slot: int, id: string)
    requires WellFormed(b) && HasNode(b.nodes, from) && HasNode(b.nodes, to)
    ensures WellFormed(Board(b.nodes, ConnectWire(b.wires, from, to, slot, id)))
  {
    var r := ConnectWire(b.wires, from, to, slot, id);
    forall k | 0 <= k < |r| ensures HasNode(b.nodes, r[k].from) && HasNode(b.nodes, r[k].to) {
      if k < |r| - 1 {
        assert r[k] in r[..|r| - 1];
      }
    }
  }

  /** The wiring state the port clicks drive: the wires and the pending wire start. */
  datatype Wiring = Wiring(wires: seq<Wire>, wireStart: Option<string>)

  /** `if (wireStartNode)`: null and the empty string are falsy. */
  predicate Truthy(s: Option<string>)
  {
    s.Some? && s.value != ""
  }

  /** `handlePortClick`: an output-port click starts a wire; an input-port click with a
      pending start on the same node cancels it, and otherwise connects. */
  function PortClick(st: Wiring, nodeId: string, isInput: bool, inputIndex: int, id: string): (r: Wiring)
    ensures !isInput ==> r == Wiring(st.wires, Some(nodeId))
    ensures isInput && !Truthy(st.wireStart) ==> r == st
    ensures isInput && Truthy(st.wireStart) ==> r.wireStart.None?
    ensures r.wires != st.wires ==> isInput && Truthy(st.wireStart) && st.wireStart.value != nodeId
  {
    if !isInput then Wiring(st.wires, Some(nodeId))
    else if !Truthy(st.wireStart) then st
    else if st.wireStart.value == nodeId then Wiring(st.wires, None)
    else Wiring(ConnectWire(st.wires, st.wireStart.value, nodeId, inputIndex, id), None)
  }

  /** Clicking a node's input port while its own output port is pending creates no
      wire and clears the pending start. */
  lemma SelfConnectionCancelled(st: Wiring, nodeId: string, inputIndex: int, id: string)
    requires st.wireStart == Some(nodeId) && nodeId != ""
    ensures PortClick(st, nodeId, true, inputIndex, id) == Wiring(st.wires, None)
  {
  }

  /** A completed connection: the slot now reads the pending start and holds exactly
      one wire, and the pending start is cleared. */
  lemma PortClickConnects(st: Wiring, nodeId: string, inputIndex: int, id: string)
    requires Truthy(st.wireStart) && st.wireStart.value != nodeId
    ensures var r := PortClick(st, nodeId, true, inputIndex, id);
            && r.wireStart.None?
            && SlotSource(r.wires, nodeId, inputIndex) == Some(st.wireStart.value)
            && |Filter(r.wires, (w: Wire) => FeedsSlot(w, nodeId, inputIndex))| == 1
  {
    ConnectRewiresOneSlot(st.wires, st.wireStart.value, nodeId, inputIndex, id, nodeId, inputIndex);
  }

  /** A port click on a node of a well-formed board keeps the board well formed, provided
      the pending start is a node of the same board; the new pending start is one too. */
  lemma PortClickKeepsWellFormed(b: Board, st: Wiring, nodeId: string, isInput: bool, inputIndex: int, id: string)
    requires WellFormed(b) && st.wires == b.wires && HasNode(b.nodes, nodeId)
    requires st.wireStart.Some? ==> HasNode(b.nodes, st.wireStart.value)
    ensures var r := PortClick(st, nodeId, isInput, inputIndex, id);
            && WellFormed(Board(b.nodes, r.wires))
            && (r.wireStart.Some? ==> HasNode(b.nodes, r.wireStart.value))
  {
    if isInput && Truthy(st.wireStart) && st.wireStart.value != nodeId {
      ConnectKeepsWellFormed(b, st.wireStart.value, nodeId, inputIndex, id);
    }
  }

  /** `loadLevel` leaves `wireStartNode` as it was. A start still pending from the
      previous level names no node of the new board, and clicking the lamp's input
      then lays a wire from that missing node. */
  lemma StaleStartDangles(level: Level, stale: string, id: string)
    requires stale != "" && !HasNode(LoadLevel(level).nodes, stale)
    ensures var b := LoadLevel(level);
            && WellFormed(b)
            && PortClick(Wiring(b.wires, Some(stale)), OutputId, true, 0, id).wires == [Wire(id, stale, OutputId, 0)]
            && !WellFormed(Board(b.nodes, PortClick(Wiring(b.wires, Some(stale)), OutputId, true, 0, id).wires))
  {
    var b := LoadLevel(level);
    LoadLevelWellFormed(level);
    assert b.nodes[|b.nodes| - 1] == Lamp();
    assert stale != OutputId;
    var r := PortClick(Wiring(b.wires, Some(stale)), OutputId, true, 0, id);
    assert r.wires == [Wire(id, stale, OutputId, 0)];
    assert !HasNode(b.nodes, r.wires[0].from);
  }

  /** `deleteNode`: refused for a switch or the lamp (the first node with that id
      decides); otherwise every node with that id goes, and every wire from or to it. */
  function DeleteNode(b: Board, id: string): (r: Board)
    ensures r == b || ((forall n :: n in r.nodes ==> n.id != id) && (forall w :: w in r.wires ==> w.from != id && w.to != id))
    ensures forall n :: n in r.nodes ==> n in b.nodes
    ensures forall w :: w in r.wires ==> w in b.wires
    ensures r != b ==> forall n :: n in b.nodes && n.id != id ==> n in r.nodes
    ensures r != b ==> forall w :: w in b.wires && w.from != id && w.to != id ==> w in r.wires
  {
    var found := Find(b.nodes, (n: Node) => n.id == id);
    if found.Some? && !b.nodes[found.value].kind.Gate? then b
    else
      Board(Filter(b.nodes, (n: Node) => n.id != id),
            Filter(b.wires, (w: Wire) => w.from != id && w.to != id))
  }

  lemma {:induction false} FilterKeepsUnique(s: seq<Node>, keep: Node -> bool)
    requires UniqueIds(s)
    ensures UniqueIds(Filter(s, keep))
  {
    if s != [] {
      FilterKeepsUnique(s[1..], keep);
      var f := Filter(s[1..], keep);
      if keep(s[0]) {
        forall j | 0 <= j < |f| ensures f[j].id != s[0].id {
          assert f[j] in f;
        }
      }
    }
  }

  /** Deleting a node keeps the board well formed: the lamp survives and no dangling
      wire is left behind. */
  lemma DeleteNodeKeepsWellFormed(b: Board, id: string)
    requires WellFormed(b)
    ensures WellFormed(DeleteNode(b, id))
  {
    var r := DeleteNode(b, id);
    if r != b {
      FilterKeepsUnique(b.nodes, (n: Node) => n.id != id);
      DeleteNodeKeepsLamp(b, id);
      DeleteNodeKeepsWiresClosed(b, id);
    }
  }

  /** A deletion that goes ahead never takes the lamp. */
  lemma DeleteNodeKeepsLamp(b: Board, id: string)
    requires UniqueIds(b.nodes) && DeleteNode(b, id) != b
    ensures OutputCount(DeleteNode(b, id).nodes) == OutputCount(b.nodes)
  {
    var keep := (n: Node) => n.id != id;
    var isOut := (n: Node) => n.kind.Output?;
    var f := Find(b.nodes, (n: Node) => n.id == id);
    forall k | 0 <= k < |b.nodes| && isOut(b.nodes[k]) ensures keep(b.nodes[k]) {
    }
    FilterAbsorbed(b.nodes, keep, isOut);
  }

  /** A deletion that goes ahead takes every wire touching the node with it. */
  lemma DeleteNodeKeepsWiresClosed(b: Board, id: string)
    requires WiresClosed(b.nodes, b.wires) && DeleteNode(b, id) != b
    ensures WiresClosed(DeleteNode(b, id).nodes, DeleteNode(b, id).wires)
  {
    var r := DeleteNode(b, id);
    forall k | 0 <= k < |r.wires| ensures HasNode(r.nodes, r.wires[k].from) && HasNode(r.nodes, r.wires[k].to) {
      var w := r.wires[k];
      assert w in b.wires;
      var k' :| 0 <= k' < |b.wires| && b.wires[k'] == w;
      var i :| 0 <= i < |b.nodes| && b.nodes[i].id == w.from;
      var j :| 0 <= j < |b.nodes| && b.nodes[j].id == w.to;
      assert b.nodes[i] in r.nodes && b.nodes[j] in r.nodes;
    }
  }

  /** On a well-formed board a switch or the lamp cannot be deleted. */
  lemma SwitchesAndLampStay(b: Board, i: nat)
    requires WellFormed(b) && i < |b.nodes| && !b.nodes[i].kind.Gate?
    ensures DeleteNode(b, b.nodes[i].id) == b
  {
    var f := Find(b.nodes, (n: Node) => n.id == b.nodes[i].id);
    assert f.Some?;
  }

  /** On a well-formed board deleting a gate removes exactly that node, keeps the
      order of the others, and drops exactly the wires that touch it. */
  lemma DeleteGate(b: Board, i: nat)
    requires WellFormed(b) && i < |b.nodes| && b.nodes[i].kind.Gate?
    ensures DeleteNode(b, b.nodes[i].id).nodes == b.nodes[..i] + b.nodes[i + 1..]
    ensures forall w :: w in DeleteNode(b, b.nodes[i].id).wires <==>
              w in b.wires && w.from != b.nodes[i].id && w.to != b.nodes[i].id
    ensures DeleteNode(b, b.nodes[i].id).wires
            == Filter(b.wires, (w: Wire) => w.from != b.nodes[i].id && w.to != b.nodes[i].id)
  {
    var f := Find(b.nodes, (n: Node) => n.id == b.nodes[i].id);
    assert f == Some(i);
    var id := b.nodes[i].id;
    FilterDropsOne(b.nodes, i, (n: Node) => n.id != id);
  }

  /** A deletion that goes ahead leaves every slot of the other nodes reading the source
      it read before, unless that source was the deleted node. */
  lemma DeleteNodeKeepsOtherSlots(b: Board, id: string, t: string, k: int)
    requires DeleteNode(b, id) != b && t != id
    requires SlotSource(b.wires, t, k) != Some(id)
    ensures SlotSource(DeleteNode(b, id).wires, t, k) == SlotSource(b.wires, t, k)
  {
    var keep := (w: Wire) => w.from != id && w.to != id;
    assert DeleteNode(b, id).wires == Filter(b.wires, keep);
    SlotSourceKeepsFirst(b.wires, keep, t, k, id);
  }

  /** Removing a gate just dropped under a fresh id restores the board. */
  lemma DropThenDelete(b: Board, dropped: string, id: string)
    requires WellFormed(b) && !HasNode(b.nodes, id) && dropped != ""
    ensures DeleteNode(DropGate(b, dropped, id), id) == b
  {
    var g := Node(id, Gate(ParseGateType(dropped)), dropped, false);
    var nodes := b.nodes + [g];
    assert nodes[|b.nodes|].id == id;
    assert forall j :: 0 <= j < |b.nodes| ==> nodes[j].id != id;
    assert Find(nodes, (n: Node) => n.id == id) == Some(|b.nodes|);
    FilterSnoc(b.nodes, g, (n: Node) => n.id != id);
    FilterKeepsAll(b.nodes, (n: Node) => n.id != id);
    forall k | 0 <= k < |b.wires| ensures b.wires[k].from != id && b.wires[k].to != id {
      assert HasNode(b.nodes, b.wires[k].from) && HasNode(b.nodes, b.wires[k].to);
    }
    FilterKeepsAll(b.wires, (w: Wire) => w.from != id && w.to != id);
  }

  /** `deleteWire`: removes every wire with that id and keeps the rest in order. */
  function DeleteWire(b: Board, id: string): (r: Board)
    ensures r.nodes == b.nodes
    ensures forall w :: w in r.wires <==> w in b.wires && w.id != id
  {
    Board(b.nodes, Filter(b.wires, (w: Wire) => w.id != id))
  }

  lemma DeleteWireKeepsWellFormed(b: Board, id: string)
    requires WellFormed(b)
    ensures WellFormed(DeleteWire(b, id))
  {
    var r := DeleteWire(b, id);
    forall k | 0 <= k < |r.wires| ensures HasNode(r.nodes, r.wires[k].from) && HasNode(r.nodes, r.wires[k].to) {
      assert r.wires[k] in b.wires;
    }
  }

  /** Connecting to a slot no wire feeds yet only appends the new wire. */
  lemma ConnectFreeSlot(wires: seq<Wire>, from: string, to: string, slot: int, id: string)
    requires forall k :: 0 <= k < |wires| ==> !FeedsSlot(wires[k], to, slot)
    ensures ConnectWire(wires, from, to, slot, id) == wires + [Wire(id, from, to, slot)]
  {
    FilterKeepsAll(wires, (w: Wire) => !FeedsSlot(w, to, slot));
  }

  /** Deleting the wire a connect just added, under a fresh wire id, leaves exactly the
      wires the connect kept. */
  lemma ConnectThenDeleteWire(b: Board, from: string, to: string, slot: int, id: string)
    requires forall k :: 0 <= k < |b.wires| ==> b.wires[k].id != id
    ensures DeleteWire(Board(b.nodes, ConnectWire(b.wires, from, to, slot, id)), id).wires
            == Filter(b.wires, (w: Wire) => !FeedsSlot(w, to, slot))
  {
    var kept := Filter(b.wires, (w: Wire) => !FeedsSlot(w, to, slot));
    var w := Wire(id, from, to, slot);
    FilterSnoc(kept, w, (v: Wire) => v.id != id);
    forall k | 0 <= k < |kept| ensures kept[k].id != id {
      assert kept[k] in kept;
    }
    FilterKeepsAll(kept, (v: Wire) => v.id != id);
  }

  /** A well-formed board always has its lamp, so validation never ends without one. */
  lemma WellFormedHasOutput(b: Board, goal: seq<bool> -> bool)
    requires WellFormed(b)
    ensures Validate(b.nodes, b.wires, goal).verdict != NoOutputNode
  {
    var f := Filter(b.nodes, (n: Node) => n.kind.Output?);
    assert f[0] in f;
    ValidateNeedsOutput(b.nodes, b.wires, goal);
  }
}
