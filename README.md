# logiclab circuit engine in Dafny

logiclab is a puzzle game. The player drags logic gates (AND, OR, NOT) onto a board that
holds one switch (INPUT node) per level input and one lamp (OUTPUT node). They wire the gates
together by clicking output and input ports, and then ask the game to check the circuit
against the level's goal. This project models the engine behind that board:

- **Propagation** (`simulate`, and the same loop inside `checkSolution`). This is bounded
  Gauss-Seidel relaxation: each round visits every non-INPUT node in array order and
  re-evaluates it from the values currently in the array. A round without a change, or
  the twentieth round, ends the loop. The loop is specified once, as functions over
  `seq<Node>` (`Propagation.Round`, `Relax`, `Propagate`). The method `Propagation.Settle`
  runs it in place on an `array<Node>`, because the live refresh writes into the node
  objects the board shows.
- **The validator** (`checkSolution`). It tries the counters `0 … 2^n - 1`, where `n` is
  the number of switches. Switch `input-k` gets bit `k` of the counter; `k` is parsed back
  from the id. Each case is settled on a private copy of the board and the lamp is
  compared with the goal. The run stops at the first mismatch and shows that case's
  board. `Validator.Validate` is the specification and `Validator.CheckSolution` is the
  loop, proved equal to it.
- **Board edits**: loading a level, dropping a gate, toggling a switch, connecting by
  port clicks (a new wire replaces whatever fed that slot), deleting a node (switches and
  the lamp are protected; a gate goes with every wire that touches it), and deleting a
  wire.
- **The level table** of `constants.ts`, with its five goal predicates.
- **Scenarios** on concrete boards: Level 1 solved with one NOT gate passes; Level 5
  wired straight from OR(B, C) fails first at counter 2; and a NOT gate fed by its own
  output flips on every round and uses up all 20 rounds.

Modules: `Circuit` (node and wire shapes, `find` and `filter`), `Ids` (switch ids and the
`parseInt` that reads them back), `Propagation`, `Levels`, `Validator`, `Editing` and
`Scenarios`.

Well-formed boards (`Editing.WellFormed`): node ids are distinct, there is exactly one
OUTPUT node, and every wire starts and ends at a node on the board. Loading a level gives
a well-formed board. Dropping a gate with a fresh id, toggling a switch, deleting a node
and deleting a wire keep it. A port click keeps it when the pending wire start is a node
of the current board (`Editing.PortClickKeepsWellFormed`). A start left pending from a
previous level, or from a gate since deleted, breaks it (`Editing.StaleStartDangles`). Node ids that `generateId` would draw at random are parameters,
taken fresh where a lemma needs it.

## Model

| member | source | states |
|---|---|---|
| Circuit.Find | App.tsx:95 | `find` returns the first position whose element satisfies the predicate; `None` exactly when no element does |
| Circuit.Filter | App.tsx:89 | `filter` keeps exactly the elements that satisfy the predicate and is never longer than its input |
| Circuit.FilterDropsOne | App.tsx:316 | a filter that rejects only the element at `i` removes just that element and keeps the order of the rest |
| Ids.DecimalString | App.tsx:47 | the `${i}` in a switch id is a non-empty run of decimal digits without a leading zero |
| Ids.InputId | App.tsx:47 | a switch id is `input-` followed by decimal digits |
| Ids.ParseInt | App.tsx:149 | a non-empty run of digits parses to the number it denotes; an empty string, or one starting with neither a digit nor '+', is NaN |
| Ids.InputIndex | App.tsx:149 | an id without a '-' gives NaN; `Ids.InputIndexOfInputId` gives `k` for `input-k` |
| Ids.SecondField | App.tsx:149 | `id.split('-')[1]` never contains a '-' |
| Ids.LeadingDigits | App.tsx:149 | the part `parseInt` reads is the longest digit prefix of its argument |
| Ids.DigitsValueOfDecimal | App.tsx:149 | reading the decimal digits of `k` back gives `k` |
| Ids.InputIndexOfInputId | App.tsx:149 | `parseInt(id.split('-')[1])` on the id `input-k` that `loadLevel` gives is `k` |
| Ids.InputIdInjective | App.tsx:45-47 | two switches get the same id exactly when they have the same position |
| Propagation.SlotSource | App.tsx:89-93 | a slot has no source exactly when no wire targets that node and slot; otherwise the source is the `from` of a wire that does |
| Propagation.SourceValue | App.tsx:95-96 | a slot reads true only if some node with the source id is true; an unknown source reads false |
| Propagation.RuleTable | App.tsx:98-111 | OUTPUT copies slot A; AND is A and B; OR is A or B; NOT is not A; a GATE without a gate type gives false |
| Propagation.InlineRule | App.tsx:171-175 | the inline chain of `checkSolution`, which tests the gate type without testing for GATE, agrees with `simulate`'s chain on every kind |
| Propagation.Rule | App.tsx:98-111 | with both slots off only a NOT gate lights; with both on every node lights except a NOT gate and a GATE without a gate type |
| Propagation.RuleIgnoresSlotB | App.tsx:100-109 | slot B has no effect on the lamp or on a NOT gate |
| Propagation.SlotValue | App.tsx:92-96 | a slot no wire feeds reads false; a slot reads true only if some node with its source id is true |
| Propagation.NodeValue | App.tsx:88-111 | a node other than a NOT gate is on only when one of its slots is on |
| Propagation.Visit | App.tsx:86-116 | a visit leaves every other node as it was, keeps ids, kinds, captions and INPUT values, and gives a non-INPUT node the value it computes from the current board |
| Propagation.UnwiredSlotsReadFalse | App.tsx:95-96 | on a node no wire targets, both slots read false, so it computes true exactly when it is a NOT gate |
| Propagation.RoundPrefix | App.tsx:85-117 | partway through a round, only values of non-INPUT nodes have changed; ids, kinds, captions and INPUT values are kept |
| Propagation.Round | App.tsx:85-117 | a round never changes an INPUT value, an id, a kind or a caption |
| Propagation.RoundPrefixView | App.tsx:85-117 | after `k` visits the array holds the round's final values below `k` and the starting values from `k` on |
| Propagation.RoundSeesEarlierWrites | App.tsx:85-96 | node `i` is evaluated against the values this round already wrote before it and the old values from it on |
| Propagation.RoundFixedIffSettled | App.tsx:113-116 | a round changes nothing exactly when every non-INPUT node already holds the value it computes |
| Propagation.Relax | App.tsx:81-118 | the loop never changes an INPUT value, an id, a kind or a caption, whatever the wiring |
| Propagation.RoundsUsed | App.tsx:81-83 | with a positive cap the loop runs at least one round and at most the cap; with cap 0 it runs none |
| Propagation.Propagate | App.tsx:76-121 | settling never rewrites an INPUT value and keeps every node's id, kind and caption |
| Propagation.RelaxEndsOnFixpoint | App.tsx:81-118 | a loop that stops before its cap stops on a board that one more round leaves unchanged |
| Propagation.EarlyExitIsFixpoint | App.tsx:81-118 | a run that ends before 20 rounds leaves a settled board, and settling that board again changes nothing |
| Propagation.SettledIsKept | App.tsx:81-118 | a settled board comes back unchanged after exactly one round |
| Propagation.RunRound | App.tsx:82-117 | one `forEach` pass in place: the array becomes the specified round, and `changed` is set exactly when a value moved |
| Propagation.Settle | App.tsx:78-118 | the while loop in place: the array ends as `Propagate` of its old contents, and the round counter equals the rounds the specification uses (at most 20) |
| Propagation.Refresh | App.tsx:124-132 | while a validation runs the live nodes are left alone; otherwise they are settled in place |
| Levels.LevelTable | constants.ts:3-49 | five levels, numbered 1 to 5, each with one to three switch labels |
| Levels.LevelGoals | constants.ts:8-46 | the goals are not A; A and B; A or B; not A and B; A and (B or C) |
| Levels.LevelInventories | constants.ts:8-45 | the switch labels and the gates each level offers |
| Levels.GoalReadsOnlyItsInputs | constants.ts:8-46 | a goal reads only the entries below its level's switch count, so any assignment of that length decides it |
| Validator.InputCount | App.tsx:139 | the number of switches never exceeds the number of nodes |
| Validator.BitAboveWidth | App.tsx:144 | `(i >> k) & 1` is 0 once `k` reaches the counter's width: a counter below `2^k` has bit `k` off |
| Validator.Assignment | App.tsx:144 | `currentInputValues` has one entry per switch |
| Validator.AssignmentStep | App.tsx:144 | entry 0 is the low bit of the counter, and the rest is the assignment of the counter halved |
| Validator.Encode | App.tsx:140-144 | the counter of an assignment of `n` switches is below `2^n` |
| Validator.AssignmentOfEncode | App.tsx:140-144 | every assignment of the switches is the assignment of some counter below `2^n` |
| Validator.EncodeOfAssignment | App.tsx:140-144 | distinct counters below `2^n` give distinct assignments |
| Validator.PinNode | App.tsx:147-153 | a switch takes the entry its id names, and false when the id does not parse or the entry is missing; other nodes are copied unchanged |
| Validator.PinInputs | App.tsx:147-153 | the test board has as many nodes as the live board |
| Validator.PinnedSwitch | App.tsx:147-150 | switch `input-k` is pinned to entry `k` |
| Validator.FirstOutput | App.tsx:184 | the node `find(n => n.type === 'OUTPUT')` picks is the first OUTPUT node; there is none exactly when the board has no OUTPUT node |
| Validator.OutputValue | App.tsx:184 | the lamp is missing exactly when the board has no OUTPUT node; otherwise it is the value of the first OUTPUT node |
| Validator.LampFor | App.tsx:156-184 | a case reads a lamp exactly when the board has an OUTPUT node, and the lamp is the settled value of the first OUTPUT node |
| Validator.LampOfOnlyOutput | App.tsx:184-187 | on a board with a single OUTPUT node, the lamp is that node's settled value |
| Validator.CaseLamp | App.tsx:184 | case `i` reads a lamp exactly when the board has an OUTPUT node, and the lamp is the first OUTPUT node's value on case `i`'s settled board |
| Validator.SwitchFollowsCounter | App.tsx:144-163 | in case `i`, the settled board still shows switch `input-k` at bit `k` of `i` |
| Validator.RunFrom | App.tsx:143-193 | a failure names a counter in range and shows that case's board; a run that ends without an OUTPUT node started in range; a success after at least one case shows the last case's board |
| Validator.RunFromSuccess | App.tsx:143-199 | the case loop succeeds exactly when every remaining case reads a lamp equal to the goal |
| Validator.RunFromFailure | App.tsx:187-191 | the case loop fails at `c` exactly when `c` is the first mismatching case, and it then shows case `c`'s board |
| Validator.RunFromNoOutput | App.tsx:184-187 | without an OUTPUT node the loop ends at its first case, which throws |
| Validator.RunFromStep | App.tsx:184-193 | one turn of the loop: stop without a lamp, fail and show this board on a mismatch, otherwise go on showing this board |
| Validator.RunFromEnd | App.tsx:143 | past the last counter the run reports success |
| Validator.ValidateSucceedsIff | App.tsx:139-200 | validation succeeds exactly when, for every assignment of the switches, the settled lamp exists and equals the goal |
| Validator.ValidateFailsAtFirstMismatch | App.tsx:143-191 | validation fails at counter `c` exactly when `c` is below `2^n`, case `c` does not pass and every earlier case does; the board shown is case `c`'s settled board |
| Validator.ValidateShowsLastCase | App.tsx:189-193 | after success, the board left on display is the settled board of the last counter, `2^n - 1` |
| Validator.ValidateShowsLiveWithoutOutput | App.tsx:184-187 | without an OUTPUT node the first case throws and the live board stays on display |
| Validator.ValidateNeedsOutput | App.tsx:184-187 | the run ends without a verdict exactly when the board has no OUTPUT node |
| Validator.GoalAndNegationNotBothPass | App.tsx:140-199 | no circuit passes both a goal and its negation |
| Validator.JsShiftOne | App.tsx:140 | JavaScript's `1 << n` is `2^n` up to 30 and negative when `n` mod 32 is 31 |
| Validator.ValidateAsWritten | App.tsx:140-143 | with at most 30 switches the loop as written gives exactly the corrected validator's verdict and board |
| Validator.JsShiftOneWraps | App.tsx:140 | the written `1 << n` is `2^n` up to 30 switches, negative at 31, and 1 at 32 |
| Validator.JsShiftOneNegative | App.tsx:140 | `1 << n` is negative whenever `n` mod 32 is 31 |
| Validator.AsWrittenPassesAnything | App.tsx:140-143 | with 31 switches the written loop runs no case, and any circuit passes any goal and its negation |
| Validator.RunCase | App.tsx:147-184 | one case on a fresh copy: it returns that case's settled board and lamp, and the live nodes are not touched |
| Validator.TryCase | App.tsx:144-193 | one case of the loop, tied to the rest of the run: no lamp ends it, a mismatch fails it at this counter showing this board, and a match continues showing this board |
| Validator.CheckSolution | App.tsx:134-208 | the verdict and the board left on display are exactly those of `Validate` on the board's nodes, which are only read |
| Editing.SourceValueOfUnique | App.tsx:95 | with distinct ids, a wire from a node reads that node's value |
| Editing.LoadLevel | App.tsx:38-73 | the fresh board has one node per switch label plus the lamp, and no wires |
| Editing.Switches | App.tsx:45-55 | switch `k` is INPUT `input-k`, labelled with the `k`-th label, and off |
| Editing.SwitchesUnique | App.tsx:45-66 | the switches and the lamp have distinct ids |
| Editing.LoadLevelWellFormed | App.tsx:38-69 | the fresh board is well formed |
| Editing.LoadLevelInputCount | App.tsx:45-55 | the validator counts exactly one switch per label of the level |
| Editing.LoadLevelSwitches | App.tsx:45-66 | each switch is off, carries its label, and is the switch the validator pins to bit `k`; the lamp `output-main` comes last, off |
| Editing.ParseGateType | App.tsx:218 | the dropped string names AND, OR or NOT exactly when it is that word |
| Editing.DropGate | App.tsx:216-237 | an empty payload changes nothing; otherwise one GATE node, off, with the given id, the dropped type and label, is appended and nothing else changes |
| Editing.DropGateKeepsWellFormed | App.tsx:227-237 | dropping a gate under a fresh id keeps the board well formed |
| Editing.ToggleInput | App.tsx:286-288 | exactly the nodes with that id change value; ids, kinds, captions and wires are kept |
| Editing.ToggleTwice | App.tsx:286-288 | toggling twice restores the board |
| Editing.ToggleKeepsWellFormed | App.tsx:286-288 | toggling keeps the board well formed |
| Editing.ConnectWire | App.tsx:300-307 | the new wire is last, and before it come exactly the old wires that did not feed that slot, in their original order |
| Editing.ConnectRewiresOneSlot | App.tsx:300-307 | after connecting, the slot reads the new source and holds exactly one wire, and every other slot reads what it read before |
| Editing.ConnectFreeSlot | App.tsx:300-307 | connecting to a slot nothing feeds appends the wire and keeps the rest as it was |
| Editing.ConnectKeepsWellFormed | App.tsx:300-307 | connecting two nodes on the board keeps it well formed |
| Editing.PortClick | App.tsx:290-311 | an output click records the pending start; an input click without one does nothing; otherwise the pending start is cleared, and wires change only when the start differs from the clicked node |
| Editing.SelfConnectionCancelled | App.tsx:295-297 | clicking a node's input while its own output is pending creates no wire and clears the start |
| Editing.PortClickKeepsWellFormed | App.tsx:290-311 | a port click on a node of a well-formed board keeps it well formed when the pending start is on that board, and any new pending start is on it too |
| Editing.StaleStartDangles | App.tsx:38-73 | `loadLevel` keeps the pending start; a start naming no node of the freshly loaded board lays the wire `from` that missing node on the lamp's input, and the board is no longer well formed |
| Editing.PortClickConnects | App.tsx:294-308 | a completed connection leaves exactly one wire on the slot, reading the pending start, and clears the start |
| Editing.DeleteNode | App.tsx:313-318 | either nothing changes, or no node with that id and no wire from or to it is left while every other node and every wire not touching it stays; nothing is ever added |
| Editing.DeleteNodeKeepsWellFormed | App.tsx:313-318 | deleting a node keeps the board well formed |
| Editing.DeleteNodeKeepsLamp | App.tsx:315-316 | a deletion that goes ahead never removes the lamp |
| Editing.DeleteNodeKeepsWiresClosed | App.tsx:316-317 | a deletion that goes ahead leaves no dangling wire |
| Editing.SwitchesAndLampStay | App.tsx:314-315 | on a well-formed board, deleting a switch or the lamp changes nothing |
| Editing.DeleteGate | App.tsx:316-317 | on a well-formed board, deleting a gate removes exactly that node and exactly the wires touching it, keeping the order of the rest |
| Editing.DeleteNodeKeepsOtherSlots | App.tsx:317 | after a deletion every slot of another node reads the source it read before, unless that source was the deleted node |
| Editing.DropThenDelete | App.tsx:313-318 | deleting a gate just dropped under a fresh id restores the board |
| Editing.DeleteWire | App.tsx:320-322 | the nodes are kept, and the wires left are exactly those with a different id |
| Editing.DeleteWireKeepsWellFormed | App.tsx:320-322 | deleting a wire keeps the board well formed |
| Editing.ConnectThenDeleteWire | App.tsx:320-322 | deleting the wire just connected, under a fresh id, leaves exactly the wires the connect kept |
| Editing.WellFormedHasOutput | App.tsx:184-187 | on a well-formed board validation always reaches a verdict |
| Scenarios.AlarmRound | App.tsx:162-181 | on the Level 5 board one round sets the lamp to the gate's old value, then the gate to B or C |
| Scenarios.AlarmSettles | App.tsx:157-182 | from a dark board the lamp settles to B or C, after 3 rounds when B or C is on and 1 round otherwise |
| Scenarios.AlarmLamp | App.tsx:147-184 | for every assignment, the Level 5 board's lamp shows B or C |
| Scenarios.AlarmCase | App.tsx:144-184 | of the first three counters, only counter 2 lights the lamp |
| Scenarios.AlarmGoalOff | constants.ts:46 | the Level 5 goal is off for counters 0, 1 and 2 |
| Scenarios.AlarmCasesPass | constants.ts:44-46 | with the lamp wired from OR(B, C), counters 0 and 1 pass and counter 2 does not |
| Scenarios.AlarmFailsAtTwo | constants.ts:44-46 | with the lamp wired from OR(B, C), Level 5 fails first at counter 2 (A off, B on, C off) |
| Scenarios.AlarmShowsFailingBoard | App.tsx:187-190 | after that failure the board shows counter 2's settled state, with gate and lamp on |
| Scenarios.FlipperRound | App.tsx:162-181 | on the Level 1 board one round sets the lamp to the gate's old value, then the gate to not A |
| Scenarios.FlipperSettles | App.tsx:157-182 | from a dark board, the lamp settles to not A |
| Scenarios.FlipperLamp | App.tsx:147-184 | for every assignment, the Level 1 board's lamp shows not A |
| Scenarios.FlipperPasses | constants.ts:8-10 | Level 1, solved with one NOT gate between the switch and the lamp, passes |
| Scenarios.LoopRelax | App.tsx:81-118 | a NOT gate fed by its own output returns to its value after every two rounds |
| Scenarios.LoopNeverSettles | App.tsx:81-118 | that gate uses all 20 rounds and ends where it started, unsettled |
| Scenarios.LoopUnsettled | App.tsx:113-116 | that gate is never settled |
| Scenarios.Drag | App.tsx:290-308 | an output click then an input click on a free slot of another node appends exactly that wire |
| Scenarios.FlipperBuiltNodes | App.tsx:38-73 | loading Level 1 and dropping a NOT gate gives the Level 1 board, unwired |
| Scenarios.FlipperBuiltWires | App.tsx:290-311 | two drags wire switch to gate and gate to lamp |
| Scenarios.AlarmBuiltNodes | App.tsx:38-73 | loading Level 5 and dropping an OR gate gives the Level 5 board, unwired |
| Scenarios.AlarmBuiltWires | App.tsx:290-311 | three drags wire B and C into the gate and the gate into the lamp |

## Left out

- Rendering, JSX, the sidebar drag start, dragging nodes with pixel offsets, and the wire
  geometry in `components/WireLayer.tsx` are screen-only. `NodeData.x`, `y` and the unused
  `inputs` list are not modelled.
- The random ids of `generateId` are parameters, and lemmas that need them fresh say so.
- The 400 ms pause between cases, `async`/`await`, `useEffect` scheduling and the
  `isSimulating` state are cooperative scheduling. Only the flag that stops the live
  refresh is kept (`Propagation.Refresh`), and `CheckSolution` is one uninterrupted run.
- The `JSON.stringify` change check before `setNodes` (App.tsx:128) is left out. After the
  in-place writes of `simulate` it compares the mutated nodes with themselves, so it
  decides only whether React re-renders, which is not part of this model.
- The messages and moods the validator sets (App.tsx:200-206) and `setValidationResult`
  are left out. Only the verdict and the board left on display are modelled.
- `components/BitCharacter.tsx` (a typing animation) and `services/geminiService.ts` (a
  network call) are not part of this model.
- Levels.At: reads an entry past the end of the assignment as false. In the source,
  `undefined` passes through `&&` and `||` and is `!==` every lamp value, so such a case
  would always fail. This cannot arise in the game: a loaded board has one switch per
  label, and no edit adds or removes a switch.
- Validator.Validate has no contract of its own. What it reports is stated by
  `ValidateSucceedsIff`, `ValidateFailsAtFirstMismatch`, `ValidateNeedsOutput`,
  `ValidateShowsLastCase` and `ValidateShowsLiveWithoutOutput`.
- Ids.ParseInt: does not model `parseInt` skipping leading whitespace, reading a `0x`
  prefix, or reading a leading '-' as a negative number (the model gives NaN for it). The
  ids it is given come from `loadLevel` and have no whitespace or `0x`. A '-' cannot
  occur, because `split('-')[1]` contains none (`Ids.SecondField`).
- A wire start that is still pending survives `loadLevel` (App.tsx:38-73), which never
  clears `wireStartNode`. It also survives the deletion of its own gate, since the delete
  button stops the click before the board's clearing handler (App.tsx:398, 487). An
  input-port click then lays a dangling wire from a node that is not on the board
  (`Editing.StaleStartDangles`). The engine reads such a wire as false through
  `SourceValue`, but `WiresClosed` no longer holds. The edit lemmas assume the start is on
  the board (`Editing.PortClickKeepsWellFormed`).
- Validator.Bit: models `(i >> k) & 1` without JavaScript's 32-bit shift. The two agree
  for every counter and switch the written bound allows, that is up to 30 switches.
- A missing OUTPUT node is the verdict `NoOutputNode`. In the source, reading
  `outputNode.value` throws, so `isSimulating` stays set. The model does not carry the
  exception on.
- Propagation.SourceValue: its contract states only that a true reading comes from a
  true node with that id. The exact value (the first such node's) is stated through
  `Editing.SourceValueOfUnique` for boards with distinct ids.
- Editing.PortClick follows the code, which cancels a connection from a node to itself
  (App.tsx:295-297). It can therefore never make a self-loop wire, although
  `Editing.ConnectWire` alone accepts one, and a feedback loop through two gates is still
  possible. `Scenarios.LoopNeverSettles` uses a self-loop wire, to show that the round
  cap holds on cyclic wiring.
- Propagation models the live refresh's in-place writes on an `array<Node>`. Aliasing
  between the React state and the shallow copy is reduced to "the live nodes are that
  array".

## Findings

| source | as written | input that shows it | evidently intended | confidence | as-written member | corrected member |
|---|---|---|---|---|---|---|
| App.tsx:140 | `1 << inputs.length` is a 32-bit shift: the count is taken modulo 32 and the result is signed | a board with 31 switches: the bound is -2147483648, no case runs, `allPassed` stays true, and any circuit is reported correct; with 32 switches only counter 0 is tried | try all `2^n` counters | not executed; the five shipped levels have at most three switches, so it cannot happen with them | Validator.AsWrittenPassesAnything | Validator.ValidateSucceedsIff |
