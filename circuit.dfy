/** The node and wire shapes of the board (types.ts) and the two list operations the
    engine builds on: JavaScript's `Array.prototype.find` and `Array.prototype.filter`. */
module Circuit {

  datatype Option<+T> = None | Some(value: T)

  datatype GateType = And | Or | Not

  /** NodeType with the gate kind folded in. `Gate(None)` is a GATE node whose
      `gateType` is absent or is a string other than AND, OR and NOT. */
  datatype NodeKind = Input | Gate(gate: Option<GateType>) | Output

  /** NodeData without the screen position and the unused `inputs` list; `caption` is
      its `label` (a reserved word in Dafny). */
  datatype Node = Node(id: string, kind: NodeKind, caption: string, value: bool)

  /** A directed edge into slot `toInputIndex` (0 is A, 1 is B) of node `to`. */
  datatype Wire = Wire(id: string, from: string, to: string, toInputIndex: int)

  /** The `gateType` field as the engine reads it: absent on INPUT and OUTPUT nodes. */
  function GateTypeOf(kind: NodeKind): Option<GateType>
  {
    if kind.Gate? then kind.gate else None
  }

  /** Index of the first element of `s[from..]` that satisfies `p`, as `find` scans. */
  function FindFrom<T>(s: seq<T>, p: T -> bool, from: nat): (r: Option<nat>)
    requires from <= |s|
    ensures r.Some? ==> from <= r.value < |s| && p(s[r.value])
    ensures r.Some? ==> forall j :: from <= j < r.value ==> !p(s[j])
    ensures r.None? ==> forall j :: from <= j < |s| ==> !p(s[j])
    decreases |s| - from
  {
    if from == |s| then None
    else if p(s[from]) then Some(from)
    else FindFrom(s, p, from + 1)
  }

  /** `s.find(p)`, giving the position instead of the element. */
  function Find<T>(s: seq<T>, p: T -> bool): (r: Option<nat>)
    ensures r.Some? ==> r.value < |s| && p(s[r.value])
    ensures r.Some? ==> forall j :: 0 <= j < r.value ==> !p(s[j])
    ensures r.None? ==> forall j :: 0 <= j < |s| ==> !p(s[j])
  {
    FindFrom(s, p, 0)
  }

  /** `find` on a non-empty list looks at the head first, then at the tail. */
  lemma FindCons<T>(s: seq<T>, p: T -> bool)
    requires s != []
    ensures Find(s, p) == if p(s[0]) then Some(0)
                          else match Find(s[1..], p) case None => None case Some(j) => Some(j + 1)
  {
    var r := Find(s, p);
    var t := Find(s[1..], p);
    if !p(s[0]) {
      if r.Some? {
        assert r.value >= 1 && p(s[1..][r.value - 1]);
        assert t.Some? && t.value <= r.value - 1;
        assert p(s[t.value + 1]);
      }
    }
  }

  /** `s.filter(keep)`: the elements that satisfy `keep`, in their original order. */
  function Filter<T(!new)>(s: seq<T>, keep: T -> bool): (r: seq<T>)
    ensures |r| <= |s|
    ensures forall x :: x in r <==> x in s && keep(x)
  {
    if s == [] then []
    else if keep(s[0]) then [s[0]] + Filter(s[1..], keep)
    else Filter(s[1..], keep)
  }

  /** Filtering distributes over concatenation. */
  lemma {:induction false} FilterConcat<T(!new)>(s: seq<T>, t: seq<T>, keep: T -> bool)
    ensures Filter(s + t, keep) == Filter(s, keep) + Filter(t, keep)
  {
    if s != [] {
      assert (s + t)[1..] == s[1..] + t;
      FilterConcat(s[1..], t, keep);
    } else {
      assert s + t == t;
    }
  }

  /** A filter that rejects exactly the element at `i` removes just that one. */
  lemma {:induction false} FilterDropsOne<T(!new)>(s: seq<T>, i: nat, keep: T -> bool)
    requires i < |s| && !keep(s[i])
    requires forall k :: 0 <= k < |s| && k != i ==> keep(s[k])
    ensures Filter(s, keep) == s[..i] + s[i + 1..]
  {
    if i == 0 {
      FilterKeepsAll(s[1..], keep);
    } else {
      FilterDropsOne(s[1..], i - 1, keep);
      assert s[..i] + s[i + 1..] == [s[0]] + (s[1..][..i - 1] + s[1..][i..]);
    }
  }

  /** A filter that keeps no element leaves nothing. */
  lemma {:induction false} FilterNone<T(!new)>(s: seq<T>, keep: T -> bool)
    requires forall k :: 0 <= k < |s| ==> !keep(s[k])
    ensures Filter(s, keep) == []
  {
    if s != [] {
      FilterNone(s[1..], keep);
    }
  }

  /** Filtering distributes over appending one element. */
  lemma {:induction false} FilterSnoc<T(!new)>(s: seq<T>, x: T, keep: T -> bool)
    ensures Filter(s + [x], keep) == Filter(s, keep) + (if keep(x) then [x] else [])
  {
    if s != [] {
      assert (s + [x])[1..] == s[1..] + [x];
      FilterSnoc(s[1..], x, keep);
    }
  }

  /** A filter that keeps every element changes nothing. */
  lemma {:induction false} FilterKeepsAll<T(!new)>(s: seq<T>, keep: T -> bool)
    requires forall k :: 0 <= k < |s| ==> keep(s[k])
    ensures Filter(s, keep) == s
  {
    if s != [] {
      FilterKeepsAll(s[1..], keep);
    }
  }

  /** Filtering by `a` first does not change a later filter by `b` when everything
      `b` keeps is also kept by `a`. */
  lemma {:induction false} FilterAbsorbed<T(!new)>(s: seq<T>, a: T -> bool, b: T -> bool)
    requires forall k :: 0 <= k < |s| && b(s[k]) ==> a(s[k])
    ensures Filter(Filter(s, a), b) == Filter(s, b)
  {
    if s != [] {
      FilterAbsorbed(s[1..], a, b);
    }
  }
}
