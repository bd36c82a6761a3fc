/** The flat ABI table (`_flatten_abi`, keepkeylib/erc7730_compiler.py): every
    node of a type tree gets one slot, and siblings get neighbouring slots. */
module FlatAbi {
  import opened Wrappers
  import opened AbiTypes

  const MAX_NODES: nat := 64

  datatype Slot = Slot(node: AbiType, first: nat, count: nat)

  type Slots = seq<Option<Slot>>

  /** A table row as the device reads it. */
  datatype Row = Row(kind: nat, size: nat, first: nat, count: nat, length: nat)

  function NodeCount(t: AbiType): (n: nat)
    ensures n >= 1
  {
    match t
    case Leaf(_, _, _) => 1
    case Tuple(_, members) => 1 + NodeCountAll(members)
    case Array(_, element, _) => 1 + NodeCount(element)
  }

  function NodeCountAll(ts: seq<AbiType>): (n: nat)
    ensures n >= |ts|
  {
    if ts == [] then 0 else NodeCount(ts[0]) + NodeCountAll(ts[1..])
  }

  lemma ChildrenCount(t: AbiType)
    ensures NodeCountAll(t.Children()) == NodeCount(t) - 1
  {
  }

  function Unfilled(n: nat): (s: Slots)
    ensures |s| == n
  {
    seq(n, _ => None)
  }

  /** `fill(node, index)`. */
  function Fill(nodes: Slots, t: AbiType, index: nat): (r: Slots)
    requires index < |nodes|
    ensures |r| == |nodes| + NodeCount(t) - 1
    decreases NodeCount(t), 1
  {
    ChildrenCount(t);
    var children := t.Children();
    var first := if children == [] then 0 else |nodes|;
    var extended := nodes + Unfilled(|children|);
    FillAll(extended[index := Some(Slot(t, first, |children|))], children, first)
  }

  function FillAll(nodes: Slots, ts: seq<AbiType>, at: nat): (r: Slots)
    requires at + |ts| <= |nodes|
    ensures |r| == |nodes| + NodeCountAll(ts) - |ts|
    decreases NodeCountAll(ts), 2
  {
    if ts == [] then nodes else FillAll(Fill(nodes, ts[0], at), ts[1..], at + 1)
  }

  /** The subtree `t` sits at slot `index`, its children at consecutive slots. */
  ghost predicate Holds(nodes: Slots, t: AbiType, index: nat)
    decreases NodeCount(t), 1
  {
    ChildrenCount(t);
    && index < |nodes| && nodes[index].Some?
    && nodes[index].value.node == t
    && nodes[index].value.count == |t.Children()|
    && HoldsAll(nodes, t.Children(), nodes[index].value.first)
  }

  ghost predicate HoldsAll(nodes: Slots, ts: seq<AbiType>, at: nat)
    decreases NodeCountAll(ts), 2
  {
    ts == [] || (Holds(nodes, ts[0], at) && HoldsAll(nodes, ts[1..], at + 1))
  }

  /** What filling does: unfilled slots may be filled, filled ones stay. */
  ghost predicate Grows(before: Slots, after: Slots) {
    && |before| <= |after|
    && forall j :: 0 <= j < |before| && before[j].Some? ==> after[j] == before[j]
  }

  /** All slots from `from` on are filled. */
  ghost predicate FilledFrom(nodes: Slots, from: nat) {
    forall j :: from <= j < |nodes| ==> nodes[j].Some?
  }

  lemma {:induction false} HoldsGrows(before: Slots, after: Slots, t: AbiType, index: nat)
    requires Grows(before, after) && Holds(before, t, index)
    ensures Holds(after, t, index)
    decreases NodeCount(t), 1
  {
    ChildrenCount(t);
    HoldsAllGrows(before, after, t.Children(), before[index].value.first);
  }

  lemma {:induction false} HoldsAllGrows(before: Slots, after: Slots, ts: seq<AbiType>, at: nat)
    requires Grows(before, after) && HoldsAll(before, ts, at)
    ensures HoldsAll(after, ts, at)
    decreases NodeCountAll(ts), 2
  {
    if ts != [] {
      HoldsGrows(before, after, ts[0], at);
      HoldsAllGrows(before, after, ts[1..], at + 1);
    }
  }

  /** Which slots one call writes: an unfilled one and those it appends. */
  ghost predicate WritesOnly(before: Slots, after: Slots, from: nat, count: nat)
    requires from + count <= |before|
  {
    && |before| <= |after|
    && (forall j :: 0 <= j < |before| && !(from <= j < from + count) ==> after[j] == before[j])
    && (forall j :: from <= j < from + count ==> after[j].Some?)
    && FilledFrom(after, |before|)
  }

  /** `fill` on an unfilled slot writes that slot and the appended ones, each
      of them, and leaves the subtree there. */
  lemma {:induction false} FillPlaces(nodes: Slots, t: AbiType, index: nat)
    requires index < |nodes| && nodes[index].None?
    ensures WritesOnly(nodes, Fill(nodes, t, index), index, 1)
    ensures Holds(Fill(nodes, t, index), t, index)
    decreases NodeCount(t), 1
  {
    ChildrenCount(t);
    var children := t.Children();
    var first := if children == [] then 0 else |nodes|;
    var placed := (nodes + Unfilled(|children|))[index := Some(Slot(t, first, |children|))];
    if children == [] {
      assert placed == Fill(nodes, t, index);
    } else {
      FillAllPlaces(placed, children, first);
    }
  }

  lemma {:induction false} FillAllPlaces(nodes: Slots, ts: seq<AbiType>, at: nat)
    requires at + |ts| <= |nodes|
    requires forall j :: at <= j < at + |ts| ==> nodes[j].None?
    ensures WritesOnly(nodes, FillAll(nodes, ts, at), at, |ts|)
    ensures HoldsAll(FillAll(nodes, ts, at), ts, at)
    decreases NodeCountAll(ts), 2
  {
    if ts != [] {
      var one := Fill(nodes, ts[0], at);
      FillPlaces(nodes, ts[0], at);
      FillAllPlaces(one, ts[1..], at + 1);
      HoldsGrows(one, FillAll(nodes, ts, at), ts[0], at);
    }
  }

  ghost predicate HasChildren(nodes: Slots, p: int) {
    0 <= p < |nodes| && nodes[p].Some? && nodes[p].value.count > 0
  }

  ghost predicate Apart(a: Slot, b: Slot) {
    a.first + a.count <= b.first || b.first + b.count <= a.first
  }

  /** No two filled slots share a child slot, and slot 0 is nobody's child. */
  ghost predicate Separate(nodes: Slots) {
    && (forall p :: HasChildren(nodes, p) ==>
          0 < nodes[p].value.first && nodes[p].value.first + nodes[p].value.count <= |nodes|)
    && (forall p, q :: HasChildren(nodes, p) && HasChildren(nodes, q) && p != q ==>
          Apart(nodes[p].value, nodes[q].value))
  }

  lemma {:induction false} FillKeepsSeparate(nodes: Slots, t: AbiType, index: nat)
    requires index < |nodes| && nodes[index].None? && Separate(nodes)
    ensures Separate(Fill(nodes, t, index))
    decreases NodeCount(t), 1
  {
    ChildrenCount(t);
    var children := t.Children();
    var first := if children == [] then 0 else |nodes|;
    var slot := Slot(t, first, |children|);
    var placed := (nodes + Unfilled(|children|))[index := Some(slot)];
    PlacedSeparate(nodes, placed, index, slot);
    FillAllKeepsSeparate(placed, children, first);
  }

  lemma {:induction false} PlacedSeparate(nodes: Slots, placed: Slots, index: nat, slot: Slot)
    requires index < |nodes| && nodes[index].None? && Separate(nodes)
    requires slot.count > 0 ==> slot.first == |nodes|
    requires placed == (nodes + Unfilled(slot.count))[index := Some(slot)]
    ensures Separate(placed)
  {
    forall p | HasChildren(placed, p) && p != index
      ensures HasChildren(nodes, p) && placed[p] == nodes[p]
    {
    }
  }

  lemma {:induction false} FillAllKeepsSeparate(nodes: Slots, ts: seq<AbiType>, at: nat)
    requires at + |ts| <= |nodes| && Separate(nodes)
    requires forall j :: at <= j < at + |ts| ==> nodes[j].None?
    ensures Separate(FillAll(nodes, ts, at))
    decreases NodeCountAll(ts), 2
  {
    if ts != [] {
      FillPlaces(nodes, ts[0], at);
      FillKeepsSeparate(nodes, ts[0], at);
      FillAllKeepsSeparate(Fill(nodes, ts[0], at), ts[1..], at + 1);
    }
  }

  /** `_flatten_abi` before the size limit. */
  function Flatten(root: AbiType): Slots {
    Fill([None], root, 0)
  }

  /** The whole table: one slot per node of the tree, all filled, the root at
      slot 0 and every node's children side by side. */
  lemma {:induction false} FlattenHolds(root: AbiType)
    ensures |Flatten(root)| == NodeCount(root)
    ensures FilledFrom(Flatten(root), 0)
    ensures Holds(Flatten(root), root, 0)
  {
    FillPlaces([None], root, 0);
  }

  /** A slot below the root belongs to one parent, at one position: distinct
      places in the tree have distinct slots. */
  lemma {:induction false} FlattenParents(root: AbiType, p: nat, q: nat, i: nat, j: nat)
    requires HasChildren(Flatten(root), p) && i < Flatten(root)[p].value.count
    requires HasChildren(Flatten(root), q) && j < Flatten(root)[q].value.count
    requires Flatten(root)[p].value.first + i == Flatten(root)[q].value.first + j
    ensures p == q && i == j && Flatten(root)[p].value.first + i > 0
  {
    assert Separate([None]);
    FillKeepsSeparate([None], root, 0);
  }

  function RowOf(slot: Slot): Row {
    Row(slot.node.Kind(), slot.node.Size(), slot.first, slot.count,
        if slot.node.Array? then slot.node.length else 0)
  }

  function RowsOf(nodes: Slots): (rows: seq<Row>)
    requires FilledFrom(nodes, 0)
    ensures |rows| == |nodes|
    ensures forall j :: 0 <= j < |rows| ==> rows[j] == RowOf(nodes[j].value)
  {
    seq(|nodes|, j requires 0 <= j < |nodes| => RowOf(nodes[j].value))
  }

  function Rows(root: AbiType): (rows: seq<Row>)
    ensures |rows| == NodeCount(root)
  {
    FlattenHolds(root);
    RowsOf(Flatten(root))
  }

  lemma {:induction false} HoldsAllAt(nodes: Slots, ts: seq<AbiType>, at: nat, i: nat)
    requires HoldsAll(nodes, ts, at) && i < |ts|
    ensures Holds(nodes, ts[i], at + i)
  {
    if i > 0 {
      HoldsAllAt(nodes, ts[1..], at + 1, i - 1);
    }
  }

  /** `_flatten_abi`: the list `nodes` and the closure `fill` that writes it. */
  class Flattener {
    var nodes: Slots

    constructor ()
      ensures nodes == [None]
    {
      nodes := [None];
    }

    /** A slot is written only while it is unfilled, so it is written once. */
    method FillNode(t: AbiType, index: nat)
      requires index < |nodes| && nodes[index].None?
      modifies this
      ensures nodes == Fill(old(nodes), t, index)
      ensures WritesOnly(old(nodes), nodes, index, 1)
      decreases NodeCount(t), 1
    {
      FillPlaces(nodes, t, index);
      ChildrenCount(t);
      var children := t.Children();
      var first, count := 0, |children|;
      if count > 0 {
        first := |nodes|;
        nodes := nodes + Unfilled(count);
      }
      nodes := nodes[index := Some(Slot(t, first, count))];
      if count > 0 {
        FillChildren(children, first);
      }
    }

    /** The loop over the children. */
    method FillChildren(children: seq<AbiType>, first: nat)
      requires first + |children| <= |nodes|
      requires forall j :: first <= j < first + |children| ==> nodes[j].None?
      modifies this
      ensures nodes == FillAll(old(nodes), children, first)
      decreases NodeCountAll(children), 2
    {
      ghost var goal := FillAll(nodes, children, first);
      var offset := 0;
      while offset < |children|
        invariant 0 <= offset <= |children|
        invariant first + |children| <= |nodes|
        invariant FillAll(nodes, children[offset..], first + offset) == goal
        invariant forall j :: first + offset <= j < first + |children| ==> nodes[j].None?
      {
        ChildSmaller(children, offset);
        assert children[offset..][1..] == children[offset + 1..];
        FillNode(children[offset], first + offset);
        offset := offset + 1;
      }
    }

    method Run(root: AbiType) returns (r: Result<seq<Row>>)
      requires nodes == [None]
      modifies this
      ensures r == if NodeCount(root) > MAX_NODES then Raised else Ok(Rows(root))
      ensures nodes == Flatten(root)
    {
      FlattenHolds(root);
      FillNode(root, 0);
      if |nodes| > MAX_NODES {
        return Raised;
      }
      return Ok(RowsOf(nodes));
    }
  }

  lemma {:induction false} ChildSmaller(ts: seq<AbiType>, i: nat)
    requires i < |ts|
    ensures NodeCount(ts[i]) <= NodeCountAll(ts)
  {
    if i > 0 {
      ChildSmaller(ts[1..], i - 1);
    }
  }
}
