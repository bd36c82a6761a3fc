/** ABI values and what a path reads from them: the meaning of the class the
    device's walk reports (keepkeylib/erc7730_compiler.py). */
module AbiValues {
  import opened Wrappers
  import opened AbiTypes
  import opened FlatAbi
  import opened AbiPaths
  import opened AbiWalk

  /** A decoded argument: a leaf of some kind, or the items of a tuple or array. */
  datatype Value = LeafValue(kind: nat, content: seq<int>) | Items(items: seq<Value>)

  predicate Conforms(t: AbiType, v: Value)
    decreases NodeCount(t), 1
  {
    match t
    case Leaf(_, kind, _) => v.LeafValue? && v.kind == kind
    case Tuple(_, members) => v.Items? && ConformAll(members, v.items)
    case Array(_, element, length) =>
      && v.Items? && (length != ABSENT ==> |v.items| == length)
      && forall i :: 0 <= i < |v.items| ==> Conforms(element, v.items[i])
  }

  predicate ConformAll(ts: seq<AbiType>, vs: seq<Value>)
    decreases NodeCountAll(ts), 2
  {
    if ts == [] then vs == []
    else vs != [] && Conforms(ts[0], vs[0]) && ConformAll(ts[1..], vs[1..])
  }

  /** An item by Python's indexing, as the device counts from either end. */
  function Item(v: Value, index: int): Result<Value> {
    if v.LeafValue? then Raised
    else if 0 <= index < |v.items| then Ok(v.items[index])
    else if -|v.items| <= index < 0 then Ok(v.items[|v.items| + index])
    else Raised
  }

  /** What a path reads; an iteration stands on element `e` of its array. */
  function Read(v: Value, steps: seq<Step>, e: nat): Result<Value> {
    if steps == [] then Ok(v)
    else
      var item :- Item(v, if steps[0].Index? then steps[0].index else e);
      Read(item, steps[1..], e)
  }

  /** Every array step that picks one element does so in a fixed array. */
  predicate IndexesFixed(root: AbiType, steps: seq<Step>)
    requires Fits(root, steps)
  {
    forall k :: 0 <= k < |steps| && IndexesArray(root, steps, k) ==> Before(root, steps, k).length != ABSENT
  }

  /** Element `e` exists in each array the path iterates. */
  predicate HasElement(v: Value, steps: seq<Step>, e: nat) {
    steps == [] ||
    (&& (steps[0].Iterate? ==> v.Items? && e < |v.items|)
     && (var item := Item(v, if steps[0].Index? then steps[0].index else e);
         item.Ok? ==> HasElement(item.value, steps[1..], e)))
  }

  lemma {:induction false} ConformAllAt(ts: seq<AbiType>, vs: seq<Value>, i: nat)
    requires ConformAll(ts, vs) && i < |ts|
    ensures |vs| == |ts| && Conforms(ts[i], vs[i])
  {
    ConformAllLength(ts, vs);
    if i > 0 {
      ConformAllAt(ts[1..], vs[1..], i - 1);
    }
  }

  lemma {:induction false} ConformAllLength(ts: seq<AbiType>, vs: seq<Value>)
    requires ConformAll(ts, vs)
    ensures |vs| == |ts|
  {
    if ts != [] {
      ConformAllLength(ts[1..], vs[1..]);
    }
  }

  /** One step on a conforming value. */
  lemma {:induction false} StepReads(node: AbiType, v: Value, step: Step, e: nat)
    requires Conforms(node, v) && Fits(node, [step])
    requires node.Array? ==>
               if step.Iterate? then v.Items? && e < |v.items|
               else node.length != ABSENT && 0 <= step.index + Limit(node.length) && step.index < Limit(node.length)
    ensures var item := Item(v, if step.Index? then step.index else e);
            item.Ok? && ChildAt(node, step).Ok? && Conforms(ChildAt(node, step).value, item.value)
  {
    assert [step][0] == step;
    if node.Tuple? {
      ConformAllAt(node.members, v.items, step.index);
    }
  }

  /** A path within range, indexing fixed arrays only, reads a value of the type
      of the node it leads to. */
  lemma {:induction false} ReadConforms(root: AbiType, steps: seq<Step>, v: Value, e: nat)
    requires Fits(root, steps) && Conforms(root, v) && HasElement(v, steps, e)
    requires IndexesFixed(root, steps)
    requires forall k :: 0 <= k < |steps| ==> InRange(root, steps, k)
    ensures NodeAt(root, steps).Ok? && Read(v, steps, e).Ok?
    ensures Conforms(NodeAt(root, steps).value, Read(v, steps, e).value)
    decreases |steps|
  {
    if steps != [] {
      var step, rest := steps[0], steps[1..];
      FirstStep(root, steps);
      assert InRange(root, steps, 0);
      assert IndexesArray(root, steps, 0) <==> step.Index? && root.Array?;
      StepReads(root, v, step, e);
      var child := ChildAt(root, step).value;
      forall k | 0 <= k < |rest| ensures Before(child, rest, k) == Before(root, steps, k + 1) {
        BeforeRest(root, steps, k);
      }
      forall k | 0 <= k < |rest| ensures InRange(child, rest, k) {
        assert InRange(root, steps, k + 1);
      }
      forall k | 0 <= k < |rest| && IndexesArray(child, rest, k) ensures Before(child, rest, k).length != ABSENT {
        assert IndexesArray(root, steps, k + 1);
      }
      ReadConforms(child, rest, Item(v, if step.Index? then step.index else e).value, e);
    }
  }

  lemma FirstStep(root: AbiType, steps: seq<Step>)
    requires Fits(root, steps) && steps != []
    ensures Before(root, steps, 0) == root
    ensures Fits(root, [steps[0]]) && ChildAt(root, steps[0]).Ok?
    ensures Fits(ChildAt(root, steps[0]).value, steps[1..])
  {
    assert steps[..0] == [];
    assert [steps[0]][1..] == [];
  }

  lemma {:induction false} BeforeRest(root: AbiType, steps: seq<Step>, k: nat)
    requires Fits(root, steps) && steps != [] && ChildAt(root, steps[0]).Ok?
    requires Fits(ChildAt(root, steps[0]).value, steps[1..]) && k < |steps|
    ensures Before(ChildAt(root, steps[0]).value, steps[1..], k) == Before(root, steps, k + 1)
  {
    assert steps[..k + 1][1..] == steps[1..][..k];
  }
}
