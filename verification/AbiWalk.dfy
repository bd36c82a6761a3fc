/** `_abi_walk` (keepkeylib/erc7730_compiler.py), the device's walk over the
    flat table, simulates the resolver's walk over the tree. */
module AbiWalk {
  import opened Wrappers
  import opened AbiTypes
  import opened FlatAbi
  import opened AbiPaths
  import Text

  const MAX_ARRAY_ELEMENTS: nat := 64

  datatype Refusal =
    | LeavesAbi
    | NotAMember
    | IndexBeforeIteration
    | BeyondArray
    | NotAValue

  /** The walk's three variables, or why it stopped. */
  datatype State =
    | Stopped(reason: Refusal)
    | At(node: nat, indexed: bool, iterated: Option<nat>)

  /** What the walk returns: the leaf kind (0 for an iteration path whose
      element is no leaf) and the iterated array's slot. */
  datatype Outcome =
    | Refused(reason: Refusal)
    | Reached(leaf: nat, iterated: Option<nat>)

  function Limit(length: nat): int {
    if length == ABSENT then MAX_ARRAY_ELEMENTS else length
  }

  /** One round of the loop. A decoded step is an index or an iteration. */
  function WalkStep(rows: seq<Row>, state: State, step: Step): State {
    match state
    case Stopped(_) => state
    case At(node, indexed, iterated) =>
      if node >= |rows| then Stopped(LeavesAbi)
      else
        var row := rows[node];
        var index := if step.Index? then step.index else 0;
        if row.kind == TUPLE && step.Index? && row.count != 0 && 0 <= index < row.count then
          At(row.first + index, indexed, iterated)
        else if row.kind == ARRAY && !step.Slice? then
          if step.Iterate? && indexed then Stopped(IndexBeforeIteration)
          else if !(-Limit(row.length) <= index < Limit(row.length)) then Stopped(BeyondArray)
          else At(row.first, indexed || step.Index?, if step.Iterate? then Some(node) else iterated)
        else Stopped(NotAMember)
  }

  function Walk(rows: seq<Row>, steps: seq<Step>): State {
    if steps == [] then At(0, false, None)
    else WalkStep(rows, Walk(rows, steps[..|steps| - 1]), steps[|steps| - 1])
  }

  function Verdict(rows: seq<Row>, steps: seq<Step>, state: State): Outcome {
    match state
    case Stopped(reason) => Refused(reason)
    case At(node, _, iterated) =>
      if node >= |rows| then Refused(NotAValue)
      else if steps != [] && steps[|steps| - 1].Iterate? then
        Reached(if rows[node].kind <= STRING then rows[node].kind else 0, iterated)
      else if rows[node].kind > STRING then Refused(NotAValue)
      else Reached(rows[node].kind, iterated)
  }

  /** `_abi_walk`. */
  function AbiWalk(rows: seq<Row>, steps: seq<Step>): Outcome {
    Verdict(rows, steps, Walk(rows, steps))
  }

  method WalkLoop(rows: seq<Row>, steps: seq<Step>) returns (outcome: Outcome)
    ensures outcome == AbiWalk(rows, steps)
  {
    var node: nat, indexed := 0, false;
    var iterated: Option<nat> := None;
    for i := 0 to |steps|
      invariant Walk(rows, steps[..i]) == At(node, indexed, iterated)
    {
      assert steps[..i + 1][..i] == steps[..i];
      ghost var next := WalkStep(rows, At(node, indexed, iterated), steps[i]);
      StoppedStays(rows, steps, i + 1);
      if node >= |rows| {
        return Refused(LeavesAbi);
      }
      var row := rows[node];
      var index := if steps[i].Index? then steps[i].index else 0;
      if row.kind == TUPLE && steps[i].Index? && row.count != 0 && 0 <= index < row.count {
        node := row.first + index;
      } else if row.kind == ARRAY && !steps[i].Slice? {
        if steps[i].Iterate? {
          if indexed {
            return Refused(IndexBeforeIteration);
          }
          iterated := Some(node);
        } else {
          indexed := true;
        }
        var limit: int := if row.length == ABSENT then MAX_ARRAY_ELEMENTS else row.length;
        if !(-limit <= index < limit) {
          return Refused(BeyondArray);
        }
        node := row.first;
      } else {
        return Refused(NotAMember);
      }
    }
    assert steps[..|steps|] == steps;
    outcome := Verdict(rows, steps, At(node, indexed, iterated));
  }

  /** Once stopped, the walk has stopped for good. */
  lemma {:induction false} StoppedStays(rows: seq<Row>, steps: seq<Step>, k: nat)
    requires k <= |steps|
    ensures Walk(rows, steps[..k]).Stopped? ==> Walk(rows, steps) == Walk(rows, steps[..k])
    decreases |steps| - k
  {
    if k == |steps| {
      assert steps[..k] == steps;
    } else {
      assert steps[..k + 1][..k] == steps[..k];
      StoppedStays(rows, steps, k + 1);
    }
  }

  // ----------------------------------------------------------- simulation

  /** The tree node in front of step `k`. */
  function Before(root: AbiType, steps: seq<Step>, k: nat): AbiType
    requires Fits(root, steps) && k <= |steps|
  {
    assert steps[..k] + steps[k..] == steps;
    FitsPrefix(root, steps[..k], steps[k..]);
    NodeAt(root, steps[..k]).value
  }

  /** Step `k` names a position inside its array; iterating needs an element. */
  predicate InRange(root: AbiType, steps: seq<Step>, k: nat)
    requires Fits(root, steps) && k < |steps|
  {
    var node := Before(root, steps, k);
    node.Array? ==>
      var index := if steps[k].Index? then steps[k].index else 0;
      -Limit(node.length) <= index < Limit(node.length)
  }

  predicate IndexesArray(root: AbiType, steps: seq<Step>, k: nat)
    requires Fits(root, steps) && k < |steps|
  {
    steps[k].Index? && Before(root, steps, k).Array?
  }

  /** Step `k` iterates after an earlier step took one element of an array. */
  predicate IteratesLate(root: AbiType, steps: seq<Step>, k: nat)
    requires Fits(root, steps) && k < |steps|
  {
    steps[k].Iterate? && exists j :: 0 <= j < k && IndexesArray(root, steps, j)
  }

  predicate EndsAtValue(root: AbiType, steps: seq<Step>)
    requires Fits(root, steps)
  {
    || (steps != [] && steps[|steps| - 1].Iterate?)
    || Before(root, steps, |steps|).Leaf?
  }

  /** The walk at a prefix: it stands on the image of the tree node reached,
      knows whether an array was indexed, and which array was iterated last. */
  ghost predicate Simulates(root: AbiType, steps: seq<Step>, k: nat, state: State)
    requires Fits(root, steps) && k <= |steps|
  {
    && state.At?
    && Holds(Flatten(root), Before(root, steps, k), state.node)
    && (state.indexed <==> exists j :: 0 <= j < k && IndexesArray(root, steps, j))
    && ArrayImage(root, steps, k, state.iterated)
  }

  /** `iterated` is the slot of the array the last iteration before `k` opened. */
  ghost predicate ArrayImage(root: AbiType, steps: seq<Step>, k: nat, iterated: Option<nat>)
    requires Fits(root, steps) && k <= |steps|
  {
    match iterated
    case None => forall j :: 0 <= j < k ==> !steps[j].Iterate?
    case Some(slot) =>
      exists j :: 0 <= j < k && steps[j].Iterate? && Holds(Flatten(root), Before(root, steps, j), slot)
                  && forall i :: j < i < k ==> !steps[i].Iterate?
  }

  /** One step further: the tree's step is the one `NodeAt` takes. */
  lemma {:induction false} BeforeNext(root: AbiType, steps: seq<Step>, k: nat)
    requires Fits(root, steps) && k < |steps|
    ensures Fits(Before(root, steps, k), [steps[k]])
    ensures ChildAt(Before(root, steps, k), steps[k]) == Ok(Before(root, steps, k + 1))
  {
    var prefix := steps[..k];
    assert steps[..k + 1] == prefix + [steps[k]];
    assert steps[..k + 1] + steps[k + 1..] == steps && prefix + steps[k..] == steps;
    FitsPrefix(root, prefix, steps[k..]);
    FitsPrefix(root, steps[..k + 1], steps[k + 1..]);
    FitsAppend(root, prefix, [steps[k]]);
    OneStep(Before(root, steps, k), steps[k]);
  }

  lemma OneStep(node: AbiType, step: Step)
    requires Fits(node, [step])
    ensures NodeAt(node, [step]) == ChildAt(node, step)
  {
    assert [step][1..] == [];
  }

  lemma {:induction false} BeforeValid(root: AbiType, steps: seq<Step>, k: nat)
    requires Valid(root) && Fits(root, steps) && k <= |steps|
    ensures Valid(Before(root, steps, k))
  {
    if k == 0 {
      assert steps[..0] == [];
    } else {
      BeforeValid(root, steps, k - 1);
      BeforeNext(root, steps, k - 1);
      var parent := Before(root, steps, k - 1);
      if parent.Tuple? {
        AllValidAt(parent.members, steps[k - 1].index);
      }
    }
  }

  /** The slots of a node's children are where the row says. */
  lemma {:induction false} ChildSlot(root: AbiType, node: AbiType, slot: nat, i: nat)
    requires Holds(Flatten(root), node, slot) && i < |node.Children()|
    ensures slot < |Rows(root)|
    ensures Rows(root)[slot].first + i < |Rows(root)|
    ensures Holds(Flatten(root), node.Children()[i], Rows(root)[slot].first + i)
  {
    FlattenHolds(root);
    HoldsAllAt(Flatten(root), node.Children(), Flatten(root)[slot].value.first, i);
  }

  /** What one step does to the node the walk stands on. */
  lemma {:induction false} StepLands(root: AbiType, node: AbiType, child: AbiType, step: Step, state: State)
    requires Fits(node, [step]) && ChildAt(node, step) == Ok(child)
    requires state.At? && Holds(Flatten(root), node, state.node)
    ensures var next := WalkStep(Rows(root), state, step);
            var index := if step.Index? then step.index else 0;
            if node.Tuple? then
              next.At? && Holds(Flatten(root), child, next.node)
              && next.indexed == state.indexed && next.iterated == state.iterated
            else if step.Iterate? && state.indexed then next == Stopped(IndexBeforeIteration)
            else if !(-Limit(node.length) <= index < Limit(node.length)) then next == Stopped(BeyondArray)
            else
              next.At? && Holds(Flatten(root), child, next.node)
              && next.indexed == (state.indexed || step.Index?)
              && next.iterated == if step.Iterate? then Some(state.node) else state.iterated
  {
    FlattenHolds(root);
    assert [step][0] == step;
    if node.Tuple? {
      ChildSlot(root, node, state.node, step.index);
    } else {
      ChildSlot(root, node, state.node, 0);
    }
  }

  /** The simulation step: it stops for the two array reasons, exactly when
      they apply, and otherwise simulates one step further. */
  lemma {:induction false} SimulationStep(root: AbiType, steps: seq<Step>, k: nat, state: State)
    requires Fits(root, steps) && k < |steps| && Simulates(root, steps, k, state)
    ensures var next := WalkStep(Rows(root), state, steps[k]);
            if IteratesLate(root, steps, k) then next == Stopped(IndexBeforeIteration)
            else if !InRange(root, steps, k) then next == Stopped(BeyondArray)
            else Simulates(root, steps, k + 1, next)
  {
    var node := Before(root, steps, k);
    var next := WalkStep(Rows(root), state, steps[k]);
    BeforeNext(root, steps, k);
    StepLands(root, node, Before(root, steps, k + 1), steps[k], state);
    if next.At? {
      IndexedNext(root, steps, k, state.indexed, next.indexed);
      ArrayImageNext(root, steps, k, state, next);
    }
  }

  lemma {:induction false} IndexedNext(root: AbiType, steps: seq<Step>, k: nat, before: bool, after: bool)
    requires Fits(root, steps) && k < |steps|
    requires before <==> exists j :: 0 <= j < k && IndexesArray(root, steps, j)
    requires after <==> before || IndexesArray(root, steps, k)
    ensures after <==> exists j :: 0 <= j < k + 1 && IndexesArray(root, steps, j)
  {
  }

  lemma {:induction false} ArrayImageNext(root: AbiType, steps: seq<Step>, k: nat, state: State, next: State)
    requires Fits(root, steps) && k < |steps|
    requires state.At? && next.At? && ArrayImage(root, steps, k, state.iterated)
    requires next.iterated == if steps[k].Iterate? then Some(state.node) else state.iterated
    requires Holds(Flatten(root), Before(root, steps, k), state.node)
    ensures ArrayImage(root, steps, k + 1, next.iterated)
  {
    if !steps[k].Iterate? && state.iterated.Some? {
      var slot := state.iterated.value;
      var j :| 0 <= j < k && steps[j].Iterate? && Holds(Flatten(root), Before(root, steps, j), slot)
               && forall i :: j < i < k ==> !steps[i].Iterate?;
      assert forall i :: j < i < k + 1 ==> !steps[i].Iterate?;
    }
  }

  /** The first step the walk stops at, if there is one. */
  ghost predicate PassesUpTo(root: AbiType, steps: seq<Step>, k: nat)
    requires Fits(root, steps) && k <= |steps|
  {
    forall j :: 0 <= j < k ==> InRange(root, steps, j) && !IteratesLate(root, steps, j)
  }

  lemma {:induction false} SimulationPrefix(root: AbiType, steps: seq<Step>, k: nat)
    requires Fits(root, steps) && k <= |steps| && PassesUpTo(root, steps, k)
    ensures Simulates(root, steps, k, Walk(Rows(root), steps[..k]))
  {
    if k == 0 {
      assert steps[..0] == [];
      FlattenHolds(root);
    } else {
      SimulationPrefix(root, steps, k - 1);
      assert steps[..k][..k - 1] == steps[..k - 1];
      SimulationStep(root, steps, k - 1, Walk(Rows(root), steps[..k - 1]));
    }
  }

  lemma {:induction false} SimulationStops(root: AbiType, steps: seq<Step>, k: nat)
    requires Fits(root, steps) && k < |steps| && PassesUpTo(root, steps, k)
    requires !InRange(root, steps, k) || IteratesLate(root, steps, k)
    ensures Walk(Rows(root), steps) ==
            Stopped(if IteratesLate(root, steps, k) then IndexBeforeIteration else BeyondArray)
  {
    SimulationPrefix(root, steps, k);
    SimulationStep(root, steps, k, Walk(Rows(root), steps[..k]));
    assert steps[..k + 1][..k] == steps[..k];
    StoppedStays(Rows(root), steps, k + 1);
  }

  /** The first step that does not pass. */
  lemma {:induction false} FirstFailure(root: AbiType, steps: seq<Step>, n: nat) returns (k: nat)
    requires Fits(root, steps) && n <= |steps| && !PassesUpTo(root, steps, n)
    ensures k < n && PassesUpTo(root, steps, k)
    ensures !InRange(root, steps, k) || IteratesLate(root, steps, k)
  {
    if PassesUpTo(root, steps, n - 1) {
      k := n - 1;
    } else {
      k := FirstFailure(root, steps, n - 1);
    }
  }

  // --------------------------------------------------------------- results

  function LeafKind(t: AbiType): nat {
    if t.Leaf? then t.kind else 0
  }

  /** On a path that fits, the device's walk accepts exactly when every array
      step is in range, no iteration follows an array index, and the path ends
      at a value. */
  lemma {:induction false} WalkAcceptsIff(root: AbiType, steps: seq<Step>)
    requires Valid(root) && Fits(root, steps)
    ensures AbiWalk(Rows(root), steps).Reached? <==>
            PassesUpTo(root, steps, |steps|) && EndsAtValue(root, steps)
  {
    WalkOutcome(root, steps);
  }

  /** The whole outcome: the node reached is the image of `_path_node`'s, its
      kind is the one reported, and a refusal names the reason that applies. */
  lemma {:induction false} WalkOutcome(root: AbiType, steps: seq<Step>)
    requires Valid(root) && Fits(root, steps)
    ensures var state := Walk(Rows(root), steps);
            var outcome := AbiWalk(Rows(root), steps);
            if !PassesUpTo(root, steps, |steps|) then
              outcome in {Refused(BeyondArray), Refused(IndexBeforeIteration)}
            else
              && Simulates(root, steps, |steps|, state)
              && NodeAt(root, steps) == Ok(Before(root, steps, |steps|))
              && outcome == if !EndsAtValue(root, steps) then Refused(NotAValue)
                            else Reached(LeafKind(Before(root, steps, |steps|)), state.iterated)
  {
    FitsHasNode(root, steps);
    assert steps[..|steps|] == steps;
    if !PassesUpTo(root, steps, |steps|) {
      var k := FirstFailure(root, steps, |steps|);
      SimulationStops(root, steps, k);
    } else {
      SimulationPrefix(root, steps, |steps|);
      BeforeValid(root, steps, |steps|);
      FlattenHolds(root);
    }
  }

  /** The same for what the resolver returns: every slice-free path it accepts
      fits, so the walk never leaves the table or misses a member. */
  lemma {:induction false} ResolvedPathWalk(root: AbiType, expression: string)
    requires Valid(root)
    requires ResolvePath(root, expression).Ok? && ResolvePath(root, expression).value.AbiPath?
    requires SliceFree(ResolvePath(root, expression).value.steps)
    ensures var steps := ResolvePath(root, expression).value.steps;
            && Fits(root, steps) && PathNode(root, AbiPath(steps)).Ok?
            && (AbiWalk(Rows(root), steps).Refused? ==>
                  AbiWalk(Rows(root), steps).reason in {BeyondArray, IndexBeforeIteration, NotAValue})
            && (AbiWalk(Rows(root), steps).Reached? <==>
                  PassesUpTo(root, steps, |steps|) && EndsAtValue(root, steps))
  {
    var steps := ResolvePath(root, expression).value.steps;
    if expression != "#" {
      var e := if Text.StartsWith(expression, "#.") then expression[2..] else expression;
      ResolvedFits(root, Text.Split(e, '.'));
    }
    FitsHasNode(root, steps);
    WalkOutcome(root, steps);
    WalkAcceptsIff(root, steps);
  }
}
