/** ERC-7730 paths (keepkeylib/erc7730_compiler.py): the resolver walks the
    type tree, `_path_node` walks it again, and `_abi_walk`, the device's copy,
    walks the flat table. */
module AbiPaths {
  import opened Wrappers
  import opened Text
  import opened AbiTypes

  datatype Step =
    | Index(index: int)
    | Iterate
    | Slice(flags: nat, start: int, end: int)

  datatype Path =
    | AbiPath(steps: seq<Step>)
    | ContainerPath(container: nat)
    | LiteralPath(literal: nat)

  const MAX_STEPS: nat := 16

  function ContainerId(name: string): Result<nat> {
    if name == "from" then Ok(1)
    else if name == "to" then Ok(2)
    else if name == "value" then Ok(3)
    else if name == "chainId" then Ok(4)
    else if name == "domain" then Ok(5)
    else if name == "primaryType" then Ok(6)
    else Raised
  }

  const CONTAINERS: seq<string> := ["", "from", "to", "value", "chainId", "domain", "primaryType"]

  /** A container's number is its place in the list, and no other name has one. */
  lemma ContainerIdIff(name: string, id: nat)
    ensures ContainerId(name) == Ok(id) <==> 1 <= id < |CONTAINERS| && CONTAINERS[id] == name
  {
  }

  predicate Bracketed(part: string) {
    |part| >= 2 && part[0] == '[' && part[|part| - 1] == ']'
  }

  /** The position of the only member called `name`. */
  function MemberIndex(members: seq<AbiType>, name: string): (r: Result<nat>)
    ensures r.Ok? ==> r.value < |members| && members[r.value].name == name
  {
    var matches := Matches(members, name, 0);
    if |matches| == 1 then Ok(matches[0]) else Raised
  }

  function Matches(members: seq<AbiType>, name: string, from: nat): (r: seq<nat>)
    requires from <= |members|
    ensures forall k :: 0 <= k < |r| ==> from <= r[k] < |members| && members[r[k]].name == name
    decreases |members| - from
  {
    if from == |members| then []
    else if members[from].name == name then [from] + Matches(members, name, from + 1)
    else Matches(members, name, from + 1)
  }

  function SliceStep(body: string): Result<Step> {
    var n := IndexOf(body, ':');
    var start := body[..n];
    var end := if n < |body| then body[n + 1..] else "";
    var from :- if start == "" then Ok(0) else IntOf(start);
    var to :- if end == "" then Ok(0) else IntOf(end);
    Ok(Slice((if start == "" then 0 else 1) + (if end == "" then 0 else 2), from, to))
  }

  /** One path component: the step it means and the node it leads to. */
  function ResolvePart(node: AbiType, part: string): Result<(Step, AbiType)> {
    if Bracketed(part) then
      var body := part[1..|part| - 1];
      if body == "" then
        if node.Array? then Ok((Iterate, node.element)) else Raised
      else if ':' in body then
        var step :- SliceStep(body);
        Ok((step, node))
      else if node.Array? then
        var index :- IntOf(body);
        Ok((Index(index), node.element))
      else Raised
    else if node.Tuple? then
      var index :- MemberIndex(node.members, part);
      Ok((Index(index), node.members[index]))
    else Raised
  }

  function ResolveParts(node: AbiType, parts: seq<string>): Result<seq<Step>> {
    if parts == [] then Ok([])
    else
      var (step, child) :- ResolvePart(node, parts[0]);
      var rest :- ResolveParts(child, parts[1..]);
      Ok([step] + rest)
  }

  /** `_resolve_path`. */
  function ResolvePath(root: AbiType, expression: string): Result<Path> {
    if expression == "" then Raised
    else if expression == "#" then Ok(AbiPath([]))
    else
      var e := if StartsWith(expression, "#.") then expression[2..] else expression;
      if StartsWith(e, "@.") then
        var id :- ContainerId(e[2..]);
        Ok(ContainerPath(id))
      else
        var steps :- ResolveParts(root, Split(e, '.'));
        if |steps| > MAX_STEPS then Raised else Ok(AbiPath(steps))
  }

  /** A member's name alone is a path to it. */
  lemma NameResolves(name: string, members: seq<AbiType>, i: nat)
    requires i < |members| && IsIdentifier(members[i].name)
    requires forall j :: 0 <= j < |members| && j != i ==> members[j].name != members[i].name
    ensures ResolvePath(Tuple(name, members), members[i].name) == Ok(AbiPath([Index(i)]))
  {
    var e := members[i].name;
    assert forall k :: 0 <= k < |e| ==> IdentChar(e[k]);
    NotSplit(e);
    OnlyMatch(members, i, 0);
    assert [e][1..] == [] && ResolveParts(members[i], []) == Ok([]);
    assert [Index(i)] + [] == [Index(i)];
  }

  lemma NotSplit(e: string)
    requires forall k :: 0 <= k < |e| ==> IdentChar(e[k])
    ensures Split(e, '.') == [e]
  {
    assert IndexOf(e, '.') == |e|;
    assert e[..|e|] == e;
  }

  lemma {:induction false} OnlyMatch(members: seq<AbiType>, i: nat, from: nat)
    requires i < |members| && from <= |members|
    requires forall j :: 0 <= j < |members| && j != i ==> members[j].name != members[i].name
    ensures Matches(members, members[i].name, from) == if from <= i then [i] else []
    decreases |members| - from
  {
    if from < |members| {
      OnlyMatch(members, i, from + 1);
    }
  }

  /** The loop of `_resolve_path` over the components. */
  method ResolveComponents(root: AbiType, parts: seq<string>) returns (r: Result<seq<Step>>)
    ensures r == ResolveParts(root, parts)
  {
    var node := root;
    var steps: seq<Step> := [];
    for i := 0 to |parts|
      invariant ResolveParts(root, parts).Raised? <==> ResolveParts(node, parts[i..]).Raised?
      invariant ResolveParts(node, parts[i..]).Ok? ==>
                  ResolveParts(root, parts).value == steps + ResolveParts(node, parts[i..]).value
    {
      assert parts[i..][0] == parts[i] && parts[i..][1..] == parts[i + 1..];
      var next :- ResolvePart(node, parts[i]);
      steps := steps + [next.0];
      node := next.1;
    }
    assert parts[|parts|..] == [] && steps + [] == steps;
    return Ok(steps);
  }

  // ------------------------------------------------------------ `_path_node`

  /** Where one index or iteration step leads, with Python's indexing. */
  function ChildAt(node: AbiType, step: Step): Result<AbiType> {
    match step
    case Index(i) =>
      if node.Tuple? then
        if 0 <= i < |node.members| then Ok(node.members[i])
        else if -|node.members| <= i < 0 then Ok(node.members[|node.members| + i])
        else Raised
      else if node.Array? then Ok(node.element)
      else Raised
    case Iterate => if node.Array? then Ok(node.element) else Raised
    case Slice(_, _, _) => Ok(node)
  }

  /** `_path_node` on the steps of a path: a slice ends the walk. */
  function NodeAt(node: AbiType, steps: seq<Step>): Result<AbiType> {
    if steps == [] || steps[0].Slice? then Ok(node)
    else
      var child :- ChildAt(node, steps[0]);
      NodeAt(child, steps[1..])
  }

  /** `_path_node`. A container's addresses and integers have a node of their
      own; a literal path never leaves the root. */
  function PathNode(root: AbiType, path: Path): Result<AbiType> {
    match path
    case ContainerPath(id) => Ok(Leaf("", if id == 1 || id == 2 then ADDRESS else UINT, 0))
    case LiteralPath(_) => Ok(root)
    case AbiPath(steps) => NodeAt(root, steps)
  }

  predicate SliceFree(steps: seq<Step>) {
    forall i :: 0 <= i < |steps| ==> !steps[i].Slice?
  }

  /** Paths that stay inside the tree: array steps and members that exist. */
  predicate Fits(node: AbiType, steps: seq<Step>) {
    steps == [] ||
    (!steps[0].Slice? && (node.Tuple? ==> steps[0].Index? && 0 <= steps[0].index < |node.members|)
     && ChildAt(node, steps[0]).Ok? && Fits(ChildAt(node, steps[0]).value, steps[1..]))
  }

  /** Whatever the resolver returns without a slice fits the tree. */
  lemma {:induction false} ResolvedFits(node: AbiType, parts: seq<string>)
    requires ResolveParts(node, parts).Ok? && SliceFree(ResolveParts(node, parts).value)
    ensures Fits(node, ResolveParts(node, parts).value)
  {
    if parts != [] {
      var (step, child) := ResolvePart(node, parts[0]).value;
      var rest := ResolveParts(child, parts[1..]).value;
      var steps := [step] + rest;
      assert steps[0] == step && steps[1..] == rest;
      assert SliceFree(rest) by {
        forall i | 0 <= i < |rest| ensures !rest[i].Slice? {
          assert rest[i] == steps[i + 1];
        }
      }
      ResolvedFits(child, parts[1..]);
    }
  }

  lemma {:induction false} FitsHasNode(node: AbiType, steps: seq<Step>)
    requires Fits(node, steps)
    ensures NodeAt(node, steps).Ok?
  {
    if steps != [] {
      FitsHasNode(ChildAt(node, steps[0]).value, steps[1..]);
    }
  }

  /** Fitting paths are cut anywhere, and the walk with them. */
  lemma {:induction false} FitsAppend(node: AbiType, steps: seq<Step>, more: seq<Step>)
    requires Fits(node, steps) && NodeAt(node, steps).Ok?
    ensures Fits(node, steps + more) <==> Fits(NodeAt(node, steps).value, more)
    ensures NodeAt(node, steps + more) == NodeAt(NodeAt(node, steps).value, more)
  {
    if steps == [] {
      assert steps + more == more;
    } else {
      assert (steps + more)[1..] == steps[1..] + more;
      FitsAppend(ChildAt(node, steps[0]).value, steps[1..], more);
    }
  }

  lemma {:induction false} FitsPrefix(node: AbiType, steps: seq<Step>, more: seq<Step>)
    requires Fits(node, steps + more)
    ensures Fits(node, steps) && NodeAt(node, steps).Ok?
  {
    if steps != [] {
      assert (steps + more)[1..] == steps[1..] + more;
      FitsPrefix(ChildAt(node, steps[0]).value, steps[1..], more);
    }
  }

  /** Fits as far as a slice, where every walk of the tree ends. */
  predicate Follows(node: AbiType, steps: seq<Step>) {
    steps == [] || steps[0].Slice? ||
    ((node.Tuple? ==> steps[0].Index? && 0 <= steps[0].index < |node.members|)
     && ChildAt(node, steps[0]).Ok? && Follows(ChildAt(node, steps[0]).value, steps[1..]))
  }

  lemma {:induction false} FollowsFits(node: AbiType, steps: seq<Step>)
    requires Follows(node, steps) && SliceFree(steps)
    ensures Fits(node, steps)
  {
    if steps != [] {
      assert !steps[0].Slice?;
      FollowsFits(ChildAt(node, steps[0]).value, steps[1..]);
    }
  }

  lemma {:induction false} FollowsPrefix(node: AbiType, steps: seq<Step>, k: nat)
    requires Follows(node, steps) && k <= |steps|
    ensures Follows(node, steps[..k])
  {
    if k > 0 && !steps[0].Slice? {
      assert steps[..k][1..] == steps[1..][..k - 1];
      FollowsPrefix(ChildAt(node, steps[0]).value, steps[1..], k - 1);
    }
  }

  lemma {:induction false} ResolvedFollows(node: AbiType, parts: seq<string>)
    requires ResolveParts(node, parts).Ok?
    ensures Follows(node, ResolveParts(node, parts).value)
  {
    if parts != [] {
      var (step, child) := ResolvePart(node, parts[0]).value;
      var rest := ResolveParts(child, parts[1..]).value;
      assert ([step] + rest)[1..] == rest;
      ResolvedFollows(child, parts[1..]);
    }
  }

  /** A path into the arguments that follows the type tree, or a container. */
  predicate PathOn(root: AbiType, path: Path) {
    path.ContainerPath? || (path.AbiPath? && Follows(root, path.steps))
  }

  lemma ResolvedPathOn(root: AbiType, expression: string)
    requires ResolvePath(root, expression).Ok?
    ensures PathOn(root, ResolvePath(root, expression).value)
  {
    if expression != "#" && ResolvePath(root, expression).value.AbiPath? {
      ResolvedFollows(root, Split(if StartsWith(expression, "#.") then expression[2..] else expression, '.'));
    }
  }
}
