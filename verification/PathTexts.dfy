/** ERC-7730 path expressions written out: `_resolve_path`
    (keepkeylib/erc7730_compiler.py) reads back every path from its text. */
module PathTexts {
  import opened Wrappers
  import opened Text
  import opened AbiTypes
  import opened AbiPaths
  import DisplayFields

  // ------------------------------------------------------------ join and split

  function Join(parts: seq<string>, c: char): string
    requires parts != []
  {
    if |parts| == 1 then parts[0] else parts[0] + [c] + Join(parts[1..], c)
  }

  /** Splitting takes joined parts apart again. */
  lemma {:induction false} SplitOfJoin(parts: seq<string>, c: char)
    requires parts != [] && forall i :: 0 <= i < |parts| ==> c !in parts[i]
    ensures Split(Join(parts, c), c) == parts
    decreases |parts|
  {
    hide IndexOf;
    if |parts| == 1 {
      IndexOfAppend(parts[0], c, "");
    } else {
      var rest := Join(parts[1..], c);
      var s := parts[0] + [c] + rest;
      IndexOfAppend(parts[0], c, rest);
      assert s[..|parts[0]|] == parts[0] && s[|parts[0]| + 1..] == rest;
      SplitOfJoin(parts[1..], c);
      assert parts == [parts[0]] + parts[1..];
    }
  }

  // ------------------------------------------------------------------ the text

  /** One component: a member by its name, an element by its number, all
      elements, or a slice whose bounds may be left out. */
  function PartText(node: AbiType, step: Step): string {
    match step
    case Index(i) =>
      if node.Tuple? && 0 <= i < |node.members| then node.members[i].name else "[" + IntText(i) + "]"
    case Iterate => "[]"
    case Slice(flags, start, end) =>
      "[" + (if flags in {1, 3} then IntText(start) else "") + ":" + (if flags in {2, 3} then IntText(end) else "")
        + "]"
  }

  predicate OnlyNamed(members: seq<AbiType>, i: nat)
    requires i < |members|
  {
    forall j :: 0 <= j < |members| && j != i ==> members[j].name != members[i].name
  }

  /** A step that can be written: members by an identifier no other member has,
      and bounds only where they are given. */
  predicate WritableStep(node: AbiType, step: Step) {
    match step
    case Index(i) =>
      || node.Array?
      || (node.Tuple? && 0 <= i < |node.members| && IsIdentifier(node.members[i].name) && OnlyNamed(node.members, i))
    case Iterate => node.Array?
    case Slice(flags, start, end) =>
      flags <= 3 && (flags !in {1, 3} ==> start == 0) && (flags !in {2, 3} ==> end == 0)
  }

  function Below(node: AbiType, step: Step): AbiType
    requires WritableStep(node, step)
  {
    if step.Slice? then node else if node.Array? then node.element else node.members[step.index]
  }

  predicate Writable(node: AbiType, steps: seq<Step>) {
    steps == [] || (WritableStep(node, steps[0]) && Writable(Below(node, steps[0]), steps[1..]))
  }

  function PartTexts(node: AbiType, steps: seq<Step>): (parts: seq<string>)
    requires Writable(node, steps)
    ensures |parts| == |steps|
  {
    if steps == [] then [] else [PartText(node, steps[0])] + PartTexts(Below(node, steps[0]), steps[1..])
  }

  /** `#` for the root, else the components with dots between them. */
  function PathText(root: AbiType, steps: seq<Step>): string
    requires Writable(root, steps)
  {
    if steps == [] then "#" else Join(PartTexts(root, steps), '.')
  }

  // ------------------------------------------------------------ reading it back

  lemma IntTextPlain(n: int)
    ensures forall i :: 0 <= i < |IntText(n)| ==> IsDigit(IntText(n)[i]) || IntText(n)[i] == '-'
    ensures IntOf(IntText(n)) == Ok(n)
  {
    IntOfText("", n, "");
    assert "" + IntText(n) + "" == IntText(n);
  }

  lemma PlainHasNo(s: string, c: char)
    requires forall i :: 0 <= i < |s| ==> IsDigit(s[i]) || s[i] == '-'
    ensures c in {'.', ':'} ==> c !in s
  {
  }

  lemma SliceReads(flags: nat, start: int, end: int)
    requires flags <= 3 && (flags !in {1, 3} ==> start == 0) && (flags !in {2, 3} ==> end == 0)
    ensures SliceStep((if flags in {1, 3} then IntText(start) else "") + ":"
                      + if flags in {2, 3} then IntText(end) else "") == Ok(Slice(flags, start, end))
  {
    hide IntText, IntOf, IndexOf;
    var a, b := if flags in {1, 3} then IntText(start) else "", if flags in {2, 3} then IntText(end) else "";
    var body := a + ":" + b;
    IntTextPlain(start);
    IntTextPlain(end);
    PlainHasNo(a, ':');
    assert body == a + [':'] + b;
    IndexOfAppend(a, ':', b);
    assert body[..|a|] == a && body[|a| + 1..] == b;
  }

  lemma BracketedIs(body: string)
    ensures var part := "[" + body + "]"; Bracketed(part) && part[1..|part| - 1] == body
  {
  }

  lemma BodyResolves(node: AbiType, body: string, step: Step)
    requires ':' in body && SliceStep(body) == Ok(step)
    ensures ResolvePart(node, "[" + body + "]") == Ok((step, node))
  {
    hide SliceStep, Bracketed, MemberIndex;
    BracketedIs(body);
  }

  lemma SliceResolves(node: AbiType, step: Step)
    requires step.Slice? && WritableStep(node, step)
    ensures ResolvePart(node, PartText(node, step)) == Ok((step, node))
  {
    hide IntText, ResolvePart, SliceStep, IsIdentifier;
    var (flags, start, end) := (step.flags, step.start, step.end);
    var front, back := if flags in {1, 3} then IntText(start) else "", if flags in {2, 3} then IntText(end) else "";
    var body := front + ":" + back;
    SliceReads(flags, start, end);
    assert body[|front|] == ':';
    BodyResolves(node, body, step);
    assert "[" + body + "]" == "[" + front + ":" + back + "]";
  }

  lemma ElementResolves(node: AbiType, i: int)
    requires node.Array?
    ensures ResolvePart(node, "[" + IntText(i) + "]") == Ok((Index(i), node.element))
  {
    hide IntText, IntOf, SliceStep, Bracketed, MemberIndex;
    BracketedIs(IntText(i));
    IntTextPlain(i);
    PlainHasNo(IntText(i), ':');
  }

  lemma AllResolves(node: AbiType)
    requires node.Array?
    ensures ResolvePart(node, "[]") == Ok((Iterate, node.element))
  {
  }

  /** A component is read back as its step. */
  lemma PartResolves(node: AbiType, step: Step)
    requires WritableStep(node, step)
    ensures ResolvePart(node, PartText(node, step)) == Ok((step, Below(node, step)))
  {
    hide IntText, Bracketed, MemberIndex, IsIdentifier, SliceStep, IntOf;
    match step
    case Iterate => AllResolves(node);
    case Slice(_, _, _) => SliceResolves(node, step);
    case Index(i) =>
      if node.Tuple? {
        NameIsNoBracket(node.members[i].name);
        NamedIndex(node.members, i);
      } else {
        ElementResolves(node, i);
      }
  }

  lemma NameIsNoBracket(name: string)
    requires IsIdentifier(name)
    ensures !Bracketed(name) && '.' !in name && name != "" && name[0] !in {'[', '#', '@', '0'}
  {
  }

  lemma NamedIndex(members: seq<AbiType>, i: nat)
    requires i < |members| && OnlyNamed(members, i)
    ensures MemberIndex(members, members[i].name) == Ok(i)
  {
    OnlyMatch(members, i, 0);
  }

  lemma {:induction false} PartsResolve(node: AbiType, steps: seq<Step>)
    requires Writable(node, steps)
    ensures ResolveParts(node, PartTexts(node, steps)) == Ok(steps)
    decreases |steps|
  {
    hide ResolvePart, WritableStep, Below;
    if steps != [] {
      PartResolves(node, steps[0]);
      PartsResolve(Below(node, steps[0]), steps[1..]);
      var parts := PartTexts(node, steps);
      assert parts[1..] == PartTexts(Below(node, steps[0]), steps[1..]);
      assert steps == [steps[0]] + steps[1..];
    }
  }

  /** No component holds a dot, or starts as a container or the root does. */
  lemma PartPlain(node: AbiType, step: Step)
    requires WritableStep(node, step)
    ensures var s := PartText(node, step); '.' !in s && s != "" && s[0] !in {'#', '@', '0'}
  {
    hide IntText, IsIdentifier;
    match step
    case Iterate =>
    case Slice(_, start, end) =>
      IntTextPlain(start);
      IntTextPlain(end);
      PlainHasNo(IntText(start), '.');
      PlainHasNo(IntText(end), '.');
    case Index(i) =>
      if node.Tuple? {
        NameIsNoBracket(node.members[i].name);
      } else {
        IntTextPlain(i);
        PlainHasNo(IntText(i), '.');
      }
  }

  lemma {:induction false} PartsPlain(node: AbiType, steps: seq<Step>)
    requires Writable(node, steps)
    ensures forall i :: 0 <= i < |steps| ==> '.' !in PartTexts(node, steps)[i]
    decreases |steps|
  {
    hide PartText, WritableStep, Below;
    if steps != [] {
      PartPlain(node, steps[0]);
      PartsPlain(Below(node, steps[0]), steps[1..]);
    }
  }

  lemma JoinStarts(parts: seq<string>, c: char)
    requires parts != [] && parts[0] != ""
    ensures Join(parts, c) != "" && Join(parts, c)[0] == parts[0][0]
  {
  }

  /** Every path of members, elements, iterations and slices is what its text
      resolves to, with or without the sign of the root in front. */
  lemma PathResolves(root: AbiType, steps: seq<Step>)
    requires Writable(root, steps) && |steps| <= MAX_STEPS
    ensures ResolvePath(root, PathText(root, steps)) == Ok(AbiPath(steps))
    ensures steps != [] ==> ResolvePath(root, "#." + PathText(root, steps)) == Ok(AbiPath(steps))
  {
    hide ResolveParts, Split, Join, PartText, WritableStep;
    if steps != [] {
      var parts := PartTexts(root, steps);
      var e := PathText(root, steps);
      PartsResolve(root, steps);
      PartsPlain(root, steps);
      SplitOfJoin(parts, '.');
      PartPlain(root, steps[0]);
      JoinStarts(parts, '.');
      assert ("#." + e)[2..] == e;
    }
  }

  /** Containers are resolved by their names. */
  lemma ContainerResolves(root: AbiType, id: nat)
    requires 1 <= id < |CONTAINERS|
    ensures ResolvePath(root, "@." + CONTAINERS[id]) == Ok(ContainerPath(id))
    ensures ResolvePath(root, "#.@." + CONTAINERS[id]) == Ok(ContainerPath(id))
  {
    hide ContainerId, ResolveParts;
    ContainerIdIff(CONTAINERS[id], id);
    var e := "@." + CONTAINERS[id];
    assert e[2..] == CONTAINERS[id] && e[0] == '@';
    assert ("#." + e) == "#.@." + CONTAINERS[id] && ("#." + e)[2..] == e;
  }

  // ----------------------------------------------------------- paths in groups

  /** Where a path leads. */
  function After(node: AbiType, steps: seq<Step>): AbiType
    requires Writable(node, steps)
  {
    if steps == [] then node else After(Below(node, steps[0]), steps[1..])
  }

  lemma AfterNothing(node: AbiType)
    ensures After(node, []) == node
  {
  }

  lemma AfterStep(node: AbiType, a: seq<Step>)
    requires Writable(node, a) && a != []
    ensures After(node, a) == After(Below(node, a[0]), a[1..])
  {
  }

  lemma {:induction false} PartTextsAppend(node: AbiType, a: seq<Step>, b: seq<Step>)
    requires Writable(node, a) && Writable(After(node, a), b)
    ensures Writable(node, a + b) && PartTexts(node, a + b) == PartTexts(node, a) + PartTexts(After(node, a), b)
    decreases |a|
  {
    hide PartText, WritableStep, Below, After;
    if a == [] {
      assert a + b == b;
      AfterNothing(node);
    } else {
      assert (a + b)[1..] == a[1..] + b && (a + b)[0] == a[0];
      AfterStep(node, a);
      PartTextsAppend(Below(node, a[0]), a[1..], b);
      var first := [PartText(node, a[0])];
      var front, back := PartTexts(Below(node, a[0]), a[1..]), PartTexts(After(node, a), b);
      assert first + (front + back) == (first + front) + back;
    }
  }

  lemma {:induction false} JoinAppend(a: seq<string>, b: seq<string>, c: char)
    requires a != [] && b != []
    ensures Join(a + b, c) == Join(a, c) + [c] + Join(b, c)
    decreases |a|
  {
    if |a| == 1 {
      assert (a + b)[1..] == b;
    } else {
      assert (a + b)[1..] == a[1..] + b;
      JoinAppend(a[1..], b, c);
      var x, y := Join(a[1..], c), Join(b, c);
      assert a[0] + [c] + (x + [c] + y) == a[0] + [c] + x + [c] + y;
    }
  }

  lemma TextStarts(node: AbiType, steps: seq<Step>)
    requires Writable(node, steps) && steps != []
    ensures PathText(node, steps) != "" && PathText(node, steps)[0] !in {'#', '@', '0'}
  {
    hide PartText, WritableStep, Below, Join;
    PartPlain(node, steps[0]);
    JoinStarts(PartTexts(node, steps), '.');
  }

  lemma JoinedIs(front: string, back: string)
    requires front != "" && back != "" && !DisplayFields.Absolute(back)
    ensures DisplayFields.JoinPath(Some(front), Some(back)) == Some(front + ['.'] + back)
  {
  }

  lemma TextsJoin(root: AbiType, a: seq<Step>, b: seq<Step>)
    requires Writable(root, a) && Writable(After(root, a), b) && a != [] && b != []
    ensures Writable(root, a + b)
    ensures PathText(root, a + b) == PathText(root, a) + ['.'] + PathText(After(root, a), b)
  {
    hide PartText, WritableStep, Below, Join;
    PartTextsAppend(root, a, b);
    JoinAppend(PartTexts(root, a), PartTexts(After(root, a), b), '.');
    assert a + b != [];
  }

  /** A path inside a group goes on from where the group's path leads, unless it
      starts at a root of its own. */
  lemma GroupedResolves(root: AbiType, a: seq<Step>, b: seq<Step>)
    requires Writable(root, a) && Writable(After(root, a), b) && a != [] && b != [] && |a| + |b| <= MAX_STEPS
    requires !DisplayFields.Absolute(PathText(After(root, a), b))
    ensures var joined := DisplayFields.JoinPath(Some(PathText(root, a)), Some(PathText(After(root, a), b)));
            joined.Some? && ResolvePath(root, joined.value) == Ok(AbiPath(a + b))
  {
    hide ResolvePath, PathText, Writable, DisplayFields.Absolute, DisplayFields.JoinPath;
    TextStarts(root, a);
    TextStarts(After(root, a), b);
    JoinedIs(PathText(root, a), PathText(After(root, a), b));
    TextsJoin(root, a, b);
    PathResolves(root, a + b);
  }

  lemma RootedStays(prefix: string, path: string)
    requires DisplayFields.Absolute(path)
    ensures DisplayFields.JoinPath(Some(prefix), Some(path)) == Some(path)
  {
  }
}
