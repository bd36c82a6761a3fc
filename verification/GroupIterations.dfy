/** Which groups iterate (`".[]" in group_path` and
    `group_path.split(".").count("[]")`, keepkeylib/erc7730_compiler.py): the
    compiler looks at the text of a path, and finds what its steps say. */
module GroupIterations {
  import opened Wrappers
  import opened Text
  import opened AbiTypes
  import opened AbiPaths
  import opened Program
  import opened CompiledDisplay

  // ----------------------------------------------------------------- the text

  predicate SomePart(parts: seq<string>, from: nat) {
    exists k :: from <= k < |parts| && StartsWith(parts[k], "[]")
  }

  lemma {:induction false} NoDotNoPart(s: string)
    requires '.' !in s
    ensures !HasArrayPart(s)
  {
    if s != "" {
      assert s[0] in s && s[0] != '.';
      assert forall c :: c in s[1..] ==> c in s;
      NoDotNoPart(s[1..]);
    }
  }

  lemma {:induction false} PartBehindDot(a: string, rest: string)
    requires '.' !in a
    ensures HasArrayPart(a + ['.'] + rest) <==> StartsWith(rest, "[]") || HasArrayPart(rest)
  {
    var s := a + ['.'] + rest;
    if a == "" {
      assert s[1..] == rest && s[0] == '.';
      DotFirst(rest);
    } else {
      assert a[0] in a && s[0] == a[0] != '.' && s[1..] == a[1..] + ['.'] + rest;
      assert forall c :: c in a[1..] ==> c in a;
      PartBehindDot(a[1..], rest);
    }
  }

  lemma DotFirst(rest: string)
    ensures StartsWith(['.'] + rest, ".[]") <==> StartsWith(rest, "[]")
  {
    var s := ['.'] + rest;
    if StartsWith(s, ".[]") {
      assert s[1..][..2] == "[]";
    }
    if StartsWith(rest, "[]") {
      assert s[..3] == ['.'] + rest[..2];
    }
  }

  /** A text holds `.[]` exactly when a component behind the first starts so. */
  lemma {:induction false} HasArrayPartIff(s: string)
    ensures HasArrayPart(s) <==> SomePart(Split(s, '.'), 1)
    decreases |s|
  {
    hide HasArrayPart;
    var n := IndexOf(s, '.');
    var parts := Split(s, '.');
    if n == |s| {
      NoDotNoPart(s);
    } else {
      var rest := s[n + 1..];
      assert s == s[..n] + ['.'] + rest;
      PartBehindDot(s[..n], rest);
      HasArrayPartIff(rest);
      FirstPart(rest);
      PartsShift(s[..n], Split(rest, '.'));
    }
  }

  lemma FirstPart(s: string)
    ensures StartsWith(s, "[]") <==> StartsWith(Split(s, '.')[0], "[]")
  {
    var n := IndexOf(s, '.');
    if StartsWith(s, "[]") {
      assert s[0] == '[' && s[1] == ']' && n >= 2;
      assert s[..n][..2] == "[]";
    }
    if StartsWith(Split(s, '.')[0], "[]") {
      assert Split(s, '.')[0] == s[..n];
      assert s[..n][..2] == s[..2];
    }
  }

  lemma PartsShift(first: string, parts: seq<string>)
    requires parts != []
    ensures SomePart([first] + parts, 1) <==> StartsWith(parts[0], "[]") || SomePart(parts, 1)
  {
    var all := [first] + parts;
    if StartsWith(parts[0], "[]") {
      assert all[1] == parts[0];
    }
    if SomePart(parts, 1) {
      var k :| 1 <= k < |parts| && StartsWith(parts[k], "[]");
      assert all[k + 1] == parts[k];
    }
    if SomePart(all, 1) {
      var k :| 1 <= k < |all| && StartsWith(all[k], "[]");
      assert all[k] == parts[k - 1];
    }
  }

  // ---------------------------------------------------------------- the steps

  lemma NoNumber(s: string)
    requires s != "" && s[0] == ']'
    ensures IntOf(s).Raised?
  {
    assert SkipSpace(s) == s;
    StripFront(s);
  }

  lemma {:induction false} StripFront(s: string)
    requires s != "" && s[0] == ']'
    ensures StripRight(s) != "" && StripRight(s)[0] == ']'
    decreases |s|
  {
    if IsSpace(s[|s| - 1]) {
      assert |s| > 1;
      StripFront(s[..|s| - 1]);
    }
  }

  lemma {:induction false} NamedAt(ts: seq<AbiType>, i: nat)
    requires AllWellNamed(ts) && i < |ts|
    ensures MemberName(ts[i].name) && WellNamed(ts[i])
  {
    if i > 0 {
      NamedAt(ts[1..], i - 1);
    }
  }

  lemma NoSlice(body: string)
    requires body != "" && body[0] == ']' && ':' in body
    ensures SliceStep(body).Raised?
  {
    hide IntOf;
    var n := IndexOf(body, ':');
    assert body[..n] != "" && body[..n][0] == ']';
    NoNumber(body[..n]);
  }

  /** On a tree with identifiers for names, a component starts with `[]` exactly
      when it is the step to all elements. */
  lemma ArrayPartIff(node: AbiType, part: string)
    requires WellNamed(node) && ResolvePart(node, part).Ok?
    ensures StartsWith(part, "[]") <==> ResolvePart(node, part).value.0.Iterate?
    ensures part == "[]" <==> ResolvePart(node, part).value.0.Iterate?
    ensures WellNamed(ResolvePart(node, part).value.1)
  {
    hide IntOf, SliceStep, IsIdentifier;
    if StartsWith(part, "[]") && part != "[]" {
      assert part[0] == '[' && part[1] == ']';
      LongerRaised(node, part);
    }
    if node.Tuple? && !Bracketed(part) {
      NamedAt(node.members, MemberIndex(node.members, part).value);
    }
    SliceIsSlice(if |part| >= 2 then part[1..|part| - 1] else "");
  }

  lemma SliceIsSlice(body: string)
    ensures SliceStep(body).Ok? ==> SliceStep(body).value.Slice?
  {
    hide IntOf;
  }

  lemma LongerRaised(node: AbiType, part: string)
    requires WellNamed(node) && |part| > 2 && part[0] == '[' && part[1] == ']'
    ensures ResolvePart(node, part).Raised?
  {
    hide IntOf, SliceStep;
    if Bracketed(part) {
      var body := part[1..|part| - 1];
      assert body[0] == ']';
      NoNumber(body);
      if ':' in body {
        NoSlice(body);
      }
    } else if node.Tuple? && MemberIndex(node.members, part).Ok? {
      NamedAt(node.members, MemberIndex(node.members, part).value);
    }
  }

  /** The compiler's count of `[]` components is that of the path's array steps. */
  lemma {:induction false} CountIs(node: AbiType, parts: seq<string>)
    requires WellNamed(node) && ResolveParts(node, parts).Ok?
    ensures CountArrayParts(parts) == Iterations(ResolveParts(node, parts).value)
    ensures |ResolveParts(node, parts).value| == |parts|
    ensures forall k :: 0 <= k < |parts| ==>
              (StartsWith(parts[k], "[]") <==> ResolveParts(node, parts).value[k].Iterate?)
    decreases |parts|
  {
    hide ResolvePart;
    if parts != [] {
      var (step, child) := ResolvePart(node, parts[0]).value;
      ArrayPartIff(node, parts[0]);
      CountIs(child, parts[1..]);
      var rest := ResolveParts(child, parts[1..]).value;
      FirstStep(step, rest);
      assert forall k :: 1 <= k < |parts| ==> parts[k] == parts[1..][k - 1];
    } else {
      assert Iterations([]) == 0;
    }
  }

  lemma {:induction false} FirstStep(step: Step, rest: seq<Step>)
    ensures Iterations([step] + rest) == (if step.Iterate? then 1 else 0) + Iterations(rest)
    decreases |rest|
  {
    var all := [step] + rest;
    if rest == [] {
      assert all[..0] == [] && all == [step];
    } else {
      assert all[..|all| - 1] == [step] + rest[..|rest| - 1];
      FirstStep(step, rest[..|rest| - 1]);
    }
  }

  lemma {:induction false} IterationsIff(steps: seq<Step>)
    ensures Iterations(steps) > 0 <==> exists k :: 0 <= k < |steps| && steps[k].Iterate?
    decreases |steps|
  {
    if steps != [] {
      var n := |steps| - 1;
      IterationsIff(steps[..n]);
      assert forall i :: 0 <= i < n ==> steps[..n][i] == steps[i];
    }
  }

  /** The text a path is split from: without the sign of the root. */
  function Relative(path: string): string {
    if StartsWith(path, "#.") then path[2..] else path
  }

  lemma PartsOf(root: AbiType, path: string)
    requires ResolvePath(root, path).Ok? && ResolvePath(root, path).value.AbiPath? && path != "#"
    ensures ResolveParts(root, Split(Relative(path), '.')) == Ok(ResolvePath(root, path).value.steps)
  {
    hide ResolveParts, Split;
  }

  lemma RootSplit(path: string)
    requires StartsWith(path, "#.")
    ensures Split(path, '.') == ["#"] + Split(path[2..], '.')
  {
    assert path[0] == '#' && path[1] == '.';
    assert IndexOf(path, '.') == 1 && path[..1] == "#";
  }

  /** On the tree of a signature, a group iterates exactly when its path takes
      all elements of an array, and the arrays it takes over are counted from
      the text as from the steps. */
  lemma IteratesIff(root: AbiType, path: string)
    requires root.Tuple? && WellNamed(root)
    requires ResolvePath(root, path).Ok? && ResolvePath(root, path).value.AbiPath?
    ensures var steps := ResolvePath(root, path).value.steps;
            && (IteratesGroup(Some(path)) <==> exists k :: 0 <= k < |steps| && steps[k].Iterate?)
            && CountArrayParts(Split(path, '.')) == Iterations(steps)
  {
    hide ResolvePath, ResolveParts, Split, HasArrayPart, ResolvePart;
    var steps := ResolvePath(root, path).value.steps;
    HasArrayPartIff(path);
    if path == "#" {
      RootPath(root);
    } else {
      var parts := Split(Relative(path), '.');
      PartsOf(root, path);
      CountIs(root, parts);
      IterationsIff(steps);
      FirstNoArray(root, parts);
      if StartsWith(path, "#.") {
        RootSplit(path);
        CountShift("#", parts);
        PartsShift("#", parts);
      }
      PartsAgree(parts, steps);
      GivenPath(root, path);
    }
  }

  lemma GivenPath(root: AbiType, path: string)
    requires ResolvePath(root, path).Ok?
    ensures path != ""
  {
    hide ResolveParts;
  }

  lemma RootPath(root: AbiType)
    ensures ResolvePath(root, "#") == Ok(AbiPath([])) && Split("#", '.') == ["#"]
    ensures CountArrayParts(["#"]) == 0 && !SomePart(["#"], 1)
  {
    assert IndexOf("#", '.') == 1 && "#"[..1] == "#";
    assert CountArrayParts(["#"]) == 0 + CountArrayParts(["#"][1..]);
  }

  lemma CountShift(first: string, parts: seq<string>)
    requires first != "[]"
    ensures CountArrayParts([first] + parts) == CountArrayParts(parts)
  {
    assert ([first] + parts)[1..] == parts;
  }

  /** A signature's parameters are no array. */
  lemma FirstNoArray(root: AbiType, parts: seq<string>)
    requires root.Tuple? && parts != [] && ResolveParts(root, parts).Ok?
    ensures !ResolveParts(root, parts).value[0].Iterate?
  {
    hide SliceStep, IntOf;
    SliceIsSlice(if |parts[0]| >= 2 then parts[0][1..|parts[0]| - 1] else "");
  }

  lemma PartsAgree(parts: seq<string>, steps: seq<Step>)
    requires |parts| == |steps| && parts != [] && !steps[0].Iterate?
    requires forall k :: 0 <= k < |parts| ==> (StartsWith(parts[k], "[]") <==> steps[k].Iterate?)
    ensures SomePart(parts, 1) <==> exists k :: 0 <= k < |steps| && steps[k].Iterate?
    ensures !StartsWith(parts[0], "[]")
  {
    if exists k :: 0 <= k < |steps| && steps[k].Iterate? {
      var k :| 0 <= k < |steps| && steps[k].Iterate?;
      assert k >= 1 && StartsWith(parts[k], "[]");
    }
  }
}
