/** A whole compilation and what a compiled program is known to be
    (`CalldataCompiler.compile`, keepkeylib/erc7730_compiler.py). */
module CompiledProgram {
  import opened Wrappers
  import opened Bytes
  import opened AbiTypes
  import opened FlatAbi
  import opened AbiPaths
  import opened Program
  import opened DisplayWord
  import opened DisplayFields
  import opened ProgramPools
  import opened ProgramBuilder
  import opened GroupScope
  import opened CompiledDisplay
  import opened DisplayEmitter
  import opened DisplayShape
  import opened Compiler
  import SignatureParser
  import StringTable

  /** The tables an argument or an instruction of a program points into. */
  function PoolsOf(t: Tables): Pools {
    Pools(t.strings, t.paths, t.literals)
  }

  function BuiltOf(t: Tables): Built {
    Built(PoolsOf(t), t.formatters, t.conditions)
  }

  ghost predicate Distinct(paths: seq<Path>) {
    forall i, j :: 0 <= i < j < |paths| ==> paths[i] != paths[j]
  }

  /** What compilation achieved: where everything is, and what every formatter
      was to ask for. */
  datatype Evidence = Evidence(layout: Layout, plans: seq<Plan>)

  /** The display program says what the fields and groups ask for. */
  ghost predicate DisplaysSay(root: AbiType, ranges: seq<Range>, fields: seq<Field>, intent: string, tokens: seq<Token>,
      t: Tables, l: Layout)
  {
    && t.displays == l.displays && Sound(l, ranges) && l.pending == [] && l.loops == []
    && BeforeField(l, ranges, |fields|) && |l.fieldPcs| == |fields|
    && AllFieldsEmitted(BuiltOf(t), root, ranges, fields, t.displays, l.fieldPcs)
    && AllGroupsEmitted(BuiltOf(t), root, ranges, t.displays, l.begins)
    && IntentEmitted(PoolsOf(t), fields, intent, tokens, t.displays)
    && Shaped(root, ranges, fields, tokens, t.displays, l.fieldPcs) && GroupLoops(ranges, t.displays, l.begins, [])
    && Accounted(root, ranges, fields, |tokens|, t.displays[..|t.displays| - 1], l.begins, l.fieldPcs)
  }

  /** The formatters say what the fields' formats ask for. */
  ghost predicate FormattersSay(root: AbiType, fields: seq<Field>, t: Tables, plans: seq<Plan>) {
    && |t.formatters| == |plans| == |fields|
    && forall j :: 0 <= j < |fields| ==>
         PlanOf(root, fields[j]) == Ok(plans[j]) && FormatterSays(PoolsOf(t), t.formatters[j], plans[j])
  }

  ghost predicate TablesSay(root: AbiType, t: Tables) {
    && t.abi == Rows(root) && StringTable.Ascending(t.strings) && Distinct(t.paths)
    && (forall i :: 0 <= i < |t.paths| ==> PathIn(root, PoolsOf(t), t.paths[i]))
    && (forall i :: 0 <= i < |t.conditions| ==> ConditionIn(PoolsOf(t), t.conditions[i]))
  }

  ghost predicate IsCompiled(root: AbiType, ranges: seq<Range>, fields: seq<Field>, intent: string, tokens: seq<Token>,
      t: Tables, e: Evidence)
  {
    && TablesSay(root, t)
    && FormattersSay(root, fields, t, e.plans)
    && DisplaysSay(root, ranges, fields, intent, tokens, t, e.layout)
  }

  // ----------------------------------------------------------------- resources

  function TreeDepth(t: AbiType): nat {
    match t
    case Leaf(_, _, _) => 1
    case Tuple(_, members) => 1 + DeepestOf(members)
    case Array(_, element, _) => 1 + TreeDepth(element)
  }

  function DeepestOf(ts: seq<AbiType>): nat {
    if ts == [] then 0
    else
      var first, rest := TreeDepth(ts[0]), DeepestOf(ts[1..]);
      if first > rest then first else rest
  }

  /** Every path into the tree is shorter than its depth. */
  lemma {:induction false} PathsShallow(t: AbiType, steps: seq<Step>)
    requires Fits(t, steps)
    ensures |steps| < TreeDepth(t)
    decreases |steps|
  {
    if steps != [] {
      var child := ChildAt(t, steps[0]).value;
      PathsShallow(child, steps[1..]);
      if t.Tuple? {
        DeepestIsMost(t.members, steps[0].index);
      }
    }
  }

  lemma {:induction false} DeepestIsMost(ts: seq<AbiType>, i: nat)
    requires i < |ts|
    ensures TreeDepth(ts[i]) <= DeepestOf(ts)
  {
    if i > 0 {
      DeepestIsMost(ts[1..], i - 1);
    }
  }

  /** And one is as long as the depth allows. */
  lemma {:induction false} DeepestPath(t: AbiType) returns (steps: seq<Step>)
    ensures Fits(t, steps) && |steps| + 1 == TreeDepth(t)
    decreases t, 1
  {
    match t
    case Leaf(_, _, _) => steps := [];
    case Tuple(_, members) =>
      if members == [] {
        steps := [];
      } else {
        var i, below := DeepestMember(members);
        steps := [Index(i)] + below;
        assert steps[1..] == below;
      }
    case Array(_, element, _) =>
      var below := DeepestPath(element);
      steps := [Iterate] + below;
      assert steps[1..] == below;
  }

  lemma {:induction false} DeepestMember(ts: seq<AbiType>) returns (i: nat, steps: seq<Step>)
    requires ts != []
    ensures i < |ts| && Fits(ts[i], steps) && |steps| + 1 == DeepestOf(ts)
    decreases ts, 0
  {
    var first, rest := TreeDepth(ts[0]), DeepestOf(ts[1..]);
    if first > rest || |ts| == 1 {
      steps := DeepestPath(ts[0]);
      i := 0;
    } else {
      i, steps := DeepestMember(ts[1..]);
      i := i + 1;
    }
  }

  function LongestString(strings: seq<bytes>): (n: nat)
    ensures forall i :: 0 <= i < |strings| ==> |strings[i]| <= n
    ensures strings != [] ==> exists i :: 0 <= i < |strings| && |strings[i]| == n
  {
    if strings == [] then 0
    else
      var rest := LongestString(strings[1..]);
      assert forall i :: 1 <= i < |strings| ==> strings[i] == strings[1..][i - 1];
      if |strings[0]| > rest then |strings[0]| else rest
  }

  predicate AnyIterates(paths: seq<Path>) {
    exists i :: 0 <= i < |paths| && paths[i].AbiPath? && Iterations(paths[i].steps) > 0
  }

  /** Section 9: the table counts, the depths and the largest string. */
  function Resources(t: Tables, depth: Byte, displayDepth: Byte): Result<bytes> {
    if |t.bindings| >= 0x1_0000 || !Encodable(t) || LongestString(t.strings) >= 0x1_0000 then Raised
    else
      Ok(U16(|t.strings|) + U16(|t.abi|) + U16(|t.paths|) + U16(|t.literals|) + U16(|t.conditions|)
         + U16(|t.formatters|) + U16(|t.displays|) + U16(|t.bindings|)
         + [depth, if AnyIterates(t.paths) then 64 else 0, displayDepth,
            if exists i :: 0 <= i < |t.formatters| && t.formatters[i].kind == 13 then 1 else 0]
         + U16(LongestString(t.strings)))
  }

  /** Every table's count, where the device looks for it. */
  predicate CountsRecorded(t: Tables) {
    && |t.resources| == 22
    && ReadU16(t.resources, 0) == Ok(|t.strings|) && ReadU16(t.resources, 2) == Ok(|t.abi|)
    && ReadU16(t.resources, 4) == Ok(|t.paths|) && ReadU16(t.resources, 6) == Ok(|t.literals|)
    && ReadU16(t.resources, 8) == Ok(|t.conditions|) && ReadU16(t.resources, 10) == Ok(|t.formatters|)
    && ReadU16(t.resources, 12) == Ok(|t.displays|) && ReadU16(t.resources, 14) == Ok(|t.bindings|)
    && ReadU16(t.resources, 20) == Ok(LongestString(t.strings))
  }

  /** Whether anything iterates, as the number of elements reserved for it, and
      whether calls are embedded. */
  predicate FlagsRecorded(t: Tables) {
    && |t.resources| == 22
    && t.resources[17] == (if exists i :: 0 <= i < |t.paths| && HasIteration(t.paths[i]) then 64 else 0)
    && t.resources[19] == (if exists i :: 0 <= i < |t.formatters| && t.formatters[i].kind == 13 then 1 else 0)
  }

  predicate HasIteration(p: Path) {
    p.AbiPath? && exists i :: 0 <= i < |p.steps| && p.steps[i].Iterate?
  }

  lemma {:induction false} IterationsCount(steps: seq<Step>)
    ensures Iterations(steps) > 0 <==> exists i :: 0 <= i < |steps| && steps[i].Iterate?
  {
    if steps != [] {
      var n := |steps| - 1;
      IterationsCount(steps[..n]);
      assert forall i :: 0 <= i < n ==> steps[..n][i] == steps[i];
    }
  }

  lemma RecordedCounts(t: Tables, depth: Byte, displayDepth: Byte)
    requires Resources(t, depth, displayDepth).Ok?
    ensures CountsRecorded(t.(resources := Resources(t, depth, displayDepth).value))
  {
    hide LongestString, AnyIterates, Encodable;
  }

  lemma RecordedResources(t: Tables, depth: Byte, displayDepth: Byte)
    requires Resources(t, depth, displayDepth).Ok?
    ensures var r := Resources(t, depth, displayDepth).value;
            CountsRecorded(t.(resources := r)) && FlagsRecorded(t.(resources := r)) && r[16] == depth
            && r[18] == displayDepth
  {
    RecordedCounts(t, depth, displayDepth);
    hide LongestString, Encodable, CountsRecorded, Iterations;
    forall i | 0 <= i < |t.paths| && t.paths[i].AbiPath?
      ensures HasIteration(t.paths[i]) <==> Iterations(t.paths[i].steps) > 0
    {
      IterationsCount(t.paths[i].steps);
    }
  }

  // ------------------------------------------------------------------- compile

  predicate StringsAllowed(strings: seq<bytes>) {
    forall i :: 0 <= i < |strings| ==> 1 <= |strings[i]| <= 128
  }

  lemma SortedBuilt(root: AbiType, ranges: seq<Range>, fields: seq<Field>, b: Built, ds: seq<Instruction>,
      pcs: seq<nat>)
    requires AllFieldsEmitted(b, root, ranges, fields, ds, pcs)
    requires forall k :: 0 <= k < |b.formatters| ==>
               b.formatters[k].arguments != []
               && SortFormatter(b.formatters[k]).arguments[0] == b.formatters[k].arguments[0]
    ensures AllFieldsEmitted(b.(formatters := SortFormatters(b.formatters)), root, ranges, fields, ds, pcs)
  {
    hide OwnPositions, LoopEmitted, SortArguments, ConditionFor, StepsOf, NodeOf;
    forall j | 0 <= j < |pcs|
      ensures FieldEmitted(b.(formatters := SortFormatters(b.formatters)), root, fields[j], j,
                           OwnPositions(root, ranges, fields[j], j), ds, pcs[j])
    {
      SortedField(b, root, fields[j], j, OwnPositions(root, ranges, fields[j], j), ds, pcs[j]);
    }
  }

  lemma SortedField(b: Built, root: AbiType, f: Field, k: nat, own: seq<nat>, ds: seq<Instruction>, pc: nat)
    requires FieldEmitted(b, root, f, k, own, ds, pc)
    requires forall k :: 0 <= k < |b.formatters| ==>
               b.formatters[k].arguments != []
               && SortFormatter(b.formatters[k]).arguments[0] == b.formatters[k].arguments[0]
    ensures FieldEmitted(b.(formatters := SortFormatters(b.formatters)), root, f, k, own, ds, pc)
  {
    hide SortArguments, ConditionFor, StepsOf, NodeOf;
    forall n | 0 <= n < |own|
      ensures LoopEmitted(b.(formatters := SortFormatters(b.formatters)), root, f, k, own, ds, pc, n)
    {
      assert LoopEmitted(b, root, f, k, own, ds, pc, n);
    }
  }

  /** The limits on table sizes. */
  predicate WithinLimits(t: Tables) {
    |t.paths| <= 64 && |t.formatters| <= 64 && |t.displays| <= 64 && |t.conditions| <= 32
  }

  /** The recorded counts are those of the tables, and the recorded depths those
      of the tree and of the display program. */
  ghost predicate ResourcesRecorded(root: AbiType, t: Tables) {
    && CountsRecorded(t) && FlagsRecorded(t) && t.resources[16] == TreeDepth(root)
    && (forall pc :: 0 <= pc <= |t.displays| ==> DepthAt(t.displays, pc) <= t.resources[18])
    && (exists pc :: 0 <= pc <= |t.displays| && DepthAt(t.displays, pc) == t.resources[18])
  }

  /** A compilation of a signature and a field list. */
  ghost predicate CompiledFrom(signature: string, items: seq<Item>, intent: string, tokens: seq<Token>, t: Tables,
      e: Evidence)
  {
    && SignatureParser.ParseFunction(signature).Ok? && DisplayFields.Flatten(items, None, 0).Ok?
    && var root := SignatureParser.ParseFunction(signature).value.1;
       var (fields, ranges) := DisplayFields.Flatten(items, None, 0).value;
       && IsCompiled(root, ranges, Shown(fields, InterpolatedPaths(tokens)), intent, tokens, t, e)
       && Encodable(t) && WithinLimits(t) && ResourcesRecorded(root, t)
  }

  /** What the emitter leaves behind is what the tables need. */
  lemma EmittedSays(emitter: Emitter, rows: seq<Row>, bindings: seq<Literal>, resources: bytes)
    requires emitter.Emitted(|emitter.fields|) && |emitter.fieldPcs| == |emitter.fields| == |emitter.tables.formatters|
    ensures var tables := emitter.tables;
            var t := Tables(tables.strings, rows, tables.paths, tables.literals, tables.conditions,
                            SortFormatters(tables.formatters), emitter.displays, bindings, resources);
            && FormattersSay(tables.root, emitter.fields, t, tables.plans)
            && AllFieldsEmitted(BuiltOf(t), tables.root, emitter.ranges, emitter.fields, t.displays, emitter.fieldPcs)
            && AllGroupsEmitted(BuiltOf(t), tables.root, emitter.ranges, t.displays, emitter.begins)
            && IntentEmitted(PoolsOf(t), emitter.fields, emitter.intent, emitter.tokens, t.displays)
            && GroupLoops(emitter.ranges, t.displays, emitter.begins, emitter.active)
  {
    hide AllFieldsEmitted, IntentEmitted, FormatterSays, PlanOf, FormatterDenotes, SortArguments, PathIn, ConditionIn;
    var tables := emitter.tables;
    assert emitter.fieldPcs[..|emitter.fields|] == emitter.fieldPcs;
    forall k | 0 <= k < |tables.formatters|
      ensures tables.formatters[k].arguments != []
      ensures SortFormatter(tables.formatters[k]).arguments[0] == tables.formatters[k].arguments[0]
      ensures FormatterSays(tables.P(), SortFormatter(tables.formatters[k]), tables.plans[k])
    {
      SortedSays(tables.root, tables.P(), emitter.fields[k], tables.formatters[k], tables.plans[k]);
    }
    SortedBuilt(tables.root, emitter.ranges, emitter.fields, emitter.B(), emitter.displays, emitter.fieldPcs);
    SortedGroups(emitter.B(), tables.root, emitter.ranges, emitter.displays, emitter.begins);
  }

  lemma SortedGroups(b: Built, root: AbiType, ranges: seq<Range>, ds: seq<Instruction>, begins: map<nat, nat>)
    requires AllGroupsEmitted(b, root, ranges, ds, begins)
    ensures AllGroupsEmitted(b.(formatters := SortFormatters(b.formatters)), root, ranges, ds, begins)
  {
    hide ResolvePath, IteratesGroup;
    forall g | g in begins
      ensures GroupEmitted(b.(formatters := SortFormatters(b.formatters)), root, ranges[g], ds, begins[g])
    {
      assert GroupEmitted(b, root, ranges[g], ds, begins[g]);
    }
  }

  /** The builder's paths and conditions are sound and listed once. */
  lemma TabledSays(tables: TableBuilder, t: Tables)
    requires tables.Tabled() && StringTable.Ascending(tables.strings)
    requires t.strings == tables.strings && t.paths == tables.paths && t.literals == tables.literals
    requires t.conditions == tables.conditions && t.abi == Rows(tables.root)
    ensures TablesSay(tables.root, t)
  {
    hide StringTable.Ascending, PathIn, ConditionIn, FormatterDenotes;
    forall i, j | 0 <= i < j < |t.paths| ensures t.paths[i] != t.paths[j] {
      assert tables.pathIndex[t.paths[i]] == i;
    }
    assert tables.P() == PoolsOf(t);
  }

  lemma TablesSayResources(root: AbiType, t: Tables, resources: bytes)
    requires TablesSay(root, t)
    ensures TablesSay(root, t.(resources := resources))
  {
    hide StringTable.Ascending, PathIn, ConditionIn;
    assert PoolsOf(t.(resources := resources)) == PoolsOf(t);
  }

  /** The texts that are shown anywhere. */
  function AllTexts(items: seq<Item>, intent: string, tokens: seq<Token>, extra: seq<string>): seq<string>
    requires DisplayFields.Flatten(items, None, 0).Ok?
  {
    var (fields, ranges) := DisplayFields.Flatten(items, None, 0).value;
    ProgramTexts(Shown(fields, InterpolatedPaths(tokens)), ranges, intent, tokens, extra)
  }
}
