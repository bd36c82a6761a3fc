/** When compiled tables can be encoded (the serialising half of
    `CalldataCompiler.compile`, keepkeylib/erc7730_compiler.py): what the
    descriptor has to satisfy, and that everything else always fits. */
module EncodableTables {
  import opened Wrappers
  import opened Bytes
  import opened AbiTypes
  import opened FlatAbi
  import opened AbiPaths
  import opened Program
  import opened DisplayFields
  import opened Formatters
  import opened ProgramPools
  import opened ProgramBuilder
  import opened GroupScope
  import opened CompiledDisplay
  import opened DisplayShape
  import opened Demands
  import opened FieldDemands
  import opened Compiler
  import opened CompiledProgram
  import opened CompiledRoles
  import opened CompiledOperands
  import StringTable

  // ----------------------------------------------------------------- the rows

  /** Every array length takes 16 bits. */
  predicate LengthsFit(t: AbiType) {
    match t
    case Leaf(_, _, _) => true
    case Tuple(_, members) => AllLengthsFit(members)
    case Array(_, element, length) => IsU16(length) && LengthsFit(element)
  }

  predicate AllLengthsFit(ts: seq<AbiType>) {
    ts == [] || (LengthsFit(ts[0]) && AllLengthsFit(ts[1..]))
  }

  /** A slot's node and children take the widths of a row; the slot's own
      children are within the table. */
  predicate SlotFits(s: Slot, n: nat) {
    IsByte(s.node.Kind()) && IsU16(s.node.Size()) && (s.node.Array? ==> IsU16(s.node.length)) && s.first + s.count <= n
  }

  predicate SlotsFit(nodes: Slots, n: nat) {
    forall j :: 0 <= j < |nodes| && nodes[j].Some? ==> SlotFits(nodes[j].value, n)
  }

  lemma NodeFits(t: AbiType)
    requires Valid(t) && LengthsFit(t)
    ensures IsByte(t.Kind()) && IsU16(t.Size()) && (t.Array? ==> IsU16(t.length))
    ensures AllValid(t.Children()) && AllLengthsFit(t.Children())
  {
    if t.Array? {
      assert [t.element][1..] == [];
    }
  }

  lemma {:induction false} FillFits(nodes: Slots, t: AbiType, index: nat, n: nat)
    requires index < |nodes| && Valid(t) && LengthsFit(t) && SlotsFit(nodes, n) && |nodes| + NodeCount(t) - 1 <= n
    ensures SlotsFit(Fill(nodes, t, index), n)
    decreases NodeCount(t), 1
  {
    hide Valid, LengthsFit;
    ChildrenCount(t);
    NodeFits(t);
    var children := t.Children();
    var first := if children == [] then 0 else |nodes|;
    var placed := (nodes + Unfilled(|children|))[index := Some(Slot(t, first, |children|))];
    FillAllFits(placed, children, first, n);
  }

  lemma {:induction false} FillAllFits(nodes: Slots, ts: seq<AbiType>, at: nat, n: nat)
    requires at + |ts| <= |nodes| && AllValid(ts) && AllLengthsFit(ts) && SlotsFit(nodes, n)
    requires |nodes| + NodeCountAll(ts) - |ts| <= n
    ensures SlotsFit(FillAll(nodes, ts, at), n)
    decreases NodeCountAll(ts), 2
  {
    if ts != [] {
      FillFits(nodes, ts[0], at, n);
      FillAllFits(Fill(nodes, ts[0], at), ts[1..], at + 1, n);
    }
  }

  lemma {:induction false} HeldFits(nodes: Slots, t: AbiType, index: nat)
    requires Holds(nodes, t, index)
    requires forall j :: 0 <= j < |nodes| && nodes[j].Some? && nodes[j].value.node.Array? ==>
               IsU16(nodes[j].value.node.length)
    ensures LengthsFit(t)
    decreases NodeCount(t), 1
  {
    ChildrenCount(t);
    AllHeldFit(nodes, t.Children(), nodes[index].value.first);
  }

  lemma {:induction false} AllHeldFit(nodes: Slots, ts: seq<AbiType>, at: nat)
    requires HoldsAll(nodes, ts, at)
    requires forall j :: 0 <= j < |nodes| && nodes[j].Some? && nodes[j].value.node.Array? ==>
               IsU16(nodes[j].value.node.length)
    ensures AllLengthsFit(ts)
    decreases NodeCountAll(ts), 2
  {
    if ts != [] {
      HeldFits(nodes, ts[0], at);
      AllHeldFit(nodes, ts[1..], at + 1);
    }
  }

  predicate AllRowsFit(rows: seq<Row>) {
    forall i :: 0 <= i < |rows| ==> RowFits(rows[i])
  }

  /** The rows of a tree that is small enough can be encoded if and only if its
      array lengths can. */
  lemma RowsFitIff(root: AbiType)
    requires Valid(root) && NodeCount(root) <= MAX_NODES
    ensures AllRowsFit(Rows(root)) <==> LengthsFit(root)
  {
    FlattenHolds(root);
    var nodes, rows := FlatAbi.Flatten(root), Rows(root);
    if LengthsFit(root) {
      FillFits([None], root, 0, NodeCount(root));
      forall i | 0 <= i < |rows| ensures RowFits(rows[i]) {
        assert SlotFits(nodes[i].value, NodeCount(root));
      }
    }
    if AllRowsFit(rows) {
      forall j | 0 <= j < |nodes| && nodes[j].Some? && nodes[j].value.node.Array?
        ensures IsU16(nodes[j].value.node.length)
      {
        assert RowFits(rows[j]);
      }
      HeldFits(nodes, root, 0);
    }
  }

  // ---------------------------------------------------- what always fits

  lemma AllArgumentsFit(args: seq<Argument>)
    requires forall a :: a in args ==> ArgumentFits(a)
    ensures ArgumentsFit(args)
  {
    if args != [] {
      assert args[0] in args && forall a :: a in args[1..] ==> a in args;
      AllArgumentsFit(args[1..]);
    }
  }

  /** The tables are small enough for their indexes. */
  predicate Narrow(t: Tables) {
    WithinLimits(t) && IsU16(|t.strings|) && IsU16(|t.literals|)
  }

  lemma FormatterAlwaysFits(root: AbiType, ranges: seq<Range>, fields: seq<Field>, intent: string, tokens: seq<Token>,
      t: Tables, e: Evidence, j: nat)
    requires IsCompiled(root, ranges, fields, intent, tokens, t, e) && Narrow(t) && j < |t.formatters|
    ensures FormatterFits(t.formatters[j])
  {
    hide TablesSay, DisplaysSay, PlanOf, ArgumentsAscend, Denotes, ArgumentsFit, LiteralBounded;
    var f, plan := t.formatters[j], e.plans[j];
    assert FormatterSays(PoolsOf(t), f, plan);
    var args: seq<Argument> :|
      multiset(args) == multiset(f.arguments) && AllDenote(PoolsOf(t), args, plan.requests) && args != []
      && args[0] == f.arguments[0];
    SameArguments(args, f.arguments);
    SameLength(args, f.arguments);
    PlanPlain(root, fields[j], plan);
    forall a | a in f.arguments ensures ArgumentFits(a) {
      CompiledArgumentBounded(root, ranges, fields, intent, tokens, t, e, j, a);
      LiteralIndexBounded(t, a);
      var i :| 0 <= i < |args| && args[i] == a;
      DenotedRole(PoolsOf(t), args[i], plan.requests[i]);
      assert PlainKind(plan.requests[i]);
    }
    AllArgumentsFit(f.arguments);
  }

  lemma SameLength(args: seq<Argument>, others: seq<Argument>)
    requires multiset(args) == multiset(others)
    ensures |args| == |others|
  {
    assert |multiset(args)| == |args| && |multiset(others)| == |others|;
  }

  lemma DenotedRole(p: Pools, a: Argument, r: Request)
    requires Denotes(p, a, r)
    ensures a.role == r.role
  {
  }

  lemma LiteralIndexBounded(t: Tables, a: Argument)
    requires ArgumentBounded(t, a)
    ensures a.source in {1, 2, 3} && (a.index < |t.paths| || a.index < |t.literals| || a.index < |t.strings|)
  {
  }

  lemma InstructionAlwaysFits(t: Tables, pc: nat)
    requires pc < |t.displays| && OperandsBounded(t, pc) && Narrow(t)
    ensures InstructionFits(t.displays[pc])
  {
  }

  lemma ConditionAlwaysFits(t: Tables, c: Condition)
    requires ConditionIn(PoolsOf(t), c) && Narrow(t)
    ensures ConditionFits(c)
  {
    hide ReadU16;
    if c != Condition(3, ABSENT, ABSENT) {
      var members :| IsSet(PoolsOf(t), c.literals, members);
    }
  }

  // ---------------------------------------------------- what has to fit

  predicate PathsFit(paths: set<Path>) {
    forall p :: p in paths ==> PathFits(p)
  }

  /** The parts of the tables that do not always fit. */
  predicate PartsFit(t: Tables) {
    && AllRowsFit(t.abi) && PathsFit(NamedIn(t.paths)) && LiteralsFit(t.literals)
    && LiteralsFit(t.bindings) && IsU16(|t.bindings|) && IsU16(|t.literals|)
  }

  /** Tables of a compilation within the limits can be encoded if and only if
      those parts can. */
  lemma EncodableIff(root: AbiType, ranges: seq<Range>, fields: seq<Field>, intent: string, tokens: seq<Token>,
      t: Tables, e: Evidence)
    requires IsCompiled(root, ranges, fields, intent, tokens, t, e) && WithinLimits(t)
    requires IsU16(|t.strings|) && StringsAllowed(t.strings) && IsU16(|t.abi|)
    ensures Encodable(t) <==> PartsFit(t)
  {
    hide IsCompiled, RowFits, PathFits, ConditionFits, FormatterFits, InstructionFits;
    if Encodable(t) {
      forall p | p in NamedIn(t.paths) ensures PathFits(p) {
      }
    }
    if PartsFit(t) {
      AlwaysFits(root, ranges, fields, intent, tokens, t, e);
      forall i | 0 <= i < |t.paths| ensures PathFits(t.paths[i]) {
        PathFitsIf(t, i);
      }
    }
  }

  lemma PathFitsIf(t: Tables, i: nat)
    requires i < |t.paths| && PathsFit(NamedIn(t.paths)) && IsU16(|t.literals|)
    requires t.paths[i].LiteralPath? ==> t.paths[i].literal < |t.literals|
    ensures PathFits(t.paths[i])
  {
    if !t.paths[i].LiteralPath? {
      assert t.paths[i] in NamedIn(t.paths);
    }
  }

  lemma AlwaysFits(root: AbiType, ranges: seq<Range>, fields: seq<Field>, intent: string, tokens: seq<Token>, t: Tables,
      e: Evidence)
    requires IsCompiled(root, ranges, fields, intent, tokens, t, e) && Narrow(t)
    ensures forall i :: 0 <= i < |t.conditions| ==> ConditionFits(t.conditions[i])
    ensures forall i :: 0 <= i < |t.formatters| ==> FormatterFits(t.formatters[i])
    ensures forall i :: 0 <= i < |t.displays| ==> InstructionFits(t.displays[i])
    ensures forall i :: 0 <= i < |t.paths| && t.paths[i].LiteralPath? ==> t.paths[i].literal < |t.literals|
  {
    hide IsCompiled, ConditionFits, FormatterFits, InstructionFits, OperandsBounded, ConditionIn;
    CompiledTablesBounded(root, ranges, fields, intent, tokens, t, e);
    ConditionsIn(root, ranges, fields, intent, tokens, t, e);
    forall i | 0 <= i < |t.conditions| ensures ConditionFits(t.conditions[i]) {
      ConditionAlwaysFits(t, t.conditions[i]);
    }
    forall i | 0 <= i < |t.formatters| ensures FormatterFits(t.formatters[i]) {
      FormatterAlwaysFits(root, ranges, fields, intent, tokens, t, e, i);
    }
    forall i | 0 <= i < |t.displays| ensures InstructionFits(t.displays[i]) {
      InstructionBounded(root, ranges, fields, intent, tokens, t, e, i);
      InstructionAlwaysFits(t, i);
    }
  }

  lemma ConditionsIn(root: AbiType, ranges: seq<Range>, fields: seq<Field>, intent: string, tokens: seq<Token>,
      t: Tables, e: Evidence)
    requires IsCompiled(root, ranges, fields, intent, tokens, t, e)
    ensures forall i :: 0 <= i < |t.conditions| ==> ConditionIn(PoolsOf(t), t.conditions[i])
  {
    hide FormattersSay, DisplaysSay, ConditionIn, PathIn, Distinct, StringTable.Ascending;
  }

  // --------------------------------------- what the fields' literals have to

  lemma DenotedFits(p: Pools, a: Argument, r: Request)
    requires Denotes(p, a, r) && LiteralsFit(p.literals)
    ensures RequestFits(r)
  {
    hide ReadU16;
    match r
    case SetRequest(_, members) => SetMembersFit(p, a.index, members);
    case MapRequest(_, entries) =>
      forall k | 0 <= k < |entries| ensures LiteralFits(Keys(entries)[k]) {
        assert IsEntry(p, a.index, |entries|, k, entries[k]);
      }
    case _ =>
  }

  lemma SetMembersFit(p: Pools, i: nat, members: seq<Literal>)
    requires IsSet(p, i, members) && LiteralsFit(p.literals)
    ensures LiteralsFit(members) && IsU16(2 + 2 * |members|)
  {
    hide ReadU16;
    forall k | 0 <= k < |members| ensures LiteralFits(members[k]) {
      assert p.literals[i - |members| + k] == members[k];
    }
  }

  /** If the literal table can be encoded, so could every literal of a field. */
  lemma FieldsHaveFit(root: AbiType, ranges: seq<Range>, fields: seq<Field>, intent: string, tokens: seq<Token>,
      t: Tables, e: Evidence)
    requires IsCompiled(root, ranges, fields, intent, tokens, t, e) && LiteralsFit(t.literals)
    ensures FieldsFit(root, fields, |fields|)
  {
    hide IsCompiled, FieldFits, LiteralsFit;
    forall j | 0 <= j < |fields| ensures FieldFits(root, fields[j]) {
      FieldHasFit(root, ranges, fields, intent, tokens, t, e, j);
    }
  }

  lemma FieldHasFit(root: AbiType, ranges: seq<Range>, fields: seq<Field>, intent: string, tokens: seq<Token>,
      t: Tables, e: Evidence, j: nat)
    requires IsCompiled(root, ranges, fields, intent, tokens, t, e) && LiteralsFit(t.literals) && j < |fields|
    ensures FieldFits(root, fields[j])
  {
    hide IsCompiled, LiteralsFit, PlanFits, VisibilityFits;
    PlanHasFit(root, ranges, fields, intent, tokens, t, e, j);
    RuleHasFit(root, ranges, fields, intent, tokens, t, e, j);
  }

  lemma PlanHasFit(root: AbiType, ranges: seq<Range>, fields: seq<Field>, intent: string, tokens: seq<Token>, t: Tables,
      e: Evidence, j: nat)
    requires IsCompiled(root, ranges, fields, intent, tokens, t, e) && LiteralsFit(t.literals) && j < |fields|
    ensures PlanFits(root, fields[j])
  {
    hide TablesSay, DisplaysSay, PlanOf, ArgumentsAscend, Denotes, LiteralsFit, RequestFits;
    var f, plan := t.formatters[j], e.plans[j];
    assert FormatterSays(PoolsOf(t), f, plan);
    var args: seq<Argument> :|
      multiset(args) == multiset(f.arguments) && AllDenote(PoolsOf(t), args, plan.requests) && args != []
      && args[0] == f.arguments[0];
    forall i | 0 <= i < |plan.requests| ensures RequestFits(plan.requests[i]) {
      DenotedFits(PoolsOf(t), args[i], plan.requests[i]);
    }
  }

  /** The condition a field's instruction or its iterations carry. */
  lemma FieldCondition(b: Built, root: AbiType, f: Field, k: nat, own: seq<nat>, ds: seq<Instruction>, pc: nat)
    returns (c: nat)
    requires FieldEmitted(b, root, f, k, own, ds, pc)
    ensures ConditionOf(b, root, f, k, c)
  {
    hide ConditionOf;
    if own == [] {
      c := ds[pc].c;
    } else {
      assert LoopEmitted(b, root, f, k, own, ds, pc, 0);
      c := ds[pc - |own|].b;
    }
  }

  lemma RuleHasFit(root: AbiType, ranges: seq<Range>, fields: seq<Field>, intent: string, tokens: seq<Token>, t: Tables,
      e: Evidence, j: nat)
    requires IsCompiled(root, ranges, fields, intent, tokens, t, e) && LiteralsFit(t.literals) && j < |fields|
    ensures VisibilityFits(root, fields[j])
  {
    hide TablesSay, FormattersSay, Sound, BeforeField, AllGroupsEmitted, IntentEmitted, Shaped, GroupLoops, Accounted,
      OwnPositions, FieldEmitted, NodeOf, LiteralsFit, IsSet, ConditionLiterals;
    var f := fields[j];
    var own := OwnPositions(root, ranges, f, j);
    assert FieldEmitted(BuiltOf(t), root, f, j, own, t.displays, e.layout.fieldPcs[j]);
    var c := FieldCondition(BuiltOf(t), root, f, j, own, t.displays, e.layout.fieldPcs[j]);
    match f.visible
    case IfNotIn(values) =>
      RuleMembersFit(t, t.conditions[c], 7, values, NodeOf(root, f), t.formatters[j].arguments[0].index);
    case MustMatch(values) =>
      RuleMembersFit(t, t.conditions[c], 8, values, NodeOf(root, f), t.formatters[j].arguments[0].index);
    case _ =>
  }

  lemma RuleMembersFit(t: Tables, c: Condition, opcode: nat, values: seq<Scalar>, node: AbiType, value: nat)
    requires RuleFor(PoolsOf(t), c, opcode, values, node, value) && LiteralsFit(t.literals)
    ensures LiteralsFit(ConditionLiterals(node, values).value) && IsU16(2 + 2 * |values|)
  {
    hide LiteralsFit, IsSet, ConditionLiterals;
    SetMembersFit(PoolsOf(t), c.literals, ConditionLiterals(node, values).value);
    ConditionLiteralsCount(node, values);
  }
}
