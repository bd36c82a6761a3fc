/** Every table index in a compiled program exists (`compile`,
    keepkeylib/erc7730_compiler.py): the operands of all instructions, the
    conditions with their rules, the arguments with their sets and maps. */
module CompiledOperands {
  import opened Wrappers
  import opened Bytes
  import opened AbiTypes
  import opened AbiPaths
  import opened Program
  import opened DisplayWord
  import opened DisplayFields
  import opened Formatters
  import opened ProgramPools
  import opened ProgramBuilder
  import opened GroupScope
  import opened CompiledDisplay
  import opened DisplayShape
  import DisplayEmitter
  import StringTable
  import opened Compiler
  import opened CompiledProgram
  import opened CompiledScope
  import opened CompiledRoles

  /** No index, or one below the table's size. */
  predicate Slot(i: nat, size: nat) {
    i == ABSENT || i < size
  }

  /** Opener `p` and closer `q` name each other. */
  predicate Mutual(ds: seq<Instruction>, p: nat, q: nat) {
    p < q < |ds| && Opens(ds[p].opcode) && ds[q].opcode == ds[p].opcode + 1 && ds[p].c == q && ds[q].a == p
  }

  /** Instruction `pc` has a known opcode; each operand is absent, the index of
      an existing entry, or the place of the other bracket. */
  predicate OperandsBounded(t: Tables, pc: nat)
    requires pc < |t.displays|
  {
    var Instruction(opcode, a, b, c) := t.displays[pc];
    if opcode in {1, 2} then a < |t.strings| && b == ABSENT && c == ABSENT
    else if opcode == 3 then a < |t.formatters| && b == ABSENT && c == ABSENT
    else if opcode == 4 then a < |t.strings| && b < |t.formatters| && Slot(c, |t.conditions|)
    else if opcode == 5 then Slot(a, |t.strings|) && b == ABSENT && Mutual(t.displays, pc, c)
    else if opcode == 6 then Mutual(t.displays, a, pc) && b == ABSENT && c == ABSENT
    else if opcode == 7 then a < |t.paths| && Slot(b, |t.conditions|) && Mutual(t.displays, pc, c)
    else if opcode == 8 then Mutual(t.displays, a, pc) && Slot(b, |t.strings|) && c == ABSENT
    else opcode == 10 && pc == |t.displays| - 1 && a == ABSENT && b == ABSENT && c == ABSENT
  }

  // -------------------------------------------------------------- instructions

  lemma ConditionSlot(b: Built, root: AbiType, f: Field, k: nat, c: nat)
    requires ConditionOf(b, root, f, k, c)
    ensures Slot(c, |b.conditions|)
  {
    hide NodeOf, RuleFor;
  }

  lemma FieldBounded(root: AbiType, ranges: seq<Range>, fields: seq<Field>, intent: string, tokens: seq<Token>,
      t: Tables, e: Evidence, j: nat)
    requires IsCompiled(root, ranges, fields, intent, tokens, t, e) && j < |fields|
    ensures j < |e.layout.fieldPcs| && e.layout.fieldPcs[j] < |t.displays| && OperandsBounded(t, e.layout.fieldPcs[j])
  {
    hide TablesSay, FormatterSays, PlanOf, Sound, BeforeField, AllGroupsEmitted, IntentEmitted, Shaped, GroupLoops,
      Accounted, OwnPositions, LoopEmitted, ConditionOf;
    var pc := e.layout.fieldPcs[j];
    assert FieldEmitted(BuiltOf(t), root, fields[j], j, OwnPositions(root, ranges, fields[j], j), t.displays, pc);
    if OwnPositions(root, ranges, fields[j], j) == [] {
      ConditionSlot(BuiltOf(t), root, fields[j], j, t.displays[pc].c);
    }
  }

  /** The opener and the closer of an iteration of field `j`'s own. */
  lemma FieldLoopBounded(root: AbiType, ranges: seq<Range>, fields: seq<Field>, intent: string, tokens: seq<Token>,
      t: Tables, e: Evidence, j: nat, pc: nat)
    requires IsCompiled(root, ranges, fields, intent, tokens, t, e) && |e.layout.fieldPcs| <= |fields|
    requires IsLoopOf(root, ranges, fields, e.layout.fieldPcs, j, pc)
    ensures pc < |t.displays| && t.displays[pc].opcode == 7 && OperandsBounded(t, pc)
    ensures t.displays[pc].c < |t.displays| && OperandsBounded(t, t.displays[pc].c)
  {
    hide TablesSay, FormatterSays, PlanOf, Sound, BeforeField, AllGroupsEmitted, IntentEmitted, Shaped, GroupLoops,
      Accounted, OwnPositions, ConditionOf, StepsOf;
    var at, own := e.layout.fieldPcs[j], OwnPositions(root, ranges, fields[j], j);
    assert FieldEmitted(BuiltOf(t), root, fields[j], j, own, t.displays, at);
    assert LoopEmitted(BuiltOf(t), root, fields[j], j, own, t.displays, at, pc - (at - |own|));
    ConditionSlot(BuiltOf(t), root, fields[j], j, t.displays[pc].b);
  }

  /** The opener and the closer of group `g`, and of the iteration around it. */
  lemma GroupBounded(root: AbiType, ranges: seq<Range>, fields: seq<Field>, intent: string, tokens: seq<Token>,
      t: Tables, e: Evidence, g: nat)
    requires IsCompiled(root, ranges, fields, intent, tokens, t, e) && g in e.layout.begins
    ensures var begin := e.layout.begins[g];
            && begin < |t.displays| && t.displays[begin].opcode == 5 && OperandsBounded(t, begin)
            && t.displays[begin].c < |t.displays| && OperandsBounded(t, t.displays[begin].c)
            && (g < |ranges| && IteratesGroup(ranges[g].path) ==>
                  && begin > 0 && OperandsBounded(t, begin - 1)
                  && t.displays[begin - 1].c < |t.displays| && OperandsBounded(t, t.displays[begin - 1].c))
  {
    hide TablesSay, FormattersSay, Sound, BeforeField, AllFieldsEmitted, IntentEmitted, Shaped, Accounted,
      IteratesGroup, ResolvePath;
    assert GroupEmitted(BuiltOf(t), root, ranges[g], t.displays, e.layout.begins[g]);
    assert GroupClosed(t.displays, e.layout.begins[g], IteratesGroup(ranges[g].path));
  }

  lemma IntentBounded(root: AbiType, ranges: seq<Range>, fields: seq<Field>, intent: string, tokens: seq<Token>,
      t: Tables, e: Evidence, pc: nat)
    requires IsCompiled(root, ranges, fields, intent, tokens, t, e) && pc <= |tokens|
    ensures pc < |t.displays| && OperandsBounded(t, pc)
  {
    hide TablesSay, FormatterSays, PlanOf, Sound, BeforeField, AllFieldsEmitted, AllGroupsEmitted, Shaped, GroupLoops,
      Accounted, FieldAt;
    if pc > 0 {
      assert TokenEmitted(PoolsOf(t), fields, tokens[pc - 1], t.displays[pc - 1 + 1]);
    }
  }

  lemma Whose(root: AbiType, ranges: seq<Range>, fields: seq<Field>, intent: string, tokens: seq<Token>, t: Tables,
      e: Evidence, pc: nat)
    requires IsCompiled(root, ranges, fields, intent, tokens, t, e) && pc < |t.displays|
    ensures |e.layout.fieldPcs| == |fields|
    ensures if pc == |t.displays| - 1 then t.displays[pc] == Instruction(10, ABSENT, ABSENT, ABSENT)
            else AccountedAt(root, ranges, fields, |tokens|, t.displays, e.layout.begins, e.layout.fieldPcs, pc)
  {
    hide TablesSay, FormattersSay, Sound, BeforeField, AllFieldsEmitted, AllGroupsEmitted, IntentEmitted, GroupLoops,
      Skeleton, Shape, IteratesGroup, OwnPositions, IsGroupLoop;
    var before := t.displays[..|t.displays| - 1];
    if pc < |before| {
      assert AccountedAt(root, ranges, fields, |tokens|, before, e.layout.begins, e.layout.fieldPcs, pc);
      assert before[pc] == t.displays[pc];
    }
  }

  lemma OpenerBounded(root: AbiType, ranges: seq<Range>, fields: seq<Field>, intent: string, tokens: seq<Token>,
      t: Tables, e: Evidence, pc: nat)
    requires IsCompiled(root, ranges, fields, intent, tokens, t, e) && pc < |t.displays| && Opens(t.displays[pc].opcode)
    ensures OperandsBounded(t, pc) && t.displays[pc].c < |t.displays| && OperandsBounded(t, t.displays[pc].c)
  {
    hide IsCompiled, OperandsBounded, IteratesGroup;
    Whose(root, ranges, fields, intent, tokens, t, e, pc);
    if t.displays[pc].opcode == 5 {
      var g :| g in e.layout.begins && e.layout.begins[g] == pc;
      GroupBounded(root, ranges, fields, intent, tokens, t, e, g);
    } else if IsGroupLoop(ranges, e.layout.begins, pc) {
      var g :| g in e.layout.begins && g < |ranges| && IteratesGroup(ranges[g].path) && e.layout.begins[g] == pc + 1;
      GroupBounded(root, ranges, fields, intent, tokens, t, e, g);
    } else {
      var j :| IsLoopOf(root, ranges, fields, e.layout.fieldPcs, j, pc);
      FieldLoopBounded(root, ranges, fields, intent, tokens, t, e, j, pc);
    }
  }

  /** In every compilation all operands of all instructions are in bounds. */
  lemma InstructionBounded(root: AbiType, ranges: seq<Range>, fields: seq<Field>, intent: string, tokens: seq<Token>,
      t: Tables, e: Evidence, pc: nat)
    requires IsCompiled(root, ranges, fields, intent, tokens, t, e) && pc < |t.displays|
    ensures OperandsBounded(t, pc)
  {
    hide IsCompiled, WellNested, NonCrossing, IsGroupLoop, IsLoopOf;
    Whose(root, ranges, fields, intent, tokens, t, e, pc);
    var opcode := t.displays[pc].opcode;
    if pc < |t.displays| - 1 {
      if opcode in {1, 2, 3} {
        IntentBounded(root, ranges, fields, intent, tokens, t, e, pc);
      } else if opcode == 4 {
        CompiledFields(root, ranges, fields, intent, tokens, t, e, pc);
        var j :| 0 <= j < |e.layout.fieldPcs| && e.layout.fieldPcs[j] == pc;
        FieldBounded(root, ranges, fields, intent, tokens, t, e, j);
      } else if Opens(opcode) {
        OpenerBounded(root, ranges, fields, intent, tokens, t, e, pc);
      } else {
        CompiledNested(root, ranges, fields, intent, tokens, t, e);
        OpenerBounded(root, ranges, fields, intent, tokens, t, e, t.displays[pc].a);
      }
    }
  }

  // ------------------------------------------------- arguments and conditions

  /** Every reference of set `l` is to an existing literal. */
  predicate SetBounded(t: Tables, l: Literal) {
    && ReadU16(l.value, 0).Ok?
    && |l.value| == 2 + 2 * ReadU16(l.value, 0).value
    && forall k :: 0 <= k < ReadU16(l.value, 0).value ==>
         ReadU16(l.value, 2 + 2 * k).Ok? && ReadU16(l.value, 2 + 2 * k).value < |t.literals|
  }

  /** Every key of map `l` is an existing literal, every label an existing
      string. */
  predicate MapBounded(t: Tables, l: Literal) {
    && ReadU16(l.value, 0).Ok?
    && |l.value| == 2 + 4 * ReadU16(l.value, 0).value
    && forall k :: 0 <= k < ReadU16(l.value, 0).value ==> EntryBounded(t, l, k)
  }

  predicate EntryBounded(t: Tables, l: Literal, k: nat) {
    && ReadU16(l.value, 2 + 4 * k).Ok? && ReadU16(l.value, 2 + 4 * k).value < |t.literals|
    && ReadU16(l.value, 4 + 4 * k).Ok? && ReadU16(l.value, 4 + 4 * k).value < |t.strings|
  }

  /** Literal `i` exists, and so does whatever it refers to. */
  predicate LiteralBounded(t: Tables, i: nat) {
    && i < |t.literals|
    && var l := t.literals[i];
       && (l.kind == 4 ==> ReadU16(l.value, 0).Ok? && ReadU16(l.value, 0).value < |t.strings|)
       && (l.kind == 8 ==> MapBounded(t, l))
       && (l.kind == 9 ==> SetBounded(t, l))
  }

  /** What the argument names exists, down to the literal behind a path. */
  predicate ArgumentBounded(t: Tables, a: Argument) {
    if a.source == 1 then
      a.index < |t.paths| && (t.paths[a.index].LiteralPath? ==> LiteralBounded(t, t.paths[a.index].literal))
    else if a.source == 2 then LiteralBounded(t, a.index)
    else a.source == 3 && a.index < |t.strings|
  }

  predicate ConditionBounded(t: Tables, c: Condition) {
    || c == Condition(3, ABSENT, ABSENT)
    || (c.path < |t.paths| && c.literals < |t.literals| && t.literals[c.literals].kind == 9
        && SetBounded(t, t.literals[c.literals]))
  }

  /** The role is one that formatters know, and the literal of a constant is
      neither a text's, nor a map, nor a set. */
  predicate PlainKind(r: Request) {
    && r.role <= 22
    && match r
       case ConstantRequest(_, l) => l.kind !in {4, 8, 9}
       case LiteralRequest(_, l) => l.kind !in {4, 8, 9}
       case _ => true
  }

  predicate AllPlain(rs: seq<Request>) {
    forall i :: 0 <= i < |rs| ==> PlainKind(rs[i])
  }

  lemma DenotedBounded(t: Tables, a: Argument, r: Request)
    requires Denotes(PoolsOf(t), a, r) && PlainKind(r) && (r.PathRequest? ==> !r.path.LiteralPath?)
    ensures ArgumentBounded(t, a)
  {
    hide ReadU16;
    match r
    case MapRequest(_, entries) =>
      var l := t.literals[a.index];
      forall k | 0 <= k < |entries| ensures EntryBounded(t, l, k) {
        assert IsEntry(PoolsOf(t), a.index, |entries|, k, entries[k]);
      }
    case _ =>
  }

  lemma MaybePlain(root: AbiType, given: bool, r: Result<Request>)
    requires r.Ok? ==> PlainKind(r.value)
    ensures Maybe(root, given, r).Ok? ==> AllPlain(Maybe(root, given, r).value) && |Maybe(root, given, r).value| <= 1
  {
  }

  lemma ChainPlain(root: AbiType, chain: Scalar)
    ensures ChainRequest(root, chain).Ok? ==> PlainKind(ChainRequest(root, chain).value)
  {
    hide ResolvePath, Integers.UnsignedLiteral;
  }

  lemma AddressPlain(root: AbiType, role: nat, value: Scalar)
    requires role <= 22
    ensures AddressRequest(root, role, value).Ok? ==> PlainKind(AddressRequest(root, role, value).value)
  {
    hide ResolvePath, HexAddress;
  }

  lemma TokenPlain(root: AbiType, p: Params)
    requires TokenRequests(root, p).Ok?
    ensures AllPlain(TokenRequests(root, p).value.1) && |TokenRequests(root, p).value.1| <= 5
    ensures TokenRequests(root, p).value.0 <= 14
  {
    hide ThresholdOf, ResolvePath, Maybe, UnsignedRequest, ChainRequest, AddressLiterals, AddressRequest;
    var token := FirstOf(p.tokenPath, p.token);
    if token.Some? {
      AddressPlain(root, 2, token.value);
      var bound := if p.threshold.Some? then ThresholdOf(p.threshold.value).value else 0;
      UnsignedPlain(7, 1, bound);
      MaybePlain(root, p.threshold.Some?, UnsignedRequest(7, 1, bound));
      if p.chainId.Some? {
        ChainPlain(root, p.chainId.value);
      }
      MaybePlain(root, p.chainId.Some?, if p.chainId.Some? then ChainRequest(root, p.chainId.value) else Raised);
    }
  }

  lemma UnsignedPlain(role: nat, kind: nat, n: int)
    requires kind in {1, 7} && role <= 22
    ensures UnsignedRequest(role, kind, n).Ok? ==> PlainKind(UnsignedRequest(role, kind, n).value)
  {
    hide Integers.UnsignedLiteral;
  }

  lemma NftPlain(root: AbiType, p: Params)
    requires NftRequests(root, p).Ok?
    ensures AllPlain(NftRequests(root, p).value) && |NftRequests(root, p).value| <= 2
  {
    hide AddressRequest, ChainRequest, Maybe;
    var collection, chain := FirstOf(p.collectionPath, p.collection).value, FirstOf(p.chainIdPath, p.chainId);
    AddressPlain(root, 3, collection);
    if chain.Some? {
      ChainPlain(root, chain.value);
    }
    MaybePlain(root, chain.Some?, if chain.Some? then ChainRequest(root, chain.value) else Raised);
  }

  lemma UnitPlain(root: AbiType, p: Params)
    requires UnitRequests(root, p).Ok?
    ensures AllPlain(UnitRequests(root, p).value) && |UnitRequests(root, p).value| <= 3
  {
    hide UnsignedRequest;
    UnsignedPlain(4, 1, p.decimals);
  }

  lemma CallPlain(root: AbiType, p: Params)
    requires CallRequests(root, p).Ok?
    ensures AllPlain(CallRequests(root, p).value) && |CallRequests(root, p).value| <= 3
  {
    hide ResolvePath;
  }

  lemma PlanPlain(root: AbiType, f: Field, plan: Plan)
    requires PlanOf(root, f) == Ok(plan)
    ensures AllPlain(plan.requests) && |plan.requests| <= 6 && plan.kind <= 14
  {
    hide ResolvePath, TokenRequests, NftRequests, UnitRequests, CallRequests, EnumLiterals, PathNode, Hex.HexBytes,
      Integers.UnsignedLiteral;
    var kind := FormatKind(f.format).value;
    if kind == 3 {
      TokenPlain(root, f.params);
    } else if kind == 4 {
      NftPlain(root, f.params);
    } else if kind == 7 {
      UnitPlain(root, f.params);
    } else if kind == 13 {
      CallPlain(root, f.params);
    }
  }

  lemma PlanPaths(root: AbiType, f: Field, plan: Plan, i: nat)
    requires PlanOf(root, f) == Ok(plan) && i < |plan.requests| && plan.requests[i].PathRequest?
    ensures !plan.requests[i].path.LiteralPath?
  {
    hide Requests, ValueRequest, PathOf;
    DisplayEmitter.ValueRequestOn(root, f);
    if i > 0 {
      var rs := Requests(root, PathOf(root, f), f).value.1;
      assert Later(root, rs[i - 1]);
    }
  }

  /** In every compilation all arguments are in bounds. */
  lemma CompiledArgumentBounded(root: AbiType, ranges: seq<Range>, fields: seq<Field>, intent: string,
      tokens: seq<Token>, t: Tables, e: Evidence, j: nat, a: Argument)
    requires IsCompiled(root, ranges, fields, intent, tokens, t, e) && j < |t.formatters|
             && a in t.formatters[j].arguments
    ensures ArgumentBounded(t, a)
  {
    hide TablesSay, DisplaysSay, PlanOf, ArgumentsAscend, Denotes, ArgumentBounded, PlainKind;
    var f, plan := t.formatters[j], e.plans[j];
    assert FormatterSays(PoolsOf(t), f, plan);
    var args: seq<Argument> :|
      multiset(args) == multiset(f.arguments) && AllDenote(PoolsOf(t), args, plan.requests) && args != []
      && args[0] == f.arguments[0];
    SameArguments(args, f.arguments);
    var i :| 0 <= i < |args| && args[i] == a;
    PlanPlain(root, fields[j], plan);
    if plan.requests[i].PathRequest? {
      PlanPaths(root, fields[j], plan, i);
    }
    DenotedBounded(t, args[i], plan.requests[i]);
  }

  /** In every compilation all conditions are in bounds, and so are the literals
      that paths name. */
  lemma CompiledTablesBounded(root: AbiType, ranges: seq<Range>, fields: seq<Field>, intent: string, tokens: seq<Token>,
      t: Tables, e: Evidence)
    requires IsCompiled(root, ranges, fields, intent, tokens, t, e)
    ensures forall i :: 0 <= i < |t.conditions| ==> ConditionBounded(t, t.conditions[i])
    ensures forall i :: 0 <= i < |t.paths| && t.paths[i].LiteralPath? ==> t.paths[i].literal < |t.literals|
  {
    hide FormattersSay, DisplaysSay, PathOn, ReadU16, Distinct, StringTable.Ascending;
    forall i | 0 <= i < |t.conditions| ensures ConditionBounded(t, t.conditions[i]) {
      assert ConditionIn(PoolsOf(t), t.conditions[i]);
      RuleBounded(t, t.conditions[i]);
    }
    forall i | 0 <= i < |t.paths| && t.paths[i].LiteralPath? ensures t.paths[i].literal < |t.literals| {
      assert PathIn(root, PoolsOf(t), t.paths[i]);
      NotOnTree(root, t.paths[i]);
    }
  }

  lemma NotOnTree(root: AbiType, path: Path)
    ensures PathOn(root, path) ==> !path.LiteralPath?
  {
  }

  lemma RuleBounded(t: Tables, c: Condition)
    requires ConditionIn(PoolsOf(t), c)
    ensures ConditionBounded(t, c)
  {
    hide ReadU16;
    if c != Condition(3, ABSENT, ABSENT) {
      var members :| IsSet(PoolsOf(t), c.literals, members);
    }
  }
}
