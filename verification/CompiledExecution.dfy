/** What a compiled program does on a device that accepts it
    (`compile_calldata`, keepkeylib/erc7730_compiler.py): compilation supplies
    what the device's checks alone leave open. */
module CompiledExecution {
  import opened Wrappers
  import opened AbiTypes
  import opened FlatAbi
  import opened AbiPaths
  import opened Program
  import opened ProgramBuilder
  import opened DisplayWord
  import opened DisplayFields
  import opened CompiledDisplay
  import opened CompiledProgram
  import opened CompiledTables
  import opened Compilation
  import opened CompiledScope
  import opened CompiledOperands
  import opened CompiledRoles
  import opened CompiledAcceptance
  import opened CompiledReading
  import opened Capabilities
  import opened Compiler
  import opened DeviceRules
  import opened DeviceSoundness
  import opened ProgramCodec
  import AbiValues
  import Bytes
  import DeviceRefusal
  import SignatureParser

  ghost predicate Accepts(signature: string, items: seq<Item>, intent: string, tokens: seq<Token>, t: Tables,
      e: Evidence, calldata: bool)
  {
    CompiledFrom(signature, items, intent, tokens, t, e) && Check(t, calldata) == Accepted
  }

  /** An accepted compilation, wherever its parts are. */
  ghost predicate IsExecutable(signature: string, items: seq<Item>, intent: string, tokens: seq<Token>, t: Tables,
      calldata: bool)
  {
    exists e :: Accepts(signature, items, intent, tokens, t, e, calldata)
  }

  lemma CompiledBrackets(signature: string, items: seq<Item>, intent: string, tokens: seq<Token>, t: Tables,
      e: Evidence)
    requires CompiledFrom(signature, items, intent, tokens, t, e)
    ensures Paired(t.displays, 7, 8)
  {
    hide IsCompiled;
    var (fields, ranges) := DisplayFields.Flatten(items, None, 0).value;
    CompiledNested(SignatureParser.ParseFunction(signature).value.1, ranges, Shown(fields, InterpolatedPaths(tokens)),
                   intent, tokens, t, e);
  }

  lemma TablesCompiled(signature: string, items: seq<Item>, intent: string, tokens: seq<Token>, t: Tables, e: Evidence)
    requires CompiledFrom(signature, items, intent, tokens, t, e)
    ensures SignatureParser.ParseFunction(signature).Ok?
    ensures var root := SignatureParser.ParseFunction(signature).value.1;
            && Valid(root) && t.abi == Rows(root)
            && (forall i :: 0 <= i < |t.paths| ==> PathIn(root, PoolsOf(t), t.paths[i]))
    ensures forall i :: 0 <= i < |t.formatters| ==> ValueFirst(t.formatters[i].arguments)
  {
    hide AllFieldsEmitted, AllGroupsEmitted, DisplaysSay, PathIn;
    SignatureParser.ParsedFunctionValid(signature);
    forall i | 0 <= i < |t.formatters| ensures ValueFirst(t.formatters[i].arguments) {
      assert FormatterSays(PoolsOf(t), t.formatters[i], e.plans[i]);
    }
  }

  /** In every accepted compilation no two iterations are open at once. */
  lemma OneIterationOpen(signature: string, items: seq<Item>, intent: string, tokens: seq<Token>, t: Tables,
      e: Evidence, calldata: bool, pc: nat, p: nat, q: nat)
    requires Accepts(signature, items, intent, tokens, t, e, calldata) && pc <= |t.displays|
    requires OpenAt(t.displays, p, pc) && OpenAt(t.displays, q, pc)
    ensures p == q
  {
    hide Check, CompiledFrom, Paired;
    CompiledBrackets(signature, items, intent, tokens, t, e);
    AtMostOneIteration(t, calldata, pc, p, q);
  }

  /** In every accepted compilation a shown value reads, through each of its
      paths, the array of the iteration around it, and none outside one. */
  lemma ShownValueReadsItsIteration(signature: string, items: seq<Item>, intent: string, tokens: seq<Token>, t: Tables,
      e: Evidence, calldata: bool, pc: nat, k: nat)
    requires Accepts(signature, items, intent, tokens, t, e, calldata)
    requires pc < |t.displays| && ShowsValue(t.displays[pc])
    ensures FormatterOf(t.displays[pc]) < |t.formatters|
    ensures var args := t.formatters[FormatterOf(t.displays[pc])].arguments;
            k < |args| && args[k].source == 1 ==>
              ArrayRead(FactsOf(t, calldata), args[k]) == OpenArray(FactsOf(t, calldata), t.displays, pc)
  {
    hide Check, CompiledFrom, Paired, ValueFirst, PathIn;
    CompiledBrackets(signature, items, intent, tokens, t, e);
    TablesCompiled(signature, items, intent, tokens, t, e);
    AcceptedInstructionInBounds(t, calldata, pc);
    var args := t.formatters[FormatterOf(t.displays[pc])].arguments;
    if k < |args| && args[k].source == 1 {
      ValueReadsItsIteration(t, calldata, pc, k);
    }
  }

  /** In every accepted compilation each operand of each instruction is absent
      or in bounds, brackets naming each other; so are the conditions with their
      rules and sets, the literals that paths name, and every argument down to
      the members of its set and the keys and labels of its map. */
  lemma EveryIndexInBounds(signature: string, items: seq<Item>, intent: string, tokens: seq<Token>, t: Tables,
      e: Evidence, calldata: bool)
    requires Accepts(signature, items, intent, tokens, t, e, calldata)
    ensures forall pc: nat :: pc < |t.displays| ==> OperandsBounded(t, pc)
    ensures forall i :: 0 <= i < |t.conditions| ==> ConditionBounded(t, t.conditions[i])
    ensures forall i :: 0 <= i < |t.paths| && t.paths[i].LiteralPath? ==> t.paths[i].literal < |t.literals|
    ensures forall j, a :: 0 <= j < |t.formatters| && a in t.formatters[j].arguments ==> ArgumentBounded(t, a)
  {
    hide Check, IsCompiled, OperandsBounded, ConditionBounded, ArgumentBounded, DisplayFields.Flatten;
    var root := SignatureParser.ParseFunction(signature).value.1;
    var (all, ranges) := DisplayFields.Flatten(items, None, 0).value;
    var fields := Shown(all, InterpolatedPaths(tokens));
    forall pc: nat | pc < |t.displays| ensures OperandsBounded(t, pc) {
      InstructionBounded(root, ranges, fields, intent, tokens, t, e, pc);
    }
    CompiledTablesBounded(root, ranges, fields, intent, tokens, t, e);
    forall j, a | 0 <= j < |t.formatters| && a in t.formatters[j].arguments ensures ArgumentBounded(t, a) {
      CompiledArgumentBounded(root, ranges, fields, intent, tokens, t, e, j, a);
    }
  }

  /** No field of an accepted compilation names a chain. */
  lemma AcceptedNamesNoChain(signature: string, items: seq<Item>, intent: string, tokens: seq<Token>, t: Tables,
      e: Evidence, calldata: bool, j: nat)
    requires Accepts(signature, items, intent, tokens, t, e, calldata)
    requires var (all, _) := DisplayFields.Flatten(items, None, 0).value; j < |Shown(all, InterpolatedPaths(tokens))|
    ensures var (all, _) := DisplayFields.Flatten(items, None, 0).value;
            !AsksChain(Shown(all, InterpolatedPaths(tokens))[j])
  {
    hide Check, TablesSay, DisplaysSay, PlanOf, FormatterSays, AsksChain, DisplayFields.Flatten, Shown;
    var root := SignatureParser.ParseFunction(signature).value.1;
    var field := Shown(DisplayFields.Flatten(items, None, 0).value.0, InterpolatedPaths(tokens))[j];
    var facts := FactsOf(t, calldata);
    AcceptedParts(t, calldata);
    FormatterAccepted(facts, t.formatters, j);
    assert PlanOf(root, field) == Ok(e.plans[j]) && FormatterSays(PoolsOf(t), t.formatters[j], e.plans[j]);
    if AsksChain(field) {
      ChainRefused(root, PoolsOf(t), field, e.plans[j], t.formatters[j], facts);
    }
  }

  /** In every accepted compilation, each argument that is a path into the
      transaction fits the type tree; and if its array steps iterate or pick
      from fixed arrays, it reaches on every value of the signature's type a
      leaf, of a kind that the field's format takes for the parameter: an
      address for an `addressName`, an unsigned integer for an `amount`. */
  lemma ArgumentReachesLeaf(signature: string, items: seq<Item>, intent: string, tokens: seq<Token>, t: Tables,
      e: Evidence, calldata: bool, i: nat, k: nat, v: AbiValues.Value, element: nat)
    requires Accepts(signature, items, intent, tokens, t, e, calldata)
    requires i < |t.formatters| && k < |t.formatters[i].arguments|
    ensures SignatureParser.ParseFunction(signature).Ok? && i < |ShownFields(items, tokens)|
    ensures var a := t.formatters[i].arguments[k];
            ArgumentInBounds(t, a)
            && (a.source == 1 && t.paths[a.index].AbiPath? ==>
                  Fits(SignatureParser.ParseFunction(signature).value.1, t.paths[a.index].steps))
    ensures var a, root := t.formatters[i].arguments[k], SignatureParser.ParseFunction(signature).value.1;
            && a.source == 1 && t.paths[a.index].AbiPath? && AbiValues.IndexesFixed(root, t.paths[a.index].steps)
            && AbiValues.Conforms(root, v) && AbiValues.HasElement(v, t.paths[a.index].steps, element) ==>
              var read := AbiValues.Read(v, t.paths[a.index].steps, element);
              read.Ok? && read.value.LeafValue? && FieldTakes(ShownFields(items, tokens)[i], a.role, read.value.kind)
  {
    hide Check, CompiledFrom, PathIn, ValueFirst, Fits, PathVerdict, AbiValues.IndexesFixed, AbiValues.Conforms,
      AbiValues.HasElement, AbiValues.Read, Taken, FieldTakes, ShownFields, ReadsBack;
    TablesCompiled(signature, items, intent, tokens, t, e);
    ShownRead(signature, items, intent, tokens, t, e, i);
    var root := SignatureParser.ParseFunction(signature).value.1;
    var a := t.formatters[i].arguments[k];
    AcceptedFormatterInBounds(t, calldata, i, k);
    if a.source == 1 && t.paths[a.index].AbiPath? {
      PathArgumentFits(root, t, calldata, a);
      var steps := t.paths[a.index].steps;
      if AbiValues.IndexesFixed(root, steps) && AbiValues.Conforms(root, v) && AbiValues.HasElement(v, steps, element) {
        ArgumentReachesPermittedLeaf(t, root, calldata, i, k, v, element);
        TakenByField(root, PoolsOf(t), ShownFields(items, tokens)[i], t.formatters[i], a.role,
                     AbiValues.Read(v, steps, element).value.kind);
      }
    }
  }

  lemma PathArgumentFits(root: AbiType, t: Tables, calldata: bool, a: Argument)
    requires Check(t, calldata) == Accepted && a.source == 1 && a.index < |t.paths| && t.paths[a.index].AbiPath?
    requires PathIn(root, PoolsOf(t), t.paths[a.index])
    ensures Fits(root, t.paths[a.index].steps)
  {
    hide Check, PathIn, PathVerdict, Fits;
    AcceptedParts(t, calldata);
    PathAccepted(t.abi, calldata, t.paths, a.index);
    AcceptedPathFits(root, t.abi, PoolsOf(t), calldata, t.paths[a.index]);
  }

  lemma ShownRead(signature: string, items: seq<Item>, intent: string, tokens: seq<Token>, t: Tables, e: Evidence,
      i: nat)
    requires CompiledFrom(signature, items, intent, tokens, t, e) && i < |t.formatters|
    ensures SignatureParser.ParseFunction(signature).Ok? && i < |ShownFields(items, tokens)|
    ensures ReadsBack(SignatureParser.ParseFunction(signature).value.1, PoolsOf(t), ShownFields(items, tokens)[i],
                      t.formatters[i])
  {
    hide CompiledFrom, ReadsBack, ShownFields;
    DescriptorReadBack(signature, items, intent, tokens, t, e);
  }

  /** The bytes decode to an accepted compilation that keeps the domain's literals
      and the bindings, and reads back to the descriptor. */
  ghost predicate IsProgram(signature: string, items: seq<Item>, intent: string, tokens: seq<Token>,
      domain: seq<Literal>, bindings: seq<Literal>, program: Bytes.bytes, calldata: bool)
  {
    && Decode(program).Ok?
    && var t := Decode(program).value;
       && t.bindings == bindings && domain <= t.literals
       && IsExecutable(signature, items, intent, tokens, t, calldata)
       && ReadsDescriptor(signature, items, tokens, t) && FieldsExecutable(signature, items, tokens, calldata)
  }

  /** What becomes of compiled tables: their bytes, if the sections have room for
      them and the device's checks accept them. */
  ghost predicate Judged(compiled: Result<Tables>, header: Bytes.bytes, r: Result<Bytes.bytes>)
    requires |header| == HEADER_SIZE - 1
  {
    match compiled
    case Raised => r.Raised?
    case Ok(t) =>
      && Encodable(t)
      && r == if SectionsFit(SectionsOf(t)) && Check(t, header[7] == 1) == Accepted then Ok(Serialize(header, t))
              else Raised
  }

  /** `compile_calldata` and the end of `compile_eip712`: a program is returned
      if and only if the descriptor can be compiled, the sections have room for
      its tables and the device's checks accept them, and then it is those tables,
      serialised. `header` is the program's first 178 bytes. */
  method CompileExecutable(signature: string, items: seq<Item>, intent: string, tokens: seq<Token>,
      domain: seq<Literal>, bindings: seq<Literal>, extra: seq<string>, header: Bytes.bytes)
    returns (r: Result<Bytes.bytes>)
    requires |header| == HEADER_SIZE - 1
    ensures r.Ok? ==> IsProgram(signature, items, intent, tokens, domain, bindings, r.value, header[7] == 1)
    ensures Judged(Compiled(signature, items, intent, tokens, domain, bindings, extra), header, r)
  {
    hide CompiledFrom, Compiled, Check, Decode, Serialize, SectionsOf, Encodable, ReadsDescriptor, FieldsExecutable,
      PathsVerdict, FormattersVerdict, FactsOf, DisplaysVerdict, RowsVerdict;
    var t :- Compile(signature, items, intent, tokens, domain, bindings, extra);
    ghost var e :| CompiledFrom(signature, items, intent, tokens, t, e);
    CompiledEncodable(signature, items, intent, tokens, t, e);
    if !SectionsFit(SectionsOf(t)) {
      return Raised;
    }
    var program := Serialize(header, t);
    DecodeUndoesSerialize(header, t);
    HeaderKept(header, t);
    var v := DeviceRefusal.Refusal(program);
    if v != Accepted {
      return Raised;
    }
    assert Accepts(signature, items, intent, tokens, t, e, header[7] == 1);
    AcceptedParts(t, header[7] == 1);
    CompiledFormattersIff(signature, items, intent, tokens, t, e, header[7] == 1);
    return Ok(program);
  }

  lemma CompiledEncodable(signature: string, items: seq<Item>, intent: string, tokens: seq<Token>, t: Tables,
      e: Evidence)
    requires CompiledFrom(signature, items, intent, tokens, t, e)
    ensures Encodable(t)
  {
    hide Encodable, FormattersSay, DisplaysSay;
  }

  lemma HeaderKept(header: Bytes.bytes, t: Tables)
    requires |header| == HEADER_SIZE - 1 && Encodable(t) && SectionsFit(SectionsOf(t))
    ensures |Serialize(header, t)| > 7 && Serialize(header, t)[7] == header[7]
  {
    hide Encodable, SectionsOf;
  }
}
