/** A whole compilation (`CalldataCompiler.compile`,
    keepkeylib/erc7730_compiler.py): it returns tables for exactly the
    descriptors that can be compiled, and they say what the descriptor says. */
module Compilation {
  import opened Wrappers
  import opened Bytes
  import opened AbiTypes
  import opened FlatAbi
  import opened Program
  import opened DisplayWord
  import opened DisplayFields
  import opened ProgramBuilder
  import opened GroupScope
  import opened CompiledDisplay
  import opened DisplayEmitter
  import opened DisplayShape
  import opened Demands
  import opened FieldDemands
  import opened ListedTexts
  import opened Compiler
  import opened CompiledProgram
  import opened Compilable
  import opened FieldContents
  import opened CompiledTables
  import opened CompiledReading
  import SignatureParser
  import StringTable
  import Utf8

  /** `compile`, up to the serialised sections: it returns if and only if the
      descriptor satisfies the condition, and with a compilation of it. `domain`
      are the literals that domain constraints contributed and `extra` the texts
      of token, network and domain records. */
  method Compile(signature: string, items: seq<Item>, intent: string, tokens: seq<Token>,
      domain: seq<Literal>, bindings: seq<Literal>, extra: seq<string>)
    returns (r: Result<Tables>)
    ensures r == Compiled(signature, items, intent, tokens, domain, bindings, extra)
    ensures r.Ok? ==> exists e :: CompiledFrom(signature, items, intent, tokens, r.value, e)
    ensures r.Ok? ==> ReadsDescriptor(signature, items, tokens, r.value)
    ensures r.Ok? ==> forall b :: b in r.value.strings <==>
              b in StringTable.Encoded(AllTexts(items, intent, tokens, extra))
    ensures r.Ok? ==> domain <= r.value.literals && r.value.bindings == bindings
  {
    hide IsCompiled, CompiledFrom, ResourcesRecorded, Sound, BeforeField, Laminar, Emitter.Emitted, Emitter.Fresh,
      Emitter.Counted, TableBuilder.Tabled, StringTable.Ascending, SignatureParser.ParseFunction, DisplayFields.Flatten,
      Shown, InterpolatedPaths, Shaped, Accounted, StringTable.Encoded, TextsAllowed, Resolves, Small, Representable,
      RunReady, FieldTextsIn, FieldReady, DemandUpTo, Encodable, WithinLimits, Valid, StringsAllowed, ProgramTexts,
      WorkDone, TablesFrom, Summarised, ReadsDescriptor;
    var parsed :- SignatureParser.ParseFunctionSignature(signature);
    var flat :- FlattenFields(items);
    var fields := Shown(flat.0, InterpolatedPaths(tokens));
    var strings :- CollectStrings(fields, flat.1, intent, tokens, extra);
    ReadyIff(parsed.1, flat.1, fields, intent, tokens, extra, strings);
    SmallIsRoomy(parsed.1, flat.1, fields, tokens, domain, bindings);
    SignatureParser.ParsedFunctionValid(signature);
    var tables := new TableBuilder(parsed.1, strings, domain);
    var emitter := new Emitter(tables, flat.1, fields, intent, tokens);
    StartsFresh(emitter);
    var _ :- emitter.Run(|flat.0|);
    var t :- Assemble(emitter, bindings);
    ShownFrom(signature, items, intent, tokens, t, Evidence(emitter.L(), tables.plans));
    DescriptorReadBack(signature, items, intent, tokens, t, Evidence(emitter.L(), tables.plans));
    return Ok(t);
  }

  lemma SmallIsRoomy(root: AbiType, ranges: seq<Range>, fields: seq<Field>, tokens: seq<Token>, domain: seq<Literal>,
      bindings: seq<Literal>)
    ensures Small(root, ranges, fields, tokens, |domain|, |bindings|) ==>
              |domain| + DemandUpTo(root, ranges, fields, |fields|).literals <= 0x1_0000
  {
    hide DemandUpTo, DisplaySize, NodeCount, TreeDepth;
  }

  lemma StartsFresh(emitter: Emitter)
    requires emitter.tables.Tabled() && emitter.tables.formatters == [] && emitter.tables.plans == []
    requires emitter.tables.paths == [] && emitter.tables.literals == emitter.tables.domain
    requires emitter.tables.conditions == [] && emitter.tables.optionalCondition.None?
    requires emitter.displays == [] && emitter.active == [] && emitter.loops == [] && emitter.begins == map[]
             && emitter.fieldPcs == []
    ensures emitter.Fresh()
  {
  }

  lemma ShownFrom(signature: string, items: seq<Item>, intent: string, tokens: seq<Token>, t: Tables, e: Evidence)
    requires SignatureParser.ParseFunction(signature).Ok? && DisplayFields.Flatten(items, None, 0).Ok?
    requires var root := SignatureParser.ParseFunction(signature).value.1;
             var (fields, ranges) := DisplayFields.Flatten(items, None, 0).value;
             && IsCompiled(root, ranges, Shown(fields, InterpolatedPaths(tokens)), intent, tokens, t, e)
             && Encodable(t) && WithinLimits(t) && ResourcesRecorded(root, t)
    ensures CompiledFrom(signature, items, intent, tokens, t, e)
  {
  }

  /** The flattened fields and their groups. */
  method FlattenFields(items: seq<Item>) returns (r: Result<(seq<Field>, seq<Range>)>)
    ensures r == DisplayFields.Flatten(items, None, 0)
    ensures r.Ok? ==> Laminar(r.value.1, 0, |r.value.0|)
  {
    hide Laminar;
    var flattener := new FieldFlattener();
    var done := flattener.Run(items, None);
    if done.Raised? {
      return Raised;
    }
    FlattenLaminar(items, None, 0);
    ghost var flat := DisplayFields.Flatten(items, None, 0).value;
    assert flattener.fields == [] + flat.0 == flat.0 && flattener.ranges == [] + flat.1 == flat.1;
    return Ok((flattener.fields, flattener.ranges));
  }

  /** The sorted string table; an empty label, text or one over 128 bytes raises. */
  method CollectStrings(fields: seq<Field>, ranges: seq<Range>, intent: string, tokens: seq<Token>, extra: seq<string>)
    returns (r: Result<seq<bytes>>)
    ensures r.Ok? <==> TextsAllowed(ProgramTexts(fields, ranges, intent, tokens, extra))
    ensures r.Ok? ==> StringTable.Ascending(r.value) && StringsAllowed(r.value) && IsU16(|r.value|)
    ensures r.Ok? ==>
              forall b :: b in r.value <==>
                       b in StringTable.Encoded(ProgramTexts(fields, ranges, intent, tokens, extra))
    ensures r.Ok? ==>
              r.value == StringTable.Table(StringTable.Encoded(ProgramTexts(fields, ranges, intent, tokens, extra)))
  {
    hide StringTable.Ascending, StringTable.Encoded, StringTable.Table, ProgramTexts;
    var texts := ProgramTexts(fields, ranges, intent, tokens, extra);
    for k := 0 to |fields|
    {
      if fields[k].title == "" {
        EmptyTitle(fields, ranges, intent, tokens, extra, k);
        return Raised;
      }
    }
    var strings := StringTable.Sorted(texts);
    AscendingCount(strings);
    assert EncodedSet(texts) == set b | b in strings;
    return if StringsAllowed(strings) && IsU16(|strings|) then Ok(strings) else Raised;
  }

  /** An empty title is an empty text. */
  lemma EmptyTitle(fields: seq<Field>, ranges: seq<Range>, intent: string, tokens: seq<Token>, extra: seq<string>,
      k: nat)
    requires k < |fields| && fields[k].title == ""
    ensures !TextsAllowed(ProgramTexts(fields, ranges, intent, tokens, extra))
  {
    hide CaptionTexts, TokenTexts, AllFieldTexts, FieldTexts;
    var texts := ProgramTexts(fields, ranges, intent, tokens, extra);
    TitleListed(fields[k]);
    FieldCollected(fields, k, "");
    var own := AllFieldTexts(fields);
    assert texts[|texts| - |own|..] == own;
    var i :| 0 <= i < |texts| && texts[i] == "";
    assert StringTable.Encoded(texts)[i] == Utf8.Encode("");
    assert [] in EncodedSet(texts);
  }

  /** The finished tables: limits, the ABI table, sorted arguments, resources. */
  method Assemble(emitter: Emitter, bindings: seq<Literal>) returns (r: Result<Tables>)
    requires emitter.Emitted(|emitter.fields|) && Sound(emitter.L(), emitter.ranges)
    requires emitter.active == [] && emitter.loops == [] && BeforeField(emitter.L(), emitter.ranges, |emitter.fields|)
    requires |emitter.fieldPcs| == |emitter.fields| == |emitter.tables.formatters|
    requires StringTable.Ascending(emitter.tables.strings) && StringsAllowed(emitter.tables.strings)
             && Valid(emitter.tables.root)
    requires Shaped(emitter.tables.root, emitter.ranges, emitter.fields, emitter.tokens, emitter.displays,
                    emitter.fieldPcs)
    requires Accounted(emitter.tables.root, emitter.ranges, emitter.fields, |emitter.tokens|,
                       emitter.displays[..|emitter.displays| - 1],
                       emitter.begins, emitter.fieldPcs)
    requires emitter.Counted(|emitter.fields|)
    ensures r.Ok? <==>
            && Small(emitter.tables.root, emitter.ranges, emitter.fields, emitter.tokens, |emitter.tables.domain|,
                     |bindings|)
            && Representable(emitter.tables.root, emitter.ranges, emitter.fields, emitter.tables.domain, bindings)
    ensures r.Ok? ==>
              IsCompiled(emitter.tables.root, emitter.ranges, emitter.fields, emitter.intent, emitter.tokens, r.value,
                                 Evidence(emitter.L(), emitter.tables.plans))
    ensures r.Ok? ==> Encodable(r.value) && WithinLimits(r.value) && ResourcesRecorded(emitter.tables.root, r.value)
    ensures r.Ok? ==> r.value == Summarised(emitter.tables.root, TablesFrom(emitter.W(), emitter.tables.root, bindings))
    ensures r.Ok? ==> r.value.strings == emitter.tables.strings && r.value.bindings == bindings
    ensures r.Ok? ==> emitter.tables.domain <= r.value.literals
  {
    hide Sound, BeforeField, Encodable, FormattersSay, AllFieldsEmitted, AllGroupsEmitted, IntentEmitted, Shaped,
      GroupLoops, Accounted, StringTable.Ascending, StringsAllowed, CountsRecorded, FlagsRecorded, PlanOf,
      SortFormatters, TablesSay, TableBuilder.Tabled, Valid, Emitter.Counted, CountedIn, Representable, DemandUpTo,
      DisplaySize, ConditionsUpTo, Resources, OpenStack, Deepest,
      DepthAt, TreeDepth, NodeCount, BuiltOf;
    var tables := emitter.tables;
    var flattener := new Flattener();
    var rows :- flattener.Run(tables.root);
    var depth := TreeDepth(tables.root);
    if depth > 8 {
      return Raised;
    }
    var t := Tables(tables.strings, rows, tables.paths, tables.literals, tables.conditions,
                    SortFormatters(tables.formatters), emitter.displays, bindings, []);
    TabledSays(tables, t);
    EmittedSays(emitter, rows, bindings, []);
    ghost var e := Evidence(emitter.L(), tables.plans);
    assert IsCompiled(tables.root, emitter.ranges, emitter.fields, emitter.intent, emitter.tokens, t, e);
    tables.DomainFirst();
    CountedTables(emitter, t);
    FinishedIff(tables.root, emitter.ranges, emitter.fields, emitter.intent, emitter.tokens, t, e, tables.domain);
    if !WithinLimits(t) || !Encodable(t) {
      return Raised;
    }
    SoundHasStack(emitter.L(), emitter.ranges);
    var open, deepest := MaxDepth(t.displays);
    ShallowWord(t.displays, deepest);
    if open != 0 {
      return Raised;
    }
    ResourcesReady(t, depth, deepest);
    var resources := Resources(t, depth, deepest).value;
    RecordedResources(t, depth, deepest);
    TablesSayResources(tables.root, t, resources);
    EmittedSays(emitter, rows, bindings, resources);
    EncodableResources(t, resources);
    return Ok(t.(resources := resources));
  }

  lemma EncodableResources(t: Tables, resources: bytes)
    requires Encodable(t)
    ensures Encodable(t.(resources := resources))
  {
  }

  lemma ResourcesReady(t: Tables, depth: Byte, displayDepth: Byte)
    requires Encodable(t) && StringsAllowed(t.strings)
    ensures Resources(t, depth, displayDepth).Ok?
  {
    hide AnyIterates, StringFits, RowFits, PathFits, LiteralFits, ConditionFits, FormatterFits, InstructionFits;
  }

  lemma ShallowWord(ds: seq<Instruction>, deepest: nat)
    requires OpenStack(ds).Some? && |ds| <= 64 && exists pc :: 0 <= pc <= |ds| && DepthAt(ds, pc) == deepest
    ensures deepest <= 64
  {
    var pc :| 0 <= pc <= |ds| && DepthAt(ds, pc) == deepest;
    DepthAtMost(ds, pc);
  }

  /** The builder counted what the tables took. */
  lemma CountedTables(emitter: Emitter, t: Tables)
    requires emitter.Counted(|emitter.fields|) && emitter.tables.domain <= emitter.tables.literals
    requires t.strings == emitter.tables.strings && t.paths == emitter.tables.paths
             && t.literals == emitter.tables.literals
    requires t.conditions == emitter.tables.conditions
    ensures CountedIn(emitter.tables.root, emitter.ranges, emitter.fields, emitter.tables.domain, t)
  {
    hide DemandUpTo, FieldsFit, LiteralsFit, ConditionsUpTo, HasOptional, Took;
    assert emitter.tables.P() == PoolsOf(t);
  }

  lemma SoundHasStack(l: Layout, ranges: seq<Range>)
    requires Sound(l, ranges) && l.pending == [] && l.loops == []
    ensures OpenStack(l.displays) == Some([])
  {
    hide GroupsPlaced, FieldsScoped, GroupsClosed;
    assert OpenersIn(l) == [];
  }
}
