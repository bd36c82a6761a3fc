/** What acceptance by the device says about a descriptor and a signature
    (`device_refusal` on compiled programs, keepkeylib/erc7730_compiler.py): the
    checks of the ABI, string, literal, condition and display tables, traced
    back to what those tables were made from. */
module AcceptedDescriptors {
  import opened Wrappers
  import opened Bytes
  import opened AbiTypes
  import opened FlatAbi
  import opened Program
  import opened DisplayFields
  import opened Formatters
  import opened ProgramPools
  import opened CompiledDisplay
  import opened Compiler
  import opened CompiledProgram
  import opened CompiledReading
  import opened CompiledAcceptance
  import opened CompiledExecution
  import opened DeviceRules
  import opened DeviceSoundness
  import opened DisplayChecks
  import opened DisplayWord
  import GroupScope
  import SignatureParser
  import Utf8

  // ------------------------------------------------------------------- types

  /** Every array of the tree is dynamic or has 1 to 64 elements; a leaf is none. */
  predicate SizedArrays(t: AbiType) {
    match t
    case Leaf(_, kind, _) => kind != ARRAY
    case Tuple(_, members) => AllSized(members)
    case Array(_, element, length) => (length == ABSENT || 1 <= length <= 64) && SizedArrays(element)
  }

  predicate AllSized(ts: seq<AbiType>) {
    ts == [] || (SizedArrays(ts[0]) && AllSized(ts[1..]))
  }

  predicate NodeSized(t: AbiType) {
    match t
    case Leaf(_, kind, _) => kind != ARRAY
    case Tuple(_, _) => true
    case Array(_, _, length) => length == ABSENT || 1 <= length <= 64
  }

  /** All filled slots hold nodes of an allowed size. */
  ghost predicate SlotsSized(nodes: Slots) {
    forall j :: 0 <= j < |nodes| && nodes[j].Some? ==> NodeSized(nodes[j].value.node)
  }

  lemma SizedByChildren(t: AbiType)
    ensures SizedArrays(t) <==> NodeSized(t) && AllSized(t.Children())
  {
    if t.Array? {
      assert t.Children()[1..] == [];
      assert AllSized(t.Children()) <==> SizedArrays(t.element);
    }
  }

  lemma {:induction false} FillSized(nodes: Slots, t: AbiType, index: nat)
    requires index < |nodes| && nodes[index].None?
    ensures SlotsSized(Fill(nodes, t, index)) <==> SlotsSized(nodes) && SizedArrays(t)
    decreases NodeCount(t), 1
  {
    hide NodeSized, SizedArrays, AllSized;
    ChildrenCount(t);
    SizedByChildren(t);
    var children := t.Children();
    var first := if children == [] then 0 else |nodes|;
    var slot := Slot(t, first, |children|);
    var placed := (nodes + Unfilled(|children|))[index := Some(slot)];
    assert SlotsSized(placed) <==> SlotsSized(nodes) && NodeSized(t) by {
      if SlotsSized(placed) {
        assert placed[index] == Some(slot);
        forall j | 0 <= j < |nodes| && nodes[j].Some? ensures NodeSized(nodes[j].value.node) {
          assert placed[j] == nodes[j];
        }
      }
    }
    if children == [] {
      assert placed == Fill(nodes, t, index);
      NothingSized();
    } else {
      FillAllSized(placed, children, first);
    }
  }

  lemma NothingSized()
    ensures AllSized([])
  {
  }

  lemma {:induction false} FillAllSized(nodes: Slots, ts: seq<AbiType>, at: nat)
    requires at + |ts| <= |nodes| && forall j :: at <= j < at + |ts| ==> nodes[j].None?
    ensures SlotsSized(FillAll(nodes, ts, at)) <==> SlotsSized(nodes) && AllSized(ts)
    decreases NodeCountAll(ts), 2
  {
    hide NodeSized, SizedArrays, SlotsSized;
    if ts != [] {
      FillSized(nodes, ts[0], at);
      FillPlaces(nodes, ts[0], at);
      FillAllSized(Fill(nodes, ts[0], at), ts[1..], at + 1);
    }
  }

  /** The check of the ABI table is one on the signature's types. */
  lemma RowsAcceptedIff(root: AbiType)
    ensures RowsVerdict(Rows(root)) == Accepted <==> SizedArrays(root)
  {
    hide SizedArrays, RowAllowed;
    FillSized([None], root, 0);
    FlattenHolds(root);
    var nodes, rows := FlatAbi.Flatten(root), Rows(root);
    RowsAllowed(rows);
    assert SlotsSized([None]);
    forall j | 0 <= j < |rows| ensures RowAllowed(rows[j]) <==> NodeSized(nodes[j].value.node) {
      RowSized(nodes[j].value);
    }
    if RowsVerdict(rows) == Accepted {
      forall j | 0 <= j < |nodes| ensures NodeSized(nodes[j].value.node) {
        assert RowAllowed(rows[j]);
      }
    }
  }

  lemma RowSized(slot: Slot)
    ensures RowAllowed(RowOf(slot)) <==> NodeSized(slot.node)
  {
  }

  lemma {:induction false} RowsAllowed(rows: seq<Row>)
    ensures RowsVerdict(rows) == Accepted <==> forall j :: 0 <= j < |rows| ==> RowAllowed(rows[j])
    decreases |rows|
  {
    if rows != [] {
      RowsAllowed(rows[1..]);
      assert forall j :: 1 <= j < |rows| ==> rows[j] == rows[1..][j - 1];
    }
  }

  // ------------------------------------------------------------------- texts

  /** Text a screen can show: no control characters. */
  predicate Showable(text: string) {
    forall i :: 0 <= i < |text| ==> ' ' <= text[i] != '\U{7f}'
  }

  lemma PrintableIff(text: string)
    ensures Utf8.Printable(Utf8.Encode(text)) <==> Showable(text)
  {
    hide Utf8.Encode;
    Utf8.DecodeUndoesEncode(text);
  }

  lemma {:induction false} StringPrintable(ss: seq<bytes>, i: nat)
    requires StringsVerdict(ss) == Accepted && i < |ss|
    ensures Utf8.Printable(ss[i])
  {
    hide Utf8.Printable;
    if i > 0 {
      StringPrintable(ss[1..], i - 1);
    }
  }

  /** A listed text of an accepted program can be shown. */
  lemma ListedShowable(t: Tables, i: nat, text: string)
    requires StringsVerdict(t.strings) == Accepted && IsString(PoolsOf(t), i, text)
    ensures Showable(text)
  {
    hide Utf8.Printable, Utf8.Encode, Showable;
    StringPrintable(t.strings, i);
    PrintableIff(text);
  }

  // -------------------------------------------------------------- conditions

  predicate HasRule(f: Field) {
    f.visible.IfNotIn? || f.visible.MustMatch?
  }

  lemma {:induction false} ConditionAccepted(cs: seq<Condition>, i: nat)
    requires ConditionsVerdict(cs) == Accepted && i < |cs|
    ensures cs[i].opcode == 3
  {
    if i > 0 {
      ConditionAccepted(cs[1..], i - 1);
    }
  }

  /** A field that is shown by a rule has a condition the device refuses. */
  lemma RuleRefused(b: Built, root: AbiType, f: Field, k: nat, c: nat)
    requires ConditionOf(b, root, f, k, c) && HasRule(f)
    ensures ConditionsVerdict(b.conditions) != Accepted
  {
    hide NodeOf, ConditionLiterals;
    assert c < |b.conditions| && b.conditions[c].opcode in {7, 8};
    if ConditionsVerdict(b.conditions) == Accepted {
      ConditionAccepted(b.conditions, c);
    }
  }

  lemma EmittedCondition(b: Built, root: AbiType, f: Field, k: nat, own: seq<nat>, ds: seq<Instruction>, pc: nat)
    requires FieldEmitted(b, root, f, k, own, ds, pc)
    ensures exists c :: ConditionOf(b, root, f, k, c)
  {
    hide ConditionOf, StepsOf;
    if own != [] {
      assert LoopEmitted(b, root, f, k, own, ds, pc, 0);
    }
  }

  // ------------------------------------------------------------------ labels

  /** The literal check passes exactly when each literal passes. */
  lemma {:induction false} LiteralsIff(short: set<nat>, ls: seq<Literal>)
    ensures LiteralsVerdict(short, ls) == Accepted <==>
            forall i :: 0 <= i < |ls| ==> LiteralVerdict(short, ls[i]) == Accepted
    decreases |ls|
  {
    hide LiteralVerdict;
    if ls != [] {
      LiteralsIff(short, ls[1..]);
      assert forall i :: 1 <= i < |ls| ==> ls[i] == ls[1..][i - 1];
    }
  }

  lemma {:induction false} LabelAccepted(short: set<nat>, value: bytes, from: nat, count: nat, k: nat)
    requires from <= k < count && DeviceRules.EnumLabels(short, value, from, count) == Accepted
    ensures ReadU16(value, 4 + 4 * k).Ok? && ReadU16(value, 4 + 4 * k).value in short
    decreases count - from
  {
    if from < k {
      LabelAccepted(short, value, from + 1, count, k);
    }
  }

  lemma {:induction false} LabelsAccepted(short: set<nat>, value: bytes, from: nat, count: nat)
    requires from <= count
    requires forall k :: from <= k < count ==>
               ReadU16(value, 4 + 4 * k).Ok? && ReadU16(value, 4 + 4 * k).value in short
    ensures DeviceRules.EnumLabels(short, value, from, count) == Accepted
    decreases count - from
  {
    hide ReadU16;
    if from < count {
      LabelsAccepted(short, value, from + 1, count);
    }
  }

  /** An enum passes the literal check exactly when each label is at most 64
      bytes long. */
  lemma LabelsShortIff(t: Tables, i: nat, entries: seq<(Literal, string)>)
    requires IsMap(PoolsOf(t), i, entries)
    ensures LiteralVerdict(ShortStrings(t.strings), t.literals[i]) == Accepted <==>
            forall k :: 0 <= k < |entries| ==> |Utf8.Encode(entries[k].1)| <= SIGNER_TEXT_MAX
  {
    hide Utf8.Encode;
    var value, short := t.literals[i].value, ShortStrings(t.strings);
    forall k | 0 <= k < |entries|
      ensures ReadU16(value, 4 + 4 * k).Ok?
      ensures ReadU16(value, 4 + 4 * k).value in short <==> |Utf8.Encode(entries[k].1)| <= SIGNER_TEXT_MAX
    {
      assert IsEntry(PoolsOf(t), i, |entries|, k, entries[k]);
    }
    if LiteralVerdict(short, t.literals[i]) == Accepted {
      forall k | 0 <= k < |entries| ensures ReadU16(value, 4 + 4 * k).value in short {
        LabelAccepted(short, value, 0, |entries|, k);
      }
    }
    if forall k :: 0 <= k < |entries| ==> ReadU16(value, 4 + 4 * k).value in short {
      LabelsAccepted(short, value, 0, |entries|);
    }
  }

  // ------------------------------------------------------------------- whole

  /** A shown field of an accepted program: a short title without control
      characters, and no rule for being shown. */
  predicate FieldShowable(f: Field) {
    Showable(f.title) && |Utf8.Encode(f.title)| <= SIGNER_TEXT_MAX && !HasRule(f)
  }

  /** The label of an accepted field instruction is short. */
  lemma LabelShort(t: Tables, calldata: bool, pc: nat, text: string)
    requires Check(t, calldata) == Accepted && pc < |t.displays| && t.displays[pc].opcode == 4
    requires IsString(PoolsOf(t), t.displays[pc].a, text)
    ensures |Utf8.Encode(text)| <= SIGNER_TEXT_MAX
  {
    hide Check, FormatterFacts, DisplayRun, PathFacts, LiteralClasses, DateStrings, Decimals, Utf8.Encode;
    var facts := FactsOf(t, calldata);
    AcceptedParts(t, calldata);
    StepAt(facts, FormatterFacts(facts, t.formatters), t.displays, pc);
    assert t.displays[pc].a in facts.short;
  }

  lemma FieldAccepted(root: AbiType, ranges: seq<Range>, fields: seq<Field>, t: Tables, l: GroupScope.Layout,
      calldata: bool, j: nat)
    requires Check(t, calldata) == Accepted && j < |fields| == |l.fieldPcs|
    requires AllFieldsEmitted(BuiltOf(t), root, ranges, fields, t.displays, l.fieldPcs)
    ensures FieldShowable(fields[j])
  {
    hide Check, OwnPositions, ConditionOf, LoopEmitted, Showable, Utf8.Encode, IsString, HasRule;
    var own := OwnPositions(root, ranges, fields[j], j);
    assert FieldEmitted(BuiltOf(t), root, fields[j], j, own, t.displays, l.fieldPcs[j]);
    var pc := l.fieldPcs[j];
    CheckParts(t, calldata);
    ListedShowable(t, t.displays[pc].a, fields[j].title);
    LabelShort(t, calldata, pc, fields[j].title);
    EmittedCondition(BuiltOf(t), root, fields[j], j, own, t.displays, pc);
    var c :| ConditionOf(BuiltOf(t), root, fields[j], j, c);
    if HasRule(fields[j]) {
      RuleRefused(BuiltOf(t), root, fields[j], j, c);
    }
  }

  /** What acceptance says in the descriptor's own terms: arrays of the signature
      have a size the device shows, every shown field is executable, its title
      short and showable, and no field is shown by a rule. */
  lemma AcceptedDescriptor(signature: string, items: seq<Item>, intent: string, tokens: seq<Token>, t: Tables,
      e: Evidence, calldata: bool)
    requires Accepts(signature, items, intent, tokens, t, e, calldata)
    ensures SignatureParser.ParseFunction(signature).Ok?
            && SizedArrays(SignatureParser.ParseFunction(signature).value.1)
    ensures FieldsExecutable(signature, items, tokens, calldata)
    ensures forall f :: f in ShownFields(items, tokens) ==> FieldShowable(f)
  {
    hide Check, FieldsExecutable, FieldShowable, SizedArrays, PathsVerdict, FormattersVerdict, Rows, Shown,
      InterpolatedPaths, DisplayFields.Flatten, FormattersSay, AllFieldsEmitted, IntentEmitted, AllGroupsEmitted,
      CompiledFrom;
    CheckParts(t, calldata);
    CompiledFormattersIff(signature, items, intent, tokens, t, e, calldata);
    FieldsEmitted(signature, items, intent, tokens, t, e);
    var root := SignatureParser.ParseFunction(signature).value.1;
    RowsAcceptedIff(root);
    var fields := ShownFields(items, tokens);
    var ranges := DisplayFields.Flatten(items, None, 0).value.1;
    forall f | f in fields ensures FieldShowable(f) {
      var j :| 0 <= j < |fields| && fields[j] == f;
      FieldAccepted(root, ranges, fields, t, e.layout, calldata, j);
    }
  }

  lemma FieldsEmitted(signature: string, items: seq<Item>, intent: string, tokens: seq<Token>, t: Tables, e: Evidence)
    requires CompiledFrom(signature, items, intent, tokens, t, e)
    ensures SignatureParser.ParseFunction(signature).Ok? && DisplayFields.Flatten(items, None, 0).Ok?
    ensures var root := SignatureParser.ParseFunction(signature).value.1;
            && t.abi == Rows(root) && |e.layout.fieldPcs| == |ShownFields(items, tokens)|
            && AllFieldsEmitted(BuiltOf(t), root, DisplayFields.Flatten(items, None, 0).value.1,
                                ShownFields(items, tokens), t.displays, e.layout.fieldPcs)
  {
    hide FormattersSay, AllFieldsEmitted, IntentEmitted, AllGroupsEmitted, GroupScope.Sound, Shown;
  }

  /** Every listed text can be shown. */
  predicate AllPrintable(ss: seq<bytes>) {
    forall i :: 0 <= i < |ss| ==> Utf8.Printable(ss[i])
  }

  lemma {:induction false} StringsIff(ss: seq<bytes>)
    ensures StringsVerdict(ss) == Accepted <==> AllPrintable(ss)
    decreases |ss|
  {
    hide Utf8.Printable;
    if ss != [] {
      StringsIff(ss[1..]);
      assert forall i :: 1 <= i < |ss| ==> ss[i] == ss[1..][i - 1];
    }
  }

  ghost predicate AllPass(facts: Facts, formatters: seq<Formatter>, ds: seq<Instruction>) {
    forall pc: nat :: pc < |ds| ==> Passes(facts, formatters, ds, pc)
  }

  /** The formatters of an accepted compilation are fit for the display check. */
  lemma CompiledFormattersFine(signature: string, items: seq<Item>, intent: string, tokens: seq<Token>, t: Tables,
      e: Evidence, calldata: bool)
    requires CompiledFrom(signature, items, intent, tokens, t, e)
    requires FormattersVerdict(FactsOf(t, calldata), t.formatters) == Accepted
    ensures FormattersFine(FactsOf(t, calldata), t.formatters)
  {
    hide CompiledFrom, FormatterCheck, PathFactOf, ValueFirst;
    TablesCompiled(signature, items, intent, tokens, t, e);
    var facts := FactsOf(t, calldata);
    forall i | 0 <= i < |t.formatters| ensures FormatterFine(facts, t.formatters[i]) {
      FormatterAccepted(facts, t.formatters, i);
      ValueFromPath(facts, t.formatters[i]);
    }
    forall i | 0 <= i < |t.paths| && facts.paths[i].iterable ensures facts.paths[i].iterated.Some? {
      IterableHasArray(t, i);
    }
  }

  lemma ValueFromPath(facts: Facts, f: Formatter)
    requires ValueFirst(f.arguments) && FormatterCheck(facts, f).FormatterOk?
    ensures f.arguments[0].source == 1
  {
    hide ArgumentClass, ValueAllowed, IsConstant;
    ArgumentAccepted(facts, f.kind, f.arguments, 0);
  }

  /** All of the device's checks on a compilation: they pass exactly when the
      signature's arrays have a size the device shows, all texts can be shown,
      labels and tables are small, the paths are walked to the end, nothing is
      shown by a rule, every shown field is executable, and every instruction
      passes at its place. */
  lemma CompiledCheckIff(signature: string, items: seq<Item>, intent: string, tokens: seq<Token>, t: Tables,
      e: Evidence, calldata: bool)
    requires CompiledFrom(signature, items, intent, tokens, t, e)
    ensures SignatureParser.ParseFunction(signature).Ok?
    ensures Check(t, calldata) == Accepted <==>
            && SizedArrays(SignatureParser.ParseFunction(signature).value.1) && AllPrintable(t.strings)
            && LiteralsVerdict(ShortStrings(t.strings), t.literals) == Accepted && LimitsVerdict(t) == Accepted
            && PathsVerdict(t.abi, calldata, t.paths) == Accepted && ConditionsVerdict(t.conditions) == Accepted
            && FieldsExecutable(signature, items, tokens, calldata)
            && AllPass(FactsOf(t, calldata), t.formatters, t.displays)
  {
    hide CompiledFrom, SizedArrays, AllPrintable, LiteralsVerdict, LimitsVerdict, PathsVerdict, ConditionsVerdict,
      FieldsExecutable, FactsOf, FormattersVerdict, DisplaysVerdict, RowsVerdict, StringsVerdict, Rows, Paired, Passes,
      FormattersFine, FormatterFacts, ShortStrings;
    CheckParts(t, calldata);
    TablesCompiled(signature, items, intent, tokens, t, e);
    RowsAcceptedIff(SignatureParser.ParseFunction(signature).value.1);
    StringsIff(t.strings);
    if PathsVerdict(t.abi, calldata, t.paths) == Accepted {
      CompiledFormattersIff(signature, items, intent, tokens, t, e, calldata);
      if FormattersVerdict(FactsOf(t, calldata), t.formatters) == Accepted {
        CompiledFormattersFine(signature, items, intent, tokens, t, e, calldata);
        CompiledBrackets(signature, items, intent, tokens, t, e);
        DisplaysAcceptedIff(FactsOf(t, calldata), t.formatters, t.displays);
      }
    }
  }

  lemma CheckParts(t: Tables, calldata: bool)
    ensures Check(t, calldata) == Accepted <==>
            && RowsVerdict(t.abi) == Accepted && StringsVerdict(t.strings) == Accepted
            && LiteralsVerdict(ShortStrings(t.strings), t.literals) == Accepted && LimitsVerdict(t) == Accepted
            && PathsVerdict(t.abi, calldata, t.paths) == Accepted && ConditionsVerdict(t.conditions) == Accepted
            && FormattersVerdict(FactsOf(t, calldata), t.formatters) == Accepted
            && DisplaysVerdict(FactsOf(t, calldata), FormatterFacts(FactsOf(t, calldata), t.formatters), t.displays)
                 == Accepted
  {
  }
}
