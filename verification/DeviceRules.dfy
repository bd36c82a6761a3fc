/** What the device accepts (`device_refusal`, keepkeylib/erc7730_compiler.py),
    as a function of a program's tables. The byte-reading loops are in
    DeviceRefusal; here is what they decide. */
module DeviceRules {
  import opened Wrappers
  import opened Bytes
  import opened AbiTypes
  import opened FlatAbi
  import opened AbiPaths
  import opened Program
  import AbiWalk
  import Utf8

  // Value classes beyond the ABI leaf kinds.
  const STRING_REF: nat := 8
  const ALIAS_SET: nat := 9
  const UINT_SMALL: nat := 10
  const DATE_ENCODING: nat := 11
  const ENUM_MAP: nat := 12
  const FLAG: nat := 13

  const SIGNER_TEXT_MAX: nat := 64
  const UNIT_DECIMALS_MAX: nat := 77
  const ENUM_MAX: nat := 16
  const ALIAS_SET_MAX: nat := 4

  datatype Reason =
    | ArraySize
    | UnprintableString
    | LongEnumLabel
    | TableLimit(table: nat)
    | PathSource(source: nat)
    | Container(id: nat)
    | LiteralBeyondTable
    | StepOpcode(opcode: nat)
    | IteratesTwice
    | WalkRefused(reason: AbiWalk.Refusal)
    | ConditionOpcode(opcode: nat)
    | FormatterKind(kind: nat)
    | ArgumentRole(kind: nat, role: nat)
    | ArgumentType(kind: nat, role: nat)
    | LongSignerText
    | UnitDecimals
    | EmbeddedConstant
    | OnlyRawConstant
    | RequiredArgument(kind: nat)
    | EmbeddedOutsideCalldata
    | DisplayOpcode(opcode: nat)
    | IntentFirst
    | InterpolationRun
    | IterationNotHere
    | EmbeddedIntentValue
    | ConstantIntentValue
    | LongLabel
    | OutsideIteration
    | OtherArray

  /** `None`, a reason, or a Python exception. */
  datatype Verdict = Accepted | Refused(reason: Reason) | Crashed

  /** How a loop ends early. */
  type Stop = v: Verdict | v != Accepted witness Crashed

  // ------------------------------------------------------------ ABI, strings

  predicate RowAllowed(r: Row) {
    !(r.kind == ARRAY && (r.length == 0 || (r.length > 64 && r.length != ABSENT)))
  }

  function RowsVerdict(rows: seq<Row>): Verdict {
    if rows == [] then Accepted
    else if !RowAllowed(rows[0]) then Refused(ArraySize)
    else RowsVerdict(rows[1..])
  }

  /** The strings named "timestamp" and "blockheight", as bytes. */
  predicate IsDateEncoding(s: bytes) {
    || s == [0x74, 0x69, 0x6d, 0x65, 0x73, 0x74, 0x61, 0x6d, 0x70]
    || s == [0x62, 0x6c, 0x6f, 0x63, 0x6b, 0x68, 0x65, 0x69, 0x67, 0x68, 0x74]
  }

  function StringsVerdict(ss: seq<bytes>): Verdict {
    if ss == [] then Accepted
    else if !Utf8.Printable(ss[0]) then Refused(UnprintableString)
    else StringsVerdict(ss[1..])
  }

  predicate IsShort(s: bytes) {
    |s| <= SIGNER_TEXT_MAX
  }

  function ShortStrings(strings: seq<bytes>): set<nat> {
    set i: nat | i < |strings| && IsShort(strings[i])
  }

  function DateStrings(strings: seq<bytes>): set<nat> {
    set i: nat | i < |strings| && IsDateEncoding(strings[i])
  }

  // ---------------------------------------------------------------- literals

  /** Every label of an enum map is a short string. */
  function EnumLabels(short: set<nat>, value: bytes, entry: nat, count: nat): Verdict
    requires entry <= count
    decreases count - entry
  {
    if entry == count then Accepted
    else
      match ReadU16(value, 4 + 4 * entry)
      case Raised => Crashed
      case Ok(text) => if text !in short then Refused(LongEnumLabel) else EnumLabels(short, value, entry + 1, count)
  }

  function LiteralVerdict(short: set<nat>, l: Literal): Verdict {
    if l.kind == 8 then
      match ReadU16(l.value, 0)
      case Raised => Crashed
      case Ok(count) => EnumLabels(short, l.value, 0, count)
    else if l.kind == 9 && ReadU16(l.value, 0).Raised? then Crashed
    else Accepted
  }

  function LiteralClass(l: Literal): nat {
    var members := if l.kind in {8, 9} && ReadU16(l.value, 0).Ok? then ReadU16(l.value, 0).value else 0;
    if l.kind == 1 then (if |l.value| == 1 then UINT_SMALL else UINT)
    else if l.kind == 8 then (if 0 < members <= ENUM_MAX then ENUM_MAP else 0)
    else if l.kind == 9 then (if 0 < members <= ALIAS_SET_MAX then ALIAS_SET else 0)
    else if l.kind == 4 then STRING_REF
    else if l.kind == 5 then ADDRESS
    else if l.kind == 6 then FLAG
    else 0
  }

  predicate IsDecimals(l: Literal) {
    l.kind == 1 && |l.value| == 1 && l.value[0] <= UNIT_DECIMALS_MAX
  }

  function LiteralsVerdict(short: set<nat>, ls: seq<Literal>): Verdict {
    if ls == [] then Accepted
    else
      match LiteralVerdict(short, ls[0])
      case Accepted => LiteralsVerdict(short, ls[1..])
      case v => v
  }

  function LiteralClasses(ls: seq<Literal>): (r: seq<nat>)
    ensures |r| == |ls|
    ensures forall i :: 0 <= i < |ls| ==> r[i] == LiteralClass(ls[i])
  {
    seq(|ls|, i requires 0 <= i < |ls| => LiteralClass(ls[i]))
  }

  function Decimals(ls: seq<Literal>): set<nat> {
    set i: nat | i < |ls| && IsDecimals(ls[i])
  }

  // ------------------------------------------------------------------- paths

  /** The class of what a path reads, known now or through a literal. */
  datatype PathClass = Direct(cls: nat) | OfLiteral(index: nat)

  datatype PathFact = PathFact(leafClass: PathClass, iterated: Option<nat>, iterable: bool)

  function StepsVerdict(steps: seq<Step>): Verdict {
    if steps == [] then Accepted
    else if steps[0].Slice? then Refused(StepOpcode(3))
    else StepsVerdict(steps[1..])
  }

  function PathVerdict(rows: seq<Row>, calldata: bool, p: Path): Verdict {
    match p
    case ContainerPath(id) => if id !in {1, 2, 3} || !calldata then Refused(Container(id)) else Accepted
    case LiteralPath(index) => if index >= 64 then Refused(LiteralBeyondTable) else Accepted
    case AbiPath(steps) =>
      match StepsVerdict(steps)
      case Accepted =>
        if Iterations(steps) > 1 then Refused(IteratesTwice)
        else
          (match AbiWalk.AbiWalk(rows, steps)
           case Refused(reason) => Refused(WalkRefused(reason))
           case Reached(_, _) => Accepted)
      case v => v
  }

  function PathFactOf(rows: seq<Row>, p: Path): PathFact {
    match p
    case ContainerPath(id) => PathFact(Direct(if id == 3 then UINT else ADDRESS), None, false)
    case LiteralPath(index) => PathFact(OfLiteral(index), None, false)
    case AbiPath(steps) =>
      match AbiWalk.AbiWalk(rows, steps)
      case Refused(_) => PathFact(Direct(0), None, false)
      case Reached(leaf, iterated) =>
        PathFact(Direct(leaf), iterated, steps != [] && steps[|steps| - 1].Iterate?)
  }

  function PathsVerdict(rows: seq<Row>, calldata: bool, ps: seq<Path>): Verdict {
    if ps == [] then Accepted
    else
      match PathVerdict(rows, calldata, ps[0])
      case Accepted => PathsVerdict(rows, calldata, ps[1..])
      case v => v
  }

  function PathFacts(rows: seq<Row>, ps: seq<Path>): (r: seq<PathFact>)
    ensures |r| == |ps|
    ensures forall i :: 0 <= i < |ps| ==> r[i] == PathFactOf(rows, ps[i])
  {
    seq(|ps|, i requires 0 <= i < |ps| => PathFactOf(rows, ps[i]))
  }

  // -------------------------------------------------------------- conditions

  function ConditionsVerdict(cs: seq<Condition>): Verdict {
    if cs == [] then Accepted
    else if cs[0].opcode != 3 then Refused(ConditionOpcode(cs[0].opcode))
    else ConditionsVerdict(cs[1..])
  }

  // -------------------------------------------------------------- formatters

  /** The sources a formatter kind permits for a role; empty when none. */
  function Sources(kind: nat, role: nat): set<nat> {
    if kind in {1, 2, 3, 4, 5, 6, 7, 8, 10, 13} && role == 1 then {1}
    else if kind == 3 then (if role == 2 then {1} else if role in {7, 22} then {2} else if role == 8 then {3} else {})
    else if kind == 4 && role == 3 then {1}
    else if kind == 5 && role == 9 then {3}
    else if kind == 7 then (if role in {4, 6} then {2} else if role == 5 then {3} else {})
    else if kind == 8 && role == 10 then {2}
    else if kind == 13 && role in {15, 17, 18} then {1}
    else {}
  }

  predicate KnownKind(kind: nat) {
    kind in {1, 2, 3, 4, 5, 6, 7, 8, 10, 13}
  }

  function Required(kind: nat): set<nat> {
    if kind == 3 then {1, 2}
    else if kind == 4 then {1, 3}
    else if kind == 7 then {1, 5}
    else if kind == 8 then {1, 10}
    else if kind == 13 then {1, 15}
    else {1}
  }

  /** `_value_allowed`. */
  predicate ValueAllowed(kind: nat, role: nat, cls: nat) {
    cls != 0 &&
    if role == 1 then
      if kind == 1 then cls <= STRING_REF || cls == UINT_SMALL
      else if kind == 10 then cls == ADDRESS
      else if kind in {2, 3, 4, 5, 6, 7} then cls == UINT
      else if kind == 8 then cls in {UINT, INT, BOOL}
      else kind == 13 && cls == BYTES
    else if kind == 3 then
      if role == 7 then cls in {UINT, UINT_SMALL}
      else if role == 2 then cls == ADDRESS
      else if role == 8 then cls in {STRING, DATE_ENCODING}
      else role == 22 && cls == ALIAS_SET
    else if kind == 4 then role == 3 && cls == ADDRESS
    else if kind == 5 then role == 9 && cls == DATE_ENCODING
    else if kind == 7 then
      if role == 4 then cls == UINT_SMALL
      else if role == 5 then cls in {STRING, DATE_ENCODING}
      else role == 6 && cls == FLAG
    else if kind == 8 then role == 10 && cls == ENUM_MAP
    else kind == 13 && (if role == 17 then cls == UINT else role in {15, 18} && cls == ADDRESS)
  }

  /** What the earlier tables tell about the later ones. */
  datatype Facts = Facts(
    short: set<nat>,
    dates: set<nat>,
    classes: seq<nat>,
    decimals: set<nat>,
    paths: seq<PathFact>,
    calldata: bool)

  function ClassOfLiteral(facts: Facts, index: nat): nat {
    if index < |facts.classes| then facts.classes[index] else 0
  }

  function ArgumentClass(facts: Facts, a: Argument): nat {
    if a.source == 3 then (if a.index in facts.dates then DATE_ENCODING else STRING)
    else if a.source == 2 then ClassOfLiteral(facts, a.index)
    else if a.index < |facts.paths| then
      match facts.paths[a.index].leafClass
      case Direct(cls) => cls
      case OfLiteral(index) => ClassOfLiteral(facts, index)
    else 0
  }

  predicate IsConstant(facts: Facts, a: Argument) {
    a.source == 1 && a.index < |facts.paths| && facts.paths[a.index].leafClass.OfLiteral?
  }

  function ArgumentVerdict(facts: Facts, kind: nat, a: Argument): Verdict {
    if a.source !in Sources(kind, a.role) then Refused(ArgumentRole(kind, a.role))
    else if !ValueAllowed(kind, a.role, ArgumentClass(facts, a)) then Refused(ArgumentType(kind, a.role))
    else if a.source == 3 && a.role in {5, 8} && a.index !in facts.short then Refused(LongSignerText)
    else if kind == 7 && a.role == 4 && a.index !in facts.decimals then Refused(UnitDecimals)
    else if IsConstant(facts, a) && kind == 13 && a.role in {15, 17, 18} then Refused(EmbeddedConstant)
    else if IsConstant(facts, a) && a.role == 1 && kind != 1 then Refused(OnlyRawConstant)
    else Accepted
  }

  /** What the display checks need to know of a formatter. */
  datatype Reads = Reads(value: Option<nat>, any: bool, mixed: bool, constant: bool, seen: set<nat>)

  datatype ArgumentState = Stopped(verdict: Stop) | Reading(soFar: Reads)

  function ArgumentStep(facts: Facts, kind: nat, state: ArgumentState, a: Argument): ArgumentState {
    match state
    case Stopped(_) => state
    case Reading(r) =>
      match ArgumentVerdict(facts, kind, a)
      case Accepted =>
        var read := if a.source == 1 && a.index < |facts.paths| then facts.paths[a.index].iterated else None;
        Reading(Reads(
          if a.source == 1 && a.role == 1 then read else r.value,
          r.any || (a.source == 1 && read.Some?),
          r.mixed || (a.source == 1 && a.role != 1 && read != r.value),
          r.constant || (a.role == 1 && IsConstant(facts, a)),
          r.seen + {a.role}))
      case v => Stopped(v)
  }

  function ReadArgumentsState(facts: Facts, kind: nat, args: seq<Argument>): ArgumentState {
    if args == [] then Reading(Reads(None, false, false, false, {}))
    else ArgumentStep(facts, kind, ReadArgumentsState(facts, kind, args[..|args| - 1]), args[|args| - 1])
  }

  datatype FormatterFact = FormatterFact(value: Option<nat>, any: bool, mixed: bool, embedded: bool, constant: bool)

  datatype FormatterState = FormatterStopped(verdict: Stop) | FormatterOk(fact: FormatterFact)

  function FormatterCheck(facts: Facts, f: Formatter): FormatterState {
    if !KnownKind(f.kind) then FormatterStopped(Refused(FormatterKind(f.kind)))
    else
      match ReadArgumentsState(facts, f.kind, f.arguments)
      case Stopped(v) => FormatterStopped(v)
      case Reading(r) =>
        if !(Required(f.kind) <= r.seen) then FormatterStopped(Refused(RequiredArgument(f.kind)))
        else if f.kind == 13 && !facts.calldata then FormatterStopped(Refused(EmbeddedOutsideCalldata))
        else FormatterOk(FormatterFact(r.value, r.any, r.mixed, f.kind == 13, r.constant))
  }

  function FormattersVerdict(facts: Facts, fs: seq<Formatter>): Verdict {
    if fs == [] then Accepted
    else
      match FormatterCheck(facts, fs[0])
      case FormatterStopped(v) => v
      case FormatterOk(_) => FormattersVerdict(facts, fs[1..])
  }

  function FormatterFactOf(facts: Facts, f: Formatter): FormatterFact {
    match FormatterCheck(facts, f)
    case FormatterStopped(_) => FormatterFact(None, false, false, false, false)
    case FormatterOk(fact) => fact
  }

  function FormatterFacts(facts: Facts, fs: seq<Formatter>): (r: seq<FormatterFact>)
    ensures |r| == |fs|
    ensures forall i :: 0 <= i < |fs| ==> r[i] == FormatterFactOf(facts, fs[i])
  {
    seq(|fs|, i requires 0 <= i < |fs| => FormatterFactOf(facts, fs[i]))
  }

  // ---------------------------------------------------------------- displays

  predicate DisplayOpcodeKnown(opcode: nat) {
    1 <= opcode <= 8 || opcode == 10
  }

  /** The two variables of the display loop, or how it ended early. */
  datatype DisplayState = DisplayStopped(verdict: Stop) | Running(runClosed: bool, iteration: Option<nat>)

  function ValueStep(facts: Facts, formatters: seq<FormatterFact>, i: Instruction, iteration: Option<nat>): Verdict {
    var index := if i.opcode == 3 then i.a else i.b;
    if index >= |formatters| then Crashed
    else
      var f := formatters[index];
      if i.opcode == 3 && f.embedded then Refused(EmbeddedIntentValue)
      else if i.opcode == 3 && f.constant then Refused(ConstantIntentValue)
      else if i.opcode == 4 && i.a !in facts.short then Refused(LongLabel)
      else if f.any && iteration.None? then Refused(OutsideIteration)
      else if iteration.Some? && (f.value != iteration || f.mixed) then Refused(OtherArray)
      else Accepted
  }

  function DisplayStep(facts: Facts, formatters: seq<FormatterFact>, pc: nat, state: DisplayState,
      i: Instruction): DisplayState
  {
    match state
    case DisplayStopped(_) => state
    case Running(runClosed, iteration) =>
      if !DisplayOpcodeKnown(i.opcode) then DisplayStopped(Refused(DisplayOpcode(i.opcode)))
      else if (i.opcode == 1) != (pc == 0) then DisplayStopped(Refused(IntentFirst))
      else if pc > 0 && i.opcode in {2, 3} && runClosed then DisplayStopped(Refused(InterpolationRun))
      else
        var closed := runClosed || (pc > 0 && i.opcode !in {2, 3});
        if i.opcode == 7 then
          if !(i.a < |facts.paths| && facts.paths[i.a].iterable) || iteration.Some? || !facts.calldata then
            DisplayStopped(Refused(IterationNotHere))
          else Running(closed, facts.paths[i.a].iterated)
        else if i.opcode == 8 then Running(closed, None)
        else if i.opcode in {3, 4} then
          match ValueStep(facts, formatters, i, iteration)
          case Accepted => Running(closed, iteration)
          case v => DisplayStopped(v)
        else Running(closed, iteration)
  }

  /** The loop over the first instructions. */
  function DisplayRun(facts: Facts, formatters: seq<FormatterFact>, ds: seq<Instruction>): DisplayState {
    if ds == [] then Running(false, None)
    else DisplayStep(facts, formatters, |ds| - 1, DisplayRun(facts, formatters, ds[..|ds| - 1]), ds[|ds| - 1])
  }

  function DisplaysVerdict(facts: Facts, formatters: seq<FormatterFact>, ds: seq<Instruction>): Verdict {
    match DisplayRun(facts, formatters, ds)
    case DisplayStopped(v) => v
    case Running(_, _) => Accepted
  }

  // ------------------------------------------------------------------- whole

  /** The counts of `TABLE_LIMITS`, in its order. Absent sections count 0. */
  function LimitsVerdict(t: Tables): Verdict {
    if |t.strings| > 96 then Refused(TableLimit(1))
    else if |t.abi| > 64 then Refused(TableLimit(2))
    else if |t.paths| > 64 then Refused(TableLimit(3))
    else if |t.literals| > 64 then Refused(TableLimit(4))
    else if |t.conditions| > 32 then Refused(TableLimit(5))
    else if |t.formatters| > 64 then Refused(TableLimit(6))
    else if |t.displays| > 64 then Refused(TableLimit(7))
    else if |t.bindings| > 64 then Refused(TableLimit(8))
    else Accepted
  }

  function Then(v: Verdict, w: Verdict): Verdict {
    if v == Accepted then w else v
  }

  function FactsOf(t: Tables, calldata: bool): Facts {
    Facts(ShortStrings(t.strings), DateStrings(t.strings), LiteralClasses(t.literals), Decimals(t.literals),
          PathFacts(t.abi, t.paths), calldata)
  }

  /** `device_refusal`, table by table in its order. */
  function Check(t: Tables, calldata: bool): Verdict {
    var facts := FactsOf(t, calldata);
    Then(RowsVerdict(t.abi),
    Then(StringsVerdict(t.strings),
    Then(LiteralsVerdict(facts.short, t.literals),
    Then(LimitsVerdict(t),
    Then(PathsVerdict(t.abi, calldata, t.paths),
    Then(ConditionsVerdict(t.conditions),
    Then(FormattersVerdict(facts, t.formatters),
         DisplaysVerdict(facts, FormatterFacts(facts, t.formatters), t.displays))))))))
  }
}
