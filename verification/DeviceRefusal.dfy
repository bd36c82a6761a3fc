/** `device_refusal` (keepkeylib/erc7730_compiler.py) on the bytes of a program:
    the cursor loops, each against what the tables say. */
module DeviceRefusal {
  import opened Wrappers
  import opened Bytes
  import opened AbiTypes
  import opened FlatAbi
  import opened AbiPaths
  import opened Program
  import opened ProgramCodec
  import opened DeviceRules
  import AbiWalk
  import Utf8

  /** A cursor in front of entry `i` of a table whose entries are `all`. */
  ghost predicate At<T(!new)>(read: (bytes, nat) -> Result<(T, nat)>, section: bytes, all: seq<T>, i: nat, at: nat) {
    i <= |all| && exists end :: ReadMany(read, section, at, |all| - i) == Ok((all[i..], end))
  }

  lemma AtFirst<T(!new)>(read: (bytes, nat) -> Result<(T, nat)>, section: bytes)
    requires ReadTable(read, section).Ok?
    ensures ReadU16(section, 0) == Ok(|ReadTable(read, section).value.0|)
    ensures At(read, section, ReadTable(read, section).value.0, 0, 2)
  {
    var (all, end) := ReadTable(read, section).value;
    assert all[0..] == all;
    assert ReadMany(read, section, 2, |all| - 0) == Ok((all[0..], end));
  }

  lemma AtNext<T(!new)>(read: (bytes, nat) -> Result<(T, nat)>, section: bytes, all: seq<T>, i: nat, at: nat)
    requires At(read, section, all, i, at) && i < |all|
    ensures read(section, at).Ok? && read(section, at).value.0 == all[i]
    ensures At(read, section, all, i + 1, read(section, at).value.1)
  {
    var end :| ReadMany(read, section, at, |all| - i) == Ok((all[i..], end));
    var (first, next) := read(section, at).value;
    var rest := ReadMany(read, section, next, |all| - i - 1).value.0;
    assert all[i..] == [first] + rest;
    assert all[i] == all[i..][0] && all[i + 1..] == all[i..][1..] == rest;
    assert ReadMany(read, section, next, |all| - (i + 1)) == Ok((all[i + 1..], end));
  }

  /** The entries of a table that can be read. */
  ghost function Entries<T(!new)>(read: (bytes, nat) -> Result<(T, nat)>, section: bytes): seq<T> {
    match ReadTable(read, section)
    case Ok((all, _)) => all
    case Raised => []
  }

  ghost predicate Readable<T(!new)>(read: (bytes, nat) -> Result<(T, nat)>, section: bytes) {
    ReadTable(read, section).Ok?
  }

  lemma SuffixHead<T>(all: seq<T>, i: nat)
    requires i < |all|
    ensures all[i..][0] == all[i] && all[i..][1..] == all[i + 1..]
  {
  }

  // ------------------------------------------------------------------ strings

  method CheckStrings(section: bytes) returns (v: Verdict, short: set<nat>, dates: set<nat>)
    ensures Readable(ReadString, section) ==> v == StringsVerdict(Entries(ReadString, section))
    ensures Readable(ReadString, section) && v == Accepted ==>
              short == ShortStrings(Entries(ReadString, section)) && dates == DateStrings(Entries(ReadString, section))
  {
    hide ReadString, ReadTable, At;
    short, dates := {}, {};
    ghost var ok, all := Readable(ReadString, section), Entries(ReadString, section);
    if ok {
      AtFirst(ReadString, section);
    }
    var count := ReadU16(section, 0);
    if count.Raised? {
      return Crashed, short, dates;
    }
    var at := 2;
    for i := 0 to count.value
      invariant ok ==> |all| == count.value && At(ReadString, section, all, i, at)
      invariant ok ==> StringsVerdict(all) == StringsVerdict(all[i..])
      invariant ok ==> short == set k: nat | k < i && IsShort(all[k])
      invariant ok ==> dates == set k: nat | k < i && IsDateEncoding(all[k])
    {
      if ok {
        AtNext(ReadString, section, all, i, at);
        SuffixHead(all, i);
      }
      var entry := ReadString(section, at);
      if entry.Raised? {
        return Crashed, short, dates;
      }
      var text := entry.value.0;
      if !Utf8.Printable(text) {
        return Refused(UnprintableString), short, dates;
      }
      if IsShort(text) {
        short := short + {i};
      }
      if IsDateEncoding(text) {
        dates := dates + {i};
      }
      at := entry.value.1;
    }
    v := Accepted;
  }

  // ----------------------------------------------------------------- literals

  method CheckLiterals(section: bytes, short: set<nat>) returns (v: Verdict, classes: seq<nat>, decimals: set<nat>)
    ensures Readable(ReadLiteral, section) ==> v == LiteralsVerdict(short, Entries(ReadLiteral, section))
    ensures Readable(ReadLiteral, section) && v == Accepted ==>
              classes == LiteralClasses(Entries(ReadLiteral, section))
              && decimals == Decimals(Entries(ReadLiteral, section))
  {
    hide ReadLiteral, ReadTable, At, LiteralVerdict, LiteralClass;
    classes, decimals := [], {};
    ghost var ok, all := Readable(ReadLiteral, section), Entries(ReadLiteral, section);
    if ok {
      AtFirst(ReadLiteral, section);
    }
    var count := ReadU16(section, 0);
    if count.Raised? {
      return Crashed, classes, decimals;
    }
    var at := 2;
    for i := 0 to count.value
      invariant |classes| == i
      invariant ok ==> |all| == count.value && At(ReadLiteral, section, all, i, at)
      invariant ok ==> LiteralsVerdict(short, all) == LiteralsVerdict(short, all[i..])
      invariant ok ==> forall k :: 0 <= k < i ==> classes[k] == LiteralClass(all[k])
      invariant ok ==> decimals == set k: nat | k < i && IsDecimals(all[k])
    {
      if ok {
        AtNext(ReadLiteral, section, all, i, at);
        SuffixHead(all, i);
      }
      var entry := ReadLiteral(section, at);
      if entry.Raised? {
        return Crashed, classes, decimals;
      }
      var literal := entry.value.0;
      if IsDecimals(literal) {
        decimals := decimals + {i};
      }
      v := LiteralVerdict(short, literal);
      if v != Accepted {
        return;
      }
      classes := classes + [LiteralClass(literal)];
      at := entry.value.1;
    }
    v := Accepted;
  }

  // ------------------------------------------------------------------- limits

  function LimitOf(kind: nat): nat {
    if kind == 1 then 96 else if kind == 5 then 32 else 64
  }

  function CountOf(t: Tables, kind: nat): nat {
    if kind == 1 then |t.strings|
    else if kind == 2 then |t.abi|
    else if kind == 3 then |t.paths|
    else if kind == 4 then |t.literals|
    else if kind == 5 then |t.conditions|
    else if kind == 6 then |t.formatters|
    else if kind == 7 then |t.displays|
    else |t.bindings|
  }

  lemma LimitsUpTo(t: Tables, k: nat)
    requires 1 <= k <= 9 && forall j :: 1 <= j < k ==> CountOf(t, j) <= LimitOf(j)
    ensures k < 9 && CountOf(t, k) > LimitOf(k) ==> LimitsVerdict(t) == Refused(TableLimit(k))
    ensures k == 9 ==> LimitsVerdict(t) == Accepted
  {
    assert forall j {:trigger LimitOf(j)} :: 1 <= j < k ==> CountOf(t, j) <= LimitOf(j);
    assert LimitOf(1) == 96 && LimitOf(2) == 64 && LimitOf(3) == 64 && LimitOf(4) == 64 && LimitOf(5) == 32
           && LimitOf(6) == 64 && LimitOf(7) == 64 && LimitOf(8) == 64;
  }

  /** The counts the sections start with are those of the decoded tables. */
  lemma CountsRead(sections: map<Byte, bytes>, t: Tables, kind: Byte)
    requires DecodeSections(sections) == Ok(t) && 1 <= kind <= 8
    ensures ReadU16(Lookup(sections, kind), 0) == Ok(CountOf(t, kind))
  {
    hide ReadString, ReadRow, ReadPath, ReadLiteral, ReadCondition, ReadFormatter, ReadInstruction, ReadMany, Lookup;
  }

  method CheckLimits(sections: map<Byte, bytes>) returns (v: Verdict)
    ensures DecodeSections(sections).Ok? ==> v == LimitsVerdict(DecodeSections(sections).value)
  {
    hide DecodeSections, Lookup, LimitsVerdict, LimitOf, CountOf;
    ghost var ok := DecodeSections(sections).Ok?;
    ghost var t := if ok then DecodeSections(sections).value else Tables([], [], [], [], [], [], [], [], []);
    for kind := 1 to 9
      invariant ok ==> forall j :: 1 <= j < kind ==> CountOf(t, j) <= LimitOf(j)
    {
      if ok {
        CountsRead(sections, t, kind);
        LimitsUpTo(t, kind);
      }
      var count := ReadU16(Lookup(sections, kind), 0);
      if count.Raised? {
        return Crashed;
      }
      if count.value > LimitOf(kind) {
        return Refused(TableLimit(kind));
      }
    }
    if ok {
      LimitsUpTo(t, 9);
    }
    return Accepted;
  }

  // -------------------------------------------------------------------- paths

  lemma StepsNext(section: bytes, at: nat, n: nat, all: seq<Step>, i: nat, end: nat)
    requires i < |all| == n && ReadSteps(section, at, n - i) == Ok((all[i..], end))
    ensures ReadStep(section, at).Ok? && ReadStep(section, at).value.0 == all[i]
    ensures ReadSteps(section, ReadStep(section, at).value.1, n - (i + 1)) == Ok((all[i + 1..], end))
  {
    var (first, next) := ReadStep(section, at).value;
    var rest := ReadSteps(section, next, n - i - 1).value.0;
    assert all[i..] == [first] + rest;
    assert all[i + 1..] == all[i..][1..] == rest;
  }

  lemma {:induction false} StepsCounted(section: bytes, at: nat, n: nat)
    requires ReadSteps(section, at, n).Ok?
    ensures |ReadSteps(section, at, n).value.0| == n
    decreases n
  {
    if n > 0 {
      StepsCounted(section, ReadStep(section, at).value.1, n - 1);
    }
  }

  /** The verdict on `n` steps as bytes, whether or not they decode. */
  function StepBytesVerdict(section: bytes, at: nat, n: nat): Verdict
    decreases n
  {
    if n == 0 then Accepted
    else
      match ReadByte(section, at)
      case Raised => Crashed
      case Ok(opcode) =>
        if opcode == 1 then
          if ReadI32(section, at + 1).Raised? then Crashed else StepBytesVerdict(section, at + 5, n - 1)
        else if opcode == 2 then StepBytesVerdict(section, at + 1, n - 1)
        else Refused(StepOpcode(opcode))
  }

  /** Behind steps that are executed, any other opcode is refused by its number,
      be it a slice's or one that no step has. */
  lemma {:induction false} BadStepRefused(section: bytes, from: nat, n: nat, i: nat)
    requires i < n && ReadSteps(section, from, i).Ok?
    requires StepsVerdict(ReadSteps(section, from, i).value.0) == Accepted
    requires ReadByte(section, ReadSteps(section, from, i).value.1).Ok?
    ensures var opcode := ReadByte(section, ReadSteps(section, from, i).value.1).value;
            opcode !in {1, 2} ==> StepBytesVerdict(section, from, n) == Refused(StepOpcode(opcode))
    decreases i
  {
    hide ReadI32, ReadByte;
    if i > 0 {
      var (step, next) := ReadStep(section, from).value;
      var steps := ReadSteps(section, from, i).value.0;
      assert steps == [step] + ReadSteps(section, next, i - 1).value.0;
      assert steps[0] == step && steps[1..] == ReadSteps(section, next, i - 1).value.0;
      BadStepRefused(section, next, n - 1, i - 1);
    }
  }

  /** The step loop: a slice is refused before its bounds are read. */
  method CheckSteps(section: bytes, from: nat, count: nat) returns (v: Verdict, steps: seq<Step>, at: nat)
    ensures v == StepBytesVerdict(section, from, count)
    ensures ReadSteps(section, from, count).Ok? ==>
              var (all, end) := ReadSteps(section, from, count).value;
              v == StepsVerdict(all) && (v == Accepted ==> steps == all && at == end)
  {
    hide ReadI32;
    steps, at := [], from;
    ghost var ok := ReadSteps(section, from, count).Ok?;
    ghost var (all, end) := if ok then ReadSteps(section, from, count).value else ([], 0);
    if ok {
      StepsCounted(section, from, count);
    }
    assert all[0..] == all;
    for i := 0 to count
      invariant ok ==> |all| == count && ReadSteps(section, at, count - i) == Ok((all[i..], end))
      invariant ok ==> steps == all[..i] && StepsVerdict(all) == StepsVerdict(all[i..])
      invariant StepBytesVerdict(section, from, count) == StepBytesVerdict(section, at, count - i)
    {
      if ok {
        StepsNext(section, at, count, all, i, end);
        SuffixHead(all, i);
      }
      var opcode := ReadByte(section, at);
      if opcode.Raised? {
        return Crashed, steps, at;
      }
      if opcode.value == 1 {
        var index := ReadI32(section, at + 1);
        if index.Raised? {
          return Crashed, steps, at;
        }
        steps := steps + [Index(index.value)];
        at := at + 5;
      } else if opcode.value == 2 {
        steps := steps + [Iterate];
        at := at + 1;
      } else {
        return Refused(StepOpcode(opcode.value)), steps, at;
      }
    }
    v := Accepted;
  }

  /** One path: its source, its steps, and where they lead. */
  method CheckPath(section: bytes, from: nat, rows: seq<Row>, calldata: bool)
    returns (v: Verdict, fact: PathFact, at: nat)
    ensures ReadPath(section, from).Ok? ==>
              var (path, end) := ReadPath(section, from).value;
              v == PathVerdict(rows, calldata, path) && (v == Accepted ==> fact == PathFactOf(rows, path) && at == end)
    ensures ReadByte(section, from) == Ok(1) && ReadByte(section, from + 1).Ok? && ReadU16(section, from + 2).Ok? ==>
              var steps := StepBytesVerdict(section, from + 4, ReadByte(section, from + 1).value);
              steps != Accepted ==> v == steps
  {
    hide ReadSteps, AbiWalk.AbiWalk, StepsVerdict;
    fact, at := PathFact(Direct(0), None, false), from + 4;
    var source, count, index := ReadByte(section, from), ReadByte(section, from + 1), ReadU16(section, from + 2);
    if source.Raised? || count.Raised? || index.Raised? {
      return Crashed, fact, at;
    }
    if source.value !in {1, 2, 3} {
      return Refused(PathSource(source.value)), fact, at;
    }
    if source.value == 2 && (index.value !in {1, 2, 3} || !calldata) {
      return Refused(Container(index.value)), fact, at;
    }
    if source.value == 3 && index.value >= 64 {
      return Refused(LiteralBeyondTable), fact, at;
    }
    var stepped, steps, end := CheckSteps(section, at, count.value);
    if source.value != 1 {
      NoSteps(section, at);
      fact := if source.value == 2 then PathFact(Direct(if index.value == 3 then UINT else ADDRESS), None, false)
              else PathFact(OfLiteral(index.value), None, false);
      return stepped, fact, end;
    }
    if stepped != Accepted {
      return stepped, fact, end;
    }
    if Iterations(steps) > 1 {
      return Refused(IteratesTwice), fact, end;
    }
    var outcome := AbiWalk.WalkLoop(rows, steps);
    match outcome {
      case Refused(reason) => return Refused(WalkRefused(reason)), fact, end;
      case Reached(leaf, iterated) =>
        return Accepted, PathFact(Direct(leaf), iterated, steps != [] && steps[|steps| - 1].Iterate?), end;
    }
  }

  lemma NoSteps(section: bytes, at: nat)
    ensures ReadSteps(section, at, 0) == Ok(([], at)) && StepsVerdict([]) == Accepted
  {
  }

  method CheckPaths(section: bytes, rows: seq<Row>, calldata: bool) returns (v: Verdict, facts: seq<PathFact>)
    ensures Readable(ReadPath, section) ==> v == PathsVerdict(rows, calldata, Entries(ReadPath, section))
    ensures Readable(ReadPath, section) && v == Accepted ==> facts == PathFacts(rows, Entries(ReadPath, section))
  {
    hide ReadPath, ReadTable, At, PathVerdict, PathFactOf;
    facts := [];
    ghost var ok, all := Readable(ReadPath, section), Entries(ReadPath, section);
    if ok {
      AtFirst(ReadPath, section);
    }
    var count := ReadU16(section, 0);
    if count.Raised? {
      return Crashed, facts;
    }
    var at := 2;
    for i := 0 to count.value
      invariant |facts| == i
      invariant ok ==> |all| == count.value && At(ReadPath, section, all, i, at)
      invariant ok ==> PathsVerdict(rows, calldata, all) == PathsVerdict(rows, calldata, all[i..])
      invariant ok ==> forall k :: 0 <= k < i ==> facts[k] == PathFactOf(rows, all[k])
    {
      if ok {
        AtNext(ReadPath, section, all, i, at);
        SuffixHead(all, i);
      }
      var fact: PathFact;
      v, fact, at := CheckPath(section, at, rows, calldata);
      if v != Accepted {
        return;
      }
      facts := facts + [fact];
    }
    v := Accepted;
  }

  // --------------------------------------------------------------- conditions

  method CheckConditions(section: bytes) returns (v: Verdict)
    ensures Readable(ReadCondition, section) ==> v == ConditionsVerdict(Entries(ReadCondition, section))
  {
    hide ReadTable, At;
    ghost var ok, all := Readable(ReadCondition, section), Entries(ReadCondition, section);
    if ok {
      AtFirst(ReadCondition, section);
    }
    var count := ReadU16(section, 0);
    if count.Raised? {
      return Crashed;
    }
    for i := 0 to count.value
      invariant ok ==> |all| == count.value && At(ReadCondition, section, all, i, 2 + 8 * i)
      invariant ok ==> ConditionsVerdict(all) == ConditionsVerdict(all[i..])
    {
      if ok {
        AtNext(ReadCondition, section, all, i, 2 + 8 * i);
        SuffixHead(all, i);
      }
      var opcode := ReadByte(section, 2 + 8 * i);
      if opcode.Raised? {
        return Crashed;
      }
      if opcode.value != 3 {
        return Refused(ConditionOpcode(opcode.value));
      }
    }
    return Accepted;
  }

  // --------------------------------------------------------------- formatters

  lemma ArgumentsNext(section: bytes, at: nat, n: nat, all: seq<Argument>, i: nat, end: nat)
    requires i < |all| == n && ReadArguments(section, at, n - i) == Ok((all[i..], end))
    ensures ReadArgument(section, at).Ok? && ReadArgument(section, at).value.0 == all[i]
    ensures ReadArguments(section, ReadArgument(section, at).value.1, n - (i + 1)) == Ok((all[i + 1..], end))
  {
    var (first, next) := ReadArgument(section, at).value;
    var rest := ReadArguments(section, next, n - i - 1).value.0;
    assert all[i..] == [first] + rest;
    assert all[i + 1..] == all[i..][1..] == rest;
  }

  lemma {:induction false} ArgumentsCounted(section: bytes, at: nat, n: nat)
    requires ReadArguments(section, at, n).Ok?
    ensures |ReadArguments(section, at, n).value.0| == n
    decreases n
  {
    if n > 0 {
      ArgumentsCounted(section, ReadArgument(section, at).value.1, n - 1);
    }
  }

  /** Once stopped, the argument loop's state stays. */
  lemma {:induction false} StoppedArguments(facts: Facts, kind: nat, args: seq<Argument>, i: nat)
    requires i <= |args| && ReadArgumentsState(facts, kind, args[..i]).Stopped?
    ensures ReadArgumentsState(facts, kind, args) == ReadArgumentsState(facts, kind, args[..i])
    decreases |args|
  {
    if i == |args| {
      assert args[..i] == args;
    } else {
      assert args[..|args| - 1][..i] == args[..i];
      StoppedArguments(facts, kind, args[..|args| - 1], i);
    }
  }

  /** The argument loop. */
  method CheckArguments(section: bytes, from: nat, count: nat, facts: Facts, kind: nat)
    returns (state: ArgumentState, at: nat)
    ensures ReadArguments(section, from, count).Ok? ==>
              var (all, end) := ReadArguments(section, from, count).value;
              state == ReadArgumentsState(facts, kind, all) && (state.Reading? ==> at == end)
  {
    hide ReadArgument, ArgumentStep;
    at := from;
    state := Reading(Reads(None, false, false, false, {}));
    ghost var ok := ReadArguments(section, from, count).Ok?;
    ghost var (all, end) := if ok then ReadArguments(section, from, count).value else ([], 0);
    if ok {
      ArgumentsCounted(section, from, count);
    }
    assert all[0..] == all && all[..0] == [];
    for i := 0 to count
      invariant ok ==> |all| == count && ReadArguments(section, at, count - i) == Ok((all[i..], end))
      invariant ok ==> state == ReadArgumentsState(facts, kind, all[..i])
    {
      if ok {
        ArgumentsNext(section, at, count, all, i, end);
        assert all[..i + 1][..i] == all[..i];
      }
      var argument := ReadArgument(section, at);
      if argument.Raised? {
        return Stopped(Crashed), at;
      }
      state := ArgumentStep(facts, kind, state, argument.value.0);
      if state.Stopped? {
        if ok {
          StoppedArguments(facts, kind, all, i + 1);
        }
        return;
      }
      at := argument.value.1;
    }
    assert ok ==> all[..count] == all;
  }

  method CheckFormatter(section: bytes, from: nat, facts: Facts) returns (state: FormatterState, at: nat)
    ensures ReadFormatter(section, from).Ok? ==>
              var (f, end) := ReadFormatter(section, from).value;
              state == FormatterCheck(facts, f) && (state.FormatterOk? ==> at == end)
  {
    hide ReadArguments, ReadArgumentsState;
    at := from + 3;
    var kind, count := ReadByte(section, from), ReadByte(section, from + 2);
    if kind.Raised? || count.Raised? {
      return FormatterStopped(Crashed), at;
    }
    if !KnownKind(kind.value) {
      return FormatterStopped(Refused(FormatterKind(kind.value))), at;
    }
    var arguments: ArgumentState;
    arguments, at := CheckArguments(section, at, count.value, facts, kind.value);
    match arguments {
      case Stopped(v) => return FormatterStopped(v), at;
      case Reading(r) =>
        if !(Required(kind.value) <= r.seen) {
          return FormatterStopped(Refused(RequiredArgument(kind.value))), at;
        }
        if kind.value == 13 && !facts.calldata {
          return FormatterStopped(Refused(EmbeddedOutsideCalldata)), at;
        }
        return FormatterOk(FormatterFact(r.value, r.any, r.mixed, kind.value == 13, r.constant)), at;
    }
  }

  method CheckFormatters(section: bytes, facts: Facts) returns (v: Verdict, formatters: seq<FormatterFact>)
    ensures Readable(ReadFormatter, section) ==> v == FormattersVerdict(facts, Entries(ReadFormatter, section))
    ensures Readable(ReadFormatter, section) && v == Accepted ==>
              formatters == FormatterFacts(facts, Entries(ReadFormatter, section))
  {
    hide ReadFormatter, ReadTable, At, FormatterCheck;
    formatters := [];
    ghost var ok, all := Readable(ReadFormatter, section), Entries(ReadFormatter, section);
    if ok {
      AtFirst(ReadFormatter, section);
    }
    var count := ReadU16(section, 0);
    if count.Raised? {
      return Crashed, formatters;
    }
    var at := 2;
    for i := 0 to count.value
      invariant |formatters| == i
      invariant ok ==> |all| == count.value && At(ReadFormatter, section, all, i, at)
      invariant ok ==> FormattersVerdict(facts, all) == FormattersVerdict(facts, all[i..])
      invariant ok ==> forall k :: 0 <= k < i ==> formatters[k] == FormatterFactOf(facts, all[k])
    {
      if ok {
        AtNext(ReadFormatter, section, all, i, at);
        SuffixHead(all, i);
      }
      var state: FormatterState;
      state, at := CheckFormatter(section, at, facts);
      match state {
        case FormatterStopped(stop) => return stop, formatters;
        case FormatterOk(fact) => formatters := formatters + [fact];
      }
    }
    v := Accepted;
  }

  // ----------------------------------------------------------------- displays

  lemma {:induction false} StoppedDisplays(facts: Facts, formatters: seq<FormatterFact>, ds: seq<Instruction>, i: nat)
    requires i <= |ds| && DisplayRun(facts, formatters, ds[..i]).DisplayStopped?
    ensures DisplayRun(facts, formatters, ds) == DisplayRun(facts, formatters, ds[..i])
    decreases |ds|
  {
    if i == |ds| {
      assert ds[..i] == ds;
    } else {
      assert ds[..|ds| - 1][..i] == ds[..i];
      StoppedDisplays(facts, formatters, ds[..|ds| - 1], i);
    }
  }

  method CheckDisplays(section: bytes, facts: Facts, formatters: seq<FormatterFact>) returns (v: Verdict)
    ensures Readable(ReadInstruction, section) ==>
              v == DisplaysVerdict(facts, formatters, Entries(ReadInstruction, section))
  {
    hide ReadTable, At, DisplayStep;
    ghost var ok, all := Readable(ReadInstruction, section), Entries(ReadInstruction, section);
    if ok {
      AtFirst(ReadInstruction, section);
    }
    var count := ReadU16(section, 0);
    if count.Raised? {
      return Crashed;
    }
    var state := Running(false, None);
    assert all[..0] == [];
    for pc := 0 to count.value
      invariant ok ==> |all| == count.value && At(ReadInstruction, section, all, pc, 2 + 8 * pc)
      invariant state.Running? && (ok ==> state == DisplayRun(facts, formatters, all[..pc]))
    {
      if ok {
        AtNext(ReadInstruction, section, all, pc, 2 + 8 * pc);
        assert all[..pc + 1][..pc] == all[..pc];
      }
      var instruction := ReadInstruction(section, 2 + 8 * pc);
      if instruction.Raised? {
        return Crashed;
      }
      state := DisplayStep(facts, formatters, pc, state, instruction.value.0);
      match state {
        case DisplayStopped(stop) =>
          if ok {
            StoppedDisplays(facts, formatters, all, pc + 1);
          }
          return stop;
        case Running(_, _) =>
      }
    }
    assert ok ==> all[..count.value] == all;
    return Accepted;
  }

  // -------------------------------------------------------------------- whole

  lemma DecodedParts(sections: map<Byte, bytes>)
    requires DecodeSections(sections).Ok?
    ensures var t := DecodeSections(sections).value;
            && Readable(ReadRow, Lookup(sections, 2)) && Entries(ReadRow, Lookup(sections, 2)) == t.abi
            && Readable(ReadString, Lookup(sections, 1)) && Entries(ReadString, Lookup(sections, 1)) == t.strings
            && Readable(ReadLiteral, Lookup(sections, 4)) && Entries(ReadLiteral, Lookup(sections, 4)) == t.literals
            && Readable(ReadPath, Lookup(sections, 3)) && Entries(ReadPath, Lookup(sections, 3)) == t.paths
            && Readable(ReadCondition, Lookup(sections, 5))
            && Entries(ReadCondition, Lookup(sections, 5)) == t.conditions
            && Readable(ReadFormatter, Lookup(sections, 6))
            && Entries(ReadFormatter, Lookup(sections, 6)) == t.formatters
            && Readable(ReadInstruction, Lookup(sections, 7))
            && Entries(ReadInstruction, Lookup(sections, 7)) == t.displays
  {
    hide ReadTable, Lookup;
  }

  /** `device_refusal`: on every program whose tables can be read, it decides
      what the tables' checks say. */
  method Refusal(program: bytes) returns (v: Verdict)
    ensures Decode(program).Ok? && 7 < |program| ==> v == Check(Decode(program).value, program[7] == 1)
  {
    hide DecodeSections, RowsVerdict, StringsVerdict, LiteralsVerdict, LimitsVerdict, PathsVerdict, ConditionsVerdict,
      FormattersVerdict, DisplaysVerdict, Readable, Entries, Lookup, FactsOf;
    var read := ProgramSections(program);
    if read.Raised? || |program| <= 7 {
      return Crashed;
    }
    var sections, calldata := read.value, program[7] == 1;
    v := SectionsRefusal(sections, calldata);
  }

  method SectionsRefusal(sections: map<Byte, bytes>, calldata: bool) returns (v: Verdict)
    ensures DecodeSections(sections).Ok? ==> v == Check(DecodeSections(sections).value, calldata)
  {
    hide DecodeSections, RowsVerdict, StringsVerdict, LiteralsVerdict, LimitsVerdict, PathsVerdict, ConditionsVerdict,
      FormattersVerdict, DisplaysVerdict, Readable, Entries, Lookup, ReadTable, ShortStrings, DateStrings,
      LiteralClasses, Decimals, PathFacts, FormatterFacts;
    ghost var ok := DecodeSections(sections).Ok?;
    if ok {
      DecodedParts(sections);
    }
    var rows: seq<Row>;
    v, rows := CheckRows(Lookup(sections, 2));
    if v != Accepted {
      return;
    }
    var short, dates;
    v, short, dates := CheckStrings(Lookup(sections, 1));
    if v != Accepted {
      return;
    }
    var classes, decimals;
    v, classes, decimals := CheckLiterals(Lookup(sections, 4), short);
    if v != Accepted {
      return;
    }
    v := CheckLimits(sections);
    if v != Accepted {
      return;
    }
    var paths;
    v, paths := CheckPaths(Lookup(sections, 3), rows, calldata);
    if v != Accepted {
      return;
    }
    v := CheckConditions(Lookup(sections, 5));
    if v != Accepted {
      return;
    }
    var facts := Facts(short, dates, classes, decimals, paths, calldata);
    var formatters;
    v, formatters := CheckFormatters(Lookup(sections, 6), facts);
    if v != Accepted {
      return;
    }
    v := CheckDisplays(Lookup(sections, 7), facts, formatters);
  }

  method CheckRows(section: bytes) returns (v: Verdict, rows: seq<Row>)
    ensures Readable(ReadRow, section) ==>
              v == RowsVerdict(Entries(ReadRow, section)) && rows == Entries(ReadRow, section)
  {
    hide ReadTable, ReadRow;
    rows := [];
    var table := ReadTable(ReadRow, section);
    if table.Raised? {
      return Crashed, rows;
    }
    rows := table.value.0;
    for i := 0 to |rows|
      invariant RowsVerdict(rows) == RowsVerdict(rows[i..])
    {
      SuffixHead(rows, i);
      if !RowAllowed(rows[i]) {
        return Refused(ArraySize), rows;
      }
    }
    return Accepted, rows;
  }
}
