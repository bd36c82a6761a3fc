/** The C773 program (keepkeylib/erc7730_compiler.py): its tables, how
    `CalldataCompiler.compile` serialises them, and how the device's cursors
    read them back. */
module Program {
  import opened Wrappers
  import opened Bytes
  import opened AbiTypes
  import opened FlatAbi
  import opened AbiPaths

  const HEADER_SIZE: nat := 179

  datatype Literal = Literal(kind: nat, value: bytes)
  datatype Condition = Condition(opcode: nat, path: nat, literals: nat)
  datatype Argument = Argument(role: nat, source: nat, index: nat)
  datatype Formatter = Formatter(kind: nat, arguments: seq<Argument>)
  datatype Instruction = Instruction(opcode: nat, a: nat, b: nat, c: nat)

  /** The tables a program is built from. A binding has a literal's shape: a
      kind and a length-prefixed value. The resource summary is opaque to the
      device checks and kept as bytes. */
  datatype Tables = Tables(
    strings: seq<bytes>,
    abi: seq<Row>,
    paths: seq<Path>,
    literals: seq<Literal>,
    conditions: seq<Condition>,
    formatters: seq<Formatter>,
    displays: seq<Instruction>,
    bindings: seq<Literal>,
    resources: bytes)

  predicate IsU16(n: nat) {
    n < 0x1_0000
  }

  predicate IsByte(n: nat) {
    n < 0x100
  }

  // ---------------------------------------------------- what can be encoded

  predicate StringFits(s: bytes) {
    IsU16(|s|)
  }

  predicate RowFits(r: Row) {
    IsByte(r.kind) && IsU16(r.size) && IsU16(r.first) && IsU16(r.count) && IsU16(r.length)
  }

  predicate LiteralFits(l: Literal) {
    IsByte(l.kind) && IsU16(|l.value|)
  }

  predicate StepFits(s: Step) {
    match s
    case Index(i) => IsI32(i)
    case Iterate => true
    case Slice(flags, start, end) =>
      flags < 4 && IsI32(start) && IsI32(end)
      && (flags % 2 == 0 ==> start == 0) && (flags < 2 ==> end == 0)
  }

  function Iterations(steps: seq<Step>): nat {
    if steps == [] then 0
    else Iterations(steps[..|steps| - 1]) + if steps[|steps| - 1].Iterate? then 1 else 0
  }

  predicate StepsFit(steps: seq<Step>) {
    steps == [] || (StepFits(steps[0]) && StepsFit(steps[1..]))
  }

  /** The path limits `compile` checks while serialising. */
  predicate PathFits(p: Path) {
    match p
    case AbiPath(steps) =>
      |steps| < 8 && Iterations(steps) <= 1 && StepsFit(steps)
    case ContainerPath(id) => IsU16(id)
    case LiteralPath(index) => IsU16(index)
  }

  predicate ConditionFits(c: Condition) {
    IsByte(c.opcode) && IsU16(c.path) && IsU16(c.literals)
  }

  predicate ArgumentFits(a: Argument) {
    IsByte(a.role) && IsByte(a.source) && IsU16(a.index)
  }

  predicate ArgumentsFit(args: seq<Argument>) {
    args == [] || (ArgumentFits(args[0]) && ArgumentsFit(args[1..]))
  }

  predicate FormatterFits(f: Formatter) {
    IsByte(f.kind) && IsByte(|f.arguments|) && ArgumentsFit(f.arguments)
  }

  predicate InstructionFits(i: Instruction) {
    IsByte(i.opcode) && IsU16(i.a) && IsU16(i.b) && IsU16(i.c)
  }

  predicate Encodable(t: Tables) {
    && |t.strings| < 0x1_0000 && |t.abi| < 0x1_0000 && |t.paths| < 0x1_0000 && |t.literals| < 0x1_0000
    && |t.conditions| < 0x1_0000 && |t.formatters| < 0x1_0000 && |t.displays| < 0x1_0000 && |t.bindings| < 0x1_0000
    && (forall i :: 0 <= i < |t.strings| ==> StringFits(t.strings[i]))
    && (forall i :: 0 <= i < |t.abi| ==> RowFits(t.abi[i]))
    && (forall i :: 0 <= i < |t.paths| ==> PathFits(t.paths[i]))
    && (forall i :: 0 <= i < |t.literals| ==> LiteralFits(t.literals[i]))
    && (forall i :: 0 <= i < |t.conditions| ==> ConditionFits(t.conditions[i]))
    && (forall i :: 0 <= i < |t.formatters| ==> FormatterFits(t.formatters[i]))
    && (forall i :: 0 <= i < |t.displays| ==> InstructionFits(t.displays[i]))
    && (forall i :: 0 <= i < |t.bindings| ==> LiteralFits(t.bindings[i]))
  }

  // -------------------------------------------------------------- encoders

  function EncodeString(s: bytes): bytes
    requires StringFits(s)
  {
    U16(|s|) + s
  }

  function EncodeRow(r: Row): bytes
    requires RowFits(r)
  {
    [r.kind] + (U16(r.size) + (U16(r.first) + (U16(r.count) + U16(r.length))))
  }

  function EncodeLiteral(l: Literal): bytes
    requires LiteralFits(l)
  {
    [l.kind] + (U16(|l.value|) + l.value)
  }

  function EncodeStep(s: Step): bytes
    requires StepFits(s)
  {
    match s
    case Index(i) => [1] + I32(i)
    case Iterate => [2]
    case Slice(flags, start, end) =>
      [3, flags] + (Bound(flags % 2 == 1, start) + Bound(flags >= 2, end))
  }

  function EncodeSteps(steps: seq<Step>): bytes
    requires StepsFit(steps)
  {
    if steps == [] then [] else EncodeStep(steps[0]) + EncodeSteps(steps[1..])
  }

  function EncodePath(p: Path): bytes
    requires PathFits(p)
  {
    match p
    case LiteralPath(index) => [3, 0] + U16(index)
    case ContainerPath(id) => [2, 0] + U16(id)
    case AbiPath(steps) => [1, |steps|] + (U16(ABSENT) + EncodeSteps(steps))
  }

  function EncodeCondition(c: Condition): bytes
    requires ConditionFits(c)
  {
    [c.opcode] + (U16(c.path) + (U16(c.literals) + ([0] + U16(0))))
  }

  function EncodeArgument(a: Argument): bytes
    requires ArgumentFits(a)
  {
    [a.role, a.source] + U16(a.index)
  }

  function EncodeArguments(args: seq<Argument>): bytes
    requires ArgumentsFit(args)
  {
    if args == [] then [] else EncodeArgument(args[0]) + EncodeArguments(args[1..])
  }

  function EncodeFormatter(f: Formatter): bytes
    requires FormatterFits(f)
  {
    [f.kind, 0, |f.arguments|] + EncodeArguments(f.arguments)
  }

  function EncodeInstruction(i: Instruction): bytes
    requires InstructionFits(i)
  {
    [i.opcode, 0] + (U16(i.a) + (U16(i.b) + U16(i.c)))
  }

  // --------------------------------------------------------------- readers
  // One entry at a cursor: the entry and the cursor behind it.

  function ReadString(data: bytes, at: nat): Result<(bytes, nat)> {
    var length :- ReadU16(data, at);
    Ok((Bytes.Slice(data, at + 2, length), at + 2 + length))
  }

  function ReadRow(data: bytes, at: nat): Result<(Row, nat)> {
    var kind :- ReadByte(data, at);
    var size :- ReadU16(data, at + 1);
    var first :- ReadU16(data, at + 3);
    var count :- ReadU16(data, at + 5);
    var length :- ReadU16(data, at + 7);
    Ok((Row(kind, size, first, count, length), at + 9))
  }

  function ReadLiteral(data: bytes, at: nat): Result<(Literal, nat)> {
    var kind :- ReadByte(data, at);
    var length :- ReadU16(data, at + 1);
    Ok((Literal(kind, Bytes.Slice(data, at + 3, length)), at + 3 + length))
  }

  /** A slice step's bounds are read here too; the device never gets so far.
      Opcodes and flags the compiler never writes are not read. */
  function ReadStep(data: bytes, at: nat): Result<(Step, nat)> {
    var opcode :- ReadByte(data, at);
    if opcode == 1 then
      var index :- ReadI32(data, at + 1);
      Ok((Index(index), at + 5))
    else if opcode == 2 then Ok((Iterate, at + 1))
    else
      var flags :- ReadByte(data, at + 1);
      var _ :- Require(opcode == 3 && flags < 4);
      var (start, next) :- ReadBound(flags % 2 == 1, data, at + 2);
      var (end, after) :- ReadBound(flags >= 2, data, next);
      Ok((AbiPaths.Slice(flags, start, end), after))
  }

  function ReadPath(data: bytes, at: nat): Result<(Path, nat)> {
    var source :- ReadByte(data, at);
    var count :- ReadByte(data, at + 1);
    var index :- ReadU16(data, at + 2);
    if source == 3 && count == 0 then Ok((LiteralPath(index), at + 4))
    else if source == 2 && count == 0 then Ok((ContainerPath(index), at + 4))
    else
      var _ :- Require(source == 1);
      var (steps, next) :- ReadSteps(data, at + 4, count);
      Ok((AbiPath(steps), next))
  }

  function ReadCondition(data: bytes, at: nat): Result<(Condition, nat)> {
    var opcode :- ReadByte(data, at);
    var path :- ReadU16(data, at + 1);
    var literals :- ReadU16(data, at + 3);
    Ok((Condition(opcode, path, literals), at + 8))
  }

  function ReadArgument(data: bytes, at: nat): Result<(Argument, nat)> {
    var role :- ReadByte(data, at);
    var source :- ReadByte(data, at + 1);
    var index :- ReadU16(data, at + 2);
    Ok((Argument(role, source, index), at + 4))
  }

  function ReadFormatter(data: bytes, at: nat): Result<(Formatter, nat)> {
    var kind :- ReadByte(data, at);
    var count :- ReadByte(data, at + 2);
    var (arguments, next) :- ReadArguments(data, at + 3, count);
    Ok((Formatter(kind, arguments), next))
  }

  function ReadInstruction(data: bytes, at: nat): Result<(Instruction, nat)> {
    var opcode :- ReadByte(data, at);
    var a :- ReadU16(data, at + 2);
    var b :- ReadU16(data, at + 4);
    var c :- ReadU16(data, at + 6);
    Ok((Instruction(opcode, a, b, c), at + 8))
  }

  /** `n` steps one after the other. */
  function ReadSteps(data: bytes, at: nat, n: nat): Result<(seq<Step>, nat)>
    decreases n
  {
    if n == 0 then Ok(([], at))
    else
      var (step, next) :- ReadStep(data, at);
      var (rest, end) :- ReadSteps(data, next, n - 1);
      Ok(([step] + rest, end))
  }

  function ReadArguments(data: bytes, at: nat, n: nat): Result<(seq<Argument>, nat)>
    decreases n
  {
    if n == 0 then Ok(([], at))
    else
      var (argument, next) :- ReadArgument(data, at);
      var (rest, end) :- ReadArguments(data, next, n - 1);
      Ok(([argument] + rest, end))
  }

  // ------------------------------------------------------------ round trips

  lemma ReadStringAt(data: bytes, at: nat, s: bytes)
    requires StringFits(s) && Has(data, at, EncodeString(s))
    ensures ReadString(data, at) == Ok((s, at + |EncodeString(s)|))
  {
    HasParts(data, at, U16(|s|), s);
    ReadU16At(data, at, |s|);
    SliceAt(data, at + 2, s);
  }

  lemma ReadRowAt(data: bytes, at: nat, r: Row)
    requires RowFits(r) && Has(data, at, EncodeRow(r))
    ensures ReadRow(data, at) == Ok((r, at + |EncodeRow(r)|)) && |EncodeRow(r)| == 9
  {
    HasParts(data, at, [r.kind], U16(r.size) + (U16(r.first) + (U16(r.count) + U16(r.length))));
    HasParts(data, at + 1, U16(r.size), U16(r.first) + (U16(r.count) + U16(r.length)));
    HasParts(data, at + 3, U16(r.first), U16(r.count) + U16(r.length));
    HasParts(data, at + 5, U16(r.count), U16(r.length));
    HasByte(data, at, r.kind);
    ReadU16At(data, at + 1, r.size);
    ReadU16At(data, at + 3, r.first);
    ReadU16At(data, at + 5, r.count);
    ReadU16At(data, at + 7, r.length);
  }

  lemma ReadLiteralAt(data: bytes, at: nat, l: Literal)
    requires LiteralFits(l) && Has(data, at, EncodeLiteral(l))
    ensures ReadLiteral(data, at) == Ok((l, at + |EncodeLiteral(l)|))
  {
    HasParts(data, at, [l.kind], U16(|l.value|) + l.value);
    HasParts(data, at + 1, U16(|l.value|), l.value);
    HasByte(data, at, l.kind);
    ReadU16At(data, at + 1, |l.value|);
    SliceAt(data, at + 3, l.value);
  }

  /** An optional bound of a slice. */
  function Bound(given: bool, n: int): bytes
    requires IsI32(n)
  {
    if given then I32(n) else []
  }

  function ReadBound(given: bool, data: bytes, at: nat): Result<(int, nat)> {
    if given then
      var n :- ReadI32(data, at);
      Ok((n, at + 4))
    else Ok((0, at))
  }

  lemma ReadBoundAt(given: bool, data: bytes, at: nat, n: int)
    requires IsI32(n) && (given || n == 0) && Has(data, at, Bound(given, n))
    ensures ReadBound(given, data, at) == Ok((n, at + |Bound(given, n)|))
  {
    if given {
      ReadI32At(data, at, n);
    }
  }

  lemma ReadSliceAt(data: bytes, at: nat, flags: nat, start: int, end: int)
    requires StepFits(AbiPaths.Slice(flags, start, end))
    requires Has(data, at, EncodeStep(AbiPaths.Slice(flags, start, end)))
    ensures ReadStep(data, at) ==
            Ok((AbiPaths.Slice(flags, start, end), at + |EncodeStep(AbiPaths.Slice(flags, start, end))|))
  {
    var from, to := Bound(flags % 2 == 1, start), Bound(flags >= 2, end);
    HasParts(data, at, [3, flags], from + to);
    HasParts(data, at + 2, from, to);
    HasTwo(data, at, 3, flags);
    ReadBoundAt(flags % 2 == 1, data, at + 2, start);
    ReadBoundAt(flags >= 2, data, at + 2 + |from|, end);
  }

  lemma ReadStepAt(data: bytes, at: nat, s: Step)
    requires StepFits(s) && Has(data, at, EncodeStep(s))
    ensures ReadStep(data, at) == Ok((s, at + |EncodeStep(s)|))
  {
    match s
    case Index(i) =>
      HasParts(data, at, [1], I32(i));
      HasByte(data, at, 1);
      ReadI32At(data, at + 1, i);
    case Iterate =>
      HasByte(data, at, 2);
    case Slice(flags, start, end) =>
      ReadSliceAt(data, at, flags, start, end);
  }

  lemma ReadStepsCons(data: bytes, at: nat, s: Step, next: nat, rest: seq<Step>, end: nat)
    requires ReadStep(data, at) == Ok((s, next)) && ReadSteps(data, next, |rest|) == Ok((rest, end))
    ensures ReadSteps(data, at, |rest| + 1) == Ok(([s] + rest, end))
  {
  }

  /** Steps are read back from wherever they stand. */
  lemma {:induction false} ReadStepsAt(data: bytes, at: nat, steps: seq<Step>)
    requires StepsFit(steps) && Has(data, at, EncodeSteps(steps))
    ensures ReadSteps(data, at, |steps|) == Ok((steps, at + |EncodeSteps(steps)|))
    decreases |steps|
  {
    hide ReadStep, EncodeStep, StepFits;
    if steps != [] {
      var first, rest := EncodeStep(steps[0]), EncodeSteps(steps[1..]);
      HasParts(data, at, first, rest);
      ReadStepAt(data, at, steps[0]);
      ReadStepsAt(data, at + |first|, steps[1..]);
      ReadStepsCons(data, at, steps[0], at + |first|, steps[1..], at + |first| + |rest|);
      assert steps == [steps[0]] + steps[1..];
    }
  }

  lemma ReadPathSteps(data: bytes, at: nat, steps: seq<Step>, payload: bytes)
    requires |steps| < 0x100 && Has(data, at, [1, |steps|] + (U16(ABSENT) + payload))
    requires ReadSteps(data, at + 4, |steps|) == Ok((steps, at + 4 + |payload|))
    ensures ReadPath(data, at) == Ok((AbiPath(steps), at + 4 + |payload|))
  {
    HasParts(data, at, [1, |steps|], U16(ABSENT) + payload);
    HasParts(data, at + 2, U16(ABSENT), payload);
    HasTwo(data, at, 1, |steps|);
    ReadU16At(data, at + 2, ABSENT);
  }

  lemma PathPayload(data: bytes, at: nat, n: Byte, payload: bytes)
    requires Has(data, at, [1, n] + (U16(ABSENT) + payload))
    ensures Has(data, at + 4, payload)
  {
    HasParts(data, at, [1, n], U16(ABSENT) + payload);
    HasParts(data, at + 2, U16(ABSENT), payload);
  }

  lemma ReadAbiPathAt(data: bytes, at: nat, steps: seq<Step>)
    requires PathFits(AbiPath(steps)) && Has(data, at, EncodePath(AbiPath(steps)))
    ensures ReadPath(data, at) == Ok((AbiPath(steps), at + |EncodePath(AbiPath(steps))|))
  {
    hide ReadSteps;
    var payload := EncodeSteps(steps);
    PathPayload(data, at, |steps|, payload);
    ReadStepsAt(data, at + 4, steps);
    ReadPathSteps(data, at, steps, payload);
  }

  lemma ReadShortPathAt(data: bytes, at: nat, source: Byte, index: nat)
    requires source in {2, 3} && IsU16(index) && Has(data, at, [source, 0] + U16(index))
    ensures ReadPath(data, at) == Ok((if source == 3 then LiteralPath(index) else ContainerPath(index), at + 4))
  {
    HasParts(data, at, [source, 0], U16(index));
    HasTwo(data, at, source, 0);
    ReadU16At(data, at + 2, index);
  }

  lemma ReadPathAt(data: bytes, at: nat, p: Path)
    requires PathFits(p) && Has(data, at, EncodePath(p))
    ensures ReadPath(data, at) == Ok((p, at + |EncodePath(p)|))
  {
    match p
    case LiteralPath(index) => ReadShortPathAt(data, at, 3, index);
    case ContainerPath(id) => ReadShortPathAt(data, at, 2, id);
    case AbiPath(steps) => ReadAbiPathAt(data, at, steps);
  }

  lemma ReadConditionAt(data: bytes, at: nat, c: Condition)
    requires ConditionFits(c) && Has(data, at, EncodeCondition(c))
    ensures ReadCondition(data, at) == Ok((c, at + |EncodeCondition(c)|)) && |EncodeCondition(c)| == 8
  {
    HasParts(data, at, [c.opcode], U16(c.path) + (U16(c.literals) + ([0] + U16(0))));
    HasParts(data, at + 1, U16(c.path), U16(c.literals) + ([0] + U16(0)));
    HasParts(data, at + 3, U16(c.literals), [0] + U16(0));
    HasByte(data, at, c.opcode);
    ReadU16At(data, at + 1, c.path);
    ReadU16At(data, at + 3, c.literals);
  }

  lemma ReadArgumentAt(data: bytes, at: nat, a: Argument)
    requires ArgumentFits(a) && Has(data, at, EncodeArgument(a))
    ensures ReadArgument(data, at) == Ok((a, at + |EncodeArgument(a)|)) && |EncodeArgument(a)| == 4
  {
    HasParts(data, at, [a.role, a.source], U16(a.index));
    HasTwo(data, at, a.role, a.source);
    ReadU16At(data, at + 2, a.index);
  }

  lemma ReadArgumentsCons(data: bytes, at: nat, a: Argument, next: nat, rest: seq<Argument>, end: nat)
    requires ReadArgument(data, at) == Ok((a, next)) && ReadArguments(data, next, |rest|) == Ok((rest, end))
    ensures ReadArguments(data, at, |rest| + 1) == Ok(([a] + rest, end))
  {
  }

  lemma {:induction false} ReadArgumentsAt(data: bytes, at: nat, args: seq<Argument>)
    requires ArgumentsFit(args) && Has(data, at, EncodeArguments(args))
    ensures ReadArguments(data, at, |args|) == Ok((args, at + |EncodeArguments(args)|))
    decreases |args|
  {
    hide ReadArgument, EncodeArgument, ArgumentFits;
    if args != [] {
      var first, rest := EncodeArgument(args[0]), EncodeArguments(args[1..]);
      HasParts(data, at, first, rest);
      ReadArgumentAt(data, at, args[0]);
      ReadArgumentsAt(data, at + |first|, args[1..]);
      ReadArgumentsCons(data, at, args[0], at + |first|, args[1..], at + |first| + |rest|);
      assert args == [args[0]] + args[1..];
    }
  }

  lemma ReadFormatterAt(data: bytes, at: nat, f: Formatter)
    requires FormatterFits(f) && Has(data, at, EncodeFormatter(f))
    ensures ReadFormatter(data, at) == Ok((f, at + |EncodeFormatter(f)|))
  {
    var head: bytes := [f.kind, 0, |f.arguments|];
    HasParts(data, at, head, EncodeArguments(f.arguments));
    assert head[0] == data[at] && head[2] == data[at + 2];
    ReadArgumentsAt(data, at + 3, f.arguments);
  }

  lemma ReadInstructionAt(data: bytes, at: nat, i: Instruction)
    requires InstructionFits(i) && Has(data, at, EncodeInstruction(i))
    ensures ReadInstruction(data, at) == Ok((i, at + |EncodeInstruction(i)|)) && |EncodeInstruction(i)| == 8
  {
    HasParts(data, at, [i.opcode, 0], U16(i.a) + (U16(i.b) + U16(i.c)));
    HasParts(data, at + 2, U16(i.a), U16(i.b) + U16(i.c));
    HasParts(data, at + 4, U16(i.b), U16(i.c));
    HasTwo(data, at, i.opcode, 0);
    ReadU16At(data, at + 2, i.a);
    ReadU16At(data, at + 4, i.b);
    ReadU16At(data, at + 6, i.c);
  }
}
