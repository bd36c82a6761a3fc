/** What acceptance by the device's checks means. */
module DeviceSoundness {
  import opened Wrappers
  import opened AbiTypes
  import opened FlatAbi
  import opened AbiPaths
  import opened Program
  import opened DeviceRules
  import opened DisplayWord
  import Capabilities
  import AbiWalk
  import AbiValues

  // ------------------------------------------------------- from whole to part

  lemma AcceptedParts(t: Tables, calldata: bool)
    requires Check(t, calldata) == Accepted
    ensures var facts := FactsOf(t, calldata);
            && RowsVerdict(t.abi) == Accepted
            && PathsVerdict(t.abi, calldata, t.paths) == Accepted
            && FormattersVerdict(facts, t.formatters) == Accepted
            && DisplaysVerdict(facts, FormatterFacts(facts, t.formatters), t.displays) == Accepted
  {
  }

  lemma {:induction false} FormatterAccepted(facts: Facts, fs: seq<Formatter>, i: nat)
    requires FormattersVerdict(facts, fs) == Accepted && i < |fs|
    ensures FormatterCheck(facts, fs[i]).FormatterOk?
  {
    if i > 0 {
      FormatterAccepted(facts, fs[1..], i - 1);
    }
  }

  lemma {:induction false} PathAccepted(rows: seq<Row>, calldata: bool, ps: seq<Path>, i: nat)
    requires PathsVerdict(rows, calldata, ps) == Accepted && i < |ps|
    ensures PathVerdict(rows, calldata, ps[i]) == Accepted
  {
    if i > 0 {
      PathAccepted(rows, calldata, ps[1..], i - 1);
    }
  }

  lemma {:induction false} RowAccepted(rows: seq<Row>, i: nat)
    requires RowsVerdict(rows) == Accepted && i < |rows|
    ensures RowAllowed(rows[i])
  {
    if i > 0 {
      RowAccepted(rows[1..], i - 1);
    }
  }

  /** Every argument of an accepted argument list was accepted. */
  lemma {:induction false} ArgumentAccepted(facts: Facts, kind: nat, args: seq<Argument>, k: nat)
    requires ReadArgumentsState(facts, kind, args).Reading? && k < |args|
    ensures ArgumentVerdict(facts, kind, args[k]) == Accepted
    decreases |args|
  {
    if k < |args| - 1 {
      ArgumentAccepted(facts, kind, args[..|args| - 1], k);
    }
  }

  // ------------------------------------------------------------------ bounds

  /** An argument's index, and the literal behind its path, exist. */
  predicate ArgumentInBounds(t: Tables, a: Argument) {
    match a.source
    case 1 => a.index < |t.paths| && (t.paths[a.index].LiteralPath? ==> t.paths[a.index].literal < |t.literals|)
    case 2 => a.index < |t.literals|
    case 3 => a.index < |t.strings|
    case _ => false
  }

  lemma AcceptedArgumentInBounds(t: Tables, calldata: bool, kind: nat, a: Argument)
    requires ArgumentVerdict(FactsOf(t, calldata), kind, a) == Accepted
    ensures ArgumentInBounds(t, a)
    ensures a.source == 1 ==> FactsOf(t, calldata).paths[a.index] == PathFactOf(t.abi, t.paths[a.index])
  {
  }

  /** Whatever the program, acceptance alone puts these indexes in bounds: all
      formatter arguments, and the formatters, labels and array paths that
      value and iteration instructions name. */
  lemma {:induction false} AcceptedFormatterInBounds(t: Tables, calldata: bool, i: nat, k: nat)
    requires Check(t, calldata) == Accepted
    requires i < |t.formatters| && k < |t.formatters[i].arguments|
    ensures ArgumentInBounds(t, t.formatters[i].arguments[k])
  {
    AcceptedParts(t, calldata);
    var facts, f := FactsOf(t, calldata), t.formatters[i];
    FormatterAccepted(facts, t.formatters, i);
    ArgumentAccepted(facts, f.kind, f.arguments, k);
    AcceptedArgumentInBounds(t, calldata, f.kind, f.arguments[k]);
  }

  /** The loop has not stopped before any instruction of an accepted list. */
  lemma {:induction false} RunningBefore(facts: Facts, fs: seq<FormatterFact>, ds: seq<Instruction>, pc: nat)
    requires DisplayRun(facts, fs, ds).Running? && pc <= |ds|
    ensures DisplayRun(facts, fs, ds[..pc]).Running?
    decreases |ds|
  {
    if pc == |ds| {
      assert ds[..pc] == ds;
    } else {
      var init := ds[..|ds| - 1];
      RunningBefore(facts, fs, init, pc);
      assert init[..pc] == ds[..pc];
    }
  }

  /** One step of the loop, as the step function sees it. */
  lemma {:induction false} StepAt(facts: Facts, fs: seq<FormatterFact>, ds: seq<Instruction>, pc: nat)
    requires DisplayRun(facts, fs, ds).Running? && pc < |ds|
    ensures DisplayRun(facts, fs, ds[..pc]).Running?
    ensures DisplayRun(facts, fs, ds[..pc + 1]).Running?
    ensures DisplayRun(facts, fs, ds[..pc + 1]) ==
            DisplayStep(facts, fs, pc, DisplayRun(facts, fs, ds[..pc]), ds[pc])
  {
    RunningBefore(facts, fs, ds, pc);
    RunningBefore(facts, fs, ds, pc + 1);
    assert ds[..pc + 1][..pc] == ds[..pc];
  }

  function FormatterOf(i: Instruction): nat {
    if i.opcode == 3 then i.a else i.b
  }

  predicate ShowsValue(i: Instruction) {
    i.opcode in {3, 4}
  }

  lemma {:induction false} AcceptedInstructionInBounds(t: Tables, calldata: bool, pc: nat)
    requires Check(t, calldata) == Accepted && pc < |t.displays|
    ensures var i := t.displays[pc];
            && (ShowsValue(i) ==> FormatterOf(i) < |t.formatters|)
            && (i.opcode == 4 ==> i.a < |t.strings|)
            && (i.opcode == 7 ==> i.a < |t.paths|)
  {
    AcceptedParts(t, calldata);
    var facts := FactsOf(t, calldata);
    StepAt(facts, FormatterFacts(facts, t.formatters), t.displays, pc);
  }

  // --------------------------------------------------------------- iterations

  /** The iteration opened at `p` is open in front of `pc`. */
  predicate OpenAt(ds: seq<Instruction>, p: int, pc: nat) {
    0 <= p < |ds| && ds[p].opcode == 7 && p < pc <= ds[p].c
  }

  /** The array the iteration opened at `p` runs over. */
  function ArrayOf(facts: Facts, i: Instruction): Option<nat> {
    if i.a < |facts.paths| then facts.paths[i.a].iterated else None
  }

  /** The loop's variable against the brackets. */
  ghost predicate TracksIteration(facts: Facts, ds: seq<Instruction>, pc: nat, iteration: Option<nat>) {
    match iteration
    case None => forall p :: !OpenAt(ds, p, pc)
    case Some(_) => exists p :: OpensOnly(facts, ds, p, pc, iteration)
  }

  /** `p` is the one iteration open in front of `pc`, and runs over `iteration`. */
  ghost predicate OpensOnly(facts: Facts, ds: seq<Instruction>, p: int, pc: nat, iteration: Option<nat>) {
    && OpenAt(ds, p, pc) && ArrayOf(facts, ds[p]) == iteration
    && forall q :: OpenAt(ds, q, pc) ==> q == p
  }

  lemma {:induction false} IterableHasArray(t: Tables, i: nat)
    requires i < |t.paths| && PathFactOf(t.abi, t.paths[i]).iterable
    ensures PathFactOf(t.abi, t.paths[i]).iterated.Some?
  {
  }

  lemma OpenBefore(ds: seq<Instruction>, q: int, pc: nat)
    ensures OpenAt(ds, q, pc + 1) ==> q == pc || OpenAt(ds, q, pc)
  {
  }

  lemma TrackOpen(facts: Facts, ds: seq<Instruction>, pc: nat)
    requires pc < |ds| && ds[pc].opcode == 7 && Paired(ds, 7, 8)
    requires TracksIteration(facts, ds, pc, None)
    requires ArrayOf(facts, ds[pc]).Some?
    ensures TracksIteration(facts, ds, pc + 1, ArrayOf(facts, ds[pc]))
  {
    var next := pc + 1;
    forall q | OpenAt(ds, q, next) ensures q == pc {
      OpenBefore(ds, q, pc);
    }
    assert OpensOnly(facts, ds, pc, next, ArrayOf(facts, ds[pc]));
  }

  lemma TrackClose(facts: Facts, ds: seq<Instruction>, pc: nat, iteration: Option<nat>)
    requires pc < |ds| && ds[pc].opcode == 8 && Paired(ds, 7, 8)
    requires TracksIteration(facts, ds, pc, iteration)
    ensures TracksIteration(facts, ds, pc + 1, None)
  {
    var opener, next := ds[pc].a, pc + 1;
    assert OpenAt(ds, opener, pc);
    forall q ensures !OpenAt(ds, q, next) {
      OpenBefore(ds, q, pc);
    }
  }

  lemma TrackOther(facts: Facts, ds: seq<Instruction>, pc: nat, iteration: Option<nat>)
    requires pc < |ds| && ds[pc].opcode !in {7, 8} && Paired(ds, 7, 8)
    requires TracksIteration(facts, ds, pc, iteration)
    ensures TracksIteration(facts, ds, pc + 1, iteration)
  {
    var next := pc + 1;
    if iteration.None? {
      forall q ensures !OpenAt(ds, q, next) {
        OpenUnchanged(ds, pc, q);
      }
    } else {
      var p :| OpensOnly(facts, ds, p, pc, iteration);
      OpenUnchanged(ds, pc, p);
      forall q | OpenAt(ds, q, next) ensures q == p {
        OpenUnchanged(ds, pc, q);
      }
      assert OpensOnly(facts, ds, p, next, iteration);
    }
  }

  lemma OpenUnchanged(ds: seq<Instruction>, pc: nat, q: int)
    requires pc < |ds| && ds[pc].opcode !in {7, 8} && Paired(ds, 7, 8)
    ensures OpenAt(ds, q, pc) <==> OpenAt(ds, q, pc + 1)
  {
    if 0 <= q < |ds| && ds[q].opcode == 7 {
      assert q != pc && ds[ds[q].c].opcode == 8 && ds[q].c != pc;
    }
  }

  /** In an accepted program with paired brackets, the device's `iteration` in
      front of every instruction is the array of the one open iteration; so
      there is never a second one. */
  lemma {:induction false} IterationTracked(t: Tables, calldata: bool, pc: nat)
    requires Check(t, calldata) == Accepted && Paired(t.displays, 7, 8) && pc <= |t.displays|
    ensures var facts := FactsOf(t, calldata);
            var state := DisplayRun(facts, FormatterFacts(facts, t.formatters), t.displays[..pc]);
            state.Running? && TracksIteration(facts, t.displays, pc, state.iteration)
  {
    hide Check, FactsOf, FormatterFacts, DisplayStep, RowsVerdict, PathsVerdict, FormattersVerdict;
    AcceptedParts(t, calldata);
    var facts, ds := FactsOf(t, calldata), t.displays;
    var fs := FormatterFacts(facts, t.formatters);
    RunningBefore(facts, fs, ds, pc);
    if pc == 0 {
      assert ds[..0] == [];
    } else {
      hide TracksIteration, Paired, DisplayRun;
      IterationTracked(t, calldata, pc - 1);
      StepAt(facts, fs, ds, pc - 1);
      IterationStep(t, calldata, pc - 1, DisplayRun(facts, fs, ds[..pc - 1]), DisplayRun(facts, fs, ds[..pc]));
    }
  }

  lemma {:induction false} IterationStep(t: Tables, calldata: bool, pc: nat, before: DisplayState, after: DisplayState)
    requires Paired(t.displays, 7, 8) && pc < |t.displays|
    requires var facts := FactsOf(t, calldata);
             after == DisplayStep(facts, FormatterFacts(facts, t.formatters), pc, before, t.displays[pc])
    requires before.Running? && after.Running?
    requires TracksIteration(FactsOf(t, calldata), t.displays, pc, before.iteration)
    ensures TracksIteration(FactsOf(t, calldata), t.displays, pc + 1, after.iteration)
  {
    var facts, ds := FactsOf(t, calldata), t.displays;
    if ds[pc].opcode == 7 {
      IterableHasArray(t, ds[pc].a);
      TrackOpen(facts, ds, pc);
    } else if ds[pc].opcode == 8 {
      TrackClose(facts, ds, pc, before.iteration);
    } else {
      TrackOther(facts, ds, pc, before.iteration);
    }
  }

  /** No two iterations are open at once. */
  lemma {:induction false} AtMostOneIteration(t: Tables, calldata: bool, pc: nat, p: nat, q: nat)
    requires Check(t, calldata) == Accepted && Paired(t.displays, 7, 8) && pc <= |t.displays|
    requires OpenAt(t.displays, p, pc) && OpenAt(t.displays, q, pc)
    ensures p == q
  {
    IterationTracked(t, calldata, pc);
  }

  // ------------------------------------------------------------ what is read

  /** The value argument comes first and alone, as sorting by role puts it. */
  predicate ValueFirst(args: seq<Argument>) {
    args != [] && args[0].role == 1 && forall k :: 1 <= k < |args| ==> args[k].role != 1
  }

  function ArrayRead(facts: Facts, a: Argument): Option<nat> {
    if a.source == 1 && a.index < |facts.paths| then facts.paths[a.index].iterated else None
  }

  /** What the argument loop's variables mean after each argument. */
  lemma {:induction false} ArgumentReads(facts: Facts, kind: nat, args: seq<Argument>, k: nat)
    requires ValueFirst(args) && ReadArgumentsState(facts, kind, args).Reading? && k < |args|
    ensures var r := ReadArgumentsState(facts, kind, args).soFar;
            && r.value == ArrayRead(facts, args[0])
            && (!r.any && args[k].source == 1 ==> ArrayRead(facts, args[k]) == None)
            && (!r.mixed && args[k].source == 1 ==> ArrayRead(facts, args[k]) == r.value)
    decreases |args|
  {
    var n := |args| - 1;
    var init := args[..n];
    ArgumentAccepted(facts, kind, args, n);
    if n == 0 {
      assert init == [];
    } else {
      assert ValueFirst(init);
      ArgumentReads(facts, kind, init, if k < n then k else 0);
      assert k < n ==> init[k] == args[k];
    }
  }

  /** The array open in front of `pc`, by the brackets. */
  ghost function OpenArray(facts: Facts, ds: seq<Instruction>, pc: nat): Option<nat> {
    if exists p :: OpenAt(ds, p, pc) then
      var p :| OpenAt(ds, p, pc);
      ArrayOf(facts, ds[p])
    else None
  }

  lemma OpenArrayIs(facts: Facts, ds: seq<Instruction>, pc: nat, iteration: Option<nat>)
    requires TracksIteration(facts, ds, pc, iteration)
    ensures OpenArray(facts, ds, pc) == iteration
  {
    if iteration.Some? {
      var p :| OpensOnly(facts, ds, p, pc, iteration);
      assert OpenAt(ds, p, pc);
    }
  }

  /** A shown value reads, through every path argument, the array of the
      iteration it stands in, and no iterated array outside one. */
  lemma {:induction false} ValueReadsItsIteration(t: Tables, calldata: bool, pc: nat, k: nat)
    requires Check(t, calldata) == Accepted && Paired(t.displays, 7, 8)
    requires pc < |t.displays| && ShowsValue(t.displays[pc])
    requires FormatterOf(t.displays[pc]) < |t.formatters|
    requires var f := t.formatters[FormatterOf(t.displays[pc])];
             ValueFirst(f.arguments) && k < |f.arguments| && f.arguments[k].source == 1
    ensures var facts := FactsOf(t, calldata);
            ArrayRead(facts, t.formatters[FormatterOf(t.displays[pc])].arguments[k]) == OpenArray(facts, t.displays, pc)
  {
    hide Check, FactsOf, OpenArray, TracksIteration, Paired, DisplayRun, ReadArgumentsState, FormattersVerdict;
    var facts, ds := FactsOf(t, calldata), t.displays;
    var fs := FormatterFacts(facts, t.formatters);
    var n := FormatterOf(ds[pc]);
    var f := t.formatters[n];
    AcceptedParts(t, calldata);
    IterationTracked(t, calldata, pc);
    StepAt(facts, fs, ds, pc);
    var iteration := DisplayRun(facts, fs, ds[..pc]).iteration;
    OpenArrayIs(facts, ds, pc, iteration);
    FormatterAccepted(facts, t.formatters, n);
    ArgumentReads(facts, f.kind, f.arguments, k);
    assert fs[n] == FormatterFactOf(facts, f);
    assert ValueStep(facts, fs, ds[pc], iteration) == Accepted;
  }

  // ------------------------------------------------------------ what is reached

  /** An accepted path argument that indexes fixed arrays only reaches, on every
      value of the type and every element of the iterated array, a leaf of a
      kind that the formatter's format takes for the argument's parameter. */
  lemma {:induction false} ArgumentReachesPermittedLeaf(t: Tables, root: AbiType, calldata: bool,
      i: nat, k: nat, v: AbiValues.Value, e: nat)
    requires Check(t, calldata) == Accepted && Valid(root) && t.abi == Rows(root)
    requires i < |t.formatters| && k < |t.formatters[i].arguments|
    requires var a := t.formatters[i].arguments[k];
             a.source == 1 && a.index < |t.paths| && t.paths[a.index].AbiPath?
    requires var steps := t.paths[t.formatters[i].arguments[k].index].steps;
             && Fits(root, steps) && AbiValues.IndexesFixed(root, steps)
             && AbiValues.Conforms(root, v) && AbiValues.HasElement(v, steps, e)
    ensures var f := t.formatters[i];
            var read := AbiValues.Read(v, t.paths[f.arguments[k].index].steps, e);
            read.Ok? && read.value.LeafValue? && Capabilities.Taken(f.kind, f.arguments[k].role, read.value.kind)
  {
    hide ValueAllowed, KnownKind, Capabilities.Taken, Sources, Required;
    var facts, f := FactsOf(t, calldata), t.formatters[i];
    var a := f.arguments[k];
    var steps := t.paths[a.index].steps;
    AcceptedParts(t, calldata);
    FormatterAccepted(facts, t.formatters, i);
    ArgumentAccepted(facts, f.kind, f.arguments, k);
    AcceptedArgumentInBounds(t, calldata, f.kind, a);
    PathAccepted(t.abi, calldata, t.paths, a.index);
    AcceptedPathReaches(root, calldata, steps, v, e);
    TypeAccepted(facts, f, k);
    Capabilities.AllowedIsTaken(f.kind, a.role, ArgumentClass(facts, a));
    NothingIsNotTaken(f.kind, a.role);
  }

  lemma NothingIsNotTaken(kind: nat, role: nat)
    ensures !ValueAllowed(kind, role, 0)
  {
  }

  lemma TypeAccepted(facts: Facts, f: Formatter, k: nat)
    requires FormatterCheck(facts, f).FormatterOk? && k < |f.arguments|
    ensures KnownKind(f.kind) && ValueAllowed(f.kind, f.arguments[k].role, ArgumentClass(facts, f.arguments[k]))
  {
    hide ValueAllowed, KnownKind, Sources, Required, ArgumentClass;
    ArgumentAccepted(facts, f.kind, f.arguments, k);
  }

  lemma {:induction false} AcceptedPathReaches(root: AbiType, calldata: bool, steps: seq<Step>, v: AbiValues.Value,
      e: nat)
    requires Valid(root) && PathVerdict(Rows(root), calldata, AbiPath(steps)) == Accepted
    requires Fits(root, steps) && AbiValues.IndexesFixed(root, steps)
    requires AbiValues.Conforms(root, v) && AbiValues.HasElement(v, steps, e)
    ensures var cls := PathFactOf(Rows(root), AbiPath(steps)).leafClass;
            && cls.Direct?
            && (cls.cls != 0 ==> AbiValues.Read(v, steps, e).Ok? && AbiValues.Read(v, steps, e).value.LeafValue?
                                 && AbiValues.Read(v, steps, e).value.kind == cls.cls)
  {
    AbiWalk.WalkOutcome(root, steps);
    assert AbiWalk.PassesUpTo(root, steps, |steps|);
    AbiValues.ReadConforms(root, steps, v, e);
  }
}
