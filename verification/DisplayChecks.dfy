/** The display checks of the device (`device_refusal`,
    keepkeylib/erc7730_compiler.py) without the loop that makes them: exactly
    which display programs pass, instruction by instruction. */
module DisplayChecks {
  import opened Wrappers
  import opened Program
  import opened DeviceRules
  import opened DeviceSoundness
  import opened DisplayWord

  // -------------------------------------------------------------- formatters

  /** What the argument loop remembers, in terms of the arguments. */
  ghost predicate Remembers(facts: Facts, args: seq<Argument>, r: Reads)
    requires args != []
  {
    && r.value == ArrayRead(facts, args[0])
    && (r.any <==> exists k :: 0 <= k < |args| && ReadsArray(facts, args[k]))
    && (r.mixed <==> exists k :: 0 <= k < |args| && ReadsOther(facts, args[k], ArrayRead(facts, args[0])))
    && (r.constant <==> IsConstant(facts, args[0]))
  }

  predicate ReadsArray(facts: Facts, a: Argument) {
    a.source == 1 && ArrayRead(facts, a).Some?
  }

  predicate ReadsOther(facts: Facts, a: Argument, open: Option<nat>) {
    a.source == 1 && a.role != 1 && ArrayRead(facts, a) != open
  }

  lemma {:induction false} RemembersAll(facts: Facts, kind: nat, args: seq<Argument>)
    requires ValueFirst(args) && args[0].source == 1 && ReadArgumentsState(facts, kind, args).Reading?
    ensures Remembers(facts, args, ReadArgumentsState(facts, kind, args).soFar)
    decreases |args|
  {
    hide ArgumentVerdict, IsConstant;
    var n := |args| - 1;
    var init := args[..n];
    var before := ReadArgumentsState(facts, kind, init);
    if n == 0 {
      assert init == [];
    } else {
      assert ValueFirst(init) && args[n].role != 1;
      RemembersAll(facts, kind, init);
      RemembersNext(facts, init, args[n], before.soFar, ReadArgumentsState(facts, kind, args).soFar);
      assert args == init + [args[n]];
    }
  }

  lemma RemembersNext(facts: Facts, init: seq<Argument>, a: Argument, r: Reads, next: Reads)
    requires init != [] && a.role != 1 && Remembers(facts, init, r)
    requires next.value == r.value && next.constant == r.constant
    requires next.any == (r.any || ReadsArray(facts, a)) && next.mixed == (r.mixed || ReadsOther(facts, a, r.value))
    ensures Remembers(facts, init + [a], next)
  {
    hide ReadsArray, ReadsOther, IsConstant, ArrayRead;
    var args := init + [a];
    assert args[0] == init[0] && args[|init|] == a;
    if r.any {
      var k :| 0 <= k < |init| && ReadsArray(facts, init[k]);
      assert args[k] == init[k];
    }
    if r.mixed {
      var k :| 0 <= k < |init| && ReadsOther(facts, init[k], ArrayRead(facts, init[0]));
      assert args[k] == init[k];
    }
  }

  /** A formatter that can be shown where `iteration` is the open array: all its
      paths read that array, and none where none is open. */
  ghost predicate ReadsOnly(facts: Facts, f: Formatter, iteration: Option<nat>) {
    forall k :: 0 <= k < |f.arguments| && f.arguments[k].source == 1 ==> ArrayRead(facts, f.arguments[k]) == iteration
  }

  /** In an interpolation neither embedded calls nor constants can be shown, and
      a label must be short. */
  predicate ShownWell(facts: Facts, f: Formatter, i: Instruction) {
    if i.opcode == 3 then f.kind != 13 && f.arguments != [] && !IsConstant(facts, f.arguments[0])
    else i.a in facts.short
  }

  lemma ValueStepIff(facts: Facts, formatters: seq<Formatter>, i: Instruction, iteration: Option<nat>)
    requires i.opcode in {3, 4} && FormatterOf(i) < |formatters|
    requires var f := formatters[FormatterOf(i)];
             ValueFirst(f.arguments) && f.arguments[0].source == 1 && FormatterCheck(facts, f).FormatterOk?
    ensures ValueStep(facts, FormatterFacts(facts, formatters), i, iteration) == Accepted <==>
            && ShownWell(facts, formatters[FormatterOf(i)], i)
            && ReadsOnly(facts, formatters[FormatterOf(i)], iteration)
  {
    hide ArgumentVerdict, IsConstant, ReadArgumentsState, Required, KnownKind, ArrayRead;
    var f := formatters[FormatterOf(i)];
    var r := ReadArgumentsState(facts, f.kind, f.arguments).soFar;
    RemembersAll(facts, f.kind, f.arguments);
    assert FormatterFacts(facts, formatters)[FormatterOf(i)] == FormatterFactOf(facts, f);
    FitsReads(facts, f, r, iteration);
  }

  lemma FitsReads(facts: Facts, f: Formatter, r: Reads, iteration: Option<nat>)
    requires ValueFirst(f.arguments) && f.arguments[0].source == 1 && Remembers(facts, f.arguments, r)
    ensures ReadsOnly(facts, f, iteration) <==>
            (r.any ==> iteration.Some?) && (iteration.Some? ==> r.value == iteration && !r.mixed)
  {
    hide ArrayRead, IsConstant;
    var args := f.arguments;
    if ReadsOnly(facts, f, iteration) {
      assert ArrayRead(facts, args[0]) == iteration;
      if r.any {
        var k :| 0 <= k < |args| && ReadsArray(facts, args[k]);
      }
      if r.mixed {
        var k :| 0 <= k < |args| && ReadsOther(facts, args[k], ArrayRead(facts, args[0]));
      }
    }
    if (r.any ==> iteration.Some?) && (iteration.Some? ==> r.value == iteration && !r.mixed) {
      forall k | 0 <= k < |args| && args[k].source == 1 ensures ArrayRead(facts, args[k]) == iteration {
        if iteration.None? {
          assert !ReadsArray(facts, args[k]);
        } else if k > 0 {
          assert !ReadsOther(facts, args[k], ArrayRead(facts, args[0]));
        }
      }
    }
  }

  // -------------------------------------------------------------- the loop

  /** An instruction that passes at its place: the intent first and only there,
      interpolations right behind it, one iteration at a time and in calldata
      only, and values that read the open array. */
  ghost predicate Passes(facts: Facts, formatters: seq<Formatter>, ds: seq<Instruction>, pc: nat)
    requires pc < |ds|
  {
    var i, iteration := ds[pc], OpenArray(facts, ds, pc);
    && DisplayOpcodeKnown(i.opcode) && (i.opcode == 1 <==> pc == 0)
    && (pc > 0 && i.opcode in {2, 3} ==> !RunEnded(ds, pc))
    && (i.opcode == 7 ==>
          i.a < |facts.paths| && facts.paths[i.a].iterable && facts.calldata && forall p :: !OpenAt(ds, p, pc))
    && (i.opcode in {3, 4} ==>
          && FormatterOf(i) < |formatters| && ShownWell(facts, formatters[FormatterOf(i)], i)
          && ReadsOnly(facts, formatters[FormatterOf(i)], iteration))
  }

  /** Something other than an interpolation came behind the intent. */
  ghost predicate RunEnded(ds: seq<Instruction>, pc: nat)
    requires pc <= |ds|
  {
    exists k :: 1 <= k < pc && ds[k].opcode !in {2, 3}
  }

  /** What the loop's variables hold in front of `pc`. */
  ghost predicate Holds(facts: Facts, ds: seq<Instruction>, pc: nat, state: DisplayState)
    requires pc <= |ds|
  {
    state.Running? && (state.runClosed <==> RunEnded(ds, pc)) && TracksIteration(facts, ds, pc, state.iteration)
  }

  /** Formatters that passed their own check, values first. */
  ghost predicate FormattersFine(facts: Facts, formatters: seq<Formatter>) {
    && (forall i :: 0 <= i < |formatters| ==> FormatterFine(facts, formatters[i]))
    && forall i :: 0 <= i < |facts.paths| && facts.paths[i].iterable ==> facts.paths[i].iterated.Some?
  }

  ghost predicate FormatterFine(facts: Facts, f: Formatter) {
    ValueFirst(f.arguments) && f.arguments[0].source == 1 && FormatterCheck(facts, f).FormatterOk?
  }

  lemma EndedNext(ds: seq<Instruction>, pc: nat)
    requires pc < |ds|
    ensures RunEnded(ds, pc + 1) <==> RunEnded(ds, pc) || (pc > 0 && ds[pc].opcode !in {2, 3})
  {
    var next := pc + 1;
    if RunEnded(ds, pc) {
      var k :| 1 <= k < pc && ds[k].opcode !in {2, 3};
      assert 1 <= k < next;
    }
    if pc > 0 && ds[pc].opcode !in {2, 3} {
      assert 1 <= pc < next;
    }
  }

  /** One instruction: the loop goes on exactly when it passes, and keeps track. */
  lemma StepIff(facts: Facts, formatters: seq<Formatter>, ds: seq<Instruction>, pc: nat, before: DisplayState)
    requires Paired(ds, 7, 8) && FormattersFine(facts, formatters) && pc < |ds| && Holds(facts, ds, pc, before)
    ensures var after := DisplayStep(facts, FormatterFacts(facts, formatters), pc, before, ds[pc]);
            (after.Running? <==> Passes(facts, formatters, ds, pc))
            && (after.Running? ==> Holds(facts, ds, pc + 1, after))
  {
    hide ValueStep, ShownWell, ReadsOnly, FormatterFine, Paired, TracksIteration, RunEnded, FormatterFacts;
    var i := ds[pc];
    EndedNext(ds, pc);
    OpenArrayIs(facts, ds, pc, before.iteration);
    NothingOpenIff(facts, ds, pc, before.iteration);
    if i.opcode in {3, 4} {
      ValueGoesOn(facts, formatters, i, before.iteration);
    }
    var after := DisplayStep(facts, FormatterFacts(facts, formatters), pc, before, i);
    if after.Running? {
      if i.opcode == 7 {
        assert before.iteration == None && ArrayOf(facts, i).Some?;
        TrackOpen(facts, ds, pc);
      } else if i.opcode == 8 {
        TrackClose(facts, ds, pc, before.iteration);
      } else {
        TrackOther(facts, ds, pc, before.iteration);
      }
    }
  }

  lemma ValueGoesOn(facts: Facts, formatters: seq<Formatter>, i: Instruction, iteration: Option<nat>)
    requires i.opcode in {3, 4} && FormattersFine(facts, formatters)
    ensures ValueStep(facts, FormatterFacts(facts, formatters), i, iteration) == Accepted <==>
            && FormatterOf(i) < |formatters| && ShownWell(facts, formatters[FormatterOf(i)], i)
            && ReadsOnly(facts, formatters[FormatterOf(i)], iteration)
  {
    hide ShownWell, ReadsOnly, FormatterCheck;
    if FormatterOf(i) < |formatters| {
      assert FormatterFine(facts, formatters[FormatterOf(i)]);
      hide ValueStep;
      ValueStepIff(facts, formatters, i, iteration);
    }
  }

  lemma NothingOpenIff(facts: Facts, ds: seq<Instruction>, pc: nat, iteration: Option<nat>)
    requires TracksIteration(facts, ds, pc, iteration)
    ensures iteration.None? <==> forall p :: !OpenAt(ds, p, pc)
  {
    if iteration.Some? {
      var p :| OpensOnly(facts, ds, p, pc, iteration);
      assert OpenAt(ds, p, pc);
    }
  }

  lemma {:induction false} RunIff(facts: Facts, formatters: seq<Formatter>, ds: seq<Instruction>, n: nat)
    requires Paired(ds, 7, 8) && FormattersFine(facts, formatters) && n <= |ds|
    ensures var state := DisplayRun(facts, FormatterFacts(facts, formatters), ds[..n]);
            && (state.Running? <==> forall pc: nat :: pc < n ==> Passes(facts, formatters, ds, pc))
            && (state.Running? ==> Holds(facts, ds, n, state))
    decreases n
  {
    hide Passes, DisplayStep, FormattersFine, Paired, FormatterFacts;
    if n == 0 {
      assert ds[..0] == [];
      NothingOpenFirst(facts, ds);
    } else {
      RunIff(facts, formatters, ds, n - 1);
      assert ds[..n][..n - 1] == ds[..n - 1];
      var before := DisplayRun(facts, FormatterFacts(facts, formatters), ds[..n - 1]);
      if before.Running? {
        hide Holds;
        StepIff(facts, formatters, ds, n - 1, before);
      } else {
        StoppedStays(facts, formatters, n - 1, before, ds[n - 1]);
      }
    }
  }

  lemma NothingOpenFirst(facts: Facts, ds: seq<Instruction>)
    ensures Holds(facts, ds, 0, Running(false, None))
  {
  }

  lemma StoppedStays(facts: Facts, formatters: seq<Formatter>, pc: nat, state: DisplayState, i: Instruction)
    requires state.DisplayStopped?
    ensures DisplayStep(facts, FormatterFacts(facts, formatters), pc, state, i) == state
  {
  }

  /** With paired brackets and its formatters accepted, a display program is
      accepted exactly when each of its instructions passes at its place. */
  lemma DisplaysAcceptedIff(facts: Facts, formatters: seq<Formatter>, ds: seq<Instruction>)
    requires Paired(ds, 7, 8) && FormattersFine(facts, formatters)
    ensures DisplaysVerdict(facts, FormatterFacts(facts, formatters), ds) == Accepted <==>
            forall pc: nat :: pc < |ds| ==> Passes(facts, formatters, ds, pc)
  {
    hide Passes, FormattersFine, Paired, FormatterFacts, DisplayRun, Holds;
    RunIff(facts, formatters, ds, |ds|);
    assert ds[..|ds|] == ds;
  }
}
