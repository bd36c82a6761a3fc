/** A compiled program read back to the descriptor it was made from
    (`CalldataCompiler.compile`, keepkeylib/erc7730_compiler.py). */
module CompiledReading {
  import opened Wrappers
  import opened AbiTypes
  import opened Program
  import opened DisplayFields
  import opened Formatters
  import opened ProgramPools
  import opened ProgramBuilder
  import opened CompiledDisplay
  import opened Compiler
  import opened CompiledProgram
  import opened CompiledRoles
  import opened Capabilities
  import opened CompiledMeaning
  import opened DescriptorMeaning
  import SignatureParser

  /** In the tables, the argument says what the field gives for `q`. */
  predicate ArgumentGives(root: AbiType, p: Pools, f: Field, a: Argument, q: Parameter) {
    a.role == q.Role() && Gives(root, f, q, ArgumentMeaning(p, a))
  }

  ghost predicate GivesSome(root: AbiType, p: Pools, f: Field, a: Argument) {
    exists q :: ArgumentGives(root, p, f, a, q)
  }

  predicate HasArgument(args: seq<Argument>, role: nat) {
    exists i :: 0 <= i < |args| && args[i].role == role
  }

  /** A formatter of the tables, read back: it stands under the number of the
      field's format, and its arguments are the parameters the field has, each
      once, in the order of their roles, with what the field gives. */
  ghost predicate ReadsBack(root: AbiType, p: Pools, f: Field, formatter: Formatter) {
    && (exists form: Format :: form.Name() == FormatOf(f) && form.Number() == formatter.kind)
    && (forall i :: 0 <= i < |formatter.arguments| ==> GivesSome(root, p, f, formatter.arguments[i]))
    && (forall q: Parameter :: HasArgument(formatter.arguments, q.Role()) <==> Present(f, q))
    && (forall i, j :: 0 <= i < j < |formatter.arguments| ==>
          formatter.arguments[i].role < formatter.arguments[j].role)
  }

  predicate StrictlyAscend(args: seq<Argument>) {
    forall i, j :: 0 <= i < j < |args| ==> args[i].role < args[j].role
  }

  lemma {:induction false} FirstIsLeast(args: seq<Argument>, i: nat)
    requires ArgumentsAscend(args) && i < |args|
    ensures args[0].role <= args[i].role
    decreases |args|
  {
    if i > 0 {
      FirstIsLeast(args[1..], i - 1);
    }
  }

  lemma FirstIsSame(a: seq<Argument>, b: seq<Argument>)
    requires multiset(a) == multiset(b) && StrictlyAscend(a) && ArgumentsAscend(b) && a != [] && b != []
    ensures a[0] == b[0]
  {
    hide ArgumentsAscend;
    SameArguments(a, b);
    assert a[0] in b && b[0] in a;
    var i :| 0 <= i < |b| && b[i] == a[0];
    FirstIsLeast(b, i);
    var j :| 0 <= j < |a| && a[j] == b[0];
  }

  lemma RestsMatch(a: seq<Argument>, b: seq<Argument>)
    requires multiset(a) == multiset(b) && a != [] && b != [] && a[0] == b[0]
    ensures multiset(a[1..]) == multiset(b[1..])
  {
    assert a == [a[0]] + a[1..] && b == [b[0]] + b[1..];
    assert multiset(a[1..]) == multiset(a) - multiset{a[0]} && multiset(b[1..]) == multiset(b) - multiset{b[0]};
  }

  /** Arguments with different roles have one sorted order. */
  lemma {:induction false} SortedUnique(a: seq<Argument>, b: seq<Argument>)
    requires multiset(a) == multiset(b) && StrictlyAscend(a) && ArgumentsAscend(b)
    ensures a == b
    decreases |a|
  {
    assert |multiset(a)| == |a| && |multiset(b)| == |b|;
    if a != [] {
      FirstIsSame(a, b);
      RestsMatch(a, b);
      SortedUnique(a[1..], b[1..]);
      assert a == [a[0]] + a[1..] && b == [b[0]] + b[1..];
    }
  }

  lemma SaidInOrder(root: AbiType, p: Pools, f: Field, formatter: Formatter, plan: Plan)
    requires PlanOf(root, f) == Ok(plan) && FormatterSays(p, formatter, plan)
    ensures AllDenote(p, formatter.arguments, plan.requests) && StrictlyAscend(formatter.arguments)
  {
    hide PlanOf, Denotes, AllSpeak, HasRole, Present, ArgumentsAscend, FormatOf, Describable;
    PlanCovers(root, f);
    var args: seq<Argument> :|
      multiset(args) == multiset(formatter.arguments) && AllDenote(p, args, plan.requests) && args != []
      && args[0] == formatter.arguments[0];
    forall i | 0 <= i < |args| ensures args[i].role == plan.requests[i].role {
      DenotedSource(p, args[i], plan.requests[i]);
    }
    SortedUnique(args, formatter.arguments);
  }

  lemma ReadBack(root: AbiType, p: Pools, f: Field, formatter: Formatter, plan: Plan)
    requires PlanOf(root, f) == Ok(plan) && FormatterSays(p, formatter, plan)
    ensures ReadsBack(root, p, f, formatter) && AllDenote(p, formatter.arguments, plan.requests)
  {
    hide PlanOf, Denotes, Gives, Present, ArgumentMeaning, RequestMeaning, Readable, FormatOf, Describable, Between;
    PlanCovers(root, f);
    SaidInOrder(root, p, f, formatter, plan);
    var args := formatter.arguments;
    forall i | 0 <= i < |args| ensures GivesSome(root, p, f, args[i]) {
      assert SpeaksForSome(root, f, plan.requests[i]);
      var q :| Speaks(root, f, plan.requests[i], q);
      DenotedSource(p, args[i], plan.requests[i]);
      DenotedMeaning(p, args[i], plan.requests[i]);
      assert ArgumentGives(root, p, f, args[i], q);
    }
    forall q: Parameter ensures HasArgument(args, q.Role()) <==> Present(f, q) {
      SameRoles(p, args, plan.requests, q.Role());
      EveryRole(q);
    }
  }

  lemma EveryRole(q: Parameter)
    ensures 1 <= q.Role() < 23
  {
  }

  /** Every formatter of a compilation, read back to its field. */
  lemma CompiledReadsBack(root: AbiType, ranges: seq<Range>, fields: seq<Field>, intent: string, tokens: seq<Token>,
      t: Tables, e: Evidence)
    requires IsCompiled(root, ranges, fields, intent, tokens, t, e)
    ensures |t.formatters| == |fields|
    ensures forall j :: 0 <= j < |fields| ==> ReadsBack(root, PoolsOf(t), fields[j], t.formatters[j])
  {
    hide TablesSay, DisplaysSay, PlanOf, FormatterSays, ReadsBack;
    forall j | 0 <= j < |fields| ensures ReadsBack(root, PoolsOf(t), fields[j], t.formatters[j]) {
      ReadBack(root, PoolsOf(t), fields[j], t.formatters[j], e.plans[j]);
    }
  }

  // ---------------------------------------------------------------- conditions

  /** Each value of a rule has its literal in the rule's set, in order. */
  predicate RuleSays(p: Pools, c: Condition, values: seq<Scalar>, kind: nat) {
    var m := ArgumentMeaning(p, Argument(0, 2, c.literals));
    && m.OneOf? && |m.members| == |values|
    && forall i :: 0 <= i < |values| ==> Compares(kind, values[i], m.members[i])
  }

  lemma {:induction false} RuleLiterals(node: AbiType, values: seq<Scalar>)
    ensures ConditionLiterals(node, values).Ok? ==>
              var ls := ConditionLiterals(node, values).value;
              && |ls| == |values|
              && forall i :: 0 <= i < |ls| ==>
                   PlainLiteral(ls[i]) && Compares(node.Kind(), values[i], LiteralMeaning([], ls[i]))
    ensures (forall i :: 0 <= i < |values| ==> ConditionLiteral(node, values[i]).Ok?) ==>
              ConditionLiterals(node, values).Ok?
    decreases |values|
  {
    hide ConditionLiteral, Compares, LiteralMeaning, PlainLiteral;
    if values != [] {
      RuleLiterals(node, values[1..]);
      assert forall i :: 1 <= i < |values| ==> values[i] == values[1..][i - 1];
      if ConditionLiteral(node, values[0]).Ok? {
        ComparedLiteral(node, values[0]);
      }
    }
  }

  /** A rule of the tables, read back: the values the visibility compares with. */
  lemma RuleReadsBack(p: Pools, c: Condition, opcode: nat, values: seq<Scalar>, node: AbiType, value: nat)
    requires RuleFor(p, c, opcode, values, node, value)
    ensures RuleSays(p, c, values, node.Kind())
  {
    hide LiteralMeaning, Compares, PlainLiteral, ArgumentMeaning, ConditionLiterals, IsSet;
    RuleLiterals(node, values);
    SetRead(p, Argument(0, 2, c.literals), ConditionLiterals(node, values).value);
  }

  ghost predicate Comparable(kind: nat, s: Scalar) {
    exists m :: Compares(kind, s, m)
  }

  /** A rule can be compiled exactly when each of its values suits the leaf. */
  lemma RuleReadyIff(node: AbiType, values: seq<Scalar>)
    ensures ConditionLiterals(node, values).Ok? <==>
            forall i :: 0 <= i < |values| ==> Comparable(node.Kind(), values[i])
  {
    hide ConditionLiteral, Compares, LiteralMeaning, PlainLiteral, ConditionLiterals;
    RuleLiterals(node, values);
    if forall i :: 0 <= i < |values| ==> Comparable(node.Kind(), values[i]) {
      forall i | 0 <= i < |values| ensures ConditionLiteral(node, values[i]).Ok? {
        assert Comparable(node.Kind(), values[i]);
        var m :| Compares(node.Kind(), values[i], m);
        ComparedTaken(node, values[i], m);
      }
    }
  }

  // ------------------------------------------------------------- descriptors

  /** The fields of a descriptor that are shown. */
  function ShownFields(items: seq<Item>, tokens: seq<Token>): seq<Field> {
    match DisplayFields.Flatten(items, None, 0)
    case Ok((fields, _)) => Shown(fields, InterpolatedPaths(tokens))
    case Raised => []
  }

  /** The formatters of the tables are those of the shown fields, in order. */
  ghost predicate ReadsDescriptor(signature: string, items: seq<Item>, tokens: seq<Token>, t: Tables) {
    && SignatureParser.ParseFunction(signature).Ok? && |t.formatters| == |ShownFields(items, tokens)|
    && forall j :: 0 <= j < |t.formatters| ==>
         ReadsBack(SignatureParser.ParseFunction(signature).value.1, PoolsOf(t), ShownFields(items, tokens)[j],
                   t.formatters[j])
  }

  lemma DescriptorReadBack(signature: string, items: seq<Item>, intent: string, tokens: seq<Token>, t: Tables,
      e: Evidence)
    requires CompiledFrom(signature, items, intent, tokens, t, e)
    ensures ReadsDescriptor(signature, items, tokens, t)
  {
    hide IsCompiled, ReadsBack, DisplayFields.Flatten, Shown, InterpolatedPaths, Encodable, WithinLimits,
      ResourcesRecorded;
    var root := SignatureParser.ParseFunction(signature).value.1;
    var (all, ranges) := DisplayFields.Flatten(items, None, 0).value;
    CompiledReadsBack(root, ranges, Shown(all, InterpolatedPaths(tokens)), intent, tokens, t, e);
  }
}
