/** `CalldataCompiler.compile` (keepkeylib/erc7730_compiler.py) from a signature
    and descriptor fields to the tables of a program. */
module Compiler {
  import opened Wrappers
  import opened AbiTypes
  import opened Program
  import opened DisplayFields
  import opened Formatters
  import opened ProgramPools
  import opened ProgramBuilder
  import opened CompiledDisplay
  import opened DisplayEmitter
  import opened DeviceSoundness

  // ------------------------------------------------------------------- fields

  function InterpolatedPaths(tokens: seq<Token>): set<string> {
    set t | t in tokens && t.ValueToken? :: Normalized(t.path)
  }

  /** A hidden field whose value is interpolated is shown after all. */
  function Promoted(f: Field): Field {
    if f.visible.Never? then f.(visible := Always) else f
  }

  /** A hidden field that no interpolation needs. */
  predicate Dropped(f: Field, interpolated: set<string>) {
    f.visible.Never? && !(f.path.Some? && Normalized(f.path.value) in interpolated)
  }

  /** The fields that are compiled. */
  function Shown(fields: seq<Field>, interpolated: set<string>): seq<Field> {
    if fields == [] then []
    else
      var n := |fields| - 1;
      Shown(fields[..n], interpolated) + if Dropped(fields[n], interpolated) then [] else [Promoted(fields[n])]
  }

  // ------------------------------------------------------------------ strings

  function Optionally(text: Option<string>): seq<string> {
    if Given(text) then [text.value] else []
  }

  function EnumLabels(entries: seq<(Scalar, string)>): seq<string> {
    if entries == [] then [] else [entries[0].1] + EnumLabels(entries[1..])
  }

  /** The texts a field contributes to the string table. */
  function FieldTexts(f: Field): seq<string> {
    [f.title]
    + (match f.value case Some(Word(text)) => if IsHex(text) then [] else [text] case _ => [])
    + (if f.format == "enum" then EnumLabels(f.params.enumEntries)
       else if f.format == "date" then [f.params.encoding]
       else if f.format == "unit" then [f.params.base]
       else if f.format == "tokenAmount" then Optionally(f.params.message)
       else [])
    + Optionally(f.separator)
  }

  function AllFieldTexts(fields: seq<Field>): seq<string> {
    if fields == [] then [] else FieldTexts(fields[0]) + AllFieldTexts(fields[1..])
  }

  function CaptionTexts(ranges: seq<Range>): seq<string> {
    if ranges == [] then [] else Optionally(ranges[0].caption) + CaptionTexts(ranges[1..])
  }

  function TokenTexts(tokens: seq<Token>): seq<string> {
    if tokens == [] then []
    else (match tokens[0] case TextToken(text) => [text] case ValueToken(_) => []) + TokenTexts(tokens[1..])
  }

  /** Everything the string table is made from. */
  function ProgramTexts(fields: seq<Field>, ranges: seq<Range>, intent: string, tokens: seq<Token>,
      extra: seq<string>): seq<string>
  {
    [intent] + extra + CaptionTexts(ranges) + TokenTexts(tokens) + AllFieldTexts(fields)
  }

  // ---------------------------------------------------------------- arguments

  /** Python's order of argument tuples. */
  predicate ArgumentLess(a: Argument, b: Argument) {
    || a.role < b.role
    || (a.role == b.role && (a.source < b.source || (a.source == b.source && a.index < b.index)))
  }

  function InsertArgument(args: seq<Argument>, a: Argument): (r: seq<Argument>)
    ensures |r| == |args| + 1
    ensures forall x :: x in r <==> x in args || x == a
    ensures multiset(r) == multiset(args) + multiset{a}
  {
    if args == [] || !ArgumentLess(args[0], a) then [a] + args
    else
      assert args == [args[0]] + args[1..];
      [args[0]] + InsertArgument(args[1..], a)
  }

  /** `sorted(arguments)`. */
  function SortArguments(args: seq<Argument>): (r: seq<Argument>)
    ensures |r| == |args|
    ensures forall x :: x in r <==> x in args
    ensures multiset(r) == multiset(args)
  {
    if args == [] then []
    else
      assert args == [args[0]] + args[1..];
      InsertArgument(SortArguments(args[1..]), args[0])
  }

  predicate ArgumentsAscend(args: seq<Argument>) {
    |args| <= 1 || (!ArgumentLess(args[1], args[0]) && ArgumentsAscend(args[1..]))
  }

  lemma {:induction false} InsertArgumentAscends(args: seq<Argument>, a: Argument)
    requires ArgumentsAscend(args)
    ensures ArgumentsAscend(InsertArgument(args, a))
  {
    if args == [] || !ArgumentLess(args[0], a) {
      assert ([a] + args)[1..] == args;
    } else {
      InsertArgumentAscends(args[1..], a);
      assert InsertArgument(args, a)[1..] == InsertArgument(args[1..], a);
    }
  }

  /** Sorting orders the arguments by role, source and index. */
  lemma {:induction false} SortedAscends(args: seq<Argument>)
    ensures ArgumentsAscend(SortArguments(args))
  {
    if args != [] {
      SortedAscends(args[1..]);
      InsertArgumentAscends(SortArguments(args[1..]), args[0]);
    }
  }

  /** The value has the least role and stays in front. */
  lemma SortedValueFirst(args: seq<Argument>)
    requires args != [] && args[0].role == 1 && forall i :: 1 <= i < |args| ==> args[i].role > 1
    ensures SortArguments(args)[0] == args[0] && ValueFirst(SortArguments(args))
  {
    var rest := SortArguments(args[1..]);
    forall a | a in rest ensures a.role > 1 {
      assert a in args[1..];
    }
    assert rest != [] ==> rest[0] in rest;
    assert SortArguments(args) == [args[0]] + rest;
    forall k | 1 <= k < |SortArguments(args)| ensures SortArguments(args)[k].role != 1 {
      assert SortArguments(args)[k] == rest[k - 1] && rest[k - 1] in rest;
    }
  }

  function SortFormatter(f: Formatter): Formatter {
    f.(arguments := SortArguments(f.arguments))
  }

  function SortFormatters(fs: seq<Formatter>): (r: seq<Formatter>)
    ensures |r| == |fs| && forall i :: 0 <= i < |r| ==> r[i] == SortFormatter(fs[i])
  {
    seq(|fs|, i requires 0 <= i < |fs| => SortFormatter(fs[i]))
  }

  /** A sorted formatter says what its plan asks for: the same arguments in
      another order, the value's first. */
  ghost predicate FormatterSays(p: Pools, f: Formatter, plan: Plan) {
    && f.kind == plan.kind && ValueFirst(f.arguments) && ArgumentsAscend(f.arguments)
    && exists args: seq<Argument> ::
         multiset(args) == multiset(f.arguments) && AllDenote(p, args, plan.requests) && args != []
         && args[0] == f.arguments[0]
  }

  lemma PlanRoles(root: AbiType, f: Field)
    requires PlanOf(root, f).Ok?
    ensures var rs := PlanOf(root, f).value.requests;
            rs != [] && rs[0].role == 1 && forall i :: 1 <= i < |rs| ==> rs[i].role > 1
  {
    hide Requests, ValueRequest, PathOf;
    ValueRequestOn(root, f);
    var rs := Requests(root, PathOf(root, f), f).value.1;
    assert forall i :: 0 <= i < |rs| ==> Later(root, rs[i]);
  }

  lemma SortedSays(root: AbiType, p: Pools, field: Field, f: Formatter, plan: Plan)
    requires PlanOf(root, field) == Ok(plan) && FormatterDenotes(p, f, plan)
    ensures f.arguments != [] && SortFormatter(f).arguments[0] == f.arguments[0]
    ensures FormatterSays(p, SortFormatter(f), plan)
  {
    hide PlanOf, SortArguments;
    PlanRoles(root, field);
    forall i | 0 <= i < |f.arguments| ensures f.arguments[i].role == plan.requests[i].role {
      assert Denotes(p, f.arguments[i], plan.requests[i]);
    }
    SortedValueFirst(f.arguments);
    SortedAscends(f.arguments);
    assert multiset(SortArguments(f.arguments)) == multiset(f.arguments);
  }
}
