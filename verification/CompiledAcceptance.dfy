/** What the device's formatter checks make of a compiled field
    (`device_refusal` on the output of `CalldataCompiler.compile`,
    keepkeylib/erc7730_compiler.py), in the descriptor's own terms: the format,
    the types its paths lead to, and the sizes of what it writes out. */
module CompiledAcceptance {
  import opened Wrappers
  import opened Bytes
  import opened Hex
  import opened AbiTypes
  import opened FlatAbi
  import opened AbiPaths
  import opened Program
  import opened DisplayFields
  import opened Formatters
  import opened ProgramPools
  import opened ProgramBuilder
  import opened CompiledDisplay
  import opened Compiler
  import opened CompiledProgram
  import opened CompiledRoles
  import opened Capabilities
  import opened CompiledMeaning
  import opened DescriptorMeaning
  import opened CompiledReading
  import opened DeviceRules
  import AbiWalk
  import DeviceSoundness
  import SignatureParser
  import Utf8

  /** The kind of leaf a path leads to, none elsewhere: a sender or receiver is
      an address, the value sent an unsigned integer. */
  function ReadKind(root: AbiType, path: Path): nat {
    match path
    case AbiPath(steps) =>
      (match NodeAt(root, steps)
       case Ok(Leaf(_, kind, _)) => kind
       case _ => 0)
    case ContainerPath(id) => if id in {1, 2} then ADDRESS else if id == 3 then UINT else 0
    case LiteralPath(_) => 0
  }

  /** The device takes this for the parameter of a format. */
  predicate Suits(root: AbiType, form: Format, q: Parameter, m: Meaning) {
    match m
    case PathTo(path) => ReadKind(root, path) in form.Takes(q)
    case Constant(c) =>
      || (q.ValueParameter? && form.RawFormat? && (c.Whole? || c.AddressOf? || c.Characters?))
      || (c.AddressOf? && ((q.TokenParameter? && form.TokenFormat?) || (q.CollectionParameter? && form.NftFormat?)))
    case Whole(n) => q.ThresholdParameter? || (q.DecimalsParameter? && n <= UNIT_DECIMALS_MAX)
    case Truth(_) => q.PrefixParameter?
    case Characters(text) =>
      if q.EncodingParameter? then text == "timestamp" || text == "blockheight"
      else |Utf8.Encode(text)| <= SIGNER_TEXT_MAX
    case OneOf(members) => |members| <= ALIAS_SET_MAX
    case Labelled(entries) => |entries| <= ENUM_MAX
    case _ => false
  }

  // -------------------------------------------------------------- paths

  lemma {:induction false} AcceptedSliceFree(steps: seq<Step>)
    requires StepsVerdict(steps) == Accepted
    ensures SliceFree(steps)
  {
    if steps != [] {
      AcceptedSliceFree(steps[1..]);
      assert forall i :: 1 <= i < |steps| ==> steps[i] == steps[1..][i - 1];
    }
  }

  lemma AcceptedPathFits(root: AbiType, rows: seq<Row>, p: Pools, calldata: bool, path: Path)
    requires PathIn(root, p, path) && path.AbiPath? && PathVerdict(rows, calldata, path) == Accepted
    ensures Fits(root, path.steps)
  {
    AcceptedSliceFree(path.steps);
    FollowsFits(root, path.steps);
  }

  /** On an accepted path the class the device works with is the leaf's kind. */
  lemma PathClassIs(root: AbiType, p: Pools, calldata: bool, path: Path)
    requires Valid(root) && PathIn(root, p, path) && !path.LiteralPath?
    requires PathVerdict(Rows(root), calldata, path) == Accepted
    ensures PathFactOf(Rows(root), path).leafClass == Direct(ReadKind(root, path))
  {
    if path.AbiPath? {
      AcceptedPathFits(root, Rows(root), p, calldata, path);
      AbiWalk.WalkOutcome(root, path.steps);
    }
  }

  /** The tables an accepted program's paths and types are in. */
  ghost predicate PathsFit(root: AbiType, t: Tables, calldata: bool) {
    && Valid(root) && t.abi == Rows(root)
    && forall i :: 0 <= i < |t.paths| ==>
         PathIn(root, PoolsOf(t), t.paths[i]) && PathVerdict(t.abi, calldata, t.paths[i]) == Accepted
  }

  /** A path argument, wherever it stands: the device refuses it for its type
      exactly when it leads to no leaf of a kind the format takes there. */
  lemma PathTypeIff(root: AbiType, t: Tables, calldata: bool, form: Format, q: Parameter, a: Argument, path: Path)
    requires PathsFit(root, t, calldata) && form.Executed() && InPath in form.From(q)
    requires a.role == q.Role() && ArgumentMeaning(PoolsOf(t), a) == PathTo(path) && a.source == 1
    ensures ArgumentVerdict(FactsOf(t, calldata), form.Number(), a) ==
              if ReadKind(root, path) in form.Takes(q) then Accepted else Refused(ArgumentType(form.Number(), a.role))
  {
    hide ReadKind, PathVerdict, PathIn, ValueAllowed, Sources;
    PathClassIs(root, PoolsOf(t), calldata, path);
    ValueAllowedIff(form, q, ReadKind(root, path));
    SourcesAre(form, q, InPath);
    NoUnitPath(form, q);
  }

  lemma NoUnitPath(form: Format, q: Parameter)
    requires form.Executed() && InPath in form.From(q)
    ensures !(form.Number() == 7 && q.Role() == 4)
  {
  }

  // -------------------------------------------------------------- arguments

  /** What the device takes as a constant. */
  lemma ConstantIff(root: AbiType, t: Tables, calldata: bool, form: Format, q: Parameter, a: Argument, r: Request)
    requires r.ConstantRequest? || r.TextConstantRequest?
    requires form.Executed() && a.role == q.Role() && Denotes(PoolsOf(t), a, r) && Readable(r)
    requires Permitted(form.Number(), r)
    ensures ArgumentVerdict(FactsOf(t, calldata), form.Number(), a) == Accepted <==>
              Suits(root, form, q, RequestMeaning(r))
  {
    hide Denotes, ValueAllowed, Sources, Readable, LiteralMeaning, Utf8.Encode;
    var facts, cls := FactsOf(t, calldata), ConstantClass(r);
    ConstantFacts(t, calldata, a, r);
    ConstantClassIs(r);
    ValueAllowedIff(form, q, cls);
    SourcesAre(form, q, InPath);
  }

  /** The class of the literal a constant became. */
  function ConstantClass(r: Request): nat
    requires r.ConstantRequest? || r.TextConstantRequest?
  {
    if r.TextConstantRequest? then STRING_REF else LiteralClass(r.literal)
  }

  lemma ConstantFacts(t: Tables, calldata: bool, a: Argument, r: Request)
    requires r.ConstantRequest? || r.TextConstantRequest?
    requires Denotes(PoolsOf(t), a, r)
    ensures var facts := FactsOf(t, calldata);
            IsConstant(facts, a) && ArgumentClass(facts, a) == ConstantClass(r) && a.source == 1
  {
    hide IsString;
    var facts := FactsOf(t, calldata);
    assert facts.paths[a.index] == PathFactOf(t.abi, t.paths[a.index]);
  }

  lemma ConstantClassIs(r: Request)
    requires (r.ConstantRequest? || r.TextConstantRequest?) && Readable(r)
    ensures var m, cls := RequestMeaning(r), ConstantClass(r);
            && m.Constant?
            && (m.of.Whole? <==> cls in {UINT, UINT_SMALL}) && (m.of.AddressOf? <==> cls == ADDRESS)
            && (m.of.Characters? <==> cls == STRING_REF) && cls in {0, UINT, UINT_SMALL, ADDRESS, STRING_REF, FLAG}
  {
  }

  lemma {:induction false} LeadingDigit(b: bytes)
    requires |b| > 1 && b[0] != 0
    ensures Value(b) >= 0x100
    decreases |b|
  {
    var init := b[..|b| - 1];
    if |b| == 2 {
      assert init[..0] == [];
    } else {
      LeadingDigit(init);
    }
  }

  /** Decimals are written in one byte, and are few enough, exactly when the
      number is. */
  lemma DecimalsIff(l: Literal)
    requires l.kind == 1 && ShortestBytes(l.value)
    ensures IsDecimals(l) <==> Value(l.value) <= UNIT_DECIMALS_MAX
    ensures Value(l.value) <= UNIT_DECIMALS_MAX ==> |l.value| == 1
  {
    if |l.value| == 1 {
      assert l.value[..0] == [];
    } else {
      LeadingDigit(l.value);
    }
  }

  lemma LiteralIff(root: AbiType, t: Tables, calldata: bool, form: Format, q: Parameter, a: Argument, r: Request)
    requires r.LiteralRequest? || r.SetRequest? || r.MapRequest?
    requires form.Executed() && a.role == q.Role() && Denotes(PoolsOf(t), a, r) && Readable(r)
    requires Permitted(form.Number(), r) && r.role != 11
    ensures ArgumentVerdict(FactsOf(t, calldata), form.Number(), a) == Accepted <==>
              Suits(root, form, q, RequestMeaning(r))
  {
    hide ValueAllowed, Sources, ArgumentClass, Utf8.Encode, LiteralMeaning, Value, IsSet, IsMap;
    DenotedClass(t, calldata, a, r);
    ValueAllowedIff(form, q, ArgumentClass(FactsOf(t, calldata), a));
    SourcesAre(form, q, InLiteral);
    if r.LiteralRequest? {
      PlainNumber(r.literal);
      if r.literal.kind == 1 {
        DecimalsIff(r.literal);
      }
      DecimalsListed(t, calldata, a, r);
    }
  }

  lemma PlainNumber(l: Literal)
    requires l.kind in {1, 6} && PlainLiteral(l)
    ensures l.kind == 1 ==> LiteralMeaning([], l) == Whole(Value(l.value))
    ensures l.kind == 6 && l.value in {[0], [1]} ==> LiteralMeaning([], l).Truth?
  {
  }

  lemma DecimalsListed(t: Tables, calldata: bool, a: Argument, r: Request)
    requires r.LiteralRequest? && Denotes(PoolsOf(t), a, r)
    ensures a.source == 2 && (a.index in FactsOf(t, calldata).decimals <==> IsDecimals(r.literal))
  {
  }

  lemma TextIff(root: AbiType, t: Tables, calldata: bool, form: Format, q: Parameter, a: Argument, r: Request)
    requires r.StringRequest? && r.role != 11
    requires form.Executed() && a.role == q.Role() && Denotes(PoolsOf(t), a, r) && Permitted(form.Number(), r)
    ensures ArgumentVerdict(FactsOf(t, calldata), form.Number(), a) == Accepted <==>
              Suits(root, form, q, RequestMeaning(r))
  {
    hide ValueAllowed, Sources, ArgumentClass, Utf8.Encode;
    DenotedClass(t, calldata, a, r);
    ValueAllowedIff(form, q, ArgumentClass(FactsOf(t, calldata), a));
    SourcesAre(form, q, InText);
    assert a.index in FactsOf(t, calldata).short <==> |Utf8.Encode(r.text)| <= SIGNER_TEXT_MAX;
  }

  lemma ChainUnsuited(root: AbiType, f: Field, form: Format, m: Meaning)
    requires Gives(root, f, ChainParameter, m)
    ensures !Suits(root, form, ChainParameter, m)
  {
  }

  lemma ChainRefusedAlone(facts: Facts, kind: nat, a: Argument)
    requires a.role == 11
    ensures ArgumentVerdict(facts, kind, a) != Accepted
  {
  }

  lemma PathPermitted(form: Format, q: Parameter, r: Request)
    requires form.Executed() && r.PathRequest? && r.role == q.Role() && r.role != 11 && Permitted(form.Number(), r)
    ensures InPath in form.From(q)
  {
    SourcesAre(form, q, InPath);
  }

  /** An argument that says what a field gives is accepted exactly when that
      suits the format. */
  lemma ArgumentIff(root: AbiType, t: Tables, calldata: bool, f: Field, form: Format, q: Parameter, a: Argument,
      r: Request)
    requires PathsFit(root, t, calldata) && form.Executed()
    requires Speaks(root, f, r, q) && Denotes(PoolsOf(t), a, r) && Permitted(form.Number(), r)
    ensures ArgumentVerdict(FactsOf(t, calldata), form.Number(), a) == Accepted <==>
            Suits(root, form, q, ArgumentMeaning(PoolsOf(t), a))
  {
    hide PathsFit, ArgumentVerdict, FactsOf, Denotes, Gives, Permitted, Suits, Readable, RequestMeaning,
      ArgumentMeaning;
    DenotedMeaning(PoolsOf(t), a, r);
    DenotedSource(PoolsOf(t), a, r);
    if r.role == 11 {
      RoleDistinct(q, ChainParameter);
      ChainUnsuited(root, f, form, RequestMeaning(r));
      ChainRefusedAlone(FactsOf(t, calldata), form.Number(), a);
    } else {
      match r
      case PathRequest(_, path) =>
        PathPermitted(form, q, r);
        PathMeans(r);
        PathTypeIff(root, t, calldata, form, q, a, path);
        SuitsPath(root, form, q, path);
      case ConstantRequest(_, _) => ConstantIff(root, t, calldata, form, q, a, r);
      case TextConstantRequest(_, _) => ConstantIff(root, t, calldata, form, q, a, r);
      case StringRequest(_, _) => TextIff(root, t, calldata, form, q, a, r);
      case _ => LiteralIff(root, t, calldata, form, q, a, r);
    }
  }

  lemma PathMeans(r: Request)
    requires r.PathRequest?
    ensures RequestMeaning(r) == PathTo(r.path)
  {
  }

  lemma SuitsPath(root: AbiType, form: Format, q: Parameter, path: Path)
    ensures Suits(root, form, q, PathTo(path)) <==> ReadKind(root, path) in form.Takes(q)
  {
  }

  // -------------------------------------------------------------- formatters

  /** The argument loop goes through exactly when it accepts every argument, and
      then it has seen their roles. */
  lemma {:induction false} AllAccepted(facts: Facts, kind: nat, args: seq<Argument>)
    ensures ReadArgumentsState(facts, kind, args).Reading? <==>
            forall k :: 0 <= k < |args| ==> ArgumentVerdict(facts, kind, args[k]) == Accepted
    ensures ReadArgumentsState(facts, kind, args).Reading? ==>
              forall k :: 0 <= k < |args| ==> args[k].role in ReadArgumentsState(facts, kind, args).soFar.seen
    decreases |args|
  {
    hide ArgumentVerdict;
    if args != [] {
      var init := args[..|args| - 1];
      AllAccepted(facts, kind, init);
      assert forall k :: 0 <= k < |init| ==> init[k] == args[k];
    }
  }

  /** Everything the field gives suits a format the device executes; calls are
      embedded in calldata only. */
  ghost predicate Executable(root: AbiType, f: Field, calldata: bool, form: Format) {
    && form.Name() == FormatOf(f) && form.Executed() && (form.CalldataFormat? ==> calldata)
    && forall q, m :: Gives(root, f, q, m) ==> Suits(root, form, q, m)
  }

  lemma {:induction false} SameShortest(a: bytes, b: bytes)
    requires ShortestBytes(a) && ShortestBytes(b) && Value(a) == Value(b)
    ensures a == b
  {
    hide Value, BigEndian;
    BigEndianOfValue(a);
    BigEndianOfValue(b);
    if |a| < |b| {
      ShorterIsLess(a, b);
    } else if |b| < |a| {
      ShorterIsLess(b, a);
    }
  }

  lemma {:induction false} ShorterIsLess(a: bytes, b: bytes)
    requires |a| < |b| && b[0] != 0
    ensures Value(a) < Value(b)
    decreases |b|
  {
    if |b| == 1 {
      assert b[..0] == [];
    } else if a == [] {
      ShorterIsLess([], b[..|b| - 1]);
    } else {
      ShorterIsLess(a[..|a| - 1], b[..|b| - 1]);
    }
  }

  lemma ComparesOne(kind: nat, s: Scalar, m: Meaning, n: Meaning)
    requires Compares(kind, s, m) && Compares(kind, s, n)
    ensures m == n
  {
    hide Value;
    if m.Octets? && n.Octets? && !s.Word? {
      SameShortest(m.data, n.data);
    }
  }

  /** A field gives one meaning for each parameter. */
  lemma GivesOne(root: AbiType, f: Field, q: Parameter, m: Meaning, n: Meaning)
    requires Gives(root, f, q, m) && Gives(root, f, q, n)
    ensures m == n
  {
    hide ResolvePath, NodeOf, Compares, Names, NamesChain, ShownConstant, Leads, AddressIn, NumberIn, BehindPrefix;
    match q
    case ValueParameter =>
      if f.value.Some? {
        ConstantOne(f.value.value, m.of, n.of);
      } else {
        LeadsOne(root, f.path.value, m, n);
      }
    case TokenParameter => NamesOne(root, TokenNamed(f).value, m, n);
    case CollectionParameter => NamesOne(root, CollectionNamed(f).value, m, n);
    case ChainParameter => ChainOne(root, ChainNamed(f).value, m, n);
    case CalleeParameter => LeadsOne(root, f.params.calleePath.value, m, n);
    case AmountParameter => LeadsOne(root, f.params.amountPath.value, m, n);
    case SpenderParameter => LeadsOne(root, f.params.spenderPath.value, m, n);
    case ThresholdParameter => ThresholdOne(f.params.threshold.value, m.n, n.n);
    case LabelsParameter =>
      forall i | 0 <= i < |m.entries| ensures m.entries[i] == n.entries[i] {
        ComparesOne(NodeOf(root, f).Kind(), f.params.enumEntries[i].0, m.entries[i].0, n.entries[i].0);
      }
    case AliasesParameter =>
      forall i | 0 <= i < |m.members| ensures m.members[i] == n.members[i] {
        AddressOne(f.params.aliases[i], m.members[i].address, n.members[i].address);
      }
    case _ =>
  }

  lemma LeadsOne(root: AbiType, text: string, m: Meaning, n: Meaning)
    requires Leads(root, text, m) && Leads(root, text, n)
    ensures m == n
  {
  }

  lemma AddressOne(s: Scalar, a: bytes, b: bytes)
    requires AddressIn(s, a) && AddressIn(s, b)
    ensures a == b
  {
  }

  lemma NamesOne(root: AbiType, s: Scalar, m: Meaning, n: Meaning)
    requires Names(root, s, m) && Names(root, s, n)
    ensures m == n
  {
    hide ResolvePath;
  }

  lemma ChainOne(root: AbiType, s: Scalar, m: Meaning, n: Meaning)
    requires NamesChain(root, s, m) && NamesChain(root, s, n)
    ensures m == n
  {
    hide ResolvePath;
  }

  lemma ConstantOne(s: Scalar, m: Meaning, n: Meaning)
    requires ShownConstant(s, m) && ShownConstant(s, n)
    ensures m == n
  {
  }

  lemma ThresholdOne(s: Scalar, m: int, n: int)
    requires if BehindPrefix(s) then HexValue(s.text[2..]) == Ok(m) && HexValue(s.text[2..]) == Ok(n)
             else NumberIn(s, m) && NumberIn(s, n)
    ensures m == n
  {
  }

  lemma NameNumber(form: Format, kind: nat)
    requires exists other: Format :: other.Name() == form.Name() && other.Number() == kind
    ensures form.Number() == kind
  {
    var other: Format :| other.Name() == form.Name() && other.Number() == kind;
    FormatTaken(form);
    FormatTaken(other);
  }

  lemma NumberDistinct(form: Format, other: Format)
    ensures form.Number() == other.Number() ==> form == other
  {
  }

  lemma ArgumentSuits(root: AbiType, t: Tables, calldata: bool, f: Field, plan: Plan, formatter: Formatter,
      form: Format, k: nat)
    requires PathsFit(root, t, calldata) && PlanOf(root, f) == Ok(plan) && FormatterSays(PoolsOf(t), formatter, plan)
    requires form.Number() == plan.kind && form.Executed() && k < |formatter.arguments|
    ensures exists q :: ArgumentGives(root, PoolsOf(t), f, formatter.arguments[k], q)
    ensures forall q :: ArgumentGives(root, PoolsOf(t), f, formatter.arguments[k], q) ==>
              (ArgumentVerdict(FactsOf(t, calldata), plan.kind, formatter.arguments[k]) == Accepted <==>
               Suits(root, form, q, ArgumentMeaning(PoolsOf(t), formatter.arguments[k])))
  {
    hide PathsFit, PlanOf, FormatterSays, ArgumentVerdict, FactsOf, Denotes, Gives, Permitted, Suits, Readable,
      RequestMeaning, ArgumentMeaning, Describable, Between;
    PlanCovers(root, f);
    SaidInOrder(root, PoolsOf(t), f, formatter, plan);
    KnownKindIff(plan.kind);
    PlanPermitted(root, f, plan);
    var a, r := formatter.arguments[k], plan.requests[k];
    assert Denotes(PoolsOf(t), a, r) && Permitted(plan.kind, r) && SpeaksForSome(root, f, r);
    var o :| Speaks(root, f, r, o);
    DenotedSource(PoolsOf(t), a, r);
    DenotedMeaning(PoolsOf(t), a, r);
    ArgumentIff(root, t, calldata, f, form, o, a, r);
    assert ArgumentGives(root, PoolsOf(t), f, a, o);
    forall q | ArgumentGives(root, PoolsOf(t), f, a, q) ensures q == o {
      RoleDistinct(q, o);
    }
  }

  /** The argument loop goes through exactly when all the field gives suits. */
  lemma ArgumentsSuit(root: AbiType, t: Tables, calldata: bool, f: Field, plan: Plan, formatter: Formatter,
      form: Format)
    requires PathsFit(root, t, calldata) && PlanOf(root, f) == Ok(plan) && FormatterSays(PoolsOf(t), formatter, plan)
    requires form.Number() == plan.kind && form.Executed()
    ensures ReadArgumentsState(FactsOf(t, calldata), formatter.kind, formatter.arguments).Reading? <==>
            forall q, m :: Gives(root, f, q, m) ==> Suits(root, form, q, m)
  {
    hide PathsFit, PlanOf, ArgumentVerdict, FactsOf, Gives, Suits, ArgumentMeaning, ReadArgumentsState, Present,
      AllDenote, FormatOf, ArgumentsAscend;
    var facts, args := FactsOf(t, calldata), formatter.arguments;
    AllAccepted(facts, plan.kind, args);
    ReadBack(root, PoolsOf(t), f, formatter, plan);
    if forall k :: 0 <= k < |args| ==> ArgumentVerdict(facts, plan.kind, args[k]) == Accepted {
      forall q, m | Gives(root, f, q, m) ensures Suits(root, form, q, m) {
        GivenIsPresent(root, f, q, m);
        assert HasArgument(args, q.Role());
        var k :| 0 <= k < |args| && args[k].role == q.Role();
        ArgumentSuits(root, t, calldata, f, plan, formatter, form, k);
        var o :| ArgumentGives(root, PoolsOf(t), f, args[k], o);
        RoleDistinct(q, o);
        GivesOne(root, f, q, m, ArgumentMeaning(PoolsOf(t), args[k]));
      }
    }
    if forall q, m :: Gives(root, f, q, m) ==> Suits(root, form, q, m) {
      forall k | 0 <= k < |args| ensures ArgumentVerdict(facts, plan.kind, args[k]) == Accepted {
        ArgumentSuits(root, t, calldata, f, plan, formatter, form, k);
        var o :| ArgumentGives(root, PoolsOf(t), f, args[k], o);
      }
    }
  }

  lemma GivenIsPresent(root: AbiType, f: Field, q: Parameter, m: Meaning)
    requires Gives(root, f, q, m)
    ensures Present(f, q)
  {
  }

  lemma RequiredSeen(root: AbiType, t: Tables, calldata: bool, f: Field, plan: Plan, formatter: Formatter)
    requires PlanOf(root, f) == Ok(plan) && FormatterSays(PoolsOf(t), formatter, plan) && KnownKind(formatter.kind)
    requires ReadArgumentsState(FactsOf(t, calldata), formatter.kind, formatter.arguments).Reading?
    ensures Required(formatter.kind) <=
              ReadArgumentsState(FactsOf(t, calldata), formatter.kind, formatter.arguments).soFar.seen
  {
    hide PlanOf, FormatterSays, FactsOf, ReadArgumentsState, Required, Sources;
    var args := formatter.arguments;
    AllAccepted(FactsOf(t, calldata), formatter.kind, args);
    CompiledRolesAccepted(root, PoolsOf(t), f, plan, formatter, Argument(1, 1, 0));
  }

  /** What is left of the formatter check once the arguments are through. */
  lemma CheckGoesOn(root: AbiType, t: Tables, calldata: bool, f: Field, plan: Plan, formatter: Formatter, form: Format)
    requires PlanOf(root, f) == Ok(plan) && FormatterSays(PoolsOf(t), formatter, plan)
    requires form.Number() == plan.kind
    ensures FormatterCheck(FactsOf(t, calldata), formatter).FormatterOk? <==>
            && form.Executed() && (form.CalldataFormat? ==> calldata)
            && ReadArgumentsState(FactsOf(t, calldata), formatter.kind, formatter.arguments).Reading?
  {
    hide PlanOf, ReadArgumentsState, Required, KnownKind, AllDenote, ArgumentsAscend;
    KnownKindIff(plan.kind);
    CalldataNumber(form);
    if KnownKind(plan.kind) {
      var other: Format :| other.Number() == plan.kind && other.Executed();
      NumberDistinct(form, other);
      if ReadArgumentsState(FactsOf(t, calldata), formatter.kind, formatter.arguments).Reading? {
        RequiredSeen(root, t, calldata, f, plan, formatter);
      }
    }
  }

  ghost predicate FieldExecutable(root: AbiType, f: Field, calldata: bool) {
    exists form :: Executable(root, f, calldata, form)
  }

  /** The device accepts a compiled formatter exactly when it executes the
      field's format and takes everything the field gives: types that its paths
      lead to, constants only where it shows them, short texts, few decimals,
      labels and aliases, a date encoding it knows, and no chain. */
  lemma FormatterAcceptedIff(root: AbiType, t: Tables, calldata: bool, f: Field, plan: Plan, formatter: Formatter)
    requires PathsFit(root, t, calldata) && PlanOf(root, f) == Ok(plan) && FormatterSays(PoolsOf(t), formatter, plan)
    ensures FormatterCheck(FactsOf(t, calldata), formatter).FormatterOk? <==> FieldExecutable(root, f, calldata)
  {
    hide PathsFit, PlanOf, FactsOf, FormatterCheck, FormatterSays, ReadArgumentsState, Gives, Suits, FormatOf,
      DescriptorMeaning.Covers, Describable;
    PlanCovers(root, f);
    SameKind(PoolsOf(t), formatter, plan);
    var form: Format :| form.Name() == FormatOf(f) && form.Number() == plan.kind;
    CheckGoesOn(root, t, calldata, f, plan, formatter, form);
    if form.Executed() {
      ArgumentsSuit(root, t, calldata, f, plan, formatter, form);
    }
    forall other | Executable(root, f, calldata, other) ensures other == form {
      NameNumber(other, plan.kind);
      NumberDistinct(form, other);
    }
    assert Executable(root, f, calldata, form) <==> FormatterCheck(FactsOf(t, calldata), formatter).FormatterOk?;
  }

  lemma SameKind(p: Pools, formatter: Formatter, plan: Plan)
    requires FormatterSays(p, formatter, plan)
    ensures formatter.kind == plan.kind
  {
  }

  lemma CalldataNumber(form: Format)
    ensures form.CalldataFormat? <==> form.Number() == 13
  {
  }

  lemma {:induction false} FormattersIff(facts: Facts, fs: seq<Formatter>)
    ensures FormattersVerdict(facts, fs) == Accepted <==>
            forall i :: 0 <= i < |fs| ==> FormatterCheck(facts, fs[i]).FormatterOk?
    decreases |fs|
  {
    hide FormatterCheck;
    if fs != [] {
      FormattersIff(facts, fs[1..]);
      assert forall i :: 1 <= i < |fs| ==> fs[i] == fs[1..][i - 1];
    }
  }

  /** With its paths accepted, a compilation passes the formatter checks exactly
      when every shown field is executable. */
  lemma FormattersAcceptedIff(root: AbiType, ranges: seq<Range>, fields: seq<Field>, intent: string, tokens: seq<Token>,
      t: Tables, e: Evidence, calldata: bool)
    requires IsCompiled(root, ranges, fields, intent, tokens, t, e) && PathsFit(root, t, calldata)
    ensures FormattersVerdict(FactsOf(t, calldata), t.formatters) == Accepted <==>
            forall j :: 0 <= j < |fields| ==> FieldExecutable(root, fields[j], calldata)
  {
    hide TablesSay, DisplaysSay, PathsFit, PlanOf, FormatterSays, FactsOf, FormatterCheck, FieldExecutable;
    FormattersIff(FactsOf(t, calldata), t.formatters);
    forall j | 0 <= j < |fields|
      ensures FormatterCheck(FactsOf(t, calldata), t.formatters[j]).FormatterOk? <==>
              FieldExecutable(root, fields[j], calldata)
    {
      FormatterAcceptedIff(root, t, calldata, fields[j], e.plans[j], t.formatters[j]);
    }
  }

  /** The format a field names takes the class of value for the role. */
  ghost predicate FieldTakes(f: Field, role: nat, cls: nat) {
    exists form: Format, q: Parameter :: form.Name() == FormatOf(f) && TakenFor(form, q, form.Number(), role, cls)
  }

  lemma TakenByField(root: AbiType, p: Pools, f: Field, formatter: Formatter, role: nat, cls: nat)
    requires ReadsBack(root, p, f, formatter) && Taken(formatter.kind, role, cls)
    ensures FieldTakes(f, role, cls)
  {
    hide FormatOf, GivesSome, HasArgument, Present;
    var form: Format :| form.Name() == FormatOf(f) && form.Number() == formatter.kind;
    var other: Format, q: Parameter :| TakenFor(other, q, formatter.kind, role, cls);
    NumberDistinct(form, other);
  }

  // ------------------------------------------------------------ compilations

  /** The device can show every shown field. */
  ghost predicate FieldsExecutable(signature: string, items: seq<Item>, tokens: seq<Token>, calldata: bool) {
    && SignatureParser.ParseFunction(signature).Ok?
    && forall j :: 0 <= j < |ShownFields(items, tokens)| ==>
         FieldExecutable(SignatureParser.ParseFunction(signature).value.1, ShownFields(items, tokens)[j], calldata)
  }

  /** With its paths accepted, a compilation passes the formatter checks exactly
      when the device can show every shown field. */
  lemma CompiledFormattersIff(signature: string, items: seq<Item>, intent: string, tokens: seq<Token>, t: Tables,
      e: Evidence, calldata: bool)
    requires CompiledFrom(signature, items, intent, tokens, t, e) && PathsVerdict(t.abi, calldata, t.paths) == Accepted
    ensures FormattersVerdict(FactsOf(t, calldata), t.formatters) == Accepted <==>
            FieldsExecutable(signature, items, tokens, calldata)
  {
    hide FormattersVerdict, FactsOf, FieldExecutable, DisplayFields.Flatten, Shown, InterpolatedPaths, IsCompiled,
      PathsVerdict, Encodable, WithinLimits, ResourcesRecorded, PathsFit;
    var root := SignatureParser.ParseFunction(signature).value.1;
    var (all, ranges) := DisplayFields.Flatten(items, None, 0).value;
    var fields := Shown(all, InterpolatedPaths(tokens));
    assert ShownFields(items, tokens) == fields;
    CompiledPathsFit(root, ranges, fields, intent, tokens, t, e, calldata, signature);
    FormattersAcceptedIff(root, ranges, fields, intent, tokens, t, e, calldata);
  }

  lemma CompiledPathsFit(root: AbiType, ranges: seq<Range>, fields: seq<Field>, intent: string, tokens: seq<Token>,
      t: Tables, e: Evidence, calldata: bool, signature: string)
    requires SignatureParser.ParseFunction(signature).Ok? && root == SignatureParser.ParseFunction(signature).value.1
    requires IsCompiled(root, ranges, fields, intent, tokens, t, e)
    requires PathsVerdict(t.abi, calldata, t.paths) == Accepted
    ensures PathsFit(root, t, calldata)
  {
    hide FormattersSay, DisplaysSay, PathIn, PathVerdict, PathsVerdict;
    SignatureParser.ParsedFunctionValid(signature);
    forall i | 0 <= i < |t.paths| ensures PathVerdict(t.abi, calldata, t.paths[i]) == Accepted {
      DeviceSoundness.PathAccepted(t.abi, calldata, t.paths, i);
    }
  }
}
