/** The table-building half of `CalldataCompiler.compile`
    (keepkeylib/erc7730_compiler.py): interned paths, appended literals, and one
    formatter per field. */
module ProgramBuilder {
  import opened Wrappers
  import opened Bytes
  import opened AbiTypes
  import opened AbiPaths
  import opened Program
  import opened DisplayFields
  import opened Formatters
  import opened ProgramPools
  import opened Demands
  import opened TableContents
  import Utf8

  /** What a field asks of its formatter: a kind and argument requests, the
      value's first. */
  datatype Plan = Plan(kind: nat, requests: seq<Request>)

  ghost predicate FormatterDenotes(p: Pools, f: Formatter, plan: Plan) {
    f.kind == plan.kind && AllDenote(p, f.arguments, plan.requests)
  }

  /** A display condition: always shown, or a rule over a set of literals. */
  ghost predicate ConditionIn(p: Pools, c: Condition) {
    || c == Condition(3, ABSENT, ABSENT)
    || (c.opcode in {7, 8} && c.path < |p.paths| && exists members :: IsSet(p, c.literals, members))
  }

  /** A rule on the value at path `value`, over the literals of `values`. */
  ghost predicate RuleFor(p: Pools, c: Condition, opcode: nat, values: seq<Scalar>, node: AbiType, value: nat) {
    && values != [] && c.opcode == opcode && c.path == value
    && ConditionLiterals(node, values).Ok? && IsSet(p, c.literals, ConditionLiterals(node, values).value)
  }

  /** Condition `c` is what a field's visibility asks for. */
  ghost predicate ConditionFor(p: Pools, conditions: seq<Condition>, c: nat, visible: Visibility, node: AbiType,
      value: nat)
  {
    match visible
    case Always => c == ABSENT
    case OtherVisible => c == ABSENT
    case Never => c == ABSENT
    case Optional => c < |conditions| && conditions[c] == Condition(3, ABSENT, ABSENT)
    case IfNotIn(values) => c < |conditions| && RuleFor(p, conditions[c], 7, values, node, value)
    case MustMatch(values) => c < |conditions| && RuleFor(p, conditions[c], 8, values, node, value)
    case InvalidRule => false
  }

  ghost predicate PathIn(root: AbiType, p: Pools, path: Path) {
    PathOn(root, path) || (path.LiteralPath? && path.literal < |p.literals|)
  }

  /** A rule has values, and they suit the node. */
  predicate RuleReady(visible: Visibility, node: AbiType) {
    match visible
    case InvalidRule => false
    case IfNotIn(values) => values != [] && ConditionLiterals(node, values).Ok?
    case MustMatch(values) => values != [] && ConditionLiterals(node, values).Ok?
    case _ => true
  }

  function RuleDemand(visible: Visibility): Demand {
    match visible
    case IfNotIn(values) => Demand({}, 0, |values| + 1)
    case MustMatch(values) => Demand({}, 0, |values| + 1)
    case _ => NOTHING
  }

  /** One condition for a rule, and one for all optional fields together. */
  function ConditionCount(visible: Visibility, hasOptional: bool): nat {
    match visible
    case IfNotIn(_) => 1
    case MustMatch(_) => 1
    case Optional => if hasOptional then 0 else 1
    case _ => 0
  }

  predicate RuleFits(visible: Visibility, node: AbiType)
    requires RuleReady(visible, node)
  {
    match visible
    case IfNotIn(values) => LiteralsFit(ConditionLiterals(node, values).value) && IsU16(2 + 2 * |values|)
    case MustMatch(values) => LiteralsFit(ConditionLiterals(node, values).value) && IsU16(2 + 2 * |values|)
    case _ => true
  }

  lemma {:induction false} ConditionLiteralsCount(node: AbiType, values: seq<Scalar>)
    ensures ConditionLiterals(node, values).Ok? ==> |ConditionLiterals(node, values).value| == |values|
  {
    hide ConditionLiteral;
    if values != [] {
      ConditionLiteralsCount(node, values[1..]);
    }
  }

  lemma GrowsSelf(p: Pools)
    ensures Grows(p, p)
  {
  }

  lemma GrowsBoth(p: Pools, q: Pools, r: Pools)
    requires Grows(p, q) && Grows(q, r)
    ensures Grows(p, r)
  {
  }

  lemma SetFits(ls: seq<Literal>, members: seq<Literal>)
    requires |ls| + |members| < 0x1_0000
    ensures LiteralsFit(ls) && LiteralsFit(members) && IsU16(2 + 2 * |members|) ==>
              LiteralsFit(ls + members + [SetLiteral(|ls|, |members|)])
  {
  }

  lemma MapFits(ls: seq<Literal>, entries: seq<(Literal, string)>, labels: seq<nat>)
    requires |ls| + |entries| < 0x1_0000 && |labels| == |entries| && forall i :: 0 <= i < |labels| ==>
               labels[i] < 0x1_0000
    ensures LiteralsFit(ls) && LiteralsFit(Keys(entries)) && IsU16(2 + 4 * |entries|) ==>
              LiteralsFit(ls + Keys(entries) + [MapLiteral(|ls|, labels)])
  {
  }

  lemma TookCount(p: Pools, q: Pools, d: Demand)
    requires Took(p, q, d)
    ensures |q.literals| == |p.literals| + d.literals
  {
  }

  class TableBuilder {
    const root: AbiType
    const strings: seq<bytes>
    const domain: seq<Literal>
    var paths: seq<Path>
    var pathIndex: map<Path, nat>
    var literals: seq<Literal>
    var formatters: seq<Formatter>
    var conditions: seq<Condition>
    var optionalCondition: Option<nat>
    ghost var plans: seq<Plan>

    constructor (root: AbiType, strings: seq<bytes>, domain: seq<Literal>)
      requires |strings| < 0x1_0000
      ensures this.root == root && this.strings == strings && this.domain == domain && literals == domain
      ensures Tabled() && formatters == [] && plans == [] && paths == [] && conditions == [] && optionalCondition.None?
    {
      this.root, this.strings, this.domain := root, strings, domain;
      paths, pathIndex, literals, formatters, conditions, optionalCondition := [], map[], domain, [], [], None;
      plans := [];
    }

    ghost function P(): Pools
      reads this
    {
      Pools(strings, paths, literals)
    }

    ghost function C(): Conditions
      reads this
    {
      Conditions(conditions, optionalCondition)
    }

    /** `path_index` is the inverse of `paths`: no path is listed twice. */
    ghost predicate Interned()
      reads this
    {
      && (forall p :: p in pathIndex ==> pathIndex[p] < |paths| && paths[pathIndex[p]] == p)
      && (forall i :: 0 <= i < |paths| ==> paths[i] in pathIndex && pathIndex[paths[i]] == i)
    }

    ghost predicate Tabled()
      reads this
    {
      && Interned() && domain <= literals && |strings| < 0x1_0000
      && (forall i :: 0 <= i < |paths| ==> PathIn(root, P(), paths[i]))
      && |plans| == |formatters|
      && (forall i :: 0 <= i < |formatters| ==> FormatterDenotes(P(), formatters[i], plans[i]))
      && (forall i :: 0 <= i < |conditions| ==> ConditionIn(P(), conditions[i]))
      && (optionalCondition.Some? ==>
            optionalCondition.value < |conditions|
            && conditions[optionalCondition.value] == Condition(3, ABSENT, ABSENT))
    }

    /** Growth keeps every formatter and condition meaning what it meant. */
    twostate lemma TabledGrows()
      requires old(Tabled()) && Interned() && Grows(old(P()), P())
      requires formatters == old(formatters) && plans == old(plans)
      requires conditions == old(conditions) && optionalCondition == old(optionalCondition)
      requires forall i :: |old(paths)| <= i < |paths| ==> PathIn(root, P(), paths[i])
      ensures Tabled()
    {
      forall i | 0 <= i < |formatters| ensures FormatterDenotes(P(), formatters[i], plans[i]) {
        assert FormatterDenotes(old(P()), formatters[i], plans[i]);
        AllDenoteGrows(old(P()), P(), formatters[i].arguments, plans[i].requests);
      }
      forall i | 0 <= i < |conditions| ensures ConditionIn(P(), conditions[i]) {
        assert ConditionIn(old(P()), conditions[i]);
        ConditionGrows(old(P()), P(), conditions[i]);
      }
      forall i | 0 <= i < |paths| ensures PathIn(root, P(), paths[i]) {
        if i < |old(paths)| {
          assert PathIn(root, old(P()), paths[i]);
        }
      }
    }

    lemma PlansCounted()
      requires Tabled()
      ensures |plans| == |formatters|
    {
    }

    /** The domain's literals stay in front. */
    lemma DomainFirst()
      requires Tabled()
      ensures domain <= literals && |strings| < 0x1_0000
    {
    }

    lemma InternedPlace(before: seq<Path>, path: Path)
      requires Interned() && paths == (if path in before then before else before + [path])
      ensures path in pathIndex && pathIndex[path] == PathPlace(before, path)
    {
      if path in before {
        assert path in paths;
        PlaceFound(before, path, pathIndex[path]);
      } else {
        assert paths[|before|] == path;
        PlaceAppended(before, path);
      }
    }

    /** `intern_path`. */
    method InternPath(path: Path) returns (index: nat)
      requires Tabled() && PathIn(root, P(), path)
      modifies this`paths, this`pathIndex
      ensures Tabled() && Grows(old(P()), P())
      ensures paths == if path in old(paths) then old(paths) else old(paths) + [path]
      ensures index < |paths| && paths[index] == path
      ensures P() == WithPath(old(P()), path) && index == PathPlace(old(paths), path)
      ensures !path.LiteralPath? ==> Took(old(P()), P(), Demand({path}, 0, 0))
      ensures path.LiteralPath? && path !in old(paths) ==> Took(old(P()), P(), Demand({}, 1, 0))
    {
      hide Took, PathPlace, FormatterDenotes, ConditionIn;
      if path in paths {
        if !path.LiteralPath? {
          TookKnown(P(), path);
        }
      } else {
        TookPath(P(), path);
      }
      if path !in pathIndex {
        assert path !in paths;
        pathIndex := pathIndex[path := |paths|];
        paths := paths + [path];
        TabledGrows();
      } else {
        assert path in paths;
      }
      InternedPlace(old(paths), path);
      index := pathIndex[path];
    }

    method AddLiterals(ls: seq<Literal>) returns (base: nat)
      requires Tabled()
      modifies this`literals
      ensures Tabled() && Grows(old(P()), P())
      ensures base == |old(literals)| && P() == WithLiterals(old(P()), ls)
      ensures Took(old(P()), P(), Demand({}, 0, |ls|))
    {
      TookLiterals(P(), ls);
      base := |literals|;
      literals := literals + ls;
      TabledGrows();
    }

    method StringIndex(text: string) returns (r: Result<nat>)
      ensures r.Ok? ==> IsString(P(), r.value, text)
      ensures r.Ok? <==> HasText(strings, text)
      ensures r.Ok? ==> r.value == TextPlace(strings, text)
    {
      r := FindString(strings, Utf8.Encode(text), 0);
      assert strings[0..] == strings;
    }

    /** The path to the next literal is new. */
    lemma NextIsNew()
      requires Tabled()
      ensures LiteralPath(|literals|) !in paths
    {
      forall i | 0 <= i < |paths| ensures paths[i] != LiteralPath(|literals|) {
        assert PathIn(root, P(), paths[i]);
      }
    }

    /** A literal and the path that names it. */
    method AddConstant(role: nat, l: Literal) returns (a: Argument)
      requires Tabled()
      modifies this`paths, this`pathIndex, this`literals
      ensures Tabled() && Grows(old(P()), P()) && P() == WithConstant(old(P()), l)
      ensures Denotes(P(), a, ConstantRequest(role, l)) && a == Argued(old(P()), ConstantRequest(role, l))
      ensures Took(old(P()), P(), Demand({}, 1, 1))
    {
      hide Took, Tabled, PathPlace, Grows;
      NextIsNew();
      ghost var before := P();
      var base := AddLiterals([l]);
      ghost var between := P();
      var index := InternPath(LiteralPath(base));
      GrowsBoth(before, between, P());
      TookBoth(before, between, P(), Demand({}, 0, 1), Demand({}, 1, 0));
      assert Plus(Demand({}, 0, 1), Demand({}, 1, 0)) == Demand({}, 1, 1);
      a := Argument(role, 1, index);
    }

    method AddTextConstant(role: nat, text: string) returns (r: Result<Argument>)
      requires Tabled()
      modifies this`paths, this`pathIndex, this`literals
      ensures Tabled() && Grows(old(P()), P())
      ensures r.Ok? ==> Denotes(P(), r.value, TextConstantRequest(role, text))
      ensures r.Ok? ==> P() == Added(old(P()), TextConstantRequest(role, text))
      ensures r.Ok? ==> r.value == Argued(old(P()), TextConstantRequest(role, text))
      ensures r.Ok? <==> HasText(strings, text)
      ensures r.Ok? ==> Took(old(P()), P(), Demand({}, 1, 1)) && (LiteralsFit(old(literals)) ==> LiteralsFit(literals))
    {
      hide Took, HasText;
      var index :- StringIndex(text);
      ghost var value := U16(index);
      HasAll(value);
      ReadU16At(value, 0, index);
      var a := AddConstant(role, Literal(4, U16(index)));
      return Ok(a);
    }

    method AddSet(members: seq<Literal>) returns (r: Result<nat>)
      requires Tabled()
      modifies this`literals
      ensures Tabled() && Grows(old(P()), P())
      ensures r.Ok? ==> IsSet(P(), r.value, members)
      ensures r.Ok? ==> P() == Added(old(P()), SetRequest(0, members)) && r.value == |old(literals)| + |members|
      ensures |old(literals)| + |members| < 0x1_0000 ==> r.Ok?
      ensures r.Ok? ==> Took(old(P()), P(), Demand({}, 0, |members| + 1))
      ensures r.Ok? && LiteralsFit(old(literals)) && LiteralsFit(members) && IsU16(2 + 2 * |members|) ==>
                LiteralsFit(literals)
    {
      hide Took, IsSet, LiteralsFit, SetLiteral, Tabled, Grows;
      ghost var before := P();
      var base := AddLiterals(members);
      ghost var between := P();
      if base + |members| >= 0x1_0000 {
        return Raised;
      }
      SetLiteralIsSet(before, members);
      var index := AddLiterals([SetLiteral(base, |members|)]);
      TookBoth(before, between, P(), Demand({}, 0, |members|), Demand({}, 0, 1));
      GrowsBoth(before, between, P());
      SetFits(before.literals, members);
      assert P() == before.(literals := before.literals + members + [SetLiteral(base, |members|)]);
      return Ok(index);
    }

    method LabelIndexes(entries: seq<(Literal, string)>) returns (r: Result<seq<nat>>)
      requires |strings| < 0x1_0000
      ensures r.Ok? ==> |r.value| == |entries|
      ensures r.Ok? ==> forall i :: 0 <= i < |entries| ==>
                          r.value[i] < 0x1_0000 && IsString(P(), r.value[i], entries[i].1)
      ensures r.Ok? <==> forall i :: 0 <= i < |entries| ==> HasText(strings, entries[i].1)
      ensures r.Ok? ==> r.value == Labels(strings, entries)
    {
      hide HasText;
      var labels: seq<nat> := [];
      for i := 0 to |entries|
        invariant |labels| == i
        invariant forall j :: 0 <= j < i ==> labels[j] < 0x1_0000 && IsString(P(), labels[j], entries[j].1)
        invariant forall j :: 0 <= j < i ==>
                    HasText(strings, entries[j].1) && labels[j] == TextPlace(strings, entries[j].1)
      {
        var index :- StringIndex(entries[i].1);
        labels := labels + [index];
      }
      return Ok(labels);
    }

    method AddMap(entries: seq<(Literal, string)>) returns (r: Result<nat>)
      requires Tabled()
      modifies this`literals
      ensures Tabled() && Grows(old(P()), P())
      ensures r.Ok? ==> IsMap(P(), r.value, entries)
      ensures r.Ok? ==> P() == Added(old(P()), MapRequest(0, entries)) && r.value == |old(literals)| + |entries|
      ensures TextsIn(strings, MapRequest(0, entries)) && |old(literals)| + |entries| < 0x1_0000 ==> r.Ok?
      ensures r.Ok? ==> Took(old(P()), P(), Demand({}, 0, |entries| + 1))
      ensures r.Ok? && LiteralsFit(old(literals)) && LiteralsFit(Keys(entries)) && IsU16(2 + 4 * |entries|) ==>
                LiteralsFit(literals)
    {
      hide Took, HasText, IsMap, LiteralsFit, MapLiteral, Keys, Grows;
      ghost var before := P();
      GrowsSelf(before);
      var labels :- LabelIndexes(entries);
      var base := AddLiterals(Keys(entries));
      ghost var between := P();
      if base + |entries| >= 0x1_0000 {
        return Raised;
      }
      MapLiteralIsMap(before, entries, labels);
      var index := AddLiterals([MapLiteral(base, labels)]);
      TookBoth(before, between, P(), Demand({}, 0, |entries|), Demand({}, 0, 1));
      GrowsBoth(before, between, P());
      MapFits(before.literals, entries, labels);
      assert P() == before.(literals := before.literals + Keys(entries) + [MapLiteral(base, labels)]);
      return Ok(index);
    }

    /** One argument: the tables gain what it needs, and it denotes the request. */
    method AddArgument(request: Request) returns (r: Result<Argument>)
      requires Tabled() && (request.PathRequest? ==> PathOn(root, request.path))
      modifies this`paths, this`pathIndex, this`literals
      ensures Tabled() && Grows(old(P()), P())
      ensures r.Ok? ==> Denotes(P(), r.value, request)
      ensures r.Ok? ==> P() == Added(old(P()), request) && r.value == Argued(old(P()), request)
      ensures TextsIn(strings, request) && |old(literals)| + DemandOf(request).literals <= 0x1_0000 ==> r.Ok?
      ensures r.Ok? ==> Took(old(P()), P(), DemandOf(request))
      ensures r.Ok? && LiteralsFit(old(literals)) && RequestFits(request) ==> LiteralsFit(literals)
    {
      hide Took, HasText, IsSet, IsMap, Tabled;
      DomainFirst();
      if request.StringRequest? {
        TookNothing(P());
      }
      match request {
        case PathRequest(role, path) =>
          var index := InternPath(path);
          return Ok(Argument(role, 1, index));
        case ConstantRequest(role, l) =>
          var a := AddConstant(role, l);
          return Ok(a);
        case TextConstantRequest(role, text) =>
          r := AddTextConstant(role, text);
        case LiteralRequest(role, l) =>
          var index := AddLiterals([l]);
          return Ok(Argument(role, 2, index));
        case StringRequest(role, text) =>
          var index :- StringIndex(text);
          return Ok(Argument(role, 3, index));
        case SetRequest(role, members) =>
          var index :- AddSet(members);
          return Ok(Argument(role, 2, index));
        case MapRequest(role, entries) =>
          var index :- AddMap(entries);
          return Ok(Argument(role, 2, index));
      }
    }

    method AddArguments(requests: seq<Request>) returns (r: Result<seq<Argument>>)
      requires Tabled() && AllLater(root, requests)
      modifies this`paths, this`pathIndex, this`literals
      ensures Tabled() && Grows(old(P()), P())
      ensures r.Ok? ==> AllDenote(P(), r.value, requests)
      ensures r.Ok? ==> P() == AddedAll(old(P()), requests) && r.value == ArguedAll(old(P()), requests)
      ensures AllTextsIn(strings, requests) && |old(literals)| + DemandOfAll(requests).literals <= 0x1_0000 ==> r.Ok?
      ensures r.Ok? ==> Took(old(P()), P(), DemandOfAll(requests))
      ensures r.Ok? && LiteralsFit(old(literals)) && RequestsFit(requests) ==> LiteralsFit(literals)
    {
      hide Took, TextsIn, DemandOf, RequestFits, Denotes, LiteralsFit, Grows;
      GrowsSelf(P());
      TookNothing(P());
      var args: seq<Argument> := [];
      for i := 0 to |requests|
        invariant Tabled() && Grows(old(P()), P())
        invariant AllDenote(P(), args, requests[..i])
        invariant P() == AddedAll(old(P()), requests[..i]) && args == ArguedAll(old(P()), requests[..i])
        invariant Took(old(P()), P(), DemandOfAll(requests[..i]))
                  && |literals| == |old(literals)| + DemandOfAll(requests[..i]).literals
        invariant LiteralsFit(old(literals)) && RequestsFit(requests) ==> LiteralsFit(literals)
      {
        ghost var before := P();
        assert Later(root, requests[i]);
        DemandOfMore(requests, i);
        AddedNext(old(P()), requests, i);
        DemandOfPrefix(requests, i + 1);
        var got := AddArgument(requests[i]);
        GrowsBoth(old(P()), before, P());
        var a :- got;
        AllDenoteGrows(before, P(), args, requests[..i]);
        TookBoth(old(P()), before, P(), DemandOfAll(requests[..i]), DemandOf(requests[i]));
        TookCount(old(P()), P(), DemandOfAll(requests[..i + 1]));
        args := args + [a];
        AllDenoteNext(P(), args, requests, i);
      }
      assert requests[..|requests|] == requests;
      return Ok(args);
    }

    /** A formatter: the value argument and those its format asks for. */
    method AddFormatter(value: Argument, ghost asked: Request, kind: nat, requests: seq<Request>)
      returns (r: Result<nat>)
      requires Tabled() && Denotes(P(), value, asked) && AllLater(root, requests)
      modifies this`paths, this`pathIndex, this`literals, this`formatters, this`plans
      ensures Tabled() && Grows(old(P()), P())
      ensures r.Ok? ==>
                r.value == |old(formatters)| && |formatters| == r.value + 1 && formatters[..r.value] == old(formatters)
      ensures r.Ok? ==> formatters[r.value].arguments != [] && formatters[r.value].arguments[0] == value
      ensures r.Ok? ==> plans == old(plans) + [Plan(kind, [asked] + requests)]
      ensures r.Ok? ==> P() == AddedAll(old(P()), requests)
      ensures r.Ok? ==> formatters[r.value] == Formatter(kind, [value] + ArguedAll(old(P()), requests))
      ensures AllTextsIn(strings, requests) && |old(literals)| + DemandOfAll(requests).literals <= 0x1_0000 ==> r.Ok?
      ensures r.Ok? ==> Took(old(P()), P(), DemandOfAll(requests))
      ensures r.Ok? && LiteralsFit(old(literals)) && RequestsFit(requests) ==> LiteralsFit(literals)
    {
      hide Took, AllTextsIn, DemandOfAll, RequestsFit, LiteralsFit, AddedAll, ArguedAll, PathIn, ConditionIn, Denotes;
      ghost var before := P();
      var arguments :- AddArguments(requests);
      DenotesGrows(before, P(), value, asked);
      assert AllDenote(P(), [value] + arguments, [asked] + requests);
      formatters := formatters + [Formatter(kind, [value] + arguments)];
      plans := plans + [Plan(kind, [asked] + requests)];
      return Ok(|formatters| - 1);
    }

    /** The condition a field's visibility asks for, or none. */
    method AddCondition(visible: Visibility, node: AbiType, valuePath: nat) returns (r: Result<nat>)
      requires Tabled() && valuePath < |paths|
      modifies this`literals, this`conditions, this`optionalCondition
      ensures Tabled() && Grows(old(P()), P()) && old(conditions) <= conditions
      ensures r.Ok? ==> ConditionFor(P(), conditions, r.value, visible, node, valuePath)
      ensures r.Ok? ==> P() == VisibilityPools(old(P()), visible, node)
      ensures r.Ok? ==> C() == Conditioned(old(C()), old(P()), visible, valuePath)
      ensures r.Ok? ==> r.value == ConditionPlace(old(C()), visible)
      ensures RuleReady(visible, node) && |old(literals)| + RuleDemand(visible).literals <= 0x1_0000 ==> r.Ok?
      ensures r.Ok? ==> RuleReady(visible, node) && Took(old(P()), P(), RuleDemand(visible))
      ensures r.Ok? && LiteralsFit(old(literals)) && RuleFits(visible, node) ==> LiteralsFit(literals)
      ensures r.Ok? ==> optionalCondition.Some? == (old(optionalCondition).Some? || visible.Optional?)
      ensures r.Ok? ==> |conditions| == |old(conditions)| + ConditionCount(visible, old(optionalCondition).Some?)
    {
      hide Took, LiteralsFit, Ruled, IsSet, PathIn, FormatterDenotes, ConditionLiterals, Grows;
      GrowsSelf(P());
      TookNothing(P());
      match visible {
        case Always => return Ok(ABSENT);
        case OtherVisible => return Ok(ABSENT);
        case Never => return Ok(ABSENT);
        case Optional =>
          if optionalCondition.None? {
            optionalCondition := Some(|conditions|);
            conditions := conditions + [Condition(3, ABSENT, ABSENT)];
          }
          return Ok(optionalCondition.value);
        case InvalidRule => return Raised;
        case IfNotIn(values) => r := AddRule(7, values, node, valuePath);
        case MustMatch(values) => r := AddRule(8, values, node, valuePath);
      }
    }

    method AddRule(opcode: nat, values: seq<Scalar>, node: AbiType, valuePath: nat) returns (r: Result<nat>)
      requires Tabled() && valuePath < |paths| && opcode in {7, 8}
      modifies this`literals, this`conditions
      ensures Tabled() && Grows(old(P()), P()) && old(conditions) <= conditions
      ensures r.Ok? ==> r.value < |conditions| && RuleFor(P(), conditions[r.value], opcode, values, node, valuePath)
      ensures r.Ok? ==> P() == Ruled(old(P()), values, node) && r.value == |old(conditions)|
      ensures r.Ok? ==> conditions == old(conditions) + [Condition(opcode, valuePath, |old(literals)| + |values|)]
      ensures values != [] && ConditionLiterals(node, values).Ok? && |old(literals)| + |values| + 1 <= 0x1_0000 ==>
                r.Ok?
      ensures r.Ok? ==>
                values != [] && ConditionLiterals(node, values).Ok? && Took(old(P()), P(), Demand({}, 0, |values| + 1))
      ensures r.Ok? && LiteralsFit(old(literals)) && LiteralsFit(ConditionLiterals(node, values).value)
              && IsU16(2 + 2 * |values|) ==>
                LiteralsFit(literals)
      ensures r.Ok? ==> |conditions| == |old(conditions)| + 1
    {
      hide Took, LiteralsFit, ConditionLiterals, PathIn, FormatterDenotes, Grows, IsSet;
      GrowsSelf(P());
      if values == [] {
        return Raised;
      }
      var members :- ConditionLiterals(node, values);
      ConditionLiteralsCount(node, values);
      var setIndex :- AddSet(members);
      conditions := conditions + [Condition(opcode, valuePath, setIndex)];
      return Ok(|conditions| - 1);
    }
  }

  lemma ConditionForGrows(p: Pools, q: Pools, cs: seq<Condition>, ds: seq<Condition>, c: nat, visible: Visibility,
      node: AbiType, value: nat)
    requires Grows(p, q) && cs <= ds && ConditionFor(p, cs, c, visible, node, value)
    ensures ConditionFor(q, ds, c, visible, node, value)
  {
  }

  lemma AllDenoteNext(p: Pools, args: seq<Argument>, requests: seq<Request>, i: nat)
    requires |args| == i + 1 <= |requests|
    requires AllDenote(p, args[..i], requests[..i]) && Denotes(p, args[i], requests[i])
    ensures AllDenote(p, args, requests[..i + 1])
  {
    forall j | 0 <= j < i ensures Denotes(p, args[j], requests[j]) {
      assert args[..i][j] == args[j];
    }
  }

  lemma ConditionGrows(p: Pools, q: Pools, c: Condition)
    requires Grows(p, q) && ConditionIn(p, c)
    ensures ConditionIn(q, c)
  {
    if c.opcode in {7, 8} {
      var members :| IsSet(p, c.literals, members);
      assert IsSet(q, c.literals, members);
    }
  }
}
