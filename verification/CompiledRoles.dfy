/** The formatters the compiler builds against those the device executes (the
    format branches of `compile` and `DEVICE_CAPABILITIES`,
    keepkeylib/erc7730_compiler.py). */
module CompiledRoles {
  import opened Wrappers
  import Bytes
  import Integers
  import opened AbiTypes
  import opened AbiPaths
  import opened Program
  import opened DisplayFields
  import opened Formatters
  import opened ProgramPools
  import opened ProgramBuilder
  import opened CompiledDisplay
  import opened Compiler
  import opened CompiledProgram
  import opened DeviceRules
  import DeviceSoundness
  import Utf8

  /** The table a request's argument points into. */
  function SourceOf(r: Request): nat {
    match r
    case PathRequest(_, _) => 1
    case ConstantRequest(_, _) => 1
    case TextConstantRequest(_, _) => 1
    case LiteralRequest(_, _) => 2
    case StringRequest(_, _) => 3
    case SetRequest(_, _) => 2
    case MapRequest(_, _) => 2
  }

  /** A literal of the kind its role is for; sets and maps are not empty. */
  predicate WellShaped(r: Request) {
    match r
    case LiteralRequest(role, l) => role in {4, 6, 7} && l.kind == if role == 6 then 6 else 1
    case SetRequest(role, members) => role == 22 && members != []
    case MapRequest(role, entries) => role == 10 && entries != []
    case _ => true
  }

  /** The device permits the request's role and source, or it names a chain. */
  predicate Permitted(kind: nat, r: Request) {
    r.role == 11 || (SourceOf(r) in Sources(kind, r.role) && WellShaped(r))
  }

  predicate AllPermitted(kind: nat, rs: seq<Request>) {
    forall i :: 0 <= i < |rs| ==> Permitted(kind, rs[i])
  }

  predicate HasRole(rs: seq<Request>, role: nat) {
    exists i :: 0 <= i < |rs| && rs[i].role == role
  }

  lemma MaybePermitted(kind: nat, root: AbiType, given: bool, r: Result<Request>)
    requires r.Ok? ==> Permitted(kind, r.value)
    ensures Maybe(root, given, r).Ok? ==> AllPermitted(kind, Maybe(root, given, r).value)
  {
    hide Permitted;
  }

  lemma JoinPermitted(kind: nat, a: seq<Request>, b: seq<Request>, c: seq<Request>)
    requires AllPermitted(kind, a) && AllPermitted(kind, b) && AllPermitted(kind, c)
    ensures AllPermitted(kind, a + b + c)
  {
    hide Permitted;
  }

  lemma ExtrasPermitted(root: AbiType, p: Params)
    requires TokenExtras(root, p).Ok?
    ensures AllPermitted(3, TokenExtras(root, p).value)
  {
    hide ThresholdOf, ResolvePath, Maybe, AllPermitted;
    var bound := if p.threshold.Some? then ThresholdOf(p.threshold.value).value else 0;
    var threshold := UnsignedRequest(7, 1, bound);
    var chain := if p.chainId.Some? then ChainRequest(root, p.chainId.value) else Raised;
    var message := if Given(p.message) then [StringRequest(8, p.message.value)] else [];
    MaybePermitted(3, root, p.threshold.Some?, threshold);
    MaybePermitted(3, root, p.chainId.Some?, chain);
    MessagePermitted(p.message);
    JoinPermitted(3, Maybe(root, p.threshold.Some?, threshold).value, message,
                  Maybe(root, p.chainId.Some?, chain).value);
  }

  lemma MessagePermitted(message: Option<string>)
    ensures AllPermitted(3, if Given(message) then [StringRequest(8, message.value)] else [])
  {
  }

  lemma FirstPermitted(r: Request)
    requires r.role == 2 && (r.PathRequest? || r.ConstantRequest?)
    ensures Permitted(3, r)
  {
  }

  lemma SetPermitted(members: seq<Literal>)
    requires members != []
    ensures Permitted(3, SetRequest(22, members))
  {
  }

  lemma TokenPermitted(root: AbiType, p: Params)
    requires TokenRequests(root, p).Ok?
    ensures var (kind, rs) := TokenRequests(root, p).value;
            AllPermitted(kind, rs) && (kind == 1 || (kind == 3 && HasRole(rs, 2)))
  {
    hide AddressLiterals, TokenExtras, ResolvePath, Permitted;
    var (kind, rs) := TokenRequests(root, p).value;
    if kind == 3 {
      assert rs[0].role == 2;
      ExtrasPermitted(root, p);
      var extras, aliases := TokenExtras(root, p).value, AddressLiterals(p.aliases).value;
      FirstPermitted(rs[0]);
      if aliases != [] {
        SetPermitted(aliases);
      }
      assert rs == [rs[0]] + extras + if aliases != [] then [SetRequest(22, aliases)] else [];
    }
  }

  lemma NftPermitted(root: AbiType, p: Params)
    requires NftRequests(root, p).Ok?
    ensures AllPermitted(4, NftRequests(root, p).value) && HasRole(NftRequests(root, p).value, 3)
  {
    hide ResolvePath;
    assert NftRequests(root, p).value[0].role == 3;
  }

  lemma UnitPermitted(root: AbiType, p: Params)
    requires UnitRequests(root, p).Ok?
    ensures AllPermitted(7, UnitRequests(root, p).value) && HasRole(UnitRequests(root, p).value, 5)
  {
    hide Permitted, Integers.UnsignedLiteral, UnsignedRequest;
    var rs := UnitRequests(root, p).value;
    UnitPartsPermitted(p.decimals, p.base, rs[2].literal);
    assert rs[1].role == 5;
  }

  lemma UnitPartsPermitted(decimals: int, base: string, prefix: Literal)
    ensures UnsignedRequest(4, 1, decimals).Ok? ==> Permitted(7, UnsignedRequest(4, 1, decimals).value)
    ensures Permitted(7, StringRequest(5, base))
    ensures prefix.kind == 6 && |prefix.value| == 1 ==> Permitted(7, LiteralRequest(6, prefix))
  {
    hide Integers.UnsignedLiteral;
  }

  lemma CallPermitted(root: AbiType, p: Params)
    requires CallRequests(root, p).Ok?
    ensures AllPermitted(13, CallRequests(root, p).value) && HasRole(CallRequests(root, p).value, 15)
  {
    hide ResolvePath;
    assert CallRequests(root, p).value[0].role == 15;
  }

  /** Every request of a kind the device knows is one it permits, but for chain
      arguments, and the roles it requires are there. */
  lemma RequestsPermitted(root: AbiType, path: Path, f: Field)
    requires Requests(root, path, f).Ok? && KnownKind(Requests(root, path, f).value.0)
    ensures var (kind, rs) := Requests(root, path, f).value;
            AllPermitted(kind, rs) && forall role :: role in Required(kind) ==> role == 1 || HasRole(rs, role)
  {
    hide TokenRequests, NftRequests, UnitRequests, CallRequests, EnumLiterals, PathNode;
    var kind := FormatKind(f.format).value;
    if kind == 3 {
      TokenPermitted(root, f.params);
    } else if kind == 4 {
      NftPermitted(root, f.params);
    } else if kind == 7 {
      UnitPermitted(root, f.params);
    } else if kind == 13 {
      CallPermitted(root, f.params);
    } else if kind == 8 {
      assert Requests(root, path, f).value.1[0].role == 10;
    }
  }

  lemma PlanPermitted(root: AbiType, f: Field, plan: Plan)
    requires PlanOf(root, f) == Ok(plan) && KnownKind(plan.kind)
    ensures AllPermitted(plan.kind, plan.requests)
    ensures forall role :: role in Required(plan.kind) ==> HasRole(plan.requests, role)
  {
    hide Requests, ValueRequest, PathOf, Permitted, Required;
    ValueAllowedEverywhere(root, f, plan.kind);
    RequestsPermitted(root, PathOf(root, f), f);
    var value, rs := ValueRequest(root, f).value, Requests(root, PathOf(root, f), f).value.1;
    forall i | 0 <= i < |plan.requests| ensures Permitted(plan.kind, plan.requests[i]) {
      if i > 0 {
        assert plan.requests[i] == rs[i - 1];
      }
    }
    forall role | role in Required(plan.kind) ensures HasRole(plan.requests, role) {
      if role == 1 {
        assert plan.requests[0].role == 1;
      } else {
        var i :| 0 <= i < |rs| && rs[i].role == role;
        assert plan.requests[i + 1].role == role;
      }
    }
  }

  lemma ValueAllowedEverywhere(root: AbiType, f: Field, kind: nat)
    requires ValueRequest(root, f).Ok? && KnownKind(kind)
    ensures ValueRequest(root, f).value.role == 1 && Permitted(kind, ValueRequest(root, f).value)
  {
    hide ResolvePath;
  }

  lemma DenotedSource(p: Pools, a: Argument, r: Request)
    requires Denotes(p, a, r)
    ensures a.role == r.role && a.source == SourceOf(r)
  {
  }

  /** The device refuses an argument of a compiled formatter for its role or
      source exactly when the argument names a chain, and never for a missing
      one. Beyond the kinds it does not execute (chainId, tokenTicker,
      interoperableAddress, encrypted) it else only looks at what the arguments
      hold. */
  lemma CompiledRolesAccepted(root: AbiType, p: Pools, field: Field, plan: Plan, f: Formatter, a: Argument)
    requires PlanOf(root, field) == Ok(plan) && FormatterSays(p, f, plan) && KnownKind(f.kind)
    ensures a in f.arguments ==> (a.source in Sources(f.kind, a.role) <==> a.role != 11)
    ensures forall role :: role in Required(f.kind) ==>
              exists i :: 0 <= i < |f.arguments| && f.arguments[i].role == role
  {
    hide PlanOf, Required, Sources, Permitted, SourceOf, Denotes, ArgumentsAscend;
    PlanPermitted(root, field, plan);
    var args: seq<Argument> :|
      multiset(args) == multiset(f.arguments) && AllDenote(p, args, plan.requests) && args != []
      && args[0] == f.arguments[0];
    SameArguments(args, f.arguments);
    if a in f.arguments {
      var i :| 0 <= i < |args| && args[i] == a;
      DenotedSource(p, args[i], plan.requests[i]);
      PermittedSource(plan.kind, plan.requests[i]);
    }
    forall role | role in Required(f.kind) ensures exists i :: 0 <= i < |f.arguments| && f.arguments[i].role == role {
      var i :| 0 <= i < |plan.requests| && plan.requests[i].role == role;
      DenotedSource(p, args[i], plan.requests[i]);
      assert args[i] in f.arguments;
    }
  }

  lemma PermittedSource(kind: nat, r: Request)
    requires Permitted(kind, r)
    ensures SourceOf(r) in Sources(kind, r.role) <==> r.role != 11
  {
  }

  // ------------------------------------------------------------------- chains

  /** The field names a chain for its token or collection. */
  predicate AsksChain(f: Field) {
    || (f.format == "tokenAmount" && f.params.chainId.Some?)
    || (f.format == "nftName" && (f.params.chainIdPath.Some? || f.params.chainId.Some?))
  }

  lemma MaybeRole(root: AbiType, given: bool, r: Result<Request>, role: nat)
    requires given ==> r.Ok? && r.value.role == role
    ensures Maybe(root, given, r).Ok? && (|Maybe(root, given, r).value| == if given then 1 else 0)
    ensures forall i :: 0 <= i < |Maybe(root, given, r).value| ==> Maybe(root, given, r).value[i].role == role
  {
  }

  lemma ChainRole(root: AbiType, chain: Scalar)
    requires ChainRequest(root, chain).Ok?
    ensures ChainRequest(root, chain).value.role == 11
  {
    hide ResolvePath, Integers.UnsignedLiteral;
  }

  lemma AddressRole(root: AbiType, role: nat, value: Scalar)
    requires AddressRequest(root, role, value).Ok?
    ensures AddressRequest(root, role, value).value.role == role
  {
    hide ResolvePath;
  }

  lemma ExtrasChain(root: AbiType, p: Params)
    requires TokenExtras(root, p).Ok?
    ensures HasRole(TokenExtras(root, p).value, 11) <==> p.chainId.Some?
  {
    hide ThresholdOf, ResolvePath, Maybe, UnsignedRequest, ChainRequest;
    var bound := if p.threshold.Some? then ThresholdOf(p.threshold.value).value else 0;
    var threshold := UnsignedRequest(7, 1, bound);
    var chain := if p.chainId.Some? then ChainRequest(root, p.chainId.value) else Raised;
    UnsignedRole(7, 1, bound);
    GivenOk(root, p.threshold.Some?, threshold);
    GivenOk(root, p.chainId.Some?, chain);
    MaybeRole(root, p.threshold.Some?, threshold, 7);
    if p.chainId.Some? {
      ChainRole(root, p.chainId.value);
    }
    MaybeRole(root, p.chainId.Some?, chain, 11);
    var rs := TokenExtras(root, p).value;
    if p.chainId.Some? {
      assert rs[|rs| - 1].role == 11;
    }
  }

  lemma UnsignedRole(role: nat, kind: nat, n: int)
    ensures UnsignedRequest(role, kind, n).Ok? ==> UnsignedRequest(role, kind, n).value.role == role
  {
    hide Integers.UnsignedLiteral;
  }

  lemma GivenOk(root: AbiType, given: bool, r: Result<Request>)
    requires Maybe(root, given, r).Ok?
    ensures given ==> r.Ok?
  {
  }

  lemma TokenChain(root: AbiType, p: Params)
    requires TokenRequests(root, p).Ok?
    ensures HasRole(TokenRequests(root, p).value.1, 11) <==> p.chainId.Some?
  {
    hide AddressLiterals, TokenExtras, AddressRequest, HasRole;
    var (kind, rs) := TokenRequests(root, p).value;
    if kind == 1 {
      NoRole(11);
    } else {
      var token := FirstOf(p.tokenPath, p.token).value;
      var first := AddressRequest(root, 2, token).value;
      AddressRole(root, 2, token);
      ExtrasChain(root, p);
      var aliases := AddressLiterals(p.aliases).value;
      var last := if aliases != [] then [SetRequest(22, aliases)] else [];
      RoleJoin([first], TokenExtras(root, p).value, last, 11);
      assert rs == [first] + TokenExtras(root, p).value + last;
      RoleOne(first, 11);
      if aliases == [] {
        NoRole(11);
      } else {
        RoleOne(SetRequest(22, aliases), 11);
      }
    }
  }

  lemma NoRole(role: nat)
    ensures !HasRole([], role)
  {
  }

  lemma RoleOne(r: Request, role: nat)
    ensures HasRole([r], role) <==> r.role == role
  {
    assert [r][0] == r;
  }

  lemma RoleJoin(a: seq<Request>, b: seq<Request>, c: seq<Request>, role: nat)
    ensures HasRole(a + b + c, role) <==> HasRole(a, role) || HasRole(b, role) || HasRole(c, role)
  {
    var all := a + b + c;
    if HasRole(a, role) {
      var i :| 0 <= i < |a| && a[i].role == role;
      assert all[i] == a[i];
    }
    if HasRole(b, role) {
      var i :| 0 <= i < |b| && b[i].role == role;
      assert all[|a| + i] == b[i];
    }
    if HasRole(c, role) {
      var i :| 0 <= i < |c| && c[i].role == role;
      assert all[|a| + |b| + i] == c[i];
    }
  }

  lemma NftChain(root: AbiType, p: Params)
    requires NftRequests(root, p).Ok?
    ensures HasRole(NftRequests(root, p).value, 11) <==> p.chainIdPath.Some? || p.chainId.Some?
  {
    hide AddressRequest, ChainRequest, Maybe, HasRole;
    var collection, chain := FirstOf(p.collectionPath, p.collection).value, FirstOf(p.chainIdPath, p.chainId);
    var first := AddressRequest(root, 3, collection).value;
    var asked := if chain.Some? then ChainRequest(root, chain.value) else Raised;
    AddressRole(root, 3, collection);
    GivenOk(root, chain.Some?, asked);
    if chain.Some? {
      ChainRole(root, chain.value);
    }
    MaybeRole(root, chain.Some?, asked, 11);
    var second := Maybe(root, chain.Some?, asked).value;
    RoleJoin([first], second, [], 11);
    RoleOne(first, 11);
    NoRole(11);
    assert [first] + second + [] == [first] + second;
    if chain.Some? {
      RoleOne(second[0], 11);
      assert second == [second[0]];
    } else {
      assert second == [];
    }
  }

  lemma RequestsChainIff(root: AbiType, path: Path, f: Field)
    requires Requests(root, path, f).Ok? && KnownKind(Requests(root, path, f).value.0)
    ensures HasRole(Requests(root, path, f).value.1, 11) <==> AsksChain(f)
  {
    hide TokenRequests, NftRequests, UnitRequests, CallRequests, EnumLiterals, PathNode;
    var kind := FormatKind(f.format).value;
    if kind == 3 {
      TokenChain(root, f.params);
    } else if kind == 4 {
      NftChain(root, f.params);
    } else if kind == 7 {
      UnitNoChain(root, f.params);
    } else if kind == 13 {
      CallNoChain(root, f.params);
    }
  }

  lemma UnitNoChain(root: AbiType, p: Params)
    requires UnitRequests(root, p).Ok?
    ensures !HasRole(UnitRequests(root, p).value, 11)
  {
    hide Integers.UnsignedLiteral;
  }

  lemma CallNoChain(root: AbiType, p: Params)
    requires CallRequests(root, p).Ok?
    ensures !HasRole(CallRequests(root, p).value, 11)
  {
    hide ResolvePath;
  }

  /** A compiled formatter is free of refused roles exactly when its field names
      no chain. */
  lemma RolesAcceptedIff(root: AbiType, p: Pools, field: Field, plan: Plan, f: Formatter)
    requires PlanOf(root, field) == Ok(plan) && FormatterSays(p, f, plan) && KnownKind(f.kind)
    ensures (forall a :: a in f.arguments ==> a.source in Sources(f.kind, a.role)) <==> !AsksChain(field)
  {
    hide PlanOf, Requests, ValueRequest, PathOf, AllDenote, Sources;
    PlanChainIff(root, field, plan);
    var args: seq<Argument> :|
      multiset(args) == multiset(f.arguments) && AllDenote(p, args, plan.requests) && args != []
      && args[0] == f.arguments[0];
    SameArguments(args, f.arguments);
    forall a ensures a in f.arguments ==> (a.source in Sources(f.kind, a.role) <==> a.role != 11) {
      CompiledRolesAccepted(root, p, field, plan, f, a);
    }
    SameRoles(p, args, plan.requests, 11);
    if AsksChain(field) {
      var i :| 0 <= i < |args| && args[i].role == 11;
      assert args[i] in f.arguments;
    }
  }

  lemma SameRoles(p: Pools, args: seq<Argument>, rs: seq<Request>, role: nat)
    requires AllDenote(p, args, rs)
    ensures |args| == |rs| && (HasRole(rs, role) <==> exists i :: 0 <= i < |args| && args[i].role == role)
  {
    hide Denotes;
    forall i | 0 <= i < |args| ensures args[i].role == rs[i].role {
      DenotedSource(p, args[i], rs[i]);
    }
    if HasRole(rs, role) {
      var i :| 0 <= i < |rs| && rs[i].role == role;
      assert args[i].role == role;
    }
  }

  lemma PlanChainIff(root: AbiType, f: Field, plan: Plan)
    requires PlanOf(root, f) == Ok(plan) && KnownKind(plan.kind)
    ensures HasRole(plan.requests, 11) <==> AsksChain(f)
  {
    hide Requests, ValueRequest, PathOf, AsksChain;
    ValueAllowedEverywhere(root, f, plan.kind);
    RequestsChainIff(root, PathOf(root, f), f);
    var value, rs := ValueRequest(root, f).value, Requests(root, PathOf(root, f), f).value.1;
    RoleJoin([value], rs, [], 11);
    RoleOne(value, 11);
    NoRole(11);
    assert plan.requests == [value] + rs + [];
  }

  /** The device refuses every formatter of a field that names a chain. */
  lemma ChainRefused(root: AbiType, p: Pools, field: Field, plan: Plan, f: Formatter, facts: Facts)
    requires PlanOf(root, field) == Ok(plan) && FormatterSays(p, f, plan) && KnownKind(f.kind) && AsksChain(field)
    ensures FormatterCheck(facts, f).FormatterStopped?
  {
    hide PlanOf, FormatterSays, AsksChain, Sources, ValueAllowed;
    RolesAcceptedIff(root, p, field, plan, f);
    var a :| a in f.arguments && a.source !in Sources(f.kind, a.role);
    var k :| 0 <= k < |f.arguments| && f.arguments[k] == a;
    if ReadArgumentsState(facts, f.kind, f.arguments).Reading? {
      DeviceSoundness.ArgumentAccepted(facts, f.kind, f.arguments, k);
    }
  }

  /** A number for the chain, of an NFT and of a token amount: the verdicts. */
  lemma ChainInputs(nft: Field, token: Field, facts: Facts)
    requires nft.format == "nftName" && nft.path == Some("id") && nft.value.None?
    requires nft.params.collectionPath == Some(Word("at")) && nft.params.chainIdPath.None?
             && nft.params.chainId == Some(Number(1))
    requires token.format == "tokenAmount" && token.path == Some("id") && token.value.None?
    requires token.params.tokenPath == Some(Word("at")) && token.params.threshold.None? && token.params.message.None?
    requires token.params.chainId == Some(Number(1)) && token.params.aliases == []
    requires facts.paths == [PathFact(Direct(UINT), None, false), PathFact(Direct(ADDRESS), None, false)]
    ensures var root := Tuple("", [Leaf("id", UINT, 256), Leaf("at", ADDRESS, 0)]);
            var id, at, chain := AbiPath([Index(0)]), AbiPath([Index(1)]), LiteralRequest(11, Literal(7, [1]));
            && PlanOf(root, nft) == Ok(Plan(4, [PathRequest(1, id), PathRequest(3, at), chain]))
            && PlanOf(root, token) == Ok(Plan(3, [PathRequest(1, id), PathRequest(2, at), chain]))
    ensures FormatterCheck(facts, Formatter(4, [Argument(1, 1, 0), Argument(3, 1, 1), Argument(11, 2, 0)]))
            == FormatterStopped(Refused(ArgumentRole(4, 11)))
    ensures FormatterCheck(facts, Formatter(3, [Argument(1, 1, 0), Argument(2, 1, 1), Argument(11, 2, 0)]))
            == FormatterStopped(Refused(ArgumentRole(3, 11)))
  {
    hide ResolvePath, ReadArgumentsState, Integers.UnsignedLiteral;
    var members := [Leaf("id", UINT, 256), Leaf("at", ADDRESS, 0)];
    var root := Tuple("", members);
    NameResolves("", members, 0);
    NameResolves("", members, 1);
    OneLiteral();
    NftInput(root, nft);
    TokenInput(root, token);
    LastRefused(facts, 4, Argument(1, 1, 0), Argument(3, 1, 1), Argument(11, 2, 0));
    LastRefused(facts, 3, Argument(1, 1, 0), Argument(2, 1, 1), Argument(11, 2, 0));
  }

  lemma OneLiteral()
    ensures Integers.UnsignedLiteral(1) == Ok([1])
  {
    assert Bytes.Pow256(32) == 256 * Bytes.Pow256(31);
    assert Integers.BitLength(1) == 1 + Integers.BitLength(0) == 1;
    assert Integers.UnsignedWidth(1) == 1;
    assert Bytes.BigEndian(1, 1) == Bytes.BigEndian(0, 0) + [1] == [1];
  }

  lemma NotHex()
    ensures !IsHex("at")
  {
    assert "at"[0] != "0x"[0];
  }

  lemma NftInput(root: AbiType, nft: Field)
    requires nft.format == "nftName" && nft.path == Some("id") && nft.value.None?
    requires nft.params.collectionPath == Some(Word("at")) && nft.params.chainIdPath.None?
             && nft.params.chainId == Some(Number(1))
    requires ResolvePath(root, "id").Ok? && ResolvePath(root, "at").Ok?
    ensures PlanOf(root, nft) ==
              Ok(Plan(4, [PathRequest(1, ResolvePath(root, "id").value), PathRequest(3, ResolvePath(root, "at").value),
                                             LiteralRequest(11, Literal(7, [1]))]))
  {
    hide ResolvePath, Integers.UnsignedLiteral;
    OneLiteral();
    assert ChainRequest(root, Number(1)) == Ok(LiteralRequest(11, Literal(7, [1])));
    NotHex();
    assert AddressRequest(root, 3, Word("at")) == Ok(PathRequest(3, ResolvePath(root, "at").value));
    assert ValueRequest(root, nft) == Ok(PathRequest(1, ResolvePath(root, "id").value));
    assert FormatKind("nftName") == Ok(4);
    var rest := [PathRequest(3, ResolvePath(root, "at").value), LiteralRequest(11, Literal(7, [1]))];
    assert Maybe(root, true, ChainRequest(root, Number(1))) == Ok([rest[1]]) && [rest[0]] + [rest[1]] == rest;
    assert NftRequests(root, nft.params) == Ok(rest);
    assert Requests(root, PathOf(root, nft), nft) == Ok((4, rest));
    assert [PathRequest(1, ResolvePath(root, "id").value)] + rest ==
             [PathRequest(1, ResolvePath(root, "id").value), rest[0], rest[1]];
  }

  lemma TokenInput(root: AbiType, token: Field)
    requires token.format == "tokenAmount" && token.path == Some("id") && token.value.None?
    requires token.params.tokenPath == Some(Word("at")) && token.params.threshold.None? && token.params.message.None?
    requires token.params.chainId == Some(Number(1)) && token.params.aliases == []
    requires ResolvePath(root, "id").Ok? && ResolvePath(root, "at").Ok?
    ensures PlanOf(root, token) ==
              Ok(Plan(3, [PathRequest(1, ResolvePath(root, "id").value), PathRequest(2, ResolvePath(root, "at").value),
                                               LiteralRequest(11, Literal(7, [1]))]))
  {
    hide ResolvePath, Integers.UnsignedLiteral;
    OneLiteral();
    assert ChainRequest(root, Number(1)) == Ok(LiteralRequest(11, Literal(7, [1])));
    NotHex();
    assert AddressRequest(root, 2, Word("at")) == Ok(PathRequest(2, ResolvePath(root, "at").value));
    assert TokenExtras(root, token.params).value == [LiteralRequest(11, Literal(7, [1]))];
    assert ValueRequest(root, token) == Ok(PathRequest(1, ResolvePath(root, "id").value));
    assert FormatKind("tokenAmount") == Ok(3);
    var rest := [PathRequest(2, ResolvePath(root, "at").value), LiteralRequest(11, Literal(7, [1]))];
    assert AddressLiterals(token.params.aliases) == Ok([]) && [rest[0]] + [rest[1]] + [] == rest;
    assert TokenRequests(root, token.params) == Ok((3, rest));
    assert Requests(root, PathOf(root, token), token) == Ok((3, rest));
    assert [PathRequest(1, ResolvePath(root, "id").value)] + rest ==
             [PathRequest(1, ResolvePath(root, "id").value), rest[0], rest[1]];
  }

  lemma LastRefused(facts: Facts, kind: nat, a: Argument, b: Argument, c: Argument)
    requires kind in {3, 4} && c.role == 11
    requires ArgumentVerdict(facts, kind, a) == Accepted && ArgumentVerdict(facts, kind, b) == Accepted
    ensures FormatterCheck(facts, Formatter(kind, [a, b, c])) == FormatterStopped(Refused(ArgumentRole(kind, 11)))
  {
    hide ArgumentVerdict;
    RoleRefused(facts, kind, c);
    assert [a, b, c][..2] == [a, b] && [a, b][..1] == [a] && [a][..0] == [];
    assert ReadArgumentsState(facts, kind, [a]).Reading?;
    assert ReadArgumentsState(facts, kind, [a, b]).Reading?;
  }

  lemma RoleRefused(facts: Facts, kind: nat, a: Argument)
    requires a.role == 11 && KnownKind(kind)
    ensures ArgumentVerdict(facts, kind, a) == Refused(ArgumentRole(kind, 11))
  {
  }

  lemma SameArguments(a: seq<Argument>, b: seq<Argument>)
    requires multiset(a) == multiset(b)
    ensures forall x :: x in a <==> x in b
  {
    forall x ensures x in a <==> x in b {
      assert x in a <==> x in multiset(a);
      assert x in b <==> x in multiset(b);
    }
  }

  /** The classes an argument from a source can have. */
  function Attainable(source: nat): set<nat> {
    if source == 1 then {UINT, INT, ADDRESS, BOOL, FIXED_BYTES, BYTES, STRING, STRING_REF, UINT_SMALL, FLAG}
    else if source == 2 then {UINT, UINT_SMALL, STRING_REF, ADDRESS, FLAG, ENUM_MAP, ALIAS_SET}
    else if source == 3 then {STRING, DATE_ENCODING}
    else {}
  }

  /** The two capability tables fit together: the formatter table lists a source
      for exactly the roles that have a permitted class, and every source it
      lists can deliver one. */
  lemma RolesUsable(kind: nat, role: nat)
    requires KnownKind(kind)
    ensures forall source :: source in Sources(kind, role) ==>
              exists cls :: cls in Attainable(source) && ValueAllowed(kind, role, cls)
    ensures Sources(kind, role) != {} <==> exists cls :: ValueAllowed(kind, role, cls)
  {
    forall source | source in Sources(kind, role)
      ensures exists cls :: cls in Attainable(source) && ValueAllowed(kind, role, cls)
    {
      SourceUsable(kind, role, source);
    }
  }

  lemma SourceUsable(kind: nat, role: nat, source: nat)
    requires KnownKind(kind) && source in Sources(kind, role)
    ensures exists cls :: cls in Attainable(source) && ValueAllowed(kind, role, cls)
  {
    var cls :=
      if role == 1 then (if kind == 10 then ADDRESS else if kind == 13 then BYTES else UINT)
      else if kind == 3 then (if role == 2 then ADDRESS else if role == 7 then UINT else if role == 8 then STRING
                              else ALIAS_SET)
      else if kind == 4 then ADDRESS
      else if kind == 5 then DATE_ENCODING
      else if kind == 7 then (if role == 4 then UINT_SMALL else if role == 5 then STRING else FLAG)
      else if kind == 8 then ENUM_MAP
      else if role == 17 then UINT else ADDRESS;
    assert cls in Attainable(source) && ValueAllowed(kind, role, cls);
  }

  // ------------------------------------------------------- what arguments hold

  /** What the device can take of a literal or a text: few aliases and labels,
      decimals in one byte, a date encoding it knows. */
  predicate WithinDevice(r: Request) {
    match r
    case LiteralRequest(role, l) => role == 4 ==> |l.value| == 1
    case StringRequest(role, text) => role == 9 ==> text == "timestamp" || text == "blockheight"
    case SetRequest(_, members) => |members| <= ALIAS_SET_MAX
    case MapRequest(_, entries) => |entries| <= ENUM_MAX
    case _ => true
  }

  lemma {:induction false} AsciiEncodes(s: string)
    requires forall i :: 0 <= i < |s| ==> s[i] as int < 0x80
    ensures |Utf8.Encode(s)| == |s| && forall i :: 0 <= i < |s| ==> Utf8.Encode(s)[i] == s[i] as int
  {
    if s != "" {
      AsciiEncodes(s[1..]);
      assert Utf8.EncodeChar(s[0]) == [s[0] as int];
    }
  }

  /** The device's two date encodings are those texts and no others. */
  lemma DateEncodingIff(text: string)
    ensures IsDateEncoding(Utf8.Encode(text)) <==> text == "timestamp" || text == "blockheight"
  {
    hide Utf8.Encode;
    TimestampBytes();
    BlockheightBytes();
    Utf8.DecodeUndoesEncode(text);
    Utf8.DecodeUndoesEncode("timestamp");
    Utf8.DecodeUndoesEncode("blockheight");
  }

  lemma TimestampBytes()
    ensures Utf8.Encode("timestamp") == [0x74, 0x69, 0x6d, 0x65, 0x73, 0x74, 0x61, 0x6d, 0x70]
  {
    hide Utf8.Encode;
    AsciiEncodes("timestamp");
  }

  lemma BlockheightBytes()
    ensures Utf8.Encode("blockheight") == [0x62, 0x6c, 0x6f, 0x63, 0x6b, 0x68, 0x65, 0x69, 0x67, 0x68, 0x74]
  {
    hide Utf8.Encode;
    AsciiEncodes("blockheight");
  }

  /** The class of a literal or text argument that stands for a request. */
  lemma DenotedClass(t: Tables, calldata: bool, a: Argument, r: Request)
    requires Denotes(PoolsOf(t), a, r) && SourceOf(r) in {2, 3} && WellShaped(r)
    ensures var cls := ArgumentClass(FactsOf(t, calldata), a);
            match r
            case LiteralRequest(role, l) =>
              cls == if role == 6 then FLAG else if |l.value| == 1 then UINT_SMALL else UINT
            case StringRequest(_, text) =>
              cls == if text == "timestamp" || text == "blockheight" then DATE_ENCODING else STRING
            case SetRequest(_, members) => cls == if |members| <= ALIAS_SET_MAX then ALIAS_SET else 0
            case MapRequest(_, entries) => cls == if |entries| <= ENUM_MAX then ENUM_MAP else 0
            case _ => true
  {
    hide Utf8.Encode, IsDateEncoding;
    match r
    case StringRequest(_, text) => DateEncodingIff(text);
    case _ =>
  }

  /** A compiled literal or text argument holds what the device takes there
      exactly when it stays within the device's small limits. */
  lemma CompiledClassAllowedIff(root: AbiType, field: Field, plan: Plan, t: Tables, calldata: bool, a: Argument, i: nat)
    requires PlanOf(root, field) == Ok(plan) && KnownKind(plan.kind) && i < |plan.requests|
    requires Denotes(PoolsOf(t), a, plan.requests[i]) && SourceOf(plan.requests[i]) in {2, 3} && a.role != 11
    ensures ValueAllowed(plan.kind, a.role, ArgumentClass(FactsOf(t, calldata), a)) <==> WithinDevice(plan.requests[i])
  {
    hide PlanOf, FactsOf, ArgumentClass, Denotes;
    PlanPermitted(root, field, plan);
    DenotedSource(PoolsOf(t), a, plan.requests[i]);
    assert Permitted(plan.kind, plan.requests[i]);
    DenotedClass(t, calldata, a, plan.requests[i]);
  }
}
