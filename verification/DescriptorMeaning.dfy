/** What a descriptor's field gives for each parameter of its format, and that
    its compiled formatter says exactly that (the format branches of
    `CalldataCompiler.compile`, keepkeylib/erc7730_compiler.py). */
module DescriptorMeaning {
  import opened Wrappers
  import opened Bytes
  import opened Hex
  import opened Integers
  import opened Text
  import opened AbiTypes
  import opened AbiPaths
  import opened Program
  import opened DisplayFields
  import opened Formatters
  import opened CompiledDisplay
  import opened CompiledRoles
  import opened Capabilities
  import opened CompiledMeaning

  // -------------------------------------------------------- what a field gives

  /** Text that spells bytes behind `0x`; blanks may stand between them. */
  predicate BytesIn(s: Scalar, data: bytes) {
    s.Word? && |s.text| >= 2 && s.text[0] == '0' && s.text[1] == 'x' && HexBytes(s.text[2..]) == Ok(data)
  }

  predicate AddressIn(s: Scalar, data: bytes) {
    BytesIn(s, data) && |data| == 20
  }

  /** A number, in text or not; a bool counts as 1 or 0. */
  predicate NumberIn(s: Scalar, n: int) {
    match s
    case Number(m) => n == m
    case Flag(b) => n == if b then 1 else 0
    case Word(text) => IntOf(text) == Ok(n)
    case OtherValue => false
  }

  predicate BehindPrefix(s: Scalar) {
    s.Word? && |s.text| >= 2 && s.text[0] == '0' && s.text[1] == 'x'
  }

  /** The numbers a literal holds. */
  predicate InWord(n: int) {
    0 <= n < Pow256(32)
  }

  /** A path expression leads where the argument points. */
  predicate Leads(root: AbiType, text: string, m: Meaning) {
    m.PathTo? && ResolvePath(root, text) == Ok(m.path)
  }

  /** An address written out, or the path to one. */
  predicate Names(root: AbiType, s: Scalar, m: Meaning) {
    if BehindPrefix(s) then m.Constant? && m.of.AddressOf? && AddressIn(s, m.of.address)
    else s.Word? && Leads(root, s.text, m)
  }

  /** A chain's number, or the path to it. */
  predicate NamesChain(root: AbiType, s: Scalar, m: Meaning) {
    if s.Word? then Leads(root, s.text, m) else m.ChainNumber? && InWord(m.id) && NumberIn(s, m.id)
  }

  /** A constant shown as a value: bytes of an address's length are one. */
  predicate ShownConstant(s: Scalar, m: Meaning) {
    match s
    case Flag(b) => m == Truth(b)
    case Number(n) => m.Whole? && InWord(m.n) && m.n == n
    case Word(text) =>
      if BehindPrefix(s) then
        || (m.AddressOf? && AddressIn(s, m.address))
        || (m.Octets? && BytesIn(s, m.data) && |m.data| != 20)
      else m == Characters(text)
    case OtherValue => false
  }

  /** A value to compare with a leaf of a kind. */
  predicate Compares(kind: nat, s: Scalar, m: Meaning) {
    if kind == UINT then s.Number? && m.Whole? && InWord(m.n) && m.n == s.n
    else if kind == INT then s.Number? && m == Negative(s.n)
    else if kind == BOOL then s.Flag? && m == Truth(s.b)
    else if kind == ADDRESS then m.AddressOf? && AddressIn(s, m.address)
    else
      && kind in {FIXED_BYTES, BYTES} && m.Octets?
      && (BytesIn(s, m.data) || (!s.Word? && InWord(Value(m.data)) && NumberIn(s, Value(m.data))
                                 && ShortestBytes(m.data)))
  }

  /** The token a field names. */
  function TokenNamed(f: Field): Option<Scalar> {
    if f.params.tokenPath.Some? then f.params.tokenPath else f.params.token
  }

  function ChainNamed(f: Field): Option<Scalar> {
    if f.format == "nftName" && f.params.chainIdPath.Some? then f.params.chainIdPath else f.params.chainId
  }

  function CollectionNamed(f: Field): Option<Scalar> {
    if f.params.collectionPath.Some? then f.params.collectionPath else f.params.collection
  }

  /** A token amount that names no token is shown raw. */
  function FormatOf(f: Field): string {
    if f.format == "tokenAmount" && TokenNamed(f).None? then "raw" else f.format
  }

  /** The field has the parameter. */
  predicate Present(f: Field, q: Parameter) {
    match q
    case ValueParameter => true
    case TokenParameter => f.format == "tokenAmount" && TokenNamed(f).Some?
    case CollectionParameter => f.format == "nftName"
    case DecimalsParameter => f.format == "unit"
    case BaseParameter => f.format == "unit"
    case PrefixParameter => f.format == "unit"
    case ThresholdParameter => f.format == "tokenAmount" && f.params.threshold.Some?
    case MessageParameter => f.format == "tokenAmount" && Given(f.params.message)
    case EncodingParameter => f.format == "date"
    case LabelsParameter => f.format == "enum"
    case ChainParameter => f.format in {"tokenAmount", "nftName"} && ChainNamed(f).Some?
    case CalleeParameter => f.format == "calldata"
    case AmountParameter => f.format == "calldata" && Given(f.params.amountPath)
    case SpenderParameter => f.format == "calldata" && Given(f.params.spenderPath)
    case AliasesParameter => f.format == "tokenAmount" && TokenNamed(f).Some? && f.params.aliases != []
  }

  /** The field gives the parameter, and means this by it. */
  predicate Gives(root: AbiType, f: Field, q: Parameter, m: Meaning) {
    var p := f.params;
    Present(f, q) &&
    match q
    case ValueParameter =>
      (match f.value
       case Some(constant) => m.Constant? && ShownConstant(constant, m.of)
       case None => f.path.Some? && Leads(root, f.path.value, m))
    case TokenParameter => Names(root, TokenNamed(f).value, m)
    case CollectionParameter => CollectionNamed(f).Some? && Names(root, CollectionNamed(f).value, m)
    case DecimalsParameter => m.Whole? && InWord(m.n) && m.n == p.decimals
    case BaseParameter => p.base != "" && m == Characters(p.base)
    case PrefixParameter => m == Truth(p.unitPrefix)
    case ThresholdParameter =>
      && m.Whole? && InWord(m.n)
      && (if BehindPrefix(p.threshold.value)
          then p.threshold.value.text != "0x" && HexValue(p.threshold.value.text[2..]) == Ok(m.n)
          else NumberIn(p.threshold.value, m.n))
    case MessageParameter => m == Characters(p.message.value)
    case EncodingParameter => m == Characters(p.encoding)
    case LabelsParameter =>
      && p.enumEntries != [] && m.Labelled? && |m.entries| == |p.enumEntries|
      && forall i :: 0 <= i < |m.entries| ==>
           m.entries[i].1 == p.enumEntries[i].1 && Compares(NodeOf(root, f).Kind(), p.enumEntries[i].0, m.entries[i].0)
    case ChainParameter => NamesChain(root, ChainNamed(f).value, m)
    case CalleeParameter => p.calleePath.Some? && Leads(root, p.calleePath.value, m)
    case AmountParameter => Leads(root, p.amountPath.value, m)
    case SpenderParameter => Leads(root, p.spenderPath.value, m)
    case AliasesParameter =>
      && m.OneOf? && |m.members| == |p.aliases|
      && forall i :: 0 <= i < |m.members| ==> m.members[i].AddressOf? && AddressIn(p.aliases[i], m.members[i].address)
  }

  // -------------------------------------------------------------- literals

  lemma HexIsPrefix(s: Scalar)
    ensures s.Word? ==> (IsHex(s.text) <==> BehindPrefix(s))
  {
    if s.Word? && BehindPrefix(s) {
      assert s.text[..2] == "0x";
    }
  }

  lemma HexAddressIff(s: Scalar, data: bytes)
    ensures HexAddress(s) == Ok(data) <==> AddressIn(s, data)
  {
    hide HexBytes;
    HexIsPrefix(s);
  }

  lemma IntegerOfIff(s: Scalar, n: int)
    ensures IntegerOf(s) == Ok(n) <==> NumberIn(s, n)
  {
    hide IntOf;
  }

  /** The shortest bytes of a number have no leading zero. */
  lemma ShortestLiteral(n: int)
    requires UnsignedLiteral(n).Ok?
    ensures InWord(n) && Value(UnsignedLiteral(n).value) == n && ShortestBytes(UnsignedLiteral(n).value)
  {
    hide BigEndian;
    var b := UnsignedLiteral(n).value;
    UnsignedLiteralMinimal(n, if |b| > 1 then |b| - 1 else 1);
    if |b| > 1 && b[0] == 0 {
      LeadingZero(b);
    }
  }

  lemma {:induction false} LeadingZero(b: bytes)
    requires b != [] && b[0] == 0
    ensures Value(b) < Pow256(|b| - 1)
  {
    if |b| == 1 {
      assert b[..0] == [];
    } else {
      LeadingZero(b[..|b| - 1]);
    }
  }

  /** A condition's or an enum's literal says what it is made from. */
  lemma ComparedLiteral(node: AbiType, s: Scalar)
    requires ConditionLiteral(node, s).Ok?
    ensures PlainLiteral(ConditionLiteral(node, s).value)
    ensures Compares(node.Kind(), s, LiteralMeaning([], ConditionLiteral(node, s).value))
  {
    hide HexBytes, UnsignedLiteral, SignedLiteral, Value, SignedValue, HexAddress, BytesIn;
    match s
    case Number(n) =>
      if node.Kind() == INT {
        SignedLiteralMinimal(n, 1);
      } else {
        ShortestLiteral(n);
      }
    case Flag(b) => OneByte(if b then 1 else 0);
    case Word(text) =>
      HexIsPrefix(s);
      if node.Kind() == ADDRESS {
        HexAddressIff(s, HexAddress(s).value);
      } else {
        PrefixedBytes(s);
      }
    case OtherValue =>
  }

  lemma OneByte(x: Byte)
    ensures Value([x]) == x && ShortestBytes([x]) && InWord(x)
  {
    assert [x][..0] == [];
    assert Pow256(32) == 256 * Pow256(31);
  }

  lemma PrefixedBytes(s: Scalar)
    requires BehindPrefix(s) && HexBytes(s.text[2..]).Ok?
    ensures BytesIn(s, HexBytes(s.text[2..]).value)
  {
  }

  /** Whatever suits the leaf is taken. */
  lemma ComparedTaken(node: AbiType, s: Scalar, m: Meaning)
    requires Compares(node.Kind(), s, m)
    ensures ConditionLiteral(node, s).Ok?
  {
    hide HexBytes, BigEndian, Value, Pow256, SignedLiteral, HexAddress, IntOf;
    HexIsPrefix(s);
    if s.Word? && node.Kind() == ADDRESS {
      HexAddressIff(s, m.address);
    }
  }

  // ------------------------------------------------------------ the arguments

  /** A request for parameter `q` that says what the field gives. */
  predicate Speaks(root: AbiType, f: Field, r: Request, q: Parameter) {
    r.role == q.Role() && Readable(r) && Gives(root, f, q, RequestMeaning(r))
  }

  ghost predicate SpeaksForSome(root: AbiType, f: Field, r: Request) {
    exists q :: Speaks(root, f, r, q)
  }

  ghost predicate AllSpeak(root: AbiType, f: Field, rs: seq<Request>) {
    forall i :: 0 <= i < |rs| ==> SpeaksForSome(root, f, rs[i])
  }

  /** Ascending roles from `low` to below `high`: no role occurs twice. */
  predicate Between(rs: seq<Request>, low: nat, high: nat) {
    && (forall i :: 0 <= i < |rs| ==> low <= rs[i].role < high)
    && (forall i, j :: 0 <= i < j < |rs| ==> rs[i].role < rs[j].role)
  }

  lemma BetweenJoin(a: seq<Request>, b: seq<Request>, low: nat, middle: nat, high: nat)
    requires Between(a, low, middle) && Between(b, middle, high) && low <= middle <= high
    ensures Between(a + b, low, high)
  {
  }

  lemma SpeakJoin(root: AbiType, f: Field, a: seq<Request>, b: seq<Request>)
    requires AllSpeak(root, f, a) && AllSpeak(root, f, b)
    ensures AllSpeak(root, f, a + b)
  {
    hide SpeaksForSome;
  }

  lemma SpeakOne(root: AbiType, f: Field, r: Request, q: Parameter)
    requires Speaks(root, f, r, q)
    ensures AllSpeak(root, f, [r])
  {
    hide Speaks;
    assert SpeaksForSome(root, f, [r][0]);
  }

  /** Addresses are taken exactly where they are named. */
  lemma AddressSpoken(root: AbiType, role: nat, s: Scalar)
    ensures AddressRequest(root, role, s).Ok? ==>
              var r := AddressRequest(root, role, s).value;
              r.role == role && Readable(r) && Names(root, s, RequestMeaning(r))
    ensures (exists m :: Names(root, s, m)) ==> AddressRequest(root, role, s).Ok?
  {
    hide ResolvePath, HexAddress, AddressIn, PathArgument;
    HexIsPrefix(s);
    if s.Word? && BehindPrefix(s) {
      if HexAddress(s).Ok? {
        HexAddressIff(s, HexAddress(s).value);
      }
      forall m | Names(root, s, m) ensures AddressRequest(root, role, s).Ok? {
        HexAddressIff(s, m.of.address);
      }
    } else if s.Word? {
      PathTaken(root, role, s.text);
    }
  }

  lemma PathTaken(root: AbiType, role: nat, text: string)
    ensures PathArgument(root, role, text).Ok? ==>
              var r := PathArgument(root, role, text).value;
              r.role == role && Readable(r) && Leads(root, text, RequestMeaning(r))
    ensures (exists m :: Leads(root, text, m)) ==> PathArgument(root, role, text).Ok?
  {
    hide ResolveParts;
  }

  lemma UnsignedSpoken(role: nat, kind: nat, n: int)
    requires kind in {1, 7}
    ensures UnsignedRequest(role, kind, n).Ok? <==> InWord(n)
    ensures InWord(n) ==>
              var r := UnsignedRequest(role, kind, n).value;
              r.role == role && Readable(r) && RequestMeaning(r) == if kind == 1 then Whole(n) else ChainNumber(n)
  {
    hide Value, BigEndian, UnsignedWidth, Pow256, ShortestBytes, SignedValue;
    if InWord(n) {
      ShortestLiteral(n);
    }
  }

  lemma ChainSpoken(root: AbiType, s: Scalar)
    ensures ChainRequest(root, s).Ok? ==>
              var r := ChainRequest(root, s).value;
              r.role == 11 && Readable(r) && NamesChain(root, s, RequestMeaning(r))
    ensures (exists m :: NamesChain(root, s, m)) ==> ChainRequest(root, s).Ok?
  {
    hide ResolvePath, PathArgument, UnsignedRequest;
    if s.Word? {
      PathTaken(root, 11, s.text);
    } else if IntegerOf(s).Ok? {
      UnsignedSpoken(11, 7, IntegerOf(s).value);
    }
  }

  lemma ConstantSpoken(s: Scalar)
    ensures ConstantLiteral(s).Ok? ==>
              var r := ConstantLiteral(s).value;
              r.role == 1 && Readable(r) && RequestMeaning(r).Constant? && ShownConstant(s, RequestMeaning(r).of)
    ensures (exists m :: ShownConstant(s, m)) ==> ConstantLiteral(s).Ok?
  {
    hide HexBytes, Value, BigEndian, UnsignedWidth;
    HexIsPrefix(s);
    if s.Number? && InWord(s.n) {
      ShortestLiteral(s.n);
    }
  }

  // ----------------------------------------------------------- all arguments

  /** The requests with roles from `low` to below `high`: one for each parameter
      the field has there, in order. */
  ghost predicate Covers(root: AbiType, f: Field, rs: seq<Request>, low: nat, high: nat) {
    && AllSpeak(root, f, rs) && Between(rs, low, high)
    && forall q: Parameter :: low <= q.Role() < high ==> (HasRole(rs, q.Role()) <==> Present(f, q))
  }

  lemma CoversJoin(root: AbiType, f: Field, a: seq<Request>, b: seq<Request>, low: nat, middle: nat, high: nat)
    requires Covers(root, f, a, low, middle) && Covers(root, f, b, middle, high) && low <= middle <= high
    ensures Covers(root, f, a + b, low, high)
  {
    hide AllSpeak, HasRole, Present, Between;
    SpeakJoin(root, f, a, b);
    BetweenJoin(a, b, low, middle, high);
    forall q: Parameter | low <= q.Role() < high ensures HasRole(a + b, q.Role()) <==> Present(f, q) {
      RoleJoin(a, b, [], q.Role());
      NoRole(q.Role());
      assert a + b + [] == a + b;
      OutOfRange(a, low, middle, q.Role());
      OutOfRange(b, middle, high, q.Role());
    }
  }

  lemma OutOfRange(rs: seq<Request>, low: nat, high: nat, role: nat)
    requires Between(rs, low, high)
    ensures HasRole(rs, role) ==> low <= role < high
  {
  }

  /** Of the parameters with roles in the range the format knows at most `q`. */
  ghost predicate OnlyParameter(f: Field, q: Parameter, low: nat, high: nat) {
    low <= q.Role() < high && forall o: Parameter :: o != q && low <= o.Role() < high ==> !Present(f, o)
  }

  lemma OneCovers(root: AbiType, f: Field, r: Request, q: Parameter, low: nat, high: nat)
    requires Speaks(root, f, r, q) && OnlyParameter(f, q, low, high)
    ensures Covers(root, f, [r], low, high)
  {
    hide Readable, RequestMeaning, Present;
    SpeakOne(root, f, r, q);
    assert Present(f, q);
    forall o: Parameter | low <= o.Role() < high ensures HasRole([r], o.Role()) <==> Present(f, o) {
      RoleOne(r, o.Role());
      RoleDistinct(q, o);
    }
  }

  lemma NoneCovers(root: AbiType, f: Field, q: Parameter, low: nat, high: nat)
    requires !Present(f, q) && OnlyParameter(f, q, low, high)
    ensures Covers(root, f, [], low, high)
  {
    hide Present;
  }

  lemma MaybeCovers(root: AbiType, f: Field, given: bool, r: Result<Request>, q: Parameter, low: nat, high: nat)
    requires Maybe(root, given, r).Ok? && OnlyParameter(f, q, low, high) && (given <==> Present(f, q))
    requires given && r.Ok? ==> Speaks(root, f, r.value, q)
    ensures Covers(root, f, Maybe(root, given, r).value, low, high)
  {
    hide Speaks, Covers, OnlyParameter, Present;
    if given {
      OneCovers(root, f, r.value, q, low, high);
    } else {
      NoneCovers(root, f, q, low, high);
    }
  }

  /** What the field gives for the parameter has a meaning. */
  ghost predicate Meant(root: AbiType, f: Field, q: Parameter) {
    Present(f, q) ==> exists m :: Gives(root, f, q, m)
  }

  // ------------------------------------------------------------ token amounts

  lemma ThresholdIff(s: Scalar, n: int)
    ensures ThresholdOf(s) == Ok(n) <==>
            if BehindPrefix(s) then s.text != "0x" && HexValue(s.text[2..]) == Ok(n) else NumberIn(s, n)
  {
    hide HexValue, IntegerOf;
    HexIsPrefix(s);
    IntegerOfIff(s, n);
  }

  /** The bound of a token amount as the code computes it. */
  function Bound(p: Params): Result<int> {
    if p.threshold.Some? then ThresholdOf(p.threshold.value) else Ok(0)
  }

  lemma ThresholdCovers(root: AbiType, f: Field)
    requires f.format == "tokenAmount" && Bound(f.params).Ok?
    ensures var r := Maybe(root, f.params.threshold.Some?, UnsignedRequest(7, 1, Bound(f.params).value));
            (r.Ok? ==> Covers(root, f, r.value, 7, 8)) && (Meant(root, f, ThresholdParameter) ==> r.Ok?)
  {
    hide ThresholdOf, UnsignedRequest, Covers, BehindPrefix, NumberIn, Meant, InWord, Pow256, RequestMeaning, Gives,
      Readable;
    var n := Bound(f.params).value;
    var r := UnsignedRequest(7, 1, n);
    UnsignedSpoken(7, 1, n);
    if f.params.threshold.Some? {
      ThresholdIff(f.params.threshold.value, n);
      if Meant(root, f, ThresholdParameter) {
        BoundTaken(root, f);
      }
    }
    if Maybe(root, f.params.threshold.Some?, r).Ok? {
      if f.params.threshold.Some? {
        ThresholdSpeaks(root, f, n);
      }
      hide Speaks;
      MaybeCovers(root, f, f.params.threshold.Some?, r, ThresholdParameter, 7, 8);
    }
  }

  lemma ThresholdSpeaks(root: AbiType, f: Field, n: int)
    requires f.format == "tokenAmount" && f.params.threshold.Some? && InWord(n)
    requires ThresholdOf(f.params.threshold.value) == Ok(n)
    ensures UnsignedRequest(7, 1, n).Ok? && Speaks(root, f, UnsignedRequest(7, 1, n).value, ThresholdParameter)
  {
    hide ThresholdOf, UnsignedRequest, BehindPrefix, NumberIn, HexValue;
    UnsignedSpoken(7, 1, n);
    ThresholdIff(f.params.threshold.value, n);
  }

  lemma BoundTaken(root: AbiType, f: Field)
    requires f.format == "tokenAmount" && Meant(root, f, ThresholdParameter)
    ensures Bound(f.params).Ok? && (f.params.threshold.Some? ==> InWord(Bound(f.params).value))
  {
    hide ThresholdOf, BehindPrefix, NumberIn;
    if f.params.threshold.Some? {
      var m :| Gives(root, f, ThresholdParameter, m);
      ThresholdIff(f.params.threshold.value, m.n);
    }
  }

  lemma MessageCovers(root: AbiType, f: Field)
    requires f.format == "tokenAmount"
    ensures Covers(root, f, if Given(f.params.message) then [StringRequest(8, f.params.message.value)] else [], 8, 11)
  {
    hide Covers;
    if Given(f.params.message) {
      OneCovers(root, f, StringRequest(8, f.params.message.value), MessageParameter, 8, 11);
    } else {
      NoneCovers(root, f, MessageParameter, 8, 11);
    }
  }

  /** The chain of a token amount or a collection. */
  function ChainAsked(root: AbiType, f: Field): Result<Request> {
    if ChainNamed(f).Some? then ChainRequest(root, ChainNamed(f).value) else Raised
  }

  lemma ChainCovers(root: AbiType, f: Field)
    requires f.format in {"tokenAmount", "nftName"}
    ensures var r := Maybe(root, ChainNamed(f).Some?, ChainAsked(root, f));
            && (r.Ok? ==> Covers(root, f, r.value, 11, 22))
            && (Meant(root, f, ChainParameter) ==> r.Ok?)
  {
    hide ChainRequest, Covers, NamesChain, ChainNamed;
    var r := ChainAsked(root, f);
    if ChainNamed(f).Some? {
      ChainSpoken(root, ChainNamed(f).value);
      if Meant(root, f, ChainParameter) {
        var m :| Gives(root, f, ChainParameter, m);
        assert NamesChain(root, ChainNamed(f).value, m);
      }
    }
    if Maybe(root, ChainNamed(f).Some?, r).Ok? {
      if ChainNamed(f).Some? {
        assert Speaks(root, f, r.value, ChainParameter);
      }
      MaybeCovers(root, f, ChainNamed(f).Some?, r, ChainParameter, 11, 22);
    }
  }

  lemma {:induction false} AliasesSpoken(values: seq<Scalar>)
    ensures AddressLiterals(values).Ok? ==>
              var ls := AddressLiterals(values).value;
              |ls| == |values| && forall i :: 0 <= i < |ls| ==> ls[i].kind == 5 && AddressIn(values[i], ls[i].value)
    ensures (forall i :: 0 <= i < |values| ==> HexAddress(values[i]).Ok?) ==> AddressLiterals(values).Ok?
    decreases |values|
  {
    hide HexAddress, AddressIn;
    if values != [] {
      AliasesSpoken(values[1..]);
      assert forall i :: 1 <= i < |values| ==> values[i] == values[1..][i - 1];
      if HexAddress(values[0]).Ok? {
        HexAddressIff(values[0], HexAddress(values[0]).value);
      }
    }
  }

  lemma AliasesCover(root: AbiType, f: Field)
    requires f.format == "tokenAmount" && TokenNamed(f).Some?
    ensures var ls := AddressLiterals(f.params.aliases);
            && (ls.Ok? ==> Covers(root, f, if ls.value != [] then [SetRequest(22, ls.value)] else [], 22, 23))
            && (Meant(root, f, AliasesParameter) ==> ls.Ok?)
  {
    hide AddressLiterals, Covers, AddressIn, HexAddress;
    var values := f.params.aliases;
    AliasesSpoken(values);
    if AddressLiterals(values).Ok? {
      var ls := AddressLiterals(values).value;
      if ls != [] {
        OneCovers(root, f, SetRequest(22, ls), AliasesParameter, 22, 23);
      } else {
        NoneCovers(root, f, AliasesParameter, 22, 23);
      }
    }
    if Meant(root, f, AliasesParameter) && values != [] {
      var m :| Gives(root, f, AliasesParameter, m);
      forall i | 0 <= i < |values| ensures HexAddress(values[i]).Ok? {
        HexAddressIff(values[i], m.members[i].address);
      }
    }
  }

  lemma TokenExtrasCover(root: AbiType, f: Field)
    requires f.format == "tokenAmount"
    ensures TokenExtras(root, f.params).Ok? ==> Covers(root, f, TokenExtras(root, f.params).value, 7, 22)
    ensures Meant(root, f, ThresholdParameter) && Meant(root, f, ChainParameter) ==> TokenExtras(root, f.params).Ok?
  {
    hide Covers, Meant, UnsignedRequest, ThresholdOf, ChainRequest, Maybe;
    var p := f.params;
    ChainCovers(root, f);
    MessageCovers(root, f);
    if Meant(root, f, ThresholdParameter) {
      BoundTaken(root, f);
    }
    if Bound(p).Ok? {
      ThresholdCovers(root, f);
    }
    if TokenExtras(root, p).Ok? {
      var threshold := Maybe(root, p.threshold.Some?, UnsignedRequest(7, 1, Bound(p).value)).value;
      var message := if Given(p.message) then [StringRequest(8, p.message.value)] else [];
      var chain := Maybe(root, ChainNamed(f).Some?, ChainAsked(root, f)).value;
      CoversJoin(root, f, threshold, message, 7, 8, 11);
      CoversJoin(root, f, threshold + message, chain, 7, 11, 22);
    }
  }

  lemma TokenCovers(root: AbiType, f: Field)
    requires f.format == "tokenAmount" && TokenRequests(root, f.params).Ok?
    ensures var (kind, rs) := TokenRequests(root, f.params).value;
            Covers(root, f, rs, 2, 23) && kind == if TokenNamed(f).Some? then 3 else 1
  {
    hide Covers, AddressRequest, TokenExtras, AddressLiterals;
    var p := f.params;
    if TokenNamed(f).None? {
      NoTokenCovers(root, f);
    } else {
      var first := AddressRequest(root, 2, TokenNamed(f).value).value;
      TokenSpeaks(root, f);
      OneCovers(root, f, first, TokenParameter, 2, 7);
      TokenExtrasCover(root, f);
      AliasesCover(root, f);
      var extras, aliases := TokenExtras(root, p).value, AddressLiterals(p.aliases).value;
      var last := if aliases != [] then [SetRequest(22, aliases)] else [];
      CoversJoin(root, f, [first], extras, 2, 7, 22);
      CoversJoin(root, f, [first] + extras, last, 2, 22, 23);
    }
  }

  lemma TokenSpeaks(root: AbiType, f: Field)
    requires f.format == "tokenAmount" && TokenNamed(f).Some? && AddressRequest(root, 2, TokenNamed(f).value).Ok?
    ensures Speaks(root, f, AddressRequest(root, 2, TokenNamed(f).value).value, TokenParameter)
  {
    hide AddressRequest, Names, TokenNamed;
    AddressSpoken(root, 2, TokenNamed(f).value);
  }

  lemma NoTokenCovers(root: AbiType, f: Field)
    requires f.format == "tokenAmount" && TokenNamed(f).None? && TokenRequests(root, f.params).Ok?
    ensures Covers(root, f, [], 2, 23)
  {
    forall q: Parameter | 2 <= q.Role() < 23 ensures !Present(f, q) {
    }
  }

  lemma TokenTaken(root: AbiType, f: Field)
    requires f.format == "tokenAmount" && NothingUnused(f) && forall q :: Meant(root, f, q)
    ensures TokenRequests(root, f.params).Ok?
  {
    hide Covers, Meant, AddressRequest, TokenExtras, AddressLiterals;
    if TokenNamed(f).Some? {
      TokenExtrasCover(root, f);
      AliasesCover(root, f);
      AddressSpoken(root, 2, TokenNamed(f).value);
      NamedMeant(root, f, TokenParameter, TokenNamed(f).value);
    }
  }

  lemma NamedMeant(root: AbiType, f: Field, q: Parameter, s: Scalar)
    requires Meant(root, f, q) && Present(f, q)
    requires (q.TokenParameter? && TokenNamed(f) == Some(s))
             || (q.CollectionParameter? && CollectionNamed(f) == Some(s))
    ensures exists m :: Names(root, s, m)
  {
    hide Names;
    var m :| Gives(root, f, q, m);
  }

  /** A token amount without a token has no use for a token's parameters. */
  predicate NothingUnused(f: Field) {
    f.format == "tokenAmount" && TokenNamed(f).None? ==>
      f.params.threshold.None? && f.params.message.None? && f.params.chainId.None? && f.params.chainIdPath.None?
  }

  // ------------------------------------------------------------ other formats

  lemma NftCovers(root: AbiType, f: Field)
    requires f.format == "nftName"
    ensures NftRequests(root, f.params).Ok? ==> Covers(root, f, NftRequests(root, f.params).value, 2, 23)
    ensures (forall q :: Meant(root, f, q)) ==> NftRequests(root, f.params).Ok?
  {
    hide Covers, Meant, AddressRequest, ChainRequest, Maybe, Names;
    if forall q :: Meant(root, f, q) {
      CollectionMeant(root, f);
    }
    ChainCovers(root, f);
    if CollectionNamed(f).Some? {
      var s := CollectionNamed(f).value;
      AddressSpoken(root, 3, s);
      assert Meant(root, f, CollectionParameter) ==> exists m :: Names(root, s, m) by {
        if Meant(root, f, CollectionParameter) {
          NamedMeant(root, f, CollectionParameter, s);
        }
      }
      if NftRequests(root, f.params).Ok? {
        var first := AddressRequest(root, 3, s).value;
        assert Speaks(root, f, first, CollectionParameter);
        OneCovers(root, f, first, CollectionParameter, 2, 11);
        var chain := Maybe(root, ChainNamed(f).Some?, ChainAsked(root, f)).value;
        CoversJoin(root, f, [first], chain, 2, 11, 22);
        NothingMore(root, f, [first] + chain);
      }
    }
  }

  lemma CollectionMeant(root: AbiType, f: Field)
    requires f.format == "nftName" && Meant(root, f, CollectionParameter)
    ensures CollectionNamed(f).Some?
  {
    hide Names;
    var m :| Gives(root, f, CollectionParameter, m);
  }

  lemma NothingMore(root: AbiType, f: Field, rs: seq<Request>)
    requires f.format == "nftName" && Covers(root, f, rs, 2, 22)
    ensures Covers(root, f, rs, 2, 23)
  {
    forall q: Parameter | 2 <= q.Role() < 23 ensures HasRole(rs, q.Role()) <==> Present(f, q) {
      if q.AliasesParameter? {
        OutOfRange(rs, 2, 22, 22);
      }
    }
  }

  lemma DateCovers(root: AbiType, f: Field)
    requires f.format == "date"
    ensures Covers(root, f, [StringRequest(9, f.params.encoding)], 2, 23)
  {
    hide Covers;
    OneCovers(root, f, StringRequest(9, f.params.encoding), EncodingParameter, 2, 23);
  }

  lemma UnitCovers(root: AbiType, f: Field)
    requires f.format == "unit"
    ensures UnitRequests(root, f.params).Ok? ==> Covers(root, f, UnitRequests(root, f.params).value, 2, 23)
    ensures Meant(root, f, DecimalsParameter) && Meant(root, f, BaseParameter) ==> UnitRequests(root, f.params).Ok?
  {
    hide Covers, Meant, UnsignedRequest, LiteralMeaning, Speaks, OnlyParameter;
    var p := f.params;
    DecimalsCover(root, f);
    if Meant(root, f, BaseParameter) {
      BaseGiven(root, f);
    }
    if UnitRequests(root, p).Ok? {
      var decimals, base := UnsignedRequest(4, 1, p.decimals).value, StringRequest(5, p.base);
      var prefix := LiteralRequest(6, Literal(6, [if p.unitPrefix then 1 else 0]));
      BaseCovers(root, f);
      PrefixCovers(root, f);
      CoversJoin(root, f, [decimals], [base], 2, 5, 6);
      CoversJoin(root, f, [decimals] + [base], [prefix], 2, 6, 23);
      assert [decimals] + [base] + [prefix] == [decimals, base, prefix];
    }
  }

  lemma DecimalsCover(root: AbiType, f: Field)
    requires f.format == "unit"
    ensures var r := UnsignedRequest(4, 1, f.params.decimals);
            (r.Ok? ==> Covers(root, f, [r.value], 2, 5)) && (Meant(root, f, DecimalsParameter) ==> r.Ok?)
  {
    hide Covers, UnsignedRequest;
    UnsignedSpoken(4, 1, f.params.decimals);
    if Meant(root, f, DecimalsParameter) {
      var m :| Gives(root, f, DecimalsParameter, m);
    }
    if UnsignedRequest(4, 1, f.params.decimals).Ok? {
      OneCovers(root, f, UnsignedRequest(4, 1, f.params.decimals).value, DecimalsParameter, 2, 5);
    }
  }

  lemma BaseGiven(root: AbiType, f: Field)
    requires f.format == "unit" && Meant(root, f, BaseParameter)
    ensures f.params.base != ""
  {
    var m :| Gives(root, f, BaseParameter, m);
  }

  lemma BaseCovers(root: AbiType, f: Field)
    requires f.format == "unit" && f.params.base != ""
    ensures Covers(root, f, [StringRequest(5, f.params.base)], 5, 6)
  {
    hide Covers;
    OneCovers(root, f, StringRequest(5, f.params.base), BaseParameter, 5, 6);
  }

  lemma PrefixCovers(root: AbiType, f: Field)
    requires f.format == "unit"
    ensures Covers(root, f, [LiteralRequest(6, Literal(6, [if f.params.unitPrefix then 1 else 0]))], 6, 23)
  {
    hide Covers, Speaks;
    PrefixSpeaks(root, f);
    OneCovers(root, f, LiteralRequest(6, Literal(6, [if f.params.unitPrefix then 1 else 0])), PrefixParameter, 6, 23);
  }

  lemma PrefixSpeaks(root: AbiType, f: Field)
    requires f.format == "unit"
    ensures Speaks(root, f, LiteralRequest(6, Literal(6, [if f.params.unitPrefix then 1 else 0])), PrefixParameter)
  {
  }

  lemma {:induction false} LabelsSpoken(node: AbiType, entries: seq<(Scalar, string)>)
    ensures EnumLiterals(node, entries).Ok? ==>
              var ls := EnumLiterals(node, entries).value;
              && |ls| == |entries|
              && forall i :: 0 <= i < |ls| ==>
                   PlainLiteral(ls[i].0) && ls[i].1 == entries[i].1
                   && Compares(node.Kind(), entries[i].0, LiteralMeaning([], ls[i].0))
    ensures (forall i :: 0 <= i < |entries| ==> ConditionLiteral(node, entries[i].0).Ok?) ==>
              EnumLiterals(node, entries).Ok?
    decreases |entries|
  {
    hide ConditionLiteral, Compares, LiteralMeaning, PlainLiteral;
    if entries != [] {
      LabelsSpoken(node, entries[1..]);
      assert forall i :: 1 <= i < |entries| ==> entries[i] == entries[1..][i - 1];
      if ConditionLiteral(node, entries[0].0).Ok? {
        ComparedLiteral(node, entries[0].0);
      }
    }
  }

  lemma EnumCovers(root: AbiType, f: Field)
    requires f.format == "enum"
    ensures var ls := EnumLiterals(NodeOf(root, f), f.params.enumEntries);
            && (ls.Ok? && ls.value != [] ==> Covers(root, f, [MapRequest(10, ls.value)], 2, 23))
            && (Meant(root, f, LabelsParameter) ==> ls.Ok? && ls.value != [])
  {
    hide Covers, EnumLiterals, Compares, LiteralMeaning, PlainLiteral, ConditionLiteral, NodeOf;
    var node, entries := NodeOf(root, f), f.params.enumEntries;
    LabelsSpoken(node, entries);
    if EnumLiterals(node, entries).Ok? && EnumLiterals(node, entries).value != [] {
      LabelsSpeak(root, f);
      OneCovers(root, f, MapRequest(10, EnumLiterals(node, entries).value), LabelsParameter, 2, 23);
    }
    if Meant(root, f, LabelsParameter) {
      var m :| Gives(root, f, LabelsParameter, m);
      forall i | 0 <= i < |entries| ensures ConditionLiteral(node, entries[i].0).Ok? {
        ComparedTaken(node, entries[i].0, m.entries[i].0);
      }
    }
  }

  lemma LabelsSpeak(root: AbiType, f: Field)
    requires f.format == "enum"
    requires var ls := EnumLiterals(NodeOf(root, f), f.params.enumEntries); ls.Ok? && ls.value != []
    ensures Speaks(root, f, MapRequest(10, EnumLiterals(NodeOf(root, f), f.params.enumEntries).value), LabelsParameter)
  {
    hide EnumLiterals, Compares, LiteralMeaning, PlainLiteral, NodeOf;
    LabelsSpoken(NodeOf(root, f), f.params.enumEntries);
  }

  /** A path that a call takes when it is given. */
  lemma CallPath(root: AbiType, f: Field, path: Option<string>, q: Parameter, low: nat, high: nat)
    requires f.format == "calldata" && OnlyParameter(f, q, low, high)
    requires || (q.AmountParameter? && path == f.params.amountPath)
             || (q.SpenderParameter? && path == f.params.spenderPath)
    ensures var r := Maybe(root, Given(path), if Given(path) then PathArgument(root, q.Role(), path.value) else Raised);
            (r.Ok? ==> Covers(root, f, r.value, low, high)) && (Meant(root, f, q) ==> r.Ok?)
  {
    hide Covers, OnlyParameter, PathArgument, Leads;
    var asked := if Given(path) then PathArgument(root, q.Role(), path.value) else Raised;
    if Given(path) {
      PathTaken(root, q.Role(), path.value);
      if Meant(root, f, q) {
        var m :| Gives(root, f, q, m);
        assert Leads(root, path.value, m);
      }
    }
    if Maybe(root, Given(path), asked).Ok? {
      MaybeCovers(root, f, Given(path), asked, q, low, high);
    }
  }

  lemma CallCovers(root: AbiType, f: Field)
    requires f.format == "calldata"
    ensures CallRequests(root, f.params).Ok? ==> Covers(root, f, CallRequests(root, f.params).value, 2, 23)
    ensures (forall q :: Meant(root, f, q)) ==> CallRequests(root, f.params).Ok?
  {
    hide Covers, Meant, PathArgument, Leads, Maybe;
    var p := f.params;
    if forall q :: Meant(root, f, q) {
      CalleeMeant(root, f);
    }
    if Given(p.calleePath) {
      PathTaken(root, 15, p.calleePath.value);
      CallPath(root, f, p.amountPath, AmountParameter, 16, 18);
      CallPath(root, f, p.spenderPath, SpenderParameter, 18, 23);
      if CallRequests(root, p).Ok? {
        var callee := PathArgument(root, 15, p.calleePath.value).value;
        assert Speaks(root, f, callee, CalleeParameter);
        OneCovers(root, f, callee, CalleeParameter, 2, 16);
        var amount := Maybe(root, Given(p.amountPath),
                            if Given(p.amountPath) then PathArgument(root, 17, p.amountPath.value) else Raised).value;
        var spender := Maybe(root, Given(p.spenderPath),
                             if Given(p.spenderPath) then PathArgument(root, 18, p.spenderPath.value)
                               else Raised).value;
        CoversJoin(root, f, [callee], amount, 2, 16, 18);
        CoversJoin(root, f, [callee] + amount, spender, 2, 18, 23);
      }
    }
  }

  lemma CalleeMeant(root: AbiType, f: Field)
    requires f.format == "calldata" && Meant(root, f, CalleeParameter)
    ensures Given(f.params.calleePath) && exists m :: Leads(root, f.params.calleePath.value, m)
  {
    hide ResolveParts;
    var m :| Gives(root, f, CalleeParameter, m);
    assert Leads(root, f.params.calleePath.value, m);
  }

  // ------------------------------------------------------------- the formatter

  /** A format's name is taken for its number, and no other text for any. */
  lemma FormatKindIff(format: string, kind: nat)
    ensures FormatKind(format) == Ok(kind) <==> exists form: Format :: form.Name() == format && form.Number() == kind
  {
    if FormatKind(format) == Ok(kind) {
      KindKnown(format);
      var form: Format :| form.Number() == kind;
      NamedBy(format, form);
    }
    hide FormatKind;
    if exists form: Format :: form.Name() == format && form.Number() == kind {
      var form: Format :| form.Name() == format && form.Number() == kind;
      FormatTaken(form);
    }
  }

  lemma KindKnown(format: string)
    requires FormatKind(format).Ok?
    ensures exists form: Format :: form.Number() == FormatKind(format).value
  {
    NumbersKnown(FormatKind(format).value);
  }

  lemma NumbersKnown(kind: nat)
    requires 1 <= kind <= 14
    ensures exists form: Format :: form.Number() == kind
  {
    var all := [RawFormat, AmountFormat, TokenFormat, NftFormat, DateFormat, DurationFormat, UnitFormat, EnumFormat,
                ChainFormat, AddressFormat, TickerFormat, InteroperableFormat, CalldataFormat, EncryptedFormat];
    assert all[kind - 1].Number() == kind;
  }

  lemma NamedBy(format: string, form: Format)
    requires FormatKind(format) == Ok(form.Number())
    ensures form.Name() == format
  {
  }

  lemma FormatTaken(form: Format)
    ensures FormatKind(form.Name()) == Ok(form.Number())
  {
  }

  lemma ValueCovers(root: AbiType, f: Field)
    ensures ValueRequest(root, f).Ok? ==> Covers(root, f, [ValueRequest(root, f).value], 1, 2)
    ensures Meant(root, f, ValueParameter) ==> ValueRequest(root, f).Ok?
  {
    hide Covers, ConstantLiteral, PathArgument, ResolvePath, ShownConstant;
    if f.value.Some? {
      ConstantSpoken(f.value.value);
    } else if f.path.Some? {
      PathTaken(root, 1, f.path.value);
      NoEmptyPath(root);
    }
    if Meant(root, f, ValueParameter) {
      var m :| Gives(root, f, ValueParameter, m);
      assert f.value.Some? ==> ShownConstant(f.value.value, m.of);
    }
    if ValueRequest(root, f).Ok? {
      ValueSpeaks(root, f);
      OneCovers(root, f, ValueRequest(root, f).value, ValueParameter, 1, 2);
    }
  }

  lemma NoEmptyPath(root: AbiType)
    ensures ResolvePath(root, "").Raised?
  {
  }

  lemma ValueSpeaks(root: AbiType, f: Field)
    requires ValueRequest(root, f).Ok?
    ensures Speaks(root, f, ValueRequest(root, f).value, ValueParameter)
  {
    hide ConstantLiteral, ShownConstant, ResolvePath;
    if f.value.Some? {
      ConstantSpoken(f.value.value);
    } else {
      ResolvedIsNoLiteral(root, f.path.value);
    }
  }

  lemma ResolvedIsNoLiteral(root: AbiType, text: string)
    ensures ResolvePath(root, text).Ok? ==> !ResolvePath(root, text).value.LiteralPath?
  {
    hide ResolveParts;
  }

  /** The formats whose value is all they take. */
  predicate ValueOnly(format: string) {
    format !in {"tokenAmount", "nftName", "date", "unit", "enum", "calldata"}
  }

  lemma ValueOnlyCovers(root: AbiType, f: Field)
    requires ValueOnly(f.format)
    ensures Covers(root, f, [], 2, 23)
  {
    forall q: Parameter | 2 <= q.Role() < 23 ensures !Present(f, q) {
    }
  }

  lemma {:induction false} FollowsHasNode(node: AbiType, steps: seq<Step>)
    requires Follows(node, steps)
    ensures NodeAt(node, steps).Ok?
    decreases |steps|
  {
    if steps != [] && !steps[0].Slice? {
      FollowsHasNode(ChildAt(node, steps[0]).value, steps[1..]);
    }
  }

  lemma ValueHasNode(root: AbiType, f: Field)
    ensures PathNode(root, PathOf(root, f)).Ok?
  {
    hide ConstantLiteral, ResolvePath, NodeAt, Follows;
    var path := PathOf(root, f);
    if f.value.None? && f.path.Some? && ResolvePath(root, f.path.value).Ok? {
      ResolvedPathOn(root, f.path.value);
    } else {
      ConstantHasNoPath(f);
    }
    if path.AbiPath? {
      FollowsHasNode(root, path.steps);
    }
  }

  lemma ConstantHasNoPath(f: Field)
    ensures f.value.Some? && ConstantLiteral(f.value.value).Ok? ==> !ConstantLiteral(f.value.value).value.PathRequest?
  {
    hide UnsignedLiteral, HexBytes;
  }

  /** The requests behind the value, format by format. */
  lemma RequestsCover(root: AbiType, f: Field)
    ensures Requests(root, PathOf(root, f), f).Ok? ==>
              var (kind, rs) := Requests(root, PathOf(root, f), f).value;
              && Covers(root, f, rs, 2, 23)
              && FormatKind(FormatOf(f)) == Ok(kind)
    ensures FormatKind(f.format).Ok? && NothingUnused(f) && (forall q :: Meant(root, f, q)) ==>
              Requests(root, PathOf(root, f), f).Ok?
  {
    hide Covers, Meant, TokenRequests, NftRequests, UnitRequests, CallRequests, EnumLiterals, PathNode, PathOf,
      NothingUnused;
    match f.format
    case "tokenAmount" =>
      if TokenRequests(root, f.params).Ok? {
        TokenCovers(root, f);
      }
      if NothingUnused(f) && forall q :: Meant(root, f, q) {
        TokenTaken(root, f);
      }
    case "nftName" => NftCovers(root, f);
    case "date" => DateCovers(root, f);
    case "unit" => UnitCovers(root, f);
    case "enum" =>
      ValueHasNode(root, f);
      EnumCovers(root, f);
    case "calldata" => CallCovers(root, f);
    case _ => ValueOnlyCovers(root, f);
  }

  /** A field the compiler can make a formatter for: a format it knows, and every
      parameter has a meaning. */
  ghost predicate Describable(root: AbiType, f: Field) {
    && (exists form: Format :: form.Name() == f.format)
    && NothingUnused(f) && forall q :: Meant(root, f, q)
  }

  /** The formatter of a field is planned exactly when the field is describable,
      under its format's number, with one request for each parameter the field
      has, in the order of their roles, each saying what the field gives. */
  lemma PlanCovers(root: AbiType, f: Field)
    ensures PlanOf(root, f).Ok? ==>
              && Covers(root, f, PlanOf(root, f).value.requests, 1, 23)
              && exists form: Format :: form.Name() == FormatOf(f) && form.Number() == PlanOf(root, f).value.kind
    ensures PlanOf(root, f).Ok? <==> Describable(root, f)
  {
    hide Covers, Meant, Requests, ValueRequest, PathOf, NothingUnused, FormatKind;
    ValueCovers(root, f);
    RequestsCover(root, f);
    if PlanOf(root, f).Ok? {
      var plan := PlanOf(root, f).value;
      var value, rs := ValueRequest(root, f).value, Requests(root, PathOf(root, f), f).value.1;
      CoversJoin(root, f, [value], rs, 1, 2, 23);
      FormatKindIff(FormatOf(f), plan.kind);
      PlannedIsDescribable(root, f);
    }
    if Describable(root, f) {
      var form: Format :| form.Name() == f.format;
      FormatTaken(form);
      assert Meant(root, f, ValueParameter);
    }
  }

  lemma PlannedIsDescribable(root: AbiType, f: Field)
    requires PlanOf(root, f).Ok? && Covers(root, f, PlanOf(root, f).value.requests, 1, 23)
    ensures Describable(root, f)
  {
    hide Requests, ValueRequest, Gives, PathOf, Readable, RequestMeaning;
    var rs := PlanOf(root, f).value.requests;
    forall q ensures Meant(root, f, q) {
      if Present(f, q) {
        assert HasRole(rs, q.Role());
        var i :| 0 <= i < |rs| && rs[i].role == q.Role();
        assert SpeaksForSome(root, f, rs[i]);
        var o :| Speaks(root, f, rs[i], o);
        RoleDistinct(q, o);
      }
    }
    PlannedFormat(root, f);
  }

  lemma PlannedFormat(root: AbiType, f: Field)
    requires PlanOf(root, f).Ok?
    ensures NothingUnused(f) && exists form: Format :: form.Name() == f.format
  {
    hide AddressRequest, TokenExtras, AddressLiterals, NftRequests, UnitRequests, CallRequests, EnumLiterals, PathNode,
      PathOf, ValueRequest, FormatKind;
    FormatKindIff(f.format, FormatKind(f.format).value);
    TokenKind();
  }

  lemma TokenKind()
    ensures FormatKind("tokenAmount") == Ok(3)
  {
  }
}
