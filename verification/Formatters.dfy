/** Which arguments a field's formatter takes (the format branches of
    `CalldataCompiler.compile`, keepkeylib/erc7730_compiler.py): each branch
    asks for paths, literals and strings in a fixed order. */
module Formatters {
  import opened Wrappers
  import opened Text
  import opened Bytes
  import opened Hex
  import opened Integers
  import opened AbiTypes
  import opened AbiPaths
  import opened Program
  import opened DisplayFields

  /** One argument still without table indexes. */
  datatype Request =
    | PathRequest(role: nat, path: Path)
    | ConstantRequest(role: nat, literal: Literal)
    | TextConstantRequest(role: nat, text: string)
    | LiteralRequest(role: nat, literal: Literal)
    | StringRequest(role: nat, text: string)
    | SetRequest(role: nat, members: seq<Literal>)
    | MapRequest(role: nat, entries: seq<(Literal, string)>)

  function FormatKind(format: string): Result<nat> {
    if format == "raw" then Ok(1)
    else if format == "amount" then Ok(2)
    else if format == "tokenAmount" then Ok(3)
    else if format == "nftName" then Ok(4)
    else if format == "date" then Ok(5)
    else if format == "duration" then Ok(6)
    else if format == "unit" then Ok(7)
    else if format == "enum" then Ok(8)
    else if format == "chainId" then Ok(9)
    else if format == "addressName" then Ok(10)
    else if format == "tokenTicker" then Ok(11)
    else if format == "interoperableAddress" then Ok(12)
    else if format == "calldata" then Ok(13)
    else if format == "encrypted" then Ok(14)
    else Raised
  }

  // ---------------------------------------------------------------- literals

  predicate IsHex(s: string) {
    StartsWith(s, "0x")
  }

  /** `_hex_address`. */
  function HexAddress(s: Scalar): Result<bytes> {
    if !s.Word? || !IsHex(s.text) then Raised
    else
      var raw :- HexBytes(s.text[2..]);
      if |raw| == 20 then Ok(raw) else Raised
  }

  /** The integer `int(value)` makes of a descriptor value. */
  function IntegerOf(s: Scalar): Result<int> {
    match s
    case Number(n) => Ok(n)
    case Flag(b) => Ok(if b then 1 else 0)
    case Word(text) => IntOf(text)
    case OtherValue => Raised
  }

  /** `_condition_literal`. */
  function ConditionLiteral(node: AbiType, value: Scalar): Result<Literal> {
    var kind := node.Kind();
    match value
    case Number(n) =>
      if kind == UINT || (kind in {FIXED_BYTES, BYTES} && n >= 0) then
        var b :- UnsignedLiteral(n);
        Ok(Literal(if kind == UINT then 1 else 3, b))
      else if kind == INT then Ok(Literal(2, SignedLiteral(n)))
      else Raised
    case Flag(b) =>
      if kind == BOOL then Ok(Literal(6, [if b then 1 else 0]))
      else if kind in {FIXED_BYTES, BYTES} then Ok(Literal(3, [if b then 1 else 0]))
      else Raised
    case Word(text) =>
      if kind == ADDRESS then
        var raw :- HexAddress(value);
        Ok(Literal(5, raw))
      else if kind in {FIXED_BYTES, BYTES} && IsHex(text) then
        var raw :- HexBytes(text[2..]);
        Ok(Literal(3, raw))
      else Raised
    case OtherValue => Raised
  }

  function ConditionLiterals(node: AbiType, values: seq<Scalar>): Result<seq<Literal>> {
    if values == [] then Ok([])
    else
      var first :- ConditionLiteral(node, values[0]);
      var rest :- ConditionLiterals(node, values[1..]);
      Ok([first] + rest)
  }

  function AddressLiterals(values: seq<Scalar>): Result<seq<Literal>> {
    if values == [] then Ok([])
    else
      var raw :- HexAddress(values[0]);
      var rest :- AddressLiterals(values[1..]);
      Ok([Literal(5, raw)] + rest)
  }

  function EnumLiterals(node: AbiType, entries: seq<(Scalar, string)>): Result<seq<(Literal, string)>> {
    if entries == [] then Ok([])
    else
      var key :- ConditionLiteral(node, entries[0].0);
      var rest :- EnumLiterals(node, entries[1..]);
      Ok([(key, entries[0].1)] + rest)
  }

  // ----------------------------------------------------------------- requests

  /** A request after the value's: its role is larger, so sorting leaves the
      value first, and its path follows the tree. */
  predicate Later(root: AbiType, r: Request) {
    r.role > 1 && (r.PathRequest? ==> PathOn(root, r.path))
  }

  predicate AllLater(root: AbiType, rs: seq<Request>) {
    forall i :: 0 <= i < |rs| ==> Later(root, rs[i])
  }

  function UnsignedRequest(role: nat, kind: nat, n: int): Result<Request> {
    var b :- UnsignedLiteral(n);
    Ok(LiteralRequest(role, Literal(kind, b)))
  }

  function PathArgument(root: AbiType, role: nat, path: string): (r: Result<Request>)
    ensures r.Ok? && role > 1 ==> Later(root, r.value)
  {
    var p :- ResolvePath(root, path);
    ResolvedPathOn(root, path);
    Ok(PathRequest(role, p))
  }

  /** An address constant, or a path to an address. */
  function AddressRequest(root: AbiType, role: nat, value: Scalar): (r: Result<Request>)
    ensures r.Ok? && role > 1 ==> Later(root, r.value)
  {
    match value
    case Word(text) =>
      if IsHex(text) then
        var raw :- HexAddress(value);
        Ok(ConstantRequest(role, Literal(5, raw)))
      else PathArgument(root, role, text)
    case _ => Raised
  }

  function ChainRequest(root: AbiType, chain: Scalar): (r: Result<Request>)
    ensures r.Ok? ==> Later(root, r.value)
  {
    match chain
    case Word(text) => PathArgument(root, 11, text)
    case OtherValue => Raised
    case _ =>
      var n :- IntegerOf(chain);
      UnsignedRequest(11, 7, n)
  }

  function ThresholdOf(value: Scalar): Result<int> {
    if value.Word? && IsHex(value.text) then
      if value.text == "0x" then Raised else HexValue(value.text[2..])
    else IntegerOf(value)
  }

  /** At most one request, when its key is present. */
  function Maybe(root: AbiType, given: bool, r: Result<Request>): (rs: Result<seq<Request>>)
    ensures rs.Ok? && (r.Ok? ==> Later(root, r.value)) ==> AllLater(root, rs.value)
  {
    if !given then Ok([])
    else
      var request :- r;
      Ok([request])
  }

  function FirstOf<T>(a: Option<T>, b: Option<T>): Option<T> {
    if a.Some? then a else b
  }

  /** The parameters of `tokenAmount` that need no token. */
  function TokenExtras(root: AbiType, p: Params): (r: Result<seq<Request>>)
    ensures r.Ok? ==> AllLater(root, r.value)
  {
    var bound: int :- if p.threshold.Some? then ThresholdOf(p.threshold.value) else Ok(0);
    var threshold :- Maybe(root, p.threshold.Some?, UnsignedRequest(7, 1, bound));
    var message := if Given(p.message) then [StringRequest(8, p.message.value)] else [];
    var chain :- Maybe(root, p.chainId.Some?, if p.chainId.Some? then ChainRequest(root, p.chainId.value) else Raised);
    Ok(threshold + message + chain)
  }

  function TokenRequests(root: AbiType, p: Params): (r: Result<(nat, seq<Request>)>)
    ensures r.Ok? ==> AllLater(root, r.value.1)
  {
    var token := FirstOf(p.tokenPath, p.token);
    if token.None? then
      if p.threshold.Some? || p.message.Some? || p.chainId.Some? || p.chainIdPath.Some? then Raised else Ok((1, []))
    else
      var first :- AddressRequest(root, 2, token.value);
      var extras :- TokenExtras(root, p);
      var aliases :- AddressLiterals(p.aliases);
      Ok((3, [first] + extras + if aliases != [] then [SetRequest(22, aliases)] else []))
  }

  function NftRequests(root: AbiType, p: Params): (r: Result<seq<Request>>)
    ensures r.Ok? ==> AllLater(root, r.value)
  {
    var collection := FirstOf(p.collectionPath, p.collection);
    if collection.None? then Raised
    else
      var first :- AddressRequest(root, 3, collection.value);
      var chain := FirstOf(p.chainIdPath, p.chainId);
      var second :- Maybe(root, chain.Some?, if chain.Some? then ChainRequest(root, chain.value) else Raised);
      Ok([first] + second)
  }

  function UnitRequests(root: AbiType, p: Params): (r: Result<seq<Request>>)
    ensures r.Ok? ==> AllLater(root, r.value)
  {
    if p.base == "" then Raised
    else
      var decimals :- UnsignedRequest(4, 1, p.decimals);
      Ok([decimals, StringRequest(5, p.base), LiteralRequest(6, Literal(6, [if p.unitPrefix then 1 else 0]))])
  }

  function CallRequests(root: AbiType, p: Params): (r: Result<seq<Request>>)
    ensures r.Ok? ==> AllLater(root, r.value)
  {
    if !Given(p.calleePath) then Raised
    else
      var callee :- PathArgument(root, 15, p.calleePath.value);
      var amount :- Maybe(root, Given(p.amountPath),
                          if Given(p.amountPath) then PathArgument(root, 17, p.amountPath.value) else Raised);
      var spender :- Maybe(root, Given(p.spenderPath),
                           if Given(p.spenderPath) then PathArgument(root, 18, p.spenderPath.value) else Raised);
      Ok([callee] + amount + spender)
  }

  /** The formatter kind and what its arguments after the value ask for. */
  function Requests(root: AbiType, path: Path, f: Field): (r: Result<(nat, seq<Request>)>)
    ensures r.Ok? ==> AllLater(root, r.value.1)
  {
    var kind :- FormatKind(f.format);
    if kind == 3 then TokenRequests(root, f.params)
    else if kind == 4 then
      var rs :- NftRequests(root, f.params);
      Ok((kind, rs))
    else if kind == 5 then Ok((kind, [StringRequest(9, f.params.encoding)]))
    else if kind == 7 then
      var rs :- UnitRequests(root, f.params);
      Ok((kind, rs))
    else if kind == 8 then
      var node :- PathNode(root, path);
      var entries :- EnumLiterals(node, f.params.enumEntries);
      if entries == [] then Raised else Ok((kind, [MapRequest(10, entries)]))
    else if kind == 13 then
      var rs :- CallRequests(root, f.params);
      Ok((kind, rs))
    else Ok((kind, []))
  }

  /** The literal a constant display value becomes. */
  function ConstantLiteral(value: Scalar): Result<Request> {
    match value
    case Flag(b) => Ok(ConstantRequest(1, Literal(6, [if b then 1 else 0])))
    case Number(n) =>
      var b :- UnsignedLiteral(n);
      Ok(ConstantRequest(1, Literal(1, b)))
    case Word(text) =>
      if IsHex(text) then
        var raw :- HexBytes(text[2..]);
        Ok(ConstantRequest(1, Literal(if |raw| == 20 then 5 else 3, raw)))
      else Ok(TextConstantRequest(1, text))
    case OtherValue => Raised
  }
}
