/** Reading a compiled program back to its descriptor
    (`CalldataCompiler.compile`, keepkeylib/erc7730_compiler.py): what the tables
    hold for each argument of a formatter, by a reader of its own, is what the
    field gives for the parameter of that role. */
module CompiledMeaning {
  import opened Bytes
  import opened AbiPaths
  import opened Program
  import opened Formatters
  import opened ProgramPools
  import Utf8

  // ------------------------------------------------------- reading the tables

  /** What an argument of a formatter says. */
  datatype Meaning =
    | PathTo(path: Path)
    | Constant(of: Meaning)
    | Whole(n: nat)
    | Negative(z: int)
    | ChainNumber(id: nat)
    | Octets(data: bytes)
    | AddressOf(address: bytes)
    | Truth(b: bool)
    | Characters(text: string)
    | OneOf(members: seq<Meaning>)
    | Labelled(entries: seq<(Meaning, string)>)
    | Unreadable

  function TextAt(strings: seq<bytes>, i: nat): Meaning {
    if i >= |strings| then Unreadable
    else
      match Utf8.Decode(strings[i])
      case Ok(text) => Characters(text)
      case Raised => Unreadable
  }

  /** A literal that names no other literal. */
  function LiteralMeaning(strings: seq<bytes>, l: Literal): Meaning {
    if l.kind == 1 then Whole(Value(l.value))
    else if l.kind == 2 then Negative(SignedValue(l.value))
    else if l.kind == 3 then Octets(l.value)
    else if l.kind == 4 && ReadU16(l.value, 0).Ok? then TextAt(strings, ReadU16(l.value, 0).value)
    else if l.kind == 5 then AddressOf(l.value)
    else if l.kind == 6 && l.value in {[0], [1]} then Truth(l.value == [1])
    else if l.kind == 7 then ChainNumber(Value(l.value))
    else Unreadable
  }

  function MeaningAt(p: Pools, i: nat): Meaning {
    if i < |p.literals| then LiteralMeaning(p.strings, p.literals[i]) else Unreadable
  }

  /** The literal that the reference at `at` names. */
  function Referenced(p: Pools, value: bytes, at: nat): Meaning {
    match ReadU16(value, at)
    case Ok(i) => MeaningAt(p, i)
    case Raised => Unreadable
  }

  function LabelAt(p: Pools, value: bytes, at: nat): string {
    match ReadU16(value, at)
    case Ok(i) => (match TextAt(p.strings, i) case Characters(text) => text case _ => "")
    case Raised => ""
  }

  function Count(value: bytes): nat {
    match ReadU16(value, 0)
    case Ok(n) => n
    case Raised => 0
  }

  function ArgumentMeaning(p: Pools, a: Argument): Meaning {
    if a.source == 1 && a.index < |p.paths| then
      match p.paths[a.index]
      case LiteralPath(i) => Constant(MeaningAt(p, i))
      case path => PathTo(path)
    else if a.source == 2 && a.index < |p.literals| then
      var l := p.literals[a.index];
      if l.kind == 8 then
        Labelled(seq(Count(l.value), k requires k >= 0 =>
          (Referenced(p, l.value, 2 + 4 * k), LabelAt(p, l.value, 4 + 4 * k))))
      else if l.kind == 9 then OneOf(seq(Count(l.value), k requires k >= 0 => Referenced(p, l.value, 2 + 2 * k)))
      else LiteralMeaning(p.strings, l)
    else if a.source == 3 then TextAt(p.strings, a.index)
    else Unreadable
  }

  predicate PlainLiteral(l: Literal) {
    l.kind in {1, 2, 3, 5, 6, 7}
  }

  /** No leading zero byte, but for zero itself. */
  predicate ShortestBytes(b: bytes) {
    |b| == 1 || (|b| > 1 && b[0] != 0)
  }

  predicate Readable(r: Request) {
    match r
    case PathRequest(_, path) => !path.LiteralPath?
    case ConstantRequest(_, l) => PlainLiteral(l)
    case LiteralRequest(_, l) =>
      PlainLiteral(l) && (l.kind == 1 ==> ShortestBytes(l.value)) && (l.kind == 6 ==> l.value in {[0], [1]})
    case SetRequest(_, members) => forall k :: 0 <= k < |members| ==> PlainLiteral(members[k])
    case MapRequest(_, entries) => forall k :: 0 <= k < |entries| ==> PlainLiteral(entries[k].0)
    case _ => true
  }

  function RequestMeaning(r: Request): Meaning {
    match r
    case PathRequest(_, path) => PathTo(path)
    case ConstantRequest(_, l) => Constant(LiteralMeaning([], l))
    case TextConstantRequest(_, text) => Constant(Characters(text))
    case LiteralRequest(_, l) => LiteralMeaning([], l)
    case StringRequest(_, text) => Characters(text)
    case SetRequest(_, members) =>
      OneOf(seq(|members|, k requires 0 <= k < |members| => LiteralMeaning([], members[k])))
    case MapRequest(_, entries) =>
      Labelled(seq(|entries|, k requires 0 <= k < |entries| => (LiteralMeaning([], entries[k].0), entries[k].1)))
  }

  lemma TextRead(p: Pools, i: nat, text: string)
    requires IsString(p, i, text)
    ensures TextAt(p.strings, i) == Characters(text)
  {
    Utf8.DecodeUndoesEncode(text);
  }

  lemma PlainAnywhere(strings: seq<bytes>, l: Literal)
    requires PlainLiteral(l)
    ensures LiteralMeaning(strings, l) == LiteralMeaning([], l)
  {
  }

  /** What an argument denotes is what the tables say for it. */
  lemma DenotedMeaning(p: Pools, a: Argument, r: Request)
    requires Denotes(p, a, r) && Readable(r)
    ensures ArgumentMeaning(p, a) == RequestMeaning(r)
  {
    hide LiteralMeaning, Utf8.Encode, PlainLiteral;
    match r
    case PathRequest(_, _) =>
    case ConstantRequest(_, l) => PlainAnywhere(p.strings, l);
    case TextConstantRequest(_, text) => TextLiteralRead(p, p.paths[a.index].literal, text);
    case LiteralRequest(_, l) => PlainAlone(p, a, l);
    case StringRequest(_, text) => TextRead(p, a.index, text);
    case SetRequest(_, members) => SetRead(p, a, members);
    case MapRequest(_, entries) => MapRead(p, a, entries);
  }

  lemma PlainAlone(p: Pools, a: Argument, l: Literal)
    requires PlainLiteral(l) && a.source == 2 && IsLiteral(p, a.index, l)
    ensures ArgumentMeaning(p, a) == LiteralMeaning([], l)
  {
    PlainAnywhere(p.strings, l);
  }

  lemma TextLiteralRead(p: Pools, i: nat, text: string)
    requires IsTextLiteral(p, i, text)
    ensures MeaningAt(p, i) == Characters(text)
  {
    TextRead(p, ReadU16(p.literals[i].value, 0).value, text);
  }

  lemma SetRead(p: Pools, a: Argument, members: seq<Literal>)
    requires a.source == 2 && IsSet(p, a.index, members)
    requires forall k :: 0 <= k < |members| ==> PlainLiteral(members[k])
    ensures ArgumentMeaning(p, a) == RequestMeaning(SetRequest(a.role, members))
  {
    hide LiteralMeaning, PlainLiteral;
    var n, value := |members|, p.literals[a.index].value;
    assert Count(value) == n;
    forall k | 0 <= k < n ensures Referenced(p, value, 2 + 2 * k) == LiteralMeaning([], members[k]) {
      PlainAnywhere(p.strings, members[k]);
    }
  }

  lemma MapRead(p: Pools, a: Argument, entries: seq<(Literal, string)>)
    requires a.source == 2 && IsMap(p, a.index, entries)
    requires forall k :: 0 <= k < |entries| ==> PlainLiteral(entries[k].0)
    ensures ArgumentMeaning(p, a) == RequestMeaning(MapRequest(a.role, entries))
  {
    hide LiteralMeaning, PlainLiteral, Utf8.Encode;
    var n, value := |entries|, p.literals[a.index].value;
    assert Count(value) == n;
    forall k | 0 <= k < n
      ensures Referenced(p, value, 2 + 4 * k) == LiteralMeaning([], entries[k].0)
      ensures LabelAt(p, value, 4 + 4 * k) == entries[k].1
    {
      assert IsEntry(p, a.index, n, k, entries[k]);
      PlainAnywhere(p.strings, entries[k].0);
      TextRead(p, ReadU16(value, 4 + 4 * k).value, entries[k].1);
    }
  }
}
