/** The host's answers to a device that walks a typed-data document
    (`struct_members`, `resolve_member_path` and `value_ack`,
    keepkeylib/eip712_stream.py). */
module StreamPaths {
  import opened Wrappers
  import opened Text
  import opened Bytes
  import opened StreamTypes
  import opened StreamValues
  import Eip712Types

  datatype Document = Document(types: Eip712Types.Types, primaryType: string, domain: Json, message: Json)

  const MAX_IDENTIFIER: nat := 31

  // ------------------------------------------------------------ struct members

  predicate MemberNameAllowed(name: string) {
    IsIdentifier(OneLine(name)) && |name| <= MAX_IDENTIFIER
  }

  /** The members still to list, when `seen` are the names listed already. */
  function ListMembers(members: seq<Eip712Types.Member>, seen: set<string>): Result<seq<(string, Field)>> {
    if members == [] then Ok([])
    else if !MemberNameAllowed(members[0].name) || members[0].name in seen then Raised
    else
      var field :- ParseType(members[0].typeName);
      var rest :- ListMembers(members[1..], seen + {members[0].name});
      Ok([(members[0].name, field)] + rest)
  }

  function Members(doc: Document, name: string): Result<seq<(string, Field)>> {
    if !IsTypeName(name) || name !in doc.types then Raised else ListMembers(doc.types[name], {})
  }

  /** `struct_members`: the member loop. */
  method StructMembers(doc: Document, name: string) returns (r: Result<seq<(string, Field)>>)
    ensures r == Members(doc, name)
  {
    if !IsTypeName(name) || name !in doc.types {
      return Raised;
    }
    var members := doc.types[name];
    var result: seq<(string, Field)> := [];
    var seen: set<string> := {};
    assert members[0..] == members;
    for i := 0 to |members|
      invariant ListMembers(members, {}).Raised? <==> ListMembers(members[i..], seen).Raised?
      invariant ListMembers(members, {}).Ok? ==>
                  ListMembers(members, {}).value == result + ListMembers(members[i..], seen).value
    {
      assert members[i..][0] == members[i] && members[i..][1..] == members[i + 1..];
      if !MemberNameAllowed(members[i].name) || members[i].name in seen {
        return Raised;
      }
      var field :- ParseSolidityType(members[i].typeName);
      seen := seen + {members[i].name};
      result := result + [(members[i].name, field)];
    }
    assert members[|members|..] == [] && result + [] == result;
    return Ok(result);
  }

  lemma {:induction false} ListedMembers(members: seq<Eip712Types.Member>, seen: set<string>, i: nat)
    requires ListMembers(members, seen).Ok? && i < |members|
    ensures var ms := ListMembers(members, seen).value;
            |ms| == |members| && ms[i].0 == members[i].name && ParseType(members[i].typeName) == Ok(ms[i].1)
    decreases |members|
  {
    hide ParseType, MemberNameAllowed;
    ListedCount(members, seen);
    if i > 0 {
      ListedMembers(members[1..], seen + {members[0].name}, i - 1);
    }
  }

  lemma {:induction false} ListedCount(members: seq<Eip712Types.Member>, seen: set<string>)
    requires ListMembers(members, seen).Ok?
    ensures |ListMembers(members, seen).value| == |members|
    decreases |members|
  {
    if members != [] {
      ListedCount(members[1..], seen + {members[0].name});
    }
  }

  /** A member list that can be shown: allowed names, none twice and none listed
      before, and types that parse. */
  ghost predicate Listable(members: seq<Eip712Types.Member>, seen: set<string>) {
    && (forall i :: 0 <= i < |members| ==> MemberListable(members[i], seen))
    && forall i, j :: 0 <= i < j < |members| ==> members[i].name != members[j].name
  }

  ghost predicate MemberListable(m: Eip712Types.Member, seen: set<string>) {
    NameListable(m.name) && m.name !in seen && ParseType(m.typeName).Ok?
  }

  /** An identifier of at most 31 characters, with the line feed that `$` lets
      pass counted. */
  ghost predicate NameListable(name: string) {
    |name| <= 31 && exists core :: IsIdentifier(core) && (name == core || name == core + "\n")
  }

  lemma NameListableIff(name: string)
    ensures MemberNameAllowed(name) <==> NameListable(name)
  {
    var core := OneLine(name);
    assert name == core || name == core + "\n";
    forall c | IsIdentifier(c) && (name == c || name == c + "\n") ensures core == c {
      assert c[|c| - 1] != '\n';
      assert name == c + "\n" ==> name[..|name| - 1] == c;
    }
  }

  lemma {:induction false} ListedIff(members: seq<Eip712Types.Member>, seen: set<string>)
    ensures ListMembers(members, seen).Ok? <==> Listable(members, seen)
    decreases |members|
  {
    hide ParseType, MemberNameAllowed, NameListable;
    if members != [] {
      var first, rest := members[0], members[1..];
      NameListableIff(first.name);
      ListedIff(rest, seen + {first.name});
      if Listable(members, seen) {
        assert MemberListable(first, seen);
        forall i | 0 <= i < |rest| ensures MemberListable(rest[i], seen + {first.name}) {
          assert rest[i] == members[i + 1] && MemberListable(members[i + 1], seen);
          assert members[0].name != members[i + 1].name;
        }
      }
      if MemberListable(first, seen) && Listable(rest, seen + {first.name}) {
        forall i | 0 <= i < |members| ensures MemberListable(members[i], seen) {
          if i > 0 {
            assert members[i] == rest[i - 1] && MemberListable(rest[i - 1], seen + {first.name});
          }
        }
        forall i, j | 0 <= i < j < |members| ensures members[i].name != members[j].name {
          assert members[j] == rest[j - 1] && MemberListable(rest[j - 1], seen + {first.name});
          assert i > 0 ==> members[i] == rest[i - 1];
        }
      }
    }
  }

  // --------------------------------------------------------------------- paths

  /** Where a path has come to: a value, its declared type, and how many of its
      array levels have been entered. */
  datatype Place = Place(field: Field, value: Json, used: nat)

  datatype Answer = Length(n: nat) | Leaf(field: Field, value: Json)

  /** `_dimension`: levels are entered from the last one written. */
  function Dimension(levels: seq<nat>, used: nat): nat
    requires used < |levels|
  {
    levels[|levels| - 1 - used]
  }

  predicate AtArray(p: Place) {
    p.used < |p.field.levels|
  }

  /** The value is a list of the declared length. */
  predicate IsDeclaredList(p: Place)
    requires AtArray(p)
  {
    var declared := Dimension(p.field.levels, p.used);
    p.value.List? && (declared == 0 || |p.value.items| == declared)
  }

  /** One path component. */
  function Enter(doc: Document, p: Place, index: nat): Result<Place> {
    if AtArray(p) then
      if !IsDeclaredList(p) || index >= |p.value.items| then Raised
      else Ok(Place(p.field, p.value.items[index], p.used + 1))
    else if !p.field.dataType.StructData? || p.field.structName !in doc.types then Raised
    else
      var members := doc.types[p.field.structName];
      if index >= |members| then Raised
      else
        var field :- ParseType(members[index].typeName);
        if p.value.Object? && members[index].name in p.value.members then
          Ok(Place(field, p.value.members[members[index].name], 0))
        else Raised
  }

  function Walk(doc: Document, p: Place, path: seq<nat>): Result<Place>
    decreases |path|
  {
    if path == [] then Ok(p)
    else
      var next :- Enter(doc, p, path[0]);
      Walk(doc, next, path[1..])
  }

  function StructField(name: string): Field {
    Field(StructData, None, name, [])
  }

  function RootPlace(doc: Document, root: nat): Result<Place> {
    if root == 0 then Ok(Place(StructField("EIP712Domain"), doc.domain, 0))
    else if root == 1 then Ok(Place(StructField(doc.primaryType), doc.message, 0))
    else Raised
  }

  function PlaceAt(doc: Document, path: seq<nat>): Result<Place> {
    if path == [] then Raised
    else
      var root :- RootPlace(doc, path[0]);
      Walk(doc, root, path[1..])
  }

  function AnswerAt(p: Place): Result<Answer> {
    if AtArray(p) then
      if IsDeclaredList(p) then Ok(Length(|p.value.items|)) else Raised
    else if p.field.dataType.StructData? then Raised
    else Ok(Leaf(p.field, p.value))
  }

  function Resolve(doc: Document, path: seq<nat>): Result<Answer> {
    var p :- PlaceAt(doc, path);
    AnswerAt(p)
  }

  /** `resolve_member_path`. */
  method ResolveMemberPath(doc: Document, path: seq<nat>) returns (r: Result<Answer>)
    ensures r == Resolve(doc, path)
  {
    if path == [] {
      return Raised;
    }
    var root :- RootPlace(doc, path[0]);
    var field, value, used: nat := root.field, root.value, root.used;
    for i := 1 to |path|
      invariant PlaceAt(doc, path) == Walk(doc, Place(field, value, used), path[i..])
    {
      assert path[i..][0] == path[i] && path[i..][1..] == path[i + 1..];
      var index := path[i];
      if used < |field.levels| {
        if !IsDeclaredList(Place(field, value, used)) || index >= |value.items| {
          return Raised;
        }
        value := value.items[index];
        used := used + 1;
        continue;
      }
      if !field.dataType.StructData? || field.structName !in doc.types {
        return Raised;
      }
      var members := doc.types[field.structName];
      if index >= |members| {
        return Raised;
      }
      var member := members[index];
      field :- ParseSolidityType(member.typeName);
      used := 0;
      if !value.Object? || member.name !in value.members {
        return Raised;
      }
      value := value.members[member.name];
    }
    assert path[|path|..] == [];
    return AnswerAt(Place(field, value, used));
  }

  lemma {:induction false} WalkAppend(doc: Document, p: Place, path: seq<nat>, index: nat)
    ensures Walk(doc, p, path + [index]) ==
            match Walk(doc, p, path)
            case Ok(q) => Enter(doc, q, index)
            case Raised => Raised
    decreases |path|
  {
    hide Enter;
    if path == [] {
      assert path + [index] == [index];
      var next := Enter(doc, p, index);
      assert next.Ok? ==> Walk(doc, next.value, []) == next;
    } else {
      assert (path + [index])[1..] == path[1..] + [index];
      var next := Enter(doc, p, path[0]);
      if next.Ok? {
        WalkAppend(doc, next.value, path[1..], index);
      }
    }
  }

  /** A longer path goes one component further. */
  lemma PlaceAppend(doc: Document, path: seq<nat>, index: nat)
    requires PlaceAt(doc, path).Ok?
    ensures PlaceAt(doc, path + [index]) == Enter(doc, PlaceAt(doc, path).value, index)
  {
    hide Enter;
    assert (path + [index])[1..] == path[1..] + [index];
    WalkAppend(doc, RootPlace(doc, path[0]).value, path[1..], index);
  }

  // -------------------------------------------------------------------- answers

  /** An EthereumTypedDataValueAck. */
  datatype Ack = Ack(value: bytes, total: Option<nat>, offset: Option<nat>)

  /** `b[from:from + MAX_LEAF]`. */
  function Chunk(b: bytes, from: nat): bytes
    requires from <= |b|
  {
    b[from..if from + MAX_LEAF <= |b| then from + MAX_LEAF else |b|]
  }

  /** The answer for a leaf that encodes as `b`. */
  function ServeLeaf(b: bytes, inDomain: bool, offset: Option<nat>, chunked: bool): Result<Ack> {
    if |b| > MAX_LEAF && inDomain then Raised
    else
      match offset
      case Some(from) =>
        if |b| <= MAX_LEAF || from >= |b| then Raised else Ok(Ack(Chunk(b, from), None, offset))
      case None =>
        if |b| <= MAX_LEAF then Ok(Ack(b, None, None))
        else if !chunked then Raised
        else Ok(Ack(Chunk(b, 0), Some(|b|), None))
  }

  function Serve(doc: Document, path: seq<nat>, offset: Option<nat>, chunked: bool): Result<Ack> {
    var answer :- Resolve(doc, path);
    match answer
    case Length(n) =>
      if offset.Some? then Raised
      else
        var b :- EncodeLength(n);
        Ok(Ack(b, None, None))
    case Leaf(field, value) =>
      var b :- Encode(field, value, MAX_VALUE);
      ServeLeaf(b, path[0] == 0, offset, chunked)
  }

  /** `value_ack`. */
  method ValueAck(doc: Document, path: seq<nat>, offset: Option<nat>, chunked: bool) returns (r: Result<Ack>)
    ensures r == Serve(doc, path, offset, chunked)
  {
    var answer :- ResolveMemberPath(doc, path);
    match answer {
      case Length(n) =>
        if offset.Some? {
          return Raised;
        }
        var b :- EncodeLength(n);
        return Ok(Ack(b, None, None));
      case Leaf(field, value) =>
        var b :- EncodeValue(field, value, MAX_VALUE);
        return ServeLeaf(b, path[0] == 0, offset, chunked);
    }
  }
}
