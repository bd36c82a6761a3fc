/** What a request adds to the tables and which argument comes to stand for it
    (keepkeylib/erc7730_compiler.py), as functions of the tables in front of it. */
module TableContents {
  import opened Wrappers
  import opened Bytes
  import opened AbiTypes
  import opened AbiPaths
  import opened Program
  import opened DisplayFields
  import opened Formatters
  import opened ProgramPools
  import Utf8

  // ------------------------------------------------------------------ indexes

  /** The index of a text in the sorted string table. */
  function FindString(strings: seq<bytes>, text: bytes, from: nat): (r: Result<nat>)
    requires from <= |strings|
    ensures r.Ok? ==> r.value < |strings| && strings[r.value] == text
    ensures r.Raised? ==> text !in strings[from..]
    decreases |strings| - from
  {
    if from == |strings| then Raised
    else if strings[from] == text then Ok(from)
    else FindString(strings, text, from + 1)
  }

  /** Where a text is; the absent mark if it is not listed. */
  function TextPlace(strings: seq<bytes>, text: string): nat {
    match FindString(strings, Utf8.Encode(text), 0)
    case Ok(i) => i
    case Raised => ABSENT
  }

  function OptionalPlace(strings: seq<bytes>, text: Option<string>): nat {
    if Given(text) then TextPlace(strings, text.value) else ABSENT
  }

  /** Where a path is, or would be appended. */
  function PathPlace(paths: seq<Path>, path: Path): (i: nat)
    ensures i <= |paths| && (i < |paths| ==> paths[i] == path)
    ensures path in paths ==> i < |paths|
  {
    if paths == [] || paths[0] == path then 0 else 1 + PathPlace(paths[1..], path)
  }

  /** In a table without repetitions a path is where it is found. */
  lemma {:induction false} PlaceFound(paths: seq<Path>, path: Path, i: nat)
    requires i < |paths| && paths[i] == path && forall j :: 0 <= j < i ==> paths[j] != path
    ensures PathPlace(paths, path) == i
  {
    if i > 0 {
      PlaceFound(paths[1..], path, i - 1);
    }
  }

  lemma {:induction false} PlaceAppended(paths: seq<Path>, path: Path)
    requires path !in paths
    ensures PathPlace(paths, path) == |paths|
  {
    if paths != [] {
      PlaceAppended(paths[1..], path);
    }
  }

  function Labels(strings: seq<bytes>, entries: seq<(Literal, string)>): (r: seq<nat>)
    ensures |r| == |entries| && forall i :: 0 <= i < |r| ==> r[i] == TextPlace(strings, entries[i].1)
  {
    seq(|entries|, i requires 0 <= i < |entries| => TextPlace(strings, entries[i].1))
  }

  // ----------------------------------------------------------------- contents

  function WithPath(p: Pools, path: Path): Pools {
    if path in p.paths then p else p.(paths := p.paths + [path])
  }

  function WithLiterals(p: Pools, ls: seq<Literal>): Pools {
    p.(literals := p.literals + ls)
  }

  function WithConstant(p: Pools, l: Literal): Pools {
    WithPath(WithLiterals(p, [l]), LiteralPath(|p.literals|))
  }

  function TextLiteral(strings: seq<bytes>, text: string): Literal {
    Literal(4, if IsU16(TextPlace(strings, text)) then U16(TextPlace(strings, text)) else [])
  }

  /** A set behind its members, which start at `base`. */
  function SetAt(base: nat, n: nat): Literal {
    if IsU16(base + n) then SetLiteral(base, n) else Literal(9, [])
  }

  function MapAt(base: nat, labels: seq<nat>): Literal {
    if IsU16(base + |labels|) && (forall i :: 0 <= i < |labels| ==> IsU16(labels[i])) then MapLiteral(base, labels)
    else Literal(8, [])
  }

  /** The tables with what a request adds. */
  function Added(p: Pools, r: Request): Pools {
    match r
    case PathRequest(_, path) => WithPath(p, path)
    case ConstantRequest(_, l) => WithConstant(p, l)
    case TextConstantRequest(_, text) => WithConstant(p, TextLiteral(p.strings, text))
    case LiteralRequest(_, l) => WithLiterals(p, [l])
    case StringRequest(_, _) => p
    case SetRequest(_, members) => WithLiterals(p, members + [SetAt(|p.literals|, |members|)])
    case MapRequest(_, entries) =>
      WithLiterals(p, Keys(entries) + [MapAt(|p.literals|, Labels(p.strings, entries))])
  }

  /** The argument that stands for a request added to the tables. */
  function Argued(p: Pools, r: Request): Argument {
    match r
    case PathRequest(role, path) => Argument(role, 1, PathPlace(p.paths, path))
    case ConstantRequest(role, _) => Argument(role, 1, PathPlace(p.paths, LiteralPath(|p.literals|)))
    case TextConstantRequest(role, _) => Argument(role, 1, PathPlace(p.paths, LiteralPath(|p.literals|)))
    case LiteralRequest(role, _) => Argument(role, 2, |p.literals|)
    case StringRequest(role, text) => Argument(role, 3, TextPlace(p.strings, text))
    case SetRequest(role, members) => Argument(role, 2, |p.literals| + |members|)
    case MapRequest(role, entries) => Argument(role, 2, |p.literals| + |entries|)
  }

  /** Requests one after another. */
  function AddedAll(p: Pools, rs: seq<Request>): Pools {
    if rs == [] then p else Added(AddedAll(p, rs[..|rs| - 1]), rs[|rs| - 1])
  }

  function ArguedAll(p: Pools, rs: seq<Request>): seq<Argument> {
    if rs == [] then []
    else
      var n := |rs| - 1;
      ArguedAll(p, rs[..n]) + [Argued(AddedAll(p, rs[..n]), rs[n])]
  }

  lemma AddedNext(p: Pools, rs: seq<Request>, n: nat)
    requires n < |rs|
    ensures AddedAll(p, rs[..n + 1]) == Added(AddedAll(p, rs[..n]), rs[n])
    ensures ArguedAll(p, rs[..n + 1]) == ArguedAll(p, rs[..n]) + [Argued(AddedAll(p, rs[..n]), rs[n])]
  {
    assert rs[..n + 1][..n] == rs[..n];
  }

  lemma AddedNone(p: Pools, rs: seq<Request>)
    ensures AddedAll(p, rs[..0]) == p && ArguedAll(p, rs[..0]) == []
  {
  }

  // --------------------------------------------------------------- conditions

  /** The conditions, and the one that all optional fields share. */
  datatype Conditions = Conditions(list: seq<Condition>, optional: Option<nat>)

  /** The tables with the literals of a rule, a set behind its members. */
  function Ruled(p: Pools, values: seq<Scalar>, node: AbiType): Pools {
    match ConditionLiterals(node, values)
    case Ok(members) => Added(p, SetRequest(0, members))
    case Raised => p
  }

  function VisibilityPools(p: Pools, visible: Visibility, node: AbiType): Pools {
    match visible
    case IfNotIn(values) => Ruled(p, values, node)
    case MustMatch(values) => Ruled(p, values, node)
    case _ => p
  }

  /** The conditions with the one a field asks for on its value's path. */
  function Conditioned(c: Conditions, p: Pools, visible: Visibility, value: nat): Conditions {
    match visible
    case IfNotIn(values) => c.(list := c.list + [Condition(7, value, |p.literals| + |values|)])
    case MustMatch(values) => c.(list := c.list + [Condition(8, value, |p.literals| + |values|)])
    case Optional =>
      if c.optional.Some? then c else Conditions(c.list + [Condition(3, ABSENT, ABSENT)], Some(|c.list|))
    case _ => c
  }

  /** Its index: the last one for a rule, the shared one for an optional field. */
  function ConditionPlace(c: Conditions, visible: Visibility): nat {
    match visible
    case IfNotIn(_) => |c.list|
    case MustMatch(_) => |c.list|
    case Optional => if c.optional.Some? then c.optional.value else |c.list|
    case _ => ABSENT
  }
}
