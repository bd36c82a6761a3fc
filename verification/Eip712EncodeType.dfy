/** `eip712_encode_type` (keepkeylib/erc7730_compiler.py): the primary struct
    and, in name order, every struct it is built on. */
module Eip712EncodeType {
  import opened Wrappers
  import opened Text
  import opened Eip712Types
  import opened Eip712Declarations

  /** All array suffixes at the end of the text, in front of a last line feed. */
  function StripDimensions(s: string): string
    decreases |s|
  {
    match LastDimension(s)
    case Some((base, _)) => StripDimensions(base)
    case None => s
  }

  /** `re.sub(r"(\[[0-9]*\])+$", "", s)`. */
  function StripArrays(s: string): string {
    StripDimensions(OneLine(s)) + s[|OneLine(s)|..]
  }

  /** In text without line feeds, the suffixes the pattern strips are those that
      `_typed_base` peels off one by one. */
  lemma StripArraysIsBase(s: string)
    requires '\n' !in s
    ensures StripArrays(s) == Base(s)
  {
    assert s != "" ==> s[|s| - 1] in s;
    StripDimensionsIsBase(s);
    assert s[|s|..] == "";
  }

  lemma {:induction false} StripDimensionsIsBase(s: string)
    requires '\n' !in s
    ensures StripDimensions(s) == Base(s)
    decreases |s|
  {
    assert s != "" ==> s[|s| - 1] in s;
    assert OneLine(s) == s;
    if LastDimension(s).Some? {
      var base := LastDimension(s).value.0;
      assert forall c :: c in base ==> c in s;
      StripDimensionsIsBase(base);
    }
  }

  /** Struct names with an edge to each struct a member names. */
  ghost function NameGraph(types: Types): Graph {
    map a | a in types :: set m | m in types[a] && StripArrays(m.typeName) in types :: StripArrays(m.typeName)
  }

  /** The structs `name` leads to in one step. */
  ghost predicate Leads(types: Types, name: string, b: string)
    requires name in types
  {
    exists i :: 0 <= i < |types[name]| && StripArrays(types[name][i].typeName) == b && b in types
  }

  lemma LeadsIsEdge(types: Types, name: string, b: string)
    requires name in types
    ensures Leads(types, name, b) <==> b in NameGraph(types)[name]
  {
    hide StripArrays;
    if b in NameGraph(types)[name] {
      var m :| m in types[name] && StripArrays(m.typeName) in types && StripArrays(m.typeName) == b;
      var i :| 0 <= i < |types[name]| && types[name][i] == m;
      assert Leads(types, name, b);
    }
  }

  lemma ReachesStep(g: Graph, a: string, b: string, c: string)
    requires a in g && b in g[a] && Reaches(g, b, c)
    ensures Reaches(g, a, c)
  {
    var p :| IsWalk(g, p) && p[0] == b && p[|p| - 1] == c;
    var q := [a] + p;
    assert q[1..] == p && IsWalk(g, q);
    assert q[|q| - 1] == c;
  }

  lemma ReachesSelf(g: Graph, a: string)
    requires a in g
    ensures Reaches(g, a, a)
  {
    assert IsWalk(g, [a]) && [a][0] == a;
  }

  /** A set that no edge leaves, but to the primary struct, holds all a walk
      from the primary struct comes to. */
  lemma {:induction false} WalkStays(types: Types, primary: string, found: set<string>, p: seq<string>)
    requires IsWalk(NameGraph(types), p) && (p[0] == primary || p[0] in found)
    requires forall a :: a in types && (a == primary || a in found) ==> Settled(types, primary, found, a)
    ensures p[|p| - 1] == primary || p[|p| - 1] in found
    decreases |p|
  {
    hide StripArrays, Leads;
    if |p| > 1 {
      LeadsIsEdge(types, p[0], p[1]);
      assert Settled(types, primary, found, p[0]);
      WalkStays(types, primary, found, p[1..]);
    }
  }

  /** Everything `a` leads to has been found. */
  ghost predicate Settled(types: Types, primary: string, found: set<string>, a: string)
    requires a in types
  {
    forall b :: Leads(types, a, b) ==> b == primary || b in found
  }

  lemma SettledMore(types: Types, primary: string, found: set<string>, more: set<string>, a: string)
    requires a in types && found <= more && Settled(types, primary, found, a)
    ensures Settled(types, primary, more, a)
  {
  }

  /** The closure `visit` with the set it adds to. */
  class Encoder {
    const types: Types
    const primary: string
    var dependencies: set<string>

    constructor (types: Types, primary: string)
      ensures this.types == types && this.primary == primary && dependencies == {}
    {
      this.types, this.primary := types, primary;
      dependencies := {};
    }

    /** Whatever `visit` adds can be reached from `name`, and what `name` and
        everything added lead to is in the set afterwards. */
    method Visit(name: string)
      requires name in types && dependencies <= types.Keys - {primary}
      modifies this
      ensures old(dependencies) <= dependencies <= types.Keys - {primary}
      ensures forall b :: b in dependencies - old(dependencies) ==> Reaches(NameGraph(types), name, b)
      ensures Settled(types, primary, dependencies, name)
      ensures forall a :: a in dependencies - old(dependencies) ==> Settled(types, primary, dependencies, a)
      decreases types.Keys - dependencies
    {
      hide NameGraph, Reaches, StripArrays;
      var members := types[name];
      for i := 0 to |members|
        invariant old(dependencies) <= dependencies <= types.Keys - {primary}
        invariant forall b :: b in dependencies - old(dependencies) ==> Reaches(NameGraph(types), name, b)
        invariant forall j :: 0 <= j < i && StripArrays(members[j].typeName) in types ==>
                    StripArrays(members[j].typeName) == primary || StripArrays(members[j].typeName) in dependencies
        invariant forall a :: a in dependencies - old(dependencies) ==> Settled(types, primary, dependencies, a)
      {
        hide Settled;
        var base := StripArrays(members[i].typeName);
        if base in types && base != primary && base !in dependencies {
          ghost var before := dependencies;
          dependencies := dependencies + {base};
          Visit(base);
          Added(name, base, i, old(dependencies), before);
        }
      }
    }

    lemma Added(name: string, base: string, i: nat, start: set<string>, before: set<string>)
      requires name in types && i < |types[name]| && StripArrays(types[name][i].typeName) == base && base in types
      requires start <= before && before + {base} <= dependencies
      requires forall b :: b in before - start ==> Reaches(NameGraph(types), name, b)
      requires forall a :: a in before - start ==> a in types && Settled(types, primary, before, a)
      requires forall b :: b in dependencies - (before + {base}) ==> Reaches(NameGraph(types), base, b)
      requires Settled(types, primary, dependencies, base)
      requires forall a :: a in dependencies - (before + {base}) ==>
                 a in types && Settled(types, primary, dependencies, a)
      ensures forall b :: b in dependencies - start ==> Reaches(NameGraph(types), name, b)
      ensures forall a :: a in dependencies - start ==> a in types && Settled(types, primary, dependencies, a)
    {
      hide NameGraph, Reaches, StripArrays, Settled;
      var g := NameGraph(types);
      assert Leads(types, name, base);
      LeadsIsEdge(types, name, base);
      GraphKeys(types);
      ReachesSelf(g, base);
      forall b | b in dependencies - start ensures Reaches(g, name, b) {
        if b !in before {
          ReachesStep(g, name, base, b);
        }
      }
      forall a | a in dependencies - start ensures a in types && Settled(types, primary, dependencies, a) {
        if a in before {
          SettledMore(types, primary, before, dependencies, a);
        }
      }
    }
  }

  lemma GraphKeys(types: Types)
    ensures NameGraph(types).Keys == types.Keys
  {
  }

  // ------------------------------------------------------------------ name order

  predicate NamesAscend(names: seq<string>) {
    |names| <= 1 || (TextLess(names[0], names[1]) && NamesAscend(names[1..]))
  }

  function InsertName(names: seq<string>, name: string): (r: seq<string>)
    ensures forall x :: x in r <==> x in names || x == name
  {
    if names == [] || TextLess(name, names[0]) then [name] + names
    else [names[0]] + InsertName(names[1..], name)
  }

  lemma {:induction false} InsertNameAscends(names: seq<string>, name: string)
    requires NamesAscend(names) && name !in names
    ensures NamesAscend(InsertName(names, name))
  {
    if names == [] {
    } else if TextLess(name, names[0]) {
      assert ([name] + names)[1..] == names;
    } else {
      TextLessTotal(name, names[0]);
      InsertNameAscends(names[1..], name);
      assert InsertName(names, name)[1..] == InsertName(names[1..], name);
    }
  }

  /** `sorted` of a set of names. */
  method SortNames(names: set<string>) returns (sorted: seq<string>)
    ensures NamesAscend(sorted) && forall x :: x in sorted <==> x in names
  {
    sorted := [];
    var left := names;
    while left != {}
      invariant NamesAscend(sorted) && left <= names
      invariant forall x :: x in sorted <==> x in names - left
    {
      var x :| x in left;
      InsertNameAscends(sorted, x);
      sorted := InsertName(sorted, x);
      left := left - {x};
    }
  }

  lemma {:induction false} FirstNameLeast(names: seq<string>, i: nat)
    requires NamesAscend(names) && 0 < i < |names|
    ensures TextLess(names[0], names[i])
  {
    if i > 1 {
      FirstNameLeast(names[1..], i - 1);
      TextLessTransitive(names[0], names[1], names[i]);
    }
  }

  /** Ascending names are listed once each, and the order is determined by which
      names there are. */
  lemma {:induction false} AscendingUnique(a: seq<string>, b: seq<string>)
    requires NamesAscend(a) && NamesAscend(b) && forall x :: x in a <==> x in b
    ensures a == b
  {
    if a == [] {
      FirstListed(b);
    } else {
      assert a[0] in b && b != [];
      FirstsEqual(a, b);
      NotAgain(a);
      NotAgain(b);
      assert forall x :: x in a <==> x == a[0] || x in a[1..] by {
        assert a == [a[0]] + a[1..];
      }
      assert forall x :: x in b <==> x == b[0] || x in b[1..] by {
        assert b == [b[0]] + b[1..];
      }
      AscendingUnique(a[1..], b[1..]);
      assert a == [a[0]] + a[1..] && b == [b[0]] + b[1..];
    }
  }

  lemma FirstListed(b: seq<string>)
    ensures b != [] ==> b[0] in b
  {
  }

  lemma FirstsEqual(a: seq<string>, b: seq<string>)
    requires NamesAscend(a) && NamesAscend(b) && a != [] && b != [] && a[0] in b && b[0] in a
    ensures a[0] == b[0]
  {
    var i :| 0 <= i < |b| && b[i] == a[0];
    var j :| 0 <= j < |a| && a[j] == b[0];
    if i > 0 && j > 0 {
      FirstNameLeast(a, j);
      FirstNameLeast(b, i);
      TextLessTransitive(a[0], b[0], a[0]);
      TextLessIrreflexive(a[0]);
    }
  }

  lemma NotAgain(a: seq<string>)
    requires NamesAscend(a) && a != []
    ensures a[0] !in a[1..]
  {
    forall i | 0 <= i < |a[1..]| ensures a[1..][i] != a[0] {
      FirstNameLeast(a, i + 1);
      TextLessIrreflexive(a[0]);
    }
  }

  // ------------------------------------------------------------------- the text

  /** The structs of an encoding: the primary one, then exactly those it
      reaches, in name order. */
  ghost predicate EncodedOrder(types: Types, primary: string, order: seq<string>) {
    && order != [] && order[0] == primary && NamesAscend(order[1..])
    && forall b :: b in order[1..] <==> b != primary && Reaches(NameGraph(types), primary, b)
  }

  /** `eip712_encode_type`. */
  method EncodeType(primary: string, types: Types) returns (r: Result<string>, ghost order: seq<string>)
    ensures r.Ok? <==> primary in types
    ensures r.Ok? ==> EncodedOrder(types, primary, order) && (forall i :: 0 <= i < |order| ==> order[i] in types)
                      && r.value == Declarations(order, types)
    ensures r.Ok? && ReadableStructs(order, types) ==> ReadDeclarations(r.value) == Ok(Listed(order, types))
  {
    hide NameGraph, Reaches, Declarations, NamesAscend, Listed, ReadDeclarations;
    order := [];
    if primary !in types {
      return Raised, order;
    }
    var encoder := new Encoder(types, primary);
    encoder.Visit(primary);
    DependenciesAreReached(types, primary, encoder.dependencies);
    var names := SortNames(encoder.dependencies);
    order := [primary] + names;
    assert order[1..] == names;
    assert forall i :: 1 <= i < |order| ==> order[i] in names;
    if ReadableStructs(order, types) {
      DeclarationsRead(order, types);
    }
    return Ok(Declarations([primary] + names, types)), order;
  }

  lemma DependenciesAreReached(types: Types, primary: string, found: set<string>)
    requires primary in types && found <= types.Keys - {primary}
    requires forall b :: b in found ==> Reaches(NameGraph(types), primary, b)
    requires Settled(types, primary, found, primary) && forall a :: a in found ==> Settled(types, primary, found, a)
    ensures forall b :: b in found <==> b != primary && Reaches(NameGraph(types), primary, b)
  {
    hide NameGraph, Settled;
    forall b | b != primary && Reaches(NameGraph(types), primary, b) ensures b in found {
      var p :| IsWalk(NameGraph(types), p) && p[0] == primary && p[|p| - 1] == b;
      WalkStays(types, primary, found, p);
    }
  }

  /** The encoding depends on the type table alone, not on the order in which
      structs were found. */
  lemma EncodedOrderUnique(types: Types, primary: string, a: seq<string>, b: seq<string>)
    requires EncodedOrder(types, primary, a) && EncodedOrder(types, primary, b)
    ensures a == b
  {
    hide Reaches, NamesAscend;
    AscendingUnique(a[1..], b[1..]);
    assert a == [a[0]] + a[1..] && b == [b[0]] + b[1..];
  }
}
