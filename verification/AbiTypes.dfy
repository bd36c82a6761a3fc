/** ABI type trees and their printed forms (keepkeylib/erc7730_compiler.py). */
module AbiTypes {
  import opened Text

  /** The array length that marks a dynamic array, and every absent u16. */
  const ABSENT: nat := 0xffff

  const UINT: nat := 1
  const INT: nat := 2
  const ADDRESS: nat := 3
  const BOOL: nat := 4
  const FIXED_BYTES: nat := 5
  const BYTES: nat := 6
  const STRING: nat := 7
  const TUPLE: nat := 8
  const ARRAY: nat := 9

  /** A type tree. Every node carries the member name it was declared with. */
  datatype AbiType =
    | Leaf(name: string, kind: nat, size: nat)
    | Tuple(name: string, members: seq<AbiType>)
    | Array(name: string, element: AbiType, length: nat)
  {
    /** The kind number the flat table holds. */
    function Kind(): nat {
      match this
      case Leaf(_, kind, _) => kind
      case Tuple(_, _) => TUPLE
      case Array(_, _, _) => ARRAY
    }

    function Children(): seq<AbiType> {
      match this
      case Leaf(_, _, _) => []
      case Tuple(_, members) => members
      case Array(_, element, _) => [element]
    }

    function Size(): nat {
      if Leaf? then size else 0
    }

    function Rename(n: string): AbiType {
      this.(name := n)
    }
  }

  predicate IntegerWidth(bits: nat) {
    8 <= bits <= 256 && bits % 8 == 0
  }

  predicate ValidLeaf(kind: nat, size: nat) {
    || (kind in {UINT, INT} && IntegerWidth(size))
    || (kind in {ADDRESS, BOOL, BYTES, STRING} && size == 0)
    || (kind == FIXED_BYTES && 1 <= size <= 32)
  }

  /** The trees the parser and `_typed_base` build. */
  predicate Valid(t: AbiType) {
    match t
    case Leaf(_, kind, size) => ValidLeaf(kind, size)
    case Tuple(_, members) => AllValid(members)
    case Array(_, element, _) => Valid(element)
  }

  predicate AllValid(ts: seq<AbiType>) {
    ts == [] || (Valid(ts[0]) && AllValid(ts[1..]))
  }

  /** All member names below the root are identifiers or empty. */
  predicate WellNamed(t: AbiType) {
    match t
    case Leaf(_, _, _) => true
    case Tuple(_, members) => AllWellNamed(members)
    case Array(_, element, _) => WellNamed(element) && element.name == ""
  }

  predicate AllWellNamed(ts: seq<AbiType>) {
    ts == [] || (MemberName(ts[0].name) && WellNamed(ts[0]) && AllWellNamed(ts[1..]))
  }

  predicate MemberName(name: string) {
    name == "" || IsIdentifier(name)
  }

  lemma {:induction false} AllValidAppend(ts: seq<AbiType>, t: AbiType, name: string)
    requires AllValid(ts) && Valid(t)
    ensures AllValid(ts + [t.Rename(name)])
  {
    if ts == [] {
      assert ts + [t.Rename(name)] == [t.Rename(name)];
    } else {
      AllValidAppend(ts[1..], t, name);
      assert (ts + [t.Rename(name)])[1..] == ts[1..] + [t.Rename(name)];
    }
  }

  lemma {:induction false} AllWellNamedAppend(ts: seq<AbiType>, t: AbiType, name: string)
    requires AllWellNamed(ts) && WellNamed(t) && MemberName(name)
    ensures AllWellNamed(ts + [t.Rename(name)])
  {
    if ts == [] {
      assert ts + [t.Rename(name)] == [t.Rename(name)];
    } else {
      AllWellNamedAppend(ts[1..], t, name);
      assert (ts + [t.Rename(name)])[1..] == ts[1..] + [t.Rename(name)];
    }
  }

  lemma {:induction false} AllValidAt(ts: seq<AbiType>, i: nat)
    requires AllValid(ts) && i < |ts|
    ensures Valid(ts[i])
  {
    if i > 0 {
      AllValidAt(ts[1..], i - 1);
    }
  }

  /** The tree with every name erased. */
  function Erase(t: AbiType): (e: AbiType)
    ensures e.Kind() == t.Kind() && e.name == ""
  {
    match t
    case Leaf(_, kind, size) => Leaf("", kind, size)
    case Tuple(_, members) => Tuple("", EraseList(members))
    case Array(_, element, length) => Array("", Erase(element), length)
  }

  function EraseList(ts: seq<AbiType>): (es: seq<AbiType>)
    ensures |es| == |ts|
  {
    if ts == [] then [] else [Erase(ts[0])] + EraseList(ts[1..])
  }

  function LeafText(kind: nat, size: nat): string {
    if kind == UINT then "uint" + Decimal(size)
    else if kind == INT then "int" + Decimal(size)
    else if kind == ADDRESS then "address"
    else if kind == BOOL then "bool"
    else if kind == FIXED_BYTES then "bytes" + Decimal(size)
    else if kind == BYTES then "bytes"
    else "string"
  }

  function Dimension(length: nat): string {
    "[" + (if length == ABSENT then "" else Decimal(length)) + "]"
  }

  /** `_canonical_type`: the text a selector hashes. */
  function Canonical(t: AbiType): string {
    match t
    case Leaf(_, kind, size) => LeafText(kind, size)
    case Tuple(_, members) => "(" + CanonicalList(members) + ")"
    case Array(_, element, length) => Canonical(element) + Dimension(length)
  }

  function CanonicalList(ts: seq<AbiType>): string {
    if ts == [] then ""
    else if |ts| == 1 then Canonical(ts[0])
    else Canonical(ts[0]) + ([','] + CanonicalList(ts[1..]))
  }

  /** `named` in `compile_eip712`: members keep their names. */
  function Named(t: AbiType): string
    decreases t, 0
  {
    match t
    case Leaf(_, kind, size) => LeafText(kind, size)
    case Tuple(_, members) => "(" + NamedList(members) + ")"
    case Array(_, element, length) => Named(element) + Dimension(length)
  }

  function NameSuffix(name: string): string {
    if name == "" then "" else " " + name
  }

  function NamedMember(t: AbiType): string
    decreases t, 1
  {
    Named(t) + NameSuffix(t.name)
  }

  function NamedList(ts: seq<AbiType>): string
    decreases ts, 2
  {
    if ts == [] then ""
    else if |ts| == 1 then NamedMember(ts[0])
    else NamedMember(ts[0]) + ([','] + NamedList(ts[1..]))
  }

  /** Erasing names turns the named text into the canonical text. */
  lemma {:induction false} CanonicalIsNamedErased(t: AbiType)
    ensures Canonical(t) == Named(Erase(t))
    decreases t, 1
  {
    match t
    case Leaf(_, _, _) =>
    case Tuple(_, members) => CanonicalListIsNamedErased(members);
    case Array(_, element, _) => CanonicalIsNamedErased(element);
  }

  lemma {:induction false} CanonicalListIsNamedErased(ts: seq<AbiType>)
    ensures CanonicalList(ts) == NamedList(EraseList(ts))
    decreases ts, 0
  {
    if ts != [] {
      CanonicalIsNamedErased(ts[0]);
      if |ts| > 1 {
        CanonicalListIsNamedErased(ts[1..]);
        assert EraseList(ts)[1..] == EraseList(ts[1..]);
      }
    }
  }

  lemma {:induction false} EraseKeepsValid(t: AbiType)
    requires Valid(t)
    ensures Valid(Erase(t)) && WellNamed(Erase(t))
    decreases t, 1
  {
    match t
    case Leaf(_, _, _) =>
    case Tuple(_, members) => EraseListKeepsValid(members);
    case Array(_, element, _) => EraseKeepsValid(element);
  }

  lemma {:induction false} EraseListKeepsValid(ts: seq<AbiType>)
    requires AllValid(ts)
    ensures AllValid(EraseList(ts)) && AllWellNamed(EraseList(ts))
    decreases ts, 0
  {
    if ts != [] {
      EraseKeepsValid(ts[0]);
      EraseListKeepsValid(ts[1..]);
      assert EraseList(ts)[1..] == EraseList(ts[1..]);
    }
  }

  lemma {:induction false} EraseTwice(t: AbiType)
    ensures Erase(Erase(t)) == Erase(t)
    decreases t, 1
  {
    match t
    case Leaf(_, _, _) =>
    case Tuple(_, members) => EraseListTwice(members);
    case Array(_, element, _) => EraseTwice(element);
  }

  lemma {:induction false} EraseListTwice(ts: seq<AbiType>)
    ensures EraseList(EraseList(ts)) == EraseList(ts)
    decreases ts, 0
  {
    if ts != [] {
      EraseTwice(ts[0]);
      EraseListTwice(ts[1..]);
      assert EraseList(ts)[1..] == EraseList(ts[1..]);
    }
  }
}
