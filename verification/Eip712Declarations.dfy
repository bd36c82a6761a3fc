/** The text of `eip712_encode_type` (keepkeylib/erc7730_compiler.py), and two
    readers that take it apart: one made for it, and the signature parser. */
module Eip712Declarations {
  import opened Wrappers
  import opened Text
  import opened AbiTypes
  import opened SignatureParser
  import opened SignatureRoundTrip
  import opened Eip712Types
  import TypedTypes

  function MemberTexts(members: seq<Member>): string {
    if members == [] then ""
    else
      members[0].typeName + " " + members[0].name
      + if |members| == 1 then "" else "," + MemberTexts(members[1..])
  }

  function Declaration(name: string, members: seq<Member>): string {
    name + "(" + MemberTexts(members) + ")"
  }

  function Declarations(names: seq<string>, types: Types): string
    requires forall i :: 0 <= i < |names| ==> names[i] in types
  {
    if names == [] then ""
    else
      assert forall i :: 0 <= i < |names[1..]| ==> names[1..][i] == names[i + 1];
      Declaration(names[0], types[names[0]]) + Declarations(names[1..], types)
  }

  // ------------------------------------------------------- reading it back

  /** A type up to the blank, then a name. */
  function ReadMember(s: string): (r: Result<(Member, string)>)
    ensures r.Ok? ==> |r.value.1| < |s|
  {
    var n := IndexOf(s, ' ');
    if n == |s| then Raised
    else
      var rest := s[n + 1..];
      var m := IdentPrefix(rest);
      Ok((Member(rest[..m], s[..n]), rest[m..]))
  }

  /** Members with commas between them and a bracket behind. */
  function ReadMembers(s: string): (r: Result<(seq<Member>, string)>)
    ensures r.Ok? ==> |r.value.1| < |s|
    decreases |s|
  {
    var (member, rest) :- ReadMember(s);
    if rest != "" && rest[0] == ')' then Ok(([member], rest[1..]))
    else if rest != "" && rest[0] == ',' then
      var (members, end) :- ReadMembers(rest[1..]);
      Ok(([member] + members, end))
    else Raised
  }

  /** A struct's name up to the bracket, then its members. */
  function ReadDeclaration(s: string): (r: Result<((string, seq<Member>), string)>)
    ensures r.Ok? ==> |r.value.1| < |s|
  {
    var n := IndexOf(s, '(');
    if n == |s| then Raised
    else
      var rest := s[n + 1..];
      if rest != "" && rest[0] == ')' then Ok(((s[..n], []), rest[1..]))
      else
        var (members, end) :- ReadMembers(rest);
        Ok(((s[..n], members), end))
  }

  function ReadDeclarations(s: string): Result<seq<(string, seq<Member>)>>
    decreases |s|
  {
    if s == "" then Ok([])
    else
      var (struct, rest) :- ReadDeclaration(s);
      var structs :- ReadDeclarations(rest);
      Ok([struct] + structs)
  }

  predicate ReadableMember(m: Member) {
    IsIdentifier(m.name) && ' ' !in m.typeName && (m.typeName != "" ==> m.typeName[0] != ')')
  }

  predicate ReadableMembers(members: seq<Member>) {
    forall i :: 0 <= i < |members| ==> ReadableMember(members[i])
  }

  /** Types without blanks, members with identifiers for names. */
  predicate ReadableStructs(names: seq<string>, types: Types) {
    forall i :: 0 <= i < |names| ==> names[i] in types && '(' !in names[i] && ReadableMembers(types[names[i]])
  }

  /** Each struct of `names` with its members. */
  function Listed(names: seq<string>, types: Types): seq<(string, seq<Member>)>
    requires forall i :: 0 <= i < |names| ==> names[i] in types
  {
    seq(|names|, i requires 0 <= i < |names| => (names[i], types[names[i]]))
  }

  lemma MemberRead(m: Member, c: char, rest: string)
    requires ReadableMember(m) && c in {',', ')'}
    ensures ReadMember(m.typeName + " " + m.name + ([c] + rest)) == Ok((m, [c] + rest))
  {
    hide IndexOf, IdentPrefix, IsIdentifier;
    var s, end := m.typeName + " " + m.name + ([c] + rest), [c] + rest;
    var n := |m.typeName|;
    assert s == m.typeName + [' '] + (m.name + end);
    IndexOfAppend(m.typeName, ' ', m.name + end);
    assert s[..n] == m.typeName && s[n + 1..] == m.name + end;
    NameCut(m.name, end);
  }

  lemma NameCut(name: string, end: string)
    requires IsIdentifier(name) && end != "" && !IdentChar(end[0])
    ensures var s := name + end; IdentPrefix(s) == |name| && s[..|name|] == name && s[|name|..] == end
  {
    IdentPrefixOfAppend(name, end);
  }

  lemma {:induction false} MembersRead(members: seq<Member>, rest: string)
    requires members != [] && ReadableMembers(members)
    ensures ReadMembers(MemberTexts(members) + ([')'] + rest)) == Ok((members, rest))
    decreases |members|
  {
    hide ReadMember, ReadableMember;
    var m := members[0];
    var s := MemberTexts(members) + ([')'] + rest);
    if |members| == 1 {
      MemberRead(m, ')', rest);
      assert members == [m];
      assert s == m.typeName + " " + m.name + ([')'] + rest);
    } else {
      var more := MemberTexts(members[1..]) + ([')'] + rest);
      MemberRead(m, ',', more);
      assert s == m.typeName + " " + m.name + ([','] + more);
      assert ReadableMembers(members[1..]);
      MembersRead(members[1..], rest);
      assert members == [m] + members[1..];
    }
  }

  lemma DeclarationRead(name: string, members: seq<Member>, rest: string)
    requires '(' !in name && ReadableMembers(members)
    ensures ReadDeclaration(Declaration(name, members) + rest) == Ok(((name, members), rest))
  {
    hide ReadMembers, IndexOf;
    var s, inner := Declaration(name, members) + rest, MemberTexts(members) + ([')'] + rest);
    assert s == name + ['('] + inner;
    IndexOfAppend(name, '(', inner);
    assert s[..|name|] == name && s[|name| + 1..] == inner;
    if members == [] {
      assert inner == [')'] + rest;
    } else {
      MembersRead(members, rest);
      MembersStart(members);
    }
  }

  lemma MembersStart(members: seq<Member>)
    requires members != [] && ReadableMember(members[0])
    ensures MemberTexts(members) != "" && MemberTexts(members)[0] != ')'
  {
    var m := members[0];
    assert MemberTexts(members)[0] == (m.typeName + " ")[0];
  }

  /** From the text alone: which structs, in which order, and of each its members
      with their types and names, in order. */
  lemma {:induction false} DeclarationsRead(names: seq<string>, types: Types)
    requires ReadableStructs(names, types)
    ensures ReadDeclarations(Declarations(names, types)) == Ok(Listed(names, types))
    decreases |names|
  {
    hide ReadDeclaration, Declaration, ReadableMembers;
    if names != [] {
      var rest := names[1..];
      assert ReadableStructs(rest, types);
      DeclarationRead(names[0], types[names[0]], Declarations(rest, types));
      DeclarationsRead(rest, types);
      assert Listed(names, types) == [(names[0], types[names[0]])] + Listed(rest, types);
      assert Declarations(names, types) != "" by {
        assert ReadDeclaration(Declarations(names, types)).Ok?;
      }
    }
  }

  // -------------------------------------------------- the signature parser

  /** A member with a type of its own and an identifier for a name. */
  ghost predicate PlainMember(m: Member, types: Types) {
    IsIdentifier(m.name) && Base(m.typeName) !in types
  }

  lemma DeclaredMemberParses(m: Member, t: AbiType, c: char, rest: string)
    requires IsIdentifier(m.name) && WholeType(m.typeName) == Ok(t) && c in {',', ')'}
    ensures ParseMember(m.typeName + " " + m.name + ([c] + rest)) == Ok((t.Rename(m.name), [c] + rest))
  {
    hide ParseType, ParseSuffixes, WholeType, IsIdentifier, OptionalName;
    var end := [c] + rest;
    var x := [' '] + (m.name + end);
    var s := m.typeName + " " + m.name + end;
    assert s == m.typeName + x;
    TypedTypes.TypeAppend(m.typeName, x);
    NameAfterBlank(m.name, end);
    IdentifierStart(m.name, end);
    SuffixesEnd(t, x);
    assert SkipSpace(end) == end;
    MemberParses(s, t, m.name + end, m.name, end);
  }

  lemma IdentifierStart(name: string, end: string)
    requires IsIdentifier(name)
    ensures (name + end)[0] != '[' && (name + end)[0] != ')'
  {
    assert (name + end)[0] == name[0];
  }

  ghost predicate PlainMembers(members: seq<Member>, types: Types) {
    forall i :: 0 <= i < |members| ==> PlainMember(members[i], types)
  }

  lemma {:induction false} DeclaredMembersParse(
      members: seq<Member>, types: Types, active: set<string>, acc: seq<AbiType>)
    requires members != [] && PlainMembers(members, types) && TypedMembers(members, types, active).Ok?
    ensures ParseMembers(MemberTexts(members) + ([')'] + ""), acc) ==
              Ok((acc + TypedMembers(members, types, active).value, [')'] + ""))
    decreases |members|
  {
    hide ParseMembers, ParseMember, WholeType, TypedBase, Base, IsIdentifier;
    var m, s := members[0], MemberTexts(members) + ([')'] + "");
    var t := TypedBase(m.typeName, types, active).value;
    assert PlainMember(m, types);
    TypedTypes.TypedBaseIsParsed(m.typeName, types, active);
    if |members| == 1 {
      DeclaredMemberParses(m, t, ')', "");
      assert s == m.typeName + " " + m.name + ([')'] + "");
      assert members[1..] == [];
      assert TypedMembers(members, types, active).value == [t.Rename(m.name)];
      MembersLast(s, acc, t.Rename(m.name), "");
    } else {
      var more := MemberTexts(members[1..]) + ([')'] + "");
      DeclaredMemberParses(m, t, ',', more);
      assert s == m.typeName + " " + m.name + ([','] + more);
      MembersMore(s, acc, t.Rename(m.name), more);
      assert PlainMembers(members[1..], types);
      DeclaredMembersParse(members[1..], types, active, acc + [t.Rename(m.name)]);
      var ts := TypedMembers(members[1..], types, active).value;
      assert (acc + [t.Rename(m.name)]) + ts == acc + ([t.Rename(m.name)] + ts);
    }
  }

  /** The declaration of a struct of elementary types, tuples and their arrays is
      a signature, and it parses to the struct's own tree. */
  lemma DeclarationParses(name: string, types: Types)
    requires IsIdentifier(name) && name in types && PlainMembers(types[name], types)
    requires TypedBase(name, types, {}).Ok?
    ensures ParseFunction(Declaration(name, types[name])) == Ok((name, TypedBase(name, types, {}).value))
  {
    hide ParseFunction, ParseMembers, MemberTexts, IsIdentifier, OptionalName, ParseOptionalMembers, MatchArray;
    IdentifierIsNoArray(name);
    var members := types[name];
    var inner := MemberTexts(members) + ([')'] + "");
    var s := Declaration(name, members);
    assert s == name + (['('] + inner);
    NameOfAppend(name, ['('] + inner);
    DeclaredListParses(members, types, {} + {name});
    FunctionParses(s, name, inner, TypedMembers(members, types, {} + {name}).value);
  }

  lemma DeclaredListParses(members: seq<Member>, types: Types, active: set<string>)
    requires PlainMembers(members, types) && TypedMembers(members, types, active).Ok?
    ensures ParseOptionalMembers(MemberTexts(members) + ([')'] + "")) ==
              Ok((TypedMembers(members, types, active).value, [')'] + ""))
  {
    hide ParseMembers, TypedBase, PlainMembers;
    var s := MemberTexts(members) + ([')'] + "");
    if members == [] {
      assert s == [')'] + "" && SkipSpace(s) == s;
      assert TypedMembers(members, types, active) == Ok([]);
    } else {
      DeclaredMembersParse(members, types, active, []);
      DeclaredStart(members, types, active, s);
      MembersSkipSpace(s);
      var ts := TypedMembers(members, types, active).value;
      assert [] + ts == ts;
    }
  }

  lemma MembersSkipSpace(s: string)
    ensures ParseMembers(SkipSpace(s), []) == ParseMembers(s, [])
  {
    assert ParseType(SkipSpace(s)) == ParseType(s);
  }

  lemma DeclaredStart(members: seq<Member>, types: Types, active: set<string>, s: string)
    requires members != [] && PlainMembers(members, types) && TypedMembers(members, types, active).Ok?
    requires s == MemberTexts(members) + ([')'] + "")
    ensures SkipSpace(s) != "" && SkipSpace(s)[0] != ')'
  {
    hide TypedBase, ParseSuffixes, WholeType, Base, IsSpace;
    var name := members[0].typeName;
    assert PlainMember(members[0], types);
    TypedTypes.TypedBaseIsParsed(name, types, active);
    TypeStart(name);
    assert name <= s && s == name + s[|name|..];
    TypedTypes.SkipAppend(name, s[|name|..]);
  }

  lemma TypeStart(s: string)
    requires WholeType(s).Ok?
    ensures SkipSpace(s) != "" && SkipSpace(s)[0] != ')'
  {
    TypedTypes.TypeByHead(s);
  }
}
