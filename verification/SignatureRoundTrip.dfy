/** The parser undoes both printers, so printed text determines the tree. */
module SignatureRoundTrip {
  import opened Wrappers
  import opened Text
  import opened AbiTypes
  import opened SignatureParser

  lemma {:induction false} LeafTextIsIdentifier(kind: nat, size: nat)
    requires ValidLeaf(kind, size)
    ensures IsIdentifier(LeafText(kind, size))
  {
    var digits := Decimal(size);
    if kind == UINT {
      assert LeafText(kind, size) == "uint" + digits;
    } else if kind == INT {
      assert LeafText(kind, size) == "int" + digits;
    } else if kind == FIXED_BYTES {
      assert LeafText(kind, size) == "bytes" + digits;
    }
  }

  lemma {:induction false} LeafTextParses(kind: nat, size: nat)
    requires ValidLeaf(kind, size)
    ensures ElementaryType(LeafText(kind, size)) == Ok(Leaf("", kind, size))
  {
    DecimalValue(size);
    var digits := Decimal(size);
    var s := LeafText(kind, size);
    if kind == UINT {
      assert s[4..] == digits;
    } else if kind == INT {
      assert s[0] == 'i' && s[3..] == digits;
    } else if kind == FIXED_BYTES {
      assert s[0] == 'b' && s[5..] == digits && |s| > 5;
    }
  }

  /** Reading an identifier that something else follows. */
  lemma {:induction false} NameOfAppend(name: string, post: string)
    requires IsIdentifier(name)
    requires post == "" || !IdentChar(post[0])
    ensures OptionalName(name + post) == (name, post)
    ensures SkipSpace(name + post) == name + post
  {
    IdentPrefixOfAppend(name, post);
    assert (name + post)[0] == name[0];
    assert (name + post)[..|name|] == name;
    assert (name + post)[|name|..] == post;
  }

  lemma {:induction false} BracketParses(length: nat, post: string)
    ensures ParseBracket(Dimension(length)[1..] + post) == Ok((length, post))
  {
    hide DigitPrefix, DigitsValue, Decimal;
    var digits := if length == ABSENT then "" else Decimal(length);
    var s := Dimension(length)[1..] + post;
    assert s == digits + ("]" + post);
    DecimalValue(length);
    DigitPrefixOfAppend(digits, "]" + post);
    assert s[0] == if digits == "" then ']' else digits[0];
    assert SkipSpace(s) == s;
    assert s[..|digits|] == digits;
    assert s[|digits|..] == "]" + post;
    assert ("]" + post)[0] == ']' && ("]" + post)[1..] == post;
  }

  lemma HeadAndTail(c: char, s: string)
    ensures ([c] + s)[0] == c && ([c] + s)[1..] == s
  {
  }

  /** A token that is not white space is taken off the front. */
  lemma TakeHead(c: char, s: string)
    requires !IsSpace(c)
    ensures TakeChar([c] + s, c) == Ok(s)
  {
    HeadAndTail(c, s);
  }

  lemma LeafParses(s: string, token: string, leaf: AbiType, post: string)
    requires s != "" && s[0] != '(' && SkipSpace(s) == s && token != ""
    requires OptionalName(s) == (token, post) && ElementaryType(token) == Ok(leaf)
    ensures ParseType(s) == ParseSuffixes(leaf, post)
  {
  }

  lemma TupleParses(inner: string, members: seq<AbiType>, post: string)
    requires ParseOptionalMembers(inner) == Ok((members, [')'] + post))
    ensures ParseType(['('] + inner) == ParseSuffixes(Tuple("", members), post)
  {
    HeadAndTail('(', inner);
    TakeHead(')', post);
  }

  lemma ArrayParses(s: string, element: AbiType, length: nat, digits: string, post: string)
    requires ParseType(s) == ParseSuffixes(element, ['['] + digits)
    requires ParseBracket(digits) == Ok((length, post))
    ensures ParseType(s) == ParseSuffixes(Array("", element, length), post)
  {
    HeadAndTail('[', digits);
    SuffixStep(element, ['['] + digits);
    SuffixesSkipSpace(Array("", element, length), post);
  }

  lemma LeafTypeParses(kind: nat, size: nat, post: string)
    requires ValidLeaf(kind, size)
    requires post == "" || !IdentChar(post[0])
    ensures ParseType(LeafText(kind, size) + post) == ParseSuffixes(Leaf("", kind, size), post)
  {
    var token := LeafText(kind, size);
    LeafTextIsIdentifier(kind, size);
    LeafTextParses(kind, size);
    NameOfAppend(token, post);
    assert (token + post)[0] == token[0];
    LeafParses(token + post, token, Leaf("", kind, size), post);
  }

  /** Parsing the named text of a tree leaves the tree, and then the brackets
      of whatever follows. */
  lemma {:induction false} NamedTypeParses(t: AbiType, post: string)
    requires Valid(t) && WellNamed(t)
    requires post == "" || !IdentChar(post[0])
    ensures ParseType(Named(t) + post) == ParseSuffixes(t.Rename(""), post)
    decreases t, 4
  {
    hide ParseType, ParseSuffixes, ParseOptionalMembers, ParseBracket, LeafText;
    match t
    case Leaf(_, kind, size) => LeafTypeParses(kind, size, post);
    case Array(_, element, length) =>
      var digits := Dimension(length)[1..] + post;
      assert Named(t) + post == Named(element) + (['['] + digits);
      NamedTypeParses(element, ['['] + digits);
      BracketParses(length, post);
      ArrayParses(Named(t) + post, element, length, digits, post);
    case Tuple(_, members) =>
      var inner := NamedList(members) + ([')'] + post);
      assert Named(t) + post == ['('] + inner;
      NamedMembersParse(members, post);
      TupleParses(inner, members, post);
  }

  lemma {:induction false} NamedMembersParse(ts: seq<AbiType>, post: string)
    requires AllValid(ts) && AllWellNamed(ts)
    ensures ParseOptionalMembers(NamedList(ts) + ([')'] + post)) == Ok((ts, [')'] + post))
    decreases ts, 1
  {
    var s := NamedList(ts) + ([')'] + post);
    if ts == [] {
      assert s == [')'] + post;
      HeadAndTail(')', post);
    } else {
      NamedListStart(ts);
      assert s[0] == NamedList(ts)[0];
      NamedListParses(ts, [], post);
      assert [] + ts == ts;
    }
  }

  /** Printed members start with a letter or an opening parenthesis. */
  lemma {:induction false} NamedStart(t: AbiType)
    requires Valid(t)
    ensures Named(t) != "" && (Named(t)[0] == '(' || IdentStart(Named(t)[0]))
  {
    match t
    case Leaf(_, kind, size) => LeafTextIsIdentifier(kind, size);
    case Array(_, element, _) => NamedStart(element);
    case Tuple(_, _) =>
  }

  lemma {:induction false} NamedListStart(ts: seq<AbiType>)
    requires ts != [] && Valid(ts[0])
    ensures NamedList(ts) != "" && (NamedList(ts)[0] == '(' || IdentStart(NamedList(ts)[0]))
  {
    NamedStart(ts[0]);
    assert NamedMember(ts[0])[0] == Named(ts[0])[0];
    assert NamedList(ts)[0] == NamedMember(ts[0])[0];
  }

  lemma MemberParses(s: string, t: AbiType, after: string, name: string, post: string)
    requires ParseType(s) == Ok((t, after))
    requires OptionalName(after) == (name, post) && SkipSpace(post) == post
    ensures ParseMember(s) == Ok((t.Rename(name), post))
  {
  }

  lemma SuffixesEnd(t: AbiType, s: string)
    requires SkipSpace(s) == "" || SkipSpace(s)[0] != '['
    ensures ParseSuffixes(t, s) == Ok((t, SkipSpace(s)))
  {
  }

  /** After a type, a blank and a name: the name is read. */
  lemma NameAfterBlank(name: string, post: string)
    requires IsIdentifier(name)
    requires post == "" || !IdentChar(post[0])
    ensures SkipSpace([' '] + (name + post)) == name + post
    ensures OptionalName(name + post) == (name, post)
    ensures OptionalName([' '] + (name + post)) == (name, post)
  {
    HeadAndTail(' ', name + post);
    NameOfAppend(name, post);
  }

  lemma {:induction false} UnnamedMemberParses(t: AbiType, c: char, rest: string)
    requires Valid(t) && WellNamed(t) && t.name == "" && c in {')', ','}
    ensures ParseMember(Named(t) + ([c] + rest)) == Ok((t, [c] + rest))
    decreases t, 5
  {
    HeadAndTail(c, rest);
    NamedTypeParses(t, [c] + rest);
    SuffixesEnd(t, [c] + rest);
    MemberParses(Named(t) + ([c] + rest), t, [c] + rest, "", [c] + rest);
  }

  lemma {:induction false} TypeBeforeBlankParses(t: AbiType, named: string)
    requires Valid(t) && WellNamed(t) && named != "" && IdentStart(named[0])
    ensures ParseType(Named(t) + ([' '] + named)) == Ok((t.Rename(""), named))
    decreases t, 5
  {
    hide ParseType, ParseSuffixes, Named;
    HeadAndTail(' ', named);
    NamedTypeParses(t, [' '] + named);
    SuffixesEnd(t.Rename(""), [' '] + named);
  }

  lemma {:induction false} NamedMemberParses(t: AbiType, c: char, rest: string)
    requires Valid(t) && WellNamed(t) && IsIdentifier(t.name) && c in {')', ','}
    ensures ParseMember(Named(t) + ([' '] + (t.name + ([c] + rest)))) == Ok((t, [c] + rest))
    decreases t, 6
  {
    hide ParseType, ParseMember, Named, WellNamed, Valid;
    var named := t.name + ([c] + rest);
    HeadAndTail(c, rest);
    NameAfterBlank(t.name, [c] + rest);
    assert named[0] == t.name[0];
    TypeBeforeBlankParses(t, named);
    MemberParses(Named(t) + ([' '] + named), t.Rename(""), named, t.name, [c] + rest);
  }

  lemma Associative(a: string, b: string, c: string)
    ensures (a + b) + c == a + (b + c)
  {
  }

  lemma {:induction false} MemberTextParses(t: AbiType, c: char, rest: string)
    requires Valid(t) && WellNamed(t) && MemberName(t.name) && c in {')', ','}
    ensures ParseMember(NamedMember(t) + ([c] + rest)) == Ok((t, [c] + rest))
    decreases t, 7
  {
    if t.name == "" {
      UnnamedMemberParses(t, c, rest);
      assert NamedMember(t) == Named(t);
    } else {
      NamedMemberParses(t, c, rest);
      Associative(Named(t), [' '] + t.name, [c] + rest);
      Associative([' '], t.name, [c] + rest);
    }
  }

  lemma NamedListSplit(ts: seq<AbiType>, post: string)
    requires |ts| > 1
    ensures NamedList(ts) + post == NamedMember(ts[0]) + ([','] + (NamedList(ts[1..]) + post))
  {
    Associative(NamedMember(ts[0]), [','] + NamedList(ts[1..]), post);
    Associative([','], NamedList(ts[1..]), post);
  }

  lemma MembersLast(s: string, acc: seq<AbiType>, t: AbiType, rest: string)
    requires ParseMember(s) == Ok((t, [')'] + rest))
    ensures ParseMembers(s, acc) == Ok((acc + [t], [')'] + rest))
  {
    HeadAndTail(')', rest);
  }

  lemma MembersMore(s: string, acc: seq<AbiType>, t: AbiType, rest: string)
    requires ParseMember(s) == Ok((t, [','] + rest))
    ensures ParseMembers(s, acc) == ParseMembers(rest, acc + [t])
  {
    HeadAndTail(',', rest);
  }

  lemma {:induction false} NamedListParses(ts: seq<AbiType>, acc: seq<AbiType>, post: string)
    requires ts != []
    requires AllValid(ts) && AllWellNamed(ts)
    ensures ParseMembers(NamedList(ts) + ([')'] + post), acc) == Ok((acc + ts, [')'] + post))
    decreases ts, 0
  {
    if |ts| == 1 {
      NamedListParsesLast(ts[0], acc, post);
      assert [ts[0]] == ts;
    } else {
      var rest := NamedList(ts[1..]) + ([')'] + post);
      NamedListSplit(ts, [')'] + post);
      MemberTextParses(ts[0], ',', rest);
      MembersMore(NamedMember(ts[0]) + ([','] + rest), acc, ts[0], rest);
      NamedListParses(ts[1..], acc + [ts[0]], post);
      assert (acc + [ts[0]]) + ts[1..] == acc + ts;
    }
  }

  lemma {:induction false} NamedListParsesLast(t: AbiType, acc: seq<AbiType>, post: string)
    requires Valid(t) && WellNamed(t) && MemberName(t.name)
    ensures ParseMembers(NamedList([t]) + ([')'] + post), acc) == Ok((acc + [t], [')'] + post))
    decreases t, 8
  {
    MemberTextParses(t, ')', post);
    MembersLast(NamedMember(t) + ([')'] + post), acc, t, post);
  }

  // ---------------------------------------------------------------- results

  /** Parsing the named text gives back the very tree, names kept. */
  lemma {:induction false} ParseUndoesNamed(t: AbiType)
    requires Valid(t) && WellNamed(t) && t.name == ""
    ensures ParseType(Named(t)) == Ok((t, ""))
  {
    assert Named(t) + "" == Named(t);
    NamedTypeParses(t, "");
  }

  /** Parsing canonical text gives back the tree with its names erased. */
  lemma {:induction false} ParseUndoesCanonical(t: AbiType)
    requires Valid(t)
    ensures ParseType(Canonical(t)) == Ok((Erase(t), ""))
  {
    CanonicalIsNamedErased(t);
    EraseKeepsValid(t);
    ParseUndoesNamed(Erase(t));
  }

  /** Equal canonical texts belong to trees that differ in names only. */
  lemma {:induction false} CanonicalInjective(t: AbiType, u: AbiType)
    requires Valid(t) && Valid(u)
    ensures Canonical(t) == Canonical(u) <==> Erase(t) == Erase(u)
  {
    ParseUndoesCanonical(t);
    ParseUndoesCanonical(u);
    CanonicalIsNamedErased(t);
    CanonicalIsNamedErased(u);
  }

  /** Printing what was parsed and parsing again changes nothing: canonical
      text is a fixed point. */
  lemma {:induction false} CanonicalOfParsed(s: string)
    requires ParseType(s).Ok?
    ensures ParseType(Canonical(ParseType(s).value.0)) == Ok((Erase(ParseType(s).value.0), ""))
    ensures Canonical(Erase(ParseType(s).value.0)) == Canonical(ParseType(s).value.0)
  {
    var t := ParseType(s).value.0;
    ParsedTypeValid(s);
    ParseUndoesCanonical(t);
    CanonicalIsNamedErased(t);
    CanonicalIsNamedErased(Erase(t));
    EraseTwice(t);
  }

  /** The signature text `compile_eip712` builds from its root type. */
  function NamedSignature(primary: string, members: seq<AbiType>): string {
    primary + "(" + NamedList(members) + ")"
  }

  /** `CalldataCompiler.compile` reads that text back as the same root. */
  lemma {:induction false} ParseUndoesNamedSignature(primary: string, members: seq<AbiType>)
    requires IsIdentifier(primary)
    requires Valid(Tuple("", members)) && WellNamed(Tuple("", members))
    ensures ParseFunction(NamedSignature(primary, members)) == Ok((primary, Tuple("", members)))
  {
    var inner := NamedList(members) + ([')'] + "");
    assert NamedSignature(primary, members) == primary + (['('] + inner);
    HeadAndTail('(', inner);
    NameOfAppend(primary, ['('] + inner);
    NamedMembersParse(members, "");
    FunctionParses(NamedSignature(primary, members), primary, inner, members);
  }

  lemma FunctionParses(s: string, name: string, inner: string, members: seq<AbiType>)
    requires IsIdentifier(name) && OptionalName(s) == (name, ['('] + inner)
    requires ParseOptionalMembers(inner) == Ok((members, [')'] + ""))
    ensures ParseFunction(s) == Ok((name, Tuple("", members)))
  {
    TakeHead('(', inner);
    TakeHead(')', "");
  }

  /** `canonical_signature` in `compile`. */
  function CanonicalSignature(name: string, root: AbiType): string
    requires root.Tuple?
  {
    name + "(" + CanonicalList(root.members) + ")"
  }

  /** Two described signatures select the same format exactly when they agree
      in name and in types. */
  lemma {:induction false} CanonicalSignatureInjective(name: string, root: AbiType, name': string, root': AbiType)
    requires IsIdentifier(name) && IsIdentifier(name')
    requires root.Tuple? && root'.Tuple? && Valid(root) && Valid(root')
    ensures CanonicalSignature(name, root) == CanonicalSignature(name', root')
            <==> name == name' && Erase(root) == Erase(root')
  {
    CanonicalSignatureParses(name, root);
    CanonicalSignatureParses(name', root');
    CanonicalListIsNamedErased(root.members);
    CanonicalListIsNamedErased(root'.members);
    assert EraseList(root.members) == Erase(root).members;
    assert EraseList(root'.members) == Erase(root').members;
  }

  lemma {:induction false} CanonicalSignatureParses(name: string, root: AbiType)
    requires IsIdentifier(name) && root.Tuple? && Valid(root)
    ensures ParseFunction(CanonicalSignature(name, root)) == Ok((name, Erase(root)))
  {
    CanonicalListIsNamedErased(root.members);
    EraseKeepsValid(root);
    assert EraseList(root.members) == Erase(root).members;
    ParseUndoesNamedSignature(name, Erase(root).members);
  }
}
