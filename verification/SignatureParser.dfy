/** The recursive-descent signature parser (keepkeylib/erc7730_compiler.py),
    first as a function of the unread text, then as the cursor-moving class. */
module SignatureParser {
  import opened Wrappers
  import opened Text
  import opened AbiTypes

  /** `_take`: white space, then the token. */
  function TakeChar(s: string, token: char): (r: Result<string>)
    ensures r.Ok? ==> |r.value| < |s|
  {
    var t := SkipSpace(s);
    if t != "" && t[0] == token then Ok(t[1..]) else Raised
  }

  /** `_name(False)`: an identifier if one follows, else the empty text. */
  function OptionalName(s: string): (r: (string, string))
    ensures |r.1| <= |s|
    ensures r.0 != "" ==> |r.1| < |s| && IsIdentifier(r.0)
  {
    var t := SkipSpace(s);
    if t != "" && IdentStart(t[0]) then
      var n := IdentPrefix(t);
      (t[..n], t[n..])
    else ("", t)
  }

  function RequiredName(s: string): (r: Result<(string, string)>)
    ensures r.Ok? ==> |r.value.1| < |s| && IsIdentifier(r.value.0)
  {
    var (name, rest) := OptionalName(s);
    if name == "" then Raised else Ok((name, rest))
  }

  function IntegerType(kind: nat, digits: string): (r: Result<AbiType>)
    requires kind in {UINT, INT}
  {
    var bits :- NatOf(if digits == "" then "256" else digits);
    if IntegerWidth(bits) then Ok(Leaf("", kind, bits)) else Raised
  }

  function ElementaryType(token: string): (r: Result<AbiType>)
  {
    if StartsWith(token, "uint") then IntegerType(UINT, token[4..])
    else if StartsWith(token, "int") then IntegerType(INT, token[3..])
    else if token == "address" then Ok(Leaf("", ADDRESS, 0))
    else if token == "bool" then Ok(Leaf("", BOOL, 0))
    else if token == "bytes" then Ok(Leaf("", BYTES, 0))
    else if StartsWith(token, "bytes") then
      var width :- NatOf(token[5..]);
      if 1 <= width <= 32 then Ok(Leaf("", FIXED_BYTES, width)) else Raised
    else if token == "string" then Ok(Leaf("", STRING, 0))
    else Raised
  }

  /** `type`: one type and the text after it. */
  function ParseType(s0: string): (r: Result<(AbiType, string)>)
    ensures r.Ok? ==> |r.value.1| < |s0|
    decreases |s0|, 1
  {
    var s := SkipSpace(s0);
    if s != "" && s[0] == '(' then
      var (members, rest) :- ParseOptionalMembers(s[1..]);
      var rest' :- TakeChar(rest, ')');
      ParseSuffixes(Tuple("", members), rest')
    else
      var (token, rest) :- RequiredName(s);
      var leaf :- ElementaryType(token);
      ParseSuffixes(leaf, rest)
  }

  function ParseOptionalMembers(s0: string): (r: Result<(seq<AbiType>, string)>)
    ensures r.Ok? ==> |r.value.1| <= |s0|
    decreases |s0|, 4
  {
    var s := SkipSpace(s0);
    if s != "" && s[0] == ')' then Ok(([], s)) else ParseMembers(s, [])
  }

  /** One member: a type and the name that may follow it. */
  function ParseMember(s: string): (r: Result<(AbiType, string)>)
    ensures r.Ok? ==> |r.value.1| < |s|
    decreases |s|, 2
  {
    var (t, s1) :- ParseType(s);
    var (name, s2) := OptionalName(s1);
    Ok((t.Rename(name), SkipSpace(s2)))
  }

  /** The comma-separated members; `acc` holds those already read. */
  function ParseMembers(s: string, acc: seq<AbiType>): (r: Result<(seq<AbiType>, string)>)
    ensures r.Ok? ==> |r.value.1| < |s|
    decreases |s|, 3
  {
    var (member, rest) :- ParseMember(s);
    if rest != "" && rest[0] == ',' then ParseMembers(rest[1..], acc + [member])
    else Ok((acc + [member], rest))
  }

  /** One array bracket, read after its `[`: the length and the text after it. */
  function ParseBracket(s: string): (r: Result<(nat, string)>)
    ensures r.Ok? ==> |r.value.1| < |s|
  {
    var body := SkipSpace(s);
    var n := DigitPrefix(body);
    var rest :- TakeChar(body[n..], ']');
    Ok((if n == 0 then ABSENT else DigitsValue(body[..n]), rest))
  }

  /** The array brackets after a type. */
  function ParseSuffixes(t: AbiType, s0: string): (r: Result<(AbiType, string)>)
    ensures r.Ok? ==> |r.value.1| <= |s0|
    decreases |s0|, 0
  {
    var s := SkipSpace(s0);
    if s == "" || s[0] != '[' then Ok((t, s))
    else
      var (length, rest) :- ParseBracket(s[1..]);
      ParseSuffixes(Array("", t, length), rest)
  }

  /** White space before a bracket is skipped by the next round as well. */
  lemma SuffixesSkipSpace(t: AbiType, s: string)
    ensures ParseSuffixes(t, SkipSpace(s)) == ParseSuffixes(t, s)
  {
  }

  /** Nothing is left to do in front of anything but a bracket. */
  lemma SuffixesStop(t: AbiType, s: string)
    requires s != "" ==> s[0] != '[' && !IsSpace(s[0])
    ensures ParseSuffixes(t, s) == Ok((t, s))
  {
    assert SkipSpace(s) == s;
  }

  /** One round of the bracket loop. */
  lemma SuffixStep(t: AbiType, s: string)
    requires s != "" && s[0] == '['
    ensures ParseBracket(s[1..]).Raised? ==> ParseSuffixes(t, s).Raised?
    ensures ParseBracket(s[1..]).Ok? ==>
              var (length, rest) := ParseBracket(s[1..]).value;
              ParseSuffixes(t, s) == ParseSuffixes(Array("", t, length), SkipSpace(rest))
  {
    if ParseBracket(s[1..]).Ok? {
      var (length, rest) := ParseBracket(s[1..]).value;
      SuffixesSkipSpace(Array("", t, length), rest);
    }
  }

  /** One round of the member loop. */
  lemma MembersStep(s: string, acc: seq<AbiType>)
    ensures ParseMember(s).Raised? ==> ParseMembers(s, acc).Raised?
    ensures ParseMember(s).Ok? ==>
              var (member, rest) := ParseMember(s).value;
              ParseMembers(s, acc) ==
              if rest != "" && rest[0] == ',' then ParseMembers(rest[1..], acc + [member])
              else Ok((acc + [member], rest))
  {
  }

  /** `function`: a name and a parenthesised member list, and nothing more. */
  function ParseFunction(s: string): (r: Result<(string, AbiType)>)
    ensures r.Ok? ==> r.value.1.Tuple? && IsIdentifier(r.value.0)
  {
    var (name, s1) :- RequiredName(s);
    var s2 :- TakeChar(s1, '(');
    var (members, s3) :- ParseOptionalMembers(s2);
    var s4 :- TakeChar(s3, ')');
    if SkipSpace(s4) == "" then Ok((name, Tuple("", members))) else Raised
  }

  // Every tree the parser returns is valid and well named, and its root has no name.

  lemma ElementaryValid(token: string)
    requires ElementaryType(token).Ok?
    ensures Valid(ElementaryType(token).value) && ElementaryType(token).value.Leaf?
            && ElementaryType(token).value.name == ""
  {
  }

  lemma {:induction false} ParsedTypeValid(s0: string)
    requires ParseType(s0).Ok?
    ensures var t := ParseType(s0).value.0; Valid(t) && WellNamed(t) && t.name == ""
    decreases |s0|, 1
  {
    var s := SkipSpace(s0);
    if s != "" && s[0] == '(' {
      ParsedMembersValid(s[1..]);
      var (members, rest) := ParseOptionalMembers(s[1..]).value;
      ParsedSuffixesValid(Tuple("", members), TakeChar(rest, ')').value);
    } else {
      var (token, rest) := RequiredName(s).value;
      ElementaryValid(token);
      ParsedSuffixesValid(ElementaryType(token).value, rest);
    }
  }

  lemma {:induction false} ParsedMembersValid(s0: string)
    requires ParseOptionalMembers(s0).Ok?
    ensures AllValid(ParseOptionalMembers(s0).value.0) && AllWellNamed(ParseOptionalMembers(s0).value.0)
    decreases |s0|, 4
  {
    var s := SkipSpace(s0);
    if !(s != "" && s[0] == ')') {
      ParsedMemberListValid(s, []);
    }
  }

  lemma {:induction false} ParsedMemberListValid(s: string, acc: seq<AbiType>)
    requires ParseMembers(s, acc).Ok? && AllValid(acc) && AllWellNamed(acc)
    ensures AllValid(ParseMembers(s, acc).value.0) && AllWellNamed(ParseMembers(s, acc).value.0)
    decreases |s|, 3
  {
    var (member, rest) := ParseMember(s).value;
    ParsedTypeValid(s);
    AllValidAppend(acc, ParseType(s).value.0, member.name);
    AllWellNamedAppend(acc, ParseType(s).value.0, member.name);
    if rest != "" && rest[0] == ',' {
      ParsedMemberListValid(rest[1..], acc + [member]);
    }
  }

  lemma {:induction false} ParsedSuffixesValid(t: AbiType, s0: string)
    requires Valid(t) && WellNamed(t) && t.name == "" && ParseSuffixes(t, s0).Ok?
    ensures var u := ParseSuffixes(t, s0).value.0; Valid(u) && WellNamed(u) && u.name == ""
    decreases |s0|, 0
  {
    var s := SkipSpace(s0);
    if s != "" && s[0] == '[' {
      var (length, rest) := ParseBracket(s[1..]).value;
      ParsedSuffixesValid(Array("", t, length), rest);
    }
  }

  lemma ParsedFunctionValid(s: string)
    requires ParseFunction(s).Ok?
    ensures Valid(ParseFunction(s).value.1) && WellNamed(ParseFunction(s).value.1)
  {
    var (name, s1) := RequiredName(s).value;
    ParsedMembersValid(TakeChar(s1, '(').value);
  }

  /** A method's outcome and the text it left, against the specification. */
  ghost predicate Agrees<T>(r: Result<T>, rest: string, spec: Result<(T, string)>) {
    match spec
    case Ok((value, rest')) => r == Ok(value) && rest == rest'
    case Raised => r.Raised?
  }

  /** The parser object: `pos` moves over a fixed text. */
  class Parser {
    const text: string
    var pos: nat

    constructor (text: string)
      ensures this.text == text && pos == 0
    {
      this.text := text;
      pos := 0;
    }

    ghost predicate InText()
      reads this
    {
      pos <= |text|
    }

    /** The text not yet read. */
    ghost function Rest(): string
      requires InText()
      reads this
    {
      text[pos..]
    }

    method Space()
      requires InText()
      modifies this`pos
      ensures InText() && Rest() == SkipSpace(old(Rest()))
    {
      while pos < |text| && IsSpace(text[pos])
        invariant InText() && SkipSpace(Rest()) == SkipSpace(old(Rest()))
      {
        DropDrop(text, pos, 1);
        pos := pos + 1;
      }
    }

    method Take(token: char) returns (r: Result<()>)
      requires InText()
      modifies this`pos
      ensures InText()
      ensures match TakeChar(old(Rest()), token)
              case Ok(rest) => r == Ok(()) && Rest() == rest
              case Raised => r.Raised?
    {
      Space();
      if pos == |text| || text[pos] != token {
        return Raised;
      }
      DropDrop(text, pos, 1);
      pos := pos + 1;
      return Ok(());
    }

    method Name() returns (name: string)
      requires InText()
      modifies this`pos
      ensures InText() && (name, Rest()) == OptionalName(old(Rest()))
    {
      Space();
      if pos == |text| || !IdentStart(text[pos]) {
        return "";
      }
      var n := IdentPrefix(text[pos..]);
      var end := pos + n;
      DropDrop(text, pos, n);
      assert text[pos..end] == text[pos..][..n];
      name := text[pos..end];
      pos := end;
    }

    method Type() returns (r: Result<AbiType>)
      requires InText()
      modifies this`pos
      ensures InText()
      ensures Agrees(r, Rest(), ParseType(old(Rest())))
      decreases |Rest()|, 1
    {
      Space();
      var node: AbiType;
      if pos < |text| && text[pos] == '(' {
        DropDrop(text, pos, 1);
        pos := pos + 1;
        var members :- Members();
        var _ :- Take(')');
        node := Tuple("", members);
      } else {
        var token := Name();
        if token == "" {
          return Raised;
        }
        node :- ElementaryType(token);
      }
      r := Suffixes(node);
    }

    method Bracket() returns (r: Result<nat>)
      requires InText()
      modifies this`pos
      ensures InText()
      ensures Agrees(r, Rest(), ParseBracket(old(Rest())))
    {
      Space();
      var n := DigitPrefix(text[pos..]);
      DropDrop(text, pos, n);
      assert text[pos..pos + n] == text[pos..][..n];
      var length := if n == 0 then ABSENT else DigitsValue(text[pos..pos + n]);
      pos := pos + n;
      var _ :- Take(']');
      return Ok(length);
    }

    /** The bracket loop at the end of `type`. */
    method Suffixes(base: AbiType) returns (r: Result<AbiType>)
      requires InText()
      modifies this`pos
      ensures InText()
      ensures Agrees(r, Rest(), ParseSuffixes(base, old(Rest())))
    {
      hide ParseSuffixes, SkipSpace, ParseBracket;
      ghost var goal := ParseSuffixes(base, Rest());
      var node := base;
      SuffixesSkipSpace(base, Rest());
      Space();
      while pos < |text| && text[pos] == '['
        invariant InText()
        invariant pos < |text| ==> !IsSpace(text[pos])
        invariant ParseSuffixes(node, Rest()) == goal
        decreases |Rest()|
      {
        SuffixStep(node, Rest());
        DropDrop(text, pos, 1);
        pos := pos + 1;
        var length :- Bracket();
        node := Array("", node, length);
        Space();
      }
      SuffixesStop(node, Rest());
      return Ok(node);
    }

    method Member() returns (r: Result<AbiType>)
      requires InText()
      modifies this`pos
      ensures InText()
      ensures Agrees(r, Rest(), ParseMember(old(Rest())))
      decreases |Rest()|, 2
    {
      var child :- Type();
      var name := Name();
      Space();
      return Ok(child.Rename(name));
    }

    /** The member loop that `type` and `function` share. */
    method Members() returns (r: Result<seq<AbiType>>)
      requires InText()
      modifies this`pos
      ensures InText()
      ensures Agrees(r, Rest(), ParseOptionalMembers(old(Rest())))
      decreases |Rest()|, 3
    {
      Space();
      if pos < |text| && text[pos] == ')' {
        return Ok([]);
      }
      ghost var length := |Rest()|;
      ghost var goal := ParseMembers(Rest(), []);
      var children: seq<AbiType> := [];
      while true
        invariant InText() && |Rest()| <= length
        invariant ParseMembers(Rest(), children) == goal
        decreases |Rest()|
      {
        MembersStep(Rest(), children);
        var child :- Member();
        if pos == |text| || text[pos] != ',' {
          return Ok(children + [child]);
        }
        children := children + [child];
        DropDrop(text, pos, 1);
        pos := pos + 1;
      }
    }

    method Function() returns (r: Result<(string, AbiType)>)
      requires InText()
      modifies this`pos
      ensures r == ParseFunction(old(Rest()))
    {
      var name := Name();
      if name == "" {
        return Raised;
      }
      var _ :- Take('(');
      var args :- Members();
      var _ :- Take(')');
      Space();
      if pos != |text| {
        return Raised;
      }
      return Ok((name, Tuple("", args)));
    }
  }

  method ParseFunctionSignature(signature: string) returns (r: Result<(string, AbiType)>)
    ensures r == ParseFunction(signature)
  {
    var parser := new Parser(signature);
    assert parser.Rest() == signature;
    r := parser.Function();
  }
}
