/** How far the signature parser looks (keepkeylib/erc7730_compiler.py): what it
    reads depends on the text it takes and on one character behind it. */
module SignatureLookahead {
  import opened Wrappers
  import opened Text
  import opened AbiTypes
  import opened SignatureParser

  /** `s` ends in `y`. */
  predicate EndsIn(s: string, y: string) {
    |y| <= |s| && s[|s| - |y|..] == y
  }

  /** `s` with its end `y` replaced by `z`. */
  function Swapped(s: string, y: string, z: string): string
    requires |y| <= |s|
  {
    s[..|s| - |y|] + z
  }

  /** Two texts that look alike from their first character. */
  predicate Alike(y: string, z: string) {
    y != "" && z != "" && y[0] == z[0]
  }

  lemma SwappedParts(s: string, r: string, y: string, z: string)
    requires EndsIn(s, r) && EndsIn(r, y)
    ensures EndsIn(s, y) && Swapped(s, y, z) == Swapped(s, r, Swapped(r, y, z))
  {
    assert s == s[..|s| - |r|] + r;
    assert r == r[..|r| - |y|] + y;
    assert s[|s| - |y|..] == y;
    assert s[..|s| - |y|] == s[..|s| - |r|] + r[..|r| - |y|];
  }

  lemma SwappedAlike(r: string, y: string, z: string)
    requires EndsIn(r, y) && Alike(y, z)
    ensures Alike(r, Swapped(r, y, z))
  {
    assert |r| == |y| ==> Swapped(r, y, z) == z && r == y;
  }

  lemma SwappedTail(r: string, y: string, z: string)
    requires EndsIn(r, y) && |y| < |r|
    ensures EndsIn(r[1..], y) && Swapped(r, y, z)[1..] == Swapped(r[1..], y, z) && Swapped(r, y, z)[0] == r[0]
  {
    assert r[1..][..|r| - 1 - |y|] == r[..|r| - |y|][1..];
  }

  // ------------------------------------------------------------------- tokens

  lemma {:induction false} SkipAlike(s: string, y: string, z: string)
    requires EndsIn(SkipSpace(s), y) && Alike(y, z)
    ensures EndsIn(s, y) && SkipSpace(Swapped(s, y, z)) == Swapped(SkipSpace(s), y, z)
  {
    if s != "" && IsSpace(s[0]) {
      SkipAlike(s[1..], y, z);
      assert |y| <= |s[1..]| < |s|;
      assert s[1..][|s| - 1 - |y|..] == s[|s| - |y|..];
      SwappedTail(s, y, z);
    } else {
      SwappedAlike(s, y, z);
    }
  }

  lemma TakeAlike(s: string, token: char, y: string, z: string)
    requires TakeChar(s, token).Ok? && EndsIn(TakeChar(s, token).value, y) && Alike(y, z)
    ensures EndsIn(s, y) && TakeChar(Swapped(s, y, z), token) == Ok(Swapped(TakeChar(s, token).value, y, z))
  {
    var t := SkipSpace(s);
    assert t[|t| - |y|..] == t[1..][|t| - 1 - |y|..];
    SkipAlike(s, y, z);
    SwappedTail(t, y, z);
  }

  lemma TokenEnd(s: string, t: string, z: string)
    requires EndsIn(s, t) && t != ""
    ensures EndsIn(s, t[1..]) && Swapped(s, t[1..], z) == Swapped(s, t, [t[0]] + z)
  {
    var n := |s| - |t|;
    assert s[n..] == t;
    assert s[n + 1..] == s[n..][1..];
    assert s[..n + 1] == s[..n] + [t[0]];
    assert s[..n] + [t[0]] + z == s[..n] + ([t[0]] + z);
  }

  /** What follows the token may then be anything. */
  lemma TakeEnd(s: string, token: char, z: string)
    requires TakeChar(s, token).Ok?
    ensures var rest := TakeChar(s, token).value;
            EndsIn(s, rest) && TakeChar(Swapped(s, rest, z), token) == Ok(z)
  {
    hide IsSpace, SkipSpace;
    var t := SkipSpace(s);
    assert EndsIn(t, t);
    SkipAlike(s, t, [token] + z);
    assert Swapped(t, t, [token] + z) == [token] + z;
    TokenEnd(s, t, z);
  }

  lemma SwapBehind(name: string, rest: string, y: string, z: string)
    requires EndsIn(rest, y)
    ensures EndsIn(name + rest, y) && Swapped(name + rest, y, z) == name + Swapped(rest, y, z)
  {
    var t := name + rest;
    assert t[|t| - |y|..] == rest[|rest| - |y|..];
    assert t[..|t| - |y|] == name + rest[..|rest| - |y|];
  }

  lemma Cut(a: string, b: string)
    ensures (a + b)[..|a|] == a && (a + b)[|a|..] == b
  {
  }

  /** The character behind a word does not go on in it, whatever starts alike. */
  lemma NextKept(t: string, n: nat, s: string)
    requires n <= |t| && (n < |t| ==> !IdentChar(t[n])) && Alike(t[n..], s)
    ensures s != "" && !IdentChar(s[0])
  {
    assert t[n..][0] == t[n];
  }

  lemma PrefixAlike(t: string, y: string, z: string)
    requires EndsIn(t[IdentPrefix(t)..], y) && Alike(y, z)
    ensures var n, t' := IdentPrefix(t), Swapped(t, y, z);
            EndsIn(t, y) && IdentPrefix(t') == n <= |t'| && t'[..n] == t[..n] && t'[n..] == Swapped(t[n..], y, z)
  {
    hide IdentChar, Swapped, Alike, IdentPrefix;
    var n := IdentPrefix(t);
    var name, rest := t[..n], t[n..];
    assert t == name + rest;
    SwappedAlike(rest, y, z);
    SwapBehind(name, rest, y, z);
    NextKept(t, n, Swapped(rest, y, z));
    IdentPrefixOfAppend(name, Swapped(rest, y, z));
    Cut(name, Swapped(rest, y, z));
  }

  lemma NameAlike(s: string, y: string, z: string)
    requires EndsIn(OptionalName(s).1, y) && Alike(y, z)
    ensures EndsIn(s, y)
    ensures OptionalName(Swapped(s, y, z)) == (OptionalName(s).0, Swapped(OptionalName(s).1, y, z))
  {
    hide IsSpace, IdentStart, IdentChar, SkipSpace, IsIdentifier, IdentPrefix, Swapped, EndsIn;
    var t := SkipSpace(s);
    if t != "" && IdentStart(t[0]) {
      PrefixAlike(t, y, z);
    }
    SkipAlike(s, y, z);
    SwappedAlike(t, y, z);
  }

  lemma BracketAlike(s: string, y: string, z: string)
    requires ParseBracket(s).Ok? && EndsIn(ParseBracket(s).value.1, y) && Alike(y, z)
    ensures EndsIn(s, y)
    ensures ParseBracket(Swapped(s, y, z)) == Ok((ParseBracket(s).value.0, Swapped(ParseBracket(s).value.1, y, z)))
  {
    BracketEnd(s, Swapped(ParseBracket(s).value.1, y, z));
    SwappedParts(s, ParseBracket(s).value.1, y, z);
  }

  /** Behind a closed bracket anything may follow. */
  lemma BracketEnd(s: string, z: string)
    requires ParseBracket(s).Ok?
    ensures var (length, rest) := ParseBracket(s).value;
            EndsIn(s, rest) && ParseBracket(Swapped(s, rest, z)) == Ok((length, z))
  {
    var body := SkipSpace(s);
    var n := DigitPrefix(body);
    var after := body[n..];
    var rest := TakeChar(after, ']').value;
    TakeEnd(after, ']', z);
    var after' := Swapped(after, rest, z);
    assert body == body[..n] + after;
    assert EndsIn(body, after);
    assert |rest| < |after|;
    assert after' != "" && after'[0] == after[0];
    assert EndsIn(SkipSpace(s), after) && Alike(after, after');
    SkipAlike(s, after, after');
    assert Swapped(body, after, after') == body[..n] + after';
    DigitPrefixOfAppend(body[..n], after');
    SwappedParts(s, after, rest, z);
    assert (body[..n] + after')[n..] == after' && (body[..n] + after')[..n] == body[..n];
  }

  // -------------------------------------------------------------------- types

  lemma {:induction false} SuffixesAlike(t: AbiType, s: string, z: string)
    requires ParseSuffixes(t, s).Ok? && Alike(ParseSuffixes(t, s).value.1, z)
    ensures var (u, y) := ParseSuffixes(t, s).value;
            EndsIn(s, y) && ParseSuffixes(t, Swapped(s, y, z)) == Ok((u, z))
    decreases |s|
  {
    hide ParseBracket;
    var r := SkipSpace(s);
    var (u, y) := ParseSuffixes(t, s).value;
    if r != "" && r[0] == '[' {
      var (length, rest) := ParseBracket(r[1..]).value;
      SuffixesAlike(Array("", t, length), rest, z);
      BracketAlike(r[1..], y, z);
      assert EndsIn(r, r[1..]);
      SwappedParts(r, r[1..], y, z);
      SwappedTail(r, y, z);
      SkipAlike(s, y, z);
    } else {
      assert EndsIn(r, r);
      SkipAlike(s, y, z);
      assert Swapped(r, y, z) == z;
    }
  }

  lemma {:induction false} TypeAlike(s: string, z: string)
    requires ParseType(s).Ok? && Alike(ParseType(s).value.1, z)
    ensures var (t, y) := ParseType(s).value; EndsIn(s, y) && ParseType(Swapped(s, y, z)) == Ok((t, z))
    decreases |s|, 1
  {
    hide ParseSuffixes, ParseOptionalMembers, ElementaryType, OptionalName;
    var r := SkipSpace(s);
    var (u, y) := ParseType(s).value;
    if r != "" && r[0] == '(' {
      var (members, after) := ParseOptionalMembers(r[1..]).value;
      var rest := TakeChar(after, ')').value;
      SuffixesAlike(Tuple("", members), rest, z);
      TakeAlike(after, ')', y, z);
      SwappedAlike(after, y, z);
      OptionalMembersAlike(r[1..], Swapped(after, y, z));
      SwappedParts(r[1..], after, y, z);
      SwappedTail(r, y, z);
      assert EndsIn(r, r[1..]);
      SwappedParts(r, r[1..], y, z);
      SkipAlike(s, y, z);
    } else {
      var (token, rest) := RequiredName(r).value;
      SuffixesAlike(ElementaryType(token).value, rest, z);
      NameAlike(r, y, z);
      SkipAlike(s, y, z);
      SwappedAlike(r, y, z);
      SkippedTwice(s);
    }
  }

  lemma {:induction false} SkippedTwice(s: string)
    ensures SkipSpace(SkipSpace(s)) == SkipSpace(s)
  {
    if s != "" && IsSpace(s[0]) {
      SkippedTwice(s[1..]);
    }
  }

  lemma {:induction false} OptionalMembersAlike(s: string, z: string)
    requires ParseOptionalMembers(s).Ok? && Alike(ParseOptionalMembers(s).value.1, z)
    ensures var (ts, y) := ParseOptionalMembers(s).value;
            EndsIn(s, y) && ParseOptionalMembers(Swapped(s, y, z)) == Ok((ts, z))
    decreases |s|, 4
  {
    hide ParseMembers;
    var r := SkipSpace(s);
    var (ts, y) := ParseOptionalMembers(s).value;
    if r != "" && r[0] == ')' {
      assert EndsIn(r, r);
      SkipAlike(s, y, z);
      assert Swapped(r, y, z) == z;
    } else {
      MembersAlike(r, [], z);
      SkipAlike(s, y, z);
      SwappedAlike(r, y, z);
    }
  }

  lemma {:induction false} MemberAlike(s: string, z: string)
    requires ParseMember(s).Ok? && Alike(ParseMember(s).value.1, z)
    ensures var (t, y) := ParseMember(s).value; EndsIn(s, y) && ParseMember(Swapped(s, y, z)) == Ok((t, z))
    decreases |s|, 2
  {
    hide ParseType, OptionalName;
    var (t, after) := ParseType(s).value;
    var (name, rest) := OptionalName(after);
    var y := SkipSpace(rest);
    assert EndsIn(y, y);
    SkipAlike(rest, y, z);
    assert Swapped(y, y, z) == z;
    NameAlike(after, y, z);
    SwappedAlike(after, y, z);
    TypeAlike(s, Swapped(after, y, z));
    SwappedParts(s, after, y, z);
  }

  lemma {:induction false} MembersAlike(s: string, acc: seq<AbiType>, z: string)
    requires ParseMembers(s, acc).Ok? && Alike(ParseMembers(s, acc).value.1, z)
    ensures var (ts, y) := ParseMembers(s, acc).value;
            EndsIn(s, y) && ParseMembers(Swapped(s, y, z), acc) == Ok((ts, z))
    decreases |s|, 3
  {
    hide ParseMember;
    var (member, rest) := ParseMember(s).value;
    var (ts, y) := ParseMembers(s, acc).value;
    if rest != "" && rest[0] == ',' {
      MembersAlike(rest[1..], acc + [member], z);
      assert EndsIn(rest, rest[1..]);
      SwappedParts(rest, rest[1..], y, z);
      SwappedAlike(rest, y, z);
      SwappedTail(rest, y, z);
      MemberAlike(s, Swapped(rest, y, z));
      SwappedParts(s, rest, y, z);
    } else {
      MemberAlike(s, z);
    }
  }
}
