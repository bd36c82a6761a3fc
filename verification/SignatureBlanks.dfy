/** Blanks in signatures (keepkeylib/erc7730_compiler.py): the parser reads a text
    and the text without its blanks alike, unless a blank parts two words. */
module SignatureBlanks {
  import opened Wrappers
  import opened Text
  import opened AbiTypes
  import opened SignatureParser

  predicate NoSpace(s: string) {
    forall i :: 0 <= i < |s| ==> !IsSpace(s[i])
  }

  function Unspaced(s: string): (r: string)
    ensures NoSpace(r) && |r| <= |s|
  {
    if s == "" then "" else if IsSpace(s[0]) then Unspaced(s[1..]) else [s[0]] + Unspaced(s[1..])
  }

  /** No blanks stand between two identifier characters. */
  predicate Loose(s: string) {
    s == "" || (Loose(s[1..]) && (IdentChar(s[0]) ==> !PartsWords(s[1..])))
  }

  /** The text begins with blanks and goes on with a word. */
  predicate PartsWords(s: string) {
    s != "" && IsSpace(s[0]) && SkipSpace(s) != "" && IdentChar(SkipSpace(s)[0])
  }

  lemma {:induction false} UnspacedSkip(s: string)
    ensures Unspaced(SkipSpace(s)) == Unspaced(s)
  {
    if s != "" && IsSpace(s[0]) {
      UnspacedSkip(s[1..]);
    }
  }

  lemma {:induction false} UnspacedJoin(a: string, b: string)
    ensures Unspaced(a + b) == Unspaced(a) + Unspaced(b)
  {
    if a == "" {
      assert a + b == b;
    } else {
      assert (a + b)[1..] == a[1..] + b;
      UnspacedJoin(a[1..], b);
    }
  }

  lemma {:induction false} UnspacedNothing(s: string)
    requires NoSpace(s)
    ensures Unspaced(s) == s
  {
    if s != "" {
      UnspacedNothing(s[1..]);
    }
  }

  lemma {:induction false} SkipNothing(s: string)
    requires NoSpace(s)
    ensures SkipSpace(s) == s
  {
  }

  lemma {:induction false} LooseDrop(s: string, k: nat)
    requires Loose(s) && k <= |s|
    ensures Loose(s[k..])
  {
    if k > 0 {
      LooseDrop(s[1..], k - 1);
      assert s[1..][k - 1..] == s[k..];
    }
  }

  lemma {:induction false} LooseSkip(s: string)
    requires Loose(s)
    ensures Loose(SkipSpace(s))
  {
    if s != "" && IsSpace(s[0]) {
      LooseSkip(s[1..]);
    }
  }

  /** A text starts with its first character that is no blank. */
  lemma {:induction false} UnspacedFirst(s: string)
    ensures Unspaced(s) == if SkipSpace(s) == "" then "" else [SkipSpace(s)[0]] + Unspaced(SkipSpace(s)[1..])
  {
    if s != "" && IsSpace(s[0]) {
      UnspacedFirst(s[1..]);
    }
  }

  // ------------------------------------------------------------------- tokens

  lemma TakeUnspaced(s: string, token: char)
    requires TakeChar(s, token).Ok?
    ensures TakeChar(Unspaced(s), token) == Ok(Unspaced(TakeChar(s, token).value))
    ensures Loose(s) ==> Loose(TakeChar(s, token).value)
  {
    UnspacedFirst(s);
    SkipNothing(Unspaced(s));
    var rest := TakeChar(s, token).value;
    assert ([token] + Unspaced(rest))[1..] == Unspaced(rest);
    if Loose(s) {
      LooseSkip(s);
      LooseDrop(SkipSpace(s), 1);
    }
  }

  /** An identifier prefix ends where it did. */
  lemma PrefixUnspaced(t: string)
    requires Loose(t)
    ensures var n := IdentPrefix(t);
            Unspaced(t) == t[..n] + Unspaced(t[n..]) && (n > 0 ==> IdentPrefix(Unspaced(t)) == n)
  {
    var n := IdentPrefix(t);
    UnspacedJoin(t[..n], t[n..]);
    UnspacedNothing(t[..n]);
    assert t == t[..n] + t[n..];
    if n > 0 {
      LooseDrop(t, n - 1);
      assert t[n - 1..][1..] == t[n..];
      UnspacedFirst(t[n..]);
      IdentPrefixOfAppend(t[..n], Unspaced(t[n..]));
    }
  }

  lemma NameUnspaced(s: string)
    requires Loose(s)
    ensures var (name, rest) := OptionalName(s); OptionalName(Unspaced(s)) == (name, Unspaced(rest)) && Loose(rest)
  {
    var t := SkipSpace(s);
    UnspacedSkip(s);
    UnspacedFirst(s);
    LooseSkip(s);
    SkipNothing(Unspaced(s));
    if t != "" && IdentStart(t[0]) {
      var n := IdentPrefix(t);
      PrefixUnspaced(t);
      LooseDrop(t, n);
      assert Unspaced(t)[..n] == t[..n] && Unspaced(t)[n..] == Unspaced(t[n..]);
    }
  }

  lemma DigitsUnspaced(t: string)
    requires TakeChar(t[DigitPrefix(t)..], ']').Ok?
    ensures var n := DigitPrefix(t);
            Unspaced(t) == t[..n] + Unspaced(t[n..]) && DigitPrefix(Unspaced(t)) == n
  {
    var n := DigitPrefix(t);
    UnspacedJoin(t[..n], t[n..]);
    UnspacedNothing(t[..n]);
    assert t == t[..n] + t[n..];
    UnspacedFirst(t[n..]);
    DigitPrefixOfAppend(t[..n], Unspaced(t[n..]));
  }

  lemma BracketUnspaced(s: string)
    requires ParseBracket(s).Ok?
    ensures var (length, rest) := ParseBracket(s).value;
            ParseBracket(Unspaced(s)) == Ok((length, Unspaced(rest))) && (Loose(s) ==> Loose(rest))
  {
    var body := SkipSpace(s);
    var n := DigitPrefix(body);
    UnspacedSkip(s);
    SkipNothing(Unspaced(s));
    DigitsUnspaced(body);
    TakeUnspaced(body[n..], ']');
    assert Unspaced(body)[..n] == body[..n] && Unspaced(body)[n..] == Unspaced(body[n..]);
    if Loose(s) {
      LooseSkip(s);
      LooseDrop(body, n);
    }
  }

  // -------------------------------------------------------------------- types

  lemma {:induction false} SuffixesUnspaced(t: AbiType, s: string)
    requires Loose(s) && ParseSuffixes(t, s).Ok?
    ensures var (u, rest) := ParseSuffixes(t, s).value;
            ParseSuffixes(t, Unspaced(s)) == Ok((u, Unspaced(rest))) && Loose(rest)
    decreases |s|
  {
    hide ParseBracket, Loose;
    var r := SkipSpace(s);
    UnspacedSkip(s);
    UnspacedFirst(s);
    SkipNothing(Unspaced(s));
    LooseSkip(s);
    if r != "" && r[0] == '[' {
      var (length, rest) := ParseBracket(r[1..]).value;
      LooseDrop(r, 1);
      BracketUnspaced(r[1..]);
      SuffixesUnspaced(Array("", t, length), rest);
      assert Unspaced(s)[1..] == Unspaced(r[1..]);
    }
  }

  lemma {:induction false} TypeUnspaced(s: string)
    requires Loose(s) && ParseType(s).Ok?
    ensures var (t, rest) := ParseType(s).value; ParseType(Unspaced(s)) == Ok((t, Unspaced(rest))) && Loose(rest)
    decreases |s|, 1
  {
    hide ParseSuffixes, ParseOptionalMembers, ElementaryType, Loose, OptionalName;
    var r := SkipSpace(s);
    UnspacedSkip(s);
    UnspacedFirst(s);
    SkipNothing(Unspaced(s));
    LooseSkip(s);
    if r != "" && r[0] == '(' {
      LooseDrop(r, 1);
      var (members, after) := ParseOptionalMembers(r[1..]).value;
      OptionalMembersUnspaced(r[1..]);
      TakeUnspaced(after, ')');
      SuffixesUnspaced(Tuple("", members), TakeChar(after, ')').value);
      assert Unspaced(s)[1..] == Unspaced(r[1..]);
    } else {
      var (token, rest) := RequiredName(r).value;
      NameUnspaced(r);
      SuffixesUnspaced(ElementaryType(token).value, rest);
    }
  }

  lemma {:induction false} OptionalMembersUnspaced(s: string)
    requires Loose(s) && ParseOptionalMembers(s).Ok?
    ensures var (ts, rest) := ParseOptionalMembers(s).value;
            ParseOptionalMembers(Unspaced(s)) == Ok((ts, Unspaced(rest))) && Loose(rest)
    decreases |s|, 4
  {
    hide ParseMembers, Loose;
    var r := SkipSpace(s);
    UnspacedSkip(s);
    UnspacedFirst(s);
    SkipNothing(Unspaced(s));
    LooseSkip(s);
    if !(r != "" && r[0] == ')') {
      MembersUnspaced(r, []);
    }
  }

  lemma {:induction false} MemberUnspaced(s: string)
    requires Loose(s) && ParseMember(s).Ok?
    ensures var (t, rest) := ParseMember(s).value; ParseMember(Unspaced(s)) == Ok((t, Unspaced(rest))) && Loose(rest)
    decreases |s|, 2
  {
    hide ParseType, Loose, OptionalName;
    var (t, after) := ParseType(s).value;
    TypeUnspaced(s);
    NameUnspaced(after);
    var rest := OptionalName(after).1;
    UnspacedSkip(rest);
    SkipNothing(Unspaced(rest));
    LooseSkip(rest);
  }

  lemma {:induction false} MembersUnspaced(s: string, acc: seq<AbiType>)
    requires Loose(s) && ParseMembers(s, acc).Ok?
    ensures var (ts, rest) := ParseMembers(s, acc).value;
            ParseMembers(Unspaced(s), acc) == Ok((ts, Unspaced(rest))) && Loose(rest)
    decreases |s|, 3
  {
    hide ParseMember, Loose;
    var (member, rest) := ParseMember(s).value;
    MemberUnspaced(s);
    MemberRest(s);
    UnspacedFirst(rest);
    if rest != "" && rest[0] == ',' {
      LooseDrop(rest, 1);
      MembersUnspaced(rest[1..], acc + [member]);
      assert Unspaced(rest)[1..] == Unspaced(rest[1..]);
    }
  }

  lemma MemberRest(s: string)
    requires ParseMember(s).Ok?
    ensures SkipSpace(ParseMember(s).value.1) == ParseMember(s).value.1
  {
  }

  /** The whole signature. */
  lemma FunctionUnspaced(s: string)
    requires Loose(s) && ParseFunction(s).Ok?
    ensures ParseFunction(Unspaced(s)) == ParseFunction(s)
  {
    hide ParseOptionalMembers, Loose, OptionalName;
    var (name, s1) := RequiredName(s).value;
    NameUnspaced(s);
    var s2 := TakeChar(s1, '(').value;
    TakeUnspaced(s1, '(');
    var (members, s3) := ParseOptionalMembers(s2).value;
    OptionalMembersUnspaced(s2);
    var s4 := TakeChar(s3, ')').value;
    TakeUnspaced(s3, ')');
    UnspacedFirst(s4);
  }
}
