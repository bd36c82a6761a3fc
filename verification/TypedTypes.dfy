/** `_typed_base` against the signature parser (keepkeylib/erc7730_compiler.py): it
    peels array suffixes off the end of a type's text, the parser reads them from
    the front. */
module TypedTypes {
  import opened Wrappers
  import opened Text
  import opened AbiTypes
  import opened SignatureParser
  import opened SignatureLookahead
  import opened Eip712Types
  import SignatureRoundTrip

  /** The type in front of the array brackets. */
  function Head(s0: string): Result<(AbiType, string)> {
    var s := SkipSpace(s0);
    if s != "" && s[0] == '(' then
      var (members, rest) :- ParseOptionalMembers(s[1..]);
      var after :- TakeChar(rest, ')');
      Ok((Tuple("", members), after))
    else
      var (token, rest) :- RequiredName(s);
      var leaf :- ElementaryType(token);
      Ok((leaf, rest))
  }

  lemma TypeByHead(s: string)
    ensures ParseType(s) == (match Head(s)
                             case Ok((t, rest)) => ParseSuffixes(t, rest)
                             case Raised => Raised)
  {
    hide ParseSuffixes, ParseOptionalMembers, ElementaryType;
  }

  /** A head is read from the text alone, whatever follows. */
  lemma HeadAppend(s: string, x: string)
    requires Head(s).Ok? && (x == "" || !IdentChar(x[0]))
    ensures Head(s + x) == Ok((Head(s).value.0, Head(s).value.1 + x))
  {
    hide ParseOptionalMembers, ElementaryType;
    var r := SkipSpace(s);
    assert r != "";
    SkipAppend(s, x);
    if r[0] == '(' {
      var (members, rest) := ParseOptionalMembers(r[1..]).value;
      OptionalMembersAlike(r[1..], rest + x);
      assert Swapped(r[1..], rest, rest + x) == r[1..] + x;
      assert (r + x)[1..] == r[1..] + x;
      TakeAppend(rest, ')', x);
    } else {
      NameAppend(r, x);
    }
  }

  lemma {:induction false} SkipAppend(s: string, x: string)
    ensures SkipSpace(s) != "" ==> SkipSpace(s + x) == SkipSpace(s) + x
    ensures SkipSpace(s) == "" ==> SkipSpace(s + x) == SkipSpace(x)
  {
    if s == "" {
      assert s + x == x;
    } else {
      assert (s + x)[1..] == s[1..] + x;
      if IsSpace(s[0]) {
        SkipAppend(s[1..], x);
      }
    }
  }

  lemma TakeAppend(s: string, token: char, x: string)
    requires TakeChar(s, token).Ok?
    ensures TakeChar(s + x, token) == Ok(TakeChar(s, token).value + x)
  {
    SkipAppend(s, x);
    var t := SkipSpace(s);
    assert (t + x)[1..] == t[1..] + x;
  }

  lemma NameAppend(s: string, x: string)
    requires OptionalName(s).0 != "" && (x == "" || !IdentChar(x[0]))
    ensures OptionalName(s + x) == (OptionalName(s).0, OptionalName(s).1 + x)
  {
    hide IsSpace, IdentStart, IdentChar, SkipSpace, IsIdentifier;
    SkipAppend(s, x);
    var t := SkipSpace(s);
    var (name, rest) := OptionalName(s);
    var n := IdentPrefix(t);
    assert t == name + rest && t + x == name + (rest + x);
    IdentPrefixOfAppend(name, rest + x);
    assert (t + x)[..n] == name && (t + x)[n..] == rest + x;
  }

  /** Where the text's brackets end, those of what follows are read on. */
  lemma {:induction false} SuffixesAppend(t: AbiType, s: string, x: string)
    requires ParseSuffixes(t, s).Ok? && ParseSuffixes(t, s).value.1 == ""
    ensures ParseSuffixes(t, s + x) == ParseSuffixes(ParseSuffixes(t, s).value.0, x)
    decreases |s|
  {
    hide ParseBracket;
    var r := SkipSpace(s);
    SkipAppend(s, x);
    if r != "" {
      var (length, rest) := ParseBracket(r[1..]).value;
      BracketEnd(r[1..], rest + x);
      assert Swapped(r[1..], rest, rest + x) == r[1..] + x;
      assert (r + x)[1..] == r[1..] + x;
      SuffixesAppend(Array("", t, length), rest, x);
    } else {
      SuffixesSkipSpace(t, x);
    }
  }

  /** A whole type and what follows it. */
  lemma TypeAppend(s: string, x: string)
    requires WholeType(s).Ok? && (x == "" || !IdentChar(x[0]))
    ensures ParseType(s + x) == ParseSuffixes(WholeType(s).value, x)
  {
    hide ParseType, ParseSuffixes, Head;
    TypeByHead(s);
    TypeByHead(s + x);
    HeadAppend(s, x);
    var (t, rest) := Head(s).value;
    SuffixesRest(t, rest);
    SuffixesAppend(t, rest, x);
  }

  lemma {:induction false} SuffixesRest(t: AbiType, s: string)
    requires ParseSuffixes(t, s).Ok?
    ensures SkipSpace(ParseSuffixes(t, s).value.1) == ParseSuffixes(t, s).value.1
    decreases |s|
  {
    hide ParseBracket;
    var r := SkipSpace(s);
    SkippedTwice(s);
    if r != "" && r[0] == '[' {
      var (length, rest) := ParseBracket(r[1..]).value;
      SuffixesRest(Array("", t, length), rest);
    }
  }

  // ------------------------------------------------------------ one dimension

  /** `[digits]`, and a line feed that `$` lets pass. */
  function Dimensional(digits: string, feed: bool): string {
    "[" + digits + "]" + if feed then "\n" else ""
  }

  function LengthOf(digits: string): nat {
    if digits == "" then ABSENT else DigitsValue(digits)
  }

  lemma DimensionRead(t: AbiType, digits: string, feed: bool)
    requires AllDigits(digits)
    ensures ParseSuffixes(t, Dimensional(digits, feed)) == Ok((Array("", t, LengthOf(digits)), ""))
  {
    hide DigitsValue;
    var end := if feed then "\n" else "";
    var x := Dimensional(digits, feed);
    assert x[1..] == digits + ("]" + end);
    DigitPrefixOfAppend(digits, "]" + end);
    assert SkipSpace(x[1..]) == x[1..];
    assert x[1..][..|digits|] == digits && x[1..][|digits|..] == "]" + end;
    assert ("]" + end)[1..] == end;
    assert feed ==> "\n"[1..] == "";
    assert SkipSpace(end) == "";
    assert ParseBracket(x[1..]) == Ok((LengthOf(digits), end));
  }

  /** The last bracket closed the text before it did not. */
  lemma {:induction false} SuffixesShrink(t: AbiType, s: string, digits: string, feed: bool)
    requires AllDigits(digits) && ParseSuffixes(t, s + Dimensional(digits, feed)).Ok?
    requires ParseSuffixes(t, s + Dimensional(digits, feed)).value.1 == ""
    ensures ParseSuffixes(t, s).Ok? && ParseSuffixes(t, s).value.1 == ""
    decreases |s|
  {
    hide ParseBracket;
    var r, x := SkipSpace(s), Dimensional(digits, feed);
    SkipAppend(s, x);
    if r != "" {
      assert (r + x)[1..] == r[1..] + x;
      BracketShrink(r[1..], x);
      var (length, rest) := ParseBracket(r[1..]).value;
      SuffixesShrink(Array("", t, length), rest, digits, feed);
    }
  }

  lemma BracketShrink(s: string, x: string)
    requires ParseBracket(s + x).Ok? && x != "" && x[0] == '['
    ensures ParseBracket(s).Ok? && ParseBracket(s + x) == Ok((ParseBracket(s).value.0, ParseBracket(s).value.1 + x))
  {
    SkipAppend(s, x);
    var body := SkipSpace(s);
    var n := DigitPrefix(body);
    if body != "" {
      assert body == body[..n] + body[n..];
      assert body + x == body[..n] + (body[n..] + x);
      DigitPrefixOfAppend(body[..n], body[n..] + x);
      assert (body + x)[n..] == body[n..] + x && (body + x)[..n] == body[..n];
      SkipAppend(body[n..], x);
      var after := SkipSpace(body[n..]);
      assert after != "" ==> (after + x)[1..] == after[1..] + x;
    }
  }

  /** A head is not in the brackets behind it. */
  lemma HeadShrink(s: string, digits: string, feed: bool)
    requires AllDigits(digits) && Head(s + Dimensional(digits, feed)).Ok?
    ensures Head(s).Ok?
    ensures Head(s + Dimensional(digits, feed)) ==
              Ok((Head(s).value.0, Head(s).value.1 + Dimensional(digits, feed)))
  {
    hide ParseOptionalMembers, ElementaryType, DigitsValue;
    var r, x := SkipSpace(s), Dimensional(digits, feed);
    SkipAppend(s, x);
    assert SkipSpace(x) == x && !IdentStart(x[0]);
    assert r != "";
    if r[0] == '(' {
      assert (r + x)[1..] == r[1..] + x;
      MembersShrink(r[1..], x);
      HeadAppend(s, x);
    } else {
      NameShrink(r, x);
      HeadAppend(s, x);
    }
  }

  lemma NameShrink(s: string, x: string)
    requires s != "" && !IsSpace(s[0]) && x != "" && !IdentChar(x[0]) && OptionalName(s + x).0 != ""
    ensures OptionalName(s).0 == OptionalName(s + x).0
  {
    hide IsSpace;
    var n := IdentPrefix(s);
    SkipAppend(s, x);
    assert SkipSpace(s) == s && SkipSpace(s + x) == s + x;
    assert s == s[..n] + s[n..];
    assert s + x == s[..n] + (s[n..] + x);
    IdentPrefixOfAppend(s[..n], s[n..] + x);
    assert (s + x)[..n] == s[..n];
  }

  /** The bracket that closes a member list stands in front of `x`. */
  lemma MembersShrink(s: string, x: string)
    requires ParseOptionalMembers(s + x).Ok? && TakeChar(ParseOptionalMembers(s + x).value.1, ')').Ok? && ')' !in x
    ensures ParseOptionalMembers(s).Ok? && TakeChar(ParseOptionalMembers(s).value.1, ')').Ok?
    ensures ParseOptionalMembers(s).value.0 == ParseOptionalMembers(s + x).value.0
  {
    hide ParseOptionalMembers;
    var (members, y) := ParseOptionalMembers(s + x).value;
    MembersSkipped(s + x);
    OptionalMembersAlike(s + x, y);
    EndBefore(s, x, y);
    var z := y[..|y| - |x|];
    assert z[0] == y[0];
    OptionalMembersAlike(s + x, z);
    assert Swapped(s + x, y, z) == s by {
      var n := |s + x| - |y|;
      assert y == (s + x)[n..] && n < |s|;
      assert z == s[n..];
      assert (s + x)[..n] == s[..n];
    }
    assert SkipSpace(z) == z;
  }

  /** An end that starts with a character `x` has not got is longer than `x`. */
  lemma EndBefore(s: string, x: string, y: string)
    requires y != "" && y[0] !in x && EndsIn(s + x, y)
    ensures |y| > |x|
  {
    var w := s + x;
    assert y[0] == w[|w| - |y|];
  }

  lemma {:induction false} MembersSkipped(s: string)
    requires ParseOptionalMembers(s).Ok?
    ensures SkipSpace(ParseOptionalMembers(s).value.1) == ParseOptionalMembers(s).value.1
  {
    var r := SkipSpace(s);
    SkippedTwice(s);
    if !(r != "" && r[0] == ')') {
      MemberListSkipped(r, []);
    }
  }

  lemma {:induction false} MemberListSkipped(s: string, acc: seq<AbiType>)
    requires ParseMembers(s, acc).Ok?
    ensures SkipSpace(ParseMembers(s, acc).value.1) == ParseMembers(s, acc).value.1
    decreases |s|
  {
    hide ParseMember;
    var (member, rest) := ParseMember(s).value;
    if rest != "" && rest[0] == ',' {
      MemberListSkipped(rest[1..], acc + [member]);
    } else {
      MemberSkipped(s);
    }
  }

  lemma MemberSkipped(s: string)
    requires ParseMember(s).Ok?
    ensures SkipSpace(ParseMember(s).value.1) == ParseMember(s).value.1
  {
    SkippedTwice(OptionalName(ParseType(s).value.1).1);
  }

  /** One dimension more is one array more. */
  lemma WholeTypeDimension(base: string, digits: string, feed: bool)
    requires AllDigits(digits)
    ensures WholeType(base + Dimensional(digits, feed)) ==
              (match WholeType(base)
               case Ok(t) => Ok(Array("", t, LengthOf(digits)))
               case Raised => Raised)
  {
    hide ParseType, ParseSuffixes, Head, LengthOf;
    var x := Dimensional(digits, feed);
    if WholeType(base).Ok? {
      TypeAppend(base, x);
      DimensionRead(WholeType(base).value, digits, feed);
    } else if WholeType(base + x).Ok? {
      TypeByHead(base);
      TypeByHead(base + x);
      HeadShrink(base, digits, feed);
      var (t, rest) := Head(base).value;
      SuffixesRest(t, rest + x);
      SuffixesShrink(t, rest, digits, feed);
      assert false;
    }
  }

  lemma LastParts(t: string)
    requires LastDimension(t).Some?
    ensures var (base, digits) := LastDimension(t).value; AllDigits(digits) && t == base + Dimensional(digits, false)
  {
    hide IsDigit, AllDigits, DigitsBack;
    var body := t[..|t| - 1];
    var n := DigitsBack(body);
    DigitsBackAre(body);
    var rest := body[..|body| - n];
    var base, digits := rest[..|rest| - 1], body[|body| - n..];
    assert body == rest + digits && rest == base + "[";
    assert t == body + "]";
  }

  lemma FeedApart(s: string)
    ensures s == OneLine(s) + if |OneLine(s)| < |s| then "\n" else ""
  {
  }

  lemma MatchParts(s: string)
    requires MatchArray(s).Some?
    ensures var (base, digits) := MatchArray(s).value;
            AllDigits(digits) && s == base + Dimensional(digits, |OneLine(s)| < |s|)
  {
    hide LastDimension, OneLine, AllDigits;
    LastParts(OneLine(s));
    FeedApart(s);
  }

  lemma {:induction false} DigitsBackAre(s: string)
    ensures AllDigits(s[|s| - DigitsBack(s)..])
  {
    if s != "" && IsDigit(s[|s| - 1]) {
      var init := s[..|s| - 1];
      DigitsBackAre(init);
      assert s[|s| - DigitsBack(s)..] == init[|init| - DigitsBack(init)..] + [s[|s| - 1]];
    }
  }

  /** Where no struct is named, peeling suffixes off the end gives what the parser
      reads from the front, lengths included, and raises with it. */
  lemma {:induction false} TypedBaseIsParsed(s: string, types: Types, active: set<string>)
    requires Base(s) !in types
    ensures TypedBase(s, types, active) == WholeType(s)
    decreases |s|
  {
    hide WholeType, Dimensional;
    match MatchArray(s)
    case None =>
    case Some((base, digits)) =>
      TypedBaseIsParsed(base, types, active);
      MatchParts(s);
      WholeTypeDimension(base, digits, |OneLine(s)| < |s|);
  }

  lemma {:induction false} BaseInFront(s: string)
    ensures Base(s) <= s
    decreases |s|
  {
    hide Dimensional;
    match MatchArray(s)
    case None =>
    case Some((base, digits)) =>
      MatchParts(s);
      BaseInFront(base);
  }

  /** An array of anything, structs included, is what the parser's suffix loop
      makes of its base and the text behind the base. */
  lemma {:induction false} TypedBaseWraps(s: string, types: Types, active: set<string>)
    ensures Base(s) <= s && (TypedBase(s, types, active).Ok? <==> TypedBase(Base(s), types, active).Ok?)
    ensures TypedBase(s, types, active).Ok? ==>
              ParseSuffixes(TypedBase(Base(s), types, active).value, s[|Base(s)|..]) ==
                Ok((TypedBase(s, types, active).value, ""))
    decreases |s|
  {
    hide ParseSuffixes, WholeType, Dimensional, MatchArray, DigitsValue;
    BaseInFront(s);
    match MatchArray(s)
    case None =>
      SuffixesOfNothing(TypedBase(s, types, active));
    case Some((base, digits)) =>
      TypedBaseWraps(base, types, active);
      MatchParts(s);
      if TypedBase(s, types, active).Ok? {
        var feed := |OneLine(s)| < |s|;
        var t := TypedBase(Base(s), types, active).value;
        var inner := base[|Base(s)|..];
        SuffixSplit(s, base, Base(s), Dimensional(digits, feed));
        SuffixesAppend(t, inner, Dimensional(digits, feed));
        DimensionRead(TypedBase(base, types, active).value, digits, feed);
      }
  }

  lemma SuffixSplit(s: string, base: string, inner: string, x: string)
    requires s == base + x && inner <= base
    ensures s[|inner|..] == base[|inner|..] + x
  {
  }

  lemma SuffixesOfNothing(r: Result<AbiType>)
    ensures r.Ok? ==> ParseSuffixes(r.value, "") == Ok((r.value, ""))
  {
  }

  /** Array suffixes as the printer writes them, with no line feed behind. */
  predicate PlainSuffixes(s: string)
    decreases |s|
  {
    match MatchArray(s)
    case None => true
    case Some((base, digits)) =>
      && OneLine(s) == s && PlainSuffixes(base)
      && (digits == "" || (IsCanonicalNumeral(digits) && DigitsValue(digits) != ABSENT))
  }

  /** The canonical text of an array is that of its base and the very suffix. */
  lemma {:induction false} TypedBaseText(s: string, types: Types, active: set<string>)
    requires PlainSuffixes(s) && TypedBase(s, types, active).Ok?
    ensures Base(s) <= s && TypedBase(Base(s), types, active).Ok?
    ensures Canonical(TypedBase(s, types, active).value) ==
              Canonical(TypedBase(Base(s), types, active).value) + s[|Base(s)|..]
    decreases |s|
  {
    hide WholeType, MatchArray, Dimensional, Dimension, DigitsValue, IsCanonicalNumeral;
    BaseInFront(s);
    match MatchArray(s)
    case None =>
    case Some((base, digits)) =>
      TypedBaseText(base, types, active);
      MatchParts(s);
      DimensionText(digits);
      SuffixSplit(s, base, Base(s), Dimensional(digits, false));
      SignatureRoundTrip.Associative(Canonical(TypedBase(Base(s), types, active).value), base[|Base(s)|..],
                                     Dimensional(digits, false));
  }

  lemma DimensionText(digits: string)
    requires digits == "" || (IsCanonicalNumeral(digits) && DigitsValue(digits) != ABSENT)
    ensures Dimension(LengthOf(digits)) == Dimensional(digits, false)
  {
    if digits != "" {
      CanonicalNumeralIsDecimal(digits);
    }
  }

  // ------------------------------------------------------------------ structs

  /** Which structs are active decides only whether the tree is built. */
  lemma {:induction false} FewerActive(s: string, types: Types, less: set<string>, more: set<string>)
    requires less <= more && TypedBase(s, types, more).Ok?
    ensures TypedBase(s, types, less) == TypedBase(s, types, more)
    decreases types.Keys - more, |s|, 0
  {
    match MatchArray(s)
    case Some((base, digits)) => FewerActive(base, types, less, more);
    case None =>
      if s in types {
        assert s in types.Keys - more;
        FewerActiveMembers(types[s], types, less + {s}, more + {s});
      }
  }

  lemma {:induction false} FewerActiveMembers(members: seq<Member>, types: Types, less: set<string>, more: set<string>)
    requires less <= more && TypedMembers(members, types, more).Ok?
    ensures TypedMembers(members, types, less) == TypedMembers(members, types, more)
    decreases types.Keys - more, |members| + LongestType(members), 1
  {
    hide WholeType, MatchArray;
    if members != [] {
      FewerActive(members[0].typeName, types, less, more);
      FewerActiveMembers(members[1..], types, less, more);
    }
  }

  /** Child `i` is the tree of member `i`'s type under member `i`'s name. */
  ghost predicate MemberTree(types: Types, active: set<string>, m: Member, t: AbiType) {
    TypedBase(m.typeName, types, active).Ok? && t == TypedBase(m.typeName, types, active).value.Rename(m.name)
  }

  lemma {:induction false} TypedMembersAre(members: seq<Member>, types: Types, active: set<string>)
    requires TypedMembers(members, types, active).Ok?
    ensures var ts := TypedMembers(members, types, active).value;
            && |ts| == |members|
            && forall i :: 0 <= i < |ts| ==> MemberTree(types, {}, members[i], ts[i])
    decreases |members|
  {
    hide TypedBase;
    if members != [] {
      FewerActive(members[0].typeName, types, {}, active);
      TypedMembersAre(members[1..], types, active);
      assert forall i :: 1 <= i < |members| ==> members[i] == members[1..][i - 1];
    }
  }

  /** A struct's tree has its members' own trees, each under its name, in order. */
  lemma StructTree(s: string, types: Types, active: set<string>)
    requires MatchArray(s).None? && s in types && TypedBase(s, types, active).Ok?
    ensures var t := TypedBase(s, types, active).value;
            && t.Tuple? && t.name == "" && |t.members| == |types[s]|
            && forall i :: 0 <= i < |t.members| ==> MemberTree(types, {}, types[s][i], t.members[i])
  {
    hide MemberTree, MatchArray;
    TypedMembersAre(types[s], types, active + {s});
  }
}
