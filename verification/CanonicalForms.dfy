/** Two canonical forms of a function signature: the clear-sign catalog's split,
    alias and rejoin (keepkeylib/clearsign_abi.py), and the compiler's parse and
    print (keepkeylib/erc7730_compiler.py). */
module CanonicalForms {
  import opened Wrappers
  import opened Text
  import opened AbiTypes
  import opened SignatureParser
  import opened SignatureBlanks
  import SignatureRoundTrip

  // ---------------------------------------------------------------- the aliases

  predicate IsWord(c: char) {
    IsLetter(c) || IsDigit(c) || c == '_'
  }

  /** The length of the word at the front. */
  function WordPrefix(s: string): (n: nat)
    ensures n <= |s| && (forall i :: 0 <= i < n ==> IsWord(s[i])) && (n < |s| ==> !IsWord(s[n]))
  {
    if s != "" && IsWord(s[0]) then 1 + WordPrefix(s[1..]) else 0
  }

  function AliasOf(word: string): string {
    if word == "uint" then "uint256" else if word == "int" then "int256" else word
  }

  /** `_INTEGER_ALIAS.sub`: whole words only. */
  function Aliased(s: string): string
    decreases |s|
  {
    if s == "" then ""
    else if IsWord(s[0]) then AliasOf(s[..WordPrefix(s)]) + Aliased(s[WordPrefix(s)..])
    else [s[0]] + Aliased(s[1..])
  }

  lemma {:induction false} WordPrefixOf(word: string, rest: string)
    requires (forall i :: 0 <= i < |word| ==> IsWord(word[i])) && (rest == "" || !IsWord(rest[0]))
    ensures WordPrefix(word + rest) == |word|
  {
    if word == "" {
      assert word + rest == rest;
    } else {
      assert (word + rest)[1..] == word[1..] + rest;
      WordPrefixOf(word[1..], rest);
    }
  }

  lemma AliasedNothing()
    ensures Aliased("") == ""
  {
  }

  lemma AliasedWord(word: string, rest: string)
    requires word != "" && (forall i :: 0 <= i < |word| ==> IsWord(word[i])) && (rest == "" || !IsWord(rest[0]))
    ensures Aliased(word + rest) == AliasOf(word) + Aliased(rest)
  {
    WordPrefixOf(word, rest);
    assert (word + rest)[..|word|] == word && (word + rest)[|word|..] == rest;
  }

  lemma AliasedMark(c: char, rest: string)
    requires !IsWord(c)
    ensures Aliased([c] + rest) == [c] + Aliased(rest)
  {
    assert ([c] + rest)[1..] == rest;
  }

  /** A mark between two texts keeps their words apart. */
  lemma {:induction false} AliasedAround(a: string, c: char, b: string)
    requires !IsWord(c)
    ensures Aliased(a + [c] + b) == Aliased(a) + [c] + Aliased(b)
    decreases |a|, 1
  {
    if a == "" {
      assert a + [c] + b == [c] + b;
      AliasedMark(c, b);
    } else if IsWord(a[0]) {
      AliasedAroundWord(a, c, b);
    } else {
      assert (a + [c] + b)[1..] == a[1..] + [c] + b;
      AliasedAround(a[1..], c, b);
    }
  }

  lemma {:induction false} AliasedAroundWord(a: string, c: char, b: string)
    requires !IsWord(c) && a != "" && IsWord(a[0])
    ensures Aliased(a + [c] + b) == Aliased(a) + [c] + Aliased(b)
    decreases |a|, 0
  {
    hide Aliased;
    var word, rest := a[..WordPrefix(a)], a[WordPrefix(a)..];
    assert a == word + rest && a + [c] + b == word + (rest + [c] + b);
    AliasedWord(word, rest);
    AliasedWord(word, rest + [c] + b);
    AliasedAround(rest, c, b);
    assert AliasOf(word) + (Aliased(rest) + [c] + Aliased(b)) == (AliasOf(word) + Aliased(rest)) + [c] + Aliased(b);
  }

  lemma {:induction false} AliasedKeepsMarks(s: string, c: char)
    requires !IsWord(c) && c !in s
    ensures c !in Aliased(s)
    decreases |s|
  {
    if s != "" {
      if IsWord(s[0]) {
        AliasedKeepsMarks(s[WordPrefix(s)..], c);
        assert c !in AliasOf(s[..WordPrefix(s)]);
      } else {
        AliasedKeepsMarks(s[1..], c);
      }
    }
  }

  // --------------------------------------------------------- split and rejoin

  function Join(parts: seq<string>): string {
    if parts == [] then "" else if |parts| == 1 then parts[0] else parts[0] + [','] + Join(parts[1..])
  }

  function AliasedAll(parts: seq<string>): (r: seq<string>)
    ensures |r| == |parts| && forall i :: 0 <= i < |r| ==> r[i] == Aliased(parts[i])
  {
    seq(|parts|, i requires 0 <= i < |parts| => Aliased(parts[i]))
  }

  function StripAll(parts: seq<string>): (r: seq<string>)
    ensures |r| == |parts| && forall i :: 0 <= i < |r| ==> r[i] == Strip(parts[i])
  {
    seq(|parts|, i requires 0 <= i < |parts| => Strip(parts[i]))
  }

  lemma NoParameters()
    ensures CanonicalList([]) == ""
  {
  }

  lemma JoinNothing()
    ensures Join(AliasedAll([])) == ""
  {
  }

  lemma {:induction false} JoinSplit(s: string)
    ensures Join(Split(s, ',')) == s
    decreases |s|
  {
    var n := IndexOf(s, ',');
    if n < |s| {
      JoinSplit(s[n + 1..]);
      assert Split(s, ',')[1..] == Split(s[n + 1..], ',');
      assert s == s[..n] + [','] + s[n + 1..];
    }
  }

  lemma {:induction false} IndexOfFirst(a: string, c: char, b: string)
    requires c !in a
    ensures IndexOf(a + [c] + b, c) == |a|
  {
    if a == "" {
      assert a + [c] + b == [c] + b;
    } else {
      assert (a + [c] + b)[1..] == a[1..] + [c] + b;
      IndexOfFirst(a[1..], c, b);
    }
  }

  lemma {:induction false} IndexOfNone(a: string, c: char)
    requires c !in a
    ensures IndexOf(a, c) == |a|
  {
    if a != "" {
      IndexOfNone(a[1..], c);
    }
  }

  /** Replacing aliases commutes with splitting. */
  lemma {:induction false} SplitAliased(s: string)
    ensures Split(Aliased(s), ',') == AliasedAll(Split(s, ','))
    decreases |s|
  {
    hide Aliased, IndexOf;
    var n := IndexOf(s, ',');
    var first := s[..n];
    assert ',' !in first;
    AliasedKeepsMarks(first, ',');
    if n == |s| {
      assert first == s;
      IndexOfNone(Aliased(s), ',');
    } else {
      var rest := s[n + 1..];
      assert s == first + [','] + rest;
      AliasedAround(first, ',', rest);
      IndexOfFirst(Aliased(first), ',', Aliased(rest));
      var t := Aliased(s);
      assert t[..|Aliased(first)|] == Aliased(first) && t[|Aliased(first)| + 1..] == Aliased(rest);
      SplitAliased(rest);
      assert AliasedAll([first] + Split(rest, ',')) == [Aliased(first)] + AliasedAll(Split(rest, ','));
    }
  }

  // ------------------------------------------------------------- clear-sign side

  /** `parse_signature`. */
  function ClearsignParse(signature: string): Result<(string, seq<string>)> {
    var s := Strip(signature);
    var n := IdentPrefix(s);
    if s == "" || !IdentStart(s[0]) || n + 2 > |s| || s[n] != '(' || s[|s| - 1] != ')' || '\n' in s[n + 1..|s| - 1]
      then Raised
    else
      var rest := s[n + 1..|s| - 1];
      var types := if Strip(rest) == "" then [] else StripAll(Split(rest, ','));
      if "" in types then Raised else Ok((s[..n], AliasedAll(types)))
  }

  /** `canonical_signature`. */
  function ClearsignCanonical(signature: string): Result<string> {
    var (name, types) :- ClearsignParse(signature);
    Ok(name + "(" + Join(types) + ")")
  }

  lemma {:induction false} StripNothing(s: string)
    requires NoSpace(s)
    ensures Strip(s) == s && SkipSpace(s) == s
  {
  }

  lemma {:induction false} SplitNoSpace(s: string, i: nat)
    requires NoSpace(s) && i < |Split(s, ',')|
    ensures NoSpace(Split(s, ',')[i])
    decreases |s|
  {
    var n := IndexOf(s, ',');
    if n < |s| && i > 0 {
      SplitNoSpace(s[n + 1..], i - 1);
    }
  }

  /** Without white space and empty pieces, splitting, aliasing and rejoining is
      aliasing. */
  lemma PiecesRejoin(rest: string)
    requires NoSpace(rest) && rest != "" && "" !in Split(Aliased(rest), ',')
    ensures StripAll(Split(rest, ',')) == Split(rest, ',') && "" !in Split(rest, ',')
    ensures Join(AliasedAll(Split(rest, ','))) == Aliased(rest)
  {
    var parts := Split(rest, ',');
    forall i | 0 <= i < |parts| ensures Strip(parts[i]) == parts[i] {
      SplitNoSpace(rest, i);
      StripNothing(parts[i]);
    }
    SplitAliased(rest);
    JoinSplit(Aliased(rest));
    AliasedNothing();
    forall i | 0 <= i < |parts| ensures parts[i] != "" {
      assert AliasedAll(parts)[i] in Split(Aliased(rest), ',');
    }
  }

  // -------------------------------------------------------------- compiler side

  /** No white space or underscore, no numeral with a leading zero, no array
      length 65535 (which the compiler takes for a dynamic one). */
  predicate PlainAt(s: string, i: nat)
    requires i < |s|
  {
    && !IsSpace(s[i]) && s[i] != '_'
    && (s[i] == '0' && (i == 0 || !IsDigit(s[i - 1])) ==> i + 1 == |s| || !IsDigit(s[i + 1]))
    && !(i + 7 <= |s| && s[i..i + 7] == "[65535]")
  }

  predicate Plain(s: string) {
    forall i :: 0 <= i < |s| ==> PlainAt(s, i)
  }

  lemma PlainDrop(s: string, k: nat)
    requires Plain(s) && k <= |s| && (k == 0 || k == |s| || !IsDigit(s[k - 1]) || !IsDigit(s[k]))
    ensures Plain(s[k..])
  {
    var t := s[k..];
    forall i | 0 <= i < |t| ensures PlainAt(t, i) {
      assert PlainAt(s, k + i) && t[i] == s[k + i];
      if i + 7 <= |t| {
        assert t[i..i + 7] == s[k + i..k + i + 7];
      }
    }
  }

  lemma PlainTake(s: string, k: nat)
    requires Plain(s) && k <= |s|
    ensures Plain(s[..k])
  {
    var t := s[..k];
    forall i | 0 <= i < |t| ensures PlainAt(t, i) {
      assert PlainAt(s, i) && t[i] == s[i];
      if i + 7 <= |t| {
        assert t[i..i + 7] == s[i..i + 7];
      }
    }
  }

  lemma PlainNoSpace(s: string)
    requires Plain(s)
    ensures NoSpace(s) && SkipSpace(s) == s
  {
    forall i | 0 <= i < |s| ensures !IsSpace(s[i]) {
      assert PlainAt(s, i);
    }
    StripNothing(s);
  }

  /** The digits behind something else are a canonical numeral. */
  lemma PlainDigits(s: string, k: nat, digits: string)
    requires Plain(s) && k + |digits| <= |s| && s[k..k + |digits|] == digits && AllDigits(digits) && digits != ""
    requires k > 0 && !IsDigit(s[k - 1]) && (k + |digits| < |s| ==> !IsDigit(s[k + |digits|]))
    ensures IsCanonicalNumeral(digits) && digits == Decimal(DigitsValue(digits))
  {
    assert PlainAt(s, k) && s[k] == digits[0];
    assert |digits| > 1 ==> s[k..k + |digits|][1] == s[k + 1];
    CanonicalNumeralIsDecimal(digits);
  }

  /** The digits of a sized word. */
  lemma SizedWord(token: string, word: string)
    requires Plain(token) && StartsWith(token, word) && word != "" && IsLetter(word[|word| - 1])
    requires NatOf(token[|word|..]).Ok?
    ensures var digits := token[|word|..];
            digits == Decimal(NatOf(digits).value) && AllDigits(digits) && token == word + digits
  {
    var digits := token[|word|..];
    forall i | 0 <= i < |digits| ensures IsDigit(digits[i]) {
      assert PlainAt(token, |word| + i) && token[|word| + i] == digits[i];
    }
    assert token[|word|..|word| + |digits|] == digits;
    PlainDigits(token, |word|, digits);
  }

  lemma AllWords(word: string, digits: string)
    requires (forall i :: 0 <= i < |word| ==> IsLetter(word[i])) && AllDigits(digits)
    ensures forall i :: 0 <= i < |word + digits| ==> IsWord((word + digits)[i])
  {
  }

  lemma Decimal256()
    ensures Decimal(256) == "256"
  {
    assert Decimal(25) == "25";
  }

  /** An elementary token prints as itself, its alias replaced. */
  lemma TokenAgrees(token: string)
    requires Plain(token) && ElementaryType(token).Ok?
    ensures AliasOf(token) == Canonical(ElementaryType(token).value)
    ensures token != "" && forall i :: 0 <= i < |token| ==> IsWord(token[i])
  {
    hide Plain, Decimal, NatOf;
    if StartsWith(token, "uint") {
      UintAgrees(token);
    } else if StartsWith(token, "int") {
      IntAgrees(token);
    } else if StartsWith(token, "bytes") && token != "bytes" {
      SizedWord(token, "bytes");
      AllWords("bytes", token[5..]);
      assert token[0] == 'b';
    }
  }

  lemma UintAgrees(token: string)
    requires Plain(token) && StartsWith(token, "uint") && ElementaryType(token).Ok?
    ensures AliasOf(token) == Canonical(ElementaryType(token).value)
    ensures forall i :: 0 <= i < |token| ==> IsWord(token[i])
  {
    hide Plain, Decimal, NatOf;
    Nat256();
    if token[4..] == "" {
      assert token == "uint";
    } else {
      SizedWord(token, "uint");
      AllWords("uint", token[4..]);
      assert token[0] == 'u' && |token| > 4;
    }
  }

  lemma IntAgrees(token: string)
    requires Plain(token) && StartsWith(token, "int") && !StartsWith(token, "uint") && ElementaryType(token).Ok?
    ensures AliasOf(token) == Canonical(ElementaryType(token).value)
    ensures forall i :: 0 <= i < |token| ==> IsWord(token[i])
  {
    hide Plain, Decimal, NatOf;
    Nat256();
    if token[3..] == "" {
      assert token == "int";
    } else {
      SizedWord(token, "int");
      AllWords("int", token[3..]);
      assert token[0] == 'i' && |token| > 3;
    }
  }

  lemma Nat256()
    ensures NatOf("256") == Ok(256) && Decimal(256) == "256"
  {
    Decimal256();
    DecimalValue(256);
  }

  /** A bracket that parses: its digits and what follows. */
  lemma BracketTaken(s: string) returns (digits: string, rest: string)
    requires Plain(s) && s != "" && s[0] == '[' && ParseBracket(s[1..]).Ok?
    ensures s == ['['] + (digits + ([']'] + rest)) && AllDigits(digits) && Plain(rest)
    ensures ParseBracket(s[1..]).value == (if digits == "" then ABSENT else DigitsValue(digits), rest)
  {
    hide Plain, Decimal, DigitsValue, DigitPrefix;
    var body := s[1..];
    PlainDrop(s, 1);
    PlainNoSpace(body);
    var n := DigitPrefix(body);
    digits := body[..n];
    PlainDrop(body, n);
    PlainNoSpace(body[n..]);
    rest := body[n..][1..];
    assert rest == body[n + 1..] && body[n] == ']';
    PlainDrop(body, n + 1);
  }

  lemma BracketText(digits: string, rest: string)
    requires AllDigits(digits)
    ensures Aliased(['['] + (digits + ([']'] + rest))) == ("[" + digits + "]") + Aliased(rest)
  {
    hide Aliased;
    AliasedMark('[', digits + ([']'] + rest));
    AliasedMark(']', rest);
    if digits == "" {
      assert digits + ([']'] + rest) == [']'] + rest;
    } else {
      AliasedWord(digits, [']'] + rest);
      assert AliasOf(digits) == digits;
    }
  }

  /** One bracket prints as it was written. */
  lemma BracketAgrees(s: string)
    requires Plain(s) && s != "" && s[0] == '[' && ParseBracket(s[1..]).Ok?
    ensures var (length, rest) := ParseBracket(s[1..]).value;
            Plain(rest) && |rest| < |s| && Aliased(s) == Dimension(length) + Aliased(rest)
  {
    hide Plain, Aliased, Decimal, DigitsValue, ParseBracket;
    var digits, rest := BracketTaken(s);
    BracketText(digits, rest);
    if digits != "" {
      assert s[1..1 + |digits|] == digits;
      PlainDigits(s, 1, digits);
      NotAbsent(s, digits, rest);
    }
  }

  lemma NotAbsent(s: string, digits: string, rest: string)
    requires Plain(s) && s == ['['] + (digits + ([']'] + rest)) && digits == Decimal(DigitsValue(digits))
    ensures DigitsValue(digits) != ABSENT
  {
    hide Plain;
    DecimalAbsent();
    AbsentText(s, digits, rest);
    PlainFirst(s);
  }

  lemma PlainFirst(s: string)
    requires Plain(s) && s != ""
    ensures PlainAt(s, 0)
  {
  }

  lemma AbsentText(s: string, digits: string, rest: string)
    requires s == ['['] + (digits + ([']'] + rest))
    ensures digits == "65535" ==> 7 <= |s| && s[0..7] == "[65535]"
  {
  }

  lemma DecimalAbsent()
    ensures Decimal(65535) == "65535"
  {
    assert Decimal(65) == "65";
    assert Decimal(655) == "655";
    assert Decimal(6553) == "6553";
  }

  lemma {:induction false} SuffixesAgree(t: AbiType, s: string)
    requires Plain(s) && ParseSuffixes(t, s).Ok?
    ensures var (u, rest) := ParseSuffixes(t, s).value;
            && Plain(rest) && |rest| <= |s| && Canonical(t) + Aliased(s) == Canonical(u) + Aliased(rest)
            && (t.name == "" ==> (Erase(u) == u <==> Erase(t) == t))
    decreases |s|
  {
    hide ParseBracket, Plain, Aliased;
    PlainNoSpace(s);
    if s != "" && s[0] == '[' {
      BracketAgrees(s);
      var (length, rest) := ParseBracket(s[1..]).value;
      SuffixesAgree(Array("", t, length), rest);
      assert Canonical(t) + (Dimension(length) + Aliased(rest)) == (Canonical(t) + Dimension(length)) + Aliased(rest);
    }
  }

  /** The text is what is printed in front of the rest; with names in it, it is
      longer. */
  predicate Prints(unnamed: bool, text: string, printed: string, rest: string) {
    if unnamed then text == printed + rest else |text| > |printed| + |rest|
  }

  /** What the parser took from the text prints as that text, its aliases
      replaced, exactly when no member is named. */
  lemma {:induction false} TypeAgrees(s: string)
    requires Plain(s) && ParseType(s).Ok?
    ensures var (t, rest) := ParseType(s).value;
            Plain(rest) && |rest| < |s| && Prints(Erase(t) == t, Aliased(s), Canonical(t), Aliased(rest))
    decreases |s|, 1
  {
    hide Plain, Aliased, ParseSuffixes, ParseOptionalMembers, ElementaryType, OptionalName;
    PlainNoSpace(s);
    if s != "" && s[0] == '(' {
      TupleAgrees(s);
    } else {
      var (token, rest) := RequiredName(s).value;
      WordAgrees(s);
      ElementaryUnnamed(token);
      SuffixesAgree(ElementaryType(token).value, rest);
    }
  }

  lemma ElementaryUnnamed(token: string)
    requires ElementaryType(token).Ok?
    ensures var t := ElementaryType(token).value; Erase(t) == t && t.name == ""
  {
  }

  /** A leading token. */
  lemma WordAgrees(s: string)
    requires Plain(s) && RequiredName(s).Ok? && ElementaryType(RequiredName(s).value.0).Ok?
    ensures var (token, rest) := RequiredName(s).value;
            Plain(rest) && |rest| < |s| && Aliased(s) == Canonical(ElementaryType(token).value) + Aliased(rest)
  {
    hide ElementaryType, Aliased, Plain, Canonical, RequiredName;
    var (token, rest) := RequiredName(s).value;
    PlainNoSpace(s);
    TokenTaken(s);
    PlainTake(s, |token|);
    PlainDrop(s, |token|);
    TokenAgrees(token);
    AliasedWord(token, rest);
  }

  lemma TokenTaken(s: string)
    requires RequiredName(s).Ok? && SkipSpace(s) == s
    ensures var (token, rest) := RequiredName(s).value;
            && |token| <= |s| && token == s[..|token|] && rest == s[|token|..] && s == token + rest && token != ""
            && (rest == "" || !IdentChar(rest[0]))
  {
    hide SkipSpace, IdentPrefix, IdentStart, IdentChar, IsIdentifier;
    var n := IdentPrefix(s);
    assert OptionalName(s) == (s[..n], s[n..]);
    assert s == s[..n] + s[n..];
  }

  lemma {:induction false} TupleAgrees(s: string)
    requires Plain(s) && s != "" && s[0] == '(' && ParseType(s).Ok?
    ensures var (t, rest) := ParseType(s).value;
            Plain(rest) && |rest| < |s| && Prints(Erase(t) == t, Aliased(s), Canonical(t), Aliased(rest))
    decreases |s|, 0
  {
    hide Plain, Aliased, ParseSuffixes, ParseOptionalMembers;
    PlainNoSpace(s);
    PlainDrop(s, 1);
    var (members, after) := ParseOptionalMembers(s[1..]).value;
    OptionalMembersAgree(s[1..]);
    PlainNoSpace(after);
    PlainDrop(after, 1);
    var rest := after[1..];
    SuffixesAgree(Tuple("", members), rest);
    assert s == ['('] + s[1..] && after == [')'] + rest;
    AliasedMark('(', s[1..]);
    AliasedMark(')', rest);
    assert ['('] + (CanonicalList(members) + ([')'] + Aliased(rest))) == Canonical(Tuple("", members)) + Aliased(rest);
  }

  lemma {:induction false} OptionalMembersAgree(s: string)
    requires Plain(s) && ParseOptionalMembers(s).Ok?
    ensures var (ts, rest) := ParseOptionalMembers(s).value;
            Plain(rest) && |rest| <= |s| && Prints(EraseList(ts) == ts, Aliased(s), CanonicalList(ts), Aliased(rest))
    decreases |s|, 4
  {
    hide Plain, Aliased, ParseMembers;
    PlainNoSpace(s);
    if !(s != "" && s[0] == ')') {
      MembersAgree(s, []);
      var (ts, rest) := ParseMembers(s, []).value;
      assert ts[0..] == ts;
    }
  }

  /** The members read behind those in `acc`. */
  lemma {:induction false} MembersAgree(s: string, acc: seq<AbiType>)
    requires Plain(s) && ParseMembers(s, acc).Ok?
    ensures var (ts, rest) := ParseMembers(s, acc).value;
            && Plain(rest) && |rest| < |s| && |acc| < |ts| && ts[..|acc|] == acc
            && Prints(EraseList(ts[|acc|..]) == ts[|acc|..], Aliased(s), CanonicalList(ts[|acc|..]), Aliased(rest))
    decreases |s|, 3
  {
    hide Plain, Aliased, ParseMember;
    var (member, rest) := ParseMember(s).value;
    MemberAgrees(s);
    if rest != "" && rest[0] == ',' {
      PlainDrop(rest, 1);
      MembersAgree(rest[1..], acc + [member]);
      var (ts, end) := ParseMembers(rest[1..], acc + [member]).value;
      MoreMembers(s, acc, member, rest, ts, end);
    } else {
      assert (acc + [member])[|acc|..] == [member] && (acc + [member])[..|acc|] == acc;
      assert EraseList([member]) == [Erase(member)] + EraseList([member][1..]);
    }
  }

  lemma MoreMembers(s: string, acc: seq<AbiType>, member: AbiType, rest: string, ts: seq<AbiType>, end: string)
    requires rest != "" && rest[0] == ',' && |acc| + 1 < |ts| && ts[..|acc| + 1] == acc + [member]
    requires Prints(Erase(member) == member, Aliased(s), Canonical(member), Aliased(rest))
    requires Prints(EraseList(ts[|acc| + 1..]) == ts[|acc| + 1..], Aliased(rest[1..]), CanonicalList(ts[|acc| + 1..]),
                    Aliased(end))
    ensures ts[..|acc|] == acc
    ensures Prints(EraseList(ts[|acc|..]) == ts[|acc|..], Aliased(s), CanonicalList(ts[|acc|..]), Aliased(end))
  {
    hide Aliased;
    var mine := ts[|acc|..];
    assert ts[..|acc|] == ts[..|acc| + 1][..|acc|] == acc;
    assert mine[0] == ts[..|acc| + 1][|acc|] == member && mine[1..] == ts[|acc| + 1..];
    assert EraseList(mine)[0] == Erase(member) && EraseList(mine)[1..] == EraseList(mine[1..]);
    assert mine == [member] + mine[1..];
    assert rest == [','] + rest[1..];
    AliasedMark(',', rest[1..]);
    assert CanonicalList(mine) == Canonical(member) + ([','] + CanonicalList(mine[1..]));
    if EraseList(mine) == mine {
      assert Canonical(member) + ([','] + (CanonicalList(mine[1..]) + Aliased(end)))
          == (Canonical(member) + ([','] + CanonicalList(mine[1..]))) + Aliased(end);
    }
  }

  lemma {:induction false} MemberAgrees(s: string)
    requires Plain(s) && ParseMember(s).Ok?
    ensures var (t, rest) := ParseMember(s).value;
            Plain(rest) && |rest| < |s| && Prints(Erase(t) == t, Aliased(s), Canonical(t), Aliased(rest))
    decreases |s|, 2
  {
    hide Plain, Aliased, ParseType;
    var (t, after) := ParseType(s).value;
    TypeAgrees(s);
    ParsedTypeValid(s);
    PlainNoSpace(after);
    var (name, rest) := OptionalName(after);
    NameAgrees(after);
    PlainNoSpace(rest);
    if name == "" {
      assert rest == after && t.Rename("") == t;
    } else {
      NameAliased(after);
      assert Erase(t.Rename(name)).name == "";
      assert Canonical(t.Rename(name)) == Canonical(t);
    }
  }

  /** A name leaves something behind when aliases are replaced. */
  lemma NameAliased(s: string)
    requires Plain(s) && OptionalName(s).0 != ""
    ensures |Aliased(s)| > |Aliased(OptionalName(s).1)|
  {
    hide Aliased, Plain;
    PlainNoSpace(s);
    var (name, rest) := OptionalName(s);
    var n := IdentPrefix(s);
    assert (name, rest) == (s[..n], s[n..]);
    assert s == s[..n] + s[n..];
    AliasedLonger(name, rest);
  }

  /** No text gets shorter. */
  lemma {:induction false} AliasedLonger(a: string, rest: string)
    requires rest == "" || !IsWord(rest[0])
    ensures |Aliased(a + rest)| >= |a| + |Aliased(rest)|
    decreases |a|
  {
    hide Aliased;
    if a == "" {
      assert a + rest == rest;
    } else if IsWord(a[0]) {
      var n := WordPrefix(a);
      assert a + rest == a[..n] + (a[n..] + rest);
      AliasedWord(a[..n], a[n..] + rest);
      AliasedLonger(a[n..], rest);
    } else {
      assert a + rest == [a[0]] + (a[1..] + rest);
      AliasedMark(a[0], a[1..] + rest);
      AliasedLonger(a[1..], rest);
    }
  }

  lemma NameAgrees(s: string)
    requires Plain(s)
    ensures Plain(OptionalName(s).1) && (OptionalName(s).0 == "" ==> OptionalName(s).1 == s)
  {
    PlainNoSpace(s);
    if s != "" && IdentStart(s[0]) {
      PlainDrop(s, IdentPrefix(s));
    }
  }

  // ------------------------------------------------------------------ no empty piece

  /** The text has no comma at an end and no two together. */
  predicate Separated(s: string) {
    && s != "" && s[0] != ',' && s[|s| - 1] != ','
    && forall i :: 0 <= i < |s| - 1 ==> !(s[i] == ',' && s[i + 1] == ',')
  }

  lemma {:induction false} CanonicalSeparated(t: AbiType)
    requires Valid(t)
    ensures Separated(Canonical(t))
    decreases t, 1
  {
    match t
    case Leaf(_, kind, size) =>
      SignatureRoundTrip.LeafTextIsIdentifier(kind, size);
    case Array(_, element, length) =>
      CanonicalSeparated(element);
      assert forall i :: 0 <= i < |Dimension(length)| ==> Dimension(length)[i] != ',';
    case Tuple(_, members) =>
      if members != [] {
        CanonicalListSeparated(members);
      }
  }

  lemma {:induction false} CanonicalListSeparated(ts: seq<AbiType>)
    requires AllValid(ts) && ts != []
    ensures Separated(CanonicalList(ts))
    decreases ts, 0
  {
    CanonicalSeparated(ts[0]);
    if |ts| > 1 {
      CanonicalListSeparated(ts[1..]);
    }
  }

  lemma {:induction false} SeparatedPieces(s: string)
    requires Separated(s)
    ensures "" !in Split(s, ',')
    decreases |s|
  {
    var n := IndexOf(s, ',');
    if n < |s| {
      var rest := s[n + 1..];
      assert Separated(rest) by {
        forall i | 0 <= i < |rest| - 1 ensures !(rest[i] == ',' && rest[i + 1] == ',') {
          assert rest[i] == s[n + 1 + i] && rest[i + 1] == s[n + 1 + i + 1];
        }
      }
      SeparatedPieces(rest);
    }
  }

  // --------------------------------------------------------------------- together

  /** The first word or mark, and its replacement. */
  lemma AliasedFirst(s: string) returns (n: nat, first: string)
    requires s != ""
    ensures 0 < n <= |s| && Aliased(s) == first + Aliased(s[n..])
    ensures first != "" && (s[n - 1] == ')' <==> first[|first| - 1] == ')')
  {
    n := if IsWord(s[0]) then WordPrefix(s) else 1;
    first := if IsWord(s[0]) then AliasOf(s[..n]) else [s[0]];
  }

  lemma {:induction false} AliasedLast(s: string)
    requires s != ""
    ensures Aliased(s) != "" && (s[|s| - 1] == ')' <==> Aliased(s)[|Aliased(s)| - 1] == ')')
    decreases |s|
  {
    hide Aliased;
    var n, first := AliasedFirst(s);
    if n < |s| {
      AliasedLast(s[n..]);
    } else {
      AliasedNothing();
      assert s[n..] == "";
    }
  }

  /** Where the parameter list stands in a function's text. */
  lemma FunctionText(s: string)
    requires ParseFunction(s).Ok? && NoSpace(s)
    ensures var name := ParseFunction(s).value.0;
            && |name| < |s| && name == s[..|name|] && IdentPrefix(s) == |name| && s[|name|] == '('
            && ParseOptionalMembers(s[|name| + 1..]).Ok?
            && ParseOptionalMembers(s[|name| + 1..]).value.0 == ParseFunction(s).value.1.members
            && var after := ParseOptionalMembers(s[|name| + 1..]).value.1;
               TakeChar(after, ')').Ok? && SkipSpace(TakeChar(after, ')').value) == ""
  {
    hide ParseOptionalMembers;
    StripNothing(s);
    var (name, s1) := RequiredName(s).value;
    StripNothing(s1);
  }

  /** The parameter list, its aliases replaced, is what the compiler prints. */
  lemma ParametersAgree(s: string)
    requires ParseFunction(s).Ok? && NoSpace(s) && Plain(s[|ParseFunction(s).value.0| + 1..])
    requires Erase(ParseFunction(s).value.1) == ParseFunction(s).value.1
    ensures var (name, root) := ParseFunction(s).value;
            && |name| + 2 <= |s| && s[|s| - 1] == ')' && Aliased(s[|name| + 1..|s| - 1]) == CanonicalList(root.members)
  {
    hide Plain, Aliased, ParseOptionalMembers, ParseFunction;
    FunctionText(s);
    var (name, root) := ParseFunction(s).value;
    var inner := s[|name| + 1..];
    OptionalMembersAgree(inner);
    var (members, after) := ParseOptionalMembers(inner).value;
    PlainNoSpace(after);
    PlainDrop(after, 1);
    PlainNoSpace(after[1..]);
    assert after == [')'] + "";
    AliasedMark(')', "");
    AliasedNothing();
    assert Aliased(inner) == CanonicalList(members) + [')'];
    AliasedLast(inner);
    var body := inner[..|inner| - 1];
    assert inner == body + [')'] + "" && body == s[|name| + 1..|s| - 1];
    AliasedAround(body, ')', "");
    assert Aliased(body) + [')'] + "" == Aliased(body) + [')'];
    assert Aliased(body) == (Aliased(body) + [')'])[..|Aliased(body)|];
  }

  /** On every signature without white space and names that the compiler's parser
      accepts, with canonical numerals and no array length 65535, both canonical
      forms are the same text, so both selectors hash the same. */
  lemma FormsAgree(s: string)
    requires ParseFunction(s).Ok? && NoSpace(s) && Plain(s[|ParseFunction(s).value.0| + 1..])
    requires Erase(ParseFunction(s).value.1) == ParseFunction(s).value.1
    ensures var (name, root) := ParseFunction(s).value;
            ClearsignCanonical(s) == Ok(SignatureRoundTrip.CanonicalSignature(name, root))
  {
    hide Plain, Aliased, ParseOptionalMembers, ParseFunction, Split, Separated, Strip, Join, StripAll, AliasedAll,
      CanonicalList, Erase;
    var (name, root) := ParseFunction(s).value;
    FunctionText(s);
    ParametersAgree(s);
    StripNothing(s);
    var rest := s[|name| + 1..|s| - 1];
    StripNothing(rest);
    if rest == "" {
      AliasedNothing();
      JoinNothing();
    } else {
      AliasedLast(rest);
      NoParameters();
      ParsedFunctionValid(s);
      CanonicalListSeparated(root.members);
      SeparatedPieces(Aliased(rest));
      PiecesRejoin(rest);
    }
  }
}
