/** Exactly when the two canonical forms of a signature agree
    (keepkeylib/clearsign_abi.py, keepkeylib/erc7730_compiler.py): blanks around
    the commas do not matter, numerals and lengths do. */
module TidySignatures {
  import opened Wrappers
  import opened Text
  import opened AbiTypes
  import opened SignatureParser
  import opened SignatureBlanks
  import opened CanonicalForms
  import SignatureRoundTrip

  // -------------------------------------------------------------------- blanks

  lemma {:induction false} StripRightPrefix(s: string)
    ensures StripRight(s) <= s && Unspaced(StripRight(s)) == Unspaced(s)
    ensures forall i :: |StripRight(s)| <= i < |s| ==> IsSpace(s[i])
    decreases |s|
  {
    if s != "" && IsSpace(s[|s| - 1]) {
      var n := |s| - 1;
      StripRightPrefix(s[..n]);
      assert s == s[..n] + [s[n]];
      UnspacedJoin(s[..n], [s[n]]);
    }
  }

  lemma StripUnspaced(s: string)
    ensures Unspaced(Strip(s)) == Unspaced(s) && Strip(s) <= SkipSpace(s)
  {
    UnspacedSkip(s);
    StripRightPrefix(SkipSpace(s));
  }

  lemma {:induction false} LooseBlank(s: string, b: char)
    requires Loose(s) && IsSpace(b)
    ensures Loose(s + [b])
  {
    if s == "" {
      assert s + [b] == [b] && [b][1..] == "";
    } else {
      LooseBlank(s[1..], b);
      assert (s + [b])[1..] == s[1..] + [b];
      SkipBlank(s[1..], b);
    }
  }

  lemma {:induction false} SkipBlank(s: string, b: char)
    requires IsSpace(b)
    ensures SkipSpace(s + [b]) == if SkipSpace(s) == "" then "" else SkipSpace(s) + [b]
  {
    if s == "" {
      assert s + [b] == [b] && [b][1..] == "";
    } else if IsSpace(s[0]) {
      assert (s + [b])[1..] == s[1..] + [b];
      SkipBlank(s[1..], b);
    }
  }

  lemma {:induction false} LooseUnstripRight(s: string)
    requires Loose(StripRight(s))
    ensures Loose(s)
    decreases |s|
  {
    if s != "" && IsSpace(s[|s| - 1]) {
      var n := |s| - 1;
      LooseUnstripRight(s[..n]);
      LooseBlank(s[..n], s[n]);
      assert s == s[..n] + [s[n]];
    }
  }

  lemma {:induction false} LooseUnskip(s: string)
    requires Loose(SkipSpace(s))
    ensures Loose(s)
  {
    if s != "" && IsSpace(s[0]) {
      LooseUnskip(s[1..]);
    }
  }

  /** Blanks at the ends part no words. */
  lemma LooseUnstrip(s: string)
    requires Loose(Strip(s))
    ensures Loose(s)
  {
    LooseUnstripRight(SkipSpace(s));
    LooseUnskip(s);
  }

  lemma {:induction false} LooseNoSpace(s: string)
    requires NoSpace(s)
    ensures Loose(s)
  {
    if s != "" {
      LooseNoSpace(s[1..]);
    }
  }

  lemma {:induction false} LooseJoin(a: string, c: char, b: string)
    requires Loose(a) && Loose(b) && !IdentChar(c) && !IsSpace(c)
    ensures Loose(a + [c] + b)
    decreases |a|
  {
    if a == "" {
      assert a + [c] + b == [c] + b;
      assert ([c] + b)[1..] == b;
    } else {
      LooseJoin(a[1..], c, b);
      assert (a + [c] + b)[1..] == a[1..] + [c] + b;
      SkipUpTo(a[1..], c, b);
    }
  }

  lemma {:induction false} SkipUpTo(a: string, c: char, b: string)
    requires !IsSpace(c)
    ensures SkipSpace(a + [c] + b) == SkipSpace(a) + [c] + b
    decreases |a|
  {
    if a == "" {
      assert a + [c] + b == [c] + b;
    } else if IsSpace(a[0]) {
      assert (a + [c] + b)[1..] == a[1..] + [c] + b;
      SkipUpTo(a[1..], c, b);
    }
  }

  /** The parameters as the clear-sign side joins them again. */
  function Rejoined(rest: string): string {
    Join(StripAll(Split(rest, ',')))
  }

  /** With no blank inside a piece, blanks part no words and the rejoined pieces
      are the text without its blanks. */
  lemma {:induction false} PiecesLoose(rest: string)
    requires NoSpace(Rejoined(rest))
    ensures Loose(rest) && Unspaced(rest) == Rejoined(rest)
    decreases |rest|
  {
    hide Strip, IndexOf, Loose, Unspaced;
    var n := IndexOf(rest, ',');
    var first := rest[..n];
    StripUnspaced(first);
    if n == |rest| {
      assert first == rest;
      assert StripAll([first]) == [Strip(first)];
      LooseNoSpace(Strip(first));
      LooseUnstrip(first);
      UnspacedNothing(Strip(first));
    } else {
      var more := rest[n + 1..];
      assert StripAll([first] + Split(more, ',')) == [Strip(first)] + StripAll(Split(more, ','));
      JoinMore(Strip(first), StripAll(Split(more, ',')));
      NoSpaceParts(Strip(first), Rejoined(more));
      PiecesLoose(more);
      LooseNoSpace(Strip(first));
      LooseUnstrip(first);
      UnspacedNothing(Strip(first));
      LooseJoin(first, ',', more);
      assert rest == first + [','] + more;
      UnspacedMark(first, ',', more);
    }
  }

  lemma JoinMore(first: string, parts: seq<string>)
    requires parts != []
    ensures Join([first] + parts) == first + [','] + Join(parts)
  {
    assert ([first] + parts)[1..] == parts;
  }

  lemma NoSpaceParts(a: string, b: string)
    requires NoSpace(a + [','] + b)
    ensures NoSpace(a) && NoSpace(b)
  {
    var s := a + [','] + b;
    forall i | 0 <= i < |a| ensures !IsSpace(a[i]) {
      assert s[i] == a[i];
    }
    forall i | 0 <= i < |b| ensures !IsSpace(b[i]) {
      assert s[|a| + 1 + i] == b[i];
    }
  }

  lemma UnspacedMark(a: string, c: char, b: string)
    requires !IsSpace(c)
    ensures Unspaced(a + [c] + b) == Unspaced(a) + [c] + Unspaced(b)
  {
    UnspacedJoin(a + [c], b);
    UnspacedJoin(a, [c]);
    assert Unspaced([c]) == [c] + Unspaced("");
  }

  // ------------------------------------------------------- plain both ways

  /** Only words change, so what is plain afterwards was plain before. */
  lemma {:induction false} PlainOfAliased(s: string)
    requires Plain(Aliased(s))
    ensures Plain(s)
    decreases |s|
  {
    hide Aliased, Plain;
    if s == "" {
      NothingPlain();
    } else if IsWord(s[0]) {
      var n := WordPrefix(s);
      var word, rest := s[..n], s[n..];
      assert s == word + rest;
      AliasedWord(word, rest);
      FirstMark(rest);
      PlainDrop(Aliased(s), |AliasOf(word)|);
      assert Aliased(s)[|AliasOf(word)|..] == Aliased(rest);
      PlainOfAliased(rest);
      PlainTake(Aliased(s), |AliasOf(word)|);
      assert Aliased(s)[..|AliasOf(word)|] == AliasOf(word);
      WordPlain(word);
      PlainBehindWord(word, rest);
    } else {
      var rest := s[1..];
      assert s == [s[0]] + rest;
      AliasedMark(s[0], rest);
      PlainDrop(Aliased(s), 1);
      assert Aliased(s)[1..] == Aliased(rest);
      PlainOfAliased(rest);
      PlainBehindMark(s[0], rest);
    }
  }

  lemma NothingPlain()
    ensures Plain("")
  {
  }

  /** What follows a word is a mark, and stays one. */
  lemma FirstMark(rest: string)
    requires rest == "" || !IsWord(rest[0])
    ensures Aliased(rest) == "" || (rest != "" && Aliased(rest)[0] == rest[0])
  {
    if rest == "" {
      AliasedNothing();
    } else {
      assert rest == [rest[0]] + rest[1..];
      AliasedMark(rest[0], rest[1..]);
    }
  }

  lemma WordPlain(word: string)
    requires Plain(AliasOf(word))
    ensures Plain(word)
  {
    if word == "uint" || word == "int" {
      forall i | 0 <= i < |word| ensures PlainAt(word, i) {
      }
    }
  }

  lemma PlainBehindWord(word: string, rest: string)
    requires Plain(word) && Plain(rest) && (forall i :: 0 <= i < |word| ==> IsWord(word[i]))
    requires rest == "" || !IsWord(rest[0])
    ensures Plain(word + rest)
  {
    var s := word + rest;
    forall i | 0 <= i < |s| ensures PlainAt(s, i) {
      if i < |word| {
        assert PlainAt(word, i);
        if i + 7 <= |s| {
          assert s[i..i + 7][0] == s[i];
        }
      } else {
        assert PlainAt(rest, i - |word|) && s[i] == rest[i - |word|];
        if i + 7 <= |s| {
          assert s[i..i + 7] == rest[i - |word|..i - |word| + 7];
        }
      }
    }
  }

  lemma PlainBehindMark(c: char, rest: string)
    requires Plain(rest) && !IsWord(c) && Plain(Aliased([c] + rest))
    ensures Plain([c] + rest)
  {
    hide Aliased, Plain;
    var s := [c] + rest;
    AliasedMark(c, rest);
    PlainFirst(Aliased(s));
    if |s| >= 7 && s[0..7] == "[65535]" {
      AbsentAliased(s);
    }
    PlainIntro(c, rest);
  }

  lemma PlainIntro(c: char, rest: string)
    requires Plain(rest) && PlainAt([c] + rest, 0) && !IsDigit(c)
    ensures Plain([c] + rest)
  {
    var s := [c] + rest;
    forall i | 0 <= i < |s| ensures PlainAt(s, i) {
      if i > 0 {
        assert PlainAt(rest, i - 1) && s[i] == rest[i - 1];
        if i + 7 <= |s| {
          assert s[i..i + 7] == rest[i - 1..i + 6];
        }
      }
    }
  }

  lemma AbsentAliased(s: string)
    requires |s| >= 7 && s[0..7] == "[65535]"
    ensures |Aliased(s)| >= 7 && Aliased(s)[0..7] == "[65535]"
  {
    hide Aliased;
    var rest := s[7..];
    assert s == ['['] + ("65535" + ([']'] + rest));
    BracketText("65535", rest);
    assert ("[" + "65535" + "]") == "[65535]";
  }

  lemma PlainJoin(a: string, b: string)
    requires Plain(a) && Plain(b) && b != "" && b[0] in {'[', ',', ')'}
    ensures Plain(a + b)
  {
    var s := a + b;
    forall i | 0 <= i < |s| ensures PlainAt(s, i) {
      if i < |a| {
        assert PlainAt(a, i) && s[i] == a[i];
        if i + 7 <= |s| {
          if i + 7 <= |a| {
            assert s[i..i + 7] == a[i..i + 7];
          } else {
            assert s[i..i + 7][|a| - i] == b[0];
          }
        }
      } else {
        assert PlainAt(b, i - |a|) && s[i] == b[i - |a|];
        if i + 7 <= |s| {
          assert s[i..i + 7] == b[i - |a|..i - |a| + 7];
        }
      }
    }
  }

  lemma LeafPlain(kind: nat, size: nat)
    requires size > 0
    ensures Plain(LeafText(kind, size))
  {
    WordPlainDigits("uint", Decimal(size));
    WordPlainDigits("int", Decimal(size));
    WordPlainDigits("bytes", Decimal(size));
    LettersPlain("address");
    LettersPlain("bool");
    LettersPlain("bytes");
    LettersPlain("string");
  }

  lemma LettersPlain(s: string)
    requires forall i :: 0 <= i < |s| ==> IsLetter(s[i])
    ensures Plain(s)
  {
    forall i | 0 <= i < |s| ensures PlainAt(s, i) {
      if i + 7 <= |s| {
        assert s[i..i + 7][0] == s[i];
      }
    }
  }

  lemma WordPlainDigits(word: string, digits: string)
    requires (forall i :: 0 <= i < |word| ==> IsLetter(word[i])) && AllDigits(digits) && digits != ""
             && digits[0] != '0'
    ensures Plain(word + digits)
  {
    var s := word + digits;
    forall i | 0 <= i < |s| ensures PlainAt(s, i) {
      assert i < |word| ==> s[i] == word[i];
      assert i >= |word| ==> s[i] == digits[i - |word|];
      if i > |word| {
        assert s[i - 1] == digits[i - 1 - |word|];
      }
      if i + 7 <= |s| {
        assert s[i..i + 7][0] == s[i];
      }
    }
  }

  lemma DimensionPlain(length: nat)
    ensures Plain(Dimension(length))
  {
    var d := Dimension(length);
    if length != ABSENT {
      var digits := Decimal(length);
      DecimalAbsent();
      DecimalValue(length);
      DecimalValue(ABSENT);
      assert d == ['['] + digits + [']'];
      forall i | 0 <= i < |d| ensures PlainAt(d, i) {
        assert 0 < i <= |digits| ==> d[i] == digits[i - 1];
        if i + 7 <= |d| {
          assert d[i..i + 7][0] == d[i];
          if i == 0 {
            SameBracket(digits);
          }
        }
      }
    }
  }

  lemma SameBracket(digits: string)
    requires AllDigits(digits)
    ensures var d := ['['] + digits + [']']; |d| >= 7 && d[0..7] == "[65535]" ==> digits == "65535"
  {
    var d := ['['] + digits + [']'];
    if |d| >= 7 && d[0..7] == "[65535]" {
      assert d[0..7][6] == ']' && d[6] == ']';
      assert |digits| == 5;
      assert d == d[0..7] && digits == d[1..6];
      assert "[65535]"[1..6] == "65535";
    }
  }

  /** Canonical text is plain. */
  lemma {:induction false} CanonicalPlain(t: AbiType)
    requires Valid(t)
    ensures Plain(Canonical(t))
    decreases t, 1
  {
    hide Plain, LeafText, Dimension;
    match t
    case Leaf(_, kind, size) => LeafTextPlain(kind, size);
    case Array(_, element, length) =>
      CanonicalPlain(element);
      DimensionPlain(length);
      DimensionFirst(length);
      PlainJoin(Canonical(element), Dimension(length));
    case Tuple(_, members) =>
      CanonicalListPlain(members);
      NothingPlain();
      MarkPlain(')', "");
      assert [')'] + "" == ")";
      PlainJoin(CanonicalList(members), ")");
      MarkPlain('(', CanonicalList(members) + ")");
      assert "(" + CanonicalList(members) + ")" == ['('] + (CanonicalList(members) + ")");
  }

  lemma LeafTextPlain(kind: nat, size: nat)
    requires ValidLeaf(kind, size)
    ensures Plain(LeafText(kind, size))
  {
    if size > 0 {
      LeafPlain(kind, size);
    } else {
      LettersPlain("address");
      LettersPlain("bool");
      LettersPlain("bytes");
      LettersPlain("string");
    }
  }

  lemma DimensionFirst(length: nat)
    ensures Dimension(length) != "" && Dimension(length)[0] == '['
  {
  }

  lemma MarkPlain(c: char, rest: string)
    requires Plain(rest) && c in {'(', ',', ')'}
    ensures Plain([c] + rest)
  {
    var s := [c] + rest;
    if |s| >= 7 {
      assert s[0..7][0] == c;
    }
    PlainIntro(c, rest);
  }

  lemma {:induction false} CanonicalListPlain(ts: seq<AbiType>)
    requires AllValid(ts)
    ensures Plain(CanonicalList(ts))
    decreases ts, 0
  {
    hide Plain;
    if ts == [] {
      NothingPlain();
    } else {
      CanonicalPlain(ts[0]);
      if |ts| > 1 {
        CanonicalListPlain(ts[1..]);
        MarkPlain(',', CanonicalList(ts[1..]));
        PlainJoin(Canonical(ts[0]), [','] + CanonicalList(ts[1..]));
      }
    }
  }

  // ------------------------------------------------------------ exactly when

  /** What the clear-sign side needs to see: the name in front of the bracket, no
      line feed, and parameters that are plain once the blanks around each comma
      and at both ends are gone. */
  predicate Tidy(signature: string) {
    var s := Strip(signature);
    var n := IdentPrefix(s);
    && n + 2 <= |s| && s[n] == '(' && s[|s| - 1] == ')' && '\n' !in s[n + 1..|s| - 1]
    && Plain(Rejoined(s[n + 1..|s| - 1]))
  }

  lemma {:induction false} AliasedJoin(parts: seq<string>)
    ensures Aliased(Join(parts)) == Join(AliasedAll(parts))
  {
    hide Aliased;
    if parts == [] {
      AliasedNothing();
    } else if |parts| == 1 {
      assert AliasedAll(parts)[0] == Aliased(parts[0]);
    } else {
      AliasedJoin(parts[1..]);
      AliasedAround(parts[0], ',', Join(parts[1..]));
      assert AliasedAll(parts)[1..] == AliasedAll(parts[1..]);
    }
  }

  lemma SplitFirst(a: string, b: string)
    requires ',' !in a
    ensures Split(a + [','] + b, ',') == [a] + Split(b, ',')
  {
    var s := a + [','] + b;
    IndexOfFirst(a, ',', b);
    assert s[..|a|] == a && s[|a| + 1..] == b;
  }

  lemma {:induction false} SplitJoin(parts: seq<string>)
    requires parts != [] && forall i :: 0 <= i < |parts| ==> ',' !in parts[i]
    ensures Split(Join(parts), ',') == parts
  {
    hide Split;
    if |parts| == 1 {
      SplitOne(parts[0]);
      assert parts == [parts[0]];
    } else {
      SplitFirst(parts[0], Join(parts[1..]));
      SplitJoin(parts[1..]);
      assert parts == [parts[0]] + parts[1..];
    }
  }

  lemma SplitOne(s: string)
    requires ',' !in s
    ensures Split(s, ',') == [s]
  {
    IndexOfNone(s, ',');
  }

  lemma {:induction false} SplitNoComma(s: string, i: nat)
    requires i < |Split(s, ',')|
    ensures ',' !in Split(s, ',')[i]
    decreases |s|
  {
    var n := IndexOf(s, ',');
    if n < |s| && i > 0 {
      SplitNoComma(s[n + 1..], i - 1);
    }
  }

  lemma StripNoComma(s: string)
    requires ',' !in s
    ensures ',' !in Strip(s)
  {
    StripRightPrefix(SkipSpace(s));
    SkipSuffix(s);
  }

  lemma {:induction false} SkipSuffix(s: string)
    ensures forall c :: c in SkipSpace(s) ==> c in s
  {
    if s != "" && IsSpace(s[0]) {
      SkipSuffix(s[1..]);
    }
  }

  lemma {:induction false} SplitBlank(s: string)
    requires Strip(s) == ""
    ensures Rejoined(s) == ""
  {
    StripUnspaced(s);
    NoMarks(s, ',');
    IndexOfNone(s, ',');
    assert StripAll([s]) == [Strip(s)];
  }

  lemma {:induction false} NoMarks(s: string, c: char)
    requires Unspaced(s) == "" && !IsSpace(c)
    ensures c !in s
  {
    if s != "" {
      NoMarks(s[1..], c);
    }
  }

  /** The rejoined text splits into the same pieces. */
  lemma RejoinedPieces(rest: string)
    requires NoSpace(Rejoined(rest)) && Strip(rest) != ""
    ensures Strip(Rejoined(rest)) == Rejoined(rest) != ""
    ensures StripAll(Split(Rejoined(rest), ',')) == StripAll(Split(rest, ','))
  {
    var parts := StripAll(Split(rest, ','));
    forall i | 0 <= i < |parts| ensures ',' !in parts[i] {
      SplitNoComma(rest, i);
      StripNoComma(Split(rest, ',')[i]);
    }
    SplitJoin(parts);
    StripNothing(Rejoined(rest));
    forall i | 0 <= i < |parts| ensures Strip(parts[i]) == parts[i] {
      SplitNoSpace(Rejoined(rest), i);
      StripNothing(parts[i]);
    }
    PiecesLoose(rest);
    StripUnspaced(rest);
    UnspacedFirst(rest);
    if Rejoined(rest) == "" {
      StripEmpty(rest);
    }
  }

  lemma StripEmpty(s: string)
    requires Unspaced(s) == ""
    ensures Strip(s) == ""
  {
    UnspacedFirst(s);
  }

  /** Without its blanks a tidy signature is its name and rejoined parameters. */
  lemma TidyText(signature: string)
    requires Tidy(signature)
    ensures var s := Strip(signature); var n := IdentPrefix(s);
            && Loose(signature) && NoSpace(Rejoined(s[n + 1..|s| - 1]))
            && Unspaced(signature) == s[..n] + "(" + Rejoined(s[n + 1..|s| - 1]) + ")"
  {
    hide Strip, Plain, Loose, Rejoined;
    var s := Strip(signature);
    var n := IdentPrefix(s);
    var rest := s[n + 1..|s| - 1];
    PlainNoSpace(Rejoined(rest));
    FunctionLoose(s[..n], rest);
    assert s == s[..n] + ['('] + (rest + [')'] + "");
    LooseUnstrip(signature);
    StripUnspaced(signature);
  }

  lemma FunctionLoose(name: string, rest: string)
    requires (forall i :: 0 <= i < |name| ==> IdentChar(name[i])) && NoSpace(Rejoined(rest))
    ensures var s := name + ['('] + (rest + [')'] + ""); Loose(s) && Unspaced(s) == name + "(" + Rejoined(rest) + ")"
  {
    hide Loose, Rejoined, Unspaced;
    PiecesLoose(rest);
    IdentNoSpace(name);
    LooseNoSpace(name);
    LooseNoSpace("");
    LooseJoin(rest, ')', "");
    LooseJoin(name, '(', rest + [')'] + "");
    UnspacedMark(name, '(', rest + [')'] + "");
    UnspacedMark(rest, ')', "");
    UnspacedNothing(name);
    UnspacedNothing("");
    assert name + ['('] + (Rejoined(rest) + [')'] + "") == name + "(" + Rejoined(rest) + ")";
  }

  lemma IdentNoSpace(s: string)
    requires forall i :: 0 <= i < |s| ==> IdentChar(s[i])
    ensures NoSpace(s)
  {
  }

  /** The clear-sign side sees no blanks in a tidy signature. */
  lemma ClearsignUnspaced(signature: string)
    requires Tidy(signature) && IdentPrefix(Strip(signature)) > 0 && IdentStart(Strip(signature)[0])
    ensures ClearsignParse(Unspaced(signature)) == ClearsignParse(signature)
  {
    hide Strip, Plain, Rejoined, Split, StripAll, AliasedAll, Tidy;
    TidyText(signature);
    TidyParts(signature);
    var s, u := Strip(signature), Unspaced(signature);
    var n := IdentPrefix(s);
    var rest := s[n + 1..|s| - 1];
    var inner := Rejoined(rest);
    StripNothing(u);
    IdentPrefixOfAppend(s[..n], "(" + inner + ")");
    assert u == s[..n] + ("(" + inner + ")");
    assert u[..n] == s[..n] && u[n + 1..|u| - 1] == inner && u[0] == s[0];
    NoLineFeed(inner);
    if Strip(rest) == "" {
      SplitBlank(rest);
      StripNothing("");
    } else {
      RejoinedPieces(rest);
    }
  }

  lemma TidyParts(signature: string)
    requires Tidy(signature)
    ensures var s := Strip(signature); var n := IdentPrefix(s);
            n + 2 <= |s| && s[n] == '(' && s[|s| - 1] == ')' && '\n' !in s[n + 1..|s| - 1]
  {
    hide Strip, Plain, Rejoined;
  }

  lemma NoLineFeed(s: string)
    requires NoSpace(s)
    ensures '\n' !in s
  {
  }

  /** The name both sides read. */
  lemma SameName(signature: string)
    requires ParseFunction(signature).Ok?
    ensures var s := Strip(signature); var name := ParseFunction(signature).value.0;
            IdentPrefix(s) < |s| && s[IdentPrefix(s)] == '(' ==>
              IdentPrefix(s) == |name| && s[..|name|] == name && name != "" && IdentStart(s[0])
  {
    hide ParseOptionalMembers;
    var t, s := SkipSpace(signature), Strip(signature);
    var name := ParseFunction(signature).value.0;
    SkipTwice(signature);
    StripRightPrefix(t);
    var n := IdentPrefix(s);
    if n < |s| && s[n] == '(' {
      assert t == s[..n] + t[n..];
      assert forall i :: 0 <= i < n ==> IdentChar(s[..n][i]);
      IdentPrefixOfAppend(s[..n], t[n..]);
    }
  }

  lemma {:induction false} SkipTwice(s: string)
    ensures SkipSpace(SkipSpace(s)) == SkipSpace(s)
  {
    if s != "" && IsSpace(s[0]) {
      SkipTwice(s[1..]);
    }
  }

  /** On every signature that the compiler's parser accepts, both canonical forms
      are the same text, so that both selectors hash the same, exactly when the
      signature is tidy and no parameter is named. */
  lemma FormsAgreeIff(signature: string)
    requires ParseFunction(signature).Ok?
    ensures var (name, root) := ParseFunction(signature).value;
            ClearsignCanonical(signature) == Ok(SignatureRoundTrip.CanonicalSignature(name, root)) <==>
              Tidy(signature) && Erase(root) == root
  {
    hide Tidy, ParseFunction, Erase, ClearsignCanonical;
    var (name, root) := ParseFunction(signature).value;
    if Tidy(signature) && Erase(root) == root {
      TidyAgrees(signature);
    } else if ClearsignCanonical(signature) == Ok(SignatureRoundTrip.CanonicalSignature(name, root)) {
      AgreeingTidy(signature);
      AgreeingUnnamed(signature);
    }
  }

  /** With a name in it, the text is longer than what the compiler prints. */
  lemma AgreeingUnnamed(signature: string)
    requires ParseFunction(signature).Ok? && Tidy(signature)
    requires var (name, root) := ParseFunction(signature).value;
             ClearsignCanonical(signature) == Ok(SignatureRoundTrip.CanonicalSignature(name, root))
    ensures Erase(ParseFunction(signature).value.1) == ParseFunction(signature).value.1
  {
    hide Strip, Plain, Rejoined, ClearsignParse, ParseFunction, Erase, Tidy, Loose, Unspaced, Aliased, CanonicalList,
      ParseOptionalMembers;
    var (name, root) := ParseFunction(signature).value;
    var s, u := Strip(signature), Unspaced(signature);
    var n := IdentPrefix(s);
    TidyText(signature);
    TidyParts(signature);
    SameName(signature);
    FunctionUnspaced(signature);
    var inner := Rejoined(s[n + 1..|s| - 1]);
    RejoinedPlain(signature);
    NothingPlain();
    MarkPlain(')', "");
    assert [')'] + "" == ")";
    PlainJoin(inner, ")");
    assert u[n + 1..] == inner + ")";
    ParsedRoot(u);
    UnnamedIfPrinted(u, inner);
    AgreeingText(signature);
  }

  lemma ParsedRoot(s: string)
    requires ParseFunction(s).Ok?
    ensures var root := ParseFunction(s).value.1;
            root.Tuple? && (EraseList(root.members) == root.members ==> Erase(root) == root)
  {
    hide ParseOptionalMembers, EraseList;
  }

  lemma TidyAgrees(signature: string)
    requires ParseFunction(signature).Ok? && Erase(ParseFunction(signature).value.1) == ParseFunction(signature).value.1
    requires Tidy(signature)
    ensures var (name, root) := ParseFunction(signature).value;
            ClearsignCanonical(signature) == Ok(SignatureRoundTrip.CanonicalSignature(name, root))
  {
    hide Strip, Plain, Rejoined, ClearsignParse, ParseFunction, Erase, Tidy, Loose, Unspaced;
    var s, u := Strip(signature), Unspaced(signature);
    var n := IdentPrefix(s);
    TidyText(signature);
    TidyParts(signature);
    SameName(signature);
    FunctionUnspaced(signature);
    ClearsignUnspaced(signature);
    var inner := Rejoined(s[n + 1..|s| - 1]);
    RejoinedPlain(signature);
    NothingPlain();
    MarkPlain(')', "");
    assert [')'] + "" == ")";
    PlainJoin(inner, ")");
    assert u[n + 1..] == inner + ")";
    FormsAgree(u);
  }

  lemma RejoinedPlain(signature: string)
    requires Tidy(signature)
    ensures var s := Strip(signature); var n := IdentPrefix(s); n + 1 < |s| && Plain(Rejoined(s[n + 1..|s| - 1]))
  {
    hide Strip, Plain, Rejoined;
  }

  /** Where the forms agree, the parameters with their aliases replaced are what
      the compiler prints. */
  lemma AgreeingText(signature: string)
    requires ParseFunction(signature).Ok?
    requires var (name, root) := ParseFunction(signature).value;
             ClearsignCanonical(signature) == Ok(SignatureRoundTrip.CanonicalSignature(name, root))
    ensures ClearsignParse(signature).Ok?
    ensures var s := Strip(signature); var n := IdentPrefix(s);
            && n + 2 <= |s| && s[n] == '(' && s[|s| - 1] == ')' && '\n' !in s[n + 1..|s| - 1]
            && Aliased(Rejoined(s[n + 1..|s| - 1])) == CanonicalList(ParseFunction(signature).value.1.members)
  {
    hide Strip, Plain, Rejoined, ParseFunction, Split, StripAll, AliasedAll, Join, Aliased, CanonicalList;
    var (name, root) := ParseFunction(signature).value;
    var s := Strip(signature);
    var n := IdentPrefix(s);
    var rest := s[n + 1..|s| - 1];
    SameName(signature);
    JoinedTypes(rest);
    var joined := Join(ClearsignParse(signature).value.1);
    assert name + "(" + joined + ")" == name + "(" + CanonicalList(root.members) + ")";
    SameMiddle(name + "(", joined, CanonicalList(root.members), ")");
  }

  lemma AgreeingTidy(signature: string)
    requires ParseFunction(signature).Ok?
    requires var (name, root) := ParseFunction(signature).value;
             ClearsignCanonical(signature) == Ok(SignatureRoundTrip.CanonicalSignature(name, root))
    ensures Tidy(signature)
  {
    hide Strip, Plain, Rejoined, ParseFunction, Aliased, CanonicalList, ClearsignParse, ClearsignCanonical;
    var root, s := ParseFunction(signature).value.1, Strip(signature);
    AgreeingText(signature);
    ParsedFunctionValid(signature);
    CanonicalListPlain(root.members);
    PlainOfAliased(Rejoined(s[IdentPrefix(s) + 1..|s| - 1]));
  }

  /** Parameters that print as their own text have no names. */
  lemma UnnamedIfPrinted(s: string, inner: string)
    requires ParseFunction(s).Ok? && NoSpace(s) && |ParseFunction(s).value.0| + 1 <= |s|
    requires s[|ParseFunction(s).value.0| + 1..] == inner + ")" && Plain(inner + ")")
    ensures Aliased(inner) == CanonicalList(ParseFunction(s).value.1.members) ==>
              EraseList(ParseFunction(s).value.1.members) == ParseFunction(s).value.1.members
  {
    hide Plain, Aliased, ParseOptionalMembers, ParseFunction, CanonicalList, EraseList;
    FunctionText(s);
    OptionalMembersAgree(inner + ")");
    var (members, after) := ParseOptionalMembers(inner + ")").value;
    PlainNoSpace(after);
    AliasedNothing();
    assert inner + ")" == inner + [')'] + "" && after == [')'] + after[1..];
    AliasedAround(inner, ')', "");
    AliasedMark(')', after[1..]);
  }

  lemma SameMiddle(a: string, x: string, y: string, b: string)
    requires a + x + b == a + y + b
    ensures x == y
  {
    assert |x| == |y|;
    assert (a + x + b)[|a|..|a| + |x|] == x && (a + y + b)[|a|..|a| + |y|] == y;
  }

  lemma JoinedTypes(rest: string)
    ensures Aliased(Rejoined(rest)) == Join(AliasedAll(if Strip(rest) == "" then [] else StripAll(Split(rest, ','))))
  {
    hide Strip, StripAll, Split, AliasedAll, Join, Aliased;
    if Strip(rest) == "" {
      SplitBlank(rest);
      AliasedNothing();
      JoinNothing();
    } else {
      AliasedJoin(StripAll(Split(rest, ',')));
    }
  }

  // ------------------------------------------------------- where they differ

  /** A signature with one parameter. */
  lemma OneParameter(text: string, t: AbiType)
    requires text != "" && !IsSpace(text[0]) && text[0] != ')' && t.name == ""
    requires ParseType(text + ")") == Ok((t, ")"))
    ensures ParseFunction("f(" + text + ")") == Ok(("f", Tuple("", [t])))
  {
    hide ParseType, ParseFunction;
    var inner := text + ")";
    assert "f(" + text + ")" == "f" + (['('] + inner);
    SignatureRoundTrip.NameOfAppend("f", ['('] + inner);
    assert inner[0] == text[0] && SkipSpace(inner) == inner && SkipSpace(")") == ")";
    assert OptionalName(")") == ("", ")");
    assert t.Rename("") == t;
    assert ParseMember(inner) == Ok((t, ")"));
    MembersStep(inner, []);
    assert [] + [t] == [t];
    assert ")" == [')'] + "";
    SignatureRoundTrip.FunctionParses("f(" + text + ")", "f", inner, [t]);
  }

  lemma NotTidy(text: string, i: nat)
    requires ',' !in text && NoSpace(text) && i < |text| && !PlainAt(text, i)
    ensures !Tidy("f(" + text + ")")
  {
    hide Rejoined, Strip, IdentPrefix, PlainAt, NoSpace, IsSpace;
    InnerIs(text);
    RejoinedOne(text);
  }

  lemma RejoinedOne(text: string)
    requires ',' !in text && NoSpace(text)
    ensures Rejoined(text) == text
  {
    hide Strip, Split;
    SplitOne(text);
    StripNothing(text);
    assert StripAll([text]) == [text];
  }

  lemma InnerIs(text: string)
    requires NoSpace(text)
    ensures var s := "f(" + text + ")"; Strip(s) == s && IdentPrefix(s) == 1 && s[2..|s| - 1] == text
  {
    hide Strip, IdentPrefix;
    var s := "f(" + text + ")";
    assert NoSpace(s);
    StripNothing(s);
    assert s == "f" + ("(" + text + ")");
    IdentPrefixOfAppend("f", "(" + text + ")");
  }

  /** A leading zero: the compiler hashes `f(uint8)`, the clear-sign side the text
      as it stands. */
  lemma ZeroDiffers()
    ensures ParseFunction("f(uint08)") == Ok(("f", Tuple("", [Leaf("", UINT, 8)])))
    ensures ClearsignCanonical("f(uint08)") != Ok(SignatureRoundTrip.CanonicalSignature("f",
              Tuple("", [Leaf("", UINT, 8)])))
  {
    hide ParseFunction, ClearsignCanonical, Tidy;
    var text := "uint08";
    assert "f(" + text + ")" == "f(uint08)";
    EightType();
    assert !PlainAt(text, 4);
    NotTidy(text, 4);
    OneParameter(text, Leaf("", UINT, 8));
    EraseOne(Leaf("", UINT, 8));
    FormsAgreeIff("f(uint08)");
  }

  lemma EraseOne(t: AbiType)
    requires Erase(t) == t
    ensures Erase(Tuple("", [t])) == Tuple("", [t])
  {
    assert EraseList([t]) == [Erase(t)] + EraseList([t][1..]);
  }

  lemma EightType()
    ensures ParseType("uint08" + ")") == Ok((Leaf("", UINT, 8), ")"))
  {
    var token := "uint08";
    SignatureRoundTrip.NameOfAppend(token, ")");
    EightToken();
    SignatureRoundTrip.LeafParses(token + ")", token, Leaf("", UINT, 8), ")");
    SuffixesStop(Leaf("", UINT, 8), ")");
  }

  lemma EightToken()
    ensures ElementaryType("uint08") == Ok(Leaf("", UINT, 8))
  {
    var digits := "08";
    assert "uint08"[4..] == digits && "uint08"[..4] == "uint";
    assert digits[..1] == "0" && "0"[..0] == "";
    assert DigitsValue("0") == 0 && DigitsValue(digits) == 8;
  }

  /** The length that marks dynamic arrays: the compiler hashes `f(address[])`. */
  lemma AbsentDiffers()
    ensures ParseFunction("f(address[65535])") == Ok(("f", Tuple("", [Array("", Leaf("", ADDRESS, 0), ABSENT)])))
    ensures ClearsignCanonical("f(address[65535])")
            != Ok(SignatureRoundTrip.CanonicalSignature("f", Tuple("", [Array("", Leaf("", ADDRESS, 0), ABSENT)])))
  {
    hide ParseFunction, ParseType, ClearsignCanonical, Tidy, Erase, Valid, WellNamed;
    var text, t := "address[65535]", Array("", Leaf("", ADDRESS, 0), ABSENT);
    assert "f(" + text + ")" == "f(address[65535])";
    AbsentType();
    AbsentNotTidy();
    OneParameter(text, t);
    EraseArray();
    EraseOne(t);
    FormsAgreeIff("f(address[65535])");
  }

  lemma AbsentNotTidy()
    ensures !Tidy("f(address[65535])")
  {
    hide Tidy;
    var text := "address[65535]";
    assert "f(" + text + ")" == "f(address[65535])";
    assert text[7..14] == "[65535]";
    assert !PlainAt(text, 7);
    NotTidy(text, 7);
  }

  lemma EraseArray()
    ensures var t := Array("", Leaf("", ADDRESS, 0), ABSENT); Erase(t) == t
  {
  }

  lemma AbsentType()
    ensures ParseType("address[65535]" + ")") == Ok((Array("", Leaf("", ADDRESS, 0), ABSENT), ")"))
  {
    hide ParseType, ParseSuffixes, ParseBracket;
    var leaf, digits := Leaf("", ADDRESS, 0), "65535])";
    var s := "address[65535]" + ")";
    assert s == "address" + (['['] + digits);
    SignatureRoundTrip.LeafTypeParses(ADDRESS, 0, ['['] + digits);
    AbsentBracket();
    SignatureRoundTrip.ArrayParses(s, leaf, ABSENT, digits, ")");
    SuffixesStop(Array("", leaf, ABSENT), ")");
  }

  lemma AbsentBracket()
    ensures ParseBracket("65535])") == Ok((ABSENT, ")"))
  {
    hide DigitPrefix, DigitsValue, Decimal;
    DecimalAbsent();
    DecimalValue(ABSENT);
    DigitPrefixOfAppend("65535", "])");
    assert "65535" + "])" == "65535])";
    assert "65535])"[..5] == "65535" && "65535])"[5..] == "])" && "])"[1..] == ")";
  }
}
