/** Member types of the EIP-712 streaming host
    (`parse_solidity_type`, keepkeylib/eip712_stream.py). */
module StreamTypes {
  import opened Wrappers
  import opened Text

  const MAX_TYPE_NAME: nat := 47

  datatype DataType = UintData | IntData | BytesData | StringData | BoolData | AddressData | StructData

  /** A field descriptor; array level 0 is a dynamic one. */
  datatype Field = Field(dataType: DataType, size: Option<nat>, structName: string, levels: seq<nat>)

  /** What a type is without its array levels. */
  datatype Shape = Shape(dataType: DataType, size: Option<nat>, structName: string)

  // -------------------------------------------------------------------- levels

  /** `[1-9][0-9]*`. */
  predicate IsCanonicalWidth(digits: string) {
    digits != "" && digits[0] != '0' && AllDigits(digits)
  }

  function LevelOf(digits: string): Result<nat> {
    if digits == "" then Ok(0)
    else if IsCanonicalWidth(digits) then Ok(DigitsValue(digits))
    else Raised
  }

  /** The digits of a bracket group that starts the text. */
  function GroupAt(s: string): (r: Option<string>)
    ensures r.Some? ==> |r.value| + 2 <= |s| && s[..|r.value| + 2] == "[" + r.value + "]" && AllDigits(r.value)
  {
    if s == "" || s[0] != '[' then None
    else
      var n := DigitPrefix(s[1..]);
      if n + 1 < |s| && s[n + 1] == ']' then Some(s[1..][..n]) else None
  }

  /** Bracket groups up to the end of the text. */
  function ParseLevels(s: string): Result<seq<nat>>
    decreases |s|
  {
    if s == "" then Ok([])
    else
      match GroupAt(s)
      case None => Raised
      case Some(digits) =>
        var level :- LevelOf(digits);
        var rest :- ParseLevels(s[|digits| + 2..]);
        Ok([level] + rest)
  }

  /** The next match of the group pattern at or behind `from`. */
  function NextGroup(s: string, from: nat): (r: Option<(nat, string)>)
    requires from <= |s|
    ensures r.Some? ==>
              from <= r.value.0 && r.value.0 + |r.value.1| + 2 <= |s| && GroupAt(s[r.value.0..]) == Some(r.value.1)
    ensures GroupAt(s[from..]).Some? ==> r.Some? && r.value.0 == from
    decreases |s| - from
  {
    match GroupAt(s[from..])
    case Some(digits) => Some((from, digits))
    case None => if from == |s| then None else NextGroup(s, from + 1)
  }

  /** The levels read so far in front of those still to come. */
  function Prefixed(levels: seq<nat>, r: Result<seq<nat>>): Result<seq<nat>> {
    match r
    case Ok(more) => Ok(levels + more)
    case Raised => Raised
  }

  lemma LevelsNext(levels: seq<nat>, s: string)
    requires GroupAt(s).Some?
    ensures LevelOf(GroupAt(s).value).Raised? ==> ParseLevels(s).Raised?
    ensures LevelOf(GroupAt(s).value).Ok? ==>
              Prefixed(levels, ParseLevels(s)) ==
              Prefixed(levels + [LevelOf(GroupAt(s).value).value], ParseLevels(s[|GroupAt(s).value| + 2..]))
  {
    var rest := ParseLevels(s[|GroupAt(s).value| + 2..]);
    if LevelOf(GroupAt(s).value).Ok? && rest.Ok? {
      assert levels + ([LevelOf(GroupAt(s).value).value] + rest.value) ==
               levels + [LevelOf(GroupAt(s).value).value] + rest.value;
    }
  }

  lemma LevelsEnd(levels: seq<nat>, s: string)
    requires GroupAt(s).None?
    ensures Prefixed(levels, ParseLevels(s)) == if s == "" then Ok(levels) else Raised
  {
    assert levels + [] == levels;
  }

  /** The loop over the matches: each must start where the last one ended. */
  method ParseArrayLevels(suffix: string) returns (r: Result<seq<nat>>)
    ensures r == ParseLevels(suffix)
  {
    hide ParseLevels, LevelOf, NextGroup, GroupAt;
    var consumed := 0;
    var levels: seq<nat> := [];
    assert suffix[0..] == suffix;
    StartLevels(suffix);
    while true
      invariant consumed <= |suffix| && ParseLevels(suffix) == Prefixed(levels, ParseLevels(suffix[consumed..]))
      decreases |suffix| - consumed
    {
      ghost var rest := suffix[consumed..];
      var m := NextGroup(suffix, consumed);
      if m.None? {
        LevelsEnd(levels, rest);
        break;
      }
      var (start, digits) := m.value;
      if start != consumed {
        LevelsEnd(levels, rest);
        return Raised;
      }
      LevelsNext(levels, rest);
      DropDrop(suffix, consumed, |digits| + 2);
      var level :- LevelOf(digits);
      levels := levels + [level];
      consumed := start + |digits| + 2;
    }
    if consumed != |suffix| {
      return Raised;
    }
    return Ok(levels);
  }

  lemma StartLevels(s: string)
    ensures Prefixed([], ParseLevels(s)) == ParseLevels(s)
  {
    if ParseLevels(s).Ok? {
      assert [] + ParseLevels(s).value == ParseLevels(s).value;
    }
  }

  function PrintLevels(levels: seq<nat>): string {
    if levels == [] then ""
    else "[" + (if levels[0] == 0 then "" else Decimal(levels[0])) + "]" + PrintLevels(levels[1..])
  }

  lemma {:induction false} PrintUndoesParseLevels(s: string)
    requires ParseLevels(s).Ok?
    ensures PrintLevels(ParseLevels(s).value) == s
    decreases |s|
  {
    if s != "" {
      var digits := GroupAt(s).value;
      var level := LevelOf(digits).value;
      var rest := s[|digits| + 2..];
      PrintUndoesParseLevels(rest);
      if digits != "" {
        CanonicalNumeralIsDecimal(digits);
      }
      assert s == ("[" + digits + "]") + rest;
    }
  }

  lemma GroupOfPrint(digits: string, rest: string)
    requires AllDigits(digits)
    ensures GroupAt("[" + digits + "]" + rest) == Some(digits)
    ensures ("[" + digits + "]" + rest)[|digits| + 2..] == rest
  {
    var s := "[" + digits + "]" + rest;
    assert s[1..] == digits + ("]" + rest);
    DigitPrefixOfAppend(digits, "]" + rest);
    assert s[1..|digits| + 1] == digits;
  }

  lemma {:induction false} ParseUndoesPrintLevels(levels: seq<nat>)
    ensures ParseLevels(PrintLevels(levels)) == Ok(levels)
  {
    if levels != [] {
      var digits := if levels[0] == 0 then "" else Decimal(levels[0]);
      GroupOfPrint(digits, PrintLevels(levels[1..]));
      DecimalValue(levels[0]);
      ParseUndoesPrintLevels(levels[1..]);
      assert levels == [levels[0]] + levels[1..];
    }
  }

  // ---------------------------------------------------------------------- bases

  /** The digits behind a word, with Python's `$`: a line feed may follow. */
  function DigitsAfter(base: string, word: string): Option<string> {
    if !StartsWith(base, word) then None
    else
      var digits := OneLine(base[|word|..]);
      if AllDigits(digits) then Some(digits) else None
  }

  predicate TypeNameText(s: string) {
    s != "" && IdentStart(s[0]) && forall i :: 0 <= i < |s| ==> IdentChar(s[i]) || s[i] == ':'
  }

  /** `_TYPE_NAME.match` and the length limit. */
  predicate IsTypeName(s: string) {
    TypeNameText(OneLine(s)) && |s| <= MAX_TYPE_NAME
  }

  function IntegerShape(dataType: DataType, digits: string): Result<Shape> {
    if !IsCanonicalWidth(digits) then Raised
    else
      var bits := DigitsValue(digits);
      if bits < 8 || bits > 256 || bits % 8 != 0 then Raised else Ok(Shape(dataType, Some(bits / 8), ""))
  }

  function ParseBase(base: string): Result<Shape> {
    if base == "string" then Ok(Shape(StringData, None, ""))
    else if base == "bool" then Ok(Shape(BoolData, None, ""))
    else if base == "address" then Ok(Shape(AddressData, None, ""))
    else if base == "bytes" then Ok(Shape(BytesData, None, ""))
    else
      match DigitsAfter(base, "bytes")
      case Some(digits) =>
        if !IsCanonicalWidth(digits) then Raised
        else
          var n := DigitsValue(digits);
          if n < 1 || n > 32 then Raised else Ok(Shape(BytesData, Some(n), ""))
      case None =>
        match DigitsAfter(base, "uint")
        case Some(digits) => IntegerShape(UintData, digits)
        case None =>
          match DigitsAfter(base, "int")
          case Some(digits) => IntegerShape(IntData, digits)
          case None => if IsTypeName(base) then Ok(Shape(StructData, None, base)) else Raised
  }

  function ParseType(s: string): Result<Field> {
    var n := IndexOf(s, '[');
    var levels :- ParseLevels(s[n..]);
    var shape :- ParseBase(s[..n]);
    Ok(Field(shape.dataType, shape.size, shape.structName, levels))
  }

  /** `parse_solidity_type`. */
  method ParseSolidityType(s: string) returns (r: Result<Field>)
    ensures r == ParseType(s)
  {
    var bracket := IndexOf(s, '[');
    var levels :- ParseArrayLevels(s[bracket..]);
    var shape :- ParseBase(s[..bracket]);
    return Ok(Field(shape.dataType, shape.size, shape.structName, levels));
  }

  function Width(n: Option<nat>, unit: nat): string {
    match n
    case Some(k) => Decimal(unit * k)
    case None => ""
  }

  function PrintShape(dataType: DataType, size: Option<nat>, structName: string): string {
    match dataType
    case StringData => "string"
    case BoolData => "bool"
    case AddressData => "address"
    case BytesData => "bytes" + Width(size, 1)
    case UintData => "uint" + Width(size, 8)
    case IntData => "int" + Width(size, 8)
    case StructData => structName
  }

  /** The type a descriptor came from. */
  function Print(f: Field): string {
    PrintShape(f.dataType, f.size, f.structName) + PrintLevels(f.levels)
  }

  lemma DigitsBehind(base: string, word: string)
    requires DigitsAfter(base, word).Some? && IsCanonicalWidth(DigitsAfter(base, word).value)
    ensures var digits := DigitsAfter(base, word).value;
            && OneLine(base) == word + digits
            && digits == Decimal(DigitsValue(digits))
  {
    var digits := DigitsAfter(base, word).value;
    CanonicalNumeralIsDecimal(digits);
    assert base == word + base[|word|..];
  }

  /** What a base prints as: itself, but for a line feed behind a sized type. */
  lemma PrintOfParseBase(base: string)
    requires ParseBase(base).Ok?
    ensures var shape := ParseBase(base).value;
            PrintShape(shape.dataType, shape.size, shape.structName) == if shape.size.Some? then OneLine(base) else base
  {
    hide DigitsValue, Decimal, DigitsAfter, OneLine, IsCanonicalWidth, IsTypeName;
    if base !in {"string", "bool", "address", "bytes"} {
      if DigitsAfter(base, "bytes").Some? {
        DigitsBehind(base, "bytes");
      } else if DigitsAfter(base, "uint").Some? {
        DigitsBehind(base, "uint");
      } else if DigitsAfter(base, "int").Some? {
        DigitsBehind(base, "int");
      }
    }
  }

  /** Python's `$` lets a sized type end in a line feed: in front of the first
      bracket stand a word, digits and the line feed. */
  predicate SizedWithLineFeed(s: string) {
    var base := s[..IndexOf(s, '[')];
    exists word :: word in {"bytes", "uint", "int"} && word < base && IsLineOfDigits(base[|word|..])
  }

  predicate IsLineOfDigits(s: string) {
    s != "" && s[|s| - 1] == '\n' && AllDigits(s[..|s| - 1])
  }

  /** The bases that lose a line feed are those sized types. */
  lemma LosesLineFeedIff(base: string)
    requires ParseBase(base).Ok?
    ensures ParseBase(base).value.size.Some? && OneLine(base) != base <==>
            exists word :: word in {"bytes", "uint", "int"} && word < base && IsLineOfDigits(base[|word|..])
  {
    hide DigitsAfter, IsCanonicalWidth, DigitsValue, IsTypeName, IsLineOfDigits;
    LineOfDigitsIff(base, "bytes");
    LineOfDigitsIff(base, "uint");
    LineOfDigitsIff(base, "int");
  }

  lemma LineOfDigitsIff(base: string, word: string)
    requires word in {"bytes", "uint", "int"}
    ensures word < base && IsLineOfDigits(base[|word|..]) <==> DigitsAfter(base, word).Some? && OneLine(base) != base
    ensures DigitsAfter(base, word).Some? ==> word <= base
  {
  }

  /** The printer recovers the exact type text unless a sized type was followed
      by a line feed. */
  lemma PrintRecoversIff(s: string)
    requires ParseType(s).Ok?
    ensures Print(ParseType(s).value) == s <==> !SizedWithLineFeed(s)
  {
    hide ParseBase, ParseLevels, PrintShape, PrintLevels, OneLine;
    var n := IndexOf(s, '[');
    var base, suffix := s[..n], s[n..];
    PrintOfParseBase(base);
    LosesLineFeedIff(base);
    PrintUndoesParseLevels(suffix);
    assert s == base + suffix;
    if OneLine(base) + suffix == s {
      assert |OneLine(base)| == |base|;
      assert (OneLine(base) + suffix)[..|base|] == OneLine(base) && (base + suffix)[..|base|] == base;
    }
  }

  /** Two type texts without line feeds that mean the same are the same. */
  lemma ParseInjective(s: string, t: string)
    requires '\n' !in s && '\n' !in t && ParseType(s).Ok? && ParseType(s) == ParseType(t)
    ensures s == t
  {
    PrintRecoversIff(s);
    PrintRecoversIff(t);
  }

  /** With a line feed two texts share a descriptor. */
  lemma LineFeedIsLost()
    ensures ParseType("uint8\n").Ok? && ParseType("uint8\n") == ParseType("uint8")
  {
    hide ParseBase, ParseLevels;
    assert "uint8\n"[..6] == "uint8\n" && "uint8"[..5] == "uint8" && "uint8\n"[6..] == "" && "uint8"[5..] == "";
    NoLevels();
    SizedBaseOf("8");
    assert "uint" + "8" == "uint8" && "uint" + "8" + "\n" == "uint8\n";
  }

  lemma NoLevels()
    ensures ParseLevels("") == Ok([])
  {
  }

  /** One digit behind `uint`, with and without a line feed. */
  lemma SizedBaseOf(digits: string)
    requires digits == "8"
    ensures ParseBase("uint" + digits) == Ok(Shape(UintData, Some(1), "")) == ParseBase("uint" + digits + "\n")
  {
    assert ("uint" + digits)[4..] == digits && ("uint" + digits + "\n")[4..] == digits + "\n";
    assert (digits + "\n")[..1] == digits && digits[..0] == "";
    assert DigitsValue(digits) == 8;
    assert OneLine(digits + "\n") == digits && OneLine(digits) == digits;
  }

  // ------------------------------------------------------------- the other way

  /** The descriptors the parser returns for texts without line feeds. */
  predicate IsDescriptor(f: Field) {
    match f.dataType
    case StringData => f.size.None? && f.structName == ""
    case BoolData => f.size.None? && f.structName == ""
    case AddressData => f.size.None? && f.structName == ""
    case BytesData => f.structName == "" && (f.size.Some? ==> 1 <= f.size.value <= 32)
    case UintData => f.structName == "" && f.size.Some? && 1 <= f.size.value <= 32
    case IntData => f.structName == "" && f.size.Some? && 1 <= f.size.value <= 32
    case StructData =>
      && f.size.None? && TypeNameText(f.structName) && |f.structName| <= MAX_TYPE_NAME
      && f.structName !in {"string", "bool", "address", "bytes"}
      && DigitsAfter(f.structName, "bytes").None? && DigitsAfter(f.structName, "uint").None?
      && DigitsAfter(f.structName, "int").None?
  }

  lemma DecimalIsWidth(n: nat)
    requires n > 0
    ensures IsCanonicalWidth(Decimal(n)) && DigitsValue(Decimal(n)) == n
  {
    DecimalValue(n);
  }

  lemma DigitsAfterOf(word: string, digits: string)
    requires AllDigits(digits)
    ensures DigitsAfter(word + digits, word) == Some(digits)
  {
    assert (word + digits)[|word|..] == digits;
  }

  lemma OtherWord(base: string, word: string)
    requires base != "" && word != "" && base[0] != word[0]
    ensures DigitsAfter(base, word).None?
  {
  }

  lemma SizedBase(word: string, n: nat)
    requires word in {"bytes", "uint", "int"} && n > 0
    requires if word == "bytes" then n <= 32 else 8 <= n <= 256 && n % 8 == 0
    ensures ParseBase(word + Decimal(n)) ==
            Ok(if word == "bytes" then Shape(BytesData, Some(n), "")
               else Shape(if word == "uint" then UintData else IntData, Some(n / 8), ""))
  {
    hide DigitsValue, Decimal, IsCanonicalWidth, DigitsAfter, IsTypeName;
    var base := word + Decimal(n);
    DecimalIsWidth(n);
    DigitsAfterOf(word, Decimal(n));
    assert base[0] == word[0] && |base| > |word| && base[..|word|] == word;
    if word != "bytes" {
      assert base[2] == word[2];
      OtherWord(base, "bytes");
      if word == "int" {
        OtherWord(base, "uint");
      }
    }
  }

  lemma ParseUndoesPrintShape(f: Field)
    requires IsDescriptor(f)
    ensures ParseBase(PrintShape(f.dataType, f.size, f.structName)) == Ok(Shape(f.dataType, f.size, f.structName))
  {
    hide DigitsValue, Decimal, IsCanonicalWidth, DigitsAfter;
    match f.dataType
    case BytesData =>
      if f.size.Some? {
        SizedBase("bytes", f.size.value);
      }
    case UintData => SizedBase("uint", 8 * f.size.value);
    case IntData => SizedBase("int", 8 * f.size.value);
    case _ =>
  }

  lemma NoBracket(f: Field)
    requires IsDescriptor(f)
    ensures forall i :: 0 <= i < |PrintShape(f.dataType, f.size, f.structName)| ==>
              PrintShape(f.dataType, f.size, f.structName)[i] != '['
  {
    hide DigitsAfter;
  }

  lemma {:induction false} IndexBetween(a: string, b: string, c: char)
    requires (forall i :: 0 <= i < |a| ==> a[i] != c) && (b == "" || b[0] == c)
    ensures IndexOf(a + b, c) == |a|
  {
    if a == "" {
      assert a + b == b;
    } else {
      assert (a + b)[1..] == a[1..] + b;
      IndexBetween(a[1..], b, c);
    }
  }

  /** Parsing a printed descriptor gives the descriptor back. */
  lemma ParseUndoesPrint(f: Field)
    requires IsDescriptor(f)
    ensures ParseType(Print(f)) == Ok(f)
  {
    hide ParseBase, ParseLevels, PrintShape, IsDescriptor, IndexOf;
    var base, suffix := PrintShape(f.dataType, f.size, f.structName), PrintLevels(f.levels);
    NoBracket(f);
    IndexBetween(base, suffix, '[');
    assert (base + suffix)[..|base|] == base && (base + suffix)[|base|..] == suffix;
    ParseUndoesPrintShape(f);
    ParseUndoesPrintLevels(f.levels);
  }
}
