/** The static ABI encoder of the clear-sign catalog
    (keepkeylib/clearsign_abi.py), against the streaming host's integers and
    against the head and tail encoding of static tuples ("Formal Specification
    of the Encoding", Solidity Contract ABI Specification). */
module ClearsignAbi {
  import opened Wrappers
  import opened Text
  import opened Bytes
  import opened Hex
  import AbiTypes
  import SignatureParser
  import StreamTypes
  import StreamValues

  const WORD: nat := 32

  datatype Arg = IntArg(n: int) | BoolArg(b: bool) | BytesArg(data: bytes) | TextArg(text: string)

  /** `_exact_integer`. */
  function ExactInteger(v: Arg): Result<int> {
    match v
    case IntArg(n) => Ok(n)
    case BoolArg(b) => Ok(if b then 1 else 0)
    case TextArg(text) => IntOf(text)
    case BytesArg(_) => Raised
  }

  function RawBytes(v: Arg): Result<bytes> {
    match v
    case BytesArg(data) => Ok(data)
    case TextArg(text) => HexBytes(if StartsWith(text, "0x") then text[2..] else text)
    case _ => Raised
  }

  /** `_int_bits`. */
  function IntBits(digits: string): (r: Result<nat>)
    ensures r.Ok? ==> 8 <= r.value <= 256 && r.value % 8 == 0
  {
    if digits == "" then Ok(256)
    else if !AllDigits(digits) then Raised
    else
      var bits := DigitsValue(digits);
      if bits < 8 || bits > 256 || bits % 8 != 0 then Raised else Ok(bits)
  }

  function BytesWidth(digits: string): (r: Result<nat>)
    ensures r.Ok? ==> 1 <= r.value <= 32
  {
    if digits == "" || !AllDigits(digits) then Raised
    else
      var n := DigitsValue(digits);
      if 1 <= n <= 32 then Ok(n) else Raised
  }

  function Filled(x: Byte, n: nat): (b: bytes)
    ensures |b| == n
  {
    seq(n, _ => x)
  }

  /** The kinds of static type, or none. */
  datatype StaticType = AddressType | UintType(bits: nat) | IntType(bits: nat) | BoolType | BytesType(width: nat)

  function TypeOf(typ: string): (r: Result<StaticType>)
    ensures r.Ok? && r.value.UintType? ==> 8 <= r.value.bits <= 256 && r.value.bits % 8 == 0
    ensures r.Ok? && r.value.IntType? ==> 8 <= r.value.bits <= 256 && r.value.bits % 8 == 0
    ensures r.Ok? && r.value.BytesType? ==> 1 <= r.value.width <= 32
  {
    if typ != "" && typ[|typ| - 1] == ']' then Raised
    else if typ == "address" then Ok(AddressType)
    else if StartsWith(typ, "uint") then
      var bits :- IntBits(typ[4..]);
      Ok(UintType(bits))
    else if StartsWith(typ, "int") then
      var bits :- IntBits(typ[3..]);
      Ok(IntType(bits))
    else if typ == "bool" then Ok(BoolType)
    else if StartsWith(typ, "bytes") && typ != "bytes" then
      var width :- BytesWidth(typ[5..]);
      Ok(BytesType(width))
    else Raised
  }

  /** One branch of the loop in `encode_static_args`. */
  function EncodeArg(typ: string, v: Arg): (r: Result<bytes>)
    ensures r.Ok? ==> |r.value| == WORD
  {
    var t :- TypeOf(typ);
    match t
    case AddressType =>
      var raw :- RawBytes(v);
      if |raw| == 20 then Ok(Filled(0, 12) + raw) else Raised
    case UintType(bits) =>
      var n :- ExactInteger(v);
      if 0 <= n < Pow256(bits / 8) then Ok(BigEndian(n, WORD)) else Raised
    case IntType(bits) =>
      var n :- ExactInteger(v);
      if FitsSigned(n, bits / 8) then
        Pow256Grows(bits / 8, WORD);
        Ok(TwosComplement(n, WORD))
      else Raised
    case BoolType => if v.BoolArg? then Ok(BigEndian(if v.b then 1 else 0, WORD)) else Raised
    case BytesType(width) =>
      var raw :- RawBytes(v);
      if |raw| == width then Ok(raw + Filled(0, WORD - width)) else Raised
  }

  /** All arguments, each a word. */
  function EncodeArgs(types: seq<string>, vs: seq<Arg>): Result<bytes> {
    if |types| != |vs| then Raised
    else if types == [] then Ok([])
    else
      var n := |types| - 1;
      var front :- EncodeArgs(types[..n], vs[..n]);
      var word :- EncodeArg(types[n], vs[n]);
      Ok(front + word)
  }

  /** `encode_static_args`. */
  method EncodeStaticArgs(types: seq<string>, vs: seq<Arg>) returns (r: Result<bytes>)
    ensures r == EncodeArgs(types, vs)
  {
    if |types| != |vs| {
      return Raised;
    }
    var out: bytes := [];
    for i := 0 to |types|
      invariant EncodeArgs(types[..i], vs[..i]) == Ok(out)
    {
      assert types[..i + 1][..i] == types[..i] && vs[..i + 1][..i] == vs[..i];
      var word := EncodeArg(types[i], vs[i]);
      if word.Raised? {
        RaisedStays(types, vs, i + 1);
        return Raised;
      }
      out := out + word.value;
    }
    assert types[..|types|] == types && vs[..|vs|] == vs;
    return Ok(out);
  }

  lemma {:induction false} RaisedStays(types: seq<string>, vs: seq<Arg>, i: nat)
    requires i <= |types| == |vs| && EncodeArgs(types[..i], vs[..i]).Raised?
    ensures EncodeArgs(types, vs).Raised?
    decreases |types|
  {
    hide EncodeArg;
    if i < |types| {
      var n := |types| - 1;
      assert types[..n][..i] == types[..i] && vs[..n][..i] == vs[..i];
      RaisedStays(types[..n], vs[..n], i);
    } else {
      assert types[..i] == types && vs[..i] == vs;
    }
  }

  // ------------------------------------------------------------------- integers

  lemma {:induction false} Pow256Grows(w: nat, v: nat)
    requires w <= v
    ensures Pow256(w) <= Pow256(v)
  {
    if w < v {
      Pow256Grows(w, v - 1);
    }
  }

  /** More leading bytes of a number that fits are zeros. */
  lemma {:induction false} ZeroExtends(n: nat, w: nat, k: nat)
    requires n < Pow256(w)
    ensures BigEndian(n, w + k) == Filled(0, k) + BigEndian(n, w)
    decreases w
  {
    if w == 0 {
      ZeroBytes(k);
      assert BigEndian(0, k) == Filled(0, k) + [];
    } else {
      ZeroExtends(n / 256, w - 1, k);
      var low: bytes := [n % 256];
      assert (Filled(0, k) + BigEndian(n / 256, w - 1)) + low == Filled(0, k) + (BigEndian(n / 256, w - 1) + low);
    }
  }

  lemma {:induction false} ZeroBytes(k: nat)
    ensures BigEndian(0, k) == Filled(0, k)
  {
    if k > 0 {
      ZeroBytes(k - 1);
    }
  }

  /** More leading bytes of a negative number are all ones. */
  lemma {:induction false} OnesExtend(n: int, w: nat, k: nat)
    requires 0 - Pow256(w) <= n < 0
    ensures 0 <= n + Pow256(w + k)
    ensures BigEndian(n + Pow256(w + k), w + k) == Filled(0xff, k) + BigEndian(n + Pow256(w), w)
    decreases w
  {
    Pow256Grows(w, w + k);
    if w == 0 {
      OneBytes(k);
      assert BigEndian(Pow256(k) - 1, k) == Filled(0xff, k) + [];
    } else {
      var q := n / 256;
      assert n == 256 * q + n % 256 && 0 - Pow256(w - 1) <= q < 0;
      OnesExtend(q, w - 1, k);
      LowByte(q, n % 256, Pow256(w - 1));
      LowByte(q, n % 256, Pow256(w - 1 + k));
      var low: bytes := [n % 256];
      assert BigEndian(n + Pow256(w + k), w + k) == BigEndian(q + Pow256(w - 1 + k), w - 1 + k) + low;
      assert BigEndian(n + Pow256(w), w) == BigEndian(q + Pow256(w - 1), w - 1) + low;
      assert (Filled(0xff, k) + BigEndian(q + Pow256(w - 1), w - 1)) + low ==
               Filled(0xff, k) + (BigEndian(q + Pow256(w - 1), w - 1) + low);
    }
  }

  lemma LowByte(q: int, r: nat, p: nat)
    requires r < 256
    ensures (256 * q + r + 256 * p) / 256 == q + p && (256 * q + r + 256 * p) % 256 == r
  {
  }

  lemma {:induction false} OneBytes(k: nat)
    ensures BigEndian(Pow256(k) - 1, k) == Filled(0xff, k)
  {
    if k > 0 {
      OneBytes(k - 1);
      assert (Pow256(k) - 1) / 256 == Pow256(k - 1) - 1 && (Pow256(k) - 1) % 256 == 255;
    }
  }

  /** The type text of an integer descriptor of the streaming host. */
  function IntegerText(f: StreamTypes.Field): string
    requires f.size.Some?
  {
    (if f.dataType.UintData? then "uint" else "int") + Decimal(8 * f.size.value)
  }

  lemma IntegerTextType(f: StreamTypes.Field)
    requires f.dataType in {StreamTypes.UintData, StreamTypes.IntData} && f.size.Some? && 1 <= f.size.value <= 32
    ensures TypeOf(IntegerText(f)) ==
            Ok(if f.dataType.UintData? then UintType(8 * f.size.value) else IntType(8 * f.size.value))
  {
    SizedTypes(8 * f.size.value);
  }

  lemma SizedTypes(bits: nat)
    requires 8 <= bits <= 256 && bits % 8 == 0
    ensures TypeOf("uint" + Decimal(bits)) == Ok(UintType(bits)) && TypeOf("int" + Decimal(bits)) == Ok(IntType(bits))
  {
    hide Decimal, NatOf, DigitsValue;
    var digits := Decimal(bits);
    DecimalValue(bits);
    assert IsDigit(digits[|digits| - 1]);
    var unsigned, signed := "uint" + digits, "int" + digits;
    assert unsigned[|unsigned| - 1] == digits[|digits| - 1] && unsigned[4..] == digits && unsigned[0] == 'u';
    assert signed[|signed| - 1] == digits[|digits| - 1] && signed[3..] == digits && signed[0] == 'i';
  }

  /** The byte an integer is extended with. */
  function Fill(n: int): Byte {
    if n < 0 then 0xff else 0
  }

  /** The streaming host and the static encoder take the same integers for a
      type, and the word is the leaf, zero- or sign-extended to 32 bytes. */
  lemma IntegerEncodingsAgree(f: StreamTypes.Field, n: int)
    requires f.dataType in {StreamTypes.UintData, StreamTypes.IntData} && f.size.Some? && 1 <= f.size.value <= 32
    ensures var leaf, word := StreamValues.Encode(f, StreamValues.Number(n), StreamValues.MAX_LEAF),
              EncodeArg(IntegerText(f), IntArg(n));
            && (leaf.Ok? <==> word.Ok?)
            && (leaf.Ok? ==> word.value == Filled(Fill(n), WORD - f.size.value) + leaf.value)
  {
    hide IntegerText, TypeOf, Pow256, BigEndian;
    IntegerTextType(f);
    var w := f.size.value;
    if f.dataType.UintData? {
      if 0 <= n < Pow256(w) {
        ZeroExtends(n, w, WORD - w);
      }
    } else if FitsSigned(n, w) {
      if n < 0 {
        OnesExtend(n, w, WORD - w);
      } else {
        ZeroExtends(n, w, WORD - w);
      }
    }
  }

  /** The same values in both programs. */
  predicate SameValue(v: StreamValues.Json, a: Arg) {
    match v
    case Number(n) => a == IntArg(n)
    case Truth(b) => a == BoolArg(b)
    case Raw(data) => a == BytesArg(data)
    case Words(text) => a == TextArg(text)
    case _ => false
  }

  /** The type text of a static leaf that is no integer. */
  function OpaqueText(f: StreamTypes.Field): string {
    match f.dataType
    case BoolData => "bool"
    case AddressData => "address"
    case _ => "bytes" + if f.size.Some? then Decimal(f.size.value) else ""
  }

  predicate IsOpaque(f: StreamTypes.Field) {
    || f.dataType in {StreamTypes.BoolData, StreamTypes.AddressData}
    || (f.dataType.BytesData? && f.size.Some? && 1 <= f.size.value <= 32)
  }

  lemma OpaqueTextType(f: StreamTypes.Field)
    requires IsOpaque(f)
    ensures TypeOf(OpaqueText(f)) == Ok(if f.dataType.BoolData? then BoolType
                                        else if f.dataType.AddressData? then AddressType
                                        else BytesType(f.size.value))
  {
    hide Decimal, DigitsValue;
    if f.dataType.BytesData? {
      var digits := Decimal(f.size.value);
      DecimalValue(f.size.value);
      var text := "bytes" + digits;
      assert IsDigit(digits[|digits| - 1]);
      assert text[|text| - 1] == digits[|digits| - 1] && text[5..] == digits && text[0] == 'b' && text[1] == 'y';
      assert |text| > 5;
    } else {
      var text := OpaqueText(f);
      assert text[|text| - 1] == if f.dataType.BoolData? then 'l' else 's';
      assert text[0] == if f.dataType.BoolData? then 'b' else 'a';
    }
  }

  /** The leaf in its word: fixed bytes stand on the left, all else on the right. */
  function Extended(f: StreamTypes.Field, leaf: bytes): bytes
    requires |leaf| <= WORD
  {
    if f.dataType.BytesData? then leaf + Filled(0, WORD - |leaf|) else Filled(0, WORD - |leaf|) + leaf
  }

  /** Bools, addresses and fixed bytes: both programs make the same word of a
      value they both take, and they take the same bools, numbers and byte
      strings. */
  lemma OpaqueEncodingsAgree(f: StreamTypes.Field, v: StreamValues.Json, a: Arg)
    requires IsOpaque(f) && SameValue(v, a)
    ensures var leaf, word := StreamValues.Encode(f, v, StreamValues.MAX_LEAF), EncodeArg(OpaqueText(f), a);
            && (leaf.Ok? && word.Ok? ==> |leaf.value| <= WORD && word.value == Extended(f, leaf.value))
            && (!v.Words? ==> (leaf.Ok? <==> word.Ok?))
  {
    hide TypeOf, OpaqueText, HexBytes, AllHex, BigEndian;
    OpaqueTextType(f);
    if v.Truth? {
      BoolWord(v.b);
    }
    if v.Words? {
      TextsAgree(v.text);
    }
  }

  /** Which texts both programs take as bytes: the streaming host alone takes the
      prefix `0X`, the static encoder alone takes blanks between bytes. */
  lemma OpaqueTextsAgree(f: StreamTypes.Field, text: string)
    requires IsOpaque(f)
    ensures var leaf, word := StreamValues.Encode(f, StreamValues.Words(text), StreamValues.MAX_LEAF),
              EncodeArg(OpaqueText(f), TextArg(text));
            && (leaf.Ok? ==> (word.Ok? <==> text[..if |text| < 2 then 0 else 2] != "0X"))
            && (word.Ok? ==> (leaf.Ok? <==> forall i :: 0 <= i < |text| ==> !IsAsciiSpace(text[i])))
  {
    hide TypeOf, OpaqueText, HexBytes, AllHex, BigEndian, IsAsciiSpace;
    OpaqueTextType(f);
    TextsAgree(text);
  }

  lemma TextsAgree(text: string)
    ensures var leaf, raw := StreamValues.ToBytes(StreamValues.Words(text)), RawBytes(TextArg(text));
            && (leaf.Ok? && raw.Ok? ==> leaf == raw)
            && (leaf.Ok? ==> (raw.Ok? <==> text[..if |text| < 2 then 0 else 2] != "0X"))
            && (raw.Ok? ==> (leaf.Ok? <==> forall i :: 0 <= i < |text| ==> !IsAsciiSpace(text[i])))
  {
    hide HexBytes, AllHex, HexDigit;
    var digits := if StartsWith(text, "0x") then text[2..] else text;
    if StartsWith(text, "0X") {
      CapitalPrefix(text);
      return;
    }
    assert text[..if |text| < 2 then 0 else 2] != "0X";
    if HexBytes(digits).Ok? {
      if forall i :: 0 <= i < |text| ==> !IsAsciiSpace(text[i]) {
        assert forall i :: 0 <= i < |digits| ==> !IsAsciiSpace(digits[i]);
        TakenIsHex(digits);
      }
      if AllHex(digits) {
        HexUnspaced(digits);
        assert forall i :: 0 <= i < |text| ==> i < 2 || digits[|digits| - (|text| - i)] == text[i];
      }
    }
  }

  lemma CapitalPrefix(text: string)
    requires StartsWith(text, "0X")
    ensures RawBytes(TextArg(text)).Raised? && text[..2] == "0X"
  {
    assert text[0] == '0' && text[1] == 'X';
  }

  lemma HexUnspaced(s: string)
    requires AllHex(s)
    ensures forall i :: 0 <= i < |s| ==> !IsAsciiSpace(s[i])
  {
    forall i | 0 <= i < |s| ensures !IsAsciiSpace(s[i]) {
      NoBlankDigit(s[i]);
    }
  }

  // ----------------------------------------------------- heads and tails

  /** ABI types: elementary words, byte strings, and what is built of them. */
  datatype Abi =
    | Elementary(typ: string)
    | ByteString
    | Product(members: seq<Abi>)
    | FixedList(element: Abi, length: nat)
    | List(element: Abi)

  datatype AbiValue = Word(v: Arg) | Data(data: bytes) | Items(items: seq<AbiValue>)

  /** The dynamic types: byte strings, lists of any length, and what has a
      dynamic part. */
  predicate IsDynamic(t: Abi) {
    match t
    case Elementary(_) => false
    case ByteString => true
    case Product(members) => exists i :: 0 <= i < |members| && IsDynamic(members[i])
    case FixedList(element, _) => IsDynamic(element)
    case List(_) => true
  }

  function Repeated(t: Abi, n: nat): (r: seq<Abi>)
    ensures |r| == n && forall i :: 0 <= i < n ==> r[i] == t
  {
    seq(n, _ => t)
  }

  /** `tail(X)`: the encoding of a dynamic part, nothing for a static one. */
  function Tail(t: Abi, e: bytes): bytes {
    if IsDynamic(t) then e else []
  }

  function Tails(ts: seq<Abi>, es: seq<bytes>): bytes
    requires |ts| == |es|
  {
    if ts == [] then [] else Tail(ts[0], es[0]) + Tails(ts[1..], es[1..])
  }

  /** The length of all heads: a word for each dynamic part. */
  function HeadsLength(ts: seq<Abi>, es: seq<bytes>): nat
    requires |ts| == |es|
  {
    if ts == [] then 0 else (if IsDynamic(ts[0]) then WORD else |es[0]|) + HeadsLength(ts[1..], es[1..])
  }

  /** `head(X)` of each part: a static part's encoding, or the offset at which a
      dynamic part's tail will begin. */
  function Heads(ts: seq<Abi>, es: seq<bytes>, offset: nat): bytes
    requires |ts| == |es|
  {
    if ts == [] then []
    else (if IsDynamic(ts[0]) then BigEndian(offset, WORD) else es[0])
         + Heads(ts[1..], es[1..], offset + |Tail(ts[0], es[0])|)
  }

  function HeadsAndTails(ts: seq<Abi>, es: seq<bytes>): bytes
    requires |ts| == |es|
  {
    Heads(ts, es, HeadsLength(ts, es)) + Tails(ts, es)
  }

  function PadRight(data: bytes): (r: bytes)
    ensures |r| % WORD == 0 && data <= r && |r| < |data| + WORD
  {
    if |data| % WORD == 0 then data
    else
      var fill := WORD - |data| % WORD;
      data + seq(fill, _ => 0)
  }

  /** `enc(X)`. */
  function Enc(t: Abi, v: AbiValue): Result<bytes>
    decreases v, 1
  {
    match (t, v)
    case (Elementary(typ), Word(arg)) => EncodeArg(typ, arg)
    case (ByteString, Data(data)) => Ok(BigEndian(|data|, WORD) + PadRight(data))
    case (Product(members), Items(items)) =>
      var es :- Encs(members, items);
      Ok(HeadsAndTails(members, es))
    case (FixedList(element, n), Items(items)) =>
      var es :- Encs(Repeated(element, n), items);
      Ok(HeadsAndTails(Repeated(element, n), es))
    case (List(element), Items(items)) =>
      var es :- Encs(Repeated(element, |items|), items);
      Ok(BigEndian(|items|, WORD) + HeadsAndTails(Repeated(element, |items|), es))
    case _ => Raised
  }

  function Encs(ts: seq<Abi>, vs: seq<AbiValue>): (r: Result<seq<bytes>>)
    ensures r.Ok? ==> |r.value| == |ts| == |vs|
    decreases vs, 0
  {
    if |ts| != |vs| then Raised
    else if vs == [] then Ok([])
    else
      var first :- Enc(ts[0], vs[0]);
      var rest :- Encs(ts[1..], vs[1..]);
      Ok([first] + rest)
  }

  lemma {:induction false} HeadsSize(ts: seq<Abi>, es: seq<bytes>, offset: nat)
    requires |ts| == |es|
    ensures |Heads(ts, es, offset)| == HeadsLength(ts, es)
  {
    hide IsDynamic;
    if ts != [] {
      HeadsSize(ts[1..], es[1..], offset + |Tail(ts[0], es[0])|);
    }
  }

  /** Heads of consecutive parts are consecutive, and so are their tails. */
  lemma {:induction false} HeadsJoin(ts: seq<Abi>, es: seq<bytes>, us: seq<Abi>, fs: seq<bytes>, offset: nat)
    requires |ts| == |es| && |us| == |fs|
    ensures Heads(ts + us, es + fs, offset) == Heads(ts, es, offset) + Heads(us, fs, offset + |Tails(ts, es)|)
    ensures Tails(ts + us, es + fs) == Tails(ts, es) + Tails(us, fs)
    ensures HeadsLength(ts + us, es + fs) == HeadsLength(ts, es) + HeadsLength(us, fs)
    decreases |ts|
  {
    hide IsDynamic, BigEndian, Tail;
    if ts == [] {
      assert ts + us == us && es + fs == fs;
      assert Heads(ts, es, offset) + Heads(us, fs, offset) == Heads(us, fs, offset);
      assert Tails(ts, es) + Tails(us, fs) == Tails(us, fs);
    } else {
      assert (ts + us)[1..] == ts[1..] + us && (es + fs)[1..] == es[1..] + fs;
      HeadsJoin(ts[1..], es[1..], us, fs, offset + |Tail(ts[0], es[0])|);
      var first := if IsDynamic(ts[0]) then BigEndian(offset, WORD) else es[0];
      var head, last := Heads(ts[1..], es[1..], offset + |Tail(ts[0], es[0])|), Heads(us, fs, offset + |Tails(ts, es)|);
      assert first + (head + last) == (first + head) + last;
    }
  }

  /** A dynamic part is found where its head says: the word at its head's place
      is the offset of its encoding. */
  lemma HeadNamesTail(ts: seq<Abi>, es: seq<bytes>, i: nat)
    requires |ts| == |es| && i < |ts| && IsDynamic(ts[i])
    requires |HeadsAndTails(ts, es)| < Pow256(WORD)
    ensures var all, at := HeadsAndTails(ts, es), HeadsLength(ts[..i], es[..i]);
            && at + WORD <= |all|
            && var offset := Value(all[at..at + WORD]);
               offset + |es[i]| <= |all| && all[offset..offset + |es[i]|] == es[i]
  {
    hide IsDynamic, BigEndian, Value, Pow256, HeadsLength, Tails;
    var all, at, size := HeadsAndTails(ts, es), HeadsLength(ts[..i], es[..i]), HeadsLength(ts, es);
    var before := Tails(ts[..i], es[..i]);
    var offset := size + |before|;
    assert ts == ts[..i] + ts[i..] && es == es[..i] + es[i..];
    HeadsJoin(ts[..i], es[..i], ts[i..], es[i..], size);
    HeadsSize(ts[..i], es[..i], size);
    HeadsSize(ts, es, size);
    var front := Heads(ts[..i], es[..i], size);
    var rest := Heads(ts[i + 1..], es[i + 1..], offset + |es[i]|);
    var after := Tails(ts[i + 1..], es[i + 1..]);
    assert ts[i..][1..] == ts[i + 1..] && es[i..][1..] == es[i + 1..];
    assert Heads(ts, es, size) == front + (BigEndian(offset, WORD) + rest);
    TailsFrom(ts[i..], es[i..]);
    assert Tails(ts, es) == before + (es[i] + after);
    Inside(front, BigEndian(offset, WORD), rest, before, es[i], after);
    ValueOfBigEndian(offset, WORD);
  }

  lemma TailsFrom(ts: seq<Abi>, es: seq<bytes>)
    requires |ts| == |es| && ts != [] && IsDynamic(ts[0])
    ensures Tails(ts, es) == es[0] + Tails(ts[1..], es[1..])
  {
  }

  lemma Inside(front: bytes, word: bytes, rest: bytes, before: bytes, e: bytes, after: bytes)
    ensures var all := (front + (word + rest)) + (before + (e + after));
            var offset := |front| + |word| + |rest| + |before|;
            && all[|front|..|front| + |word|] == word
            && offset + |e| <= |all| && all[offset..offset + |e|] == e
  {
  }

  // --------------------------------------------------------------- static types

  /** Parts and values match in shape. */
  predicate HasShape(t: Abi, v: AbiValue)
    decreases v, 1
  {
    match (t, v)
    case (Elementary(_), Word(_)) => true
    case (Product(members), Items(items)) => HaveShape(members, items)
    case (FixedList(element, n), Items(items)) => HaveShape(Repeated(element, n), items)
    case _ => false
  }

  predicate HaveShape(ts: seq<Abi>, vs: seq<AbiValue>)
    decreases vs, 0
  {
    |ts| == |vs| && (vs == [] || (HasShape(ts[0], vs[0]) && HaveShape(ts[1..], vs[1..])))
  }

  /** The leaves in order: their types and values. */
  function Leaves(t: Abi, v: AbiValue): (r: (seq<string>, seq<Arg>))
    ensures |r.0| == |r.1|
    decreases v, 1
  {
    match (t, v)
    case (Elementary(typ), Word(arg)) => ([typ], [arg])
    case (Product(members), Items(items)) => AllLeaves(members, items)
    case (FixedList(element, n), Items(items)) => AllLeaves(Repeated(element, n), items)
    case _ => ([], [])
  }

  function AllLeaves(ts: seq<Abi>, vs: seq<AbiValue>): (r: (seq<string>, seq<Arg>))
    ensures |r.0| == |r.1|
    decreases vs, 0
  {
    if vs == [] || ts == [] then ([], [])
    else
      var (types, args) := Leaves(ts[0], vs[0]);
      var (moreTypes, moreArgs) := AllLeaves(ts[1..], vs[1..]);
      (types + moreTypes, args + moreArgs)
  }

  function Concat(es: seq<bytes>): bytes {
    if es == [] then [] else es[0] + Concat(es[1..])
  }

  /** Static parts have no tails, and their heads are their encodings: whatever
      the offset, they are simply joined. */
  lemma {:induction false} StaticJoins(ts: seq<Abi>, es: seq<bytes>, offset: nat)
    requires |ts| == |es| && forall i :: 0 <= i < |ts| ==> !IsDynamic(ts[i])
    ensures Tails(ts, es) == [] && Heads(ts, es, offset) == Concat(es)
  {
    hide IsDynamic, BigEndian;
    if ts != [] {
      StaticJoins(ts[1..], es[1..], offset);
    }
  }

  /** Encodings of argument lists are joined. */
  lemma {:induction false} EncodeArgsJoin(types: seq<string>, vs: seq<Arg>, more: seq<string>, us: seq<Arg>)
    requires |types| == |vs| && |more| == |us|
    ensures EncodeArgs(types + more, vs + us) ==
            (if EncodeArgs(types, vs).Ok? && EncodeArgs(more, us).Ok?
             then Ok(EncodeArgs(types, vs).value + EncodeArgs(more, us).value)
             else Raised)
    decreases |more|
  {
    hide EncodeArg;
    if more == [] {
      assert types + more == types && vs + us == vs;
      assert EncodeArgs(types, vs).Ok? ==> EncodeArgs(types, vs).value + [] == EncodeArgs(types, vs).value;
    } else {
      var n := |more| - 1;
      var allTypes, all := types + more, vs + us;
      assert allTypes[..|allTypes| - 1] == types + more[..n] && all[..|all| - 1] == vs + us[..n];
      EncodeArgsJoin(types, vs, more[..n], us[..n]);
      var a, b, word := EncodeArgs(types, vs), EncodeArgs(more[..n], us[..n]), EncodeArg(more[n], us[n]);
      if a.Ok? && b.Ok? && word.Ok? {
        assert (a.value + b.value) + word.value == a.value + (b.value + word.value);
      }
    }
  }

  lemma {:induction false} EncodeArgsLength(types: seq<string>, vs: seq<Arg>)
    requires EncodeArgs(types, vs).Ok?
    ensures |EncodeArgs(types, vs).value| == WORD * |types|
    decreases |types|
  {
    hide EncodeArg;
    if types != [] {
      EncodeArgsLength(types[..|types| - 1], vs[..|vs| - 1]);
    }
  }

  /** The head and tail encoding of any static type, of any nest of tuples and
      fixed lists, is the static encoding of its leaves, one word each. */
  lemma {:induction false} TupleEncodingIsFlat(t: Abi, v: AbiValue)
    requires !IsDynamic(t) && HasShape(t, v)
    ensures Enc(t, v) == EncodeArgs(Leaves(t, v).0, Leaves(t, v).1)
    ensures Enc(t, v).Ok? ==> |Enc(t, v).value| == WORD * |Leaves(t, v).0|
    decreases v, 1
  {
    hide EncodeArg;
    match (t, v) {
      case (Elementary(typ), Word(arg)) => OneArg(typ, arg);
      case (Product(members), Items(items)) => PartsAreFlat(members, items);
      case (FixedList(element, n), Items(items)) => PartsAreFlat(Repeated(element, n), items);
    }
    if Enc(t, v).Ok? {
      EncodeArgsLength(Leaves(t, v).0, Leaves(t, v).1);
    }
  }

  lemma {:induction false} PartsAreFlat(ts: seq<Abi>, vs: seq<AbiValue>)
    requires HaveShape(ts, vs) && forall i :: 0 <= i < |ts| ==> !IsDynamic(ts[i])
    ensures var flat := EncodeArgs(AllLeaves(ts, vs).0, AllLeaves(ts, vs).1);
            if Encs(ts, vs).Ok? then flat == Ok(HeadsAndTails(ts, Encs(ts, vs).value)) else flat.Raised?
    decreases vs, 1
  {
    hide Enc, Leaves, HasShape, EncodeArgs;
    ConcatIsFlat(ts, vs);
    if Encs(ts, vs).Ok? {
      var es := Encs(ts, vs).value;
      StaticJoins(ts, es, HeadsLength(ts, es));
      assert Concat(es) + [] == Concat(es);
    }
  }

  lemma {:induction false} ConcatIsFlat(ts: seq<Abi>, vs: seq<AbiValue>)
    requires HaveShape(ts, vs) && forall i :: 0 <= i < |ts| ==> !IsDynamic(ts[i])
    ensures var flat := EncodeArgs(AllLeaves(ts, vs).0, AllLeaves(ts, vs).1);
            if Encs(ts, vs).Ok? then flat == Ok(Concat(Encs(ts, vs).value)) else flat.Raised?
    decreases vs, 0
  {
    hide Enc, Leaves, HasShape, IsDynamic, EncodeArg;
    if vs == [] {
      NoArgs();
    } else {
      TupleEncodingIsFlat(ts[0], vs[0]);
      ConcatIsFlat(ts[1..], vs[1..]);
      JoinLeaves(Leaves(ts[0], vs[0]), AllLeaves(ts[1..], vs[1..]));
    }
  }

  lemma NoArgs()
    ensures EncodeArgs([], []) == Ok([])
  {
  }

  lemma JoinLeaves(a: (seq<string>, seq<Arg>), b: (seq<string>, seq<Arg>))
    requires |a.0| == |a.1| && |b.0| == |b.1|
    ensures EncodeArgs(a.0 + b.0, a.1 + b.1) ==
            (if EncodeArgs(a.0, a.1).Ok? && EncodeArgs(b.0, b.1).Ok?
             then Ok(EncodeArgs(a.0, a.1).value + EncodeArgs(b.0, b.1).value)
             else Raised)
  {
    EncodeArgsJoin(a.0, a.1, b.0, b.1);
  }

  lemma OneArg(typ: string, value: Arg)
    ensures EncodeArgs([typ], [value]) == EncodeArg(typ, value)
  {
    hide EncodeArg;
    assert [typ][..0] == [] && [value][..0] == [];
    var word := EncodeArg(typ, value);
    assert word.Ok? ==> [] + word.value == word.value;
  }

  // ------------------------------------------------------------------- decoding

  /** What a word of a type holds. */
  function DecodeWord(typ: string, word: bytes): Result<Arg>
    requires |word| == WORD
  {
    var t :- TypeOf(typ);
    match t
    case AddressType => Ok(BytesArg(word[12..]))
    case UintType(_) => Ok(IntArg(Value(word)))
    case IntType(_) => Ok(IntArg(SignedValue(word)))
    case BoolType => Ok(BoolArg(word[31] == 1))
    case BytesType(width) => Ok(BytesArg(word[..width]))
  }

  /** An argument in the form its type has. */
  function Plain(typ: string, v: Arg): Result<Arg> {
    var t :- TypeOf(typ);
    if t.UintType? || t.IntType? then
      var n :- ExactInteger(v);
      Ok(IntArg(n))
    else if t.BoolType? then Ok(v)
    else
      var raw :- RawBytes(v);
      Ok(BytesArg(raw))
  }

  lemma WordDecodes(typ: string, v: Arg)
    requires EncodeArg(typ, v).Ok?
    ensures DecodeWord(typ, EncodeArg(typ, v).value) == Plain(typ, v)
  {
    hide BigEndian, Value, Pow256, TypeOf, RawBytes, ExactInteger;
    var t := TypeOf(typ).value;
    var word := EncodeArg(typ, v).value;
    match t
    case UintType(bits) =>
      Pow256Grows(bits / 8, WORD);
      ValueOfBigEndian(ExactInteger(v).value, WORD);
    case IntType(bits) =>
      Pow256Grows(bits / 8, WORD);
      SignedValueOfTwosComplement(ExactInteger(v).value, WORD);
    case BoolType => BoolWord(v.b);
    case AddressType => assert word[12..] == RawBytes(v).value;
    case BytesType(width) => assert word[..width] == RawBytes(v).value;
  }

  lemma BoolWord(b: bool)
    ensures BigEndian(if b then 1 else 0, WORD)[31] == if b then 1 else 0
    ensures BigEndian(if b then 1 else 0, WORD) == Filled(0, 31) + [if b then 1 else 0]
  {
    ZeroExtends(if b then 1 else 0, 1, 31);
  }

  /** A word as the ABI specification has it for a type: what the value leaves
      free of the 32 bytes is filled as the type says. */
  predicate WellFormed(t: StaticType, word: bytes)
    requires |word| == WORD
  {
    match t
    case AddressType => word[..12] == Filled(0, 12)
    case UintType(bits) => Value(word) < Pow256(bits / 8)
    case IntType(bits) => FitsSigned(SignedValue(word), bits / 8)
    case BoolType => word[..31] == Filled(0, 31) && word[31] <= 1
    case BytesType(width) => width <= WORD && word[width..] == Filled(0, WORD - width)
  }

  /** An argument is accepted as `word` exactly when `word` is a well-formed word
      of the type that decodes to the argument. */
  lemma ArgIff(typ: string, v: Arg, word: bytes)
    ensures EncodeArg(typ, v) == Ok(word) <==>
            && |word| == WORD && TypeOf(typ).Ok? && WellFormed(TypeOf(typ).value, word)
            && DecodeWord(typ, word) == Plain(typ, v)
  {
    hide TypeOf;
    if TypeOf(typ).Ok? && |word| == WORD {
      match TypeOf(typ).value
      case AddressType => AddressIff(typ, v, word);
      case UintType(bits) => UintIff(typ, v, word, bits);
      case IntType(bits) => IntIff(typ, v, word, bits);
      case BoolType => BoolIff(typ, v, word);
      case BytesType(width) => BytesIff(typ, v, word, width);
    }
  }

  lemma AddressIff(typ: string, v: Arg, word: bytes)
    requires TypeOf(typ) == Ok(AddressType) && |word| == WORD
    ensures EncodeArg(typ, v) == Ok(word) <==> WellFormed(AddressType, word) && DecodeWord(typ, word) == Plain(typ, v)
  {
    hide TypeOf, RawBytes, Filled;
    assert word == word[..12] + word[12..];
    var raw := RawBytes(v);
    if raw.Ok? {
      assert (Filled(0, 12) + raw.value)[..12] == Filled(0, 12) && (Filled(0, 12) + raw.value)[12..] == raw.value;
    }
  }

  lemma UintIff(typ: string, v: Arg, word: bytes, bits: nat)
    requires TypeOf(typ) == Ok(UintType(bits)) && |word| == WORD
    ensures EncodeArg(typ, v) == Ok(word) <==>
            WellFormed(UintType(bits), word) && DecodeWord(typ, word) == Plain(typ, v)
  {
    hide TypeOf, ExactInteger, BigEndian, Value, Pow256;
    Pow256Grows(bits / 8, WORD);
    BigEndianOfValue(word);
    var n := ExactInteger(v);
    if n.Ok? && 0 <= n.value < Pow256(bits / 8) {
      ValueOfBigEndian(n.value, WORD);
    }
  }

  lemma IntIff(typ: string, v: Arg, word: bytes, bits: nat)
    requires TypeOf(typ) == Ok(IntType(bits)) && |word| == WORD
    ensures EncodeArg(typ, v) == Ok(word) <==> WellFormed(IntType(bits), word) && DecodeWord(typ, word) == Plain(typ, v)
  {
    hide TypeOf, ExactInteger, BigEndian, Value, Pow256;
    Pow256Grows(bits / 8, WORD);
    BigEndianOfValue(word);
    var n := ExactInteger(v);
    if n.Ok? && FitsSigned(n.value, bits / 8) {
      SignedValueOfTwosComplement(n.value, WORD);
    }
  }

  lemma BoolIff(typ: string, v: Arg, word: bytes)
    requires TypeOf(typ) == Ok(BoolType) && |word| == WORD
    ensures EncodeArg(typ, v) == Ok(word) <==> WellFormed(BoolType, word) && DecodeWord(typ, word) == Plain(typ, v)
  {
    hide TypeOf, BigEndian, Filled;
    BoolWord(true);
    BoolWord(false);
    assert word == word[..31] + [word[31]];
    assert forall x: Byte :: (Filled(0, 31) + [x])[..31] == Filled(0, 31) && (Filled(0, 31) + [x])[31] == x;
  }

  lemma BytesIff(typ: string, v: Arg, word: bytes, width: nat)
    requires TypeOf(typ) == Ok(BytesType(width)) && |word| == WORD
    ensures EncodeArg(typ, v) == Ok(word) <==>
            WellFormed(BytesType(width), word) && DecodeWord(typ, word) == Plain(typ, v)
  {
    hide TypeOf, RawBytes, Filled;
    assert word == word[..width] + word[width..];
    var raw := RawBytes(v);
    if raw.Ok? && |raw.value| == width {
      var b := raw.value + Filled(0, WORD - width);
      assert b[..width] == raw.value && b[width..] == Filled(0, WORD - width);
    }
  }

  // -------------------------------------------------------- the same type names

  /** The static leaves of the compiler's type trees. */
  function StaticLeaf(t: AbiTypes.AbiType): Result<StaticType> {
    if !t.Leaf? then Raised
    else if t.kind == AbiTypes.UINT then Ok(UintType(t.size))
    else if t.kind == AbiTypes.INT then Ok(IntType(t.size))
    else if t.kind == AbiTypes.ADDRESS then Ok(AddressType)
    else if t.kind == AbiTypes.BOOL then Ok(BoolType)
    else if t.kind == AbiTypes.FIXED_BYTES then Ok(BytesType(t.size))
    else Raised
  }

  /** The static encoder and the compiler's parser read a type name alike, bare
      `uint` and `int` as 256 bits wide. Only the parser lets an underscore
      stand between digits. */
  lemma TypeNamesAgree(typ: string)
    requires '_' !in typ
    ensures TypeOf(typ) == (match SignatureParser.ElementaryType(typ)
                            case Ok(leaf) => StaticLeaf(leaf)
                            case Raised => Raised)
  {
    hide DigitsValue;
    if StartsWith(typ, "uint") {
      assert typ[0] == 'u';
      NumeralsAgree(typ[4..]);
      LastKept(typ, typ[4..]);
      WidthOfNothing();
    } else if StartsWith(typ, "int") {
      assert typ[0] == 'i';
      NumeralsAgree(typ[3..]);
      LastKept(typ, typ[3..]);
      WidthOfNothing();
    } else if StartsWith(typ, "bytes") {
      assert typ[0] == 'b' && typ[1] == 'y';
      NumeralsAgree(typ[5..]);
      LastKept(typ, typ[5..]);
    } else {
      assert typ == "address" ==> typ[|typ| - 1] == 's';
      assert typ == "bool" ==> typ[|typ| - 1] == 'l';
    }
  }

  lemma NumeralsAgree(digits: string)
    requires forall i :: 0 <= i < |digits| ==> digits[i] != '_'
    ensures IsNumeral(digits) <==> digits != "" && AllDigits(digits)
  {
  }

  lemma LastKept(typ: string, digits: string)
    requires |digits| <= |typ| && typ[|typ| - |digits|..] == digits
    ensures digits != "" ==> typ[|typ| - 1] == digits[|digits| - 1]
  {
  }

  lemma WidthOfNothing()
    ensures NatOf("256") == Ok(256)
  {
    DecimalValue(256);
    assert Decimal(256) == "256";
  }

  /** Each word of an encoding decodes to its argument. */
  lemma {:induction false} ArgsDecode(types: seq<string>, vs: seq<Arg>, i: nat)
    requires EncodeArgs(types, vs).Ok? && i < |types|
    ensures |EncodeArgs(types, vs).value| == WORD * |types|
    ensures i < |vs| && DecodeWord(types[i], EncodeArgs(types, vs).value[WORD * i..WORD * i + WORD]) ==
              Plain(types[i], vs[i])
    decreases |types|
  {
    hide EncodeArg, DecodeWord, Plain;
    var n := |types| - 1;
    var front, word := EncodeArgs(types[..n], vs[..n]).value, EncodeArg(types[n], vs[n]).value;
    EncodeArgsLength(types, vs);
    EncodeArgsLength(types[..n], vs[..n]);
    if i < n {
      ArgsDecode(types[..n], vs[..n], i);
      assert (front + word)[WORD * i..WORD * i + WORD] == front[WORD * i..WORD * i + WORD];
    } else {
      assert (front + word)[WORD * n..WORD * n + WORD] == word;
      WordDecodes(types[n], vs[n]);
    }
  }
}
