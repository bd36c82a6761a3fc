/** The whole C773 program: sections and tables as `compile` joins them, and as
    `_program_sections` and the table cursors of `device_refusal` read them
    (keepkeylib/erc7730_compiler.py). */
module ProgramCodec {
  import opened Wrappers
  import opened Bytes
  import opened Program

  // ------------------------------------------------------------------- tables

  function Concat(chunks: seq<bytes>): bytes {
    if chunks == [] then [] else chunks[0] + Concat(chunks[1..])
  }

  /** A table: its count, then its entries. */
  function Table(chunks: seq<bytes>): bytes
    requires |chunks| < 0x1_0000
  {
    U16(|chunks|) + Concat(chunks)
  }

  /** `n` entries, one behind the other. */
  function ReadMany<T>(read: (bytes, nat) -> Result<(T, nat)>, data: bytes, at: nat, n: nat): (r: Result<(seq<T>, nat)>)
    ensures r.Ok? ==> |r.value.0| == n
    decreases n
  {
    if n == 0 then Ok(([], at))
    else
      var (first, next) :- read(data, at);
      var (rest, end) :- ReadMany(read, data, next, n - 1);
      Ok(([first] + rest, end))
  }

  function ReadTable<T>(read: (bytes, nat) -> Result<(T, nat)>, section: bytes): Result<(seq<T>, nat)> {
    var count :- ReadU16(section, 0);
    ReadMany(read, section, 2, count)
  }

  /** The reader undoes the encoder wherever an entry stands in `data`. */
  ghost predicate Undoes<T(!new)>(read: (bytes, nat) -> Result<(T, nat)>, data: bytes, x: T, chunk: bytes) {
    forall p: nat :: Has(data, p, chunk) ==> read(data, p) == Ok((x, p + |chunk|))
  }

  lemma {:induction false} ReadManyBack<T(!new)>(read: (bytes, nat) -> Result<(T, nat)>, xs: seq<T>, chunks: seq<bytes>,
      data: bytes, at: nat)
    requires |xs| == |chunks| && Has(data, at, Concat(chunks))
    requires forall i :: 0 <= i < |xs| ==> Undoes(read, data, xs[i], chunks[i])
    ensures ReadMany(read, data, at, |xs|) == Ok((xs, at + |Concat(chunks)|))
    decreases |xs|
  {
    if xs != [] {
      HasParts(data, at, chunks[0], Concat(chunks[1..]));
      assert Undoes(read, data, xs[0], chunks[0]);
      ReadManyBack(read, xs[1..], chunks[1..], data, at + |chunks[0]|);
      assert xs == [xs[0]] + xs[1..];
    }
  }

  /** A table is read back whole, and its cursor ends at the section's end. */
  lemma {:induction false} ReadTableBack<T(!new)>(read: (bytes, nat) -> Result<(T, nat)>, xs: seq<T>,
      chunks: seq<bytes>)
    requires |xs| == |chunks| < 0x1_0000
    requires forall i :: 0 <= i < |xs| ==> Undoes(read, Table(chunks), xs[i], chunks[i])
    ensures ReadTable(read, Table(chunks)) == Ok((xs, |Table(chunks)|))
  {
    var data := Table(chunks);
    HasAll(data);
    HasParts(data, 0, U16(|chunks|), Concat(chunks));
    ReadU16At(data, 0, |chunks|);
    ReadManyBack(read, xs, chunks, data, 2);
  }

  function StringTable(t: Tables): bytes
    requires Encodable(t)
  {
    Table(seq(|t.strings|, i requires 0 <= i < |t.strings| => EncodeString(t.strings[i])))
  }

  function AbiTable(t: Tables): bytes
    requires Encodable(t)
  {
    Table(seq(|t.abi|, i requires 0 <= i < |t.abi| => EncodeRow(t.abi[i])))
  }

  function PathTable(t: Tables): bytes
    requires Encodable(t)
  {
    Table(seq(|t.paths|, i requires 0 <= i < |t.paths| => EncodePath(t.paths[i])))
  }

  function LiteralTable(ls: seq<Literal>): bytes
    requires |ls| < 0x1_0000 && forall i :: 0 <= i < |ls| ==> LiteralFits(ls[i])
  {
    Table(seq(|ls|, i requires 0 <= i < |ls| => EncodeLiteral(ls[i])))
  }

  function ConditionTable(t: Tables): bytes
    requires Encodable(t)
  {
    Table(seq(|t.conditions|, i requires 0 <= i < |t.conditions| => EncodeCondition(t.conditions[i])))
  }

  function FormatterTable(t: Tables): bytes
    requires Encodable(t)
  {
    Table(seq(|t.formatters|, i requires 0 <= i < |t.formatters| => EncodeFormatter(t.formatters[i])))
  }

  function DisplayTable(t: Tables): bytes
    requires Encodable(t)
  {
    Table(seq(|t.displays|, i requires 0 <= i < |t.displays| => EncodeInstruction(t.displays[i])))
  }

  lemma StringTableBack(t: Tables)
    requires Encodable(t)
    ensures ReadTable(ReadString, StringTable(t)) == Ok((t.strings, |StringTable(t)|))
  {
    hide ReadString, EncodeString, ReadTable, Table;
    var chunks := seq(|t.strings|, i requires 0 <= i < |t.strings| => EncodeString(t.strings[i]));
    forall i | 0 <= i < |chunks| ensures Undoes(ReadString, Table(chunks), t.strings[i], chunks[i]) {
      forall p: nat | Has(Table(chunks), p, chunks[i])
        ensures ReadString(Table(chunks), p) == Ok((t.strings[i], p + |chunks[i]|))
      {
        ReadStringAt(Table(chunks), p, t.strings[i]);
      }
    }
    ReadTableBack(ReadString, t.strings, chunks);
  }

  lemma AbiTableBack(t: Tables)
    requires Encodable(t)
    ensures ReadTable(ReadRow, AbiTable(t)) == Ok((t.abi, |AbiTable(t)|))
  {
    hide ReadRow, EncodeRow, ReadTable, Table;
    var chunks := seq(|t.abi|, i requires 0 <= i < |t.abi| => EncodeRow(t.abi[i]));
    forall i | 0 <= i < |chunks| ensures Undoes(ReadRow, Table(chunks), t.abi[i], chunks[i]) {
      forall p: nat | Has(Table(chunks), p, chunks[i])
        ensures ReadRow(Table(chunks), p) == Ok((t.abi[i], p + |chunks[i]|))
      {
        ReadRowAt(Table(chunks), p, t.abi[i]);
      }
    }
    ReadTableBack(ReadRow, t.abi, chunks);
  }

  lemma PathTableBack(t: Tables)
    requires Encodable(t)
    ensures ReadTable(ReadPath, PathTable(t)) == Ok((t.paths, |PathTable(t)|))
  {
    hide ReadPath, EncodePath, ReadTable, Table;
    var chunks := seq(|t.paths|, i requires 0 <= i < |t.paths| => EncodePath(t.paths[i]));
    forall i | 0 <= i < |chunks| ensures Undoes(ReadPath, Table(chunks), t.paths[i], chunks[i]) {
      forall p: nat | Has(Table(chunks), p, chunks[i])
        ensures ReadPath(Table(chunks), p) == Ok((t.paths[i], p + |chunks[i]|))
      {
        ReadPathAt(Table(chunks), p, t.paths[i]);
      }
    }
    ReadTableBack(ReadPath, t.paths, chunks);
  }

  lemma LiteralTableBack(ls: seq<Literal>)
    requires |ls| < 0x1_0000 && forall i :: 0 <= i < |ls| ==> LiteralFits(ls[i])
    ensures ReadTable(ReadLiteral, LiteralTable(ls)) == Ok((ls, |LiteralTable(ls)|))
  {
    hide ReadLiteral, EncodeLiteral, ReadTable, Table;
    var chunks := seq(|ls|, i requires 0 <= i < |ls| => EncodeLiteral(ls[i]));
    forall i | 0 <= i < |chunks| ensures Undoes(ReadLiteral, Table(chunks), ls[i], chunks[i]) {
      forall p: nat | Has(Table(chunks), p, chunks[i])
        ensures ReadLiteral(Table(chunks), p) == Ok((ls[i], p + |chunks[i]|))
      {
        ReadLiteralAt(Table(chunks), p, ls[i]);
      }
    }
    ReadTableBack(ReadLiteral, ls, chunks);
  }

  lemma ConditionTableBack(t: Tables)
    requires Encodable(t)
    ensures ReadTable(ReadCondition, ConditionTable(t)) == Ok((t.conditions, |ConditionTable(t)|))
  {
    hide ReadCondition, EncodeCondition, ReadTable, Table;
    var chunks := seq(|t.conditions|, i requires 0 <= i < |t.conditions| => EncodeCondition(t.conditions[i]));
    forall i | 0 <= i < |chunks| ensures Undoes(ReadCondition, Table(chunks), t.conditions[i], chunks[i]) {
      forall p: nat | Has(Table(chunks), p, chunks[i])
        ensures ReadCondition(Table(chunks), p) == Ok((t.conditions[i], p + |chunks[i]|))
      {
        ReadConditionAt(Table(chunks), p, t.conditions[i]);
      }
    }
    ReadTableBack(ReadCondition, t.conditions, chunks);
  }

  lemma FormatterTableBack(t: Tables)
    requires Encodable(t)
    ensures ReadTable(ReadFormatter, FormatterTable(t)) == Ok((t.formatters, |FormatterTable(t)|))
  {
    hide ReadFormatter, EncodeFormatter, ReadTable, Table;
    var chunks := seq(|t.formatters|, i requires 0 <= i < |t.formatters| => EncodeFormatter(t.formatters[i]));
    forall i | 0 <= i < |chunks| ensures Undoes(ReadFormatter, Table(chunks), t.formatters[i], chunks[i]) {
      forall p: nat | Has(Table(chunks), p, chunks[i])
        ensures ReadFormatter(Table(chunks), p) == Ok((t.formatters[i], p + |chunks[i]|))
      {
        ReadFormatterAt(Table(chunks), p, t.formatters[i]);
      }
    }
    ReadTableBack(ReadFormatter, t.formatters, chunks);
  }

  lemma DisplayTableBack(t: Tables)
    requires Encodable(t)
    ensures ReadTable(ReadInstruction, DisplayTable(t)) == Ok((t.displays, |DisplayTable(t)|))
  {
    hide ReadInstruction, EncodeInstruction, ReadTable, Table;
    var chunks := seq(|t.displays|, i requires 0 <= i < |t.displays| => EncodeInstruction(t.displays[i]));
    forall i | 0 <= i < |chunks| ensures Undoes(ReadInstruction, Table(chunks), t.displays[i], chunks[i]) {
      forall p: nat | Has(Table(chunks), p, chunks[i])
        ensures ReadInstruction(Table(chunks), p) == Ok((t.displays[i], p + |chunks[i]|))
      {
        ReadInstructionAt(Table(chunks), p, t.displays[i]);
      }
    }
    ReadTableBack(ReadInstruction, t.displays, chunks);
  }

  // ----------------------------------------------------------------- sections

  datatype Section = Section(kind: Byte, payload: bytes)

  predicate SectionFits(s: Section) {
    |s.payload| < 0x1_0000_0000
  }

  predicate SectionsFit(ss: seq<Section>) {
    forall i :: 0 <= i < |ss| ==> SectionFits(ss[i])
  }

  function EncodeSection(s: Section): bytes
    requires SectionFits(s)
  {
    [s.kind] + (U32(|s.payload|) + s.payload)
  }

  function EncodeSections(ss: seq<Section>): bytes
    requires SectionsFit(ss)
  {
    if ss == [] then []
    else
      assert forall i :: 1 <= i < |ss| ==> SectionFits(ss[i]);
      EncodeSection(ss[0]) + EncodeSections(ss[1..])
  }

  /** The loop of `_program_sections`. */
  function SectionsFrom(data: bytes, at: nat, n: nat, found: map<Byte, bytes>): Result<map<Byte, bytes>>
    decreases n
  {
    if n == 0 then Ok(found)
    else
      var kind :- ReadByte(data, at);
      var length :- ReadU32(data, at + 1);
      SectionsFrom(data, at + 5 + length, n - 1, found[kind := Bytes.Slice(data, at + 5, length)])
  }

  function Added(found: map<Byte, bytes>, ss: seq<Section>): map<Byte, bytes>
    decreases |ss|
  {
    if ss == [] then found else Added(found[ss[0].kind := ss[0].payload], ss[1..])
  }

  lemma {:induction false} SectionsBack(data: bytes, at: nat, ss: seq<Section>, found: map<Byte, bytes>)
    requires SectionsFit(ss) && Has(data, at, EncodeSections(ss))
    ensures SectionsFrom(data, at, |ss|, found) == Ok(Added(found, ss))
    decreases |ss|
  {
    if ss != [] {
      var s := ss[0];
      assert forall i :: 1 <= i < |ss| ==> SectionFits(ss[i]);
      HasParts(data, at, EncodeSection(s), EncodeSections(ss[1..]));
      SectionBack(data, at, s);
      SectionsBack(data, at + |EncodeSection(s)|, ss[1..], found[s.kind := s.payload]);
    }
  }

  lemma SectionBack(data: bytes, at: nat, s: Section)
    requires SectionFits(s) && Has(data, at, EncodeSection(s))
    ensures ReadByte(data, at) == Ok(s.kind) && ReadU32(data, at + 1) == Ok(|s.payload|)
    ensures Bytes.Slice(data, at + 5, |s.payload|) == s.payload && |EncodeSection(s)| == 5 + |s.payload|
  {
    HasParts(data, at, [s.kind], U32(|s.payload|) + s.payload);
    HasParts(data, at + 1, U32(|s.payload|), s.payload);
    HasByte(data, at, s.kind);
    ReadU32At(data, at + 1, |s.payload|);
    SliceAt(data, at + 5, s.payload);
  }

  lemma {:induction false} AddedHas(found: map<Byte, bytes>, ss: seq<Section>, i: nat)
    requires i < |ss| && forall j :: i < j < |ss| ==> ss[j].kind != ss[i].kind
    ensures ss[i].kind in Added(found, ss) && Added(found, ss)[ss[i].kind] == ss[i].payload
    decreases |ss|
  {
    if i == 0 {
      AddedKeeps(found[ss[0].kind := ss[0].payload], ss[1..], ss[0].kind);
    } else {
      AddedHas(found[ss[0].kind := ss[0].payload], ss[1..], i - 1);
    }
  }

  lemma {:induction false} AddedKeeps(found: map<Byte, bytes>, ss: seq<Section>, kind: Byte)
    requires forall j :: 0 <= j < |ss| ==> ss[j].kind != kind
    ensures kind in Added(found, ss) <==> kind in found
    ensures kind in found ==> Added(found, ss)[kind] == found[kind]
    decreases |ss|
  {
    if ss != [] {
      AddedKeeps(found[ss[0].kind := ss[0].payload], ss[1..], kind);
    }
  }

  /** The sections of a program, empty literal and condition tables left out. */
  function SectionsOf(t: Tables): seq<Section>
    requires Encodable(t)
  {
    [Section(1, StringTable(t)), Section(2, AbiTable(t)), Section(3, PathTable(t))]
    + (if t.literals != [] then [Section(4, LiteralTable(t.literals))] else [])
    + (if t.conditions != [] then [Section(5, ConditionTable(t))] else [])
    + [Section(6, FormatterTable(t)), Section(7, DisplayTable(t)), Section(8, LiteralTable(t.bindings)),
       Section(9, t.resources)]
  }

  /** `sections.get(kind, b"\0\0")`. */
  function Lookup(sections: map<Byte, bytes>, kind: Byte): bytes {
    if kind in sections then sections[kind] else [0, 0]
  }

  predicate KindsAscend(ss: seq<Section>) {
    forall i, j :: 0 <= i < j < |ss| ==> ss[i].kind < ss[j].kind
  }

  lemma SectionKinds(t: Tables)
    requires Encodable(t)
    ensures KindsAscend(SectionsOf(t)) && 7 <= |SectionsOf(t)| <= 9
  {
    hide Encodable, StringTable, AbiTable, PathTable, LiteralTable, ConditionTable, FormatterTable, DisplayTable;
  }

  lemma LookupAt(ss: seq<Section>, i: nat)
    requires i < |ss| && KindsAscend(ss)
    ensures Lookup(Added(map[], ss), ss[i].kind) == ss[i].payload
  {
    AddedHas(map[], ss, i);
  }

  lemma LookupMissing(ss: seq<Section>, kind: Byte)
    requires forall j :: 0 <= j < |ss| ==> ss[j].kind != kind
    ensures Lookup(Added(map[], ss), kind) == [0, 0]
  {
    AddedKeeps(map[], ss, kind);
  }

  /** Every table stands in its section; an absent one reads as empty. */
  lemma SectionsHold(t: Tables)
    requires Encodable(t)
    ensures var found := Added(map[], SectionsOf(t));
            && Lookup(found, 1) == StringTable(t) && Lookup(found, 2) == AbiTable(t) && Lookup(found, 3) == PathTable(t)
            && Lookup(found, 4) == LiteralTable(t.literals) && Lookup(found, 5) == ConditionTable(t)
            && Lookup(found, 6) == FormatterTable(t) && Lookup(found, 7) == DisplayTable(t)
            && Lookup(found, 8) == LiteralTable(t.bindings) && Lookup(found, 9) == t.resources
  {
    hide Encodable, StringTable, AbiTable, PathTable, LiteralTable, ConditionTable, FormatterTable, DisplayTable,
      Lookup, Added, KindsAscend;
    var ss := SectionsOf(t);
    SectionKinds(t);
    EmptyTables(t);
    LookupAt(ss, 0);
    LookupAt(ss, 1);
    LookupAt(ss, 2);
    var n := |ss|;
    LookupAt(ss, n - 4);
    LookupAt(ss, n - 3);
    LookupAt(ss, n - 2);
    LookupAt(ss, n - 1);
    if t.literals != [] {
      LookupAt(ss, 3);
    } else {
      LookupMissing(ss, 4);
    }
    if t.conditions != [] {
      LookupAt(ss, n - 5);
    } else {
      LookupMissing(ss, 5);
    }
  }

  lemma EmptyTables(t: Tables)
    requires Encodable(t)
    ensures t.literals == [] ==> LiteralTable(t.literals) == [0, 0]
    ensures t.conditions == [] ==> ConditionTable(t) == [0, 0]
  {
  }

  // -------------------------------------------------------------------- whole

  /** The header in front of the section count. The selector and the three
      hashes are 32 bytes each and computed elsewhere. */
  function Header(definition: Byte, chainId: nat, address: bytes, selector: bytes, source: bytes, compiler: bytes,
      tokens: bytes, provider: nat, issued: nat, revoked: nat): (h: bytes)
    requires chainId < 0x1_0000_0000_0000_0000 && |address| == 20
    requires |selector| == 32 && |source| == 32 && |compiler| == 32 && |tokens| == 32
    requires provider < 0x1_0000_0000 && issued < 0x1_0000_0000 && revoked < 0x1_0000_0000
    ensures |h| == HEADER_SIZE - 1 && h[7] == definition
  {
    [0x43, 0x37, 0x37, 0x33, 1, 2, 0, definition] + (U16(0) + (U64(chainId) + (address + (selector + (source + (compiler
    + (tokens + (U32(provider) + (U32(issued) + U32(revoked))))))))))
  }

  /** The program: a header of 178 bytes, the section count, the sections. */
  function Serialize(header: bytes, t: Tables): bytes
    requires |header| == HEADER_SIZE - 1 && Encodable(t) && SectionsFit(SectionsOf(t))
  {
    header + ([|SectionsOf(t)|] + EncodeSections(SectionsOf(t)))
  }

  /** The tables found in sections. */
  function DecodeSections(sections: map<Byte, bytes>): Result<Tables> {
    var strings :- ReadTable(ReadString, Lookup(sections, 1));
    var abi :- ReadTable(ReadRow, Lookup(sections, 2));
    var paths :- ReadTable(ReadPath, Lookup(sections, 3));
    var literals :- ReadTable(ReadLiteral, Lookup(sections, 4));
    var conditions :- ReadTable(ReadCondition, Lookup(sections, 5));
    var formatters :- ReadTable(ReadFormatter, Lookup(sections, 6));
    var displays :- ReadTable(ReadInstruction, Lookup(sections, 7));
    var bindings :- ReadTable(ReadLiteral, Lookup(sections, 8));
    Ok(Tables(strings.0, abi.0, paths.0, literals.0, conditions.0, formatters.0, displays.0, bindings.0,
              Lookup(sections, 9)))
  }

  /** `_program_sections`. */
  function Sections(program: bytes): Result<map<Byte, bytes>> {
    var count :- ReadByte(program, HEADER_SIZE - 1);
    SectionsFrom(program, HEADER_SIZE, count, map[])
  }

  /** Everything the cursors read. */
  function Decode(program: bytes): Result<Tables> {
    var sections :- Sections(program);
    DecodeSections(sections)
  }

  method ProgramSections(program: bytes) returns (r: Result<map<Byte, bytes>>)
    ensures r == Sections(program)
  {
    var offset := HEADER_SIZE;
    var sections: map<Byte, bytes> := map[];
    var count :- ReadByte(program, 178);
    for i := 0 to count
      invariant SectionsFrom(program, offset, count - i, sections) == SectionsFrom(program, HEADER_SIZE, count, map[])
    {
      var kind :- ReadByte(program, offset);
      var length :- ReadU32(program, offset + 1);
      sections := sections[kind := Bytes.Slice(program, offset + 5, length)];
      offset := offset + 5 + length;
    }
    return Ok(sections);
  }

  lemma SerializedSections(header: bytes, t: Tables)
    requires |header| == HEADER_SIZE - 1 && Encodable(t) && SectionsFit(SectionsOf(t))
    ensures Sections(Serialize(header, t)) == Ok(Added(map[], SectionsOf(t)))
  {
    hide Encodable, StringTable, AbiTable, PathTable, LiteralTable, ConditionTable, FormatterTable, DisplayTable,
      EncodeSections, Added;
    var ss, program := SectionsOf(t), Serialize(header, t);
    HasAll(program);
    HasParts(program, 0, header, [|ss|] + EncodeSections(ss));
    HasParts(program, HEADER_SIZE - 1, [|ss|], EncodeSections(ss));
    HasByte(program, HEADER_SIZE - 1, |ss|);
    SectionsBack(program, HEADER_SIZE, ss, map[]);
  }

  /** The program round trip: whatever tables are serialised, exactly those are
      read back. */
  lemma DecodeUndoesSerialize(header: bytes, t: Tables)
    requires |header| == HEADER_SIZE - 1 && Encodable(t) && SectionsFit(SectionsOf(t))
    ensures Decode(Serialize(header, t)) == Ok(t)
  {
    hide Encodable, StringTable, AbiTable, PathTable, LiteralTable, ConditionTable, FormatterTable, DisplayTable,
      SectionsOf, Added, Serialize, Sections, ReadTable, Lookup;
    SerializedSections(header, t);
    SectionsHold(t);
    StringTableBack(t);
    AbiTableBack(t);
    PathTableBack(t);
    LiteralsBack(t);
    ConditionTableBack(t);
    FormatterTableBack(t);
    DisplayTableBack(t);
  }

  lemma LiteralsBack(t: Tables)
    requires Encodable(t)
    ensures ReadTable(ReadLiteral, LiteralTable(t.literals)) == Ok((t.literals, |LiteralTable(t.literals)|))
    ensures ReadTable(ReadLiteral, LiteralTable(t.bindings)) == Ok((t.bindings, |LiteralTable(t.bindings)|))
  {
    LiteralTableBack(t.literals);
    LiteralTableBack(t.bindings);
  }
}
