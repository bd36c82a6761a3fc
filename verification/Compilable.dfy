/** Which descriptors compile (`CalldataCompiler.compile`,
    keepkeylib/erc7730_compiler.py): a condition on the descriptor alone. */
module Compilable {
  import opened Wrappers
  import opened Bytes
  import opened AbiTypes
  import opened FlatAbi
  import opened Program
  import opened DisplayWord
  import opened DisplayFields
  import opened ProgramPools
  import opened ProgramBuilder
  import opened GroupScope
  import opened CompiledDisplay
  import opened DisplayShape
  import opened Demands
  import opened FieldDemands
  import opened ListedTexts
  import opened Compiler
  import opened CompiledProgram
  import opened CompiledScope
  import opened EncodableTables
  import SignatureParser
  import StringTable

  // -------------------------------------------------------------- the display

  /** How many instructions opcodes without closers stand for. */
  function Width(opcodes: seq<nat>): nat {
    if opcodes == [] then 0
    else Width(opcodes[..|opcodes| - 1]) + if Opens(opcodes[|opcodes| - 1]) then 2 else 1
  }

  lemma {:induction false} WidthJoin(a: seq<nat>, b: seq<nat>)
    ensures Width(a + b) == Width(a) + Width(b)
  {
    if b == [] {
      assert a + b == a;
    } else {
      WidthJoin(a, b[..|b| - 1]);
      assert (a + b)[..|a + b| - 1] == a + b[..|b| - 1];
    }
  }

  lemma WidthOne(opcode: nat)
    ensures Width([opcode]) == if Opens(opcode) then 2 else 1
  {
    assert [opcode][..0] == [];
  }

  lemma {:induction false} WidthOf(ds: seq<Instruction>)
    requires OpenStack(ds).Some?
    ensures Width(Skeleton(ds)) == |ds| + |OpenStack(ds).value|
  {
    if ds != [] {
      var n := |ds| - 1;
      WidthOf(ds[..n]);
      if Closes(ds[n].opcode) {
        assert Skeleton(ds) == Skeleton(ds[..n]);
      } else {
        WidthJoin(Skeleton(ds[..n]), [ds[n].opcode]);
        WidthOne(ds[n].opcode);
      }
    }
  }

  lemma {:induction false} WidthOpeners(opcodes: seq<nat>)
    requires forall i :: 0 <= i < |opcodes| ==> Opens(opcodes[i])
    ensures Width(opcodes) == 2 * |opcodes|
  {
    if opcodes != [] {
      WidthOpeners(opcodes[..|opcodes| - 1]);
    }
  }

  lemma {:induction false} WidthTokens(opcodes: seq<nat>)
    requires forall i :: 0 <= i < |opcodes| ==> !Opens(opcodes[i])
    ensures Width(opcodes) == |opcodes|
  {
    if opcodes != [] {
      WidthTokens(opcodes[..|opcodes| - 1]);
    }
  }

  lemma {:induction false} GroupsOpen(ranges: seq<Range>, gs: seq<nat>)
    requires AreGroups(ranges, gs)
    ensures forall i :: 0 <= i < |GroupsShape(ranges, gs)| ==> Opens(GroupsShape(ranges, gs)[i])
  {
    hide IteratesGroup;
    if gs != [] {
      GroupsOpen(ranges, gs[..|gs| - 1]);
    }
  }

  /** The intent and its pieces, two instructions for each group and iteration,
      and one for each of the first `n` fields. */
  function DisplaySize(root: AbiType, ranges: seq<Range>, fields: seq<Field>, tokens: seq<Token>, n: nat): nat
    requires n <= |fields|
  {
    if n == 0 then 1 + |tokens|
    else
      DisplaySize(root, ranges, fields, tokens, n - 1) + 2 * |GroupsShape(ranges, StartingAt(ranges, |ranges|, n - 1))|
      + 2 * |OwnPositions(root, ranges, fields[n - 1], n - 1)| + 1
  }

  lemma {:induction false} WidthShape(root: AbiType, ranges: seq<Range>, fields: seq<Field>, tokens: seq<Token>, n: nat)
    requires n <= |fields|
    ensures Width(Shape(root, ranges, fields, tokens, n)) == DisplaySize(root, ranges, fields, tokens, n)
  {
    hide Width, GroupsShape, OwnPositions, StartingAt, Opens;
    if n == 0 {
      WidthJoin([1], TokensShape(tokens));
      WidthOne(1);
      assert !Opens(1) && !Opens(2) && !Opens(3) by { NotOpening(); }
      WidthTokens(TokensShape(tokens));
    } else {
      var k := n - 1;
      var groups, own := GroupsShape(ranges, StartingAt(ranges, |ranges|, k)),
        Sevens(|OwnPositions(root, ranges, fields[k], k)|);
      WidthShape(root, ranges, fields, tokens, k);
      WidthJoin(Shape(root, ranges, fields, tokens, k), groups + own + [4]);
      WidthJoin(groups + own, [4]);
      WidthJoin(groups, own);
      WidthOne(4);
      GroupsOpen(ranges, StartingAt(ranges, |ranges|, k));
      NotOpening();
      WidthOpeners(groups);
      WidthOpeners(own);
    }
  }

  lemma NotOpening()
    ensures !Opens(1) && !Opens(2) && !Opens(3) && !Opens(4) && !Opens(10) && Opens(7)
  {
  }

  // ---------------------------------------------------------------- the texts

  function EncodedSet(texts: seq<string>): set<bytes> {
    set b | b in StringTable.Encoded(texts)
  }

  /** Every text has 1 to 128 bytes, and there are not too many. */
  predicate TextsAllowed(texts: seq<string>) {
    (forall b :: b in EncodedSet(texts) ==> 1 <= |b| <= 128) && IsU16(|EncodedSet(texts)|)
  }

  lemma {:induction false} AscendingCount(table: seq<bytes>)
    requires StringTable.Ascending(table)
    ensures |set b | b in table| == |table|
  {
    var all := set b | b in table;
    if table == [] {
      assert all == {};
    } else {
      AscendingCount(table[1..]);
      var rest := set b | b in table[1..];
      forall i | 0 <= i < |table[1..]| ensures table[1..][i] != table[0] {
        StringTable.AscendingIsDistinct(table, 0, i + 1);
      }
      assert table == [table[0]] + table[1..];
      assert all == rest + {table[0]};
    }
  }

  // ------------------------------------------------------------ the condition

  /** Paths, formats, rules, groups and interpolated values resolve. */
  predicate Resolves(root: AbiType, ranges: seq<Range>, fields: seq<Field>, tokens: seq<Token>) {
    && NoneOpen(ranges, |fields|) && (forall k :: 0 <= k < |fields| ==> FieldReady(root, ranges, fields, k))
    && forall n :: 0 <= n < |tokens| && tokens[n].ValueToken? ==> FieldAt(fields, tokens[n].path).Ok?
  }

  /** The tables stay within their limits. */
  predicate Small(root: AbiType, ranges: seq<Range>, fields: seq<Field>, tokens: seq<Token>, domain: nat, bindings: nat)
  {
    var demand := DemandUpTo(root, ranges, fields, |fields|);
    && NodeCount(root) <= MAX_NODES && TreeDepth(root) <= 8
    && |demand.named| + demand.constants <= 64 && |fields| <= 64 && ConditionsUpTo(fields, |fields|) <= 32
    && DisplaySize(root, ranges, fields, tokens, |fields|) + 1 <= 64 && IsU16(domain + demand.literals)
    && IsU16(bindings)
  }

  /** Array lengths, paths and literals take their widths. */
  predicate Representable(root: AbiType, ranges: seq<Range>, fields: seq<Field>, domain: seq<Literal>,
      bindings: seq<Literal>)
  {
    && LengthsFit(root) && PathsFit(DemandUpTo(root, ranges, fields, |fields|).named)
    && FieldsFit(root, fields, |fields|)
    && LiteralsFit(domain) && LiteralsFit(bindings)
  }

  predicate Compiles(root: AbiType, ranges: seq<Range>, fields: seq<Field>, intent: string, tokens: seq<Token>,
      domain: seq<Literal>, bindings: seq<Literal>, extra: seq<string>)
  {
    && TextsAllowed(ProgramTexts(fields, ranges, intent, tokens, extra))
    && Resolves(root, ranges, fields, tokens) && Small(root, ranges, fields, tokens, |domain|, |bindings|)
    && Representable(root, ranges, fields, domain, bindings)
  }

  /** What a descriptor has to satisfy to be compiled. */
  predicate CanCompile(signature: string, items: seq<Item>, intent: string, tokens: seq<Token>,
      domain: seq<Literal>, bindings: seq<Literal>, extra: seq<string>)
  {
    && SignatureParser.ParseFunction(signature).Ok? && DisplayFields.Flatten(items, None, 0).Ok?
    && var (fields, ranges) := DisplayFields.Flatten(items, None, 0).value;
       Compiles(SignatureParser.ParseFunction(signature).value.1, ranges, Shown(fields, InterpolatedPaths(tokens)),
                intent, tokens,
                domain, bindings, extra)
  }

  // -------------------------------------------------------- it is sufficient

  lemma TextsReady(fields: seq<Field>, ranges: seq<Range>, intent: string, tokens: seq<Token>, extra: seq<string>,
      strings: seq<bytes>)
    requires forall b :: b in strings <==> b in StringTable.Encoded(ProgramTexts(fields, ranges, intent, tokens, extra))
    ensures AllListed(strings, CaptionTexts(ranges)) && AllListed(strings, AllFieldTexts(fields))
            && AllListed(strings, TokenTexts(tokens))
    ensures HasText(strings, intent)
  {
    hide HasText, CaptionTexts, AllFieldTexts, TokenTexts;
    var texts := ProgramTexts(fields, ranges, intent, tokens, extra);
    EncodedListed(strings, texts);
    assert texts[0] == intent;
  }

  /** With every text listed, nothing is left to raise but for full tables. */
  lemma ReadyIff(root: AbiType, ranges: seq<Range>, fields: seq<Field>, intent: string, tokens: seq<Token>,
      extra: seq<string>, strings: seq<bytes>)
    requires forall b :: b in strings <==> b in StringTable.Encoded(ProgramTexts(fields, ranges, intent, tokens, extra))
    ensures RunReady(root, ranges, fields, strings, intent, tokens) <==> Resolves(root, ranges, fields, tokens)
    ensures forall k :: 0 <= k < |fields| ==> FieldTextsIn(root, ranges, fields, strings, k)
  {
    hide HasText, FieldReady, FieldTextsIn, NoneOpen, FieldAt, TokenReady, AllListed, ProgramTexts;
    TextsReady(fields, ranges, intent, tokens, extra, strings);
    TokensListed(fields, tokens, strings);
    forall k | 0 <= k < |fields| ensures FieldTextsIn(root, ranges, fields, strings, k) {
      FieldListed(root, ranges, fields, strings, k);
    }
  }

  /** What the tables took is what the fields demand. */
  ghost predicate CountedIn(root: AbiType, ranges: seq<Range>, fields: seq<Field>, domain: seq<Literal>, t: Tables) {
    && Took(Pools(t.strings, [], domain), PoolsOf(t), DemandUpTo(root, ranges, fields, |fields|))
    && |t.conditions| == ConditionsUpTo(fields, |fields|) && domain <= t.literals
    && (LiteralsFit(domain) && FieldsFit(root, fields, |fields|) ==> LiteralsFit(t.literals))
  }

  lemma CompiledSizes(root: AbiType, ranges: seq<Range>, fields: seq<Field>, intent: string, tokens: seq<Token>,
      t: Tables, e: Evidence, domain: seq<Literal>)
    requires IsCompiled(root, ranges, fields, intent, tokens, t, e) && CountedIn(root, ranges, fields, domain, t)
    ensures var demand := DemandUpTo(root, ranges, fields, |fields|);
            && |t.paths| == |demand.named| + demand.constants && NamedIn(t.paths) == demand.named
            && |t.literals| == |domain| + demand.literals
    ensures |t.formatters| == |fields| && |t.displays| == DisplaySize(root, ranges, fields, tokens, |fields|) + 1
  {
    hide IsCompiled, Width, Shape, DisplaySize, DemandUpTo, FieldsFit, LiteralsFit, WellNested, Paired, NonCrossing,
      Skeleton, ConditionsUpTo;
    CompiledLists(root, ranges, fields, intent, tokens, t, e);
    PathsCounted(t.paths);
    assert NamedIn([]) == {};
    CompiledNested(root, ranges, fields, intent, tokens, t, e);
    NestedStack(t.displays);
    WidthOf(t.displays);
    WidthJoin(Shape(root, ranges, fields, tokens, |fields|), [10]);
    WidthOne(10);
    WidthShape(root, ranges, fields, tokens, |fields|);
  }

  lemma NestedStack(ds: seq<Instruction>)
    requires WellNested(ds)
    ensures OpenStack(ds).Some? && OpenStack(ds).value == []
  {
  }

  lemma CompiledLists(root: AbiType, ranges: seq<Range>, fields: seq<Field>, intent: string, tokens: seq<Token>,
      t: Tables, e: Evidence)
    requires IsCompiled(root, ranges, fields, intent, tokens, t, e)
    ensures forall i, j :: 0 <= i < j < |t.paths| ==> t.paths[i] != t.paths[j]
    ensures t.abi == Rows(root) && |t.formatters| == |fields|
    ensures Skeleton(t.displays) == Shape(root, ranges, fields, tokens, |fields|) + [10]
  {
    hide AllFieldsEmitted, AllGroupsEmitted, IntentEmitted, GroupLoops, Accounted, Sound, BeforeField,
      StringTable.Ascending, PathIn, ConditionIn, FormatterSays, PlanOf, Skeleton, Shape, Ascends;
  }

  /** A compilation is within the limits and can be encoded exactly when the
      descriptor is small enough and fits. */
  lemma FinishedIff(root: AbiType, ranges: seq<Range>, fields: seq<Field>, intent: string, tokens: seq<Token>,
      t: Tables, e: Evidence, domain: seq<Literal>)
    requires IsCompiled(root, ranges, fields, intent, tokens, t, e) && CountedIn(root, ranges, fields, domain, t)
    requires Valid(root) && NodeCount(root) <= MAX_NODES && TreeDepth(root) <= 8 && IsU16(|t.strings|)
             && StringsAllowed(t.strings)
    ensures (WithinLimits(t) && Encodable(t)) <==>
            (Small(root, ranges, fields, tokens, |domain|, |t.bindings|)
             && Representable(root, ranges, fields, domain, t.bindings))
  {
    hide IsCompiled, Encodable, DemandUpTo, FieldsFit, LiteralsFit, LengthsFit, PathsFit, AllRowsFit, ConditionsUpTo,
      DisplaySize, StringsAllowed, Valid, NodeCount, TreeDepth, Took;
    CompiledSizes(root, ranges, fields, intent, tokens, t, e, domain);
    CompiledLists(root, ranges, fields, intent, tokens, t, e);
    RowsFitIff(root);
    if WithinLimits(t) {
      EncodableIff(root, ranges, fields, intent, tokens, t, e);
      if Encodable(t) {
        FieldsHaveFit(root, ranges, fields, intent, tokens, t, e);
        PrefixFits(domain, t.literals);
      }
    }
  }

  lemma PrefixFits(ls: seq<Literal>, more: seq<Literal>)
    requires ls <= more && LiteralsFit(more)
    ensures LiteralsFit(ls)
  {
  }
}
