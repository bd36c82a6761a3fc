/** The string table holds every text a compilation looks up
    (keepkeylib/erc7730_compiler.py): what the first pass over the fields
    collects is what the second asks for. */
module ListedTexts {
  import opened Wrappers
  import opened Bytes
  import opened AbiTypes
  import opened AbiPaths
  import opened DisplayFields
  import opened Formatters
  import opened GroupScope
  import opened CompiledDisplay
  import opened Demands
  import opened FieldDemands
  import opened Compiler
  import Hex
  import Integers
  import StringTable
  import Utf8

  predicate AllListed(strings: seq<bytes>, texts: seq<string>) {
    forall text :: text in texts ==> HasText(strings, text)
  }

  /** Requests other than for a text, a text constant or a map need none. */
  predicate Textless(r: Request) {
    !r.StringRequest? && !r.TextConstantRequest? && !r.MapRequest?
  }

  lemma ChainTextless(root: AbiType, chain: Scalar)
    ensures ChainRequest(root, chain).Ok? ==> Textless(ChainRequest(root, chain).value)
  {
    hide ResolvePath, Integers.UnsignedLiteral;
  }

  lemma AddressTextless(root: AbiType, role: nat, value: Scalar)
    ensures AddressRequest(root, role, value).Ok? ==> Textless(AddressRequest(root, role, value).value)
  {
    hide ResolvePath, HexAddress;
  }

  lemma MaybeTextless(root: AbiType, given: bool, r: Result<Request>, strings: seq<bytes>)
    requires r.Ok? ==> Textless(r.value)
    ensures Maybe(root, given, r).Ok? ==> AllTextsIn(strings, Maybe(root, given, r).value)
  {
  }

  lemma TokenTextsIn(root: AbiType, p: Params, strings: seq<bytes>)
    requires AllListed(strings, Optionally(p.message))
    ensures TokenRequests(root, p).Ok? ==> AllTextsIn(strings, TokenRequests(root, p).value.1)
  {
    hide HasText, ThresholdOf, ResolvePath, Maybe, ChainRequest, AddressLiterals, AddressRequest,
      Integers.UnsignedLiteral;
    var token := FirstOf(p.tokenPath, p.token);
    if token.Some? && TokenRequests(root, p).Ok? {
      AddressTextless(root, 2, token.value);
      var bound := if p.threshold.Some? then ThresholdOf(p.threshold.value).value else 0;
      MaybeTextless(root, p.threshold.Some?, UnsignedRequest(7, 1, bound), strings);
      if p.chainId.Some? {
        ChainTextless(root, p.chainId.value);
      }
      MaybeTextless(root, p.chainId.Some?, if p.chainId.Some? then ChainRequest(root, p.chainId.value)
                    else Raised, strings);
    }
  }

  lemma NftTextsIn(root: AbiType, p: Params, strings: seq<bytes>)
    ensures NftRequests(root, p).Ok? ==> AllTextsIn(strings, NftRequests(root, p).value)
  {
    hide AddressRequest, ChainRequest, Maybe;
    if NftRequests(root, p).Ok? {
      var collection, chain := FirstOf(p.collectionPath, p.collection).value, FirstOf(p.chainIdPath, p.chainId);
      AddressTextless(root, 3, collection);
      if chain.Some? {
        ChainTextless(root, chain.value);
      }
      MaybeTextless(root, chain.Some?, if chain.Some? then ChainRequest(root, chain.value) else Raised, strings);
    }
  }

  lemma CallTextsIn(root: AbiType, p: Params, strings: seq<bytes>)
    ensures CallRequests(root, p).Ok? ==> AllTextsIn(strings, CallRequests(root, p).value)
  {
    hide ResolvePath;
  }

  lemma UnitTextsIn(root: AbiType, p: Params, strings: seq<bytes>)
    requires HasText(strings, p.base)
    ensures UnitRequests(root, p).Ok? ==> AllTextsIn(strings, UnitRequests(root, p).value)
  {
    hide HasText, Integers.UnsignedLiteral;
  }

  /** The map's labels are those of the descriptor. */
  lemma {:induction false} EnumLabelled(node: AbiType, entries: seq<(Scalar, string)>, i: nat)
    requires EnumLiterals(node, entries).Ok?
    requires i < |EnumLiterals(node, entries).value|
    ensures EnumLiterals(node, entries).value[i].1 in EnumLabels(entries)
  {
    hide ConditionLiteral;
    if i > 0 {
      EnumLabelled(node, entries[1..], i - 1);
    }
  }

  lemma EnumTextsIn(node: AbiType, entries: seq<(Scalar, string)>, strings: seq<bytes>)
    requires AllListed(strings, EnumLabels(entries)) && EnumLiterals(node, entries).Ok?
    ensures TextsIn(strings, MapRequest(10, EnumLiterals(node, entries).value))
  {
    hide HasText, EnumLiterals, EnumLabels;
    var labelled := EnumLiterals(node, entries).value;
    forall i | 0 <= i < |labelled| ensures HasText(strings, labelled[i].1) {
      EnumLabelled(node, entries, i);
    }
  }

  lemma RequestTextsIn(root: AbiType, path: Path, f: Field, strings: seq<bytes>)
    requires AllListed(strings, FieldTexts(f))
    ensures Requests(root, path, f).Ok? ==> AllTextsIn(strings, Requests(root, path, f).value.1)
  {
    hide HasText, ResolvePath, TokenRequests, NftRequests, UnitRequests, CallRequests, EnumLiterals, EnumLabels,
      PathNode;
    if Requests(root, path, f).Ok? {
      var kind := FormatKind(f.format).value;
      if kind == 3 {
        TokenTextsIn(root, f.params, strings);
      } else if kind == 4 {
        NftTextsIn(root, f.params, strings);
      } else if kind == 5 {
        assert f.params.encoding in FieldTexts(f);
      } else if kind == 7 {
        assert f.params.base in FieldTexts(f);
        UnitTextsIn(root, f.params, strings);
      } else if kind == 8 {
        EnumTextsIn(PathNode(root, path).value, f.params.enumEntries, strings);
      } else if kind == 13 {
        CallTextsIn(root, f.params, strings);
      }
    }
  }

  lemma ValueTextsIn(root: AbiType, f: Field, strings: seq<bytes>)
    requires AllListed(strings, FieldTexts(f))
    ensures ValueRequest(root, f).Ok? ==> TextsIn(strings, ValueRequest(root, f).value)
  {
    hide HasText, ResolvePath, Hex.HexBytes, Integers.UnsignedLiteral, EnumLabels;
    match f.value
    case Some(Word(text)) =>
      if !IsHex(text) {
        assert text in FieldTexts(f);
      }
    case _ =>
  }

  /** A field whose texts are listed asks for no other. */
  lemma PlanListed(root: AbiType, f: Field, strings: seq<bytes>)
    requires AllListed(strings, FieldTexts(f))
    ensures PlanTextsIn(root, f, strings)
  {
    hide AllListed, FieldTexts, TextsIn, ValueRequest, Requests;
    if PlanOf(root, f).Ok? {
      ValueTextsIn(root, f, strings);
      RequestTextsIn(root, PathOf(root, f), f, strings);
      AllFirst(strings, ValueRequest(root, f).value, Requests(root, PathOf(root, f), f).value.1);
    }
  }

  // ---------------------------------------------------------------- collected

  lemma {:induction false} FieldCollected(fields: seq<Field>, k: nat, text: string)
    requires k < |fields| && text in FieldTexts(fields[k])
    ensures text in AllFieldTexts(fields)
  {
    hide FieldTexts;
    if k > 0 {
      FieldCollected(fields[1..], k - 1, text);
    }
  }

  lemma {:induction false} CaptionCollected(ranges: seq<Range>, g: nat)
    requires g < |ranges| && Given(ranges[g].caption)
    ensures ranges[g].caption.value in CaptionTexts(ranges)
  {
    if g > 0 {
      CaptionCollected(ranges[1..], g - 1);
    }
  }

  lemma {:induction false} TokenCollected(tokens: seq<Token>, n: nat)
    requires n < |tokens| && tokens[n].TextToken?
    ensures tokens[n].text in TokenTexts(tokens)
  {
    if n > 0 {
      TokenCollected(tokens[1..], n - 1);
    }
  }

  lemma EncodedListed(strings: seq<bytes>, texts: seq<string>)
    requires forall b :: b in StringTable.Encoded(texts) ==> b in strings
    ensures AllListed(strings, texts)
  {
    forall text | text in texts ensures HasText(strings, text) {
      var i :| 0 <= i < |texts| && texts[i] == text;
      assert StringTable.Encoded(texts)[i] == Utf8.Encode(text);
    }
  }

  /** Once everything collected is listed, no text of a field is missing. */
  lemma FieldListed(root: AbiType, ranges: seq<Range>, fields: seq<Field>, strings: seq<bytes>, k: nat)
    requires AllListed(strings, CaptionTexts(ranges)) && AllListed(strings, AllFieldTexts(fields)) && k < |fields|
    ensures FieldTextsIn(root, ranges, fields, strings, k)
  {
    hide HasText, FieldTexts, AllFieldTexts, CaptionTexts, PlanTextsIn;
    var f := fields[k];
    forall text | text in FieldTexts(f) ensures HasText(strings, text) {
      FieldCollected(fields, k, text);
    }
    PlanListed(root, f, strings);
    forall g | g in StartingAt(ranges, |ranges|, k) ensures CaptionIn(strings, ranges[g]) {
      if Given(ranges[g].caption) {
        CaptionCollected(ranges, g);
      }
    }
    TitleListed(f);
  }

  lemma TitleListed(f: Field)
    ensures f.title in FieldTexts(f)
    ensures Given(f.separator) ==> f.separator.value in FieldTexts(f)
  {
    hide EnumLabels;
    assert FieldTexts(f)[0] == f.title;
    if Given(f.separator) {
      assert FieldTexts(f)[|FieldTexts(f)| - 1] == f.separator.value;
    }
  }

  /** Nothing in the intent is missing. */
  lemma TokensListed(fields: seq<Field>, tokens: seq<Token>, strings: seq<bytes>)
    requires AllListed(strings, TokenTexts(tokens))
    ensures forall n :: 0 <= n < |tokens| ==> (TokenReady(strings, fields, tokens[n]) <==>
                                                 (tokens[n].ValueToken? ==> FieldAt(fields, tokens[n].path).Ok?))
  {
    hide HasText, FieldAt, TokenTexts;
    forall n | 0 <= n < |tokens|
      ensures TokenReady(strings, fields, tokens[n]) <==>
                (tokens[n].ValueToken? ==> FieldAt(fields, tokens[n].path).Ok?)
    {
      if tokens[n].TextToken? {
        TokenCollected(tokens, n);
      }
    }
  }
}
