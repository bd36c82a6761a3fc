/** Fields in groups (`flatten_fields` and the path parameters of `compile`,
    keepkeylib/erc7730_compiler.py): what a field gives once its paths were put
    behind its group's. */
module GroupedPaths {
  import opened Wrappers
  import opened AbiTypes
  import opened AbiPaths
  import opened DisplayFields
  import opened Capabilities
  import opened CompiledMeaning
  import opened DescriptorMeaning
  import opened PathTexts

  /** The field writes `text` as the path of a parameter. */
  predicate Writes(f: Field, q: Parameter, text: string) {
    match q
    case ValueParameter => f.value.None? && f.path == Some(text)
    case TokenParameter => f.format == "tokenAmount" && f.params.tokenPath == Some(Word(text))
    case CollectionParameter => f.format == "nftName" && f.params.collectionPath == Some(Word(text))
    case ChainParameter => f.format == "nftName" && f.params.chainIdPath == Some(Word(text))
    case CalleeParameter => f.format == "calldata" && f.params.calleePath == Some(text)
    case AmountParameter => f.format == "calldata" && f.params.amountPath == Some(text)
    case SpenderParameter => f.format == "calldata" && f.params.spenderPath == Some(text)
    case _ => false
  }

  lemma WritesJoined(f: Field, q: Parameter, prefix: string, text: string)
    requires Writes(f, q, text) && prefix != "" && JoinPath(Some(prefix), Some(text)).Some?
    ensures Writes(Located(f, Some(prefix)), q, JoinPath(Some(prefix), Some(text)).value)
  {
    hide JoinPath;
  }

  lemma WrittenGives(root: AbiType, f: Field, q: Parameter, text: string, path: Path)
    requires Writes(f, q, text) && text != "" && text[0] != '0' && ResolvePath(root, text) == Ok(path)
    ensures Gives(root, f, q, PathTo(path))
  {
    hide ResolvePath;
    assert !BehindPrefix(Word(text));
    assert Leads(root, text, PathTo(path));
  }

  /** In a group, each path parameter leads where its own path leads from the
      end of the group's. */
  lemma LocatedGives(root: AbiType, f: Field, q: Parameter, a: seq<Step>, b: seq<Step>)
    requires Writable(root, a) && Writable(After(root, a), b) && a != [] && b != [] && |a| + |b| <= MAX_STEPS
    requires Writes(f, q, PathText(After(root, a), b)) && !Absolute(PathText(After(root, a), b))
    ensures Gives(root, Located(f, Some(PathText(root, a))), q, PathTo(AbiPath(a + b)))
  {
    hide ResolvePath, JoinPath, Located, Writes, Gives, Writable, PathText, Absolute;
    var prefix, text := PathText(root, a), PathText(After(root, a), b);
    TextStarts(root, a);
    TextStarts(After(root, a), b);
    JoinedIs(prefix, text);
    GroupedResolves(root, a, b);
    WritesJoined(f, q, prefix, text);
    WrittenGives(root, Located(f, Some(prefix)), q, prefix + ['.'] + text, AbiPath(a + b));
  }

  /** Paths that start at a root stay as they are written. */
  lemma RootedGives(f: Field, q: Parameter, prefix: string, text: string)
    requires Writes(f, q, text) && prefix != "" && Absolute(text)
    ensures Writes(Located(f, Some(prefix)), q, text)
  {
    hide JoinPath;
    RootedStays(prefix, text);
    WritesJoined(f, q, prefix, text);
  }

  /** A group changes nothing else that a field gives. */
  lemma LocatedKeeps(root: AbiType, f: Field, prefix: Option<string>, q: Parameter, m: Meaning)
    requires q in {DecimalsParameter, BaseParameter, PrefixParameter, ThresholdParameter, MessageParameter,
                   EncodingParameter}
    ensures Gives(root, Located(f, prefix), q, m) <==> Gives(root, f, q, m)
    ensures Located(f, prefix).title == f.title && Located(f, prefix).format == f.format
            && Located(f, prefix).value == f.value && Located(f, prefix).visible == f.visible
            && Located(f, prefix).separator == f.separator
  {
    hide JoinPath, BehindPrefix, NumberIn, InWord;
  }
}
