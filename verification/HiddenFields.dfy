/** A descriptor that compiles although a hidden field moves its group
    (`CalldataCompiler.compile`, keepkeylib/erc7730_compiler.py). */
module HiddenFields {
  import opened Wrappers
  import opened Text
  import opened AbiTypes
  import opened FlatAbi
  import opened AbiPaths
  import opened Program
  import opened DisplayFields
  import opened Formatters
  import opened GroupScope
  import opened ProgramBuilder
  import opened CompiledDisplay
  import opened DisplayShape
  import opened Demands
  import opened FieldDemands
  import opened Compiler
  import opened CompiledProgram
  import opened CompiledScope
  import opened EncodableTables
  import opened Compilable
  import Compilation
  import SignatureRoundTrip
  import SignatureParser
  import StringTable
  import Utf8

  const SIGNATURE: string := "f(uint256 id)"
  const MEMBERS: seq<AbiType> := [Leaf("id", UINT, 256)]
  const ROOT: AbiType := Tuple("", MEMBERS)
  const RANGES: seq<Range> := [Range(1, 2, None, None)]

  /** A visible field that shows the only parameter as it is. */
  predicate ShowsId(f: Field) {
    && f.title == "t" && f.path == Some("id") && f.value.None? && f.format == "raw" && f.visible.Always?
    && f.separator.None?
  }

  function Items(hidden: Field, member: Field, last: Field): seq<Item> {
    [FieldItem(hidden), GroupItem(None, None, [FieldItem(member)]), FieldItem(last)]
  }

  lemma Parsed()
    ensures SignatureParser.ParseFunction(SIGNATURE) == Ok(("f", ROOT))
  {
    hide SignatureParser.ParseFunction;
    assert Decimal(256) == Decimal(25) + "6" && Decimal(25) == Decimal(2) + "5" && Decimal(2) == "2";
    assert NamedMember(MEMBERS[0]) == "uint256 id";
    assert SIGNATURE == SignatureRoundTrip.NamedSignature("f", MEMBERS);
    assert MEMBERS[1..] == [];
    SignatureRoundTrip.ParseUndoesNamedSignature("f", MEMBERS);
  }

  lemma IdPlan(f: Field)
    requires ShowsId(f)
    ensures ResolvePath(ROOT, "id") == Ok(AbiPath([Index(0)]))
    ensures PlanOf(ROOT, f) == Ok(Plan(1, [PathRequest(1, AbiPath([Index(0)]))]))
    ensures StepsOf(ROOT, f) == [Index(0)]
  {
    hide ResolvePath;
    NameResolves("", MEMBERS, 0);
    var path := AbiPath([Index(0)]);
    assert ValueRequest(ROOT, f) == Ok(PathRequest(1, path));
    assert FormatKind("raw") == Ok(1);
    assert Requests(ROOT, path, f) == Ok((1, []));
    assert [PathRequest(1, path)] + [] == [PathRequest(1, path)];
  }

  /** The field iterates nothing. */
  lemma IdOwn(f: Field, k: nat)
    requires ShowsId(f)
    ensures OwnPositions(ROOT, RANGES, f, k) == []
  {
    hide PlanOf, StepsOf, ResolvePath;
    IdPlan(f);
    assert [Index(0)][..0] == [];
    assert ArrayPositions([Index(0)]) == [];
  }

  lemma Starts()
    ensures StartingAt(RANGES, 1, 0) == [] && StartingAt(RANGES, 1, 1) == [0]
  {
  }

  lemma IdReady(f: Field, fields: seq<Field>, k: nat)
    requires ShowsId(f) && k < |fields| <= 2 && fields[k] == f
    ensures FieldReady(ROOT, RANGES, fields, k)
  {
    hide ResolvePath, PlanOf, PathNode, PathOf;
    IdPlan(f);
    Starts();
    assert k == 0 || k == 1;
    assert AllComparable(RANGES, StartingAt(RANGES, 1, k));
  }

  lemma NoGroupDemand(k: nat)
    requires k <= 1
    ensures GroupsDemand(ROOT, RANGES, StartingAt(RANGES, 1, k)) == NOTHING
  {
    hide ResolvePath, StartingAt, Plus;
    Starts();
    assert [0][..0] == [];
    assert GroupDemand(ROOT, RANGES[0]) == NOTHING;
    PlusNothing(NOTHING);
  }

  lemma IdPlanDemand(f: Field)
    requires ShowsId(f)
    ensures PlanDemand(ROOT, f) == Demand({AbiPath([Index(0)])}, 0, 0)
  {
    hide ResolvePath, PlanOf, Plus;
    IdPlan(f);
    var r := PathRequest(1, AbiPath([Index(0)]));
    assert [r][..0] == [];
    PlusNothing(DemandOf(r));
  }

  /** The field takes one path. */
  lemma IdDemand(f: Field, fields: seq<Field>, k: nat)
    requires ShowsId(f) && k < |fields| <= 2 && fields[k] == f
    ensures FieldDemand(ROOT, RANGES, fields, k) == Demand({AbiPath([Index(0)])}, 0, 0)
  {
    hide ResolvePath, PlanOf, OwnPositions, StepsOf, PlanDemand, GroupsDemand, StartingAt, Plus;
    IdPlanDemand(f);
    PlusNothing(PlanDemand(ROOT, f));
    IdOwn(f, k);
    NoGroupDemand(k);
    assert LoopsDemand(StepsOf(ROOT, f), []) == NOTHING;
  }

  lemma IdFits(f: Field)
    requires ShowsId(f)
    ensures FieldFits(ROOT, f)
  {
    hide PlanOf, ResolvePath, NodeOf;
    IdPlan(f);
  }

  lemma IdTexts(f: Field)
    requires ShowsId(f)
    ensures FieldTexts(f) == ["t"]
  {
  }

  lemma Texts(member: Field, last: Field)
    requires ShowsId(member) && ShowsId(last)
    ensures TextsAllowed(ProgramTexts([member, last], RANGES, "f", [], []))
  {
    hide FieldTexts;
    IdTexts(member);
    IdTexts(last);
    var fields := [member, last];
    assert fields[1..] == [last] && [last][1..] == [];
    assert AllFieldTexts([last]) == ["t"] + [];
    assert RANGES[1..] == [];
    var texts := ProgramTexts(fields, RANGES, "f", [], []);
    assert texts == ["f", "t", "t"];
    OneByte('f');
    OneByte('t');
    var b := StringTable.Encoded(texts);
    assert b == [Utf8.Encode("f"), Utf8.Encode("t"), Utf8.Encode("t")];
    assert EncodedSet(texts) == {Utf8.Encode("f"), Utf8.Encode("t")};
  }

  lemma OneByte(c: char)
    requires c < 128 as char
    ensures |Utf8.Encode([c])| == 1
  {
    assert [c][1..] == "";
  }

  /** Whatever field is hidden in front, this descriptor compiles. */
  lemma ShiftedCompiles(hidden: Field, member: Field, last: Field)
    requires hidden.visible.Never? && ShowsId(member) && ShowsId(last)
    ensures CanCompile(SIGNATURE, Items(hidden, member, last), "f", [], [], [], [])
  {
    hide TextsAllowed, ProgramTexts, FieldReady, FieldDemand, FieldFits, DisplayFields.Flatten, Shown,
      SignatureParser.ParseFunction, OwnPositions, StartingAt;
    Parsed();
    ShiftedFlat(hidden, member, last, None);
    assert InterpolatedPaths([]) == {};
    var fields := [member, last];
    Texts(member, last);
    IdReady(member, fields, 0);
    IdReady(last, fields, 1);
    IdDemand(member, fields, 0);
    IdDemand(last, fields, 1);
    IdFits(member);
    IdFits(last);
    SmallTree();
    ShiftedSize(member, last);
    ShiftedDemand(member, last);
    assert Resolves(ROOT, RANGES, fields, []);
    assert Small(ROOT, RANGES, fields, [], 0, 0);
    assert Representable(ROOT, RANGES, fields, [], []);
  }

  lemma ShiftedDemand(member: Field, last: Field)
    requires ShowsId(member) && ShowsId(last)
    ensures DemandUpTo(ROOT, RANGES, [member, last], 2) == Demand({AbiPath([Index(0)])}, 0, 0)
  {
    hide FieldDemand;
    var fields := [member, last];
    IdDemand(member, fields, 0);
    IdDemand(last, fields, 1);
    assert DemandUpTo(ROOT, RANGES, fields, 1) == Plus(NOTHING, FieldDemand(ROOT, RANGES, fields, 0));
  }

  lemma SmallTree()
    ensures NodeCount(ROOT) == 2 && TreeDepth(ROOT) == 2 && LengthsFit(ROOT)
  {
    var leaf := MEMBERS[0];
    assert MEMBERS[1..] == [];
    assert NodeCountAll(MEMBERS) == NodeCount(leaf) + NodeCountAll([]) == 1;
    assert DeepestOf(MEMBERS) == 1;
    assert LengthsFit(leaf) && AllLengthsFit([]);
    assert AllLengthsFit(MEMBERS);
  }

  lemma ShiftedSize(member: Field, last: Field)
    requires ShowsId(member) && ShowsId(last)
    ensures DisplaySize(ROOT, RANGES, [member, last], [], 2) == 5 && ConditionsUpTo([member, last], 2) == 0
  {
    hide OwnPositions, StartingAt;
    var fields := [member, last];
    Starts();
    IdOwn(member, 0);
    IdOwn(last, 1);
    assert [0][..0] == [];
    assert !IteratesGroup(RANGES[0].path);
    assert |GroupsShape(RANGES, [])| == 0;
    assert |GroupsShape(RANGES, [0])| == 1;
    assert DisplaySize(ROOT, RANGES, fields, [], 0) == 1;
    assert DisplaySize(ROOT, RANGES, fields, [], 1) == 2;
    assert ConditionsUpTo(fields, 1) == 0;
  }

  /** The compiled program puts the last field inside the group and the group's
      own field outside. */
  method CompileShifted(hidden: Field, member: Field, last: Field) returns (t: Tables)
    requires hidden.visible.Never? && ShowsId(member) && ShowsId(last)
    ensures exists e ::
              && CompiledFrom(SIGNATURE, Items(hidden, member, last), "f", [], t, e)
              && |e.layout.fieldPcs| == 2 && !Inside(t, e.layout, 0, 0) && Inside(t, e.layout, 0, 1)
  {
    hide CompiledFrom, CanCompile, Inside;
    ShiftedCompiles(hidden, member, last);
    var r := Compilation.Compile(SIGNATURE, Items(hidden, member, last), "f", [], [], [], []);
    t := r.value;
    ghost var e :| CompiledFrom(SIGNATURE, Items(hidden, member, last), "f", [], t, e);
    HiddenFieldShiftsGroup(SIGNATURE, hidden, member, last, None, "f", t, e);
  }
}
