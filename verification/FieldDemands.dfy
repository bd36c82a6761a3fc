/** What compiling a field needs and takes (keepkeylib/erc7730_compiler.py): the
    conditions under which no step raises, and what the tables grow by. */
module FieldDemands {
  import opened Bytes
  import opened AbiTypes
  import opened AbiPaths
  import opened DisplayFields
  import opened Formatters
  import opened Demands
  import opened ProgramBuilder
  import opened GroupScope
  import opened CompiledDisplay

  // ------------------------------------------------------------------- groups

  /** An iterating group's path resolves. */
  predicate GroupResolves(root: AbiType, r: Range) {
    IteratesGroup(r.path) ==> ResolvePath(root, r.path.value).Ok?
  }

  predicate CaptionIn(strings: seq<bytes>, r: Range) {
    Given(r.caption) ==> HasText(strings, r.caption.value)
  }

  function GroupDemand(root: AbiType, r: Range): Demand {
    if IteratesGroup(r.path) && ResolvePath(root, r.path.value).Ok?
      then Demand({ResolvePath(root, r.path.value).value}, 0, 0)
    else NOTHING
  }

  function GroupsDemand(root: AbiType, ranges: seq<Range>, gs: seq<nat>): Demand
    requires AreGroups(ranges, gs)
  {
    if gs == [] then NOTHING
    else Plus(GroupsDemand(root, ranges, gs[..|gs| - 1]), GroupDemand(root, ranges[gs[|gs| - 1]]))
  }

  lemma GroupsDemandMore(root: AbiType, ranges: seq<Range>, gs: seq<nat>, n: nat)
    requires AreGroups(ranges, gs) && n < |gs|
    ensures GroupsDemand(root, ranges, gs[..n + 1]) ==
              Plus(GroupsDemand(root, ranges, gs[..n]), GroupDemand(root, ranges[gs[n]]))
  {
    assert gs[..n + 1][..n] == gs[..n];
  }

  // -------------------------------------------------------------------- loops

  /** The paths to the arrays at the positions `own`. */
  function LoopsDemand(steps: seq<Step>, own: seq<nat>): Demand
    requires forall i :: 0 <= i < |own| ==> own[i] < |steps|
  {
    if own == [] then NOTHING
    else
      var n := |own| - 1;
      Plus(LoopsDemand(steps, own[..n]), Demand({AbiPath(steps[..own[n] + 1])}, 0, 0))
  }

  lemma LoopsDemandMore(steps: seq<Step>, own: seq<nat>, n: nat)
    requires n < |own| && forall i :: 0 <= i < |own| ==> own[i] < |steps|
    ensures LoopsDemand(steps, own[..n + 1]) ==
              Plus(LoopsDemand(steps, own[..n]), Demand({AbiPath(steps[..own[n] + 1])}, 0, 0))
  {
    assert own[..n + 1][..n] == own[..n];
  }

  // ------------------------------------------------------------------- fields

  /** A rule's path leads to a node and its values suit it. */
  predicate ConditionReady(root: AbiType, f: Field) {
    && (f.visible.IfNotIn? || f.visible.MustMatch? ==> PathNode(root, PathOf(root, f)).Ok?)
    && RuleReady(f.visible, NodeOf(root, f))
  }

  predicate VisibilityFits(root: AbiType, f: Field) {
    RuleReady(f.visible, NodeOf(root, f)) ==> RuleFits(f.visible, NodeOf(root, f))
  }

  function PlanDemand(root: AbiType, f: Field): Demand {
    match PlanOf(root, f)
    case Ok(plan) => DemandOfAll(plan.requests)
    case Raised => NOTHING
  }

  predicate PlanTextsIn(root: AbiType, f: Field, strings: seq<bytes>) {
    PlanOf(root, f).Ok? ==> AllTextsIn(strings, PlanOf(root, f).value.requests)
  }

  predicate PlanFits(root: AbiType, f: Field) {
    PlanOf(root, f).Ok? ==> RequestsFit(PlanOf(root, f).value.requests)
  }

  /** Nothing about field `k` and the groups that start there raises, but for
      texts that are not listed and tables that are full. */
  predicate FieldReady(root: AbiType, ranges: seq<Range>, fields: seq<Field>, k: nat)
    requires k < |fields|
  {
    && AllComparable(ranges, StartingAt(ranges, |ranges|, k))
    && (forall g :: g in StartingAt(ranges, |ranges|, k) ==> GroupResolves(root, ranges[g]))
    && PlanOf(root, fields[k]).Ok? && ConditionReady(root, fields[k])
  }

  predicate FieldTextsIn(root: AbiType, ranges: seq<Range>, fields: seq<Field>, strings: seq<bytes>, k: nat)
    requires k < |fields|
  {
    && (forall g :: g in StartingAt(ranges, |ranges|, k) ==> CaptionIn(strings, ranges[g]))
    && PlanTextsIn(root, fields[k], strings) && HasText(strings, fields[k].title)
    && (Given(fields[k].separator) ==> HasText(strings, fields[k].separator.value))
  }

  predicate FieldFits(root: AbiType, f: Field) {
    PlanFits(root, f) && VisibilityFits(root, f)
  }

  /** The demand of a field itself, and that of the groups in front of it with
      it. */
  function OwnDemand(root: AbiType, ranges: seq<Range>, fields: seq<Field>, k: nat): Demand
    requires k < |fields|
  {
    Plus(Plus(PlanDemand(root, fields[k]), RuleDemand(fields[k].visible)),
         LoopsDemand(StepsOf(root, fields[k]), OwnPositions(root, ranges, fields[k], k)))
  }

  function FieldDemand(root: AbiType, ranges: seq<Range>, fields: seq<Field>, k: nat): Demand
    requires k < |fields|
  {
    Plus(GroupsDemand(root, ranges, StartingAt(ranges, |ranges|, k)), OwnDemand(root, ranges, fields, k))
  }

  function DemandUpTo(root: AbiType, ranges: seq<Range>, fields: seq<Field>, n: nat): Demand
    requires n <= |fields|
  {
    if n == 0 then NOTHING else Plus(DemandUpTo(root, ranges, fields, n - 1), FieldDemand(root, ranges, fields, n - 1))
  }

  lemma {:induction false} DemandUpToGrows(root: AbiType, ranges: seq<Range>, fields: seq<Field>, n: nat)
    requires n <= |fields|
    ensures DemandUpTo(root, ranges, fields, n).literals <= DemandUpTo(root, ranges, fields, |fields|).literals
    decreases |fields| - n
  {
    hide FieldDemand;
    if n < |fields| {
      DemandUpToGrows(root, ranges, fields, n + 1);
    }
  }

  lemma LoopsTakeNone(steps: seq<Step>, own: seq<nat>)
    requires forall i :: 0 <= i < |own| ==> own[i] < |steps|
    ensures LoopsDemand(steps, own).literals == 0 == LoopsDemand(steps, own).constants
  {
    if own != [] {
      LoopsTakeNone(steps, own[..|own| - 1]);
    }
  }

  lemma GroupsTakeNone(root: AbiType, ranges: seq<Range>, gs: seq<nat>)
    requires AreGroups(ranges, gs)
    ensures GroupsDemand(root, ranges, gs).literals == 0 == GroupsDemand(root, ranges, gs).constants
  {
    if gs != [] {
      GroupsTakeNone(root, ranges, gs[..|gs| - 1]);
    }
  }

  lemma GroupsDemandNone(root: AbiType, ranges: seq<Range>, gs: seq<nat>)
    requires AreGroups(ranges, gs)
    ensures GroupsDemand(root, ranges, gs[..0]) == NOTHING
  {
  }

  lemma LoopsDemandNone(steps: seq<Step>, own: seq<nat>)
    requires forall i :: 0 <= i < |own| ==> own[i] < |steps|
    ensures LoopsDemand(steps, own[..0]) == NOTHING
  {
  }

  /** What holds of the value's request and of the others. */
  lemma AllFirst(strings: seq<bytes>, r: Request, rs: seq<Request>)
    ensures AllTextsIn(strings, [r] + rs) <==> TextsIn(strings, r) && AllTextsIn(strings, rs)
    ensures RequestsFit([r] + rs) <==> RequestFits(r) && RequestsFit(rs)
  {
    hide TextsIn, RequestFits;
    var all := [r] + rs;
    assert all[0] == r && forall i :: 0 <= i < |rs| ==> all[i + 1] == rs[i];
  }

  // ------------------------------------------------------------------- intent

  predicate TokenReady(strings: seq<bytes>, fields: seq<Field>, t: Token) {
    match t
    case TextToken(text) => HasText(strings, text)
    case ValueToken(path) => FieldAt(fields, path).Ok?
  }

  predicate IntentReady(strings: seq<bytes>, fields: seq<Field>, intent: string, tokens: seq<Token>) {
    HasText(strings, intent) && forall n :: 0 <= n < |tokens| ==> TokenReady(strings, fields, tokens[n])
  }

  // -------------------------------------------------------------------- whole

  /** No group is still open behind the first `n` fields. */
  predicate NoneOpen(ranges: seq<Range>, n: nat) {
    forall g :: 0 <= g < |ranges| ==> !(ranges[g].start < n < ranges[g].end)
  }

  lemma NoneOpenIff(l: Layout, ranges: seq<Range>, n: nat)
    requires BeforeField(l, ranges, n) && PendingOrdered(l, ranges)
    ensures l.pending == [] <==> NoneOpen(ranges, n)
  {
    if l.pending != [] {
      assert IsPending(l.pending, l.pending[0].group);
    } else {
      forall g: nat | g < |ranges| ensures !(ranges[g].start < n < ranges[g].end) {
        assert !IsPending(l.pending, g);
      }
    }
  }

  /** No step of the emission raises, but for texts that are not listed and tables
      that are full. */
  predicate RunReady(root: AbiType, ranges: seq<Range>, fields: seq<Field>, strings: seq<bytes>, intent: string,
      tokens: seq<Token>)
  {
    && IntentReady(strings, fields, intent, tokens) && NoneOpen(ranges, |fields|)
    && forall k :: 0 <= k < |fields| ==> FieldReady(root, ranges, fields, k)
  }

  predicate FieldsFit(root: AbiType, fields: seq<Field>, n: nat)
    requires n <= |fields|
  {
    forall j :: 0 <= j < n ==> FieldFits(root, fields[j])
  }

  lemma FitsNext(root: AbiType, fields: seq<Field>, n: nat)
    requires n < |fields|
    ensures FieldsFit(root, fields, n + 1) <==> FieldsFit(root, fields, n) && FieldFits(root, fields[n])
  {
    hide FieldFits;
  }

  lemma OptionalNext(fields: seq<Field>, n: nat)
    requires n < |fields|
    ensures HasOptional(fields, n + 1) <==> HasOptional(fields, n) || fields[n].visible.Optional?
  {
  }

  // --------------------------------------------------------------- conditions

  predicate HasOptional(fields: seq<Field>, n: nat)
    requires n <= |fields|
  {
    exists j :: 0 <= j < n && fields[j].visible.Optional?
  }

  /** One condition for each rule, and one for all optional fields. */
  function ConditionsUpTo(fields: seq<Field>, n: nat): nat
    requires n <= |fields|
  {
    if n == 0 then 0
    else ConditionsUpTo(fields, n - 1) + ConditionCount(fields[n - 1].visible, HasOptional(fields, n - 1))
  }
}
