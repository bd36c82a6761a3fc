/** The tables and the display program as functions of the descriptor
    (`CalldataCompiler.compile`, keepkeylib/erc7730_compiler.py): what each field
    and group adds, in the order of compilation. */
module FieldContents {
  import opened Wrappers
  import opened Bytes
  import opened AbiTypes
  import opened AbiPaths
  import opened Program
  import opened DisplayFields
  import opened ProgramPools
  import opened TableContents
  import opened ProgramBuilder
  import opened GroupScope
  import opened CompiledDisplay

  /** Everything that grows. */
  datatype Work = Work(pools: Pools, formatters: seq<Formatter>, conditions: Conditions, layout: Layout)

  // ------------------------------------------------------------------- intent

  function PieceOf(strings: seq<bytes>, fields: seq<Field>, t: Token): Instruction {
    match t
    case TextToken(text) => Instruction(2, TextPlace(strings, text), ABSENT, ABSENT)
    case ValueToken(path) =>
      Instruction(3, match FieldAt(fields, path) case Ok(i) => i case Raised => ABSENT, ABSENT, ABSENT)
  }

  /** The intent and its pieces. */
  function IntentOf(strings: seq<bytes>, fields: seq<Field>, intent: string, tokens: seq<Token>): seq<Instruction> {
    if tokens == [] then [Instruction(1, TextPlace(strings, intent), ABSENT, ABSENT)]
    else
      var n := |tokens| - 1;
      IntentOf(strings, fields, intent, tokens[..n]) + [PieceOf(strings, fields, tokens[n])]
  }

  lemma IntentOfNext(strings: seq<bytes>, fields: seq<Field>, intent: string, tokens: seq<Token>, n: nat)
    requires n < |tokens|
    ensures IntentOf(strings, fields, intent, tokens[..n + 1]) ==
              IntentOf(strings, fields, intent, tokens[..n]) + [PieceOf(strings, fields, tokens[n])]
  {
    assert tokens[..n + 1][..n] == tokens[..n];
  }

  lemma IntentOfNone(strings: seq<bytes>, fields: seq<Field>, intent: string, tokens: seq<Token>)
    ensures IntentOf(strings, fields, intent, tokens[..0]) ==
              [Instruction(1, TextPlace(strings, intent), ABSENT, ABSENT)]
  {
  }

  // ------------------------------------------------------------------- groups

  /** The tables with the path of a group that iterates. */
  function GroupPools(root: AbiType, r: Range, p: Pools): Pools {
    if IteratesGroup(r.path) && ResolvePath(root, r.path.value).Ok? then
      WithPath(p, ResolvePath(root, r.path.value).value)
    else p
  }

  function GroupLoop(root: AbiType, r: Range, p: Pools): Option<Instruction> {
    if IteratesGroup(r.path) && ResolvePath(root, r.path.value).Ok? then
      Some(Instruction(7, PathPlace(p.paths, ResolvePath(root, r.path.value).value), ABSENT, 0))
    else None
  }

  function GroupOpener(r: Range, strings: seq<bytes>): Instruction {
    Instruction(5, OptionalPlace(strings, r.caption), ABSENT, 0)
  }

  function GroupOpened(root: AbiType, ranges: seq<Range>, w: Work, g: nat): Work
    requires g < |ranges|
  {
    w.(pools := GroupPools(root, ranges[g], w.pools),
       layout := OpenGroup(w.layout, g, GroupLoop(root, ranges[g], w.pools), GroupOpener(ranges[g], w.pools.strings)))
  }

  function GroupsOpened(root: AbiType, ranges: seq<Range>, w: Work, gs: seq<nat>): Work
    requires AreGroups(ranges, gs)
  {
    if gs == [] then w
    else
      var n := |gs| - 1;
      GroupOpened(root, ranges, GroupsOpened(root, ranges, w, gs[..n]), gs[n])
  }

  lemma GroupsOpenedNext(root: AbiType, ranges: seq<Range>, w: Work, gs: seq<nat>, n: nat)
    requires AreGroups(ranges, gs) && n < |gs|
    ensures GroupsOpened(root, ranges, w, gs[..n + 1]) ==
              GroupOpened(root, ranges, GroupsOpened(root, ranges, w, gs[..n]), gs[n])
  {
    assert gs[..n + 1][..n] == gs[..n];
  }

  lemma GroupsOpenedNone(root: AbiType, ranges: seq<Range>, w: Work, gs: seq<nat>)
    requires AreGroups(ranges, gs)
    ensures GroupsOpened(root, ranges, w, gs[..0]) == w
  {
  }

  /** The `n` innermost groups closed. */
  function GroupsShut(l: Layout, n: nat): Layout {
    if n == 0 then l
    else
      var m := GroupsShut(l, n - 1);
      if CanShut(m) then CloseGroup(m) else m
  }

  predicate CanShut(l: Layout) {
    && l.pending != []
    && var p := l.pending[|l.pending| - 1];
       p.begin < |l.displays| && (p.iteration.Some? ==> p.iteration.value < |l.displays|)
  }

  lemma GroupsShutNone(l: Layout)
    ensures GroupsShut(l, 0) == l
  {
  }

  lemma GroupsShutNext(l: Layout, n: nat)
    requires CanShut(GroupsShut(l, n))
    ensures GroupsShut(l, n + 1) == CloseGroup(GroupsShut(l, n))
  {
  }

  // ------------------------------------------------------------------- fields

  /** A formatter, its value first, and what its arguments need. */
  function FormatterAdded(w: Work, plan: Plan): Work
    requires plan.requests != []
  {
    var value, rest := plan.requests[0], plan.requests[1..];
    var p := Added(w.pools, value);
    w.(pools := AddedAll(p, rest),
       formatters := w.formatters + [Formatter(plan.kind, [Argued(w.pools, value)] + ArguedAll(p, rest))])
  }

  function ConditionAdded(root: AbiType, f: Field, w: Work, value: nat): Work {
    w.(pools := VisibilityPools(w.pools, f.visible, NodeOf(root, f)),
       conditions := Conditioned(w.conditions, w.pools, f.visible, value))
  }

  function LoopOpened(steps: seq<Step>, at: nat, condition: nat, w: Work): Work
    requires at < |steps|
  {
    var path := AbiPath(steps[..at + 1]);
    w.(pools := WithPath(w.pools, path),
       layout := OpenLoop(w.layout, Instruction(7, PathPlace(w.pools.paths, path), condition, 0)))
  }

  function LoopsOpened(steps: seq<Step>, own: seq<nat>, condition: nat, w: Work): Work
    requires forall i :: 0 <= i < |own| ==> own[i] < |steps|
  {
    if own == [] then w
    else
      var n := |own| - 1;
      LoopOpened(steps, own[n], condition, LoopsOpened(steps, own[..n], condition, w))
  }

  lemma LoopsOpenedNext(steps: seq<Step>, own: seq<nat>, condition: nat, w: Work, n: nat)
    requires n < |own| && forall i :: 0 <= i < |own| ==> own[i] < |steps|
    ensures LoopsOpened(steps, own[..n + 1], condition, w) ==
              LoopOpened(steps, own[n], condition, LoopsOpened(steps, own[..n], condition, w))
  {
    assert own[..n + 1][..n] == own[..n];
  }

  lemma LoopsOpenedNone(steps: seq<Step>, own: seq<nat>, condition: nat, w: Work)
    requires forall i :: 0 <= i < |own| ==> own[i] < |steps|
    ensures LoopsOpened(steps, own[..0], condition, w) == w
  {
  }

  /** Of `m` iterations the `n` innermost closed; the outermost closer carries the
      separator. */
  function LoopsShut(l: Layout, m: nat, n: nat, separator: nat): Layout {
    if n == 0 then l
    else
      var inner := LoopsShut(l, m, n - 1, separator);
      if inner.loops != [] && inner.loops[|inner.loops| - 1] < |inner.displays| then
        CloseLoop(inner, if n == m then separator else ABSENT)
      else inner
  }

  lemma LoopsShutNone(l: Layout, m: nat, separator: nat)
    ensures LoopsShut(l, m, 0, separator) == l
  {
  }

  lemma LoopsShutNext(l: Layout, m: nat, n: nat, separator: nat)
    requires var inner := LoopsShut(l, m, n, separator);
             inner.loops != [] && inner.loops[|inner.loops| - 1] < |inner.displays|
    ensures LoopsShut(l, m, n + 1, separator) ==
              CloseLoop(LoopsShut(l, m, n, separator), if n + 1 == m then separator else ABSENT)
  {
  }

  /** The field's instruction between its own iterations. */
  function FieldWritten(steps: seq<Step>, w: Work, k: nat, title: nat, own: seq<nat>, condition: nat,
      separator: nat): Work
    requires forall i :: 0 <= i < |own| ==> own[i] < |steps|
  {
    var begun := LoopsOpened(steps, own, condition, w);
    var placed := AppendField(begun.layout, Instruction(4, title, k, if own == [] then condition else ABSENT));
    begun.(layout := LoopsShut(placed, |own|, |own|, separator))
  }

  function FieldAdded(root: AbiType, ranges: seq<Range>, f: Field, k: nat, w: Work): Work {
    match PlanOf(root, f)
    case Raised => w
    case Ok(plan) =>
      if plan.requests == [] then w
      else
        var value := Argued(w.pools, plan.requests[0]).index;
        var own, strings := OwnPositions(root, ranges, f, k), w.pools.strings;
        var ready := ConditionAdded(root, f, FormatterAdded(w, plan), value);
        FieldWritten(StepsOf(root, f), ready, k, TextPlace(strings, f.title), own,
                     ConditionPlace(w.conditions, f.visible),
                    if own == [] then ABSENT else OptionalPlace(strings, f.separator))
  }

  /** Field `k` with the groups around it. */
  function FieldFinished(root: AbiType, ranges: seq<Range>, fields: seq<Field>, k: nat, w: Work): Work
    requires k < |fields|
  {
    var begun := GroupsOpened(root, ranges, w, StartingAt(ranges, |ranges|, k));
    var added := FieldAdded(root, ranges, fields[k], k, begun);
    added.(layout := GroupsShut(added.layout, |EndingAt(ranges, |ranges|, k + 1)|))
  }

  // -------------------------------------------------------------------- whole

  /** After the intent: empty tables but for the texts and the domain's
      literals. */
  function WorkStart(strings: seq<bytes>, fields: seq<Field>, intent: string, tokens: seq<Token>,
      domain: seq<Literal>): Work
  {
    Work(Pools(strings, [], domain), [], Conditions([], None),
         Layout(IntentOf(strings, fields, intent, tokens), [], [], map[], []))
  }

  function WorkUpTo(root: AbiType, ranges: seq<Range>, fields: seq<Field>, n: nat, start: Work): Work
    requires n <= |fields|
  {
    if n == 0 then start else FieldFinished(root, ranges, fields, n - 1, WorkUpTo(root, ranges, fields, n - 1, start))
  }
  lemma WorkUpToNone(root: AbiType, ranges: seq<Range>, fields: seq<Field>, start: Work)
    ensures WorkUpTo(root, ranges, fields, 0, start) == start
  {
  }

  lemma WorkUpToNext(root: AbiType, ranges: seq<Range>, fields: seq<Field>, n: nat, start: Work)
    requires n < |fields|
    ensures WorkUpTo(root, ranges, fields, n + 1, start) ==
              FieldFinished(root, ranges, fields, n, WorkUpTo(root, ranges, fields, n, start))
  {
  }

  /** All fields, and the end. */
  function WorkDone(root: AbiType, ranges: seq<Range>, fields: seq<Field>, intent: string, tokens: seq<Token>,
      strings: seq<bytes>, domain: seq<Literal>): Work
  {
    var w := WorkUpTo(root, ranges, fields, |fields|, WorkStart(strings, fields, intent, tokens, domain));
    w.(layout := Append(w.layout, Instruction(10, ABSENT, ABSENT, ABSENT)))
  }
}
