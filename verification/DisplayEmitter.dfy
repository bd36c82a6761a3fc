/** The display loop of `CalldataCompiler.compile`
    (keepkeylib/erc7730_compiler.py): for every field the groups that start
    there, the field with its iterations, and the groups that end behind it. */
module DisplayEmitter {
  import opened Wrappers
  import opened Text
  import opened AbiTypes
  import opened AbiPaths
  import opened Program
  import opened DisplayWord
  import opened DisplayFields
  import opened Formatters
  import opened ProgramPools
  import opened ProgramBuilder
  import opened GroupScope
  import opened CompiledDisplay
  import opened DisplayShape
  import opened Demands
  import opened FieldDemands
  import opened TableContents
  import opened FieldContents

  /** Iteration `n` of the field at `pc`, opened as `heads[n]`, points at its
      closer and back. */
  predicate LoopClosed(ds: seq<Instruction>, heads: seq<Instruction>, pc: nat, n: nat, separator: nat)
    requires n < |heads| <= pc < |ds|
  {
    && pc + |heads| - n < |ds|
    && ds[pc - |heads| + n] == heads[n].(c := pc + |heads| - n)
    && ds[pc + |heads| - n] == Instruction(8, pc - |heads| + n, if n == 0 then separator else ABSENT, ABSENT)
  }

  /** While the iterations of the field at `pc` are being closed, the first
      `left` are still open. */
  ghost predicate LoopsClosing(ds: seq<Instruction>, heads: seq<Instruction>, pc: nat, left: nat, separator: nat) {
    && left <= |heads| <= pc && |ds| == pc + 1 + (|heads| - left)
    && (forall n :: 0 <= n < |heads| ==> heads[n].opcode == 7)
    && (forall n :: 0 <= n < left ==> ds[pc - |heads| + n] == heads[n])
    && (forall n :: left <= n < |heads| ==> LoopClosed(ds, heads, pc, n, separator))
  }

  lemma LoopsClosingNext(ds: seq<Instruction>, heads: seq<Instruction>, pc: nat, left: nat, separator: nat)
    requires LoopsClosing(ds, heads, pc, left, separator) && left > 0
    ensures var es := CloseTop(ds, pc - |heads| + left - 1, if left == 1 then separator else ABSENT);
            LoopsClosing(es, heads, pc, left - 1, separator) && es[pc] == ds[pc]
  {
    var top := pc - |heads| + left - 1;
    var es := CloseTop(ds, top, if left == 1 then separator else ABSENT);
    assert ds[pc - |heads| + (left - 1)] == heads[left - 1];
    forall n | left - 1 <= n < |heads| ensures LoopClosed(es, heads, pc, n, separator) {
      if n >= left {
        assert LoopClosed(ds, heads, pc, n, separator);
      }
    }
  }

  lemma CloseGroupExtends(l: Layout)
    requires Linked(l.displays, OpenersIn(l)) && l.pending != [] && l.loops == []
    requires var p := l.pending[|l.pending| - 1];
             p.begin < |l.displays| && (p.iteration.Some? ==> p.iteration.value < |l.displays|)
    ensures Extends(l.displays, CloseGroup(l).displays)
  {
    hide Linked, Extends, CloseTop;
    var p, open := l.pending[|l.pending| - 1], OpenersIn(l);
    var rest := PendingOpeners(l.pending[..|l.pending| - 1]);
    LastPendingOpen(l);
    ExtendsClose(l.displays, open, 0xffff);
    if p.iteration.Some? {
      var closed := CloseTop(l.displays, p.begin, 0xffff);
      LinkedClose(l.displays, open, 0xffff);
      assert open[..|open| - 1] == rest + [p.iteration.value];
      ExtendsClose(closed, rest + [p.iteration.value], 0xffff);
      ExtendsTransitive(l.displays, closed, CloseTop(closed, p.iteration.value, 0xffff));
    }
  }

  lemma GroupAdded(b: Built, root: AbiType, ranges: seq<Range>, ds: seq<Instruction>, begins: map<nat, nat>, g: nat,
      begin: nat)
    requires AllGroupsEmitted(b, root, ranges, ds, begins)
    requires g < |ranges| && GroupEmitted(b, root, ranges[g], ds, begin)
    ensures AllGroupsEmitted(b, root, ranges, ds, begins[g := begin])
  {
  }

  class Emitter {
    const tables: TableBuilder
    const ranges: seq<Range>
    const fields: seq<Field>
    const intent: string
    const tokens: seq<Token>
    var displays: seq<Instruction>
    var active: seq<Pending>
    var loops: seq<nat>
    ghost var begins: map<nat, nat>
    ghost var fieldPcs: seq<nat>

    constructor (tables: TableBuilder, ranges: seq<Range>, fields: seq<Field>, intent: string, tokens: seq<Token>)
      ensures this.tables == tables && this.ranges == ranges && this.fields == fields
      ensures this.intent == intent && this.tokens == tokens
      ensures displays == [] && active == [] && loops == [] && begins == map[] && fieldPcs == []
    {
      this.tables, this.ranges, this.fields, this.intent, this.tokens := tables, ranges, fields, intent, tokens;
      displays, active, loops, begins, fieldPcs := [], [], [], map[], [];
    }

    ghost function L(): Layout
      reads this
    {
      Layout(displays, active, loops, begins, fieldPcs)
    }

    ghost function B(): Built
      reads this, tables
    {
      Built(tables.P(), tables.formatters, tables.conditions)
    }

    ghost function W(): Work
      reads this, tables
    {
      Work(tables.P(), tables.formatters, tables.C(), L())
    }

    /** Everything emitted so far says what the descriptor asks for, with the
        first `n` fields complete. */
    ghost predicate Emitted(n: nat)
      reads this, tables
    {
      && tables.Tabled() && n <= |fieldPcs|
      && AllFieldsEmitted(B(), tables.root, ranges, fields, displays, fieldPcs[..n])
      && AllGroupsEmitted(B(), tables.root, ranges, displays, begins)
      && IntentEmitted(tables.P(), fields, intent, tokens, displays)
      && GroupLoops(ranges, displays, begins, active)
      && |tables.plans| <= |fields|
      && forall j :: 0 <= j < |tables.plans| ==> PlanOf(tables.root, fields[j]) == Ok(tables.plans[j])
    }

    /** Every instruction so far is known. */
    ghost predicate Told()
      reads this
    {
      Accounted(tables.root, ranges, fields, |tokens|, displays, begins, fieldPcs)
    }

    twostate lemma EmittedExtends(n: nat)
      requires old(Emitted(n)) && tables.Tabled()
      requires BuiltGrows(old(B()), B()) && Extends(old(displays), displays)
      requires begins == old(begins) || AllGroupsEmitted(B(), tables.root, ranges, displays, begins)
      requires (begins == old(begins) && active == old(active)) || GroupLoops(ranges, displays, begins, active)
      requires n <= |fieldPcs| && fieldPcs[..n] == old(fieldPcs[..n])
      requires |tables.plans| <= |fields|
      requires forall j :: 0 <= j < |tables.plans| ==> PlanOf(tables.root, fields[j]) == Ok(tables.plans[j])
      ensures Emitted(n)
    {
      FieldsPersist(old(B()), B(), tables.root, ranges, fields, old(displays), displays, fieldPcs[..n]);
      if begins == old(begins) {
        GroupsPersist(old(B()), B(), tables.root, ranges, old(displays), displays, begins);
      }
      IntentPersists(old(tables.P()), tables.P(), fields, intent, tokens, old(displays), displays);
      if begins == old(begins) && active == old(active) {
        GroupLoopsExtends(ranges, old(displays), displays, begins, active);
      }
    }

    // ------------------------------------------------------------------ groups

    /** The iteration a group's path asks for: its interned path, and how many
        array steps it takes over. */
    method GroupArray(range: Range) returns (r: Result<(Option<nat>, nat)>)
      requires Emitted(|fieldPcs|)
      modifies tables`paths, tables`pathIndex
      ensures Emitted(|fieldPcs|)
      ensures r.Ok? ==> r.value.1 == TakenOver(tables.root, range) && (r.value.0.Some? <==> IteratesGroup(range.path))
      ensures r.Ok? && r.value.0.Some? ==>
                r.value.0.value < |tables.paths|
                && ResolvePath(tables.root, range.path.value) == Ok(tables.paths[r.value.0.value])
      ensures r.Ok? ==> tables.P() == GroupPools(tables.root, range, old(tables.P()))
      ensures r.Ok? ==> LoopOver(r.value.0) == GroupLoop(tables.root, range, old(tables.P()))
      ensures r.Ok? <==> GroupResolves(tables.root, range)
      ensures r.Ok? ==> Took(old(tables.P()), tables.P(), GroupDemand(tables.root, range))
    {
      hide Took, AllFieldsEmitted, AllGroupsEmitted, IntentEmitted, GroupLoops, ResolvePath, PlanOf;
      if !IteratesGroup(range.path) {
        TookNothing(tables.P());
        return Ok((None, 0));
      }
      var path :- ResolvePath(tables.root, range.path.value);
      ResolvedPathOn(tables.root, range.path.value);
      assert !path.LiteralPath?;
      var index := tables.InternPath(path);
      EmittedExtends(|fieldPcs|);
      return Ok((Some(index), if path.AbiPath? then Iterations(path.steps) else 0));
    }

    static function LoopOver(path: Option<nat>): Option<Instruction> {
      if path.Some? then Some(Instruction(7, path.value, ABSENT, 0)) else None
    }

    /** The opener of group `g`, behind that of an iteration over its path. */
    method OpenGroup(g: nat) returns (r: Result<nat>)
      requires Emitted(|fieldPcs|) && Sound(L(), ranges) && loops == []
      requires g < |ranges| && g !in begins && ranges[g].start == |fieldPcs|
      requires active != [] ==> ranges[active[|active| - 1].group].end >= ranges[g].end
      requires Told()
      modifies this`displays, this`active, this`begins, tables`paths, tables`pathIndex
      ensures r.Ok? ==> Emitted(|fieldPcs|) && Sound(L(), ranges) && Told()
      ensures r.Ok? ==> r.value == TakenOver(tables.root, ranges[g])
      ensures r.Ok? ==> W() == GroupOpened(tables.root, ranges, old(W()), g)
      ensures r.Ok? ==> begins.Keys == old(begins.Keys) + {g}
      ensures r.Ok? ==> forall h: nat :: IsPending(active, h) <==> IsPending(old(active), h) || h == g
      ensures r.Ok? ==> active != [] && active[|active| - 1].group == g
      ensures r.Ok? ==> Skeleton(displays) == Skeleton(old(displays)) + GroupShape(ranges[g])
      ensures r.Ok? <==> GroupResolves(tables.root, ranges[g]) && CaptionIn(tables.strings, ranges[g])
      ensures r.Ok? ==> Took(old(tables.P()), tables.P(), GroupDemand(tables.root, ranges[g]))
    {
      hide Skeleton, Sound, Emitted, ResolvePath, TakenOver, TableBuilder.Tabled, IteratesGroup, Accounted, Took,
        HasText, GroupDemand, GroupResolves, GroupPools, GroupLoop;
      var range := ranges[g];
      var arrayPath :- GroupArray(range);
      var caption := ABSENT;
      if Given(range.caption) {
        caption :- tables.StringIndex(range.caption.value);
      }
      PlaceGroup(g, LoopOver(arrayPath.0), Instruction(5, caption, ABSENT, 0));
      return Ok(arrayPath.1);
    }

    /** The same, its instructions given. */
    method PlaceGroup(g: nat, opener: Option<Instruction>, i: Instruction)
      requires Emitted(|fieldPcs|) && Sound(L(), ranges) && loops == []
      requires g < |ranges| && g !in begins && ranges[g].start == |fieldPcs|
      requires active != [] ==> ranges[active[|active| - 1].group].end >= ranges[g].end
      requires i.opcode == 5 && i.b == ABSENT && TextOrAbsent(tables.P(), i.a, ranges[g].caption)
      requires opener.Some? <==> IteratesGroup(ranges[g].path)
      requires opener.Some? ==>
                 && opener.value.opcode == 7 && opener.value.b == ABSENT && opener.value.a < |tables.paths|
                 && ResolvePath(tables.root, ranges[g].path.value) == Ok(tables.paths[opener.value.a])
      requires Told()
      modifies this`displays, this`active, this`begins
      ensures Emitted(|fieldPcs|) && Sound(L(), ranges) && begins.Keys == old(begins.Keys) + {g} && Told()
      ensures L() == GroupScope.OpenGroup(old(L()), g, opener, i)
      ensures forall h: nat :: IsPending(active, h) <==> IsPending(old(active), h) || h == g
      ensures active != [] && active[|active| - 1].group == g
      ensures Skeleton(displays) == Skeleton(old(displays)) + GroupShape(ranges[g])
    {
      hide Skeleton, Sound, AllFieldsEmitted, AllGroupsEmitted, IntentEmitted, GroupLoops, ResolvePath, PlanOf,
        TableBuilder.Tabled, IteratesGroup, Accounted;
      GroupAccounted(tables.root, ranges, fields, |tokens|, displays, begins, fieldPcs, opener, i, g);
      ghost var before, groups, pending := displays, begins, active;
      PushGroup(g, opener, i);
      GroupsPersist(B(), B(), tables.root, ranges, before, displays, groups);
      GroupAdded(B(), tables.root, ranges, displays, groups, g, |displays| - 1);
      GroupLoopsExtends(ranges, before, displays, groups, pending);
      GroupLoopsOpened(ranges, displays, groups, pending, active[|active| - 1]);
      EmittedExtends(|fieldPcs|);
    }

    method PushGroup(g: nat, opener: Option<Instruction>, i: Instruction)
      requires Sound(L(), ranges) && loops == []
      requires i.opcode == 5 && (opener.Some? ==> opener.value.opcode == 7)
      requires g < |ranges| && g !in begins && ranges[g].start == |fieldPcs|
      requires active != [] ==> ranges[active[|active| - 1].group].end >= ranges[g].end
      modifies this`displays, this`active, this`begins
      ensures Sound(L(), ranges) && L() == GroupScope.OpenGroup(old(L()), g, opener, i)
      ensures displays == old(displays) + (if opener.Some? then [opener.value] else []) + [i]
      ensures begins == old(begins)[g := |displays| - 1]
      ensures forall h: nat :: IsPending(active, h) <==> IsPending(old(active), h) || h == g
      ensures active == old(active) + [Pending(g, |displays| - 1, if opener.Some? then Some(|old(displays)|) else None)]
      ensures Skeleton(displays) == Skeleton(old(displays)) + (if opener.Some? then [7, 5] else [5])
    {
      hide Skeleton, Sound;
      var iteration := if opener.Some? then Some(|displays|) else None;
      if opener.Some? {
        SkeletonAppend(displays, opener.value);
        displays := displays + [opener.value];
      }
      var begin := |displays|;
      SkeletonAppend(displays, i);
      displays := displays + [i];
      active := active + [Pending(g, begin, iteration)];
      begins := begins[g := begin];
      assert L() == GroupScope.OpenGroup(old(L()), g, opener, i);
      OpenGroupSound(old(L()), ranges, g, opener, i);
      forall h: nat ensures IsPending(active, h) <==> IsPending(old(active), h) || h == g {
        OpenGroupPending(old(L()), g, opener, i, h);
      }
    }

    /** All groups that start at the next field, the widest first. */
    method OpenGroups(k: nat, ghost hi: nat) returns (r: Result<nat>)
      requires Emitted(k) && Sound(L(), ranges) && loops == []
      requires k == |fieldPcs| && BeforeField(L(), ranges, k) && Laminar(ranges, 0, hi) && Told()
      modifies this`displays, this`active, this`begins, tables`paths, tables`pathIndex
      ensures r.Ok? ==> Emitted(k) && Sound(L(), ranges) && AtField(L(), ranges, k) && Told()
      ensures r.Ok? ==> r.value == TakenByAll(tables.root, ranges, StartingAt(ranges, |ranges|, k))
      ensures r.Ok? ==> W() == GroupsOpened(tables.root, ranges, old(W()), StartingAt(ranges, |ranges|, k))
      ensures r.Ok? ==>
                Skeleton(displays) == Skeleton(old(displays)) + GroupsShape(ranges, StartingAt(ranges, |ranges|, k))
      ensures r.Ok? <==> AllComparable(ranges, StartingAt(ranges, |ranges|, k))
                         && forall g :: g in StartingAt(ranges, |ranges|, k) ==>
                              GroupResolves(tables.root, ranges[g]) && CaptionIn(tables.strings, ranges[g])
      ensures r.Ok? ==>
                Took(old(tables.P()), tables.P(), GroupsDemand(tables.root, ranges, StartingAt(ranges, |ranges|, k)))
    {
      hide Took, GroupDemand, GroupsDemand, GroupResolves, CaptionIn, Skeleton, GroupsShape, GroupShape, Told, Emitted,
        Sound, Opening, Earlier, TakenOver, StartingAt, Laminar, TakenByAll, Comparable, IsPending, GroupOpened,
        GroupsOpened, AtField, BeforeField, HasText, Plus, AllComparable;
      var todo := StartingAt(ranges, |ranges|, k);
      if !AllComparable(ranges, todo) {
        return Raised;
      }
      var taken := 0;
      StartOpening(L(), ranges, k, hi);
      NothingEarlier(L(), ranges, k, todo);
      TakenByNone(tables.root, ranges, todo);
      GroupsShapeNone(ranges, todo);
      GroupsDemandNone(tables.root, ranges, todo);
      GroupsOpenedNone(tables.root, ranges, W(), todo);
      TookNothing(tables.P());
      assert todo[0..] == todo;
      for n := 0 to |todo|
        invariant Emitted(k) && Sound(L(), ranges) && Told()
        invariant W() == GroupsOpened(tables.root, ranges, old(W()), todo[..n])
        invariant Opening(L(), ranges, k, todo[n..]) && Earlier(L(), ranges, k, todo[n..])
        invariant taken == TakenByAll(tables.root, ranges, todo[..n])
        invariant Skeleton(displays) == Skeleton(old(displays)) + GroupsShape(ranges, todo[..n])
        invariant Took(old(tables.P()), tables.P(), GroupsDemand(tables.root, ranges, todo[..n]))
        invariant forall i :: 0 <= i < n ==>
                    GroupResolves(tables.root, ranges[todo[i]]) && CaptionIn(tables.strings, ranges[todo[i]])
      {
        ghost var l, before := L(), tables.P();
        assert todo[n..][0] == todo[n] && todo[n..][1..] == todo[n + 1..];
        OpeningReady(l, ranges, k, todo[n..], hi);
        var more :- OpenGroup(todo[n]);
        OpeningNext(l, L(), ranges, k, todo[n..], hi);
        GroupsDemandMore(tables.root, ranges, todo, n);
        GroupsOpenedNext(tables.root, ranges, old(W()), todo, n);
        TookBoth(old(tables.P()), before, tables.P(), GroupsDemand(tables.root, ranges, todo[..n]),
                 GroupDemand(tables.root, ranges[todo[n]]));
        taken := taken + more;
        TakenNext(tables.root, ranges, todo, n);
        GroupsShapeNext(ranges, todo, n);
      }
      assert todo[..|todo|] == todo && todo[|todo|..] == [];
      OpeningDone(L(), ranges, k);
      return Ok(taken);
    }

    // ------------------------------------------------------------------ fields

    /** What the groups that started before the next field took over. */
    method CountTakenOutside(k: nat) returns (taken: nat)
      ensures taken == TakenOutside(ranges, |ranges|, k)
    {
      taken := 0;
      for n := 0 to |ranges|
        invariant taken == TakenOutside(ranges, n, k)
      {
        var r := ranges[n];
        if r.start < k < r.end && IteratesGroup(r.path) {
          taken := taken + CountArrayParts(Split(r.path.value, '.'));
        }
      }
    }

    /** The field's formatter: its value and what its format asks for. */
    method AddFieldFormatter(k: nat) returns (r: Result<nat>)
      requires Emitted(k) && |tables.formatters| == k == |fieldPcs| < |fields|
      modifies tables`paths, tables`pathIndex, tables`literals, tables`formatters, tables`plans
      ensures r.Ok? ==> Emitted(k) && |tables.formatters| == k + 1
      ensures r.Ok? ==> tables.formatters[k].arguments != []
                        && tables.formatters[k].arguments[0].index == r.value < |tables.paths|
      ensures r.Ok? ==> PlanOf(tables.root, fields[k]).Ok? && PlanOf(tables.root, fields[k]).value.requests != []
      ensures r.Ok? ==>
                var plan := PlanOf(tables.root, fields[k]).value;
                W() == FormatterAdded(old(W()), plan) && r.value == Argued(old(tables.P()), plan.requests[0]).index
      ensures (PlanOf(tables.root, fields[k]).Ok? && PlanTextsIn(tables.root, fields[k], tables.strings)
               && |old(tables.literals)| + PlanDemand(tables.root, fields[k]).literals <= 0x1_0000) ==> r.Ok?
      ensures r.Ok? ==> Took(old(tables.P()), tables.P(), PlanDemand(tables.root, fields[k]))
      ensures r.Ok? && LiteralsFit(old(tables.literals)) && PlanFits(tables.root, fields[k]) ==>
                LiteralsFit(tables.literals)
    {
      hide Took, DemandOf, DemandOfAll, TextsIn, AllTextsIn, RequestFits, RequestsFit, LiteralsFit, Denotes,
        ConditionIn, PathIn, AllFieldsEmitted, AllGroupsEmitted, IntentEmitted, GroupLoops, Requests, ValueRequest,
        PathOf, Later, TableBuilder.Tabled, Added, Argued, AddedAll, ArguedAll;
      var f := fields[k];
      var request :- ValueRequest(tables.root, f);
      ValueRequestOn(tables.root, f);
      var plan :- Requests(tables.root, PathOf(tables.root, f), f);
      DemandOfFirst(request, plan.1);
      AllFirst(tables.strings, request, plan.1);
      ghost var before := tables.P();
      var value :- tables.AddArgument(request);
      ghost var between := tables.P();
      tables.PlansCounted();
      ValueHasPath(between, value, request);
      TookCount(before, between, DemandOf(request));
      var index :- tables.AddFormatter(value, request, plan.0, plan.1);
      TookBoth(before, between, tables.P(), DemandOf(request), DemandOfAll(plan.1));
      EmittedExtends(k);
      return Ok(value.index);
    }

    /** The field's condition. */
    method AddFieldCondition(k: nat, value: nat) returns (r: Result<nat>)
      requires Emitted(k) && k == |fieldPcs| < |fields| && |tables.formatters| == k + 1
      requires tables.formatters[k].arguments != [] && tables.formatters[k].arguments[0].index == value < |tables.paths|
      modifies tables`literals, tables`conditions, tables`optionalCondition
      ensures r.Ok? ==> Emitted(k) && ConditionOf(B(), tables.root, fields[k], k, r.value)
      ensures r.Ok? ==> W() == ConditionAdded(tables.root, fields[k], old(W()), value)
      ensures r.Ok? ==> r.value == ConditionPlace(old(tables.C()), fields[k].visible)
      ensures (ConditionReady(tables.root, fields[k])
               && |old(tables.literals)| + RuleDemand(fields[k].visible).literals <= 0x1_0000) ==> r.Ok?
      ensures r.Ok? ==> ConditionReady(tables.root, fields[k])
      ensures r.Ok? ==> Took(old(tables.P()), tables.P(), RuleDemand(fields[k].visible))
      ensures r.Ok? && LiteralsFit(old(tables.literals)) && VisibilityFits(tables.root, fields[k]) ==>
                LiteralsFit(tables.literals)
      ensures r.Ok? ==>
                tables.optionalCondition.Some? == (old(tables.optionalCondition).Some? || fields[k].visible.Optional?)
      ensures r.Ok? ==>
                |tables.conditions| ==
                |old(tables.conditions)| + ConditionCount(fields[k].visible, old(tables.optionalCondition).Some?)
    {
      hide Took, RuleDemand, RuleReady, RuleFits, LiteralsFit, AllFieldsEmitted, AllGroupsEmitted, IntentEmitted,
        GroupLoops, PlanOf, ConditionFor, PathNode, PathOf, NodeOf;
      var f := fields[k];
      if (f.visible.IfNotIn? || f.visible.MustMatch?) && PathNode(tables.root, PathOf(tables.root, f)).Raised? {
        return Raised;
      }
      r := tables.AddCondition(f.visible, NodeOf(tables.root, f), value);
      EmittedExtends(k);
    }

    /** The openers of the field's own iterations. */
    method OpenLoops(k: nat, own: seq<nat>, condition: nat) returns (ghost heads: seq<Instruction>)
      requires Emitted(k) && Sound(L(), ranges) && loops == [] && AtField(L(), ranges, k) && k == |fieldPcs| < |fields|
      requires own == OwnPositions(tables.root, ranges, fields[k], k)
      requires ConditionOf(B(), tables.root, fields[k], k, condition)
      modifies this`displays, this`loops, tables`paths, tables`pathIndex
      ensures Emitted(k) && Sound(L(), ranges) && AtField(L(), ranges, k)
      ensures ConditionOf(B(), tables.root, fields[k], k, condition)
      ensures displays == old(displays) + heads && |heads| == |own| && loops == Ramp(|old(displays)|, |own|)
      ensures AreHeads(tables.P(), StepsOf(tables.root, fields[k]), own, condition, heads)
      ensures W() == LoopsOpened(StepsOf(tables.root, fields[k]), own, condition, old(W()))
      ensures Skeleton(displays) == Skeleton(old(displays)) + Sevens(|own|)
      ensures Took(old(tables.P()), tables.P(), LoopsDemand(StepsOf(tables.root, fields[k]), own))
    {
      hide Took, LoopsDemand, Skeleton, Emitted, Sound, ConditionOf, StepsOf, OwnPositions, PathOn, Grows, LoopOpened,
        LoopsOpened, Plus;
      var steps := StepsOf(tables.root, fields[k]);
      heads := [];
      LoopsDemandNone(steps, own);
      LoopsOpenedNone(steps, own, condition, W());
      TookNothing(tables.P());
      for n := 0 to |own|
        invariant Emitted(k) && Sound(L(), ranges) && AtField(L(), ranges, k)
        invariant ConditionOf(B(), tables.root, fields[k], k, condition)
        invariant displays == old(displays) + heads && |heads| == n && loops == Ramp(|old(displays)|, n)
        invariant AreHeads(tables.P(), steps, own, condition, heads)
        invariant W() == LoopsOpened(steps, own[..n], condition, old(W()))
        invariant Skeleton(displays) == Skeleton(old(displays)) + Sevens(n)
        invariant Took(old(tables.P()), tables.P(), LoopsDemand(steps, own[..n]))
      {
        ghost var before, ds := tables.P(), displays;
        var head := OpenLoop(k, own[n], condition);
        HeadsNext(before, tables.P(), steps, own, condition, heads, head);
        heads := heads + [head];
        SkeletonAppend(ds, head);
        assert Sevens(n + 1) == Sevens(n) + [7];
        LoopsDemandMore(steps, own, n);
        LoopsOpenedNext(steps, own, condition, old(W()), n);
        TookBoth(old(tables.P()), before, tables.P(), LoopsDemand(steps, own[..n]),
                 Demand({AbiPath(steps[..own[n] + 1])}, 0, 0));
        RampNext(|old(displays)|, n);
      }
      assert own[..|own|] == own;
    }

    method OpenLoop(k: nat, at: nat, condition: nat) returns (head: Instruction)
      requires Emitted(k) && Sound(L(), ranges) && k == |fieldPcs| < |fields|
      requires at < |StepsOf(tables.root, fields[k])|
      requires ConditionOf(B(), tables.root, fields[k], k, condition)
      modifies this`displays, this`loops, tables`paths, tables`pathIndex
      ensures Emitted(k) && Sound(L(), ranges) && ConditionOf(B(), tables.root, fields[k], k, condition)
      ensures displays == old(displays) + [head] && loops == old(loops) + [|old(displays)|]
      ensures head == Instruction(7, head.a, condition, 0) && head.a < |tables.paths|
      ensures tables.paths[head.a] == AbiPath(StepsOf(tables.root, fields[k])[..at + 1])
      ensures W() == LoopOpened(StepsOf(tables.root, fields[k]), at, condition, old(W()))
      ensures Grows(old(tables.P()), tables.P())
      ensures Took(old(tables.P()), tables.P(), Demand({AbiPath(StepsOf(tables.root, fields[k])[..at + 1])}, 0, 0))
    {
      hide Took, AllFieldsEmitted, AllGroupsEmitted, IntentEmitted, GroupLoops, PlanOf, ConditionFor, Sound, NodeOf,
        StepsOf, PathOn, TableBuilder.Tabled;
      StepsPrefixOn(tables.root, fields[k], at);
      var index := tables.InternPath(AbiPath(StepsOf(tables.root, fields[k])[..at + 1]));
      ConditionForGrows(old(tables.P()), tables.P(), tables.conditions, tables.conditions, condition, fields[k].visible,
                        NodeOf(tables.root, fields[k]), tables.formatters[k].arguments[0].index);
      head := Instruction(7, index, condition, 0);
      loops := loops + [|displays|];
      displays := displays + [head];
      EmittedExtends(k);
      assert L() == GroupScope.OpenLoop(old(L()), head);
      OpenLoopSound(old(L()), ranges, head);
    }

    /** The closers of the field's own iterations, innermost first. */
    method CloseLoops(k: nat, m: nat, separator: nat, ghost heads: seq<Instruction>, ghost pc: nat)
      requires Emitted(k) && Sound(L(), ranges) && AtField(L(), ranges, k) && k <= |fieldPcs|
      requires |heads| == m <= pc && LoopsClosing(displays, heads, pc, m, separator) && loops == Ramp(pc - m, m)
      modifies this`displays, this`loops
      ensures Emitted(k) && Sound(L(), ranges) && AtField(L(), ranges, k)
      ensures LoopsClosing(displays, heads, pc, 0, separator) && loops == []
      ensures pc < |displays| && displays[pc] == old(displays[pc])
      ensures L() == LoopsShut(old(L()), m, m, separator)
      ensures Skeleton(displays) == Skeleton(old(displays)) && SameOpcodes(old(displays), displays)
    {
      hide Skeleton, Emitted, Sound, LoopClosed, LoopsClosing, LoopsShut;
      LoopsShutNone(L(), m, separator);
      ClosingLength(displays, heads, pc, m, separator);
      for closed := 0 to m
        invariant Emitted(k) && Sound(L(), ranges) && AtField(L(), ranges, k)
        invariant LoopsClosing(displays, heads, pc, m - closed, separator) && loops == Ramp(pc - m, m - closed)
        invariant pc < |displays| && displays[pc] == old(displays[pc])
        invariant L() == LoopsShut(old(L()), m, closed, separator)
        invariant Skeleton(displays) == Skeleton(old(displays)) && SameOpcodes(old(displays), displays)
      {
        var top := loops[|loops| - 1];
        ghost var before := displays;
        ClosingTop(displays, heads, pc, m - closed, separator);
        LoopsClosingNext(displays, heads, pc, m - closed, separator);
        SkeletonClose(before, top, if closed == m - 1 then separator else ABSENT);
        LoopsShutNext(old(L()), m, closed, separator);
        CloseLoop(k, if closed == m - 1 then separator else ABSENT);
        assert displays == CloseTop(before, pc - m + (m - closed) - 1, if m - closed == 1 then separator else ABSENT);
        ClosingLength(displays, heads, pc, m - closed - 1, separator);
      }
      ClosingLength(displays, heads, pc, 0, separator);
    }

    method CloseLoop(k: nat, b: nat)
      requires Emitted(k) && Sound(L(), ranges) && k <= |fieldPcs| && loops != []
      requires loops[|loops| - 1] < |displays| && displays[loops[|loops| - 1]].opcode == 7
      modifies this`displays, this`loops
      ensures Emitted(k) && Sound(L(), ranges)
      ensures L() == GroupScope.CloseLoop(old(L()), b)
      ensures displays == CloseTop(old(displays), old(loops)[|old(loops)| - 1], b)
      ensures loops == old(loops)[..|old(loops)| - 1]
    {
      hide AllFieldsEmitted, AllGroupsEmitted, IntentEmitted, GroupLoops, PlanOf, Sound, Extends, TableBuilder.Tabled;
      var top := loops[|loops| - 1];
      ghost var l := L();
      LoopExtends(l, ranges, b);
      displays := (displays + [Instruction(8, top, b, ABSENT)])[top := displays[top].(c := |displays|)];
      loops := loops[..|loops| - 1];
      EmittedExtends(k);
      assert L() == GroupScope.CloseLoop(l, b);
      CloseLoopSound(l, ranges, b);
    }

    /** Field `k`: its formatter, its condition, its iterations and itself. */
    method EmitField(k: nat, taken: nat) returns (r: Result<()>)
      requires Emitted(k) && Sound(L(), ranges) && loops == [] && AtField(L(), ranges, k)
      requires k == |fieldPcs| < |fields| && |tables.formatters| == k && taken == Controlled(tables.root, ranges, k)
      requires Ascends(fieldPcs) && Told()
      modifies this`displays, this`loops, this`fieldPcs, tables
      ensures r.Ok? ==> Emitted(k + 1) && Sound(L(), ranges) && loops == [] && AtField(L(), ranges, k) && Told()
      ensures r.Ok? ==> |fieldPcs| == k + 1 && |tables.formatters| == k + 1 && Ascends(fieldPcs)
      ensures r.Ok? ==> W() == FieldAdded(tables.root, ranges, fields[k], k, old(W()))
      ensures r.Ok? ==>
                Skeleton(displays) == Skeleton(old(displays))
                  + Sevens(|OwnPositions(tables.root, ranges, fields[k], k)|) + [4]
      ensures (PlanOf(tables.root, fields[k]).Ok? && ConditionReady(tables.root, fields[k])
               && FieldTextsIn(tables.root, ranges, fields, tables.strings, k)
               && |old(tables.literals)| + OwnDemand(tables.root, ranges, fields, k).literals <= 0x1_0000) ==> r.Ok?
      ensures r.Ok? ==> PlanOf(tables.root, fields[k]).Ok? && ConditionReady(tables.root, fields[k])
      ensures r.Ok? ==> Took(old(tables.P()), tables.P(), OwnDemand(tables.root, ranges, fields, k))
      ensures r.Ok? && LiteralsFit(old(tables.literals)) && FieldFits(tables.root, fields[k]) ==>
                LiteralsFit(tables.literals)
      ensures r.Ok? ==>
                tables.optionalCondition.Some? == (old(tables.optionalCondition).Some? || fields[k].visible.Optional?)
      ensures r.Ok? ==>
                |tables.conditions| ==
                |old(tables.conditions)| + ConditionCount(fields[k].visible, old(tables.optionalCondition).Some?)
    {
      hide FormatterAdded, ConditionAdded, FieldWritten, Took, PlanDemand, RuleDemand, LoopsDemand, PlanOf, PlanTextsIn,
        PlanFits, ConditionReady, VisibilityFits, LiteralsFit, HasText, CaptionIn, Skeleton, Ascends, Told, Emitted,
        Sound, StepsOf, Controlled, ConditionOf, AtField, ArrayPositions;
      var f := fields[k];
      ghost var p0 := tables.P();
      LoopsTakeNone(StepsOf(tables.root, f), OwnPositions(tables.root, ranges, f, k));
      var value :- AddFieldFormatter(k);
      ghost var p1 := tables.P();
      TookCount(p0, p1, PlanDemand(tables.root, f));
      var condition :- AddFieldCondition(k, value);
      ghost var p2 := tables.P();
      TookBoth(p0, p1, p2, PlanDemand(tables.root, f), RuleDemand(f.visible));
      var title :- tables.StringIndex(f.title);
      var all := ArrayPositions(StepsOf(tables.root, f));
      var own := if taken <= |all| then all[taken..] else [];
      assert own == OwnPositions(tables.root, ranges, f, k);
      var separator := ABSENT;
      if own != [] && Given(f.separator) {
        separator :- tables.StringIndex(f.separator.value);
      }
      PlaceField(k, title, own, condition, separator);
      TookBoth(p0, p2, tables.P(), Plus(PlanDemand(tables.root, f), RuleDemand(f.visible)),
               LoopsDemand(StepsOf(tables.root, f), own));
      return Ok(());
    }

    /** The field's instruction between the brackets of its own iterations. */
    method PlaceField(k: nat, title: nat, own: seq<nat>, condition: nat, separator: nat)
      requires Emitted(k) && Sound(L(), ranges) && loops == [] && AtField(L(), ranges, k) && k == |fieldPcs| < |fields|
      requires own == OwnPositions(tables.root, ranges, fields[k], k)
      requires ConditionOf(B(), tables.root, fields[k], k, condition) && IsString(tables.P(), title, fields[k].title)
      requires own != [] ==> TextOrAbsent(tables.P(), separator, fields[k].separator)
      requires Ascends(fieldPcs) && Told()
      modifies this`displays, this`loops, this`fieldPcs, tables`paths, tables`pathIndex
      ensures Emitted(k + 1) && Sound(L(), ranges) && loops == [] && AtField(L(), ranges, k) && |fieldPcs| == k + 1
              && Told()
      ensures Ascends(fieldPcs) && Skeleton(displays) == Skeleton(old(displays)) + Sevens(|own|) + [4]
      ensures Took(old(tables.P()), tables.P(), LoopsDemand(StepsOf(tables.root, fields[k]), own))
      ensures W() == FieldWritten(StepsOf(tables.root, fields[k]), old(W()), k, title, own, condition, separator)
    {
      hide Took, LoopsDemand, Skeleton, Ascends, Emitted, Sound, FieldEmitted, StepsOf, LoopsClosing, OwnPositions,
        LoopsOpened, LoopsShut,
        ConditionOf, AtField, AreHeads, Accounted, SameOpcodes;
      var f := fields[k];
      ghost var before := displays;
      ghost var heads := OpenLoops(k, own, condition);
      HeadsOpen(tables.P(), StepsOf(tables.root, f), own, condition, heads);
      ghost var pc := |displays|;
      AscendsNext(L(), ranges);
      SkeletonAppend(displays, Instruction(4, title, k, if own == [] then condition else ABSENT));
      PushField(k, Instruction(4, title, k, if own == [] then condition else ABSENT));
      StartClosingLoops(displays, heads, pc, separator);
      ghost var open := displays;
      CloseLoops(k, |own|, separator, heads, pc);
      FieldClosed(B(), tables.root, f, k, own, condition, separator, heads, displays, pc);
      FieldDone(k);
      FieldPlaced(before, heads, open, displays, separator);
      FieldAccounted(tables.root, ranges, fields, |tokens|, before, begins, old(fieldPcs), displays, pc);
    }

    method PushField(k: nat, i: Instruction)
      requires Emitted(k) && Sound(L(), ranges) && AtField(L(), ranges, k) && k == |fieldPcs| && i.opcode == 4
      modifies this`displays, this`fieldPcs
      ensures Emitted(k) && Sound(L(), ranges) && AtField(L(), ranges, k)
      ensures displays == old(displays) + [i] && fieldPcs == old(fieldPcs) + [|old(displays)|]
      ensures L() == AppendField(old(L()), i)
    {
      hide AllFieldsEmitted, AllGroupsEmitted, IntentEmitted, GroupLoops, PlanOf, Sound, TableBuilder.Tabled;
      ghost var l := L();
      fieldPcs := fieldPcs + [|displays|];
      displays := displays + [i];
      EmittedExtends(k);
      assert L() == AppendField(l, i);
      AppendFieldSound(l, ranges, i);
    }

    lemma FieldDone(k: nat)
      requires Emitted(k) && |fieldPcs| == k + 1 && k < |fields|
      requires FieldEmitted(B(), tables.root, fields[k], k, OwnPositions(tables.root, ranges, fields[k], k), displays,
                            fieldPcs[k])
      ensures Emitted(k + 1)
    {
      hide FieldEmitted, OwnPositions, AllGroupsEmitted, IntentEmitted, GroupLoops, PlanOf, TableBuilder.Tabled;
    }

    /** The groups that end behind field `k`, innermost first. That there always
        is one to close never fails. */
    method CloseGroups(k: nat, ghost hi: nat)
      requires Emitted(k + 1) && Sound(L(), ranges) && loops == [] && AtField(L(), ranges, k)
      requires |fieldPcs| == k + 1 && Laminar(ranges, 0, hi) && Told()
      modifies this`displays, this`active
      ensures Emitted(k + 1) && Sound(L(), ranges) && BeforeField(L(), ranges, k + 1) && Told()
      ensures Skeleton(displays) == Skeleton(old(displays))
      ensures L() == GroupsShut(old(L()), |EndingAt(ranges, |ranges|, k + 1)|)
    {
      hide Skeleton, Told, Emitted, Sound, Closing, AtField, BeforeField, EndingAt, EndingSet, IsPending, GroupsShut;
      GroupsShutNone(L());
      ghost var left := EndingSet(ranges, |ranges|, k + 1);
      StartClosing(L(), ranges, k, hi);
      EndingCount(ranges, |ranges|, k + 1);
      for n := 0 to |EndingAt(ranges, |ranges|, k + 1)|
        invariant Emitted(k + 1) && Sound(L(), ranges) && Told()
        invariant L() == GroupsShut(old(L()), n)
        invariant Closing(L(), ranges, k + 1, left) && |left| == |EndingAt(ranges, |ranges|, k + 1)| - n
        invariant Skeleton(displays) == Skeleton(old(displays))
      {
        ghost var l := L();
        SoundIsOrdered(l, ranges);
        InnermostEnds(l, ranges, k + 1, left);
        assert active != [];
        ghost var top := active[|active| - 1].group;
        CloseGroup(k + 1);
        GroupsShutNext(old(L()), n);
        ClosingNext(l, L(), ranges, k + 1, left, top);
        left := left - {top};
      }
      ClosingDone(L(), ranges, k + 1);
    }

    method CloseGroup(n: nat)
      requires Emitted(n) && Sound(L(), ranges) && loops == [] && active != [] && n == |fieldPcs|
      requires active[|active| - 1].group < |ranges| && ranges[active[|active| - 1].group].end == n && Told()
      modifies this`displays, this`active
      ensures Emitted(n) && Sound(L(), ranges) && Told()
      ensures forall h: nat :: IsPending(active, h) <==>
                IsPending(old(active), h) && h != old(active[|active| - 1].group)
      ensures Skeleton(displays) == Skeleton(old(displays))
      ensures CanShut(old(L())) && L() == GroupScope.CloseGroup(old(L()))
    {
      hide Skeleton, AllFieldsEmitted, AllGroupsEmitted, IntentEmitted, GroupLoops, PlanOf, Sound, Extends,
        TableBuilder.Tabled, Accounted, GroupScope.CloseGroup;
      ghost var l := L();
      PendingInPlace(l, ranges);
      CloseGroupExtends(l);
      CloseGroupSound(l, ranges);
      SkeletonCloseGroup(l);
      CloseAccounted(tables.root, ranges, fields, |tokens|, l);
      SoundIsPlaced(l, ranges);
      GroupLoopsClosed(l, ranges);
      PopGroup();
      EmittedExtends(n);
    }

    /** The closers themselves. */
    method PopGroup()
      requires CanShut(L()) && displays[active[|active| - 1].begin].opcode == 5
      requires var i := active[|active| - 1].iteration;
               i.Some? ==> displays[i.value].opcode == 7 && i.value != active[|active| - 1].begin
      modifies this`displays, this`active
      ensures L() == GroupScope.CloseGroup(old(L()))
    {
      var top := active[|active| - 1];
      active := active[..|active| - 1];
      var closer := Instruction(6, top.begin, ABSENT, ABSENT);
      displays := (displays + [closer])[top.begin := displays[top.begin].(c := |displays|)];
      if top.iteration.Some? {
        var at := top.iteration.value;
        displays := (displays + [Instruction(8, at, ABSENT, ABSENT)])[at := displays[at].(c := |displays|)];
      }
    }

    // ------------------------------------------------------------------- whole

    ghost predicate Fresh()
      reads this, tables
    {
      && tables.Tabled() && tables.formatters == [] && tables.plans == []
      && tables.paths == [] && tables.literals == tables.domain && tables.conditions == []
      && tables.optionalCondition.None?
      && displays == [] && active == [] && loops == [] && begins == map[] && fieldPcs == []
    }

    /** The intent and the pieces of the interpolated intent. */
    method EmitIntent() returns (r: Result<()>)
      requires Fresh()
      modifies this`displays
      ensures r.Ok? ==> Emitted(0) && Sound(L(), ranges) && BeforeField(L(), ranges, 0) && Told()
      ensures r.Ok? ==> Skeleton(displays) == [1] + TokensShape(tokens)
      ensures r.Ok? ==> W() == WorkStart(tables.strings, fields, intent, tokens, tables.domain)
      ensures r.Ok? <==> IntentReady(tables.strings, fields, intent, tokens)
    {
      hide HasText, Skeleton, TokensShape, Sound, FieldAt, Accounted, TokenEmitted, TokenReady, TableBuilder.Tabled,
        IntentOf, PieceOf, TextPlace;
      EmptySound(ranges);
      var index :- tables.StringIndex(intent);
      displays := [Instruction(1, index, ABSENT, ABSENT)];
      SkeletonOne(displays[0], tokens);
      IntentOfNone(tables.strings, fields, intent, tokens);
      AppendNeutral(Layout([], [], [], map[], []), ranges, displays[0]);
      assert L() == Append(Layout([], [], [], map[], []), displays[0]);
      for n := 0 to |tokens|
        invariant |displays| == n + 1 && Sound(L(), ranges)
        invariant IntentEmitted(tables.P(), fields, intent, tokens[..n], displays)
        invariant displays == IntentOf(tables.strings, fields, intent, tokens[..n])
        invariant forall m :: 0 <= m < n ==> TokenReady(tables.strings, fields, tokens[m])
        invariant Skeleton(displays) == [1] + TokensShape(tokens[..n])
      {
        ghost var l := L();
        var i :- TokenInstruction(tokens[n]);
        displays := displays + [i];
        AppendNeutral(l, ranges, i);
        assert L() == Append(l, i);
        IntentOfNext(tables.strings, fields, intent, tokens, n);
        IntentNext(tables.P(), fields, intent, tokens, n, l.displays, i);
        SkeletonAppend(l.displays, i);
        TokensShapeNext(tokens, n);
      }
      assert tokens[..|tokens|] == tokens;
      IntentAccounted(tables.root, ranges, tables.P(), fields, intent, tokens, displays);
      return Ok(());
    }

    method TokenInstruction(t: Token) returns (r: Result<Instruction>)
      ensures r.Ok? ==> TokenEmitted(tables.P(), fields, t, r.value) && r.value == PieceOf(tables.strings, fields, t)
      ensures r.Ok? <==> TokenReady(tables.strings, fields, t)
    {
      match t {
        case TextToken(text) =>
          var index :- tables.StringIndex(text);
          return Ok(Instruction(2, index, ABSENT, ABSENT));
        case ValueToken(path) =>
          var index :- FieldAt(fields, path);
          return Ok(Instruction(3, index, ABSENT, ABSENT));
      }
    }

    /** What the first `n` fields took from the tables. */
    ghost predicate Counted(n: nat)
      requires n <= |fields|
      reads tables
    {
      && Took(Pools(tables.strings, [], tables.domain), tables.P(), DemandUpTo(tables.root, ranges, fields, n))
      && |tables.conditions| == ConditionsUpTo(fields, n)
      && tables.optionalCondition.Some? == HasOptional(fields, n)
      && (LiteralsFit(tables.domain) && FieldsFit(tables.root, fields, n) ==> LiteralsFit(tables.literals))
    }

    /** There is room for the literals of the first `n` fields. */
    ghost predicate Roomy(n: nat)
      requires n <= |fields|
    {
      |tables.domain| + DemandUpTo(tables.root, ranges, fields, n).literals <= 0x1_0000
    }

    /** One field with the groups around it. */
    method EmitNext(k: nat, ghost hi: nat) returns (r: Result<()>)
      requires Emitted(k) && Sound(L(), ranges) && loops == [] && BeforeField(L(), ranges, k)
      requires k == |fieldPcs| == |tables.formatters| && k < |fields| && Laminar(ranges, 0, hi)
      requires Ascends(fieldPcs) && Skeleton(displays) == Shape(tables.root, ranges, fields, tokens, k) && Told()
               && Counted(k)
      modifies this, tables
      ensures r.Ok? ==> W() == FieldFinished(tables.root, ranges, fields, k, old(W()))
      ensures r.Ok? ==> Counted(k + 1) && FieldReady(tables.root, ranges, fields, k)
      ensures (FieldReady(tables.root, ranges, fields, k)
               && FieldTextsIn(tables.root, ranges, fields, tables.strings, k)
               && Roomy(k + 1)) ==> r.Ok?
      ensures r.Ok? ==> Told() && Emitted(k + 1) && Sound(L(), ranges) && loops == [] && BeforeField(L(), ranges, k + 1)
      ensures r.Ok? ==> k + 1 == |fieldPcs| == |tables.formatters|
      ensures r.Ok? ==> Ascends(fieldPcs) && Skeleton(displays) == Shape(tables.root, ranges, fields, tokens, k + 1)
    {
      hide GroupsOpened, FieldAdded, GroupsShut, Skeleton, Ascends, GroupsShape, Sevens, OwnPositions, Told, Emitted,
        Sound, BeforeField, AtField, TakenByAll, TakenOutside, Laminar, Took, GroupsDemand, OwnDemand, HasOptional,
        FieldsFit, FieldFits, LiteralsFit, GroupResolves, CaptionIn, ConditionReady, PlanTextsIn, HasText, PlanOf,
        AllComparable;
      ghost var start, p0 := Pools(tables.strings, [], tables.domain), tables.P();
      ghost var groups, own := GroupsDemand(tables.root, ranges, StartingAt(ranges, |ranges|, k)),
        OwnDemand(tables.root, ranges, fields, k);
      GroupsTakeNone(tables.root, ranges, StartingAt(ranges, |ranges|, k));
      TookCount(start, p0, DemandUpTo(tables.root, ranges, fields, k));
      var opening :- OpenGroups(k, hi);
      ghost var p1 := tables.P();
      TookCount(p0, p1, groups);
      var outside := CountTakenOutside(k);
      var _ :- EmitField(k, opening + outside);
      TookBoth(p0, p1, tables.P(), groups, own);
      TookBoth(start, p0, tables.P(), DemandUpTo(tables.root, ranges, fields, k), Plus(groups, own));
      OptionalNext(fields, k);
      FitsNext(tables.root, fields, k);
      CloseGroups(k, hi);
      return Ok(());
    }

    /** The whole display program. */
    method Run(ghost hi: nat) returns (r: Result<()>)
      requires Fresh() && Laminar(ranges, 0, hi)
      modifies this, tables
      ensures r.Ok? ==> Emitted(|fields|) && Sound(L(), ranges) && active == [] && loops == []
      ensures r.Ok? ==> BeforeField(L(), ranges, |fields|) && |fieldPcs| == |fields| == |tables.formatters|
      ensures r.Ok? ==> Shaped(tables.root, ranges, fields, tokens, displays, fieldPcs)
      ensures r.Ok? ==> Accounted(tables.root, ranges, fields, |tokens|, displays[..|displays| - 1], begins, fieldPcs)
      ensures r.Ok? ==> Counted(|fields|)
      ensures r.Ok? ==>
                W() == WorkDone(tables.root, ranges, fields, intent, tokens, tables.strings, tables.domain)
      ensures r.Ok? ==> RunReady(tables.root, ranges, fields, tables.strings, intent, tokens)
      ensures (RunReady(tables.root, ranges, fields, tables.strings, intent, tokens) && Roomy(|fields|)
               && forall k :: 0 <= k < |fields| ==>
                    FieldTextsIn(tables.root, ranges, fields, tables.strings, k)) ==> r.Ok?
    {
      hide Skeleton, Accounted, Emitted, Sound, BeforeField, Laminar, FieldReady, FieldTextsIn, IntentReady, NoneOpen,
        Counted, DemandUpTo, Shape, PendingOrdered, Took, TableBuilder.Tabled, FieldFinished, WorkStart, WorkUpTo;
      ghost var start := WorkStart(tables.strings, fields, intent, tokens, tables.domain);
      StartCounted();
      ShapeNone(tables.root, ranges, fields, tokens);
      var _ :- EmitIntent();
      WorkUpToNone(tables.root, ranges, fields, start);
      for k := 0 to |fields|
        invariant Emitted(k) && Sound(L(), ranges) && loops == [] && BeforeField(L(), ranges, k)
        invariant k == |fieldPcs| == |tables.formatters|
        invariant Ascends(fieldPcs) && Skeleton(displays) == Shape(tables.root, ranges, fields, tokens, k) && Told()
        invariant W() == WorkUpTo(tables.root, ranges, fields, k,
                                  WorkStart(tables.strings, fields, intent, tokens, tables.domain))
        invariant Counted(k) && forall j :: 0 <= j < k ==> FieldReady(tables.root, ranges, fields, j)
      {
        DemandUpToGrows(tables.root, ranges, fields, k + 1);
        var _ :- EmitNext(k, hi);
        WorkUpToNext(tables.root, ranges, fields, k, start);
      }
      SoundIsOrdered(L(), ranges);
      NoneOpenIff(L(), ranges, |fields|);
      if active != [] {
        return Raised;
      }
      ghost var all := displays;
      Finish();
      assert displays[..|displays| - 1] == all;
      return Ok(());
    }

    lemma StartCounted()
      requires Fresh()
      ensures Counted(0)
    {
      TookNothing(tables.P());
    }

    method Finish()
      requires Emitted(|fieldPcs|) && Sound(L(), ranges) && BeforeField(L(), ranges, |fieldPcs|)
      modifies this`displays
      ensures Emitted(|fieldPcs|) && Sound(L(), ranges) && BeforeField(L(), ranges, |fieldPcs|)
      ensures displays == old(displays) + [Instruction(10, ABSENT, ABSENT, ABSENT)]
      ensures L() == Append(old(L()), Instruction(10, ABSENT, ABSENT, ABSENT))
      ensures Skeleton(displays) == Skeleton(old(displays)) + [10]
    {
      hide Skeleton, AllFieldsEmitted, AllGroupsEmitted, IntentEmitted, GroupLoops, PlanOf, Sound, TableBuilder.Tabled;
      ghost var l := L();
      SkeletonAppend(displays, Instruction(10, ABSENT, ABSENT, ABSENT));
      displays := displays + [Instruction(10, ABSENT, ABSENT, ABSENT)];
      EmittedExtends(|fieldPcs|);
      AppendNeutral(l, ranges, Instruction(10, ABSENT, ABSENT, ABSENT));
      assert L() == Append(l, Instruction(10, ABSENT, ABSENT, ABSENT));
    }
  }

  lemma EmptySound(ranges: seq<Range>)
    ensures Sound(Layout([], [], [], map[], []), ranges)
  {
    LinkedEmpty();
    assert OpenersIn(Layout([], [], [], map[], [])) == [];
  }

  lemma IntentNext(p: Pools, fields: seq<Field>, intent: string, tokens: seq<Token>, n: nat, ds: seq<Instruction>,
      i: Instruction)
    requires n < |tokens| && |ds| == n + 1 && IntentEmitted(p, fields, intent, tokens[..n], ds)
    requires TokenEmitted(p, fields, tokens[n], i)
    ensures IntentEmitted(p, fields, intent, tokens[..n + 1], ds + [i])
  {
    hide TokenEmitted;
    var es, ts := ds + [i], tokens[..n + 1];
    forall m | 0 <= m < n + 1 ensures TokenEmitted(p, fields, ts[m], es[m + 1]) {
      if m < n {
        assert TokenEmitted(p, fields, tokens[..n][m], ds[m + 1]);
      }
    }
  }

  lemma ClosingTop(ds: seq<Instruction>, heads: seq<Instruction>, pc: nat, left: nat, separator: nat)
    requires LoopsClosing(ds, heads, pc, left, separator) && left > 0
    ensures pc - |heads| + left - 1 < |ds| && ds[pc - |heads| + left - 1].opcode == 7
  {
    assert ds[pc - |heads| + (left - 1)] == heads[left - 1];
  }

  lemma ClosingLength(ds: seq<Instruction>, heads: seq<Instruction>, pc: nat, left: nat, separator: nat)
    requires LoopsClosing(ds, heads, pc, left, separator)
    ensures left <= |heads| <= pc < |ds|
  {
  }

  /** Behind the field's instruction all its iterations are open. */
  lemma StartClosingLoops(ds: seq<Instruction>, heads: seq<Instruction>, pc: nat, separator: nat)
    requires |ds| == pc + 1 && |heads| <= pc && ds[pc - |heads|..pc] == heads
    requires forall n :: 0 <= n < |heads| ==> heads[n].opcode == 7
    ensures LoopsClosing(ds, heads, pc, |heads|, separator)
  {
    forall n | 0 <= n < |heads| ensures ds[pc - |heads| + n] == heads[n] {
      assert ds[pc - |heads|..pc][n] == heads[n];
    }
  }

  lemma LoopExtends(l: Layout, ranges: seq<Range>, b: nat)
    requires Sound(l, ranges) && l.loops != []
    ensures l.loops[|l.loops| - 1] < |l.displays|
    ensures Extends(l.displays, CloseTop(l.displays, l.loops[|l.loops| - 1], b))
  {
    hide Linked, GroupsPlaced, FieldsScoped, GroupsClosed, Extends;
    var open := OpenersIn(l);
    assert open[|open| - 1] == l.loops[|l.loops| - 1];
    ExtendsClose(l.displays, open, b);
  }

  /** Between the field's openers and closers. */
  lemma FieldPlaced(before: seq<Instruction>, heads: seq<Instruction>, open: seq<Instruction>, ds: seq<Instruction>,
      separator: nat)
    requires |open| == |before| + |heads| + 1 && before <= open && open[|before|..|before| + |heads|] == heads
    requires open[|before| + |heads|].opcode == 4
    requires LoopsClosing(ds, heads, |before| + |heads|, 0, separator) && SameOpcodes(open, ds)
    ensures var pc := |before| + |heads|;
            && SameOpcodes(before, ds) && pc < |ds| && ds[pc].opcode == 4
            && (forall q :: |before| <= q < pc ==> ds[q].opcode == 7)
            && (forall q :: pc < q < |ds| ==> ds[q].opcode == 8)
  {
    var pc := |before| + |heads|;
    forall q | |before| <= q < pc ensures ds[q].opcode == 7 {
      assert open[|before|..pc][q - |before|] == heads[q - |before|];
    }
    forall q | pc < q < |ds| ensures ds[q].opcode == 8 {
      assert LoopClosed(ds, heads, pc, pc + |heads| - q, separator);
    }
  }

  lemma SoundIsPlaced(l: Layout, ranges: seq<Range>)
    requires Sound(l, ranges)
    ensures GroupsPlaced(l, ranges) && LoopKinds(l)
  {
  }

  lemma SoundIsOrdered(l: Layout, ranges: seq<Range>)
    requires Sound(l, ranges)
    ensures PendingOrdered(l, ranges)
  {
  }

  /** All closed, the field says what was asked. */
  lemma FieldClosed(b: Built, root: AbiType, f: Field, k: nat, own: seq<nat>, condition: nat, separator: nat,
      heads: seq<Instruction>, ds: seq<Instruction>, pc: nat)
    requires |heads| == |own| && AreHeads(b.pools, StepsOf(root, f), own, condition, heads)
    requires LoopsClosing(ds, heads, pc, 0, separator) && ConditionOf(b, root, f, k, condition)
    requires own != [] ==> TextOrAbsent(b.pools, separator, f.separator)
    requires pc < |ds| && ds[pc].opcode == 4 && ds[pc].b == k && IsString(b.pools, ds[pc].a, f.title)
    requires ds[pc].c == if own == [] then condition else ABSENT
    ensures FieldEmitted(b, root, f, k, own, ds, pc)
  {
    hide ConditionOf, StepsOf;
    forall n | 0 <= n < |own| ensures LoopEmitted(b, root, f, k, own, ds, pc, n) {
      assert LoopClosed(ds, heads, pc, n, separator);
    }
  }

  /** `n` consecutive numbers. */
  function Ramp(base: nat, n: nat): (r: seq<nat>)
    ensures |r| == n && forall i :: 0 <= i < n ==> r[i] == base + i
  {
    seq(n, i requires 0 <= i < n => base + i)
  }

  lemma RampNext(base: nat, n: nat)
    ensures Ramp(base, n + 1) == Ramp(base, n) + [base + n]
  {
  }

  /** Openers for the arrays at the positions `own` of a path. */
  ghost predicate AreHeads(p: Pools, steps: seq<Step>, own: seq<nat>, condition: nat, heads: seq<Instruction>) {
    && |heads| <= |own|
    && forall n :: 0 <= n < |heads| ==>
         && own[n] < |steps| && heads[n] == Instruction(7, heads[n].a, condition, 0)
         && heads[n].a < |p.paths| && p.paths[heads[n].a] == AbiPath(steps[..own[n] + 1])
  }

  lemma HeadsOpen(p: Pools, steps: seq<Step>, own: seq<nat>, condition: nat, heads: seq<Instruction>)
    requires AreHeads(p, steps, own, condition, heads)
    ensures forall n :: 0 <= n < |heads| ==> heads[n].opcode == 7
  {
  }

  lemma HeadsNext(p: Pools, q: Pools, steps: seq<Step>, own: seq<nat>, condition: nat, heads: seq<Instruction>,
      head: Instruction)
    requires Grows(p, q) && AreHeads(p, steps, own, condition, heads) && |heads| < |own| && own[|heads|] < |steps|
    requires head == Instruction(7, head.a, condition, 0)
    requires head.a < |q.paths| && q.paths[head.a] == AbiPath(steps[..own[|heads|] + 1])
    ensures AreHeads(q, steps, own, condition, heads + [head])
  {
  }

  lemma StepsPrefixOn(root: AbiType, f: Field, at: nat)
    requires at < |StepsOf(root, f)|
    ensures PathOn(root, AbiPath(StepsOf(root, f)[..at + 1]))
  {
    assert PathOf(root, f).AbiPath?;
    ValueRequestOn(root, f);
    FollowsPrefix(root, StepsOf(root, f), at + 1);
  }

  lemma NothingEarlier(l: Layout, ranges: seq<Range>, k: nat, todo: seq<nat>)
    requires BeforeField(l, ranges, k) && AreGroups(ranges, todo)
    ensures Earlier(l, ranges, k, todo)
  {
  }

  /** The next group may be opened. */
  lemma OpeningReady(l: Layout, ranges: seq<Range>, k: nat, todo: seq<nat>, hi: nat)
    requires Sound(l, ranges) && Opening(l, ranges, k, todo) && Earlier(l, ranges, k, todo) && todo != []
             && Laminar(ranges, 0, hi)
    ensures todo[0] < |ranges| && todo[0] !in l.begins && ranges[todo[0]].start == k
    ensures l.pending != [] ==>
              l.pending[|l.pending| - 1].group < |ranges|
              && ranges[l.pending[|l.pending| - 1].group].end >= ranges[todo[0]].end
  {
    hide Linked, GroupsPlaced, FieldsScoped, GroupsClosed, LoopKinds;
    assert todo[0] in todo;
    if l.pending != [] {
      NextFits(l, ranges, k, todo, hi);
    }
  }

  lemma TakenByNone(root: AbiType, ranges: seq<Range>, gs: seq<nat>)
    requires AreGroups(ranges, gs)
    ensures TakenByAll(root, ranges, gs[..0]) == 0
  {
  }

  lemma TakenNext(root: AbiType, ranges: seq<Range>, gs: seq<nat>, n: nat)
    requires AreGroups(ranges, gs) && n < |gs|
    ensures TakenByAll(root, ranges, gs[..n + 1]) == TakenByAll(root, ranges, gs[..n]) + TakenOver(root, ranges[gs[n]])
  {
    assert gs[..n + 1][..n] == gs[..n];
  }

  lemma ValueRequestOn(root: AbiType, f: Field)
    requires ValueRequest(root, f).Ok?
    ensures var r := ValueRequest(root, f).value;
            r.role == 1 && (r.PathRequest? ==> PathOn(root, r.path))
            && (r.PathRequest? || r.ConstantRequest? || r.TextConstantRequest?)
  {
    if f.value.None? {
      ResolvedPathOn(root, f.path.value);
    }
  }
}
