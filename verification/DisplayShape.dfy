/** Which instructions a compiled display program consists of
    (keepkeylib/erc7730_compiler.py): its opcodes in order, closers aside, are
    determined by the descriptor, so nothing is missing, extra or out of place. */
module DisplayShape {
  import opened Wrappers
  import opened AbiTypes
  import opened Program
  import opened DisplayWord
  import opened DisplayFields
  import opened GroupScope
  import opened ProgramPools
  import opened CompiledDisplay

  /** The opcodes without the closers. */
  function Skeleton(ds: seq<Instruction>): seq<nat> {
    if ds == [] then []
    else
      var last := ds[|ds| - 1].opcode;
      Skeleton(ds[..|ds| - 1]) + (if Closes(last) then [] else [last])
  }

  lemma SkeletonAppend(ds: seq<Instruction>, i: Instruction)
    ensures Skeleton(ds + [i]) == Skeleton(ds) + (if Closes(i.opcode) then [] else [i.opcode])
  {
    assert (ds + [i])[..|ds|] == ds;
  }

  /** Filling in a jump target changes no opcode. */
  lemma {:induction false} SkeletonPatch(ds: seq<Instruction>, p: nat, target: nat)
    requires p < |ds|
    ensures Skeleton(ds[p := ds[p].(c := target)]) == Skeleton(ds)
    decreases |ds|
  {
    var n := |ds| - 1;
    var es := ds[p := ds[p].(c := target)];
    if p < n {
      SkeletonPatch(ds[..n], p, target);
      assert es[..n] == ds[..n][p := ds[..n][p].(c := target)];
    } else {
      assert es[..n] == ds[..n];
    }
  }

  lemma SkeletonClose(ds: seq<Instruction>, top: nat, b: nat)
    requires top < |ds| && Opens(ds[top].opcode)
    ensures Skeleton(CloseTop(ds, top, b)) == Skeleton(ds)
  {
    hide Skeleton;
    var closer := Instruction(ds[top].opcode + 1, top, b, 0xffff);
    SkeletonAppend(ds, closer);
    SkeletonPatch(ds + [closer], top, |ds|);
    assert (ds + [closer])[top] == ds[top];
  }

  lemma SkeletonCloseGroup(l: Layout)
    requires l.pending != [] && l.loops == []
    requires var p := l.pending[|l.pending| - 1];
             && p.begin < |l.displays| && l.displays[p.begin].opcode == 5
             && (p.iteration.Some? ==> p.iteration.value < |l.displays| && l.displays[p.iteration.value].opcode == 7
                                       && p.iteration.value != p.begin)
    ensures Skeleton(CloseGroup(l).displays) == Skeleton(l.displays)
  {
    hide Skeleton;
    var p := l.pending[|l.pending| - 1];
    SkeletonClose(l.displays, p.begin, 0xffff);
    if p.iteration.Some? {
      SkeletonClose(CloseTop(l.displays, p.begin, 0xffff), p.iteration.value, 0xffff);
    }
  }

  /** `n` openers of iterations. */
  function Sevens(n: nat): (r: seq<nat>)
    ensures |r| == n && forall i :: 0 <= i < n ==> r[i] == 7
  {
    seq(n, _ => 7)
  }

  function TokensShape(tokens: seq<Token>): seq<nat> {
    seq(|tokens|, i requires 0 <= i < |tokens| => if tokens[i].TextToken? then 2 else 3)
  }

  function GroupShape(r: Range): seq<nat> {
    if IteratesGroup(r.path) then [7, 5] else [5]
  }

  function GroupsShape(ranges: seq<Range>, gs: seq<nat>): seq<nat>
    requires AreGroups(ranges, gs)
  {
    if gs == [] then []
    else GroupsShape(ranges, gs[..|gs| - 1]) + GroupShape(ranges[gs[|gs| - 1]])
  }

  /** Field `k` behind the openers of the groups that start there and of its own
      iterations. */
  function FieldShape(root: AbiType, ranges: seq<Range>, fields: seq<Field>, k: nat): seq<nat>
    requires k < |fields|
  {
    GroupsShape(ranges, StartingAt(ranges, |ranges|, k)) + Sevens(|OwnPositions(root, ranges, fields[k], k)|) + [4]
  }

  /** The intent, its pieces, and the first `n` fields. */
  function Shape(root: AbiType, ranges: seq<Range>, fields: seq<Field>, tokens: seq<Token>, n: nat): seq<nat>
    requires n <= |fields|
  {
    if n == 0 then [1] + TokensShape(tokens)
    else Shape(root, ranges, fields, tokens, n - 1) + FieldShape(root, ranges, fields, n - 1)
  }

  lemma ShapeNone(root: AbiType, ranges: seq<Range>, fields: seq<Field>, tokens: seq<Token>)
    ensures Shape(root, ranges, fields, tokens, 0) == [1] + TokensShape(tokens)
  {
  }

  ghost predicate Ascends(pcs: seq<nat>) {
    forall i, j :: 0 <= i < j < |pcs| ==> pcs[i] < pcs[j]
  }

  /** The whole program: every instruction accounted for, the fields in order,
      the end last. */
  ghost predicate Shaped(root: AbiType, ranges: seq<Range>, fields: seq<Field>, tokens: seq<Token>,
      ds: seq<Instruction>, pcs: seq<nat>)
  {
    && Skeleton(ds) == Shape(root, ranges, fields, tokens, |fields|) + [10]
    && Ascends(pcs)
    && ds != [] && ds[|ds| - 1] == Instruction(10, ABSENT, ABSENT, ABSENT)
  }

  lemma GroupsShapeNext(ranges: seq<Range>, gs: seq<nat>, n: nat)
    requires AreGroups(ranges, gs) && n < |gs|
    ensures GroupsShape(ranges, gs[..n + 1]) == GroupsShape(ranges, gs[..n]) + GroupShape(ranges[gs[n]])
  {
    assert gs[..n + 1][..n] == gs[..n];
  }

  lemma GroupsShapeNone(ranges: seq<Range>, gs: seq<nat>)
    requires AreGroups(ranges, gs)
    ensures GroupsShape(ranges, gs[..0]) == []
  {
  }

  /** The intent alone. */
  lemma SkeletonOne(i: Instruction, tokens: seq<Token>)
    requires i.opcode == 1
    ensures Skeleton([i]) == [1] + TokensShape(tokens[..0])
  {
  }

  lemma TokensShapeNext(tokens: seq<Token>, n: nat)
    requires n < |tokens|
    ensures TokensShape(tokens[..n + 1]) == TokensShape(tokens[..n]) + [if tokens[n].TextToken? then 2 else 3]
  {
  }

  lemma AscendsNext(l: Layout, ranges: seq<Range>)
    requires Sound(l, ranges) && Ascends(l.fieldPcs)
    ensures Ascends(l.fieldPcs + [|l.displays|])
  {
    hide Linked, FieldsScoped, GroupsClosed, PendingOrdered, LoopKinds;
  }

  // ------------------------------------------------------------- fields counted

  function FieldPositions(ds: seq<Instruction>): (r: set<nat>)
    ensures forall pc: nat :: pc in r <==> pc < |ds| && ds[pc].opcode == 4
  {
    if ds == [] then {}
    else
      var n := |ds| - 1;
      FieldPositions(ds[..n]) + (if ds[n].opcode == 4 then {n} else {})
  }

  lemma {:induction false} FieldPositionsCount(ds: seq<Instruction>)
    ensures |FieldPositions(ds)| == multiset(Skeleton(ds))[4]
  {
    if ds != [] {
      var n := |ds| - 1;
      FieldPositionsCount(ds[..n]);
      assert n !in FieldPositions(ds[..n]);
      FoursAdded(Skeleton(ds[..n]), ds[n].opcode);
    }
  }

  lemma FoursAdded(opcodes: seq<nat>, opcode: nat)
    ensures multiset(opcodes + [opcode])[4] == multiset(opcodes)[4] + (if opcode == 4 then 1 else 0)
  {
  }

  lemma {:induction false} GroupsShapeFours(ranges: seq<Range>, gs: seq<nat>)
    requires AreGroups(ranges, gs)
    ensures 4 !in GroupsShape(ranges, gs)
  {
    hide IteratesGroup;
    if gs != [] {
      GroupsShapeFours(ranges, gs[..|gs| - 1]);
    }
  }

  /** The first `n` fields contribute one field instruction each. */
  lemma {:induction false} ShapeFours(root: AbiType, ranges: seq<Range>, fields: seq<Field>, tokens: seq<Token>, n: nat)
    requires n <= |fields|
    ensures multiset(Shape(root, ranges, fields, tokens, n))[4] == n
  {
    hide OwnPositions, GroupsShape;
    if n == 0 {
      assert 4 !in TokensShape(tokens);
    } else {
      ShapeFours(root, ranges, fields, tokens, n - 1);
      GroupsShapeFours(ranges, StartingAt(ranges, |ranges|, n - 1));
      var loops := Sevens(|OwnPositions(root, ranges, fields[n - 1], n - 1)|);
      assert 4 !in loops;
    }
  }

  function Listed(pcs: seq<nat>): set<nat> {
    set pc | pc in pcs
  }

  lemma {:induction false} AscendingSet(pcs: seq<nat>)
    requires Ascends(pcs)
    ensures |Listed(pcs)| == |pcs|
  {
    if pcs != [] {
      var n := |pcs| - 1;
      AscendingSet(pcs[..n]);
      var before := Listed(pcs[..n]);
      assert pcs[n] !in before;
      assert pcs == pcs[..n] + [pcs[n]];
      assert Listed(pcs) == before + {pcs[n]};
    }
  }

  /** As many field instructions as listed positions: they are all listed. */
  lemma FieldInstructions(ds: seq<Instruction>, pcs: seq<nat>, pc: nat)
    requires Ascends(pcs) && |pcs| == multiset(Skeleton(ds))[4] && pc < |ds| && ds[pc].opcode == 4
    requires forall j :: 0 <= j < |pcs| ==> pcs[j] < |ds| && ds[pcs[j]].opcode == 4
    ensures pc in pcs
  {
    hide Skeleton, Ascends;
    FieldPositionsCount(ds);
    AscendingSet(pcs);
    var all := FieldPositions(ds);
    var listed := Listed(pcs);
    assert listed <= all;
    if pc !in pcs {
      SubsetSizes(listed, all, pc);
    }
  }

  lemma SubsetSizes(a: set<nat>, b: set<nat>, x: nat)
    requires a <= b && x in b && x !in a
    ensures |a| < |b|
  {
    var rest := b - {x};
    assert a <= rest;
    SubsetCard(a, rest);
  }

  lemma {:induction false} SubsetCard(a: set<nat>, b: set<nat>)
    requires a <= b
    ensures |a| <= |b|
  {
    if a != {} {
      var x :| x in a;
      SubsetCard(a - {x}, b - {x});
    }
  }

  // ------------------------------------------------------ loops around groups

  /** The iteration in front of a group's opener closes directly behind the
      group. */
  predicate LoopHugs(ds: seq<Instruction>, begin: nat) {
    0 < begin && Closed(ds, begin) && Closed(ds, begin - 1) && ds[begin - 1].c == ds[begin].c + 1
  }

  /** A closed group's closer holds the opener alone, and so does that of the
      iteration around it, which hugs the group. */
  predicate GroupClosed(ds: seq<Instruction>, begin: nat, iterates: bool) {
    && Closed(ds, begin) && ds[ds[begin].c] == Instruction(6, begin, ABSENT, ABSENT)
    && (iterates ==> LoopHugs(ds, begin) && ds[ds[begin - 1].c] == Instruction(8, begin - 1, ABSENT, ABSENT))
  }

  /** Groups that are not pending are closed, and pending ones remember their
      iteration. */
  ghost predicate GroupLoops(ranges: seq<Range>, ds: seq<Instruction>, begins: map<nat, nat>, pending: seq<Pending>) {
    && (forall g :: g in begins && g < |ranges| && !IsPending(pending, g) ==>
          GroupClosed(ds, begins[g], IteratesGroup(ranges[g].path)))
    && (forall i :: 0 <= i < |pending| ==>
          pending[i].group < |ranges| && Remembers(pending[i], IteratesGroup(ranges[pending[i].group].path)))
  }

  predicate Remembers(p: Pending, iterates: bool) {
    if iterates then p.begin > 0 && p.iteration == Some(p.begin - 1) else p.iteration == None
  }

  lemma GroupLoopsExtends(ranges: seq<Range>, ds: seq<Instruction>, es: seq<Instruction>, begins: map<nat, nat>,
      pending: seq<Pending>)
    requires Extends(ds, es) && GroupLoops(ranges, ds, begins, pending)
    ensures GroupLoops(ranges, es, begins, pending)
  {
    hide IteratesGroup;
    forall g | g in begins && g < |ranges| && !IsPending(pending, g)
      ensures GroupClosed(es, begins[g], IteratesGroup(ranges[g].path))
    {
      assert GroupClosed(ds, begins[g], IteratesGroup(ranges[g].path));
    }
  }

  lemma GroupLoopsOpened(ranges: seq<Range>, ds: seq<Instruction>, begins: map<nat, nat>, pending: seq<Pending>,
      p: Pending)
    requires GroupLoops(ranges, ds, begins, pending)
    requires p.group < |ranges| && Remembers(p, IteratesGroup(ranges[p.group].path))
    ensures GroupLoops(ranges, ds, begins[p.group := p.begin], pending + [p])
  {
    hide IteratesGroup, GroupClosed;
    forall g ensures IsPending(pending, g) || g == p.group ==> IsPending(pending + [p], g) {
      PendingAppend(pending, p, g);
    }
  }

  lemma PendingAppend(pending: seq<Pending>, p: Pending, g: nat)
    ensures IsPending(pending, g) || g == p.group ==> IsPending(pending + [p], g)
  {
    var more := pending + [p];
    assert more[|pending|] == p;
    if IsPending(pending, g) {
      var i :| 0 <= i < |pending| && pending[i].group == g;
      assert more[i].group == g;
    }
  }

  lemma PendingTop(pending: seq<Pending>, g: nat)
    requires pending != [] && IsPending(pending, g)
    ensures IsPending(pending[..|pending| - 1], g) || pending[|pending| - 1].group == g
  {
    var i :| 0 <= i < |pending| && pending[i].group == g;
    if i < |pending| - 1 {
      assert pending[..|pending| - 1][i].group == g;
    }
  }

  lemma GroupLoopsClosed(l: Layout, ranges: seq<Range>)
    requires GroupLoops(ranges, l.displays, l.begins, l.pending) && l.pending != [] && l.loops == []
    requires GroupsPlaced(l, ranges) && LoopKinds(l) && Extends(l.displays, CloseGroup(l).displays)
    ensures GroupLoops(ranges, CloseGroup(l).displays, l.begins, CloseGroup(l).pending)
  {
    hide IteratesGroup, Extends;
    var l', p := CloseGroup(l), l.pending[|l.pending| - 1];
    GroupLoopsExtends(ranges, l.displays, l'.displays, l.begins, l.pending);
    forall g | g in l.begins && g < |ranges| && !IsPending(l'.pending, g)
      ensures GroupClosed(l'.displays, l.begins[g], IteratesGroup(ranges[g].path))
    {
      if IsPending(l.pending, g) {
        PendingTop(l.pending, g);
        TopHugs(l, IteratesGroup(ranges[g].path));
      }
    }
  }

  lemma TopHugs(l: Layout, iterates: bool)
    requires l.pending != []
    requires var p := l.pending[|l.pending| - 1];
             && p.begin < |l.displays| && l.displays[p.begin].opcode == 5 && Remembers(p, iterates)
             && (iterates ==> l.displays[p.begin - 1].opcode == 7)
    ensures GroupClosed(CloseGroup(l).displays, l.pending[|l.pending| - 1].begin, iterates)
  {
  }

  // ------------------------------------------------------ whose instruction

  /** The iteration around a group. */
  ghost predicate IsGroupLoop(ranges: seq<Range>, begins: map<nat, nat>, pc: nat) {
    exists g :: g in begins && g < |ranges| && IteratesGroup(ranges[g].path) && begins[g] == pc + 1
  }

  /** An iteration of field `j`'s own. */
  predicate IsLoopOf(root: AbiType, ranges: seq<Range>, fields: seq<Field>, pcs: seq<nat>, j: nat, pc: nat)
    requires |pcs| <= |fields|
  {
    j < |pcs| && pcs[j] - |OwnPositions(root, ranges, fields[j], j)| <= pc < pcs[j]
  }

  /** Instruction `pc` is the intent, one of its `n` pieces, a field, a closer, or
      the opener of a known group or iteration. */
  ghost predicate AccountedAt(root: AbiType, ranges: seq<Range>, fields: seq<Field>, n: nat,
      ds: seq<Instruction>, begins: map<nat, nat>, pcs: seq<nat>, pc: nat)
    requires pc < |ds| && |pcs| <= |fields|
  {
    var opcode := ds[pc].opcode;
    if opcode == 1 then pc == 0
    else if opcode in {2, 3} then 1 <= pc <= n
    else if opcode == 5 then exists g :: g in begins && begins[g] == pc
    else if opcode == 7 then IsGroupLoop(ranges, begins, pc) || exists j :: IsLoopOf(root, ranges, fields, pcs, j, pc)
    else opcode in {4, 6, 8}
  }

  ghost predicate Accounted(root: AbiType, ranges: seq<Range>, fields: seq<Field>, n: nat,
      ds: seq<Instruction>, begins: map<nat, nat>, pcs: seq<nat>)
  {
    |pcs| <= |fields| && forall pc: nat :: pc < |ds| ==> AccountedAt(root, ranges, fields, n, ds, begins, pcs, pc)
  }

  /** No instruction changes its opcode. */
  ghost predicate SameOpcodes(ds: seq<Instruction>, es: seq<Instruction>) {
    |ds| <= |es| && forall i :: 0 <= i < |ds| ==> es[i].opcode == ds[i].opcode
  }

  lemma AccountedGrows(root: AbiType, ranges: seq<Range>, fields: seq<Field>, n: nat, ds: seq<Instruction>,
      begins: map<nat, nat>, pcs: seq<nat>, es: seq<Instruction>, begun: map<nat, nat>, qcs: seq<nat>)
    requires Accounted(root, ranges, fields, n, ds, begins, pcs) && SameOpcodes(ds, es)
    requires (forall g :: g in begins ==> g in begun && begun[g] == begins[g]) && pcs <= qcs && |qcs| <= |fields|
    requires forall pc :: |ds| <= pc < |es| ==> AccountedAt(root, ranges, fields, n, es, begun, qcs, pc)
    ensures Accounted(root, ranges, fields, n, es, begun, qcs)
  {
    hide IteratesGroup, OwnPositions;
    forall pc: nat | pc < |es| ensures AccountedAt(root, ranges, fields, n, es, begun, qcs, pc) {
      if pc < |ds| {
        assert AccountedAt(root, ranges, fields, n, ds, begins, pcs, pc);
        if ds[pc].opcode == 7 && !IsGroupLoop(ranges, begins, pc) {
          var j :| IsLoopOf(root, ranges, fields, pcs, j, pc);
          assert IsLoopOf(root, ranges, fields, qcs, j, pc);
        }
      }
    }
  }

  lemma IntentAccounted(root: AbiType, ranges: seq<Range>, p: Pools, fields: seq<Field>, intent: string,
      tokens: seq<Token>, ds: seq<Instruction>)
    requires IntentEmitted(p, fields, intent, tokens, ds) && |ds| == |tokens| + 1
    ensures Accounted(root, ranges, fields, |tokens|, ds, map[], [])
  {
    hide FieldAt;
    forall pc: nat | pc < |ds| ensures AccountedAt(root, ranges, fields, |tokens|, ds, map[], [], pc) {
      if pc > 0 {
        assert TokenEmitted(p, fields, tokens[pc - 1], ds[pc - 1 + 1]);
      }
    }
  }

  lemma GroupAccounted(root: AbiType, ranges: seq<Range>, fields: seq<Field>, n: nat, ds: seq<Instruction>,
      begins: map<nat, nat>, pcs: seq<nat>, opener: Option<Instruction>, i: Instruction, g: nat)
    requires Accounted(root, ranges, fields, n, ds, begins, pcs)
    requires i.opcode == 5 && (opener.Some? ==> opener.value.opcode == 7) && g !in begins && g < |ranges|
    requires opener.Some? <==> IteratesGroup(ranges[g].path)
    ensures var es := ds + (if opener.Some? then [opener.value] else []) + [i];
            Accounted(root, ranges, fields, n, es, begins[g := |es| - 1], pcs)
  {
    hide IteratesGroup, OwnPositions;
    var es := ds + (if opener.Some? then [opener.value] else []) + [i];
    var begun := begins[g := |es| - 1];
    forall pc | |ds| <= pc < |es| ensures AccountedAt(root, ranges, fields, n, es, begun, pcs, pc) {
      if pc == |es| - 1 {
        assert begun[g] == pc;
      } else {
        assert begun[g] == pc + 1;
      }
    }
    AccountedGrows(root, ranges, fields, n, ds, begins, pcs, es, begun, pcs);
  }

  /** A field between its openers and closers. */
  lemma FieldAccounted(root: AbiType, ranges: seq<Range>, fields: seq<Field>, n: nat, ds: seq<Instruction>,
      begins: map<nat, nat>, pcs: seq<nat>, es: seq<Instruction>, pc: nat)
    requires Accounted(root, ranges, fields, n, ds, begins, pcs) && SameOpcodes(ds, es) && |pcs| < |fields|
    requires pc < |es| && es[pc].opcode == 4 && pc == |ds| + |OwnPositions(root, ranges, fields[|pcs|], |pcs|)|
    requires forall q :: |ds| <= q < pc ==> es[q].opcode == 7
    requires forall q :: pc < q < |es| ==> es[q].opcode == 8
    ensures Accounted(root, ranges, fields, n, es, begins, pcs + [pc])
  {
    hide IteratesGroup, OwnPositions;
    forall q | |ds| <= q < |es| ensures AccountedAt(root, ranges, fields, n, es, begins, pcs + [pc], q) {
      if q < pc {
        assert IsLoopOf(root, ranges, fields, pcs + [pc], |pcs|, q);
      }
    }
    AccountedGrows(root, ranges, fields, n, ds, begins, pcs, es, begins, pcs + [pc]);
  }

  lemma CloseAccounted(root: AbiType, ranges: seq<Range>, fields: seq<Field>, n: nat, l: Layout)
    requires Accounted(root, ranges, fields, n, l.displays, l.begins, l.fieldPcs)
    requires l.pending != [] && l.loops == []
    requires var p := l.pending[|l.pending| - 1];
             && p.begin < |l.displays| && l.displays[p.begin].opcode == 5
             && (p.iteration.Some? ==> p.iteration.value < |l.displays| && l.displays[p.iteration.value].opcode == 7
                                       && p.iteration.value != p.begin)
    ensures Accounted(root, ranges, fields, n, CloseGroup(l).displays, l.begins, l.fieldPcs)
  {
    hide IteratesGroup, OwnPositions;
    AccountedGrows(root, ranges, fields, n, l.displays, l.begins, l.fieldPcs, CloseGroup(l).displays, l.begins,
                   l.fieldPcs);
  }
}
