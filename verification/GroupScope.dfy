/** Where groups and fields lie in a display program while it is emitted
    (keepkeylib/erc7730_compiler.py): brackets stay linked and every field
    comes to stand inside exactly the groups whose range holds it. */
module GroupScope {
  import opened Wrappers
  import opened Text
  import opened Program
  import opened DisplayWord
  import opened DisplayFields

  /** An entry of `active_group_pcs`: the opener of a group and of the iteration
      around it, and which group it is. */
  datatype Pending = Pending(group: nat, begin: nat, iteration: Option<nat>)

  /** The instructions so far, the groups still open, the iterations open around
      the current field, where each group opened and where each field stands. */
  datatype Layout = Layout(
    displays: seq<Instruction>,
    pending: seq<Pending>,
    loops: seq<nat>,
    begins: map<nat, nat>,
    fieldPcs: seq<nat>)

  function OpenersOf(p: Pending): seq<nat> {
    (if p.iteration.Some? then [p.iteration.value] else []) + [p.begin]
  }

  function PendingOpeners(pending: seq<Pending>): seq<nat> {
    if pending == [] then []
    else PendingOpeners(pending[..|pending| - 1]) + OpenersOf(pending[|pending| - 1])
  }

  predicate IsPending(pending: seq<Pending>, g: nat) {
    exists i :: 0 <= i < |pending| && pending[i].group == g
  }

  /** Field `j` stands behind the opener of `g` exactly from the group's start. */
  predicate OpensBefore(l: Layout, ranges: seq<Range>, g: nat, j: nat)
    requires g in l.begins && g < |ranges| && j < |l.fieldPcs|
  {
    l.begins[g] < l.fieldPcs[j] <==> ranges[g].start <= j
  }

  /** Field `j` stands in front of the closer of `g` exactly up to its end. */
  predicate ClosesAfter(l: Layout, ranges: seq<Range>, g: nat, j: nat)
    requires g in l.begins && g < |ranges| && j < |l.fieldPcs| && l.begins[g] < |l.displays|
  {
    l.fieldPcs[j] < l.displays[l.begins[g]].c <==> j < ranges[g].end
  }

  ghost predicate GroupsPlaced(l: Layout, ranges: seq<Range>) {
    && (forall g :: g in l.begins ==> g < |ranges| && l.begins[g] < |l.displays| && l.displays[l.begins[g]].opcode == 5)
    && (forall i :: 0 <= i < |l.pending| ==>
        l.pending[i].group in l.begins && l.begins[l.pending[i].group] == l.pending[i].begin)
    && (forall j :: 0 <= j < |l.fieldPcs| ==> l.fieldPcs[j] < |l.displays| && l.displays[l.fieldPcs[j]].opcode == 4)
  }

  ghost predicate FieldsScoped(l: Layout, ranges: seq<Range>)
    requires GroupsPlaced(l, ranges)
  {
    && (forall g, j :: g in l.begins && 0 <= j < |l.fieldPcs| ==> OpensBefore(l, ranges, g, j))
    && (forall g, j :: g in l.begins && !IsPending(l.pending, g) && 0 <= j < |l.fieldPcs| ==>
        ClosesAfter(l, ranges, g, j))
  }

  ghost predicate GroupsClosed(l: Layout) {
    forall g :: g in l.begins && !IsPending(l.pending, g) ==> Closed(l.displays, l.begins[g])
  }

  /** Pending groups are distinct and end ever earlier towards the top. */
  ghost predicate PendingOrdered(l: Layout, ranges: seq<Range>) {
    && (forall i :: 0 <= i < |l.pending| ==> l.pending[i].group < |ranges|)
    && (forall i, j :: 0 <= i < j < |l.pending| ==>
          l.pending[i].group != l.pending[j].group && ranges[l.pending[i].group].end >= ranges[l.pending[j].group].end)
  }

  /** Iterations are opcode 7, those around groups and those around fields. */
  ghost predicate LoopKinds(l: Layout) {
    && (forall i :: 0 <= i < |l.pending| && l.pending[i].iteration.Some? ==>
          l.pending[i].iteration.value < |l.displays| && l.displays[l.pending[i].iteration.value].opcode == 7)
    && (forall i :: 0 <= i < |l.loops| ==> l.loops[i] < |l.displays| && l.displays[l.loops[i]].opcode == 7)
  }

  function OpenersIn(l: Layout): seq<nat> {
    PendingOpeners(l.pending) + l.loops
  }

  ghost predicate Sound(l: Layout, ranges: seq<Range>) {
    && Linked(l.displays, OpenersIn(l))
    && GroupsPlaced(l, ranges) && FieldsScoped(l, ranges) && GroupsClosed(l) && PendingOrdered(l, ranges)
    && LoopKinds(l)
  }

  // ------------------------------------------------------- one append at a time

  function Append(l: Layout, i: Instruction): Layout {
    l.(displays := l.displays + [i])
  }

  lemma AppendKeepsPlaces(l: Layout, ranges: seq<Range>, i: Instruction)
    requires GroupsPlaced(l, ranges) && FieldsScoped(l, ranges) && GroupsClosed(l)
    ensures GroupsPlaced(Append(l, i), ranges) && FieldsScoped(Append(l, i), ranges) && GroupsClosed(Append(l, i))
  {
    var l' := Append(l, i);
    forall g | g in l'.begins && !IsPending(l'.pending, g) ensures Closed(l'.displays, l'.begins[g]) {
      assert !IsPending(l.pending, g);
      assert Closed(l.displays, l.begins[g]);
    }
    forall g, j | g in l'.begins && 0 <= j < |l'.fieldPcs| ensures OpensBefore(l', ranges, g, j) {
      assert OpensBefore(l, ranges, g, j);
    }
    forall g, j | g in l'.begins && !IsPending(l'.pending, g) && 0 <= j < |l'.fieldPcs|
      ensures ClosesAfter(l', ranges, g, j)
    {
      assert !IsPending(l.pending, g);
      assert ClosesAfter(l, ranges, g, j);
    }
  }

  /** An instruction that is no bracket. */
  lemma AppendNeutral(l: Layout, ranges: seq<Range>, i: Instruction)
    requires Sound(l, ranges) && !Opens(i.opcode) && !Closes(i.opcode)
    ensures Sound(Append(l, i), ranges)
  {
    LinkedNeutral(l.displays, OpenersIn(l), i);
    AppendKeepsPlaces(l, ranges, i);
  }

  /** The field's own instruction; field number is the count so far. */
  function AppendField(l: Layout, i: Instruction): Layout {
    Append(l, i).(fieldPcs := l.fieldPcs + [|l.displays|])
  }

  /** The groups seen so far are those that start no later than field `k`, and
      those pending also end behind it. */
  ghost predicate AtField(l: Layout, ranges: seq<Range>, k: nat) {
    && (forall g: nat :: g < |ranges| ==> (g in l.begins <==> ranges[g].start <= k))
    && (forall g: nat :: g < |ranges| ==> (IsPending(l.pending, g) <==> ranges[g].start <= k < ranges[g].end))
  }

  lemma AppendFieldScoped(l: Layout, ranges: seq<Range>, i: Instruction)
    requires GroupsPlaced(l, ranges) && FieldsScoped(l, ranges) && GroupsClosed(l)
    requires i.opcode == 4 && AtField(l, ranges, |l.fieldPcs|)
    ensures GroupsPlaced(AppendField(l, i), ranges) && FieldsScoped(AppendField(l, i), ranges)
  {
    var k, l', m := |l.fieldPcs|, AppendField(l, i), Append(l, i);
    AppendKeepsPlaces(l, ranges, i);
    forall g, j | g in l'.begins && 0 <= j < |l'.fieldPcs| ensures OpensBefore(l', ranges, g, j) {
      if j < k {
        assert OpensBefore(m, ranges, g, j);
      }
    }
    forall g, j | g in l'.begins && !IsPending(l'.pending, g) && 0 <= j < |l'.fieldPcs|
      ensures ClosesAfter(l', ranges, g, j)
    {
      assert !IsPending(m.pending, g) && !IsPending(l.pending, g);
      if j < k {
        assert ClosesAfter(m, ranges, g, j);
      } else {
        assert Closed(l.displays, l.begins[g]);
      }
    }
  }

  lemma AppendFieldSound(l: Layout, ranges: seq<Range>, i: Instruction)
    requires Sound(l, ranges) && i.opcode == 4 && AtField(l, ranges, |l.fieldPcs|)
    ensures Sound(AppendField(l, i), ranges) && AtField(AppendField(l, i), ranges, |l.fieldPcs|)
  {
    var l', m := AppendField(l, i), Append(l, i);
    AppendNeutral(l, ranges, i);
    AppendFieldScoped(l, ranges, i);
    forall g: nat ensures IsPending(l'.pending, g) <==> IsPending(l.pending, g) {
    }
    assert GroupsClosed(l') by {
      forall g | g in l'.begins && !IsPending(l'.pending, g) ensures Closed(l'.displays, l'.begins[g]) {
        assert !IsPending(m.pending, g);
      }
    }
  }

  // ----------------------------------------------------------------- brackets

  /** The open iterations do not enter into where groups and fields stand. */
  lemma SamePlaces(l: Layout, l': Layout, ranges: seq<Range>)
    requires l' == l.(loops := l'.loops)
    requires GroupsPlaced(l, ranges) && FieldsScoped(l, ranges) && GroupsClosed(l)
    ensures GroupsPlaced(l', ranges) && FieldsScoped(l', ranges) && GroupsClosed(l')
  {
    forall g, j | g in l'.begins && 0 <= j < |l'.fieldPcs| ensures OpensBefore(l', ranges, g, j) {
      assert OpensBefore(l, ranges, g, j);
    }
    forall g, j | g in l'.begins && !IsPending(l'.pending, g) && 0 <= j < |l'.fieldPcs|
      ensures ClosesAfter(l', ranges, g, j)
    {
      assert ClosesAfter(l, ranges, g, j);
    }
  }

  /** An iteration around the current field, its closer still unknown. */
  function OpenLoop(l: Layout, i: Instruction): Layout {
    Append(l, i).(loops := l.loops + [|l.displays|])
  }

  lemma OpenLoopSound(l: Layout, ranges: seq<Range>, i: Instruction)
    requires Sound(l, ranges) && i.opcode == 7
    ensures Sound(OpenLoop(l, i), ranges)
    ensures OpenLoop(l, i).pending == l.pending
  {
    var l' := OpenLoop(l, i);
    hide Linked;
    LinkedOpen(l.displays, OpenersIn(l), i);
    assert OpenersIn(l') == OpenersIn(l) + [|l.displays|];
    AppendKeepsPlaces(l, ranges, i);
    SamePlaces(Append(l, i), l', ranges);
  }

  function CloseLoop(l: Layout, b: nat): Layout
    requires l.loops != [] && l.loops[|l.loops| - 1] < |l.displays|
  {
    l.(displays := CloseTop(l.displays, l.loops[|l.loops| - 1], b), loops := l.loops[..|l.loops| - 1])
  }

  /** Patching an opener that belongs to no group moves no group or field. */
  lemma PatchKeepsPlaces(l: Layout, ranges: seq<Range>, top: nat, b: nat)
    requires GroupsPlaced(l, ranges) && FieldsScoped(l, ranges) && GroupsClosed(l)
    requires top < |l.displays| && l.displays[top].opcode == 7
    ensures var l' := l.(displays := CloseTop(l.displays, top, b));
            GroupsPlaced(l', ranges) && FieldsScoped(l', ranges) && GroupsClosed(l')
  {
    var l' := l.(displays := CloseTop(l.displays, top, b));
    forall g | g in l.begins ensures l'.displays[l.begins[g]] == l.displays[l.begins[g]] {
      assert l.begins[g] != top;
    }
    assert GroupsPlaced(l', ranges);
    forall g, j | g in l'.begins && 0 <= j < |l'.fieldPcs| ensures OpensBefore(l', ranges, g, j) {
      assert OpensBefore(l, ranges, g, j);
    }
    forall g | g in l'.begins && !IsPending(l'.pending, g) ensures Closed(l'.displays, l'.begins[g]) {
      assert !IsPending(l.pending, g);
      assert Closed(l.displays, l.begins[g]);
    }
    forall g, j | g in l'.begins && !IsPending(l'.pending, g) && 0 <= j < |l'.fieldPcs|
      ensures ClosesAfter(l', ranges, g, j)
    {
      assert !IsPending(l.pending, g);
      assert ClosesAfter(l, ranges, g, j);
    }
  }

  lemma CloseLoopKinds(l: Layout, b: nat)
    requires LoopKinds(l) && l.loops != []
    ensures LoopKinds(CloseLoop(l, b))
  {
  }

  lemma CloseLoopSound(l: Layout, ranges: seq<Range>, b: nat)
    requires Sound(l, ranges) && l.loops != []
    ensures Sound(CloseLoop(l, b), ranges)
    ensures CloseLoop(l, b).pending == l.pending
  {
    hide Linked, GroupsPlaced, FieldsScoped, GroupsClosed, OpenersIn, CloseTop;
    var open, l' := OpenersIn(l), CloseLoop(l, b);
    var top := l.loops[|l.loops| - 1];
    CloseLoopKinds(l, b);
    CloseLoopOpeners(l, b);
    LinkedClose(l.displays, open, b);
    PatchKeepsPlaces(l, ranges, top, b);
    SamePlaces(l.(displays := CloseTop(l.displays, top, b)), l', ranges);
  }

  lemma CloseLoopOpeners(l: Layout, b: nat)
    requires l.loops != [] && l.loops[|l.loops| - 1] < |l.displays|
    ensures var open := OpenersIn(l);
            open != [] && open[|open| - 1] == l.loops[|l.loops| - 1] && OpenersIn(CloseLoop(l, b)) == open[..|open| - 1]
  {
    hide PendingOpeners, CloseTop;
  }

  /** The group's own instruction, behind the iteration opened for it if any. */
  function OpenGroup(l: Layout, g: nat, iteration: Option<Instruction>, i: Instruction): Layout {
    var before := l.displays + (if iteration.Some? then [iteration.value] else []);
    var begin := |before|;
    l.(displays := before + [i],
       pending := l.pending + [Pending(g, begin, if iteration.Some? then Some(|l.displays|) else None)],
       begins := l.begins[g := begin])
  }

  lemma PendingOpenersAppend(pending: seq<Pending>, p: Pending)
    ensures PendingOpeners(pending + [p]) == PendingOpeners(pending) + OpenersOf(p)
  {
    assert (pending + [p])[..|pending|] == pending;
  }

  lemma LinkedOpenTwo(ds: seq<Instruction>, open: seq<nat>, i: Instruction, j: Instruction)
    requires Linked(ds, open) && Opens(i.opcode) && Opens(j.opcode)
    ensures Linked(ds + [i] + [j], open + [|ds|, |ds| + 1])
  {
    hide Linked;
    LinkedOpen(ds, open, i);
    LinkedOpen(ds + [i], open + [|ds|], j);
    assert open + [|ds|] + [|ds| + 1] == open + [|ds|, |ds| + 1];
  }

  lemma OpenGroupLinked(l: Layout, ranges: seq<Range>, g: nat, iteration: Option<Instruction>, i: Instruction)
    requires Linked(l.displays, PendingOpeners(l.pending)) && l.loops == []
    requires i.opcode == 5 && (iteration.Some? ==> iteration.value.opcode == 7)
    ensures Linked(OpenGroup(l, g, iteration, i).displays, OpenersIn(OpenGroup(l, g, iteration, i)))
  {
    hide Linked, PendingOpeners;
    var open := PendingOpeners(l.pending);
    var l' := OpenGroup(l, g, iteration, i);
    PendingOpenersAppend(l.pending, l'.pending[|l.pending|]);
    if iteration.Some? {
      LinkedOpenTwo(l.displays, open, iteration.value, i);
      assert OpenersIn(l') == open + [|l.displays|, |l.displays| + 1];
    } else {
      assert l.displays + [] == l.displays;
      LinkedOpen(l.displays, open, i);
      assert OpenersIn(l') == open + [|l.displays|];
    }
  }

  lemma OpenGroupScoped(l: Layout, ranges: seq<Range>, g: nat, iteration: Option<Instruction>, i: Instruction)
    requires Sound(l, ranges) && i.opcode == 5
    requires g < |ranges| && g !in l.begins && ranges[g].start == |l.fieldPcs|
    ensures var l' := OpenGroup(l, g, iteration, i);
            GroupsPlaced(l', ranges) && FieldsScoped(l', ranges) && GroupsClosed(l')
  {
    hide Linked, PendingOrdered, IsPending;
    var l' := OpenGroup(l, g, iteration, i);
    forall h ensures IsPending(l'.pending, h) <==> IsPending(l.pending, h) || h == g {
      OpenGroupPending(l, g, iteration, i, h);
    }
    assert GroupsPlaced(l', ranges);
    forall h, j | h in l'.begins && 0 <= j < |l'.fieldPcs| ensures OpensBefore(l', ranges, h, j) {
      if h != g {
        assert OpensBefore(l, ranges, h, j);
      }
    }
    forall h, j | h in l'.begins && !IsPending(l'.pending, h) && 0 <= j < |l'.fieldPcs|
      ensures ClosesAfter(l', ranges, h, j)
    {
      assert ClosesAfter(l, ranges, h, j);
    }
    forall h | h in l'.begins && !IsPending(l'.pending, h) ensures Closed(l'.displays, l'.begins[h]) {
      assert Closed(l.displays, l.begins[h]);
    }
  }

  lemma OpenGroupPending(l: Layout, g: nat, iteration: Option<Instruction>, i: Instruction, h: nat)
    ensures IsPending(OpenGroup(l, g, iteration, i).pending, h) <==> IsPending(l.pending, h) || h == g
  {
    var l' := OpenGroup(l, g, iteration, i);
    if h == g {
      assert l'.pending[|l.pending|].group == g;
    } else if IsPending(l.pending, h) {
      var n :| 0 <= n < |l.pending| && l.pending[n].group == h;
      assert l'.pending[n].group == h;
    } else {
      assert forall n :: 0 <= n < |l'.pending| ==>
               l'.pending[n].group == if n < |l.pending| then l.pending[n].group else g;
    }
  }

  lemma OpenGroupOrdered(l: Layout, ranges: seq<Range>, g: nat, iteration: Option<Instruction>, i: Instruction)
    requires PendingOrdered(l, ranges) && LoopKinds(l) && GroupsPlaced(l, ranges)
    requires g < |ranges| && g !in l.begins && (iteration.Some? ==> iteration.value.opcode == 7)
    requires l.pending != [] ==> ranges[l.pending[|l.pending| - 1].group].end >= ranges[g].end
    ensures PendingOrdered(OpenGroup(l, g, iteration, i), ranges) && LoopKinds(OpenGroup(l, g, iteration, i))
  {
  }

  /** Opening the next group of field `k`: it starts there, is new, and ends no
      later than the innermost pending one. */
  lemma OpenGroupSound(l: Layout, ranges: seq<Range>, g: nat, iteration: Option<Instruction>, i: Instruction)
    requires Sound(l, ranges) && l.loops == []
    requires i.opcode == 5 && (iteration.Some? ==> iteration.value.opcode == 7)
    requires g < |ranges| && g !in l.begins && ranges[g].start == |l.fieldPcs|
    requires l.pending != [] ==> ranges[l.pending[|l.pending| - 1].group].end >= ranges[g].end
    ensures Sound(OpenGroup(l, g, iteration, i), ranges)
  {
    hide Linked, GroupsPlaced, FieldsScoped, GroupsClosed;
    assert OpenersIn(l) == PendingOpeners(l.pending);
    OpenGroupOrdered(l, ranges, g, iteration, i);
    OpenGroupLinked(l, ranges, g, iteration, i);
    OpenGroupScoped(l, ranges, g, iteration, i);
  }

  // ------------------------------------------------------------ closing groups

  /** The innermost group's closer, then that of the iteration around it. */
  function CloseGroup(l: Layout): Layout
    requires l.pending != []
    requires var p := l.pending[|l.pending| - 1];
             p.begin < |l.displays| && (p.iteration.Some? ==> p.iteration.value < |l.displays|)
  {
    var p := l.pending[|l.pending| - 1];
    var closed := CloseTop(l.displays, p.begin, 0xffff);
    l.(displays := if p.iteration.Some? then CloseTop(closed, p.iteration.value, 0xffff) else closed,
       pending := l.pending[..|l.pending| - 1])
  }

  /** The innermost group's closer alone. */
  function CloseInner(l: Layout): Layout
    requires l.pending != [] && l.pending[|l.pending| - 1].begin < |l.displays|
  {
    l.(displays := CloseTop(l.displays, l.pending[|l.pending| - 1].begin, 0xffff),
       pending := l.pending[..|l.pending| - 1])
  }

  /** An open bracket has no closer yet. */
  lemma OpenNotClosed(ds: seq<Instruction>, open: seq<nat>, p: nat)
    requires Linked(ds, open) && p in open
    ensures !Closed(ds, p)
  {
  }

  lemma CloseInnerPending(l: Layout, ranges: seq<Range>, h: nat)
    requires l.pending != [] && PendingOrdered(l, ranges) && l.pending[|l.pending| - 1].begin < |l.displays|
    ensures IsPending(CloseInner(l).pending, h) <==> IsPending(l.pending, h) && h != l.pending[|l.pending| - 1].group
  {
    var n := |l.pending| - 1;
    if IsPending(l.pending, h) {
      var i :| 0 <= i < |l.pending| && l.pending[i].group == h;
      if i < n {
        assert CloseInner(l).pending[i].group == h;
      }
    }
  }

  lemma CloseInnerScoped(l: Layout, ranges: seq<Range>)
    requires Sound(l, ranges) && l.pending != [] && l.loops == []
    requires ranges[l.pending[|l.pending| - 1].group].end == |l.fieldPcs|
    ensures var l' := CloseInner(l);
            GroupsPlaced(l', ranges) && FieldsScoped(l', ranges) && GroupsClosed(l') && PendingOrdered(l', ranges)
  {
    var l', p := CloseInner(l), l.pending[|l.pending| - 1];
    forall h ensures IsPending(l'.pending, h) <==> IsPending(l.pending, h) && h != p.group {
      CloseInnerPending(l, ranges, h);
    }
    forall h | h in l.begins && !IsPending(l.pending, h) ensures l.begins[h] != p.begin {
      assert Closed(l.displays, l.begins[h]);
      LastPendingOpen(l);
      OpenNotClosed(l.displays, OpenersIn(l), p.begin);
    }
    assert GroupsPlaced(l', ranges);
    forall h | h in l'.begins && !IsPending(l'.pending, h) ensures Closed(l'.displays, l'.begins[h]) {
      if h != p.group {
        assert Closed(l.displays, l.begins[h]);
      }
    }
    forall h, j | h in l'.begins && 0 <= j < |l'.fieldPcs| ensures OpensBefore(l', ranges, h, j) {
      assert OpensBefore(l, ranges, h, j);
    }
    forall h, j | h in l'.begins && !IsPending(l'.pending, h) && 0 <= j < |l'.fieldPcs|
      ensures ClosesAfter(l', ranges, h, j)
    {
      if h != p.group {
        assert ClosesAfter(l, ranges, h, j);
      }
    }
  }

  lemma LastPendingOpen(l: Layout)
    requires l.pending != [] && l.loops == []
    ensures var p := l.pending[|l.pending| - 1];
            OpenersIn(l) == PendingOpeners(l.pending[..|l.pending| - 1]) + OpenersOf(p)
            && p.begin in OpenersIn(l) && OpenersIn(l)[|OpenersIn(l)| - 1] == p.begin
  {
  }

  lemma CloseGroupKinds(l: Layout)
    requires LoopKinds(l) && l.pending != [] && l.loops == []
    requires var p := l.pending[|l.pending| - 1];
             p.begin < |l.displays| && (p.iteration.Some? ==> p.iteration.value < |l.displays|)
    ensures LoopKinds(CloseGroup(l)) && LoopKinds(CloseInner(l))
  {
  }

  /** The innermost group's brackets are where its entry says. */
  lemma PendingInPlace(l: Layout, ranges: seq<Range>)
    requires Sound(l, ranges) && l.pending != [] && l.loops == []
    ensures Linked(l.displays, OpenersIn(l))
    ensures var p := l.pending[|l.pending| - 1];
            && p.begin < |l.displays| && l.displays[p.begin].opcode == 5
            && (p.iteration.Some? ==> p.iteration.value < |l.displays| && l.displays[p.iteration.value].opcode == 7
                                      && p.iteration.value != p.begin)
  {
    hide Linked, FieldsScoped, GroupsClosed;
  }

  lemma CloseGroupSound(l: Layout, ranges: seq<Range>)
    requires Sound(l, ranges) && l.pending != [] && l.loops == []
    requires ranges[l.pending[|l.pending| - 1].group].end == |l.fieldPcs|
    ensures Sound(CloseGroup(l), ranges)
    ensures forall h: nat :: IsPending(CloseGroup(l).pending, h) <==>
              IsPending(l.pending, h) && h != l.pending[|l.pending| - 1].group
  {
    hide Linked, FieldsScoped, GroupsClosed, GroupsPlaced, LoopKinds, IsPending;
    PendingInPlace(l, ranges);
    var l', p, inner := CloseGroup(l), l.pending[|l.pending| - 1], CloseInner(l);
    CloseGroupKinds(l);
    CloseInnerScoped(l, ranges);
    CloseGroupLinked(l);
    assert l'.pending == inner.pending;
    forall h: nat ensures IsPending(l'.pending, h) <==> IsPending(l.pending, h) && h != p.group {
      CloseInnerPending(l, ranges, h);
    }
    CloseOuterPlaces(l, ranges);
  }

  /** The closer of the iteration around a group moves no group or field. */
  lemma CloseOuterPlaces(l: Layout, ranges: seq<Range>)
    requires l.pending != [] && LoopKinds(l) && l.pending[|l.pending| - 1].begin < |l.displays|
    requires l.pending[|l.pending| - 1].iteration.Some? ==>
               l.pending[|l.pending| - 1].iteration.value != l.pending[|l.pending| - 1].begin
    requires var inner := CloseInner(l);
             GroupsPlaced(inner, ranges) && FieldsScoped(inner, ranges) && GroupsClosed(inner)
    ensures var l' := CloseGroup(l); GroupsPlaced(l', ranges) && FieldsScoped(l', ranges) && GroupsClosed(l')
  {
    hide FieldsScoped, GroupsClosed, GroupsPlaced;
    var p, inner, l' := l.pending[|l.pending| - 1], CloseInner(l), CloseGroup(l);
    if p.iteration.Some? {
      PatchKeepsPlaces(inner, ranges, p.iteration.value, 0xffff);
      assert l' == inner.(displays := CloseTop(inner.displays, p.iteration.value, 0xffff));
    } else {
      assert l' == inner;
    }
  }

  lemma CloseGroupLinked(l: Layout)
    requires Linked(l.displays, OpenersIn(l)) && l.pending != [] && l.loops == []
    requires var p := l.pending[|l.pending| - 1];
             p.begin < |l.displays| && (p.iteration.Some? ==> p.iteration.value < |l.displays|)
    ensures Linked(CloseGroup(l).displays, OpenersIn(CloseGroup(l)))
  {
    hide Linked;
    var p, open, l' := l.pending[|l.pending| - 1], OpenersIn(l), CloseGroup(l);
    var rest := PendingOpeners(l.pending[..|l.pending| - 1]);
    LastPendingOpen(l);
    LinkedClose(l.displays, open, 0xffff);
    assert OpenersIn(l') == rest;
    if p.iteration.Some? {
      assert open[..|open| - 1] == rest + [p.iteration.value];
      LinkedClose(CloseTop(l.displays, p.begin, 0xffff), rest + [p.iteration.value], 0xffff);
      assert (rest + [p.iteration.value])[..|rest|] == rest;
    } else {
      assert open[..|open| - 1] == rest;
    }
  }

  // ------------------------------------------------------- the rounds of a field

  predicate MissingLess(a: Option<string>, b: Option<string>) {
    a.Some? && b.Some? && TextLess(a.value, b.value)
  }

  /** The tuple order of `(end, label, path)`. */
  predicate EarlierKey(a: Range, b: Range) {
    a.end < b.end ||
    (a.end == b.end && (MissingLess(a.caption, b.caption) || (a.caption == b.caption && MissingLess(a.path, b.path))))
  }

  /** Python refuses to order a text and `None`. */
  predicate Comparable(a: Range, b: Range) {
    a.end != b.end ||
    if a.caption != b.caption then a.caption.Some? && b.caption.Some?
    else a.path == b.path || (a.path.Some? && b.path.Some?)
  }

  predicate AreGroups(ranges: seq<Range>, gs: seq<nat>) {
    forall i :: 0 <= i < |gs| ==> gs[i] < |ranges|
  }

  /** Groups in one bucket are sorted by a tuple order that refuses to compare a
      text with nothing. */
  predicate AllComparable(ranges: seq<Range>, gs: seq<nat>)
    requires AreGroups(ranges, gs)
  {
    forall i, j :: 0 <= i < |gs| && 0 <= j < |gs| ==> Comparable(ranges[gs[i]], ranges[gs[j]])
  }

  /** `g` put into a list that descends by key, behind its equals. */
  function InsertGroup(ranges: seq<Range>, sorted: seq<nat>, g: nat): (r: seq<nat>)
    requires g < |ranges| && AreGroups(ranges, sorted)
    ensures AreGroups(ranges, r) && |r| == |sorted| + 1
    ensures forall h :: h in r <==> h in sorted || h == g
  {
    if sorted == [] || EarlierKey(ranges[sorted[0]], ranges[g]) then [g] + sorted
    else [sorted[0]] + InsertGroup(ranges, sorted[1..], g)
  }

  /** The groups among the first `n` that start at field `k`, largest key first. */
  function StartingAt(ranges: seq<Range>, n: nat, k: nat): (r: seq<nat>)
    requires n <= |ranges|
    ensures AreGroups(ranges, r)
    ensures forall g: nat :: g in r <==> g < n && ranges[g].start == k
  {
    if n == 0 then []
    else
      var sorted := StartingAt(ranges, n - 1, k);
      if ranges[n - 1].start == k then InsertGroup(ranges, sorted, n - 1) else sorted
  }

  ghost predicate EndsDescend(ranges: seq<Range>, gs: seq<nat>)
    requires AreGroups(ranges, gs)
  {
    gs == [] ||
    (&& (forall i :: 1 <= i < |gs| ==> gs[i] != gs[0] && ranges[gs[i]].end <= ranges[gs[0]].end)
     && EndsDescend(ranges, gs[1..]))
  }

  lemma {:induction false} InsertDescends(ranges: seq<Range>, sorted: seq<nat>, g: nat)
    requires g < |ranges| && AreGroups(ranges, sorted)
    requires EndsDescend(ranges, sorted) && g !in sorted
    ensures EndsDescend(ranges, InsertGroup(ranges, sorted, g))
  {
    var r := InsertGroup(ranges, sorted, g);
    if sorted == [] || EarlierKey(ranges[sorted[0]], ranges[g]) {
      assert r[1..] == sorted;
    } else {
      var rest := InsertGroup(ranges, sorted[1..], g);
      assert r[1..] == rest;
      InsertDescends(ranges, sorted[1..], g);
      forall i | 1 <= i < |r| ensures r[i] != r[0] && ranges[r[i]].end <= ranges[r[0]].end {
        assert r[i] == rest[i - 1] && r[i] in rest;
      }
    }
  }

  lemma {:induction false} StartingDescends(ranges: seq<Range>, n: nat, k: nat)
    requires n <= |ranges|
    ensures EndsDescend(ranges, StartingAt(ranges, n, k))
  {
    hide InsertGroup;
    if n == 0 {
      assert EndsDescend(ranges, []);
    }
    if n > 0 {
      StartingDescends(ranges, n - 1, k);
      if ranges[n - 1].start == k {
        InsertDescends(ranges, StartingAt(ranges, n - 1, k), n - 1);
      }
    }
  }

  /** While the groups of field `k` are being opened, `todo` still has to be. */
  ghost predicate Opening(l: Layout, ranges: seq<Range>, k: nat, todo: seq<nat>) {
    && AreGroups(ranges, todo) && (forall g :: g in todo ==> ranges[g].start == k)
    && EndsDescend(ranges, todo)
    && (forall g: nat :: g < |ranges| ==> (g in l.begins <==> ranges[g].start <= k && g !in todo))
    && (forall g: nat :: g < |ranges| ==>
        (IsPending(l.pending, g) <==> ranges[g].start <= k < ranges[g].end && g !in todo))
  }

  /** In front of field `k`, all earlier groups have been opened and those that
      ended closed. */
  ghost predicate BeforeField(l: Layout, ranges: seq<Range>, k: nat) {
    && (forall g: nat :: g < |ranges| ==> (g in l.begins <==> ranges[g].start < k))
    && (forall g: nat :: g < |ranges| ==> (IsPending(l.pending, g) <==> ranges[g].start < k < ranges[g].end))
  }

  lemma StartOpening(l: Layout, ranges: seq<Range>, k: nat, hi: nat)
    requires BeforeField(l, ranges, k) && Laminar(ranges, 0, hi)
    ensures Opening(l, ranges, k, StartingAt(ranges, |ranges|, k))
  {
    StartingDescends(ranges, |ranges|, k);
  }

  /** The next group fits inside the innermost pending one. */
  lemma NextFits(l: Layout, ranges: seq<Range>, k: nat, todo: seq<nat>, hi: nat)
    requires Opening(l, ranges, k, todo) && todo != [] && Laminar(ranges, 0, hi)
    requires PendingOrdered(l, ranges) && l.pending != []
    requires Earlier(l, ranges, k, todo)
    ensures ranges[l.pending[|l.pending| - 1].group].end >= ranges[todo[0]].end
  {
    var p := l.pending[|l.pending| - 1].group;
    assert IsPending(l.pending, p);
  }

  /** The groups of field `k` opened so far end no earlier than those to come. */
  ghost predicate Earlier(l: Layout, ranges: seq<Range>, k: nat, todo: seq<nat>)
    requires AreGroups(ranges, todo)
  {
    forall g, h :: g in l.begins && g < |ranges| && ranges[g].start == k && h in todo ==> ranges[g].end >= ranges[h].end
  }

  lemma OpeningNext(l: Layout, l': Layout, ranges: seq<Range>, k: nat, todo: seq<nat>, hi: nat)
    requires Opening(l, ranges, k, todo) && Earlier(l, ranges, k, todo) && todo != [] && Laminar(ranges, 0, hi)
    requires l'.begins.Keys == l.begins.Keys + {todo[0]}
    requires forall h: nat :: IsPending(l'.pending, h) <==> IsPending(l.pending, h) || h == todo[0]
    ensures Opening(l', ranges, k, todo[1..]) && Earlier(l', ranges, k, todo[1..])
  {
    forall g ensures g in todo <==> g == todo[0] || g in todo[1..] {
    }
    assert todo[0] !in todo[1..];
  }

  lemma OpeningDone(l: Layout, ranges: seq<Range>, k: nat)
    requires Opening(l, ranges, k, [])
    ensures AtField(l, ranges, k)
  {
  }

  // ------------------------------------------------------------- closing rounds

  /** The groups that end in front of field `k`. */
  function EndingAt(ranges: seq<Range>, n: nat, k: nat): (r: seq<nat>)
    requires n <= |ranges|
    ensures forall g: nat :: g in r <==> g < n && ranges[g].end == k
  {
    if n == 0 then []
    else EndingAt(ranges, n - 1, k) + if ranges[n - 1].end == k then [n - 1] else []
  }

  ghost function EndingSet(ranges: seq<Range>, n: nat, k: nat): set<nat>
    requires n <= |ranges|
  {
    set g: nat | g < n && ranges[g].end == k
  }

  lemma {:induction false} EndingCount(ranges: seq<Range>, n: nat, k: nat)
    requires n <= |ranges|
    ensures |EndingAt(ranges, n, k)| == |EndingSet(ranges, n, k)|
  {
    hide EndingSet, EndingAt;
    if n == 0 {
      EndingNone(ranges, k);
    } else {
      EndingCount(ranges, n - 1, k);
      EndingMore(ranges, n, k);
      EndingLonger(ranges, n, k);
    }
  }

  lemma EndingLonger(ranges: seq<Range>, n: nat, k: nat)
    requires 0 < n <= |ranges|
    ensures |EndingAt(ranges, n, k)| == |EndingAt(ranges, n - 1, k)| + if ranges[n - 1].end == k then 1 else 0
  {
  }

  lemma EndingNone(ranges: seq<Range>, k: nat)
    ensures EndingSet(ranges, 0, k) == {} && EndingAt(ranges, 0, k) == []
  {
  }

  lemma EndingMore(ranges: seq<Range>, n: nat, k: nat)
    requires 0 < n <= |ranges|
    ensures |EndingSet(ranges, n, k)| == |EndingSet(ranges, n - 1, k)| + if ranges[n - 1].end == k then 1 else 0
  {
    var before := EndingSet(ranges, n - 1, k);
    if ranges[n - 1].end == k {
      assert EndingSet(ranges, n, k) == before + {n - 1};
    } else {
      assert EndingSet(ranges, n, k) == before;
    }
  }

  /** While closing behind field `k - 1`: `left` groups that end at `k` are still
      pending, and everything else pending ends later. */
  ghost predicate Closing(l: Layout, ranges: seq<Range>, k: nat, left: set<nat>) {
    && (forall g :: g in left ==> g < |ranges| && ranges[g].end == k)
    && (forall g: nat :: g < |ranges| ==> (g in l.begins <==> ranges[g].start < k))
    && (forall g: nat :: g < |ranges| ==>
        (IsPending(l.pending, g) <==> ranges[g].start < k < ranges[g].end || g in left))
  }

  lemma StartClosing(l: Layout, ranges: seq<Range>, k: nat, hi: nat)
    requires AtField(l, ranges, k) && Laminar(ranges, 0, hi)
    ensures Closing(l, ranges, k + 1, EndingSet(ranges, |ranges|, k + 1))
  {
  }

  /** As long as a group that ends here is pending, the innermost one is such. */
  lemma InnermostEnds(l: Layout, ranges: seq<Range>, k: nat, left: set<nat>)
    requires Closing(l, ranges, k, left) && left != {} && PendingOrdered(l, ranges)
    ensures l.pending != [] && l.pending[|l.pending| - 1].group in left
    ensures ranges[l.pending[|l.pending| - 1].group].end == k
  {
    var g :| g in left;
    assert IsPending(l.pending, g);
    var i :| 0 <= i < |l.pending| && l.pending[i].group == g;
    var top := l.pending[|l.pending| - 1].group;
    assert IsPending(l.pending, top);
    assert ranges[top].end <= ranges[g].end;
  }

  lemma ClosingNext(l: Layout, l': Layout, ranges: seq<Range>, k: nat, left: set<nat>, top: nat)
    requires Closing(l, ranges, k, left) && top in left && l'.begins == l.begins
    requires forall h: nat :: IsPending(l'.pending, h) <==> IsPending(l.pending, h) && h != top
    ensures Closing(l', ranges, k, left - {top})
  {
  }

  lemma ClosingDone(l: Layout, ranges: seq<Range>, k: nat)
    requires Closing(l, ranges, k, {})
    ensures BeforeField(l, ranges, k)
  {
  }
}
