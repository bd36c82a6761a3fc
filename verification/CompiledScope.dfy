/** Group scope in compiled programs (keepkeylib/erc7730_compiler.py): brackets
    nest, every field stands inside exactly the groups whose numbers hold it,
    and what dropping hidden fields does to that. */
module CompiledScope {
  import opened Wrappers
  import opened AbiTypes
  import opened Program
  import opened DisplayWord
  import opened DisplayFields
  import opened GroupScope
  import opened CompiledDisplay
  import opened Compiler
  import opened CompiledProgram
  import opened DisplayShape
  import opened AbiPaths
  import SignatureParser

  /** The display word of every compilation is properly nested, its brackets
      point at each other, and no two cross. */
  lemma CompiledNested(root: AbiType, ranges: seq<Range>, fields: seq<Field>, intent: string, tokens: seq<Token>,
      t: Tables, e: Evidence)
    requires IsCompiled(root, ranges, fields, intent, tokens, t, e)
    ensures WellNested(t.displays) && Paired(t.displays, 5, 6) && Paired(t.displays, 7, 8) && NonCrossing(t.displays)
  {
    hide TablesSay, FormattersSay, AllFieldsEmitted, AllGroupsEmitted, IntentEmitted, BeforeField, GroupsPlaced,
      FieldsScoped, GroupsClosed, Linked, WellNested, Paired, NonCrossing;
    assert OpenersIn(e.layout) == [];
    LinkedWord(t.displays);
  }

  /** Field `j` stands between the brackets of group `g`. */
  predicate Inside(t: Tables, l: Layout, g: nat, j: nat)
    requires j < |l.fieldPcs|
  {
    g in l.begins && l.begins[g] < |t.displays| && l.begins[g] < l.fieldPcs[j] < t.displays[l.begins[g]].c
  }

  /** A field is inside a group exactly when its number is in the group's range. */
  lemma CompiledScoped(root: AbiType, ranges: seq<Range>, fields: seq<Field>, intent: string, tokens: seq<Token>,
      t: Tables, e: Evidence, g: nat, j: nat)
    requires IsCompiled(root, ranges, fields, intent, tokens, t, e) && g < |ranges| && j < |fields|
    ensures Inside(t, e.layout, g, j) <==> ranges[g].start <= j < ranges[g].end
  {
    hide TablesSay, FormattersSay, AllFieldsEmitted, AllGroupsEmitted, IntentEmitted, Linked;
    var l := e.layout;
    if g in l.begins {
      assert OpensBefore(l, ranges, g, j);
      assert !IsPending(l.pending, g);
      assert ClosesAfter(l, ranges, g, j);
    }
  }

  /** A group that was opened ends within the compiled fields. */
  lemma OpenedEnds(root: AbiType, ranges: seq<Range>, fields: seq<Field>, intent: string, tokens: seq<Token>, t: Tables,
      e: Evidence, g: nat)
    requires IsCompiled(root, ranges, fields, intent, tokens, t, e) && g < |ranges| && ranges[g].start < |fields|
    ensures ranges[g].end <= |fields|
  {
    hide TablesSay, FormattersSay, AllFieldsEmitted, AllGroupsEmitted, IntentEmitted, Sound;
    assert !IsPending(e.layout.pending, g);
  }

  /** Every field instruction is a field's, and later fields come later. */
  lemma CompiledFields(root: AbiType, ranges: seq<Range>, fields: seq<Field>, intent: string, tokens: seq<Token>,
      t: Tables, e: Evidence, pc: nat)
    requires IsCompiled(root, ranges, fields, intent, tokens, t, e)
    requires pc < |t.displays| && t.displays[pc].opcode == 4
    ensures |e.layout.fieldPcs| == |fields| && pc in e.layout.fieldPcs && Ascends(e.layout.fieldPcs)
  {
    hide TablesSay, FormattersSay, AllFieldsEmitted, AllGroupsEmitted, IntentEmitted, Linked, FieldsScoped,
      GroupsClosed, PendingOrdered, LoopKinds, BeforeField, Skeleton, Shape, Ascends, GroupLoops;
    ShapeFours(root, ranges, fields, tokens, |fields|);
    FieldInstructions(t.displays, e.layout.fieldPcs, pc);
  }

  /** An iteration over a group's path opens directly in front of the group and
      closes directly behind it. */
  lemma CompiledLoopHugs(root: AbiType, ranges: seq<Range>, fields: seq<Field>, intent: string, tokens: seq<Token>,
      t: Tables, e: Evidence, g: nat)
    requires IsCompiled(root, ranges, fields, intent, tokens, t, e)
    requires g < |ranges| && ranges[g].start < |fields| && IteratesGroup(ranges[g].path)
    ensures g in e.layout.begins && LoopHugs(t.displays, e.layout.begins[g])
            && t.displays[e.layout.begins[g] - 1].opcode == 7
  {
    hide TablesSay, FormattersSay, AllFieldsEmitted, IntentEmitted, Linked, FieldsScoped, GroupsClosed,
      PendingOrdered, LoopKinds, Shaped, IteratesGroup, ResolvePath;
    assert GroupEmitted(BuiltOf(t), root, ranges[g], t.displays, e.layout.begins[g]);
  }

  // ----------------------------------------------------------- dropped fields

  /** The original numbers of the fields that are compiled. */
  function KeptNumbers(fields: seq<Field>, interpolated: set<string>): seq<nat> {
    if fields == [] then []
    else
      var n := |fields| - 1;
      KeptNumbers(fields[..n], interpolated) + if Dropped(fields[n], interpolated) then [] else [n]
  }

  lemma {:induction false} KeptAre(fields: seq<Field>, interpolated: set<string>)
    ensures var kept := KeptNumbers(fields, interpolated);
            && |kept| == |Shown(fields, interpolated)|
            && (forall j :: 0 <= j < |kept| ==>
                  j <= kept[j] < |fields| && !Dropped(fields[kept[j]], interpolated)
                  && Shown(fields, interpolated)[j] == Promoted(fields[kept[j]]))
            && (forall i, j :: 0 <= i < j < |kept| ==> kept[i] < kept[j])
    decreases |fields|
  {
    if fields != [] {
      var before := fields[..|fields| - 1];
      KeptAre(before, interpolated);
      KeptAtMost(before, interpolated);
      forall j | 0 <= j < |KeptNumbers(before, interpolated)|
        ensures KeptNumbers(fields, interpolated)[j] == KeptNumbers(before, interpolated)[j]
      {
      }
    }
  }

  /** `p` is `r`, with or without the sign of the root in front. */
  predicate Written(p: string, r: string) {
    (p == r && !Text.StartsWith(r, "#.")) || p == "#." + r
  }

  lemma NormalizedIff(p: string, r: string)
    ensures Normalized(p) == r <==> Written(p, r)
  {
    if Text.StartsWith(p, "#.") {
      assert p == "#." + p[2..];
    }
    if p == "#." + r {
      assert p[..2] == "#." && p[2..] == r;
    }
  }

  /** The interpolated intent shows the field's value. */
  ghost predicate Interpolated(f: Field, tokens: seq<Token>) {
    exists k, r :: 0 <= k < |tokens| && NamesPath(tokens[k], f, r)
  }

  predicate NamesPath(token: Token, f: Field, r: string) {
    token.ValueToken? && f.path.Some? && Written(f.path.value, r) && Written(token.path, r)
  }

  lemma DroppedIff(f: Field, tokens: seq<Token>)
    ensures Dropped(f, InterpolatedPaths(tokens)) <==> f.visible.Never? && !Interpolated(f, tokens)
  {
    hide Written, Normalized;
    if f.path.Some? && Normalized(f.path.value) in InterpolatedPaths(tokens) {
      var r := Normalized(f.path.value);
      var token :| token in tokens && token.ValueToken? && Normalized(token.path) == r;
      var k :| 0 <= k < |tokens| && tokens[k] == token;
      NormalizedIff(f.path.value, r);
      NormalizedIff(token.path, r);
      assert NamesPath(tokens[k], f, r);
    }
    forall k, r | 0 <= k < |tokens| && NamesPath(tokens[k], f, r)
      ensures f.path.Some? && Normalized(f.path.value) in InterpolatedPaths(tokens)
    {
      NormalizedIff(f.path.value, r);
      NormalizedIff(tokens[k].path, r);
      assert tokens[k] in tokens;
    }
  }

  /** Which fields are shown: those that are not hidden, and hidden ones that the
      interpolated intent shows. */
  lemma KeptIff(fields: seq<Field>, tokens: seq<Token>, i: nat)
    ensures i in KeptNumbers(fields, InterpolatedPaths(tokens)) <==>
            i < |fields| && (fields[i].visible.Never? ==> Interpolated(fields[i], tokens))
  {
    hide Interpolated, Dropped, InterpolatedPaths;
    KeptAre(fields, InterpolatedPaths(tokens));
    if i < |fields| {
      DroppedIff(fields[i], tokens);
      if !Dropped(fields[i], InterpolatedPaths(tokens)) {
        NotDroppedKept(fields, InterpolatedPaths(tokens), i);
      }
    }
    if i in KeptNumbers(fields, InterpolatedPaths(tokens)) {
      var j :| 0 <= j < |KeptNumbers(fields, InterpolatedPaths(tokens))|
               && KeptNumbers(fields, InterpolatedPaths(tokens))[j] == i;
    }
  }

  /** An interpolated value is that of the last always-visible field with its
      path, whether or not either is written with the sign of the root. */
  lemma TokenShows(fields: seq<Field>, path: string, k: nat)
    ensures FieldAt(fields, path) == Ok(k) ==>
              && k < |fields| && fields[k].visible.Always? && (exists r :: NamesPath(ValueToken(path), fields[k], r))
              && forall j, r :: k < j < |fields| && NamesPath(ValueToken(path), fields[j], r) ==>
                   !fields[j].visible.Always?
    ensures FieldAt(fields, path).Raised? ==>
              forall j, r :: 0 <= j < |fields| && NamesPath(ValueToken(path), fields[j], r) ==>
                !fields[j].visible.Always?
  {
    hide Written, Normalized;
    if FieldAt(fields, path) == Ok(k) {
      var r := Normalized(path);
      NormalizedIff(path, r);
      NormalizedIff(fields[k].path.value, r);
      assert NamesPath(ValueToken(path), fields[k], r);
    }
    forall j, r | 0 <= j < |fields| && NamesPath(ValueToken(path), fields[j], r) && fields[j].visible.Always?
      ensures ShowsPath(fields[j], path)
    {
      NormalizedIff(path, r);
      NormalizedIff(fields[j].path.value, r);
    }
  }

  /** A shown field is the descriptor's, and no longer hidden if it was. */
  lemma ShownFieldIs(fields: seq<Field>, tokens: seq<Token>, j: nat)
    requires j < |Shown(fields, InterpolatedPaths(tokens))|
    ensures j < |KeptNumbers(fields, InterpolatedPaths(tokens))|
    ensures var kept := KeptNumbers(fields, InterpolatedPaths(tokens))[j];
            && kept < |fields|
            && var f, g := fields[kept], Shown(fields, InterpolatedPaths(tokens))[j];
               !g.visible.Never? && g == if f.visible.Never? then f.(visible := Always) else f
  {
    hide InterpolatedPaths, Dropped;
    KeptAre(fields, InterpolatedPaths(tokens));
  }

  lemma {:induction false} NotDroppedKept(fields: seq<Field>, interpolated: set<string>, i: nat)
    requires i < |fields| && !Dropped(fields[i], interpolated)
    ensures i in KeptNumbers(fields, interpolated)
    decreases |fields|
  {
    if i < |fields| - 1 {
      NotDroppedKept(fields[..|fields| - 1], interpolated, i);
    }
  }

  /** The first `e` fields are all compiled. */
  predicate NoneDropped(fields: seq<Field>, interpolated: set<string>, e: nat)
    requires e <= |fields|
  {
    forall i :: 0 <= i < e ==> !Dropped(fields[i], interpolated)
  }

  /** Fields keep their numbers as far as none is dropped. */
  lemma {:induction false} NumbersKept(fields: seq<Field>, interpolated: set<string>, e: nat)
    requires e <= |fields| && NoneDropped(fields, interpolated, e)
    ensures var kept := KeptNumbers(fields, interpolated);
            e <= |kept| && forall j :: 0 <= j < e ==> kept[j] == j
    decreases |fields|
  {
    if e < |fields| {
      NumbersKept(fields[..|fields| - 1], interpolated, e);
    } else if e > 0 {
      NumbersKept(fields[..e - 1], interpolated, e - 1);
      KeptAtMost(fields[..e - 1], interpolated);
    }
  }

  lemma {:induction false} KeptAtMost(fields: seq<Field>, interpolated: set<string>)
    ensures |KeptNumbers(fields, interpolated)| <= |fields|
    decreases |fields|
  {
    if fields != [] {
      KeptAtMost(fields[..|fields| - 1], interpolated);
    }
  }

  /** If a field kept its number, none before it was dropped. */
  lemma NumberKeptBack(fields: seq<Field>, interpolated: set<string>, j: nat)
    requires j < |KeptNumbers(fields, interpolated)| && KeptNumbers(fields, interpolated)[j] == j
    ensures j < |fields| && NoneDropped(fields, interpolated, j + 1)
  {
    KeptAre(fields, interpolated);
    var kept := KeptNumbers(fields, interpolated);
    forall i | 0 <= i < j + 1 ensures !Dropped(fields[i], interpolated) {
      IncreasingGap(kept, i, j);
      assert kept[i] == i;
    }
  }

  lemma {:induction false} IncreasingGap(s: seq<nat>, i: nat, j: nat)
    requires i <= j < |s| && forall a, b :: 0 <= a < b < |s| ==> s[a] < s[b]
    ensures s[i] + (j - i) <= s[j]
    decreases j
  {
    if i < j {
      IncreasingGap(s, i, j - 1);
    }
  }

  /** Group `g` holds, in the program, exactly the compiled ones of its fields. */
  ghost predicate ScopeKept(t: Tables, l: Layout, g: nat, r: Range, kept: seq<nat>) {
    |kept| == |l.fieldPcs| && forall j :: 0 <= j < |kept| ==> (Inside(t, l, g, j) <==> r.start <= kept[j] < r.end)
  }

  /** When group numbers survive dropping: nothing up to the group's end was
      dropped, or all its fields were and no field is left where it starts. */
  predicate ScopeSurvives(fields: seq<Field>, interpolated: set<string>, r: Range)
    requires r.start <= r.end <= |fields|
  {
    || NoneDropped(fields, interpolated, r.end)
    || (r.start >= |Shown(fields, interpolated)|
        && forall i :: r.start <= i < r.end ==> Dropped(fields[i], interpolated))
  }

  /** In every compilation a group holds exactly its own fields if and only if no
      field was dropped up to its end (or it vanished altogether). */
  lemma ScopeKeptIff(root: AbiType, ranges: seq<Range>, all: seq<Field>, interpolated: set<string>, intent: string,
      tokens: seq<Token>, t: Tables, e: Evidence, g: nat)
    requires IsCompiled(root, ranges, Shown(all, interpolated), intent, tokens, t, e)
    requires g < |ranges| && ranges[g].start < ranges[g].end <= |all|
    ensures ScopeKept(t, e.layout, g, ranges[g], KeptNumbers(all, interpolated)) <==>
              ScopeSurvives(all, interpolated, ranges[g])
  {
    hide IsCompiled, Inside;
    var fields, kept, r := Shown(all, interpolated), KeptNumbers(all, interpolated), ranges[g];
    KeptAre(all, interpolated);
    CompiledCount(root, ranges, fields, intent, tokens, t, e);
    forall j | 0 <= j < |kept| ensures Inside(t, e.layout, g, j) <==> r.start <= j < r.end {
      CompiledScoped(root, ranges, fields, intent, tokens, t, e, g, j);
    }
    if ScopeSurvives(all, interpolated, r) {
      SurvivingScope(all, interpolated, r);
    }
    if ScopeKept(t, e.layout, g, r, kept) {
      if r.start < |fields| {
        OpenedEnds(root, ranges, fields, intent, tokens, t, e, g);
      }
      assert forall j :: 0 <= j < |kept| ==> (r.start <= j < r.end <==> r.start <= kept[j] < r.end);
      KeptScopeSurvives(all, interpolated, r);
    }
  }

  lemma CompiledCount(root: AbiType, ranges: seq<Range>, fields: seq<Field>, intent: string, tokens: seq<Token>,
      t: Tables, e: Evidence)
    requires IsCompiled(root, ranges, fields, intent, tokens, t, e)
    ensures |e.layout.fieldPcs| == |fields|
  {
  }

  lemma SurvivingScope(all: seq<Field>, interpolated: set<string>, r: Range)
    requires r.start < r.end <= |all| && ScopeSurvives(all, interpolated, r)
    ensures forall j :: 0 <= j < |KeptNumbers(all, interpolated)| ==>
              (r.start <= j < r.end <==> r.start <= KeptNumbers(all, interpolated)[j] < r.end)
  {
    KeptAre(all, interpolated);
    if NoneDropped(all, interpolated, r.end) {
      NumbersKept(all, interpolated, r.end);
    }
  }

  lemma KeptScopeSurvives(all: seq<Field>, interpolated: set<string>, r: Range)
    requires r.start < r.end <= |all|
    requires r.start < |Shown(all, interpolated)| ==> r.end <= |Shown(all, interpolated)|
    requires forall j :: 0 <= j < |KeptNumbers(all, interpolated)| ==>
               (r.start <= j < r.end <==> r.start <= KeptNumbers(all, interpolated)[j] < r.end)
    ensures ScopeSurvives(all, interpolated, r)
  {
    KeptAre(all, interpolated);
    var kept := KeptNumbers(all, interpolated);
    if r.start < |kept| {
      IncreasingGap(kept, r.start, r.end - 1);
      assert kept[r.end - 1] == r.end - 1;
      NumberKeptBack(all, interpolated, r.end - 1);
    } else {
      forall i | r.start <= i < r.end ensures Dropped(all[i], interpolated) {
        assert i !in kept;
        if !Dropped(all[i], interpolated) {
          NotDroppedKept(all, interpolated, i);
        }
      }
    }
  }

  /** The descriptor decides scope when nothing is hidden: in the program, group
      number `g` holds exactly the fields it encloses in the descriptor, and
      every field of the descriptor is there. */
  lemma DescriptorScope(signature: string, items: seq<Item>, intent: string, tokens: seq<Token>, t: Tables, e: Evidence,
      g: nat, j: nat)
    requires CompiledFrom(signature, items, intent, tokens, t, e)
    requires var (all, _) := DisplayFields.Flatten(items, None, 0).value;
             NoneDropped(all, InterpolatedPaths(tokens), |all|)
    requires g < GroupCount(items) && j < LeafCount(items)
    ensures |e.layout.fieldPcs| == LeafCount(items)
    ensures Inside(t, e.layout, g, j) <==> Encloses(items, g, j)
  {
    hide IsCompiled, Inside, Encloses, DisplayFields.Flatten;
    var root := SignatureParser.ParseFunction(signature).value.1;
    var (all, ranges) := DisplayFields.Flatten(items, None, 0).value;
    var fields := Shown(all, InterpolatedPaths(tokens));
    FlattenCounts(items, None, 0);
    FlattenEncloses(items, None, 0, g, j);
    NumbersKept(all, InterpolatedPaths(tokens), |all|);
    KeptAre(all, InterpolatedPaths(tokens));
    KeptAtMost(all, InterpolatedPaths(tokens));
    CompiledCount(root, ranges, fields, intent, tokens, t, e);
    CompiledScoped(root, ranges, fields, intent, tokens, t, e, g, j);
  }

  /** A hidden field in front shifts a group: of a hidden field, a group with one
      field and a field behind it, the program puts the last inside the group
      and the group's own field outside. */
  lemma HiddenFieldShiftsGroup(signature: string, hidden: Field, member: Field, last: Field, caption: Option<string>,
      intent: string, t: Tables, e: Evidence)
    requires hidden.visible.Never? && !member.visible.Never? && !last.visible.Never?
    requires CompiledFrom(signature,
                          [FieldItem(hidden), GroupItem(caption, None, [FieldItem(member)]), FieldItem(last)],
                          intent, [], t, e)
    ensures |e.layout.fieldPcs| == 2
    ensures !Inside(t, e.layout, 0, 0) && Inside(t, e.layout, 0, 1)
  {
    hide IsCompiled, Inside;
    var group := GroupItem(caption, None, [FieldItem(member)]);
    var items := [FieldItem(hidden), group, FieldItem(last)];
    var root := SignatureParser.ParseFunction(signature).value.1;
    assert items[1..] == [group, FieldItem(last)] && items[1..][1..] == [FieldItem(last)] && items[1..][1..][1..] == [];
    assert [FieldItem(member)][1..] == [];
    ShiftedFlat(hidden, member, last, caption);
    var (all, ranges) := DisplayFields.Flatten(items, None, 0).value;
    var fields := Shown(all, {});
    assert InterpolatedPaths([]) == {};
    CompiledCount(root, ranges, fields, intent, [], t, e);
    CompiledScoped(root, ranges, fields, intent, [], t, e, 0, 0);
    CompiledScoped(root, ranges, fields, intent, [], t, e, 0, 1);
  }

  lemma ShiftedFlat(hidden: Field, member: Field, last: Field, caption: Option<string>)
    requires hidden.visible.Never? && !member.visible.Never? && !last.visible.Never?
    ensures var items := [FieldItem(hidden), GroupItem(caption, None, [FieldItem(member)]), FieldItem(last)];
            DisplayFields.Flatten(items, None, 0) == Ok(([hidden, member, last], [Range(1, 2, caption, None)]))
    ensures Shown([hidden, member, last], {}) == [member, last]
  {
    var group := GroupItem(caption, None, [FieldItem(member)]);
    var items := [FieldItem(hidden), group, FieldItem(last)];
    assert items[1..] == [group, FieldItem(last)] && items[1..][1..] == [FieldItem(last)]
           && [FieldItem(last)][1..] == [];
    assert [FieldItem(member)][1..] == [];
    assert [member] + [] == [member] && [last] + [] == [last] && [member] + [last] == [member, last];
    assert [] + [Range(1, 2, caption, None)] + [] == [Range(1, 2, caption, None)];
    assert [hidden] + [member, last] == [hidden, member, last];
    assert DisplayFields.Flatten([], None, 2) == Ok(([], [])) && DisplayFields.Flatten([], None, 3) == Ok(([], []));
    assert DisplayFields.Flatten([FieldItem(member)], None, 1) == Ok(([member], []));
    assert DisplayFields.Flatten([FieldItem(last)], None, 2) == Ok(([last], []));
    assert DisplayFields.Flatten(items[1..], None, 1) == Ok(([member, last], [Range(1, 2, caption, None)]));
    assert [hidden, member, last][..2] == [hidden, member] && [hidden, member][..1] == [hidden] && [hidden][..0] == [];
    assert Shown([hidden], {}) == [];
    assert Shown([hidden, member], {}) == [member];
  }
}
