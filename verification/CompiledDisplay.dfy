/** What the compiled display program says about a descriptor's fields and
    groups (`CalldataCompiler.compile`, keepkeylib/erc7730_compiler.py), and
    that later instructions do not take it back. */
module CompiledDisplay {
  import opened Wrappers
  import opened Text
  import opened AbiTypes
  import opened AbiPaths
  import opened Program
  import opened DisplayWord
  import opened DisplayFields
  import opened Formatters
  import opened ProgramPools
  import opened ProgramBuilder
  import opened GroupScope

  /** The tables instructions point into. */
  datatype Built = Built(pools: Pools, formatters: seq<Formatter>, conditions: seq<Condition>)

  ghost predicate BuiltGrows(b: Built, d: Built) {
    Grows(b.pools, d.pools) && b.formatters <= d.formatters && b.conditions <= d.conditions
  }

  // ------------------------------------------------------------------- fields

  /** What a field shows: a constant, or the value at its path. */
  function ValueRequest(root: AbiType, f: Field): Result<Request> {
    match f.value
    case Some(constant) => ConstantLiteral(constant)
    case None =>
      if !Given(f.path) then Raised
      else
        var path :- ResolvePath(root, f.path.value);
        Ok(PathRequest(1, path))
  }

  /** The steps the field's path is made of; a constant or a container has none
      that the tree is walked with. */
  function PathOf(root: AbiType, f: Field): Path {
    match ValueRequest(root, f)
    case Ok(PathRequest(_, path)) => path
    case _ => LiteralPath(0)
  }

  function StepsOf(root: AbiType, f: Field): seq<Step> {
    var path := PathOf(root, f);
    if path.AbiPath? then path.steps else []
  }

  function NodeOf(root: AbiType, f: Field): AbiType {
    match PathNode(root, PathOf(root, f))
    case Ok(node) => node
    case Raised => root
  }

  /** The formatter a field asks for. */
  function PlanOf(root: AbiType, f: Field): Result<Plan> {
    var value :- ValueRequest(root, f);
    var (kind, requests) :- Requests(root, PathOf(root, f), f);
    Ok(Plan(kind, [value] + requests))
  }

  // --------------------------------------------------------------- iterations

  predicate HasArrayPart(path: string) {
    StartsWith(path, ".[]") || (path != "" && HasArrayPart(path[1..]))
  }

  /** The group's path runs over an array. */
  predicate IteratesGroup(path: Option<string>) {
    Given(path) && HasArrayPart(path.value)
  }

  /** How many array steps an iterating group takes over from its fields. */
  function TakenOver(root: AbiType, r: Range): nat {
    if !IteratesGroup(r.path) then 0
    else
      match ResolvePath(root, r.path.value)
      case Ok(AbiPath(steps)) => Iterations(steps)
      case _ => 0
  }

  function TakenByAll(root: AbiType, ranges: seq<Range>, gs: seq<nat>): nat
    requires AreGroups(ranges, gs)
  {
    if gs == [] then 0
    else TakenByAll(root, ranges, gs[..|gs| - 1]) + TakenOver(root, ranges[gs[|gs| - 1]])
  }

  function CountArrayParts(parts: seq<string>): nat {
    if parts == [] then 0
    else (if parts[0] == "[]" then 1 else 0) + CountArrayParts(parts[1..])
  }

  /** What the groups around field `k` that started earlier took over. */
  function TakenOutside(ranges: seq<Range>, n: nat, k: nat): nat
    requires n <= |ranges|
  {
    if n == 0 then 0
    else
      var r := ranges[n - 1];
      TakenOutside(ranges, n - 1, k) +
      if r.start < k < r.end && IteratesGroup(r.path) then CountArrayParts(Split(r.path.value, '.')) else 0
  }

  /** `controlled_arrays` of field `k`. */
  function Controlled(root: AbiType, ranges: seq<Range>, k: nat): nat {
    TakenByAll(root, ranges, StartingAt(ranges, |ranges|, k)) + TakenOutside(ranges, |ranges|, k)
  }

  /** The positions of the array steps. */
  function ArrayPositions(steps: seq<Step>): (r: seq<nat>)
    ensures forall i :: 0 <= i < |r| ==> r[i] < |steps| && steps[r[i]].Iterate?
    ensures forall p :: 0 <= p < |steps| && steps[p].Iterate? ==> p in r
    ensures forall i, j :: 0 <= i < j < |r| ==> r[i] < r[j]
  {
    if steps == [] then []
    else
      var n := |steps| - 1;
      ArrayPositions(steps[..n]) + if steps[n].Iterate? then [n] else []
  }

  /** The positions of the arrays field `k` iterates itself. */
  function OwnPositions(root: AbiType, ranges: seq<Range>, f: Field, k: nat): (r: seq<nat>)
    ensures forall i :: 0 <= i < |r| ==> r[i] < |StepsOf(root, f)|
  {
    var all, taken := ArrayPositions(StepsOf(root, f)), Controlled(root, ranges, k);
    if taken <= |all| then all[taken..] else []
  }

  lemma {:induction false} PositionsAre(steps: seq<Step>, i: nat)
    requires i < |steps| && steps[i].Iterate?
    ensures Iterations(steps[..i]) < |ArrayPositions(steps)|
    ensures ArrayPositions(steps)[Iterations(steps[..i])] == i
    ensures |ArrayPositions(steps)| == Iterations(steps)
    decreases |steps|
  {
    var n := |steps| - 1;
    PositionsCount(steps);
    if i < n {
      PositionsAre(steps[..n], i);
      assert steps[..n][..i] == steps[..i];
    } else {
      PositionsCount(steps[..n]);
    }
  }

  lemma {:induction false} PositionsCount(steps: seq<Step>)
    ensures |ArrayPositions(steps)| == Iterations(steps)
    decreases |steps|
  {
    if steps != [] {
      PositionsCount(steps[..|steps| - 1]);
    }
  }

  /** A field iterates an array itself exactly when the groups around it took over
      no more arrays than stand in front of that one on its path. */
  lemma OwnIff(root: AbiType, ranges: seq<Range>, f: Field, k: nat, i: nat)
    requires i < |StepsOf(root, f)| && StepsOf(root, f)[i].Iterate?
    ensures i in OwnPositions(root, ranges, f, k) <==>
            Controlled(root, ranges, k) <= Iterations(StepsOf(root, f)[..i])
  {
    hide StepsOf, Controlled;
    var steps, taken := StepsOf(root, f), Controlled(root, ranges, k);
    var all := ArrayPositions(steps);
    PositionsAre(steps, i);
    PositionsAscend(steps);
    var rank := Iterations(steps[..i]);
    if taken <= rank {
      assert all[taken..][rank - taken] == i;
    } else if taken <= |all| {
      forall j | 0 <= j < |all[taken..]| ensures all[taken..][j] != i {
        assert all[taken + j] > all[rank];
      }
    }
  }

  lemma PositionsAscend(steps: seq<Step>)
    ensures forall i, j :: 0 <= i < j < |ArrayPositions(steps)| ==> ArrayPositions(steps)[i] < ArrayPositions(steps)[j]
  {
  }

  // -------------------------------------------------- what an instruction says

  /** Condition index `c` is what field `k`'s visibility asks for its value. */
  ghost predicate ConditionOf(b: Built, root: AbiType, f: Field, k: nat, c: nat) {
    && k < |b.formatters| && b.formatters[k].arguments != []
    && ConditionFor(b.pools, b.conditions, c, f.visible, NodeOf(root, f), b.formatters[k].arguments[0].index)
  }

  /** An optional text: its index, or the absent mark. */
  predicate TextOrAbsent(p: Pools, i: nat, text: Option<string>) {
    if Given(text) then IsString(p, i, text.value) else i == ABSENT
  }

  /** Iteration `n` of the field at `pc` opens over its array, carries the
      field's condition, and closes behind the field in the right order; the
      outermost closer carries the separator. */
  ghost predicate LoopEmitted(b: Built, root: AbiType, f: Field, k: nat, own: seq<nat>, ds: seq<Instruction>, pc: nat,
      n: nat)
    requires n < |own| <= pc && pc + |own| < |ds|
  {
    var i, close := ds[pc - |own| + n], ds[pc + |own| - n];
    && i.opcode == 7 && i.c == pc + |own| - n && ConditionOf(b, root, f, k, i.b)
    && own[n] < |StepsOf(root, f)|
    && i.a < |b.pools.paths| && b.pools.paths[i.a] == AbiPath(StepsOf(root, f)[..own[n] + 1])
    && close.opcode == 8 && close.a == pc - |own| + n && close.c == ABSENT
    && TextOrAbsent(b.pools, close.b, if n == 0 then f.separator else None)
  }

  /** Field `k`'s instruction and the iterations of its own around it. */
  ghost predicate FieldEmitted(b: Built, root: AbiType, f: Field, k: nat, own: seq<nat>, ds: seq<Instruction>, pc: nat)
  {
    && |own| <= pc && pc + |own| < |ds|
    && ds[pc].opcode == 4 && IsString(b.pools, ds[pc].a, f.title) && ds[pc].b == k
    && (if own == [] then ConditionOf(b, root, f, k, ds[pc].c) else ds[pc].c == ABSENT)
    && forall n :: 0 <= n < |own| ==> LoopEmitted(b, root, f, k, own, ds, pc, n)
  }

  /** A group's opener: its caption, and in front the iteration over its path. */
  ghost predicate GroupEmitted(b: Built, root: AbiType, r: Range, ds: seq<Instruction>, begin: nat) {
    && begin < |ds| && ds[begin].opcode == 5 && ds[begin].b == ABSENT && TextOrAbsent(b.pools, ds[begin].a, r.caption)
    && (IteratesGroup(r.path) ==>
          && 0 < begin && ds[begin - 1].opcode == 7 && ds[begin - 1].b == ABSENT
          && ds[begin - 1].a < |b.pools.paths| && ResolvePath(root, r.path.value) == Ok(b.pools.paths[ds[begin - 1].a]))
  }

  ghost predicate AllFieldsEmitted(b: Built, root: AbiType, ranges: seq<Range>, fields: seq<Field>,
      ds: seq<Instruction>, pcs: seq<nat>)
  {
    && |pcs| <= |fields|
    && forall j :: 0 <= j < |pcs| ==>
         FieldEmitted(b, root, fields[j], j, OwnPositions(root, ranges, fields[j], j), ds, pcs[j])
  }

  ghost predicate AllGroupsEmitted(b: Built, root: AbiType, ranges: seq<Range>, ds: seq<Instruction>,
      begins: map<nat, nat>)
  {
    forall g :: g in begins ==> g < |ranges| && GroupEmitted(b, root, ranges[g], ds, begins[g])
  }

  // -------------------------------------------------------------- persistence

  /** Nothing changed but the closing slots of brackets still open, and there
      is more at the end. */
  ghost predicate Extends(ds: seq<Instruction>, es: seq<Instruction>) {
    && |ds| <= |es|
    && forall i :: 0 <= i < |ds| ==>
         es[i] == ds[i] || (Opens(ds[i].opcode) && !Closed(ds, i) && es[i] == ds[i].(c := es[i].c))
  }

  lemma ExtendsTransitive(ds: seq<Instruction>, es: seq<Instruction>, fs: seq<Instruction>)
    requires Extends(ds, es) && Extends(es, fs)
    ensures Extends(ds, fs)
  {
    forall i | 0 <= i < |ds|
      ensures fs[i] == ds[i] || (Opens(ds[i].opcode) && !Closed(ds, i) && fs[i] == ds[i].(c := fs[i].c))
    {
      if Closed(ds, i) {
        assert es[ds[i].c] == ds[ds[i].c];
        assert Closed(es, i);
      }
    }
  }

  lemma ExtendsClose(ds: seq<Instruction>, open: seq<nat>, b: nat)
    requires Linked(ds, open) && open != []
    ensures Extends(ds, CloseTop(ds, open[|open| - 1], b))
  {
    OpenNotClosed(ds, open, open[|open| - 1]);
  }

  lemma LoopPersists(b: Built, d: Built, root: AbiType, f: Field, k: nat, own: seq<nat>,
      ds: seq<Instruction>, es: seq<Instruction>, pc: nat, n: nat)
    requires BuiltGrows(b, d) && Extends(ds, es)
    requires n < |own| <= pc && pc + |own| < |ds| && LoopEmitted(b, root, f, k, own, ds, pc, n)
    ensures LoopEmitted(d, root, f, k, own, es, pc, n)
  {
    hide ConditionFor, StepsOf, NodeOf;
    var at := pc - |own| + n;
    assert Closed(ds, at);
    ConditionForGrows(b.pools, d.pools, b.conditions, d.conditions, ds[at].b, f.visible, NodeOf(root, f),
                      b.formatters[k].arguments[0].index);
  }

  lemma FieldPersists(b: Built, d: Built, root: AbiType, f: Field, k: nat, own: seq<nat>,
      ds: seq<Instruction>, es: seq<Instruction>, pc: nat)
    requires BuiltGrows(b, d) && Extends(ds, es) && FieldEmitted(b, root, f, k, own, ds, pc)
    ensures FieldEmitted(d, root, f, k, own, es, pc)
  {
    hide ConditionFor, LoopEmitted, StepsOf, NodeOf;
    if own == [] {
      ConditionForGrows(b.pools, d.pools, b.conditions, d.conditions, ds[pc].c, f.visible, NodeOf(root, f),
                        b.formatters[k].arguments[0].index);
    }
    forall n | 0 <= n < |own| ensures LoopEmitted(d, root, f, k, own, es, pc, n) {
      LoopPersists(b, d, root, f, k, own, ds, es, pc, n);
    }
  }

  lemma FieldsPersist(b: Built, d: Built, root: AbiType, ranges: seq<Range>, fields: seq<Field>,
      ds: seq<Instruction>, es: seq<Instruction>, pcs: seq<nat>)
    requires BuiltGrows(b, d) && Extends(ds, es) && AllFieldsEmitted(b, root, ranges, fields, ds, pcs)
    ensures AllFieldsEmitted(d, root, ranges, fields, es, pcs)
  {
    hide FieldEmitted, OwnPositions;
    forall j | 0 <= j < |pcs|
      ensures FieldEmitted(d, root, fields[j], j, OwnPositions(root, ranges, fields[j], j), es, pcs[j])
    {
      FieldPersists(b, d, root, fields[j], j, OwnPositions(root, ranges, fields[j], j), ds, es, pcs[j]);
    }
  }

  lemma GroupsPersist(b: Built, d: Built, root: AbiType, ranges: seq<Range>,
      ds: seq<Instruction>, es: seq<Instruction>, begins: map<nat, nat>)
    requires BuiltGrows(b, d) && Extends(ds, es) && AllGroupsEmitted(b, root, ranges, ds, begins)
    ensures AllGroupsEmitted(d, root, ranges, es, begins)
  {
    hide ResolvePath, IteratesGroup;
    forall g | g in begins ensures GroupEmitted(d, root, ranges[g], es, begins[g]) {
      assert GroupEmitted(b, root, ranges[g], ds, begins[g]);
    }
  }

  // -------------------------------------------------------------- the intent

  /** An interpolated intent in pieces: shown text, or the value of a path. */
  datatype Token = TextToken(text: string) | ValueToken(path: string)

  /** `normalized_path`. */
  function Normalized(path: string): string {
    if StartsWith(path, "#.") then path[2..] else path
  }

  predicate ShowsPath(f: Field, path: string) {
    f.visible.Always? && f.path.Some? && Normalized(f.path.value) == Normalized(path)
  }

  /** The last always-visible field with this path. */
  function FieldAt(fields: seq<Field>, path: string): (r: Result<nat>)
    ensures r.Ok? ==> r.value < |fields| && ShowsPath(fields[r.value], path)
    ensures r.Ok? ==> forall j :: r.value < j < |fields| ==> !ShowsPath(fields[j], path)
    ensures r.Raised? ==> forall j :: 0 <= j < |fields| ==> !ShowsPath(fields[j], path)
  {
    if fields == [] then Raised
    else if ShowsPath(fields[|fields| - 1], path) then Ok(|fields| - 1)
    else FieldAt(fields[..|fields| - 1], path)
  }

  predicate TokenEmitted(p: Pools, fields: seq<Field>, t: Token, i: Instruction) {
    match t
    case TextToken(text) => i == Instruction(2, i.a, ABSENT, ABSENT) && IsString(p, i.a, text)
    case ValueToken(path) => i == Instruction(3, i.a, ABSENT, ABSENT) && FieldAt(fields, path) == Ok(i.a)
  }

  /** The intent, then the pieces of the interpolated intent. */
  ghost predicate IntentEmitted(p: Pools, fields: seq<Field>, intent: string, tokens: seq<Token>, ds: seq<Instruction>)
  {
    && |tokens| < |ds| && ds[0] == Instruction(1, ds[0].a, ABSENT, ABSENT) && IsString(p, ds[0].a, intent)
    && forall n :: 0 <= n < |tokens| ==> TokenEmitted(p, fields, tokens[n], ds[n + 1])
  }

  lemma IntentPersists(p: Pools, q: Pools, fields: seq<Field>, intent: string, tokens: seq<Token>,
      ds: seq<Instruction>, es: seq<Instruction>)
    requires Grows(p, q) && Extends(ds, es) && IntentEmitted(p, fields, intent, tokens, ds)
    ensures IntentEmitted(q, fields, intent, tokens, es)
  {
    hide FieldAt;
    assert es[0] == ds[0];
    forall n | 0 <= n < |tokens| ensures TokenEmitted(q, fields, tokens[n], es[n + 1]) {
      assert TokenEmitted(p, fields, tokens[n], ds[n + 1]);
      assert es[n + 1] == ds[n + 1];
    }
  }
}
