/** Bracket structure of display programs (keepkeylib/erc7730_compiler.py):
    opcodes 5/6 delimit groups and 7/8 iterations. */
module DisplayWord {
  import opened Wrappers
  import opened Program

  predicate Opens(opcode: nat) {
    opcode in {5, 7}
  }

  predicate Closes(opcode: nat) {
    opcode in {6, 8}
  }

  /** The openers not yet closed, outermost first; nothing when a closer does
      not fit the innermost one. */
  function OpenStack(ds: seq<Instruction>): Option<seq<nat>> {
    if ds == [] then Some([]) else AfterStep(OpenStack(ds[..|ds| - 1]), ds, |ds| - 1)
  }

  /** What instruction `pc` does to the open brackets in front of it. */
  function AfterStep(before: Option<seq<nat>>, ds: seq<Instruction>, pc: nat): Option<seq<nat>>
    requires pc < |ds|
  {
    match before
    case None => None
    case Some(open) =>
      if Opens(ds[pc].opcode) then Some(open + [pc])
      else if !Closes(ds[pc].opcode) then Some(open)
      else if open != [] && open[|open| - 1] < pc && ds[open[|open| - 1]].opcode + 1 == ds[pc].opcode then
        Some(open[..|open| - 1])
      else None
  }

  /** A properly nested word: every closer fits and nothing stays open. */
  predicate WellNested(ds: seq<Instruction>) {
    OpenStack(ds) == Some([])
  }

  /** `p` is closed by the instruction its last slot names, which names it back. */
  predicate Closed(ds: seq<Instruction>, p: nat) {
    && p < |ds| && Opens(ds[p].opcode)
    && p < ds[p].c < |ds| && ds[ds[p].c].opcode == ds[p].opcode + 1 && ds[ds[p].c].a == p
  }

  /** A closer names the opener that names it. */
  predicate ClosesBack(ds: seq<Instruction>, q: nat) {
    && q < |ds| && Closes(ds[q].opcode)
    && ds[q].a < q && ds[ds[q].a].opcode + 1 == ds[q].opcode && ds[ds[q].a].c == q
  }

  /** What holds while the program grows: `open` are the pending openers, the
      others are closed, and pairs do not cross. */
  ghost predicate Linked(ds: seq<Instruction>, open: seq<nat>) {
    && OpenStack(ds) == Some(open)
    && (forall i :: 0 <= i < |open| ==> open[i] < |ds| && Opens(ds[open[i]].opcode))
    && (forall i, j :: 0 <= i < j < |open| ==> open[i] < open[j])
    && (forall p: nat :: p < |ds| && Opens(ds[p].opcode) && p !in open ==> Closed(ds, p))
    && (forall q: nat :: q < |ds| && Closes(ds[q].opcode) ==> ClosesBack(ds, q) && ds[q].a !in open)
    && (forall p: nat, q: nat ::
          p < |ds| && Opens(ds[p].opcode) && p !in open && p < q < ds[p].c && Opens(ds[q].opcode) ==>
          q !in open && ds[q].c < ds[p].c)
  }

  lemma LinkedEmpty()
    ensures Linked([], [])
  {
  }

  lemma OpenStackAppend(ds: seq<Instruction>, i: Instruction)
    requires OpenStack(ds).Some?
    ensures Opens(i.opcode) ==> OpenStack(ds + [i]) == Some(OpenStack(ds).value + [|ds|])
    ensures !Opens(i.opcode) && !Closes(i.opcode) ==> OpenStack(ds + [i]) == OpenStack(ds)
  {
    hide OpenStack;
    OpenStackNext(ds, i);
  }

  lemma OpenStackNext(ds: seq<Instruction>, i: Instruction)
    ensures OpenStack(ds + [i]) == AfterStep(OpenStack(ds), ds + [i], |ds|)
  {
    hide AfterStep;
    assert (ds + [i])[..|ds|] == ds;
  }

  lemma LinkedNeutral(ds: seq<Instruction>, open: seq<nat>, i: Instruction)
    requires Linked(ds, open) && !Opens(i.opcode) && !Closes(i.opcode)
    ensures Linked(ds + [i], open)
  {
    OpenStackAppend(ds, i);
    var ds' := ds + [i];
    forall p: nat | p < |ds'| && Opens(ds'[p].opcode) && p !in open ensures Closed(ds', p) {
      assert Closed(ds, p);
    }
    forall q: nat | q < |ds'| && Closes(ds'[q].opcode) ensures ClosesBack(ds', q) && ds'[q].a !in open {
      assert ClosesBack(ds, q);
    }
  }

  lemma LinkedOpen(ds: seq<Instruction>, open: seq<nat>, i: Instruction)
    requires Linked(ds, open) && Opens(i.opcode)
    ensures Linked(ds + [i], open + [|ds|])
  {
    hide OpenStack;
    OpenStackAppend(ds, i);
    var ds', open' := ds + [i], open + [|ds|];
    forall p: nat | p < |ds'| && Opens(ds'[p].opcode) && p !in open' ensures p < |ds| && p !in open && Closed(ds', p) {
      StillOpen(open, |ds|, p);
      assert Closed(ds, p);
    }
    forall q: nat | q < |ds'| && Closes(ds'[q].opcode) ensures ClosesBack(ds', q) && ds'[q].a !in open' {
      assert ClosesBack(ds, q);
    }
  }

  lemma StillOpen(open: seq<nat>, pc: nat, p: nat)
    ensures p in open + [pc] <==> p in open || p == pc
  {
  }

  /** Only the opcodes matter for what is open. */
  lemma {:induction false} OpenStackOpcodes(ds: seq<Instruction>, es: seq<Instruction>)
    requires |ds| == |es| && forall i :: 0 <= i < |ds| ==> ds[i].opcode == es[i].opcode
    ensures OpenStack(ds) == OpenStack(es)
    decreases |ds|
  {
    if ds != [] {
      OpenStackOpcodes(ds[..|ds| - 1], es[..|es| - 1]);
    }
  }

  /** Appending a closer for the innermost opener and patching that opener. */
  function CloseTop(ds: seq<Instruction>, top: nat, b: nat): (r: seq<Instruction>)
    requires top < |ds|
    ensures |r| == |ds| + 1
  {
    (ds + [Instruction(ds[top].opcode + 1, top, b, 0xffff)])[top := ds[top].(c := |ds|)]
  }

  lemma OpenStackClose(ds: seq<Instruction>, open: seq<nat>, i: Instruction)
    requires OpenStack(ds) == Some(open) && open != []
    requires open[|open| - 1] < |ds| && Opens(ds[open[|open| - 1]].opcode)
             && i.opcode == ds[open[|open| - 1]].opcode + 1
    ensures OpenStack(ds + [i]) == Some(open[..|open| - 1])
  {
    hide OpenStack;
    OpenStackNext(ds, i);
  }

  lemma CloseTopStack(ds: seq<Instruction>, open: seq<nat>, b: nat)
    requires OpenStack(ds) == Some(open) && open != []
    requires open[|open| - 1] < |ds| && Opens(ds[open[|open| - 1]].opcode)
    ensures OpenStack(CloseTop(ds, open[|open| - 1], b)) == Some(open[..|open| - 1])
  {
    hide OpenStack;
    var top := open[|open| - 1];
    var appended := ds + [Instruction(ds[top].opcode + 1, top, b, 0xffff)];
    OpenStackClose(ds, open, Instruction(ds[top].opcode + 1, top, b, 0xffff));
    OpenStackOpcodes(appended, CloseTop(ds, top, b));
  }

  lemma OpenWithoutTop(ds: seq<Instruction>, open: seq<nat>, p: nat)
    requires Linked(ds, open) && open != []
    ensures p in open[..|open| - 1] <==> p in open && p != open[|open| - 1]
  {
  }

  lemma LinkedClose(ds: seq<Instruction>, open: seq<nat>, b: nat)
    requires Linked(ds, open) && open != []
    ensures Linked(CloseTop(ds, open[|open| - 1], b), open[..|open| - 1])
  {
    hide OpenStack, CloseTop, Closed, ClosesBack;
    var ds', open' := CloseTop(ds, open[|open| - 1], b), open[..|open| - 1];
    CloseTopStack(ds, open, b);
    CloseTopOpen(ds, open, b);
    forall p: nat | p < |ds'| && Opens(ds'[p].opcode) && p !in open' ensures Closed(ds', p) {
      CloseTopCloses(ds, open, b, p);
    }
    forall q: nat | q < |ds'| && Closes(ds'[q].opcode) ensures ClosesBack(ds', q) && ds'[q].a !in open' {
      CloseTopBack(ds, open, b, q);
    }
    CloseTopApart(ds, open, b);
  }

  lemma CloseTopOpen(ds: seq<Instruction>, open: seq<nat>, b: nat)
    requires Linked(ds, open) && open != []
    ensures var ds', open' := CloseTop(ds, open[|open| - 1], b), open[..|open| - 1];
            && (forall i :: 0 <= i < |open'| ==> open'[i] < |ds'| && Opens(ds'[open'[i]].opcode))
            && (forall i, j :: 0 <= i < j < |open'| ==> open'[i] < open'[j])
  {
    hide OpenStack;
  }

  lemma CloseTopCloses(ds: seq<Instruction>, open: seq<nat>, b: nat, p: nat)
    requires Linked(ds, open) && open != []
    requires var ds' := CloseTop(ds, open[|open| - 1], b);
             p < |ds'| && Opens(ds'[p].opcode) && p !in open[..|open| - 1]
    ensures Closed(CloseTop(ds, open[|open| - 1], b), p)
  {
    hide OpenStack;
    OpenWithoutTop(ds, open, p);
    if p != open[|open| - 1] {
      assert Closed(ds, p);
    }
  }

  lemma CloseTopBack(ds: seq<Instruction>, open: seq<nat>, b: nat, q: nat)
    requires Linked(ds, open) && open != []
    requires var ds' := CloseTop(ds, open[|open| - 1], b); q < |ds'| && Closes(ds'[q].opcode)
    ensures var ds' := CloseTop(ds, open[|open| - 1], b);
            ClosesBack(ds', q) && ds'[q].a !in open[..|open| - 1]
  {
    hide OpenStack;
    if q < |ds| {
      assert ClosesBack(ds, q);
      OpenWithoutTop(ds, open, ds[q].a);
    } else {
      OpenWithoutTop(ds, open, open[|open| - 1]);
    }
  }

  lemma CloseTopApart(ds: seq<Instruction>, open: seq<nat>, b: nat)
    requires Linked(ds, open) && open != []
    ensures var ds', open' := CloseTop(ds, open[|open| - 1], b), open[..|open| - 1];
            forall p: nat, q: nat ::
              p < |ds'| && Opens(ds'[p].opcode) && p !in open' && p < q < ds'[p].c && Opens(ds'[q].opcode) ==>
              q !in open' && ds'[q].c < ds'[p].c
  {
    var top := open[|open| - 1];
    var ds', open' := CloseTop(ds, top, b), open[..|open| - 1];
    forall p: nat, q: nat | p < |ds'| && Opens(ds'[p].opcode) && p !in open' && p < q < ds'[p].c && Opens(ds'[q].opcode)
      ensures q !in open' && ds'[q].c < ds'[p].c
    {
      OpenWithoutTop(ds, open, p);
      OpenWithoutTop(ds, open, q);
      if p == top {
        assert q !in open;
        assert Closed(ds, q);
      } else {
        assert p !in open;
        assert Closed(ds, p);
      }
    }
  }

  // ------------------------------------------------------------ consequences

  /** Openers and closers of one bracket kind point at each other. */
  ghost predicate Paired(ds: seq<Instruction>, open: nat, close: nat) {
    && (forall p :: 0 <= p < |ds| && ds[p].opcode == open ==>
          p < ds[p].c < |ds| && ds[ds[p].c].opcode == close && ds[ds[p].c].a == p)
    && (forall q :: 0 <= q < |ds| && ds[q].opcode == close ==>
          ds[q].a < q && ds[ds[q].a].opcode == open && ds[ds[q].a].c == q)
  }

  /** Of two brackets, one lies inside the other or they are apart. */
  ghost predicate NonCrossing(ds: seq<Instruction>) {
    forall p: nat, q: nat ::
      p < |ds| && q < |ds| && Opens(ds[p].opcode) && Opens(ds[q].opcode) && p < q < ds[p].c ==> ds[q].c < ds[p].c
  }

  /** Once nothing is open, the word is nested, all links hold both ways, and
      no two brackets cross. */
  lemma LinkedWord(ds: seq<Instruction>)
    requires Linked(ds, [])
    ensures WellNested(ds) && Paired(ds, 5, 6) && Paired(ds, 7, 8) && NonCrossing(ds)
  {
    forall p: nat | p < |ds| && Opens(ds[p].opcode) ensures Closed(ds, p) {
      assert p !in [];
    }
    forall q: nat | q < |ds| && Closes(ds[q].opcode) ensures ClosesBack(ds, q) {
    }
  }

  // ------------------------------------------------------------------- depth

  /** How many brackets are open in front of `pc`. */
  function DepthAt(ds: seq<Instruction>, pc: nat): nat
    requires pc <= |ds|
  {
    match OpenStack(ds[..pc])
    case Some(open) => |open|
    case None => 0
  }

  lemma {:induction false} OpenStackPrefix(ds: seq<Instruction>, pc: nat)
    requires OpenStack(ds).Some? && pc <= |ds|
    ensures OpenStack(ds[..pc]).Some?
    decreases |ds|
  {
    if pc == |ds| {
      assert ds[..pc] == ds;
    } else {
      OpenStackPrefix(ds[..|ds| - 1], pc);
      assert ds[..|ds| - 1][..pc] == ds[..pc];
    }
  }

  lemma DepthNext(ds: seq<Instruction>, pc: nat)
    requires OpenStack(ds).Some? && pc < |ds|
    ensures DepthAt(ds, pc + 1) ==
            DepthAt(ds, pc) + if Opens(ds[pc].opcode) then 1 else if Closes(ds[pc].opcode) then -1 else 0
  {
    OpenStackPrefix(ds, pc);
    OpenStackPrefix(ds, pc + 1);
    assert ds[..pc + 1][..pc] == ds[..pc];
  }

  lemma {:induction false} DepthAtMost(ds: seq<Instruction>, pc: nat)
    requires OpenStack(ds).Some? && pc <= |ds|
    ensures DepthAt(ds, pc) <= pc
    decreases pc
  {
    if pc == 0 {
      assert ds[..0] == [];
    } else {
      DepthAtMost(ds, pc - 1);
      DepthNext(ds, pc - 1);
    }
  }

  /** The greatest depth in front of the first `n` instructions or behind them. */
  function Deepest(ds: seq<Instruction>, n: nat): nat
    requires n <= |ds|
  {
    if n == 0 then DepthAt(ds, 0)
    else
      var before, here := Deepest(ds, n - 1), DepthAt(ds, n);
      if here > before then here else before
  }

  /** The counting loop at the end of `compile`: on a nested word the depth
      returns to zero and the recorded maximum is reached and never exceeded. */
  method MaxDepth(ds: seq<Instruction>) returns (depth: int, maximum: nat)
    requires OpenStack(ds).Some?
    ensures depth == |OpenStack(ds).value|
    ensures maximum == Deepest(ds, |ds|)
    ensures forall pc :: 0 <= pc <= |ds| ==> DepthAt(ds, pc) <= maximum
    ensures exists pc :: 0 <= pc <= |ds| && DepthAt(ds, pc) == maximum
  {
    depth, maximum := 0, 0;
    assert ds[..0] == [];
    assert DepthAt(ds, 0) == 0;
    for i := 0 to |ds|
      invariant depth == DepthAt(ds, i) && maximum == Deepest(ds, i)
      invariant forall pc :: 0 <= pc <= i ==> DepthAt(ds, pc) <= maximum
      invariant exists pc :: 0 <= pc <= i && DepthAt(ds, pc) == maximum
    {
      DepthNext(ds, i);
      if Opens(ds[i].opcode) {
        depth := depth + 1;
        if depth > maximum {
          maximum := depth;
        }
      } else if Closes(ds[i].opcode) {
        depth := depth - 1;
      }
    }
    assert ds[..|ds|] == ds;
  }
}
