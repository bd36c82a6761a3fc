/** What a request takes from the tables while a program is compiled
    (keepkeylib/erc7730_compiler.py): the paths it names, the literals it
    appends, and the texts it needs. */
module Demands {
  import opened Bytes
  import opened AbiPaths
  import opened Program
  import opened Formatters
  import opened ProgramPools
  import Utf8

  predicate HasText(strings: seq<bytes>, text: string) {
    Utf8.Encode(text) in strings
  }

  /** The texts a request needs are listed. */
  predicate TextsIn(strings: seq<bytes>, r: Request) {
    match r
    case TextConstantRequest(_, text) => HasText(strings, text)
    case StringRequest(_, text) => HasText(strings, text)
    case MapRequest(_, entries) => forall i :: 0 <= i < |entries| ==> HasText(strings, entries[i].1)
    case _ => true
  }

  predicate AllTextsIn(strings: seq<bytes>, rs: seq<Request>) {
    forall i :: 0 <= i < |rs| ==> TextsIn(strings, rs[i])
  }

  /** The paths named, how many paths to literals are new, and how many literals
      are appended. */
  datatype Demand = Demand(named: set<Path>, constants: nat, literals: nat)

  const NOTHING: Demand := Demand({}, 0, 0)

  function Plus(d: Demand, e: Demand): Demand {
    Demand(d.named + e.named, d.constants + e.constants, d.literals + e.literals)
  }

  function DemandOf(r: Request): Demand {
    match r
    case PathRequest(_, path) => Demand({path}, 0, 0)
    case ConstantRequest(_, _) => Demand({}, 1, 1)
    case TextConstantRequest(_, _) => Demand({}, 1, 1)
    case LiteralRequest(_, _) => Demand({}, 0, 1)
    case StringRequest(_, _) => NOTHING
    case SetRequest(_, members) => Demand({}, 0, |members| + 1)
    case MapRequest(_, entries) => Demand({}, 0, |entries| + 1)
  }

  function DemandOfAll(rs: seq<Request>): Demand {
    if rs == [] then NOTHING else Plus(DemandOfAll(rs[..|rs| - 1]), DemandOf(rs[|rs| - 1]))
  }

  /** The literals of a request can be encoded. */
  predicate RequestFits(r: Request) {
    match r
    case ConstantRequest(_, l) => LiteralFits(l)
    case LiteralRequest(_, l) => LiteralFits(l)
    case SetRequest(_, members) => LiteralsFit(members) && IsU16(2 + 2 * |members|)
    case MapRequest(_, entries) => LiteralsFit(Keys(entries)) && IsU16(2 + 4 * |entries|)
    case _ => true
  }

  predicate LiteralsFit(ls: seq<Literal>) {
    forall i :: 0 <= i < |ls| ==> LiteralFits(ls[i])
  }

  predicate RequestsFit(rs: seq<Request>) {
    forall i :: 0 <= i < |rs| ==> RequestFits(rs[i])
  }

  // ------------------------------------------------------------------ what was taken

  function NamedIn(paths: seq<Path>): set<Path> {
    set p | p in paths && !p.LiteralPath?
  }

  function ConstantsIn(paths: seq<Path>): nat {
    if paths == [] then 0
    else ConstantsIn(paths[..|paths| - 1]) + if paths[|paths| - 1].LiteralPath? then 1 else 0
  }

  /** The tables grew by exactly the demand. */
  ghost predicate Took(p: Pools, q: Pools, d: Demand) {
    && NamedIn(q.paths) == NamedIn(p.paths) + d.named
    && ConstantsIn(q.paths) == ConstantsIn(p.paths) + d.constants
    && |q.literals| == |p.literals| + d.literals
  }

  lemma PlusNothing(d: Demand)
    ensures Plus(NOTHING, d) == d == Plus(d, NOTHING)
  {
    assert {} + d.named == d.named == d.named + {};
  }

  lemma TookNothing(p: Pools)
    ensures Took(p, p, NOTHING)
  {
  }

  lemma TookBoth(p: Pools, q: Pools, r: Pools, d: Demand, e: Demand)
    requires Took(p, q, d) && Took(q, r, e)
    ensures Took(p, r, Plus(d, e))
  {
  }

  lemma TookLiterals(p: Pools, ls: seq<Literal>)
    ensures Took(p, p.(literals := p.literals + ls), Demand({}, 0, |ls|))
  {
  }

  lemma TookPath(p: Pools, path: Path)
    requires path !in p.paths
    ensures Took(p, p.(paths := p.paths + [path]), if path.LiteralPath? then Demand({}, 1, 0) else Demand({path}, 0, 0))
  {
    var paths := p.paths + [path];
    assert paths[..|paths| - 1] == p.paths;
    assert forall x :: x in paths <==> x in p.paths || x == path;
  }

  lemma TookKnown(p: Pools, path: Path)
    requires path in p.paths && !path.LiteralPath?
    ensures Took(p, p, Demand({path}, 0, 0))
  {
  }

  /** Distinct paths are those named and those to literals. */
  lemma {:induction false} PathsCounted(paths: seq<Path>)
    requires forall i, j :: 0 <= i < j < |paths| ==> paths[i] != paths[j]
    ensures |paths| == |NamedIn(paths)| + ConstantsIn(paths)
    decreases |paths|
  {
    if paths == [] {
      assert NamedIn(paths) == {};
    } else {
      var n := |paths| - 1;
      var last := paths[n];
      PathsCounted(paths[..n]);
      assert paths == paths[..n] + [last];
      assert last !in paths[..n];
      if last.LiteralPath? {
        assert NamedIn(paths) == NamedIn(paths[..n]);
      } else {
        assert NamedIn(paths) == NamedIn(paths[..n]) + {last};
      }
    }
  }

  lemma {:induction false} DemandOfMore(rs: seq<Request>, n: nat)
    requires n < |rs|
    ensures DemandOfAll(rs[..n + 1]) == Plus(DemandOfAll(rs[..n]), DemandOf(rs[n]))
  {
    assert rs[..n + 1][..n] == rs[..n];
  }

  lemma {:induction false} DemandOfPrefix(rs: seq<Request>, n: nat)
    requires n <= |rs|
    ensures DemandOfAll(rs[..n]).literals <= DemandOfAll(rs).literals
    decreases |rs| - n
  {
    if n < |rs| {
      DemandOfMore(rs, n);
      DemandOfPrefix(rs, n + 1);
    } else {
      assert rs[..n] == rs;
    }
  }

  lemma PlusAssociates(a: Demand, b: Demand, c: Demand)
    ensures Plus(a, Plus(b, c)) == Plus(Plus(a, b), c)
  {
    assert a.named + (b.named + c.named) == (a.named + b.named) + c.named;
  }

  /** The first request apart. */
  lemma {:induction false} DemandOfFirst(r: Request, rs: seq<Request>)
    ensures DemandOfAll([r] + rs) == Plus(DemandOf(r), DemandOfAll(rs))
  {
    hide Plus, DemandOf;
    var all := [r] + rs;
    if rs == [] {
      assert all[..0] == [] && all == [r];
      PlusNothing(DemandOf(r));
    } else {
      var n := |rs| - 1;
      assert all[..n + 1] == [r] + rs[..n];
      DemandOfFirst(r, rs[..n]);
      PlusAssociates(DemandOf(r), DemandOfAll(rs[..n]), DemandOf(rs[n]));
    }
  }
}
