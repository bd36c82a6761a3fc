/** The string, path and literal tables while a program is compiled
    (keepkeylib/erc7730_compiler.py): what an argument's indexes stand for, and
    that it goes on standing for it as the tables grow. */
module ProgramPools {
  import opened Wrappers
  import opened Bytes
  import opened AbiPaths
  import opened Program
  import opened Formatters
  import Utf8

  /** The tables an argument can point into. */
  datatype Pools = Pools(strings: seq<bytes>, paths: seq<Path>, literals: seq<Literal>)

  predicate IsString(p: Pools, i: nat, text: string) {
    i < |p.strings| && p.strings[i] == Utf8.Encode(text)
  }

  predicate IsLiteral(p: Pools, i: nat, l: Literal) {
    i < |p.literals| && p.literals[i] == l
  }

  /** Literal `i` is text constant `text`, by its string index. */
  predicate IsTextLiteral(p: Pools, i: nat, text: string) {
    && i < |p.literals| && p.literals[i].kind == 4 && |p.literals[i].value| == 2
    && ReadU16(p.literals[i].value, 0).Ok? && IsString(p, ReadU16(p.literals[i].value, 0).value, text)
  }

  /** Literal `i` lists the literals in front of it, which are `members`. */
  ghost predicate IsSet(p: Pools, i: nat, members: seq<Literal>) {
    && |members| <= i < |p.literals| && p.literals[i].kind == 9
    && |p.literals[i].value| == 2 + 2 * |members|
    && ReadU16(p.literals[i].value, 0) == Ok(|members|)
    && forall k :: 0 <= k < |members| ==>
         p.literals[i - |members| + k] == members[k] && ReadU16(p.literals[i].value, 2 + 2 * k) == Ok(i - |members| + k)
  }

  /** Entry `k` of the map at literal `i`: its key literal and its label. */
  predicate IsEntry(p: Pools, i: nat, n: nat, k: nat, entry: (Literal, string))
    requires n <= i < |p.literals| && k < n
  {
    && p.literals[i - n + k] == entry.0
    && ReadU16(p.literals[i].value, 2 + 4 * k) == Ok(i - n + k)
    && ReadU16(p.literals[i].value, 4 + 4 * k).Ok?
    && IsString(p, ReadU16(p.literals[i].value, 4 + 4 * k).value, entry.1)
  }

  ghost predicate IsMap(p: Pools, i: nat, entries: seq<(Literal, string)>) {
    && |entries| <= i < |p.literals| && p.literals[i].kind == 8
    && |p.literals[i].value| == 2 + 4 * |entries|
    && ReadU16(p.literals[i].value, 0) == Ok(|entries|)
    && forall k :: 0 <= k < |entries| ==> IsEntry(p, i, |entries|, k, entries[k])
  }

  /** The argument stands for what was requested. */
  ghost predicate Denotes(p: Pools, a: Argument, r: Request) {
    && a.role == r.role
    && match r
       case PathRequest(_, path) => a.source == 1 && a.index < |p.paths| && p.paths[a.index] == path
       case ConstantRequest(_, l) =>
         a.source == 1 && a.index < |p.paths| && p.paths[a.index].LiteralPath?
         && IsLiteral(p, p.paths[a.index].literal, l)
       case TextConstantRequest(_, text) =>
         a.source == 1 && a.index < |p.paths| && p.paths[a.index].LiteralPath?
         && IsTextLiteral(p, p.paths[a.index].literal, text)
       case LiteralRequest(_, l) => a.source == 2 && IsLiteral(p, a.index, l)
       case StringRequest(_, text) => a.source == 3 && IsString(p, a.index, text)
       case SetRequest(_, members) => a.source == 2 && IsSet(p, a.index, members)
       case MapRequest(_, entries) => a.source == 2 && IsMap(p, a.index, entries)
  }

  ghost predicate AllDenote(p: Pools, args: seq<Argument>, rs: seq<Request>) {
    |args| == |rs| && forall i :: 0 <= i < |args| ==> Denotes(p, args[i], rs[i])
  }

  /** Tables only grow at their ends. */
  ghost predicate Grows(p: Pools, q: Pools) {
    p.strings == q.strings && p.paths <= q.paths && p.literals <= q.literals
  }

  lemma DenotesGrows(p: Pools, q: Pools, a: Argument, r: Request)
    requires Grows(p, q) && Denotes(p, a, r)
    ensures Denotes(q, a, r)
  {
    match r
    case MapRequest(_, entries) =>
      forall k | 0 <= k < |entries| ensures IsEntry(q, a.index, |entries|, k, entries[k]) {
        assert IsEntry(p, a.index, |entries|, k, entries[k]);
      }
    case _ =>
  }

  lemma AllDenoteGrows(p: Pools, q: Pools, args: seq<Argument>, rs: seq<Request>)
    requires Grows(p, q) && AllDenote(p, args, rs)
    ensures AllDenote(q, args, rs)
  {
    forall i | 0 <= i < |args| ensures Denotes(q, args[i], rs[i]) {
      DenotesGrows(p, q, args[i], rs[i]);
    }
  }

  /** Whatever an argument denotes, its indexes exist. */
  lemma DenotesInBounds(p: Pools, a: Argument, r: Request)
    requires Denotes(p, a, r)
    ensures a.source == 1 ==> a.index < |p.paths|
    ensures a.source == 2 ==> a.index < |p.literals|
    ensures a.source == 3 ==> a.index < |p.strings|
    ensures a.source in {1, 2, 3}
  {
  }

  /** The value of a field is at a path, constants included. */
  lemma ValueHasPath(p: Pools, a: Argument, r: Request)
    requires Denotes(p, a, r) && (r.PathRequest? || r.ConstantRequest? || r.TextConstantRequest?)
    ensures a.index < |p.paths|
  {
  }

  // --------------------------------------------------------------- references

  /** `n` references from `base` on: the content of a set literal. */
  function References(base: nat, n: nat): (b: bytes)
    requires base + n <= 0x1_0000
    ensures |b| == 2 * n
    decreases n
  {
    if n == 0 then [] else U16(base) + References(base + 1, n - 1)
  }

  lemma {:induction false} ReferenceAt(data: bytes, at: nat, base: nat, n: nat, k: nat)
    requires base + n <= 0x1_0000 && k < n && Has(data, at, References(base, n))
    ensures ReadU16(data, at + 2 * k) == Ok(base + k)
    decreases n
  {
    HasParts(data, at, U16(base), References(base + 1, n - 1));
    if k == 0 {
      ReadU16At(data, at, base);
    } else {
      ReferenceAt(data, at + 2, base + 1, n - 1, k - 1);
    }
  }

  /** Key and label references: the content of a map literal. */
  function Pairs(base: nat, labels: seq<nat>): (b: bytes)
    requires base + |labels| <= 0x1_0000 && forall i :: 0 <= i < |labels| ==> labels[i] < 0x1_0000
    ensures |b| == 4 * |labels|
    decreases |labels|
  {
    if labels == [] then [] else (U16(base) + U16(labels[0])) + Pairs(base + 1, labels[1..])
  }

  lemma {:induction false} PairAt(data: bytes, at: nat, base: nat, labels: seq<nat>, k: nat)
    requires base + |labels| <= 0x1_0000 && forall i :: 0 <= i < |labels| ==> labels[i] < 0x1_0000
    requires k < |labels| && Has(data, at, Pairs(base, labels))
    ensures ReadU16(data, at + 4 * k) == Ok(base + k)
    ensures ReadU16(data, at + 4 * k + 2) == Ok(labels[k])
    decreases |labels|
  {
    HasParts(data, at, U16(base) + U16(labels[0]), Pairs(base + 1, labels[1..]));
    if k == 0 {
      HasParts(data, at, U16(base), U16(labels[0]));
      ReadU16At(data, at, base);
      ReadU16At(data, at + 2, labels[0]);
    } else {
      PairAt(data, at + 4, base + 1, labels[1..], k - 1);
    }
  }

  function SetLiteral(base: nat, n: nat): (l: Literal)
    requires base + n < 0x1_0000
  {
    Literal(9, U16(n) + References(base, n))
  }

  lemma {:induction false} SetLiteralIsSet(p: Pools, members: seq<Literal>)
    requires |p.literals| + |members| < 0x1_0000
    ensures var base := |p.literals|;
            IsSet(p.(literals := p.literals + members + [SetLiteral(base, |members|)]), base + |members|, members)
  {
    hide ReadU16;
    var base, n := |p.literals|, |members|;
    SetLiteralReads(base, n);
    var literals := p.literals + members + [SetLiteral(base, n)];
    forall k | 0 <= k < n ensures literals[base + k] == members[k] {
    }
  }

  lemma SetLiteralReads(base: nat, n: nat)
    requires base + n < 0x1_0000
    ensures var value := SetLiteral(base, n).value;
            && |value| == 2 + 2 * n && ReadU16(value, 0) == Ok(n)
            && forall k :: 0 <= k < n ==> ReadU16(value, 2 + 2 * k) == Ok(base + k)
  {
    hide ReadU16, References;
    var value := SetLiteral(base, n).value;
    HasAll(value);
    HasParts(value, 0, U16(n), References(base, n));
    ReadU16At(value, 0, n);
    forall k | 0 <= k < n ensures ReadU16(value, 2 + 2 * k) == Ok(base + k) {
      ReferenceAt(value, 2, base, n, k);
    }
  }

  function MapLiteral(base: nat, labels: seq<nat>): (l: Literal)
    requires base + |labels| < 0x1_0000 && forall i :: 0 <= i < |labels| ==> labels[i] < 0x1_0000
  {
    Literal(8, U16(|labels|) + Pairs(base, labels))
  }

  function Keys(entries: seq<(Literal, string)>): (r: seq<Literal>)
    ensures |r| == |entries| && forall i :: 0 <= i < |r| ==> r[i] == entries[i].0
  {
    seq(|entries|, i requires 0 <= i < |entries| => entries[i].0)
  }

  lemma {:induction false} MapLiteralIsMap(p: Pools, entries: seq<(Literal, string)>, labels: seq<nat>)
    requires |p.literals| + |entries| < 0x1_0000 && |labels| == |entries|
    requires forall i :: 0 <= i < |labels| ==> labels[i] < 0x1_0000 && IsString(p, labels[i], entries[i].1)
    ensures var base := |p.literals|;
            IsMap(p.(literals := p.literals + Keys(entries) + [MapLiteral(base, labels)]), base + |entries|, entries)
  {
    hide ReadU16, Pairs;
    var base, n := |p.literals|, |entries|;
    MapLiteralReads(base, labels);
    var q := p.(literals := p.literals + Keys(entries) + [MapLiteral(base, labels)]);
    assert q.literals[base + n] == MapLiteral(base, labels);
    forall k | 0 <= k < n ensures IsEntry(q, base + n, n, k, entries[k]) {
      assert q.literals[base + k] == Keys(entries)[k];
    }
  }

  lemma MapLiteralReads(base: nat, labels: seq<nat>)
    requires base + |labels| < 0x1_0000 && forall i :: 0 <= i < |labels| ==> labels[i] < 0x1_0000
    ensures var value := MapLiteral(base, labels).value;
            && |value| == 2 + 4 * |labels| && ReadU16(value, 0) == Ok(|labels|)
            && forall k :: 0 <= k < |labels| ==>
                 ReadU16(value, 2 + 4 * k) == Ok(base + k) && ReadU16(value, 4 + 4 * k) == Ok(labels[k])
  {
    hide ReadU16, Pairs;
    var value := MapLiteral(base, labels).value;
    HasAll(value);
    HasParts(value, 0, U16(|labels|), Pairs(base, labels));
    ReadU16At(value, 0, |labels|);
    forall k | 0 <= k < |labels|
      ensures ReadU16(value, 2 + 4 * k) == Ok(base + k) && ReadU16(value, 4 + 4 * k) == Ok(labels[k])
    {
      PairAt(value, 2, base, labels, k);
      assert 2 + 4 * k + 2 == 4 + 4 * k;
    }
  }
}
