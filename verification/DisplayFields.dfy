/** The display fields of a descriptor: groups are flattened into one field
    list and index ranges over it (keepkeylib/erc7730_compiler.py). */
module DisplayFields {
  import opened Wrappers
  import opened Text

  /** A descriptor value after references were followed. */
  datatype Scalar = Word(text: string) | Number(n: int) | Flag(b: bool) | OtherValue

  datatype Visibility =
    | Always
    | OtherVisible
    | Never
    | Optional
    | IfNotIn(values: seq<Scalar>)
    | MustMatch(values: seq<Scalar>)
    | InvalidRule

  /** Format parameters, one slot per key the compiler reads. */
  datatype Params = Params(
    tokenPath: Option<Scalar>,
    token: Option<Scalar>,
    threshold: Option<Scalar>,
    message: Option<string>,
    chainId: Option<Scalar>,
    chainIdPath: Option<Scalar>,
    aliases: seq<Scalar>,
    collectionPath: Option<Scalar>,
    collection: Option<Scalar>,
    encoding: string,
    decimals: int,
    base: string,
    unitPrefix: bool,
    enumEntries: seq<(Scalar, string)>,
    calleePath: Option<string>,
    amountPath: Option<string>,
    spenderPath: Option<string>)

  datatype Field = Field(
    title: string,
    path: Option<string>,
    value: Option<Scalar>,
    format: string,
    params: Params,
    visible: Visibility,
    separator: Option<string>)

  datatype Item =
    | FieldItem(field: Field)
    | GroupItem(caption: Option<string>, path: Option<string>, items: seq<Item>)

  /** Fields `start` to `end` stand in a group. */
  datatype Range = Range(start: nat, end: nat, caption: Option<string>, path: Option<string>)

  predicate Absolute(path: string) {
    StartsWith(path, "#.") || StartsWith(path, "@.") || StartsWith(path, "$.")
  }

  /** Python's truth of a text that may be missing. */
  predicate Given(s: Option<string>) {
    s.Some? && s.value != ""
  }

  /** `join_path`. */
  function JoinPath(prefix: Option<string>, path: Option<string>): Option<string> {
    if !Given(prefix) || (path.Some? && Absolute(path.value)) then path
    else if !Given(path) then prefix
    else Some(prefix.value + "." + path.value)
  }

  function JoinScalar(prefix: Option<string>, path: Option<Scalar>): Option<Scalar> {
    match path
    case Some(Word(text)) =>
      var joined := JoinPath(prefix, Some(text));
      if joined.Some? then Some(Word(joined.value)) else path
    case _ => path
  }

  function JoinText(prefix: Option<string>, path: Option<string>): Option<string> {
    if path.Some? then JoinPath(prefix, path) else None
  }

  /** A field as its enclosing groups see it: its own path and the path
      parameters are taken relative to the prefix. */
  function Located(field: Field, prefix: Option<string>): Field {
    var p := field.params;
    if !Given(prefix) then field
    else
      field.(path := JoinText(prefix, field.path),
             params := p.(tokenPath := JoinScalar(prefix, p.tokenPath),
                          collectionPath := JoinScalar(prefix, p.collectionPath),
                          chainIdPath := JoinScalar(prefix, p.chainIdPath),
                          calleePath := JoinText(prefix, p.calleePath),
                          amountPath := JoinText(prefix, p.amountPath),
                          spenderPath := JoinText(prefix, p.spenderPath)))
  }

  /** `flatten_fields`, with `n` fields already listed. */
  function Flatten(items: seq<Item>, prefix: Option<string>, n: nat): Result<(seq<Field>, seq<Range>)>
    decreases items
  {
    if items == [] then Ok(([], []))
    else
      match items[0]
      case FieldItem(field) =>
        var (fields, ranges) :- Flatten(items[1..], prefix, n + 1);
        Ok(([Located(field, prefix)] + fields, ranges))
      case GroupItem(caption, path, inner) =>
        var groupPath := JoinPath(prefix, path);
        var (below, within) :- Flatten(inner, groupPath, n);
        if below == [] then Raised
        else
          var (fields, ranges) :- Flatten(items[1..], prefix, n + |below|);
          Ok((below + fields, within + [Range(n, n + |below|, caption, groupPath)] + ranges))
  }

  /** `flatten_fields` as the closure over the two lists it appends to. */
  class FieldFlattener {
    var fields: seq<Field>
    var ranges: seq<Range>

    constructor ()
      ensures fields == [] && ranges == []
    {
      fields, ranges := [], [];
    }

    ghost predicate Appended(before: seq<Field>, beforeRanges: seq<Range>, r: Result<()>,
        spec: Result<(seq<Field>, seq<Range>)>)
      reads this
    {
      match spec
      case Raised => r.Raised?
      case Ok((fs, rs)) => r.Ok? && fields == before + fs && ranges == beforeRanges + rs
    }

    method Run(items: seq<Item>, prefix: Option<string>) returns (r: Result<()>)
      modifies this
      ensures Appended(old(fields), old(ranges), r, Flatten(items, prefix, |old(fields)|))
      decreases items
    {
      if items == [] {
        return Ok(());
      }
      match items[0] {
        case FieldItem(field) =>
          fields := fields + [Located(field, prefix)];
        case GroupItem(caption, path, inner) =>
          var groupPath := JoinPath(prefix, path);
          var start := |fields|;
          var _ :- Run(inner, groupPath);
          var end := |fields|;
          if end == start {
            return Raised;
          }
          ranges := ranges + [Range(start, end, caption, groupPath)];
      }
      r := Run(items[1..], prefix);
    }
  }

  // ------------------------------------------------------------------ ranges

  /** Ranges nest or are apart, are not empty, and stay within `lo..hi`. */
  ghost predicate Laminar(ranges: seq<Range>, lo: nat, hi: nat) {
    && (forall i :: 0 <= i < |ranges| ==> lo <= ranges[i].start < ranges[i].end <= hi)
    && (forall i, j :: 0 <= i < |ranges| && 0 <= j < |ranges| && ranges[i].start <= ranges[j].start < ranges[i].end ==>
          ranges[j].end <= ranges[i].end || ranges[j].start == ranges[i].start)
  }

  lemma LaminarAppend(a: seq<Range>, b: seq<Range>, lo: nat, mid: nat, hi: nat)
    requires lo <= mid <= hi && Laminar(a, lo, mid) && Laminar(b, mid, hi)
    ensures Laminar(a + b, lo, hi)
  {
  }

  lemma LaminarEnclose(a: seq<Range>, r: Range)
    requires r.start < r.end && Laminar(a, r.start, r.end)
    ensures Laminar(a + [r], r.start, r.end)
  {
  }

  lemma LaminarEmpty(lo: nat, hi: nat)
    ensures Laminar([], lo, hi)
  {
  }

  lemma LaminarWider(a: seq<Range>, lo: nat, mid: nat, hi: nat)
    requires lo <= mid && Laminar(a, mid, hi)
    ensures Laminar(a, lo, hi)
  {
  }

  lemma {:induction false} FlattenLaminar(items: seq<Item>, prefix: Option<string>, n: nat)
    requires Flatten(items, prefix, n).Ok?
    ensures var (fields, ranges) := Flatten(items, prefix, n).value;
            Laminar(ranges, n, n + |fields|)
    decreases items
  {
    hide Laminar;
    if items == [] {
      LaminarEmpty(n, n);
    } else {
      match items[0]
      case FieldItem(field) =>
        FlattenLaminar(items[1..], prefix, n + 1);
        var (fields, ranges) := Flatten(items[1..], prefix, n + 1).value;
        LaminarWider(ranges, n, n + 1, n + 1 + |fields|);
      case GroupItem(caption, path, inner) =>
        var groupPath := JoinPath(prefix, path);
        var (below, within) := Flatten(inner, groupPath, n).value;
        FlattenLaminar(inner, groupPath, n);
        FlattenLaminar(items[1..], prefix, n + |below|);
        var (fields, ranges) := Flatten(items[1..], prefix, n + |below|).value;
        var own := Range(n, n + |below|, caption, groupPath);
        LaminarEnclose(within, own);
        LaminarAppend(within + [own], ranges, n, n + |below|, n + |below| + |fields|);
    }
  }

  /** The fields below an item list, in order. */
  function Leaves(items: seq<Item>, prefix: Option<string>): seq<Field>
    decreases items
  {
    if items == [] then []
    else
      (match items[0]
       case FieldItem(field) => [Located(field, prefix)]
       case GroupItem(_, path, inner) => Leaves(inner, JoinPath(prefix, path)))
      + Leaves(items[1..], prefix)
  }

  /** The groups below an item list with their paths, inner before outer. */
  function Groups(items: seq<Item>, prefix: Option<string>): seq<(Item, Option<string>)>
    decreases items
  {
    if items == [] then []
    else
      (match items[0]
       case FieldItem(_) => []
       case GroupItem(_, path, inner) =>
         Groups(inner, JoinPath(prefix, path)) + [(items[0], JoinPath(prefix, path))])
      + Groups(items[1..], prefix)
  }

  /** How many fields there are below an item list, and how many groups. */
  function LeafCount(items: seq<Item>): nat
    decreases items
  {
    if items == [] then 0
    else
      (match items[0]
       case FieldItem(_) => 1
       case GroupItem(_, _, inner) => LeafCount(inner))
      + LeafCount(items[1..])
  }

  function GroupCount(items: seq<Item>): nat
    decreases items
  {
    if items == [] then 0
    else
      (match items[0]
       case FieldItem(_) => 0
       case GroupItem(_, _, inner) => GroupCount(inner) + 1)
      + GroupCount(items[1..])
  }

  /** In the tree, group number `g` encloses field number `j`: fields are
      numbered from the left, groups likewise but inner before outer. */
  predicate Encloses(items: seq<Item>, g: nat, j: nat)
    decreases items
  {
    items != [] &&
    match items[0]
    case FieldItem(_) => j > 0 && Encloses(items[1..], g, j - 1)
    case GroupItem(_, _, inner) =>
      var own, leaves := GroupCount(inner), LeafCount(inner);
      if j < leaves then g == own || (g < own && Encloses(inner, g, j))
      else g > own && Encloses(items[1..], g - own - 1, j - leaves)
  }

  lemma {:induction false} FlattenCounts(items: seq<Item>, prefix: Option<string>, n: nat)
    requires Flatten(items, prefix, n).Ok?
    ensures var (fields, ranges) := Flatten(items, prefix, n).value;
            |fields| == LeafCount(items) && |ranges| == GroupCount(items)
    decreases items
  {
    if items != [] {
      match items[0]
      case FieldItem(_) => FlattenCounts(items[1..], prefix, n + 1);
      case GroupItem(caption, path, inner) =>
        var below := Flatten(inner, JoinPath(prefix, path), n).value.0;
        FlattenCounts(inner, JoinPath(prefix, path), n);
        FlattenCounts(items[1..], prefix, n + |below|);
    }
  }

  /** A group's range holds exactly the numbers of the fields it encloses. */
  lemma {:induction false} FlattenEncloses(items: seq<Item>, prefix: Option<string>, n: nat, g: nat, j: nat)
    requires Flatten(items, prefix, n).Ok? && g < GroupCount(items) && j < LeafCount(items)
    ensures g < |Flatten(items, prefix, n).value.1|
    ensures var r := Flatten(items, prefix, n).value.1[g]; r.start <= n + j < r.end <==> Encloses(items, g, j)
    decreases items
  {
    hide Laminar;
    FlattenCounts(items, prefix, n);
    match items[0]
    case FieldItem(field) =>
      FlattenCounts(items[1..], prefix, n + 1);
      if j == 0 {
        FlattenWithin(items[1..], prefix, n + 1, g);
      } else {
        FlattenEncloses(items[1..], prefix, n + 1, g, j - 1);
      }
    case GroupItem(_, _, _) => FlattenGroupEncloses(items, prefix, n, g, j);
  }

  lemma {:induction false} FlattenGroupEncloses(items: seq<Item>, prefix: Option<string>, n: nat, g: nat, j: nat)
    requires Flatten(items, prefix, n).Ok? && g < GroupCount(items) && j < LeafCount(items)
    requires items != [] && items[0].GroupItem?
    ensures g < |Flatten(items, prefix, n).value.1|
    ensures var r := Flatten(items, prefix, n).value.1[g]; r.start <= n + j < r.end <==> Encloses(items, g, j)
    decreases items, 0
  {
    hide Laminar;
    var GroupItem(caption, path, inner) := items[0];
    var groupPath := JoinPath(prefix, path);
    var (below, within) := Flatten(inner, groupPath, n).value;
    var ranges := Flatten(items[1..], prefix, n + |below|).value.1;
    var own := Range(n, n + |below|, caption, groupPath);
    FlattenCounts(inner, groupPath, n);
    FlattenCounts(items[1..], prefix, n + |below|);
    assert Flatten(items, prefix, n).value.1 == within + [own] + ranges;
    if g < |within| {
      FlattenWithin(inner, groupPath, n, g);
      if j < |below| {
        FlattenEncloses(inner, groupPath, n, g, j);
      }
    } else if g > |within| {
      FlattenWithin(items[1..], prefix, n + |below|, g - |within| - 1);
      if j >= |below| {
        FlattenEncloses(items[1..], prefix, n + |below|, g - |within| - 1, j - |below|);
      }
    }
  }

  lemma FlattenWithin(items: seq<Item>, prefix: Option<string>, n: nat, g: nat)
    requires Flatten(items, prefix, n).Ok? && g < |Flatten(items, prefix, n).value.1|
    ensures var (fields, ranges) := Flatten(items, prefix, n).value;
            n <= ranges[g].start < ranges[g].end <= n + |fields|
  {
    FlattenLaminar(items, prefix, n);
  }

  /** Range `r` holds exactly the fields of its group. */
  ghost predicate Covers(fields: seq<Field>, n: nat, r: Range, g: (Item, Option<string>)) {
    && n <= r.start <= r.end <= n + |fields|
    && g.0.GroupItem? && r.caption == g.0.caption && r.path == g.1
    && fields[r.start - n..r.end - n] == Leaves(g.0.items, g.1)
  }

  ghost predicate AllCover(fields: seq<Field>, n: nat, ranges: seq<Range>, groups: seq<(Item, Option<string>)>) {
    |ranges| == |groups| && forall i :: 0 <= i < |ranges| ==> Covers(fields, n, ranges[i], groups[i])
  }

  lemma CoversBetween(fields: seq<Field>, n: nat, before: seq<Field>, after: seq<Field>, r: Range,
      g: (Item, Option<string>))
    requires Covers(fields, n, r, g) && |before| <= n
    ensures Covers(before + fields + after, n - |before|, r, g)
  {
    var from, to := r.start - n, r.end - n;
    assert (before + fields + after)[|before| + from..|before| + to] == fields[from..to];
  }

  lemma AllCoverBetween(fields: seq<Field>, n: nat, before: seq<Field>, after: seq<Field>,
      ranges: seq<Range>, groups: seq<(Item, Option<string>)>)
    requires AllCover(fields, n, ranges, groups) && |before| <= n
    ensures AllCover(before + fields + after, n - |before|, ranges, groups)
  {
    forall i | 0 <= i < |ranges| ensures Covers(before + fields + after, n - |before|, ranges[i], groups[i]) {
      CoversBetween(fields, n, before, after, ranges[i], groups[i]);
    }
  }

  lemma AllCoverJoin(fields: seq<Field>, n: nat, a: seq<Range>, ga: seq<(Item, Option<string>)>,
      b: seq<Range>, gb: seq<(Item, Option<string>)>)
    requires AllCover(fields, n, a, ga) && AllCover(fields, n, b, gb)
    ensures AllCover(fields, n, a + b, ga + gb)
  {
  }

  /** The flattened list is the leaves in order, and each group's range covers
      the leaves below that group, no more and no fewer. */
  lemma {:induction false} FlattenCovers(items: seq<Item>, prefix: Option<string>, n: nat)
    requires Flatten(items, prefix, n).Ok?
    ensures var (fields, ranges) := Flatten(items, prefix, n).value;
            fields == Leaves(items, prefix) && AllCover(fields, n, ranges, Groups(items, prefix))
    decreases items
  {
    if items != [] {
      match items[0]
      case FieldItem(field) =>
        FlattenCovers(items[1..], prefix, n + 1);
        var (fields, ranges) := Flatten(items[1..], prefix, n + 1).value;
        AllCoverBetween(fields, n + 1, [Located(field, prefix)], [], ranges, Groups(items[1..], prefix));
        assert [Located(field, prefix)] + fields + [] == [Located(field, prefix)] + fields;
        assert [] + Groups(items[1..], prefix) == Groups(items[1..], prefix);
      case GroupItem(caption, path, inner) =>
        FlattenGroupCovers(items, prefix, n);
    }
  }

  lemma OwnCovers(below: seq<Field>, n: nat, r: Range, g: (Item, Option<string>))
    requires g.0.GroupItem? && below == Leaves(g.0.items, g.1) && r == Range(n, n + |below|, g.0.caption, g.1)
    ensures AllCover(below, n, [r], [g])
  {
    assert below[0..|below|] == below;
  }

  /** A group's fields and ranges, its own range, and those of what follows. */
  lemma GroupThenRest(below: seq<Field>, within: seq<Range>, inside: seq<(Item, Option<string>)>, n: nat, own: Range,
      g: (Item, Option<string>), fields: seq<Field>, ranges: seq<Range>, outside: seq<(Item, Option<string>)>)
    requires AllCover(below, n, within, inside) && AllCover(below, n, [own], [g])
    requires AllCover(fields, n + |below|, ranges, outside)
    ensures AllCover(below + fields, n, within + [own] + ranges, inside + [g] + outside)
  {
    hide Covers, AllCover;
    AllCoverJoin(below, n, within, inside, [own], [g]);
    AllCoverBetween(below, n, [], fields, within + [own], inside + [g]);
    AllCoverBetween(fields, n + |below|, below, [], ranges, outside);
    assert [] + below + fields == below + fields && below + fields + [] == below + fields;
    AllCoverJoin(below + fields, n, within + [own], inside + [g], ranges, outside);
  }

  lemma {:induction false} FlattenGroupCovers(items: seq<Item>, prefix: Option<string>, n: nat)
    requires Flatten(items, prefix, n).Ok? && items != [] && items[0].GroupItem?
    ensures var (fields, ranges) := Flatten(items, prefix, n).value;
            fields == Leaves(items, prefix) && AllCover(fields, n, ranges, Groups(items, prefix))
    decreases items, 0
  {
    hide Covers, AllCover;
    var GroupItem(caption, path, inner) := items[0];
    var groupPath := JoinPath(prefix, path);
    var (below, within) := Flatten(inner, groupPath, n).value;
    var (fields, ranges) := Flatten(items[1..], prefix, n + |below|).value;
    var own := Range(n, n + |below|, caption, groupPath);
    FlattenCovers(inner, groupPath, n);
    FlattenCovers(items[1..], prefix, n + |below|);
    OwnCovers(below, n, own, (items[0], groupPath));
    GroupThenRest(below, within, Groups(inner, groupPath), n, own, (items[0], groupPath),
                  fields, ranges, Groups(items[1..], prefix));
  }
}
