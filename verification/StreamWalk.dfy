/** A device's walk over a typed-data document: what it rebuilds from the
    host's answers (keepkeylib/eip712_stream.py). */
module StreamWalk {
  import opened Wrappers
  import opened Text
  import opened Bytes
  import opened StreamTypes
  import opened StreamValues
  import opened StreamPaths

  /** A document with every leaf encoded. */
  datatype Encoded =
    | EncodedLeaf(data: bytes)
    | EncodedList(items: seq<Encoded>)
    | EncodedStruct(members: seq<Encoded>)

  /** The element type of an array type: without the last suffix written. */
  function ElementType(f: Field): (e: Field)
    requires f.levels != []
  {
    f.(levels := f.levels[..|f.levels| - 1])
  }

  function LastLevel(f: Field): nat
    requires f.levels != []
  {
    f.levels[|f.levels| - 1]
  }

  /** The type text of an array is its element's, then its own suffix. */
  lemma {:induction false} PrintElement(f: Field)
    requires f.levels != []
    ensures Print(f) == Print(ElementType(f)) + PrintLevels([LastLevel(f)])
  {
    hide PrintLevels, PrintShape;
    PrintLevelsLast(f.levels);
    var base := PrintShape(f.dataType, f.size, f.structName);
    assert base + (PrintLevels(ElementType(f).levels) + PrintLevels([LastLevel(f)]))
        == (base + PrintLevels(ElementType(f).levels)) + PrintLevels([LastLevel(f)]);
  }

  lemma {:induction false} PrintLevelsLast(levels: seq<nat>)
    requires levels != []
    ensures PrintLevels(levels) == PrintLevels(levels[..|levels| - 1]) + PrintLevels([levels[|levels| - 1]])
  {
    hide Decimal;
    var own := "[" + (if levels[0] == 0 then "" else Decimal(levels[0])) + "]";
    if |levels| == 1 {
      assert levels == [levels[0]] && levels[..0] == [];
      assert "" + PrintLevels(levels) == PrintLevels(levels);
    } else {
      var rest := levels[1..];
      PrintLevelsLast(rest);
      assert levels[..|levels| - 1][1..] == rest[..|rest| - 1];
      assert own + (PrintLevels(rest[..|rest| - 1]) + PrintLevels([levels[|levels| - 1]]))
          == (own + PrintLevels(rest[..|rest| - 1])) + PrintLevels([levels[|levels| - 1]]);
    }
  }

  /** `v` is a document of type `f`: an array is a list of its element type, as
      long as the last suffix says; a struct has all its members; a leaf has an
      encoding of at most `limit` bytes. */
  predicate HasType(doc: Document, f: Field, v: Json, limit: nat)
    decreases v
  {
    if f.levels != [] then
      && v.List? && |v.items| < 0x1_0000 && (LastLevel(f) == 0 || |v.items| == LastLevel(f))
      && forall i :: 0 <= i < |v.items| ==> HasType(doc, ElementType(f), v.items[i], limit)
    else if f.dataType.StructData? then
      && v.Object? && Members(doc, f.structName).Ok?
      && var ms := Members(doc, f.structName).value;
         forall i :: 0 <= i < |ms| ==> ms[i].0 in v.members && HasType(doc, ms[i].1, v.members[ms[i].0], limit)
    else
      Encode(f, v, MAX_VALUE).Ok? && |Encode(f, v, MAX_VALUE).value| <= limit
  }

  /** The encoded document. */
  function EncodeTree(doc: Document, f: Field, v: Json, limit: nat): Encoded
    requires HasType(doc, f, v, limit)
    decreases v
  {
    if f.levels != [] then
      EncodedList(seq(|v.items|, i requires 0 <= i < |v.items| => EncodeTree(doc, ElementType(f), v.items[i], limit)))
    else if f.dataType.StructData? then
      var ms := Members(doc, f.structName).value;
      EncodedStruct(seq(|ms|, i requires 0 <= i < |ms| => EncodeTree(doc, ms[i].1, v.members[ms[i].0], limit)))
    else EncodedLeaf(Encode(f, v, MAX_VALUE).value)
  }

  /** An array is answered, and entered, exactly when the document has a list as
      long as the last suffix left on the type says. */
  lemma ArrayAnsweredIff(doc: Document, p: Place, index: nat)
    requires p.used < |p.field.levels|
    ensures var declared := LastLevel(Remaining(p.field, p.used));
            var fits := p.value.List? && (declared == 0 || |p.value.items| == declared);
            && (AnswerAt(p) == (if fits then Ok(Length(|p.value.items|)) else Raised))
            && (Enter(doc, p, index) == (if fits && index < |p.value.items|
                                         then Ok(Place(p.field, p.value.items[index], p.used + 1)) else Raised))
  {
    RemainingNext(p.field, p.used);
  }

  /** When a leaf is served: whole if it is short and no offset is given; the
      first chunk of a long one if the device takes chunks; a later chunk from
      any offset inside it; a long one never in the domain. */
  lemma ServedIff(b: bytes, inDomain: bool, offset: Option<nat>, chunked: bool)
    ensures ServeLeaf(b, inDomain, offset, chunked).Ok? <==>
            if |b| <= MAX_LEAF then offset.None?
            else !inDomain && (if offset.None? then chunked else offset.value < |b|)
    ensures ServeLeaf(b, inDomain, offset, chunked).Ok? ==>
              var ack := ServeLeaf(b, inDomain, offset, chunked).value;
              var from := if offset.Some? then offset.value else 0;
              && from <= |b| && ack.value <= b[from..] && |ack.value| <= MAX_LEAF
              && (|ack.value| < MAX_LEAF ==> ack.value == b[from..]) && ack.offset == offset
              && ack.total == if |b| > MAX_LEAF && offset.None? then Some(|b|) else None
  {
  }

  /** What the device shows is what the document says: lists in order, structs
      member by member, each leaf read by its declared type. */
  predicate Shows(doc: Document, f: Field, v: Json, e: Encoded)
    decreases v
  {
    if f.levels != [] then
      && e.EncodedList? && v.List? && |e.items| == |v.items|
      && forall i :: 0 <= i < |v.items| ==> Shows(doc, ElementType(f), v.items[i], e.items[i])
    else if f.dataType.StructData? then
      && e.EncodedStruct? && v.Object? && Members(doc, f.structName).Ok?
      && var ms := Members(doc, f.structName).value;
         && |e.members| == |ms|
         && forall i :: 0 <= i < |ms| ==> ms[i].0 in v.members && Shows(doc, ms[i].1, v.members[ms[i].0], e.members[i])
    else
      e.EncodedLeaf? && Reading(f, e.data).Ok? && Says(v, Reading(f, e.data).value)
  }

  lemma {:induction false} TreeShows(doc: Document, f: Field, v: Json, limit: nat)
    requires HasType(doc, f, v, limit)
    ensures Shows(doc, f, v, EncodeTree(doc, f, v, limit))
    decreases v
  {
    hide Members, Encode, Reading, Says;
    var e := EncodeTree(doc, f, v, limit);
    if f.levels != [] {
      forall i | 0 <= i < |v.items| ensures Shows(doc, ElementType(f), v.items[i], e.items[i]) {
        TreeShows(doc, ElementType(f), v.items[i], limit);
      }
    } else if f.dataType.StructData? {
      var ms := Members(doc, f.structName).value;
      forall i | 0 <= i < |ms| ensures ms[i].0 in v.members && Shows(doc, ms[i].1, v.members[ms[i].0], e.members[i]) {
        TreeShows(doc, ms[i].1, v.members[ms[i].0], limit);
      }
    } else {
      EncodeIff(f, v, MAX_VALUE, e.data);
    }
  }

  ghost predicate Rebuilt(doc: Document, f: Field, v: Json, limit: nat, e: Encoded) {
    HasType(doc, f, v, limit) && e == EncodeTree(doc, f, v, limit)
  }

  /** The declared type with the levels already entered taken off. */
  function Remaining(f: Field, used: nat): (r: Field)
    requires used <= |f.levels|
  {
    f.(levels := f.levels[..|f.levels| - used])
  }

  /** Entering a level takes the last suffix off the type. */
  lemma RemainingNext(f: Field, used: nat)
    requires used < |f.levels|
    ensures var r := Remaining(f, used);
            r.levels != [] && LastLevel(r) == Dimension(f.levels, used) && ElementType(r) == Remaining(f, used + 1)
  {
    assert Remaining(f, used).levels[..|f.levels| - used - 1] == f.levels[..|f.levels| - (used + 1)];
  }

  /** Where the device stands: a place whose value has the type that remains. */
  ghost predicate Stands(doc: Document, path: seq<nat>, f: Field, used: nat, v: Json, limit: nat) {
    && path != [] && PlaceAt(doc, path) == Ok(Place(f, v, used)) && used <= |f.levels|
    && HasType(doc, Remaining(f, used), v, limit)
  }

  // -------------------------------------------------------------------- leaves

  /** The limit on a leaf below this path. */
  function LimitOf(path: seq<nat>, chunked: bool): nat {
    if (path != [] && path[0] == 0) || !chunked then MAX_LEAF else MAX_VALUE
  }

  /** The device reads one leaf, asking for the rest of a long one chunk by
      chunk. */
  method ReadLeaf(doc: Document, path: seq<nat>, chunked: bool, ghost f: Field, ghost v: Json) returns (data: bytes)
    requires Resolve(doc, path) == Ok(Leaf(f, v)) && path != []
    requires Encode(f, v, MAX_VALUE).Ok? && |Encode(f, v, MAX_VALUE).value| <= LimitOf(path, chunked)
    ensures data == Encode(f, v, MAX_VALUE).value
  {
    hide Resolve, Encode;
    ghost var b := Encode(f, v, MAX_VALUE).value;
    var first := ValueAck(doc, path, None, chunked);
    data := first.value.value;
    if first.value.total.None? {
      return;
    }
    while |data| < first.value.total.value
      invariant |data| <= |b| == first.value.total.value && data == b[..|data|]
    {
      var next := ValueAck(doc, path, Some(|data|), chunked);
      assert next.value.value == Chunk(b, |data|);
      data := data + next.value.value;
    }
    assert b[..|b|] == b;
  }

  /** What a device holds of a value while chunks come in: one slot a byte. */
  type Received = seq<Option<Byte>>

  /** A served chunk is put where it says. */
  function Put(held: Received, offset: nat, chunk: bytes): (r: Received)
    requires offset + |chunk| <= |held|
    ensures |r| == |held|
  {
    seq(|held|, i requires 0 <= i < |held| => if offset <= i < offset + |chunk| then Some(chunk[i - offset])
        else held[i])
  }

  /** The chunks the host serves for `b` at the offsets a device asks for, in its
      order and as often as it likes. */
  function PutAll(held: Received, b: bytes, offsets: seq<nat>): (r: Received)
    requires |held| == |b| && forall i :: 0 <= i < |offsets| ==> offsets[i] < |b|
    ensures |r| == |b|
    decreases |offsets|
  {
    if offsets == [] then held
    else
      var n := |offsets| - 1;
      Put(PutAll(held, b, offsets[..n]), offsets[n], Chunk(b, offsets[n]))
  }

  /** Position `i` lies in the chunk at one of the offsets. */
  predicate Covered(offsets: seq<nat>, i: nat) {
    exists k :: 0 <= k < |offsets| && offsets[k] <= i < offsets[k] + MAX_LEAF
  }

  /** Whatever order the chunks come in, every byte that was asked for is the
      value's, and the others are untouched. */
  lemma {:induction false} ChunksAgree(held: Received, b: bytes, offsets: seq<nat>, i: nat)
    requires |held| == |b| && (forall k :: 0 <= k < |offsets| ==> offsets[k] < |b|) && i < |b|
    ensures PutAll(held, b, offsets)[i] == if Covered(offsets, i) then Some(b[i]) else held[i]
    decreases |offsets|
  {
    if offsets != [] {
      var n := |offsets| - 1;
      ChunksAgree(held, b, offsets[..n], i);
      if offsets[n] <= i < offsets[n] + MAX_LEAF {
        assert Covered(offsets, i);
      } else {
        assert Covered(offsets, i) <==> Covered(offsets[..n], i) by {
          forall k | 0 <= k < n ensures offsets[..n][k] == offsets[k] {
          }
        }
      }
    }
  }

  /** Once every position was asked for, the device holds exactly the value. */
  lemma ChunksReassemble(held: Received, b: bytes, offsets: seq<nat>)
    requires |held| == |b| && (forall k :: 0 <= k < |offsets| ==> offsets[k] < |b|)
    requires forall i :: 0 <= i < |b| ==> Covered(offsets, i)
    ensures forall i :: 0 <= i < |b| ==> PutAll(held, b, offsets)[i] == Some(b[i])
  {
    forall i | 0 <= i < |b| ensures PutAll(held, b, offsets)[i] == Some(b[i]) {
      ChunksAgree(held, b, offsets, i);
    }
  }

  /** The answer to a request that names an offset is the value's chunk there,
      and it is an answer exactly for a long message value and an offset in it. */
  lemma ServedChunk(doc: Document, path: seq<nat>, f: Field, v: Json, offset: nat, chunked: bool)
    requires Resolve(doc, path) == Ok(Leaf(f, v)) && Encode(f, v, MAX_VALUE).Ok? && path != []
    ensures var b, ack := Encode(f, v, MAX_VALUE).value, Serve(doc, path, Some(offset), chunked);
            && (ack.Ok? <==> |b| > MAX_LEAF && path[0] != 0 && offset < |b|)
            && (ack.Ok? ==> ack.value == Ack(Chunk(b, offset), None, Some(offset)))
  {
    hide Resolve, Encode;
  }

  // ---------------------------------------------------------------------- walk

  lemma AtLevel(doc: Document, path: seq<nat>, f: Field, used: nat, v: Json, limit: nat)
    requires Stands(doc, path, f, used, v, limit) && used < |f.levels|
    ensures v.List? && |v.items| < 0x1_0000 && Resolve(doc, path) == Ok(Length(|v.items|))
    ensures forall i :: 0 <= i < |v.items| ==> Stands(doc, path + [i], f, used + 1, v.items[i], limit)
  {
    hide EncodeTree;
    RemainingNext(f, used);
    forall i | 0 <= i < |v.items| ensures Stands(doc, path + [i], f, used + 1, v.items[i], limit) {
      PlaceAppend(doc, path, i);
    }
  }

  lemma AtStruct(doc: Document, path: seq<nat>, f: Field, used: nat, v: Json, limit: nat, i: nat)
    requires Stands(doc, path, f, used, v, limit) && used == |f.levels| && f.dataType.StructData?
    requires Members(doc, f.structName).Ok? && i < |Members(doc, f.structName).value|
    ensures var ms := Members(doc, f.structName).value;
            v.Object? && ms[i].0 in v.members && Stands(doc, path + [i], ms[i].1, 0, v.members[ms[i].0], limit)
  {
    hide ListMembers, IsTypeName;
    var ms := Members(doc, f.structName).value;
    PlaceAppend(doc, path, i);
    ListedCount(doc.types[f.structName], {});
    ListedMembers(doc.types[f.structName], {}, i);
    assert ms[i].1.levels[..|ms[i].1.levels| - 0] == ms[i].1.levels;
  }

  lemma StructNamed(doc: Document, path: seq<nat>, f: Field, used: nat, v: Json, limit: nat)
    requires Stands(doc, path, f, used, v, limit) && used == |f.levels| && f.dataType.StructData?
    ensures path != [] && v.Object? && Members(doc, f.structName).Ok?
  {
  }

  lemma AtLeaf(doc: Document, path: seq<nat>, f: Field, used: nat, v: Json, limit: nat)
    requires Stands(doc, path, f, used, v, limit) && used == |f.levels| && !f.dataType.StructData?
    ensures Resolve(doc, path) == Ok(Leaf(f, v)) && Encode(f, v, MAX_VALUE).Ok?
            && |Encode(f, v, MAX_VALUE).value| <= limit
    ensures EncodeTree(doc, Remaining(f, used), v, limit) == EncodedLeaf(Encode(f, v, MAX_VALUE).value)
  {
    EncodeIgnoresLevels(f, Remaining(f, used), v);
  }

  lemma EncodeIgnoresLevels(f: Field, g: Field, v: Json)
    requires g == f.(levels := g.levels)
    ensures Encode(f, v, MAX_VALUE) == Encode(g, v, MAX_VALUE)
  {
  }

  /** The device at a path whose declared type it knows: it asks for a length
      while array levels remain, for the definition of a struct, and else for
      the value, and goes on below. On a conforming document no answer is an
      error, the walk ends, and it rebuilds the encoded document. */
  method DeviceWalk(doc: Document, path: seq<nat>, f: Field, used: nat, chunked: bool, ghost v: Json)
    returns (e: Encoded)
    requires Stands(doc, path, f, used, v, LimitOf(path, chunked))
    ensures used <= |f.levels|
    ensures Rebuilt(doc, Remaining(f, used), v, LimitOf(path, chunked), e)
    decreases v, 1
  {
    hide HasType, EncodeTree, PlaceAt;
    if used < |f.levels| {
      e := WalkList(doc, path, f, used, chunked, v);
    } else if f.dataType.StructData? {
      e := WalkStruct(doc, path, f, chunked, v);
    } else {
      ghost var limit := LimitOf(path, chunked);
      AtLeaf(doc, path, f, used, v, limit);
      var data := ReadLeaf(doc, path, chunked, f, v);
      e := EncodedLeaf(data);
    }
  }

  method WalkList(doc: Document, path: seq<nat>, f: Field, used: nat, chunked: bool, ghost v: Json) returns (e: Encoded)
    requires Stands(doc, path, f, used, v, LimitOf(path, chunked)) && used < |f.levels|
    ensures Rebuilt(doc, Remaining(f, used), v, LimitOf(path, chunked), e)
    decreases v, 0
  {
    hide Stands, Rebuilt, Remaining, Serve;
    ghost var limit := LimitOf(path, chunked);
    AtLevel(doc, path, f, used, v, limit);
    LengthServed(doc, path, |v.items|, chunked);
    var ack := ValueAck(doc, path, None, chunked);
    var n := ReadU16(ack.value.value, 0).value;
    var items: seq<Encoded> := [];
    for i := 0 to n
      invariant |items| == i
      invariant forall k :: 0 <= k < i ==> Rebuilt(doc, Remaining(f, used + 1), v.items[k], limit, items[k])
    {
      LimitBelow(path, i, chunked);
      var item := DeviceWalk(doc, path + [i], f, used + 1, chunked, v.items[i]);
      items := items + [item];
    }
    TreeOfList(doc, path, f, used, v, limit, items);
    e := EncodedList(items);
  }

  method WalkStruct(doc: Document, path: seq<nat>, f: Field, chunked: bool, ghost v: Json) returns (e: Encoded)
    requires Stands(doc, path, f, |f.levels|, v, LimitOf(path, chunked)) && f.dataType.StructData?
    ensures Rebuilt(doc, Remaining(f, |f.levels|), v, LimitOf(path, chunked), e)
    decreases v, 0
  {
    hide Stands, Rebuilt, Remaining, Members;
    ghost var limit := LimitOf(path, chunked);
    StructNamed(doc, path, f, |f.levels|, v, limit);
    var answer := StructMembers(doc, f.structName);
    var members := answer.value;
    var parts: seq<Encoded> := [];
    for i := 0 to |members|
      invariant |parts| == i
      invariant forall k :: 0 <= k < i ==>
                  members[k].0 in v.members && Rebuilt(doc, members[k].1, v.members[members[k].0], limit, parts[k])
    {
      LimitBelow(path, i, chunked);
      AtStruct(doc, path, f, |f.levels|, v, limit, i);
      RemainingAll(members[i].1);
      var part := DeviceWalk(doc, path + [i], members[i].1, 0, chunked, v.members[members[i].0]);
      parts := parts + [part];
    }
    TreeOfStruct(doc, path, f, |f.levels|, v, limit, parts);
    e := EncodedStruct(parts);
  }

  lemma LimitBelow(path: seq<nat>, i: nat, chunked: bool)
    requires path != []
    ensures LimitOf(path + [i], chunked) == LimitOf(path, chunked)
  {
  }

  lemma RemainingAll(f: Field)
    ensures Remaining(f, 0) == f
  {
    assert f.levels[..|f.levels| - 0] == f.levels;
  }

  lemma LengthServed(doc: Document, path: seq<nat>, n: nat, chunked: bool)
    requires Resolve(doc, path) == Ok(Length(n)) && n < 0x1_0000
    ensures Serve(doc, path, None, chunked) == Ok(Ack(U16(n), None, None)) && ReadU16(U16(n), 0) == Ok(n)
  {
    hide Resolve;
    HasAll(U16(n));
    ReadU16At(U16(n), 0, n);
  }

  lemma TreeOfList(doc: Document, path: seq<nat>, f: Field, used: nat, v: Json, limit: nat, items: seq<Encoded>)
    requires Stands(doc, path, f, used, v, limit) && used < |f.levels| && v.List? && |items| == |v.items|
    requires forall k :: 0 <= k < |items| ==> Rebuilt(doc, Remaining(f, used + 1), v.items[k], limit, items[k])
    ensures Rebuilt(doc, Remaining(f, used), v, limit, EncodedList(items))
  {
    hide PlaceAt;
    RemainingNext(f, used);
    forall k | 0 <= k < |items| ensures items[k] == EncodeTree(doc, Remaining(f, used + 1), v.items[k], limit) {
      assert Rebuilt(doc, Remaining(f, used + 1), v.items[k], limit, items[k]);
    }
  }

  lemma TreeOfStruct(doc: Document, path: seq<nat>, f: Field, used: nat, v: Json, limit: nat, parts: seq<Encoded>)
    requires Stands(doc, path, f, used, v, limit) && used == |f.levels| && f.dataType.StructData?
    requires v.Object? && Members(doc, f.structName).Ok? && |parts| == |Members(doc, f.structName).value|
    requires var ms := Members(doc, f.structName).value;
             forall k :: 0 <= k < |parts| ==>
                      ms[k].0 in v.members && Rebuilt(doc, ms[k].1, v.members[ms[k].0], limit, parts[k])
    ensures Rebuilt(doc, Remaining(f, used), v, limit, EncodedStruct(parts))
  {
    hide Members, PlaceAt;
    var ms := Members(doc, f.structName).value;
    forall k | 0 <= k < |parts| ensures parts[k] == EncodeTree(doc, ms[k].1, v.members[ms[k].0], limit) {
      assert Rebuilt(doc, ms[k].1, v.members[ms[k].0], limit, parts[k]);
    }
  }

  /** The whole walk: the domain and the message are rebuilt from the answers. */
  method DeviceRead(doc: Document, chunked: bool) returns (domain: Encoded, message: Encoded)
    requires HasType(doc, StructField("EIP712Domain"), doc.domain, MAX_LEAF)
    requires HasType(doc, StructField(doc.primaryType), doc.message, if chunked then MAX_VALUE else MAX_LEAF)
    ensures domain == EncodeTree(doc, StructField("EIP712Domain"), doc.domain, MAX_LEAF)
    ensures message == EncodeTree(doc, StructField(doc.primaryType), doc.message, if chunked then MAX_VALUE
                                  else MAX_LEAF)
    ensures Shows(doc, StructField("EIP712Domain"), doc.domain, domain)
    ensures Shows(doc, StructField(doc.primaryType), doc.message, message)
  {
    hide HasType, EncodeTree, Stands, Shows;
    TreeShows(doc, StructField("EIP712Domain"), doc.domain, MAX_LEAF);
    TreeShows(doc, StructField(doc.primaryType), doc.message, if chunked then MAX_VALUE else MAX_LEAF);
    RootStands(doc, chunked);
    RemainingAll(StructField("EIP712Domain"));
    RemainingAll(StructField(doc.primaryType));
    domain := DeviceWalk(doc, [0], StructField("EIP712Domain"), 0, chunked, doc.domain);
    message := DeviceWalk(doc, [1], StructField(doc.primaryType), 0, chunked, doc.message);
  }

  lemma RootStands(doc: Document, chunked: bool)
    requires HasType(doc, StructField("EIP712Domain"), doc.domain, MAX_LEAF)
    requires HasType(doc, StructField(doc.primaryType), doc.message, if chunked then MAX_VALUE else MAX_LEAF)
    ensures Stands(doc, [0], StructField("EIP712Domain"), 0, doc.domain, LimitOf([0], chunked))
    ensures Stands(doc, [1], StructField(doc.primaryType), 0, doc.message, LimitOf([1], chunked))
  {
    hide HasType;
    RemainingAll(StructField("EIP712Domain"));
    RemainingAll(StructField(doc.primaryType));
  }
}
