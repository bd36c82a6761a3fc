/** The definition catalog and the preload stream (keepkeylib/erc7730.py).
    SHA-256 is a parameter. */
module Catalog {
  import opened Wrappers
  import opened Bytes

  const MAX_CHUNK: nat := 1024
  const MAX_RECURSION: nat := 4

  const CALLDATA: nat := 1
  const EIP712: nat := 2
  const TOKEN: nat := 3
  const NETWORK: nat := 4

  datatype Definition = Definition(envelope: bytes, kind: nat, chainId: int, address: Option<bytes>,
      selector: Option<bytes>)

  /** What `Definition` accepts. */
  predicate IsDefinition(d: Definition) {
    && d.envelope != [] && d.kind in {CALLDATA, EIP712, TOKEN, NETWORK} && d.chainId > 0
    && (d.address.Some? ==> |d.address.value| == 20)
    && (d.kind == CALLDATA ==> d.selector.Some? && |d.selector.value| == 4)
    && (d.kind == EIP712 ==> d.selector.Some? && |d.selector.value| == 32)
  }

  datatype Key = Key(kind: nat, chainId: int, address: Option<bytes>, selector: Option<bytes>)

  function KeyOf(d: Definition): Key {
    Key(d.kind, d.chainId, d.address, d.selector)
  }

  /** A device's request for a part of a definition. */
  datatype Request = Request(
    depth: Option<nat>, id: Option<bytes>, kind: nat, chainId: int,
    address: Option<bytes>, selector: Option<bytes>, offset: nat, length: nat)

  datatype Chunk = Chunk(id: bytes, offset: nat, total: nat, data: bytes)

  /** `resolve` finds a definition, misses it (KeyError), or refuses. */
  datatype Resolution = Found(definition: Definition) | Missing | Refused

  class DefinitionCatalog {
    const sha256: bytes -> bytes
    var byId: map<bytes, Definition>
    var byLookup: map<Key, Definition>

    constructor (sha256: bytes -> bytes)
      ensures this.sha256 == sha256 && byId == map[] && byLookup == map[] && Valid()
    {
      this.sha256 := sha256;
      byId, byLookup := map[], map[];
    }

    function IdOf(d: Definition): bytes {
      sha256(d.envelope)
    }

    /** The two indexes hold the same definitions, each under its own id and its
        own lookup tuple. */
    ghost predicate Valid()
      reads this
    {
      && (forall id :: id in byId ==>
            IsDefinition(byId[id]) && IdOf(byId[id]) == id && KeyOf(byId[id]) in byLookup
            && byLookup[KeyOf(byId[id])] == byId[id])
      && (forall key :: key in byLookup ==>
            KeyOf(byLookup[key]) == key && IdOf(byLookup[key]) in byId && byId[IdOf(byLookup[key])] == byLookup[key])
    }

    /** The id or the lookup tuple is taken by another definition. */
    ghost predicate Conflicts(d: Definition)
      reads this
    {
      (IdOf(d) in byId && byId[IdOf(d)] != d) || (KeyOf(d) in byLookup && byLookup[KeyOf(d)] != d)
    }

    /** `add`: it fails exactly on a conflict, and then changes nothing. */
    method Add(d: Definition) returns (r: Result<Definition>)
      requires Valid() && IsDefinition(d)
      modifies this
      ensures Valid()
      ensures r.Raised? <==> old(Conflicts(d))
      ensures r.Raised? ==> byId == old(byId) && byLookup == old(byLookup)
      ensures r.Ok? ==> r.value == d && byId == old(byId)[IdOf(d) := d] && byLookup == old(byLookup)[KeyOf(d) := d]
    {
      var id, key := IdOf(d), KeyOf(d);
      if id in byId && byId[id].envelope != d.envelope {
        return Raised;
      }
      if id in byId && KeyOf(byId[id]) != key {
        return Raised;
      }
      if key in byLookup && IdOf(byLookup[key]) != id {
        return Raised;
      }
      byId := byId[id := d];
      byLookup := byLookup[key := d];
      return Ok(d);
    }

    /** What is registered after a sequence of additions: each definition takes
        effect unless its id or its lookup tuple then belongs to another one. */
    ghost function Registered(ids: map<bytes, Definition>, ds: seq<Definition>): map<bytes, Definition> {
      if ds == [] then ids
      else
        var before, d := Registered(ids, ds[..|ds| - 1]), ds[|ds| - 1];
        if exists id :: id in before && before[id] != d && (id == IdOf(d) || KeyOf(before[id]) == KeyOf(d)) then before
        else before[IdOf(d) := d]
    }

    /** Under the invariant a conflict shows in the first index alone. */
    lemma ConflictsIff(d: Definition)
      requires Valid()
      ensures Conflicts(d) <==>
                exists id :: id in byId && byId[id] != d && (id == IdOf(d) || KeyOf(byId[id]) == KeyOf(d))
    {
      if KeyOf(d) in byLookup && byLookup[KeyOf(d)] != d {
        assert byId[IdOf(byLookup[KeyOf(d)])] == byLookup[KeyOf(d)];
      }
    }

    /** Any sequence of additions, whether they fail or not. */
    method AddEach(ds: seq<Definition>)
      requires Valid() && forall i :: 0 <= i < |ds| ==> IsDefinition(ds[i])
      modifies this
      ensures Valid()
      ensures forall id :: id in old(byId) ==> id in byId && byId[id] == old(byId)[id]
      ensures forall id :: id in byId && id !in old(byId) ==> byId[id] in ds
      ensures byId == Registered(old(byId), ds)
    {
      assert ds[..0] == [];
      for i := 0 to |ds|
        invariant Valid() && byId == Registered(old(byId), ds[..i])
        invariant forall id :: id in old(byId) ==> id in byId && byId[id] == old(byId)[id]
        invariant forall id :: id in byId && id !in old(byId) ==> byId[id] in ds
      {
        assert ds[..i + 1][..i] == ds[..i];
        ConflictsIff(ds[i]);
        var _ := Add(ds[i]);
      }
      assert ds[..|ds|] == ds;
    }

    /** `resolve`. */
    function Resolve(q: Request): Resolution
      reads this
    {
      if q.depth.Some? && q.depth.value > MAX_RECURSION then Refused
      else
        var found :=
          match q.id
          case Some(id) => if id in byId then Some(byId[id]) else None
          case None =>
            var key := Key(q.kind, q.chainId, q.address, q.selector);
            if key in byLookup then Some(byLookup[key]) else None;
        match found
        case None => Missing
        case Some(d) => if q.kind != d.kind || q.chainId != d.chainId then Refused else Found(d)
    }

    /** A registered definition is found alike by its id and by its lookup
        tuple, and a definition that is found is registered under both. */
    lemma ResolveAgrees(d: Definition, q: Request)
      requires Valid() && (q.depth.Some? ==> q.depth.value <= MAX_RECURSION)
      requires q.kind == d.kind && q.chainId == d.chainId && q.address == d.address && q.selector == d.selector
      ensures Resolve(q.(id := Some(IdOf(d)))) == Found(d) <==> IdOf(d) in byId && byId[IdOf(d)] == d
      ensures Resolve(q.(id := None)) == Found(d) <==> IdOf(d) in byId && byId[IdOf(d)] == d
    {
    }

    /** `chunk`. */
    function ChunkFor(q: Request): Result<Chunk>
      reads this
    {
      match Resolve(q)
      case Refused => Raised
      case Missing =>
        if q.depth.None? || q.depth.value == 0 then Raised
        else Ok(Chunk(seq(32, _ => 0), 0, 0, []))
      case Found(d) =>
        if q.length == 0 || q.length > MAX_CHUNK || q.offset >= |d.envelope| then Raised
        else Ok(Chunk(IdOf(d), q.offset, |d.envelope|, Piece(d.envelope, q.offset, q.length)))
    }

    /** A device fetches a definition with lengths of its own choosing, asking on
        from where the last chunk ended. */
    method Fetch(d: Definition, q: Request, lengths: nat -> nat) returns (data: bytes)
      requires Valid() && Resolve(q) == Found(d)
      requires forall i: nat :: 1 <= lengths(i) <= MAX_CHUNK
      ensures data == d.envelope
    {
      data := [];
      var asked: nat := 0;
      var total := |d.envelope|;
      while |data| < total
        invariant |data| <= total == |d.envelope| && data == d.envelope[..|data|]
        decreases total - |data|
      {
        var chunk := ChunkFor(q.(offset := |data|, length := lengths(asked))).value;
        total := chunk.total;
        data := data + chunk.data;
        asked := asked + 1;
      }
      assert d.envelope[..|d.envelope|] == d.envelope;
    }
  }

  /** `envelope[offset:min(offset + length, len(envelope))]`. */
  function Piece(envelope: bytes, offset: nat, length: nat): (b: bytes)
    requires offset <= |envelope|
    ensures offset + |b| <= |envelope| && |b| <= length && (offset < |envelope| && length > 0 ==> b != [])
  {
    envelope[offset..if offset + length <= |envelope| then offset + length else |envelope|]
  }

  // -------------------------------------------------------------------- preload

  /** The device's answer to one preload message. */
  datatype PreloadResponse = Ack(id: bytes, nextOffset: nat, complete: bool) | OtherResponse

  /** The chunks of an envelope in order, from `offset` on. */
  function Stream(id: bytes, envelope: bytes, offset: nat): seq<Chunk>
    requires offset <= |envelope|
    decreases |envelope| - offset
  {
    if offset == |envelope| then []
    else
      var data := Piece(envelope, offset, MAX_CHUNK);
      [Chunk(id, offset, |envelope|, data)] + Stream(id, envelope, offset + |data|)
  }

  function Data(chunks: seq<Chunk>): bytes {
    if chunks == [] then [] else chunks[0].data + Data(chunks[1..])
  }

  /** The offsets are contiguous. */
  predicate Contiguous(chunks: seq<Chunk>, offset: nat) {
    chunks == [] || (chunks[0].offset == offset && Contiguous(chunks[1..], offset + |chunks[0].data|))
  }

  /** The stream reassembles to the envelope, without gaps. */
  lemma {:induction false} StreamReassembles(id: bytes, envelope: bytes, offset: nat)
    requires offset <= |envelope|
    ensures Data(Stream(id, envelope, offset)) == envelope[offset..]
    ensures Contiguous(Stream(id, envelope, offset), offset)
    decreases |envelope| - offset
  {
    if offset < |envelope| {
      var data := Piece(envelope, offset, MAX_CHUNK);
      StreamReassembles(id, envelope, offset + |data|);
      assert Stream(id, envelope, offset)[1..] == Stream(id, envelope, offset + |data|);
    }
  }

  /** The device acknowledges every chunk: its id, the next offset, and whether
      that completes the envelope. */
  ghost predicate Acknowledges(device: nat -> PreloadResponse, id: bytes, envelope: bytes) {
    forall i :: 0 <= i < |Stream(id, envelope, 0)| ==>
             Acknowledged(device, id, |envelope|, i, Stream(id, envelope, 0)[i])
  }

  predicate Acknowledged(device: nat -> PreloadResponse, id: bytes, total: nat, i: nat, c: Chunk) {
    device(i) == Ack(id, c.offset + |c.data|, c.offset + |c.data| == total)
  }

  /** The stream's entry `n` is the chunk at the offset the rest starts from. */
  lemma StreamStep(id: bytes, envelope: bytes, stream: seq<Chunk>, n: nat, offset: nat)
    requires offset < |envelope| && n <= |stream| && stream[n..] == Stream(id, envelope, offset)
    ensures var data := Piece(envelope, offset, MAX_CHUNK);
            && n < |stream| && stream[n] == Chunk(id, offset, |envelope|, data)
            && stream[n + 1..] == Stream(id, envelope, offset + |data|)
  {
    hide Piece;
    var data := Piece(envelope, offset, MAX_CHUNK);
    var rest := Stream(id, envelope, offset + |data|);
    assert stream[n..] == [Chunk(id, offset, |envelope|, data)] + rest;
    assert stream[n..][1..] == stream[n + 1..] && stream[n..][0] == stream[n];
    assert stream[n..][1..] == rest;
  }

  /** `preload`: whatever the device answers, what is sent is a beginning of the
      envelope's stream; it returns normally exactly when the device acknowledges
      every chunk, and then the whole stream was sent. */
  method Preload(sha256: bytes -> bytes, d: Definition, device: nat -> PreloadResponse)
    returns (r: Result<()>, sent: seq<Chunk>)
    ensures sent <= Stream(sha256(d.envelope), d.envelope, 0)
    ensures r.Ok? <==> Acknowledges(device, sha256(d.envelope), d.envelope)
    ensures r.Ok? ==> sent == Stream(sha256(d.envelope), d.envelope, 0)
    ensures r.Ok? ==> Data(sent) == d.envelope && Contiguous(sent, 0)
  {
    hide Stream, Piece, Data, Contiguous;
    var id := sha256(d.envelope);
    ghost var stream := Stream(id, d.envelope, 0);
    var offset := 0;
    sent := [];
    while offset < |d.envelope|
      invariant offset <= |d.envelope| && |sent| <= |stream| && sent == stream[..|sent|]
      invariant stream[|sent|..] == Stream(id, d.envelope, offset)
      invariant forall i :: 0 <= i < |sent| ==> Acknowledged(device, id, |d.envelope|, i, stream[i])
    {
      StreamStep(id, d.envelope, stream, |sent|, offset);
      var data := Piece(d.envelope, offset, MAX_CHUNK);
      var response := device(|sent|);
      var expected := offset + |data|;
      var accepted := response == Ack(id, expected, expected == |d.envelope|);
      assert accepted == Acknowledged(device, id, |d.envelope|, |sent|, stream[|sent|]);
      sent := sent + [Chunk(id, offset, |d.envelope|, data)];
      if !accepted {
        return Raised, sent;
      }
      offset := expected;
    }
    StreamEnd(id, d.envelope);
    assert |stream[|sent|..]| == 0;
    StreamReassembles(id, d.envelope, 0);
    assert d.envelope[0..] == d.envelope && sent == stream;
    return Ok(()), sent;
  }

  lemma StreamEnd(id: bytes, envelope: bytes)
    ensures Stream(id, envelope, |envelope|) == []
  {
  }
}
