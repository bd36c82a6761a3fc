/** The data loop of `ethereum_sign_tx` (keepkeylib/client.py): the device asks
    for transaction data and for definitions, in any order, until it delivers
    the signature. */
module EthereumSigning {
  import opened Wrappers
  import opened Bytes
  import opened Catalog

  const FIRST_CHUNK: nat := 1024

  datatype Response =
    | TxRequest(dataLength: Option<nat>, hasSignature: bool)
    | DefinitionRequest(request: Request)
    | Failure
    | OtherResponse

  /** `data[:n]` and `data[n:]`. */
  function Take(data: bytes, n: nat): bytes {
    if n <= |data| then data[..n] else data
  }

  function Drop(data: bytes, n: nat): bytes {
    if n <= |data| then data[n..] else []
  }

  /** The chunks that answer a list of responses, from `rest` on, and what they
      leave. */
  function Answers(rest: bytes, responses: seq<Response>): (seq<bytes>, bytes) {
    if responses == [] then ([], rest)
    else
      var (before, left) := Answers(rest, responses[..|responses| - 1]);
      match responses[|responses| - 1]
      case TxRequest(Some(length), _) => (before + [Take(left, length)], Drop(left, length))
      case _ => (before, left)
  }

  function Joined(chunks: seq<bytes>): bytes {
    if chunks == [] then [] else Joined(chunks[..|chunks| - 1]) + chunks[|chunks| - 1]
  }

  /** The data chunks the host sent and what is left of the data: together they
      are always the data, whatever was asked. */
  class Signing {
    const data: Option<bytes>
    const catalog: DefinitionCatalog?
    var remaining: Option<bytes>
    var chunks: seq<bytes>
    var definitions: seq<Chunk>

    constructor (data: Option<bytes>, catalog: DefinitionCatalog?)
      ensures this.data == data && this.catalog == catalog && chunks == [] && definitions == [] && remaining == data
      ensures Conserved()
    {
      this.data, this.catalog := data, catalog;
      remaining, chunks, definitions := data, [], [];
    }

    ghost predicate Conserved()
      reads this
    {
      match data
      case None => remaining.None? && chunks == []
      case Some(all) => remaining.Some? && Joined(chunks) + remaining.value == all
    }

    /** The first chunk travels with the transaction. */
    method SendInitial()
      requires Conserved() && chunks == [] && remaining == data
      modifies this`remaining, this`chunks
      ensures Conserved()
      ensures data.Some? && data.value != [] ==> chunks == [Take(data.value, FIRST_CHUNK)]
      ensures data.None? || data.value == [] ==> chunks == []
    {
      if remaining.Some? && remaining.value != [] {
        var all := remaining.value;
        remaining, chunks := Some(Drop(all, FIRST_CHUNK)), [Take(all, FIRST_CHUNK)];
        assert chunks[..0] == [] && [] + Take(all, FIRST_CHUNK) == Take(all, FIRST_CHUNK);
      }
    }

    /** One data request: the next bytes are sent and taken off the data. */
    method SendChunk(length: nat) returns (r: Result<()>)
      requires Conserved()
      modifies this`remaining, this`chunks
      ensures Conserved()
      ensures r.Ok? <==> data.Some?
      ensures r.Raised? ==> chunks == old(chunks) && remaining == old(remaining)
      ensures r.Ok? ==> chunks == old(chunks) + [Take(old(remaining).value, length)]
                        && remaining == Some(Drop(old(remaining).value, length))
    {
      if remaining.None? {
        return Raised;
      }
      var rest := remaining.value;
      var next := chunks + [Take(rest, length)];
      assert next[..|chunks|] == chunks;
      assert Joined(chunks) + (Take(rest, length) + Drop(rest, length)) ==
               (Joined(chunks) + Take(rest, length)) + Drop(rest, length);
      assert Take(rest, length) + Drop(rest, length) == rest;
      remaining, chunks := Some(Drop(rest, length)), next;
      return Ok(());
    }

    /** The response loop, against any finite list of responses: at its end,
        however it ends, the bytes sent and the bytes left are the data. It
        returns normally exactly when a signature comes before any response
        that cannot be answered. */
    method Run(responses: seq<Response>) returns (r: Result<()>)
      requires Conserved()
      modifies this`remaining, this`chunks, this`definitions
      ensures Conserved()
      ensures r.Ok? <==> exists n :: 0 <= n < |responses| && SignatureAt(responses, n)
      ensures r.Ok? ==>
                exists n ::
                  && 0 <= n < |responses| && SignatureAt(responses, n)
                  && Answered(old(remaining), old(chunks), responses[..n])
    {
      assert responses[..0] == [];
      for i := 0 to |responses|
        invariant Conserved()
        invariant forall j :: 0 <= j < i ==> Answerable(responses[j]) && !IsSignature(responses[j])
        invariant Answered(old(remaining), old(chunks), responses[..i])
      {
        assert responses[..i + 1][..i] == responses[..i];
        if responses[i].TxRequest? && responses[i].hasSignature {
          assert SignatureAt(responses, i);
          return Ok(());
        }
        var done := Answer(responses[i]);
        if done.Raised? {
          return Raised;
        }
      }
      return Raised;
    }

    /** Each data request so far was answered with the next bytes, at the length
        asked for. */
    ghost predicate Answered(rest: Option<bytes>, before: seq<bytes>, responses: seq<Response>)
      reads this
    {
      match rest
      case None => remaining.None? && chunks == before
      case Some(all) =>
        var (sent, left) := Answers(all, responses);
        remaining == Some(left) && chunks == before + sent
    }

    predicate Answerable(response: Response)
      reads catalog
    {
      match response
      case DefinitionRequest(request) => catalog != null && catalog.ChunkFor(request).Ok?
      case TxRequest(length, _) => length.Some? && data.Some?
      case _ => false
    }

    predicate IsSignature(response: Response) {
      response.TxRequest? && response.hasSignature
    }

    /** Response `n` is the signature, and all before it were answered. */
    predicate SignatureAt(responses: seq<Response>, n: nat)
      reads catalog
    {
      && n < |responses| && IsSignature(responses[n])
      && forall j :: 0 <= j < n ==> Answerable(responses[j]) && !IsSignature(responses[j])
    }

    method Answer(response: Response) returns (r: Result<()>)
      requires Conserved()
      modifies this`remaining, this`chunks, this`definitions
      ensures Conserved()
      ensures r.Ok? <==> Answerable(response)
      ensures r.Ok? && response.TxRequest? ==>
                && definitions == old(definitions)
                && chunks == old(chunks) + [Take(old(remaining).value, response.dataLength.value)]
                && remaining == Some(Drop(old(remaining).value, response.dataLength.value))
      ensures r.Ok? && response.DefinitionRequest? ==>
                && definitions == old(definitions) + [catalog.ChunkFor(response.request).value]
                && chunks == old(chunks) && remaining == old(remaining)
    {
      match response {
        case DefinitionRequest(request) =>
          if catalog == null {
            return Raised;
          }
          var chunk :- catalog.ChunkFor(request);
          definitions := definitions + [chunk];
          return Ok(());
        case TxRequest(length, _) =>
          if length.None? {
            return Raised;
          }
          r := SendChunk(length.value);
        case _ => return Raised;
      }
    }
  }
}
