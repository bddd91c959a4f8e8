/** The streams of the cryptography API: a request iterator that cuts its data into numbered chunks, and a
    response that hands out bytes from numbered chunks through a buffer. */
module CryptoStreams {
  import opened Wrappers
  import opened Base64

  // --- Requests -----------------------------------------------------------------------------------------

  const BUFFER_SIZE := 2048

  /** The options travel with the first chunk only. */
  datatype Request<O> = Request(seqNo: nat, data: seq<byte>, options: Option<O>)

  function Min(a: nat, b: nat): nat { if a < b then a else b }

  /** How far the first k chunks reach. */
  function Reach(data: seq<byte>, k: nat): nat { Min(BUFFER_SIZE * k, |data|) }

  function RequestAt<O>(data: seq<byte>, options: O, k: nat): Request<O> {
    Request(k, data[Reach(data, k)..Reach(data, k + 1)], if k == 0 then Some(options) else None)
  }

  /** Everything the iterator yields from chunk k on. */
  function RequestsFrom<O>(data: seq<byte>, options: O, k: nat): seq<Request<O>>
    decreases |data| - Reach(data, k)
  {
    if Reach(data, k) == |data| then [] else [RequestAt(data, options, k)] + RequestsFrom(data, options, k + 1)
  }

  function Payload<O>(requests: seq<Request<O>>): seq<byte> {
    if requests == [] then [] else requests[0].data + Payload(requests[1..])
  }

  class RequestIterator<O> {
    const data: seq<byte>
    const options: O
    var position: nat
    var seqNo: nat

    ghost predicate Valid()
      reads this
    {
      position == Reach(data, seqNo)
    }

    /** What is still to come. */
    ghost function Remaining(): seq<Request<O>>
      reads this
    {
      RequestsFrom(data, options, seqNo)
    }

    constructor (data: seq<byte>, options: O)
      ensures Valid() && Remaining() == RequestsFrom(data, options, 0)
      ensures this.data == data && this.options == options
    {
      this.data, this.options, position, seqNo := data, options, 0, 0;
    }

    method Next() returns (r: Option<Request<O>>)
      requires Valid()
      modifies this
      ensures Valid()
      ensures r == None <==> old(Remaining()) == []
      ensures old(Remaining()) == (if r.Some? then [r.value] else []) + Remaining()
    {
      var end := Min(position + BUFFER_SIZE, |data|);
      var chunk := data[position..end];
      position := end;
      if chunk == [] {
        return None;
      }
      r := Some(Request(seqNo, chunk, if seqNo == 0 then Some(options) else None));
      seqNo := seqNo + 1;
    }
  }

  /** The chunks are numbered on from k, each but the last holds exactly 2048 bytes and none is empty,
      only chunk 0 carries the options, and together they are the rest of the data. */
  lemma {:induction false} RequestsCover<O>(data: seq<byte>, options: O, k: nat)
    ensures var rs := RequestsFrom(data, options, k);
            && Payload(rs) == data[Reach(data, k)..]
            && forall i :: 0 <= i < |rs| ==>
                 && rs[i].seqNo == k + i
                 && 0 < |rs[i].data| <= BUFFER_SIZE
                 && (i < |rs| - 1 ==> |rs[i].data| == BUFFER_SIZE)
                 && rs[i].options == if k + i == 0 then Some(options) else None
    decreases |data| - Reach(data, k)
  {
    if Reach(data, k) < |data| {
      RequestsCover(data, options, k + 1);
      var rs := RequestsFrom(data, options, k);
      assert rs[1..] == RequestsFrom(data, options, k + 1);
      assert data[Reach(data, k)..] == RequestAt(data, options, k).data + data[Reach(data, k + 1)..];
    }
  }

  /** No data, no request: then the options are never sent. */
  lemma OptionsAreSentIff<O>(data: seq<byte>, options: O)
    ensures (exists r :: r in RequestsFrom(data, options, 0) && r.options.Some?) <==> data != []
  {
    if data != [] {
      assert RequestsFrom(data, options, 0)[0] == RequestAt(data, options, 0);
    }
  }

  // --- Responses ----------------------------------------------------------------------------------------

  datatype Chunk = Chunk(seqNo: int, data: seq<byte>)

  function Concat(chunks: seq<Chunk>): seq<byte> {
    if chunks == [] then [] else chunks[0].data + Concat(chunks[1..])
  }

  predicate Numbered(chunks: seq<Chunk>, from: nat) {
    forall i :: 0 <= i < |chunks| ==> chunks[i].seqNo == from + i
  }

  /** The loop of a sized read: what it has gathered, or None if a chunk is out of sequence, and how many
      chunks it took off the stream. */
  function Gather(chunks: seq<Chunk>, expected: nat, data: seq<byte>, size: nat): (r: (Option<seq<byte>>, nat))
    ensures r.1 <= |chunks|
  {
    if chunks == [] then (Some(data), 0)
    else if chunks[0].seqNo != expected then (None, 1)
    else if |data + chunks[0].data| >= size then (Some(data + chunks[0].data), 1)
    else
      var (r, n) := Gather(chunks[1..], expected + 1, data + chunks[0].data, size);
      (r, n + 1)
  }

  /** All the chunks, or None if one is out of sequence. */
  function Drained(chunks: seq<Chunk>, expected: nat): Option<seq<byte>> {
    if chunks == [] then Some([])
    else if chunks[0].seqNo != expected then None
    else match Drained(chunks[1..], expected + 1)
      case Some(rest) => Some(chunks[0].data + rest)
      case None => None
  }

  class CryptoResponse {
    var stream: seq<Chunk>
    var buffer: seq<byte>
    var expectedSeq: nat

    constructor (stream: seq<Chunk>)
      ensures this.stream == stream && buffer == [] && expectedSeq == 0
    {
      this.stream, buffer, expectedSeq := stream, [], 0;
    }

    /** What no read has returned yet. */
    ghost function Unread(): seq<byte>
      reads this
    {
      buffer + Concat(stream)
    }

    /** Whether the chunks still to come carry the numbers expected of them. */
    ghost predicate InSequence()
      reads this
    {
      Numbered(stream, expectedSeq)
    }

    /** One step of iteration: the next chunk; Err if its number is wrong, None at the end. */
    method NextChunk() returns (r: Result<Option<seq<byte>>, ()>)
      modifies this`stream, this`expectedSeq
      ensures old(stream) == [] ==> r == Ok(None) && stream == [] && expectedSeq == old(expectedSeq)
      ensures old(stream) != [] ==>
        && stream == old(stream)[1..]
        && if old(stream)[0].seqNo == old(expectedSeq)
           then r == Ok(Some(old(stream)[0].data)) && expectedSeq == old(expectedSeq) + 1
           else r == Err(()) && expectedSeq == old(expectedSeq)
    {
      if stream == [] {
        return Ok(None);
      }
      var chunk := stream[0];
      stream := stream[1..];
      if chunk.seqNo != expectedSeq {
        return Err(());
      }
      expectedSeq := expectedSeq + 1;
      r := Ok(Some(chunk.data));
    }

    /** A sized read, on any stream: it always takes a chunk if there is one, even if the buffer would do,
        and a chunk out of sequence costs the buffer. */
    method Read(size: nat) returns (r: Result<seq<byte>, ()>)
      modifies this
      ensures var (gathered, taken) := Gather(old(stream), old(expectedSeq), old(buffer), size);
              && stream == old(stream)[taken..]
              && (gathered.None? ==> r == Err(()) && buffer == [])
              && (gathered.Some? ==>
                    var n := Min(size, |gathered.value|);
                    && expectedSeq == old(expectedSeq) + taken
                    && r == Ok(gathered.value[..n]) && buffer == gathered.value[n..])
    {
      var data := buffer;
      buffer := [];
      ghost var taken := 0;
      var more := true;
      while more
        invariant buffer == [] && taken <= |old(stream)| && stream == old(stream)[taken..]
        invariant expectedSeq == old(expectedSeq) + taken
        invariant var (g, n) := Gather(old(stream), old(expectedSeq), old(buffer), size);
                  if more then var (g', n') := Gather(stream, expectedSeq, data, size); g == g' && n == taken + n'
                  else g == Some(data) && n == taken
        decreases more, |stream|
      {
        var chunk := NextChunk();
        match chunk {
          case Err(_) => return Err(());
          case Ok(None) => more := false;
          case Ok(Some(bytes)) =>
            taken := taken + 1;
            data := data + bytes;
            more := |data| < size;
        }
      }
      buffer := data[Min(size, |data|)..];
      r := Ok(data[..Min(size, |data|)]);
    }

    /** read(-1): everything left on the stream, whatever is in the buffer. */
    method ReadToEnd() returns (r: Result<seq<byte>, ()>)
      modifies this
      ensures buffer == old(buffer)
      ensures match Drained(old(stream), old(expectedSeq))
              case Some(data) => r == Ok(data) && stream == [] && expectedSeq == old(expectedSeq) + |old(stream)|
              case None => r == Err(())
    {
      var data: seq<byte> := [];
      ghost var taken := 0;
      assert Drained(stream, expectedSeq).Some? ==>
        data + Drained(stream, expectedSeq).value == Drained(stream, expectedSeq).value;
      while true
        invariant buffer == old(buffer) && taken <= |old(stream)| && stream == old(stream)[taken..]
        invariant expectedSeq == old(expectedSeq) + taken
        invariant match Drained(stream, expectedSeq)
                  case Some(rest) => Drained(old(stream), old(expectedSeq)) == Some(data + rest)
                  case None => Drained(old(stream), old(expectedSeq)) == None
        decreases |stream|
      {
        ghost var sofar := data;
        var chunk := NextChunk();
        match chunk {
          case Err(_) => return Err(());
          case Ok(None) => assert data + [] == data; return Ok(data);
          case Ok(Some(bytes)) =>
            taken := taken + 1;
            data := data + bytes;
            assert forall rest :: sofar + (bytes + rest) == data + rest;
        }
      }
    }
  }

  /** On a stream in sequence a sized read gathers the buffer and whole chunks, enough of them or all. */
  lemma {:induction false} GatherTakes(chunks: seq<Chunk>, expected: nat, data: seq<byte>, size: nat)
    requires Numbered(chunks, expected)
    ensures var (gathered, taken) := Gather(chunks, expected, data, size);
            && gathered.Some?
            && gathered.value + Concat(chunks[taken..]) == data + Concat(chunks)
            && (|gathered.value| >= size || taken == |chunks|)
            && Numbered(chunks[taken..], expected + taken)
    decreases |chunks|
  {
    if chunks == [] {
    } else {
      var data1 := data + chunks[0].data;
      assert data1 + Concat(chunks[1..]) == data + Concat(chunks);
      if |data1| < size {
        GatherTakes(chunks[1..], expected + 1, data1, size);
        var taken := Gather(chunks[1..], expected + 1, data1, size).1;
        assert chunks[1..][taken..] == chunks[taken + 1..];
      }
    }
  }

  lemma {:induction false} DrainedIsConcat(chunks: seq<Chunk>, expected: nat)
    ensures Drained(chunks, expected) == if Numbered(chunks, expected) then Some(Concat(chunks)) else None
    decreases |chunks|
  {
    if chunks != [] {
      DrainedIsConcat(chunks[1..], expected + 1);
      assert Numbered(chunks, expected) <==> chunks[0].seqNo == expected && Numbered(chunks[1..], expected + 1) by {
        assert forall i :: 0 <= i < |chunks[1..]| ==> chunks[1..][i] == chunks[i + 1];
      }
    }
  }

  /** What a session of sized reads should return, and what it should leave. */
  function Pieces(whole: seq<byte>, sizes: seq<nat>): seq<seq<byte>> {
    if sizes == [] then []
    else [whole[..Min(sizes[0], |whole|)]] + Pieces(whole[Min(sizes[0], |whole|)..], sizes[1..])
  }

  function Rest(whole: seq<byte>, sizes: seq<nat>): seq<byte> {
    if sizes == [] then whole else Rest(whole[Min(sizes[0], |whole|)..], sizes[1..])
  }

  /** One sized read returns exactly the next min(size, unread) bytes. */
  method ReadNext(response: CryptoResponse, size: nat) returns (r: seq<byte>)
    requires response.InSequence()
    modifies response
    ensures response.InSequence()
    ensures var n := Min(size, |old(response.Unread())|);
            r == old(response.Unread())[..n] && response.Unread() == old(response.Unread())[n..]
  {
    ghost var whole := response.Unread();
    GatherTakes(response.stream, response.expectedSeq, response.buffer, size);
    var result := response.Read(size);
    r := result.value;
    assert r + response.Unread() == whole;
    assert |r| == Min(size, |whole|);
  }

  /** Over a stream in sequence, any sized reads cut what is unread into exactly those pieces. */
  method ReadMany(response: CryptoResponse, sizes: seq<nat>) returns (results: seq<seq<byte>>)
    requires response.InSequence()
    modifies response
    ensures results == Pieces(old(response.Unread()), sizes)
    ensures response.InSequence() && response.Unread() == Rest(old(response.Unread()), sizes)
  {
    results := [];
    ghost var whole := response.Unread();
    var i := 0;
    while i < |sizes|
      invariant 0 <= i <= |sizes| && response.InSequence()
      invariant results + Pieces(response.Unread(), sizes[i..]) == Pieces(whole, sizes)
      invariant Rest(response.Unread(), sizes[i..]) == Rest(whole, sizes)
    {
      ghost var before := response.Unread();
      var r := ReadNext(response, sizes[i]);
      assert sizes[i..][1..] == sizes[i + 1..];
      assert Pieces(before, sizes[i..]) == [r] + Pieces(response.Unread(), sizes[i + 1..]);
      results := results + [r];
      i := i + 1;
    }
  }

  function Flatten(parts: seq<seq<byte>>): seq<byte> {
    if parts == [] then [] else parts[0] + Flatten(parts[1..])
  }

  /** Nothing is lost or repeated. */
  lemma {:induction false} PiecesTile(whole: seq<byte>, sizes: seq<nat>)
    ensures Flatten(Pieces(whole, sizes)) + Rest(whole, sizes) == whole
    ensures |Pieces(whole, sizes)| == |sizes|
  {
    hide Flatten, Pieces, Rest, Min;
    if sizes == [] {
      NoPieces(whole);
    } else {
      var n := Min(sizes[0], |whole|);
      PiecesMore(whole, sizes);
      PiecesTile(whole[n..], sizes[1..]);
      var head, tail, rest := whole[..n], Flatten(Pieces(whole[n..], sizes[1..])), Rest(whole[n..], sizes[1..]);
      FlattenMore(head, Pieces(whole[n..], sizes[1..]));
      assert (head + tail) + rest == head + (tail + rest);
      assert whole == head + whole[n..];
    }
  }

  lemma NoPieces(whole: seq<byte>)
    ensures Pieces(whole, []) == [] && Rest(whole, []) == whole && Flatten([]) == []
  {
  }

  lemma PiecesMore(whole: seq<byte>, sizes: seq<nat>)
    requires sizes != []
    ensures var n := Min(sizes[0], |whole|);
            && n <= |whole|
            && Pieces(whole, sizes) == [whole[..n]] + Pieces(whole[n..], sizes[1..])
            && Rest(whole, sizes) == Rest(whole[n..], sizes[1..])
  {
  }

  lemma FlattenMore(part: seq<byte>, parts: seq<seq<byte>>)
    ensures Flatten([part] + parts) == part + Flatten(parts)
  {
    assert ([part] + parts)[1..] == parts;
  }

  /** read(-1) returns what is unread if and only if no sized read has left anything in the buffer. */
  lemma ReadToEndIsAllIff(stream: seq<Chunk>, buffer: seq<byte>, expected: nat)
    requires Numbered(stream, expected)
    ensures Drained(stream, expected) == Some(buffer + Concat(stream)) <==> buffer == []
  {
    DrainedIsConcat(stream, expected);
    if buffer == [] {
      assert buffer + Concat(stream) == Concat(stream);
    } else {
      assert |buffer + Concat(stream)| > |Concat(stream)|;
    }
  }
}
