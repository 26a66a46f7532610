/** The two loops that carry JSON between HTTP and the I/O manager. On the I/O manager's side the
    stream is cut into chunks, each with its length as a varint in front, and ends with a zero; on
    the HTTP side data is written in pieces of a fixed size. */
module JsonStreams {
  import opened Bytes
  import opened Varint

  newtype uint32 = x: int | 0 <= x < 0x1_0000_0000
  newtype uint64 = x: int | 0 <= x < 0x1_0000_0000_0000_0000

  const MAX_VARINT_LENGTH: nat := 5
  const MAX_CHUNK_SIZE: uint32 := 0x7FFF_FFFF

  // ---- What a framed stream means ----

  /** The 32-bit number at the front of `s`, cut from what up to five bytes hold, and what follows. */
  function ReadSize(s: seq<byte>): (r: Option<(nat, seq<byte>)>)
    ensures r.Some? ==> r.value.0 < UINT32_LIMIT && |r.value.1| < |s|
  {
    match DecodeVarint(s)
    case None => None
    case Some((v, n)) => if n > MAX_VARINT_LENGTH then None else Some((v % UINT32_LIMIT, s[n..]))
  }

  /** The payload of a framed stream and what follows the stream. */
  function Payload(s: seq<byte>): Option<(seq<byte>, seq<byte>)>
    decreases |s|
  {
    match ReadSize(s)
    case None => None
    case Some((size, rest)) =>
      if size == 0 then Some(([], rest))
      else if size > MAX_CHUNK_SIZE as int || size > |rest| then None
      else PrependFirst(rest[..size], Payload(rest[size..]))
  }

  // ---- From the I/O manager to HTTP ----

  /** What has been written to the HTTP side, one piece per write. */
  class Response {
    var writes: seq<seq<byte>>

    constructor ()
      ensures writes == []
    {
      writes := [];
    }

    method Write(buffer: array<byte>, size: uint32) returns (written: uint64)
      requires size as int <= buffer.Length
      modifies this
      ensures written as int == size as int && writes == old(writes) + [buffer[..size]]
    {
      writes := writes + [buffer[..size]];
      written := size as uint64;
    }
  }

  class Connection {
    var input: seq<byte>
    var output: seq<byte>

    constructor (input: seq<byte>)
      ensures this.input == input && output == []
    {
      this.input, output := input, [];
    }

    /** Reads byte by byte until a number is complete, five bytes at most. */
    method ReadVarint32() returns (r: Option<uint32>)
      modifies this`input
      ensures r.None? <==> ReadSize(old(input)).None?
      ensures r.Some? ==> ReadSize(old(input)) == Some((r.value as int, input))
    {
      hide DecodeVarint, ReadSize;
      var prefix: seq<byte> := [];
      while true
        invariant |prefix| <= MAX_VARINT_LENGTH && old(input) == prefix + input
        invariant forall i :: 0 <= i < |prefix| ==> prefix[i] >= 128
        decreases |input|
      {
        if |prefix| >= MAX_VARINT_LENGTH {
          NoSize(prefix, input);
          return None;
        }
        if input == [] {
          NoSize(prefix, input);
          return None;
        }
        var b := input[0];
        SizeDecided(prefix, input);
        prefix, input := prefix + [b], input[1..];
        match DecodeVarint(prefix)
        case None =>
        case Some((v, n)) =>
          return Some((v % UINT32_LIMIT) as uint32);
      }
    }

    /** Fills part of a buffer, or fails at the end of the input. */
    method ReadFull(buffer: array<byte>, size: uint32, position: uint32) returns (read: Option<uint64>)
      requires position as int + size as int <= buffer.Length
      modifies this`input, buffer
      ensures read.None? <==> |old(input)| < size as int
      ensures read.Some? ==>
                && read.value as int == size as int && input == old(input)[size..]
                && buffer[..position as int + size as int] == old(buffer[..position]) + old(input)[..size]
    {
      if |input| < size as int {
        return None;
      }
      forall i | 0 <= i < size as int {
        buffer[position as int + i] := input[i];
      }
      input := input[size..];
      read := Some(size as uint64);
    }

    /** Passes `size` bytes of a chunk on to the HTTP side. Data is collected in the buffer, of which
        the first `position` bytes are filled, and written whenever the buffer is full. */
    method PassChunk(http: Response, buffer: array<byte>, size: uint32, position: uint32)
        returns (ok: bool, position': uint32, read: uint64, written: uint64)
      requires position as int < buffer.Length < UINT32_LIMIT && AllOfSize(http.writes, buffer.Length)
      modifies this`input, http, buffer
      ensures ok <==> size as int <= |old(input)|
      ensures ok ==>
                && position' as int < buffer.Length && AllOfSize(http.writes, buffer.Length)
                && input == old(input)[size..] && read as int == size as int
                && |Concat(http.writes)| == |Concat(old(http.writes))| + written as int
                && Concat(http.writes) + buffer[..position']
                   == Concat(old(http.writes)) + old(buffer[..position]) + old(input)[..size]
    {
      hide Concat;
      var remaining := size;
      position', read, written := position, 0, 0;
      ghost var before := Concat(http.writes) + buffer[..position];
      while remaining > 0
        invariant remaining <= size && read as int == size as int - remaining as int <= |old(input)|
        invariant position' as int < buffer.Length && AllOfSize(http.writes, buffer.Length)
        invariant input == old(input)[read..]
        invariant |Concat(http.writes)| == |Concat(old(http.writes))| + written as int
        invariant Concat(http.writes) + buffer[..position'] == before + old(input)[..read]
        invariant written as int <= position as int + read as int
      {
        var free := buffer.Length - position' as int;
        var most := if free < remaining as int then free as uint32 else remaining;
        ghost var data, filled, writes := input, buffer[..position'], http.writes;
        var got := ReadFull(buffer, most, position');
        if got.None? {
          return false, position', read, written;
        }
        DataMoved(Concat(writes), filled, before, old(input), read as int, most as int);
        remaining, read, position' := remaining - most, read + got.value, position' + most;
        if position' as int == buffer.Length {
          ConcatSnoc(http.writes, buffer[..position']);
          var w := http.Write(buffer, position');
          position', written := 0, written + w;
          assert Concat(http.writes) + buffer[..position'] == Concat(http.writes);
        }
      }
      ok := true;
    }

    /** Passes a whole framed stream on to the HTTP side. */
    method ReadChunkedJSON(http: Response, httpChunkSize: uint32) returns (ok: bool)
      requires httpChunkSize > 0 && http.writes == [] && |input| < UINT64_LIMIT
      modifies this`input, http
      ensures ok <==> Payload(old(input)).Some?
      ensures ok ==> Payload(old(input)) == Some((Concat(http.writes), input))
      ensures ok ==> forall i :: 0 <= i < |http.writes| ==>
                       if i + 1 < |http.writes| then |http.writes[i]| == httpChunkSize as int
                       else 0 < |http.writes[i]| <= httpChunkSize as int
    {
      hide Concat, Payload;
      var buffer := new byte[httpChunkSize](_ => 0);
      var position: uint32, readTotal: uint64, writtenTotal: uint64 := 0, 0, 0;
      ghost var goal, done := Payload(input), [];
      assert Concat(http.writes) + buffer[..position] == [] by { NoWrites(http.writes); }
      PrependFirstNothing(goal);
      while true
        invariant position as int < buffer.Length == httpChunkSize as int && AllOfSize(http.writes, buffer.Length)
        invariant done == Concat(http.writes) + buffer[..position] && goal == PrependFirst(done, Payload(input))
        invariant |done| + |input| <= |old(input)| && readTotal as int == |done|
        invariant writtenTotal as int == |Concat(http.writes)|
        decreases |input|
      {
        PayloadStep(input);
        var size := ReadVarint32();
        if size.None? {
          return false;
        }
        if size.value == 0 {
          break;
        }
        if size.value > MAX_CHUNK_SIZE {
          return false;
        }
        ghost var data := input;
        var passed, p, r, w := PassChunk(http, buffer, size.value, position);
        if !passed {
          return false;
        }
        PrependFirstTwice(done, data[..size.value], Payload(input));
        done := done + data[..size.value];
        position, readTotal, writtenTotal := p, readTotal + r, writtenTotal + w;
      }
      ghost var writes := http.writes;
      if position > 0 {
        ConcatSnoc(http.writes, buffer[..position]);
        var w := http.Write(buffer, position);
        writtenTotal := writtenTotal + w;
      } else {
        assert done == Concat(http.writes);
      }
      assert Concat(http.writes) == done;
      assert goal == Some((done, input)) by { assert done + [] == done; }
      if readTotal != writtenTotal {
        // Never reached: everything that was read has been written
        assert false;
      }
      ok := true;
    }

    /** Sends one chunk. */
    method WriteChunk(chunk: seq<byte>)
      modifies this`output
      ensures output == old(output) + Frame(chunk)
    {
      output := output + EncodeVarint(|chunk|);
      if |chunk| > 0 {
        output := output + chunk;
      }
      assert old(output) + EncodeVarint(|chunk|) + chunk == old(output) + Frame(chunk);
    }

    /** Sends a request body buffer by buffer. A body that fills its last buffer exactly ends in an
        error, since the end of the body is then found with nothing read. */
    method WriteJSONPayload(body: seq<byte>, bufferSize: nat, limit: nat) returns (ok: bool)
      requires 0 < bufferSize <= MAX_CHUNK_SIZE as int
      modifies this`output
      ensures ok <==> |body| % bufferSize != 0 && (|body| / bufferSize) * bufferSize <= limit
      ensures ok ==> old(output) <= output && Payload(output[|old(output)|..]) == Some((body, []))
    {
      hide Frame, Frames, Concat, Payload;
      ghost var chunks: seq<seq<byte>>, n: nat := [], 0;
      var total: nat := 0;
      assert Frames(chunks) == [] && Concat(chunks) == [] by { NoFrames(chunks); }
      while true
        invariant total == n * bufferSize <= |body| && output == old(output) + Frames(chunks)
        invariant Concat(chunks) == body[..total] && AllChunks(chunks, bufferSize)
        decreases |body| - total
      {
        if total > limit {
          Quotient(|body|, bufferSize, n);
          return false;
        }
        var read := Min(bufferSize, |body| - total);
        if read == 0 {
          QuotientIs(|body|, bufferSize, n, 0);
          return false;
        }
        var buffer := body[total..total + read];
        FramesSnoc(chunks, buffer);
        ConcatSnoc(chunks, buffer);
        WriteChunk(buffer);
        chunks := chunks + [buffer];
        assert body[..total] + buffer == body[..total + read];
        if read < bufferSize {
          QuotientIs(|body|, bufferSize, n, read);
          break;
        }
        total, n := total + read, n + 1;
      }
      WriteChunk([]);
      assert body[..|body|] == body;
      EmptyFrame();
      FramedPayload(chunks, []);
      assert output[|old(output)|..] == Frames(chunks) + EncodeVarint(0) + [];
      ok := true;
    }
  }

  // ---- Framing ----

  function Frame(chunk: seq<byte>): seq<byte> {
    EncodeVarint(|chunk|) + chunk
  }

  function Frames(chunks: seq<seq<byte>>): seq<byte> {
    if chunks == [] then [] else Frame(chunks[0]) + Frames(chunks[1..])
  }

  ghost predicate AllChunks(chunks: seq<seq<byte>>, most: nat) {
    forall i :: 0 <= i < |chunks| ==> 0 < |chunks[i]| <= most
  }

  lemma EmptyFrame()
    ensures Frame([]) == EncodeVarint(0)
  {
  }

  lemma NoFrames(chunks: seq<seq<byte>>)
    requires chunks == []
    ensures Frames(chunks) == [] && Concat(chunks) == []
  {
  }

  lemma {:induction false} FramesSnoc(chunks: seq<seq<byte>>, chunk: seq<byte>)
    ensures Frames(chunks + [chunk]) == Frames(chunks) + Frame(chunk)
  {
    hide Frame;
    var more := chunks + [chunk];
    if chunks == [] {
      assert more[1..] == [] && more[0] == chunk;
    } else {
      assert more[1..] == chunks[1..] + [chunk] && more[0] == chunks[0];
      FramesSnoc(chunks[1..], chunk);
    }
  }

  /** Whatever the sizes of the chunks, the framed stream carries their concatenation, and its end is
      found exactly. */
  lemma {:induction false} FramedPayload(chunks: seq<seq<byte>>, rest: seq<byte>)
    requires AllChunks(chunks, MAX_CHUNK_SIZE as int)
    ensures Payload(Frames(chunks) + EncodeVarint(0) + rest) == Some((Concat(chunks), rest))
    decreases |chunks|
  {
    hide Payload, EncodeVarint;
    var s := Frames(chunks) + EncodeVarint(0) + rest;
    if chunks == [] {
      assert s == EncodeVarint(0) + rest;
      SizeBack(0, rest);
      PayloadStep(s);
    } else {
      var c, tail := chunks[0], Frames(chunks[1..]) + EncodeVarint(0) + rest;
      assert s == EncodeVarint(|c|) + (c + tail);
      SizeBack(|c|, c + tail);
      PayloadStep(s);
      assert (c + tail)[..|c|] == c && (c + tail)[|c|..] == tail;
      FramedPayload(chunks[1..], rest);
    }
  }

  lemma SizeBack(n: nat, rest: seq<byte>)
    requires n <= MAX_CHUNK_SIZE as int
    ensures ReadSize(EncodeVarint(n) + rest) == Some((n, rest))
  {
    VarintRoundTrip(n, rest);
    VarintLength(n, MAX_VARINT_LENGTH);
    assert Groups(5) == 128 * 128 * 128 * 128 * 128 by {
      assert Groups(2) == 128 * 128;
      assert Groups(4) == 128 * 128 * 128 * 128;
    }
    assert (EncodeVarint(n) + rest)[|EncodeVarint(n)|..] == rest;
  }

  lemma Quotient(n: nat, b: nat, i: nat)
    requires b > 0 && i * b <= n
    ensures i * b <= (n / b) * b
  {
    var q := n / b;
    assert n < q * b + b == (q + 1) * b;
    if i > q {
      Product(q + 1, i, b);
      assert false;
    }
    Product(i, q, b);
  }

  /** Taking `most` more bytes of the input behind those already taken. */
  lemma DataMoved(written: seq<byte>, filled: seq<byte>, before: seq<byte>, input: seq<byte>, read: nat, most: nat)
    requires read + most <= |input| && written + filled == before + input[..read]
    ensures written + (filled + input[read..][..most]) == before + input[..read + most]
  {
    assert input[..read + most] == input[..read] + input[read..][..most];
    assert written + (filled + input[read..][..most]) == (written + filled) + input[read..][..most];
    assert before + (input[..read] + input[read..][..most]) == (before + input[..read]) + input[read..][..most];
  }

  ghost predicate AllOfSize(writes: seq<seq<byte>>, size: nat) {
    forall i :: 0 <= i < |writes| ==> |writes[i]| == size
  }

  lemma NoWrites(writes: seq<seq<byte>>)
    requires writes == []
    ensures Concat(writes) == []
  {
  }

  /** One step of reading a framed stream. */
  lemma PayloadStep(s: seq<byte>)
    ensures var r := ReadSize(s);
            Payload(s) ==
            if r.None? then None
            else if r.value.0 == 0 then Some(([], r.value.1))
            else if r.value.0 > MAX_CHUNK_SIZE as int || r.value.0 > |r.value.1| then None
            else PrependFirst(r.value.1[..r.value.0], Payload(r.value.1[r.value.0..]))
  {
  }

  /** A number whose bytes so far all ask for more is complete with the next byte exactly when that
      byte does not. */
  lemma {:induction false} PrefixDecides(prefix: seq<byte>, s: seq<byte>)
    requires s != [] && forall i :: 0 <= i < |prefix| ==> prefix[i] >= 128
    ensures DecodeVarint(prefix + [s[0]]).Some? <==> s[0] < 128
    ensures s[0] < 128 ==>
              && DecodeVarint(prefix + [s[0]]) == DecodeVarint(prefix + s)
              && DecodeVarint(prefix + s).value.1 == |prefix| + 1
    decreases |prefix|
  {
    var one, all := prefix + [s[0]], prefix + s;
    if prefix == [] {
      assert one[1..] == [] && all == s;
    } else {
      assert one[1..] == prefix[1..] + [s[0]] && all[1..] == prefix[1..] + s;
      PrefixDecides(prefix[1..], s);
    }
  }

  /** The byte after a prefix of bytes that ask for more decides whether the size is complete. */
  lemma SizeDecided(prefix: seq<byte>, s: seq<byte>)
    requires s != [] && |prefix| < MAX_VARINT_LENGTH && forall i :: 0 <= i < |prefix| ==> prefix[i] >= 128
    ensures DecodeVarint(prefix + [s[0]]).Some? <==> s[0] < 128
    ensures s[0] < 128 ==>
              ReadSize(prefix + s) == Some((DecodeVarint(prefix + [s[0]]).value.0 % UINT32_LIMIT, s[1..]))
  {
    hide DecodeVarint;
    PrefixDecides(prefix, s);
    assert (prefix + s)[|prefix| + 1..] == s[1..];
  }

  /** A size that is too long or not there is not read. */
  lemma NoSize(prefix: seq<byte>, s: seq<byte>)
    requires forall i :: 0 <= i < |prefix| ==> prefix[i] >= 128
    requires |prefix| >= MAX_VARINT_LENGTH || s == []
    ensures ReadSize(prefix + s).None?
  {
    hide DecodeVarint;
    LongVarint(prefix, s);
  }

  /** Bytes that all ask for more: the number is longer than that, if it ends at all. */
  lemma {:induction false} LongVarint(prefix: seq<byte>, s: seq<byte>)
    requires forall i :: 0 <= i < |prefix| ==> prefix[i] >= 128
    ensures DecodeVarint(prefix + s).Some? ==> s != [] && DecodeVarint(prefix + s).value.1 > |prefix|
    decreases |prefix|
  {
    if prefix == [] {
      assert prefix + s == s;
    } else {
      assert (prefix + s)[1..] == prefix[1..] + s;
      LongVarint(prefix[1..], s);
    }
  }
}
