/** What reading a long value gives for blocks with any contents, also with broken ones. */
module LobReading {
  import opened Bytes
  import opened ColumnStore
  import opened LobChain

  /** A chunk of `length` bytes at `addr`, with a link to `next`. */
  datatype Piece = Piece(addr: Address, length: nat, next: Address)

  /** The block holds a chunk header for `remaining` bytes, field by field, that can be right: the chunk
      is not longer than the value and lies in its block, and its link is to a place that can hold a
      header. */
  ghost predicate HeaderAt(env: Env, s: Store, p: Piece, remaining: nat) {
    && p.addr.blockId in s.blocks && |s.blocks[p.addr.blockId].data| == env.area
    && p.addr.offset + 20 + p.length <= env.area && p.length <= remaining
    && p.next.blockId <= s.lastId && p.next.offset + 20 <= env.area
    && var data, off := s.blocks[p.addr.blockId].data, p.addr.offset;
       && DecodeUInt(data[off..off + 4]) == remaining && DecodeUInt(data[off + 4..off + 8]) == p.length
       && DecodeUInt(data[off + 8..off + 16]) == p.next.blockId && DecodeUInt(data[off + 16..off + 20]) == p.next.offset
  }

  /** The pieces make up the value `v`: each has the header for what is left of the value and then its
      bytes, and is linked to the next one. From the second on they are not empty and are linked to a
      block before the last. */
  ghost predicate IsChain(env: Env, s: Store, ps: seq<Piece>, v: seq<byte>, later: bool) {
    && |ps| > 0
    && var p := ps[0];
       && HeaderAt(env, s, p, |v|)
       && s.blocks[p.addr.blockId].data[p.addr.offset + 20..p.addr.offset + 20 + p.length] == v[..p.length]
       && (later ==> p.length > 0 && p.next.blockId < s.lastId)
       && if |ps| == 1 then p.length == |v|
          else
            && p.length < |v| && p.next.blockId != 0 && ps[1].addr == p.next
            && IsChain(env, s, ps[1..], v[p.length..], true)
  }

  lemma HeaderIs(env: Env, s: Store, addr: Address, h: Header)
    ensures LoadHeader(env, s, addr) == Some(h) <==>
            HeaderAt(env, s, Piece(addr, h.length, Address(h.nextBlock, h.nextOffset)), h.remaining)
  {
    hide DecodeUInt;
    if addr.blockId in s.blocks && |s.blocks[addr.blockId].data| == env.area && addr.offset + 20 <= env.area {
      var data, off := s.blocks[addr.blockId].data, addr.offset;
      var bytes := data[off..off + 20];
      assert bytes[..4] == data[off..off + 4] && bytes[4..8] == data[off + 4..off + 8];
      assert bytes[8..16] == data[off + 8..off + 16] && bytes[16..] == data[off + 16..off + 20];
    }
  }

  /** The header that is loaded for a piece. */
  lemma PieceLoads(env: Env, s: Store, p: Piece, remaining: nat)
    requires HeaderAt(env, s, p, remaining)
    ensures LoadHeader(env, s, p.addr) == Some(Header(remaining, p.length, p.next.blockId, p.next.offset))
  {
    hide LoadHeader, HeaderAt;
    HeaderIs(env, s, p.addr, Header(remaining, p.length, p.next.blockId, p.next.offset));
  }

  /** Reading goes on with the next chunk, unless the value ends in this one. */
  lemma ReadStep(env: Env, s: Store, p: Piece, remaining: nat, part: seq<byte>, rest: seq<byte>)
    requires HeaderAt(env, s, p, remaining) && |part| == p.length
    requires s.blocks[p.addr.blockId].data[p.addr.offset + 20..p.addr.offset + 20 + p.length] == part
    ensures var h := Header(remaining, p.length, p.next.blockId, p.next.offset);
            if p.length == remaining then ReadChunks(env, s, p.addr, h, remaining) == Some(part)
            else
              var g := LoadNextHeader(env, s, p.next, remaining - p.length);
              p.next.blockId != 0 && g.Some? && ReadChunks(env, s, p.next, g.value, remaining - p.length) == Some(rest)
              ==> ReadChunks(env, s, p.addr, h, remaining) == Some(part + rest)
  {
    hide LoadNextHeader, DecodeUInt;
  }

  lemma NextLoads(env: Env, s: Store, p: Piece, remaining: nat)
    requires HeaderAt(env, s, p, remaining) && p.length > 0 && p.next.blockId < s.lastId
    ensures LoadNextHeader(env, s, p.addr, remaining) ==
            Some(Header(remaining, p.length, p.next.blockId, p.next.offset))
  {
    hide LoadHeader, DecodeUInt;
    PieceLoads(env, s, p, remaining);
  }

  /** A chain is read from its first piece on. */
  lemma {:induction false} ChainReads(env: Env, s: Store, ps: seq<Piece>, v: seq<byte>, later: bool)
    requires IsChain(env, s, ps, v, later)
    ensures var p := ps[0];
            var h := Header(|v|, p.length, p.next.blockId, p.next.offset);
            && LoadHeader(env, s, p.addr) == Some(h)
            && (later ==> LoadNextHeader(env, s, p.addr, |v|) == Some(h))
            && ReadChunks(env, s, p.addr, h, |v|) == Some(v)
    decreases |ps|
  {
    hide LoadHeader, LoadNextHeader, ReadChunks, DecodeUInt;
    var p := ps[0];
    PieceLoads(env, s, p, |v|);
    if later {
      NextLoads(env, s, p, |v|);
    }
    ReadStep(env, s, p, |v|, v[..p.length], v[p.length..]);
    if |ps| == 1 {
      assert v[..p.length] == v;
    } else {
      ChainReads(env, s, ps[1..], v[p.length..], true);
      assert v[..p.length] + v[p.length..] == v;
    }
  }

  /** What has been read comes from this chunk and, if there is more, from the next ones. */
  lemma ReadSplits(env: Env, s: Store, p: Piece, remaining: nat, v: seq<byte>)
    requires HeaderAt(env, s, p, remaining)
    requires var h := Header(remaining, p.length, p.next.blockId, p.next.offset);
             ReadChunks(env, s, p.addr, h, remaining) == Some(v)
    ensures var data, off := s.blocks[p.addr.blockId].data, p.addr.offset + 20;
            if p.length == remaining then v == data[off..off + p.length]
            else
              var g := LoadNextHeader(env, s, p.next, remaining - p.length);
              && p.next.blockId != 0 && g.Some?
              && var rest := ReadChunks(env, s, p.next, g.value, remaining - p.length);
                 rest.Some? && v == data[off..off + p.length] + rest.value
  {
    hide LoadNextHeader, DecodeUInt;
  }

  lemma NextIsHeader(env: Env, s: Store, addr: Address, remaining: nat)
    requires LoadNextHeader(env, s, addr, remaining).Some?
    ensures var h := LoadNextHeader(env, s, addr, remaining).value;
            LoadHeader(env, s, addr) == Some(h) && h.remaining == remaining && h.length > 0 && h.nextBlock < s.lastId
  {
    hide LoadHeader;
  }

  /** What is read lies in a chain. */
  lemma {:induction false} ReadHasChain(env: Env, s: Store, addr: Address, h: Header, v: seq<byte>, later: bool)
    returns (ps: seq<Piece>)
    requires LoadHeader(env, s, addr) == Some(h) && (later ==> LoadNextHeader(env, s, addr, h.remaining) == Some(h))
    requires ReadChunks(env, s, addr, h, h.remaining) == Some(v)
    ensures |v| == h.remaining && |ps| > 0 && ps[0].addr == addr && IsChain(env, s, ps, v, later)
    decreases h.remaining, if h.length == 0 then 1 else 0
  {
    hide LoadHeader, LoadNextHeader, ReadChunks, DecodeUInt;
    var p := Piece(addr, h.length, Address(h.nextBlock, h.nextOffset));
    HeaderIs(env, s, addr, h);
    if later {
      NextIsHeader(env, s, addr, h.remaining);
    }
    ReadSplits(env, s, p, h.remaining, v);
    if h.length == h.remaining {
      ps := [p];
      assert v[..p.length] == v;
    } else {
      NextIsHeader(env, s, p.next, h.remaining - h.length);
      var g := LoadNextHeader(env, s, p.next, h.remaining - h.length).value;
      var rest := ReadChunks(env, s, p.next, g, h.remaining - h.length).value;
      var tail := ReadHasChain(env, s, p.next, g, rest, true);
      assert v[p.length..] == rest;
      ps := [p] + tail;
      assert ps[1..] == tail;
    }
  }

  ghost predicate HoldsValue(env: Env, s: Store, addr: Address, v: seq<byte>) {
    exists ps: seq<Piece> :: |ps| > 0 && ps[0].addr == addr && IsChain(env, s, ps, v, false)
  }

  /** Whatever the blocks contain, a value is read exactly when a chain of well-formed chunks holds it. */
  lemma ReadsExactly(env: Env, s: Store, addr: Address, v: seq<byte>)
    ensures ReadLob(env, s, addr) == Some(v) <==> HoldsValue(env, s, addr, v)
  {
    hide LoadHeader, ReadChunks, IsChain;
    if HoldsValue(env, s, addr, v) {
      var ps: seq<Piece> :| |ps| > 0 && ps[0].addr == addr && IsChain(env, s, ps, v, false);
      ChainReads(env, s, ps, v, false);
    }
    if ReadLob(env, s, addr) == Some(v) {
      var ps := ReadHasChain(env, s, addr, LoadHeader(env, s, addr).value, v, false);
    }
  }
}
