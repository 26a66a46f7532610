/** Long values (text and binary) are stored as a chain of chunks. Each chunk has a header with the
    length of the rest of the value, its own length and the address of the next chunk. */
module LobChain {
  import opened Bytes
  import opened ColumnStore

  const HEADER_SIZE: nat := 20

  /** Room that a new block must offer beyond the header. */
  const LOB_FREE_SPACE_THRESHOLD: nat := 0x100

  /** What a block must have room for when a long value continues in it. */
  const SPACE_FOR_NEXT_CHUNK: nat := HEADER_SIZE + LOB_FREE_SPACE_THRESHOLD

  /** Room that the column asks for before it writes a long value. */
  const MIN_REQUIRED_SPACE: nat := 10

  datatype Header = Header(remaining: nat, length: nat, nextBlock: nat, nextOffset: nat) {
    ghost predicate Fits() {
      && remaining < UINT32_LIMIT && length < UINT32_LIMIT
      && nextBlock < UINT64_LIMIT && nextOffset < UINT32_LIMIT
    }
  }

  function EncodeHeader(h: Header): (s: seq<byte>)
    ensures |s| == HEADER_SIZE
  {
    EncodeUInt(h.remaining, 4) + (EncodeUInt(h.length, 4) + (EncodeUInt(h.nextBlock, 8) + EncodeUInt(h.nextOffset, 4)))
  }

  function DecodeHeader(s: seq<byte>): Header
    requires |s| == HEADER_SIZE
  {
    Header(DecodeUInt(s[..4]), DecodeUInt(s[4..8]), DecodeUInt(s[8..16]), DecodeUInt(s[16..]))
  }

  lemma HeaderRoundTrip(h: Header)
    requires h.Fits()
    ensures DecodeHeader(EncodeHeader(h)) == h
  {
    var s := EncodeHeader(h);
    assert s[..4] == EncodeUInt(h.remaining, 4);
    assert s[4..8] == EncodeUInt(h.length, 4);
    assert s[8..16] == EncodeUInt(h.nextBlock, 8);
    assert s[16..] == EncodeUInt(h.nextOffset, 4);
    UInt32RoundTrip(h.remaining);
    UInt32RoundTrip(h.length);
    UInt64RoundTrip(h.nextBlock);
    UInt32RoundTrip(h.nextOffset);
  }

  // ---- Where the chunks go ----

  /** The chunk at `addr` holds `length` bytes of the value, starting at its byte `from`. */
  datatype Chunk = Chunk(addr: Address, from: nat, length: nat)

  const NO_ADDRESS := Address(0, 0)

  /** The chunks of a value of `n` bytes from byte `from` on: as much as fits into the `room` bytes
      at `addr`, then whole new blocks with ids from `nextId` on. */
  function Layout(area: nat, n: nat, from: nat, addr: Address, room: nat, nextId: nat): (cs: seq<Chunk>)
    requires from <= n && room >= HEADER_SIZE && area > HEADER_SIZE
    ensures |cs| > 0 && cs[0] == Chunk(addr, from, Min(room - HEADER_SIZE, n - from))
    decreases n - from, if room == HEADER_SIZE then 1 else 0
  {
    var len := Min(room - HEADER_SIZE, n - from);
    [Chunk(addr, from, len)] +
    if from + len == n then [] else Layout(area, n, from + len, Address(nextId, 0), area, nextId + 1)
  }

  /** Facts about a layout that starts in a block below the new ones. */
  ghost predicate GoodLayout(area: nat, n: nat, cs: seq<Chunk>, nextId: nat) {
    && |cs| > 0
    && (forall i :: 0 <= i < |cs| ==>
          cs[i].from + cs[i].length <= n && cs[i].addr.offset + HEADER_SIZE + cs[i].length <= area)
    && (forall i :: 0 < i < |cs| ==> cs[i].addr == Address(nextId + i - 1, 0) && cs[i].length > 0)
    && (forall i :: 0 < i < |cs| ==> cs[i].from == cs[i - 1].from + cs[i - 1].length)
    && cs[|cs| - 1].from + cs[|cs| - 1].length == n
  }

  lemma {:induction false} LayoutIsGood(area: nat, n: nat, from: nat, addr: Address, room: nat, nextId: nat)
    requires from <= n && room >= HEADER_SIZE && area > HEADER_SIZE && addr.offset + room == area
    ensures GoodLayout(area, n, Layout(area, n, from, addr, room, nextId), nextId)
    decreases n - from, if room == HEADER_SIZE then 1 else 0
  {
    hide GoodLayout;
    var len := Min(room - HEADER_SIZE, n - from);
    if from + len == n {
      assert Layout(area, n, from, addr, room, nextId) == [Chunk(addr, from, len)];
      GoodLayoutOne(area, n, Chunk(addr, from, len), nextId);
    } else {
      LayoutIsGood(area, n, from + len, Address(nextId, 0), area, nextId + 1);
      var rest := Layout(area, n, from + len, Address(nextId, 0), area, nextId + 1);
      GoodLayoutCons(area, n, Chunk(addr, from, len), rest, nextId);
    }
  }

  lemma GoodLayoutCons(area: nat, n: nat, c: Chunk, rest: seq<Chunk>, nextId: nat)
    requires GoodLayout(area, n, rest, nextId + 1)
    requires rest[0].addr == Address(nextId, 0) && rest[0].length > 0 && rest[0].from == c.from + c.length
    requires c.from + c.length <= n && c.addr.offset + HEADER_SIZE + c.length <= area
    ensures GoodLayout(area, n, [c] + rest, nextId)
  {
    var cs := [c] + rest;
    assert forall i :: 0 < i < |cs| ==> cs[i] == rest[i - 1];
    forall i | 0 < i < |cs|
      ensures cs[i].from == cs[i - 1].from + cs[i - 1].length
    {
      if i > 1 {
        assert cs[i] == rest[i - 1] && cs[i - 1] == rest[(i - 1) - 1];
      }
    }
  }

  lemma GoodLayoutOne(area: nat, n: nat, c: Chunk, nextId: nat)
    requires c.from + c.length == n && c.addr.offset + HEADER_SIZE + c.length <= area
    ensures GoodLayout(area, n, [c], nextId)
  {
  }

  /** A value takes at most two chunks exactly when it fits into the rest of the first block and one
      new block. */
  lemma LayoutCount(area: nat, n: nat, addr: Address, room: nat, nextId: nat)
    requires room >= HEADER_SIZE && area > HEADER_SIZE
    ensures |Layout(area, n, 0, addr, room, nextId)| == 1 <==> n <= room - HEADER_SIZE
    ensures |Layout(area, n, 0, addr, room, nextId)| <= 2 <==> n <= (room - HEADER_SIZE) + (area - HEADER_SIZE)
  {
  }

  // ---- What the blocks hold ----

  /** The chunk `c` of `src` is stored, with a link to `next`. */
  ghost predicate ChunkStored(blocks: map<nat, Block>, src: seq<byte>, c: Chunk, next: Address) {
    && c.addr.blockId in blocks && c.from + c.length <= |src|
    && var data, off := blocks[c.addr.blockId].data, c.addr.offset;
       && off + HEADER_SIZE + c.length <= |data|
       && data[off..off + HEADER_SIZE] == EncodeHeader(Header(|src| - c.from, c.length, next.blockId, next.offset))
       && data[off + HEADER_SIZE..off + HEADER_SIZE + c.length] == src[c.from..c.from + c.length]
  }

  function LinkOf(cs: seq<Chunk>, i: nat): Address
    requires i < |cs|
  {
    if i + 1 < |cs| then cs[i + 1].addr else NO_ADDRESS
  }

  ghost predicate ChainStored(blocks: map<nat, Block>, src: seq<byte>, cs: seq<Chunk>) {
    forall i :: 0 <= i < |cs| ==> ChunkStored(blocks, src, cs[i], LinkOf(cs, i))
  }

  // ---- Reading a value back ----

  /** `loadLobChunkHeaderUnlocked` with all its checks. */
  function LoadHeader(env: Env, s: Store, addr: Address): (r: Option<Header>)
    ensures r.Some? ==> addr.blockId in s.blocks
    ensures r.Some? ==> addr.offset + HEADER_SIZE + r.value.length <= |s.blocks[addr.blockId].data|
  {
    if addr.blockId !in s.blocks || addr.offset + HEADER_SIZE > env.area
       || |s.blocks[addr.blockId].data| != env.area then None
    else
      var h := DecodeHeader(s.blocks[addr.blockId].data[addr.offset..addr.offset + HEADER_SIZE]);
      if h.length > h.remaining || h.length > env.area - (addr.offset + HEADER_SIZE)
         || h.nextBlock > s.lastId || h.nextOffset + HEADER_SIZE > env.area then None
      else Some(h)
  }

  /** The checks that the stream adds for the second and later chunks. */
  function LoadNextHeader(env: Env, s: Store, addr: Address, remaining: nat): (r: Option<Header>)
    ensures r.Some? ==> addr.blockId in s.blocks && r.value.length > 0
    ensures r.Some? ==> addr.offset + HEADER_SIZE + r.value.length <= |s.blocks[addr.blockId].data|
  {
    match LoadHeader(env, s, addr)
    case None => None
    case Some(h) =>
      if h.remaining != remaining || h.length == 0 || h.nextBlock >= s.lastId || h.nextOffset >= env.area then None
      else Some(h)
  }

  /** `readInternal`: reads the `remaining` bytes of a value from the chunk with header `h` on. */
  function ReadChunks(env: Env, s: Store, addr: Address, h: Header, remaining: nat): Option<seq<byte>>
    requires addr.blockId in s.blocks
    requires addr.offset + HEADER_SIZE + h.length <= |s.blocks[addr.blockId].data|
    decreases remaining, if h.length == 0 then 1 else 0
  {
    var n := Min(h.length, remaining);
    var part := s.blocks[addr.blockId].data[addr.offset + HEADER_SIZE..addr.offset + HEADER_SIZE + n];
    if n == remaining then Some(part)
    else if h.nextBlock == 0 then None
    else
      var next := Address(h.nextBlock, h.nextOffset);
      match LoadNextHeader(env, s, next, remaining - n)
      case None => None
      case Some(g) =>
        match ReadChunks(env, s, next, g, remaining - n)
        case None => None
        case Some(rest) => Some(part + rest)
  }

  /** Reads a whole long value. */
  function ReadLob(env: Env, s: Store, addr: Address): Option<seq<byte>> {
    match LoadHeader(env, s, addr)
    case None => None
    case Some(h) => ReadChunks(env, s, addr, h, h.remaining)
  }

  /** A value is stored in chunks, the second and later ones in blocks from `nextId` on. */
  ghost predicate Stored(env: Env, s: Store, src: seq<byte>, cs: seq<Chunk>, nextId: nat) {
    && |src| < UINT32_LIMIT && HEADER_SIZE < env.area < UINT32_LIMIT && s.lastId < UINT64_LIMIT
    && GoodLayout(env.area, |src|, cs, nextId) && cs[0].from == 0
    && 0 < nextId && nextId + |cs| - 2 <= s.lastId
    && ChainStored(s.blocks, src, cs)
    && (forall i :: 0 <= i < |cs| ==> cs[i].addr.blockId in s.blocks && |s.blocks[cs[i].addr.blockId].data| == env.area)
  }

  /** Every header on the chain passes the checks of `loadLobChunkHeaderUnlocked`. */
  lemma HeaderLoads(env: Env, s: Store, src: seq<byte>, cs: seq<Chunk>, nextId: nat, i: nat)
    requires Stored(env, s, src, cs, nextId) && i < |cs|
    ensures LoadHeader(env, s, cs[i].addr) ==
            Some(Header(|src| - cs[i].from, cs[i].length, LinkOf(cs, i).blockId, LinkOf(cs, i).offset))
  {
    hide EncodeHeader, DecodeHeader, Stored;
    StoredHeader(env, s, src, cs, nextId, i);
    HeaderRoundTrip(Header(|src| - cs[i].from, cs[i].length, LinkOf(cs, i).blockId, LinkOf(cs, i).offset));
  }

  /** The header of a chunk as it is stored, with the bounds of its fields. */
  lemma StoredHeader(env: Env, s: Store, src: seq<byte>, cs: seq<Chunk>, nextId: nat, i: nat)
    requires Stored(env, s, src, cs, nextId) && i < |cs|
    ensures var c, next := cs[i], LinkOf(cs, i);
            && c.addr.blockId in s.blocks && |s.blocks[c.addr.blockId].data| == env.area
            && c.from + c.length <= |src| && c.addr.offset + HEADER_SIZE + c.length <= env.area
            && next.blockId <= s.lastId && next.offset + HEADER_SIZE <= env.area
            && Header(|src| - c.from, c.length, next.blockId, next.offset).Fits()
            && s.blocks[c.addr.blockId].data[c.addr.offset..c.addr.offset + HEADER_SIZE]
               == EncodeHeader(Header(|src| - c.from, c.length, next.blockId, next.offset))
  {
    hide EncodeHeader, GoodLayout, ChunkStored;
    LayoutBounds(env.area, |src|, cs, nextId, i);
    ChunkIs(s.blocks, src, cs[i], LinkOf(cs, i));
  }

  lemma ChunkIs(blocks: map<nat, Block>, src: seq<byte>, c: Chunk, next: Address)
    requires ChunkStored(blocks, src, c, next)
    ensures c.addr.blockId in blocks && c.from + c.length <= |src|
    ensures var data, off := blocks[c.addr.blockId].data, c.addr.offset;
            && off + HEADER_SIZE + c.length <= |data|
            && data[off..off + HEADER_SIZE] == EncodeHeader(Header(|src| - c.from, c.length, next.blockId, next.offset))
  {
    hide EncodeHeader;
  }

  lemma LayoutBounds(area: nat, n: nat, cs: seq<Chunk>, nextId: nat, i: nat)
    requires GoodLayout(area, n, cs, nextId) && i < |cs| && nextId > 0 && area > HEADER_SIZE
    ensures cs[i].from + cs[i].length <= n && cs[i].addr.offset + HEADER_SIZE + cs[i].length <= area
    ensures LinkOf(cs, i).blockId <= nextId + |cs| - 2 && LinkOf(cs, i).offset == 0
  {
    assert i + 1 < |cs| ==> cs[i + 1].addr == Address(nextId + i, 0);
  }

  /** What is stored for chunk `i` and how it continues. */
  lemma ChunkFacts(env: Env, s: Store, src: seq<byte>, cs: seq<Chunk>, nextId: nat, i: nat)
    requires Stored(env, s, src, cs, nextId) && i < |cs|
    ensures var c := cs[i];
            && c.addr.blockId in s.blocks && c.from + c.length <= |src|
            && c.addr.offset + HEADER_SIZE + c.length <= |s.blocks[c.addr.blockId].data|
            && s.blocks[c.addr.blockId].data[c.addr.offset + HEADER_SIZE..c.addr.offset + HEADER_SIZE + c.length]
               == src[c.from..c.from + c.length]
    ensures i + 1 < |cs| ==> cs[i + 1].from == cs[i].from + cs[i].length && cs[i + 1].length > 0
    ensures i + 1 < |cs| ==> cs[i + 1].addr == Address(nextId + i, 0) && nextId + i > 0
    ensures i + 1 == |cs| ==> cs[i].from + cs[i].length == |src|
    ensures env.area > 0 && (|cs| > 1 ==> s.lastId > 0)
  {
    hide EncodeHeader;
    assert ChunkStored(s.blocks, src, cs[i], LinkOf(cs, i));
    assert i + 1 < |cs| ==> cs[(i + 1) - 1] == cs[i];
  }

  /** The header of the second or a later chunk is accepted unless it links to the last block. */
  lemma NextHeaderLoads(env: Env, s: Store, src: seq<byte>, cs: seq<Chunk>, nextId: nat, i: nat)
    requires Stored(env, s, src, cs, nextId) && 0 < i < |cs|
    ensures LoadHeader(env, s, cs[i].addr).Some?
    ensures LoadNextHeader(env, s, cs[i].addr, |src| - cs[i].from) ==
            if i + 1 < |cs| && cs[i + 1].addr.blockId >= s.lastId then None else LoadHeader(env, s, cs[i].addr)
  {
    hide Stored, LoadHeader;
    HeaderLoads(env, s, src, cs, nextId, i);
    ChunkFacts(env, s, src, cs, nextId, i - 1);
    ChunkFacts(env, s, src, cs, nextId, i);
  }

  /** The third and later chunks lie in blocks below the last block of the column. */
  ghost predicate LinksBelow(cs: seq<Chunk>, i: nat, lastId: nat) {
    forall j :: i <= j < |cs| ==> cs[j].addr.blockId < lastId
  }

  lemma {:induction false} ReadFromChunk(env: Env, s: Store, src: seq<byte>, cs: seq<Chunk>, nextId: nat, i: nat)
    requires Stored(env, s, src, cs, nextId) && i < |cs|
    ensures var h := LoadHeader(env, s, cs[i].addr);
            && h.Some?
            && ReadChunks(env, s, cs[i].addr, h.value, |src| - cs[i].from) ==
               if LinksBelow(cs, i + 2, s.lastId) then Some(src[cs[i].from..]) else None
    decreases |cs| - i
  {
    hide Stored, LoadHeader, LoadNextHeader;
    HeaderLoads(env, s, src, cs, nextId, i);
    ChunkFacts(env, s, src, cs, nextId, i);
    var c := cs[i];
    if i + 1 < |cs| {
      NextHeaderLoads(env, s, src, cs, nextId, i + 1);
      ReadFromChunk(env, s, src, cs, nextId, i + 1);
      assert src[c.from..] == src[c.from..c.from + c.length] + src[c.from + c.length..];
      ChunkFacts(env, s, src, cs, nextId, i + 1);
      assert LinksBelow(cs, i + 2, s.lastId) <==>
             LinksBelow(cs, i + 3, s.lastId) && (i + 2 < |cs| ==> cs[i + 2].addr.blockId < s.lastId);
    } else {
      assert src[c.from..c.from + c.length] == src[c.from..];
    }
  }

  /** A stored value reads back exactly when all blocks with the third and later chunks lie below
      the last block of the column; otherwise the read fails. */
  lemma ReadStored(env: Env, s: Store, src: seq<byte>, cs: seq<Chunk>, nextId: nat)
    requires Stored(env, s, src, cs, nextId)
    ensures ReadLob(env, s, cs[0].addr) == if LinksBelow(cs, 2, s.lastId) then Some(src) else None
  {
    hide LoadHeader, ReadChunks, ChainStored, LinksBelow;
    HeaderLoads(env, s, src, cs, nextId, 0);
    ReadFromChunk(env, s, src, cs, nextId, 0);
    assert src[0..] == src;
  }

  // ---- Writing a value ----

  /** Block `k` after a chunk with `len` bytes of `src` from byte `from` on was appended. */
  function WithChunk(k: Block, src: seq<byte>, from: nat, len: nat): Block
    requires from + len <= |src|
  {
    var header := EncodeHeader(Header(|src| - from, len, 0, 0));
    k.(data := WriteAt(WriteAt(k.data, k.pos, header), k.pos + HEADER_SIZE, src[from..from + len]),
       pos := k.pos + HEADER_SIZE + len)
  }

  /** Block `k` after the header at `at` was rewritten. */
  function WithHeader(k: Block, at: nat, h: Header): Block {
    k.(data := WriteAt(k.data, at, EncodeHeader(h)))
  }

  lemma ChunkWritten(blocks: map<nat, Block>, id: nat, src: seq<byte>, from: nat, len: nat)
    requires id in blocks && from + len <= |src| && blocks[id].pos + HEADER_SIZE + len <= |blocks[id].data|
    ensures var k := blocks[id];
            && |WithChunk(k, src, from, len).data| == |k.data|
            && WithChunk(k, src, from, len).data[..k.pos] == k.data[..k.pos]
            && ChunkStored(blocks[id := WithChunk(k, src, from, len)], src, Chunk(Address(id, k.pos), from, len),
                           NO_ADDRESS)
  {
    hide EncodeHeader;
    var k := blocks[id];
    var header := EncodeHeader(Header(|src| - from, len, 0, 0));
    var d := WriteAt(k.data, k.pos, header);
    WriteElsewhere(d, k.pos + HEADER_SIZE, src[from..from + len], k.pos, k.pos + HEADER_SIZE);
    WriteElsewhere(k.data, k.pos, header, 0, k.pos);
    WriteElsewhere(d, k.pos + HEADER_SIZE, src[from..from + len], 0, k.pos);
  }

  lemma LinkPatched(blocks: map<nat, Block>, src: seq<byte>, c: Chunk, next: Address)
    requires ChunkStored(blocks, src, c, NO_ADDRESS)
    ensures var k := blocks[c.addr.blockId];
            var h := Header(|src| - c.from, c.length, next.blockId, next.offset);
            && |WithHeader(k, c.addr.offset, h).data| == |k.data|
            && ChunkStored(blocks[c.addr.blockId := WithHeader(k, c.addr.offset, h)], src, c, next)
            && WithHeader(k, c.addr.offset, h).data[..c.addr.offset] == k.data[..c.addr.offset]
  {
    hide EncodeHeader;
    var k, off := blocks[c.addr.blockId], c.addr.offset;
    var h := EncodeHeader(Header(|src| - c.from, c.length, next.blockId, next.offset));
    WriteElsewhere(k.data, off, h, off + HEADER_SIZE, off + HEADER_SIZE + c.length);
    WriteElsewhere(k.data, off, h, 0, off);
  }

  lemma ChunkStays(blocks: map<nat, Block>, blocks': map<nat, Block>, src: seq<byte>, c: Chunk, next: Address)
    requires ChunkStored(blocks, src, c, next)
    requires c.addr.blockId in blocks' && blocks'[c.addr.blockId].data == blocks[c.addr.blockId].data
    ensures ChunkStored(blocks', src, c, next)
  {
    hide EncodeHeader;
  }

  /** Chunks lie in different blocks. */
  ghost predicate Distinct(cs: seq<Chunk>) {
    forall i, j :: 0 <= i < j < |cs| ==> cs[i].addr.blockId < cs[j].addr.blockId
  }

  /** Rewriting the header of the last chunk and storing one more chunk in a higher block extends
      the chain. */
  lemma ChainExtends(blocks: map<nat, Block>, mid: map<nat, Block>, blocks': map<nat, Block>,
                     src: seq<byte>, cs: seq<Chunk>, c: Chunk)
    requires |cs| > 0 && ChainStored(blocks, src, cs) && Distinct(cs + [c])
    requires forall id :: id in blocks && id != cs[|cs| - 1].addr.blockId ==>
               id in mid && mid[id].data == blocks[id].data
    requires ChunkStored(mid, src, cs[|cs| - 1], c.addr)
    requires forall id :: id in mid && id != c.addr.blockId ==> id in blocks' && blocks'[id].data == mid[id].data
    requires ChunkStored(blocks', src, c, NO_ADDRESS)
    ensures ChainStored(blocks', src, cs + [c])
  {
    hide ChunkStored, EncodeHeader;
    var n, cs' := |cs|, cs + [c];
    forall i | 0 <= i < |cs'|
      ensures ChunkStored(blocks', src, cs'[i], LinkOf(cs', i))
    {
      if i < n - 1 {
        assert cs'[i] == cs[i] && cs'[i + 1] == cs[i + 1] && cs'[n - 1] == cs[n - 1] && cs'[n] == c;
        ChunkInBlock(blocks, src, cs[i], LinkOf(cs, i));
        ChunkStays(blocks, mid, src, cs[i], LinkOf(cs, i));
        ChunkStays(mid, blocks', src, cs[i], LinkOf(cs, i));
      } else if i == n - 1 {
        assert cs'[n - 1] == cs[n - 1] && cs'[n] == c;
        ChunkInBlock(mid, src, cs[i], c.addr);
        ChunkStays(mid, blocks', src, cs[i], c.addr);
      }
    }
  }

  lemma ChunkInBlock(blocks: map<nat, Block>, src: seq<byte>, c: Chunk, next: Address)
    requires ChunkStored(blocks, src, c, next)
    ensures c.addr.blockId in blocks
  {
  }

  /** The chunks of a value of `n` bytes written from block `start` on. Without room for a header in
      the start block, everything goes to new blocks. */
  function FullLayout(env: Env, s: Store, start: nat, n: nat): (cs: seq<Chunk>)
    requires start in s.blocks && s.blocks[start].pos <= env.area && env.area > HEADER_SIZE
    ensures |cs| > 0
  {
    var k := s.blocks[start];
    if Free(env, k) >= HEADER_SIZE then Layout(env.area, n, 0, Address(start, k.pos), Free(env, k), s.lastId + 1)
    else Layout(env.area, n, 0, Address(s.lastId + 1, 0), env.area, s.lastId + 2)
  }

  /** The chunks that remain when `from` bytes are written and the last block is full. */
  function RestLayout(area: nat, n: nat, from: nat, lastId: nat): seq<Chunk>
    requires from <= n && area > HEADER_SIZE
  {
    if from == n then [] else Layout(area, n, from, Address(lastId + 1, 0), area, lastId + 2)
  }

  lemma LayoutStep(area: nat, n: nat, from: nat, addr: Address, room: nat, lastId: nat)
    requires from <= n && room >= HEADER_SIZE && area > HEADER_SIZE
    ensures var len := Min(room - HEADER_SIZE, n - from);
            Layout(area, n, from, addr, room, lastId + 1) ==
            [Chunk(addr, from, len)] + RestLayout(area, n, from + len, lastId)
  {
  }

  /** `c` is the last chunk so far, up to byte `from`; its block is full unless all of `src`
      is written. */
  ghost predicate LastChunk(env: Env, t: Store, src: seq<byte>, c: Chunk, from: nat) {
    && c.from + c.length == from <= |src|
    && c.addr.blockId in t.blocks && c.addr.blockId <= t.lastId
    && t.blocks[c.addr.blockId].pos == c.addr.offset + HEADER_SIZE + c.length
    && (from < |src| ==> t.blocks[c.addr.blockId].pos == env.area)
  }

  /** `cs` are the first chunks of `src`, up to byte `from`, all stored in `t`. */
  ghost predicate Progress(env: Env, s: Store, start: nat, src: seq<byte>, t: Store, cs: seq<Chunk>, from: nat)
    requires start in s.blocks && s.blocks[start].pos <= env.area && env.area > HEADER_SIZE
  {
    && 0 < |cs| <= from + 1 && t.lastId <= s.lastId + |cs| && t.lastId == Max(s.lastId, cs[|cs| - 1].addr.blockId)
    && ChainStored(t.blocks, src, cs) && Distinct(cs) && UsedStays(s, t) && Unused(s, cs) && InUse(t, cs)
    && LastChunk(env, t, src, cs[|cs| - 1], from)
    && FullLayout(env, s, start, |src|) == cs + RestLayout(env.area, |src|, from, t.lastId)
  }

  /** The chunks lie behind the used parts of the blocks of `s`. */
  ghost predicate Unused(s: Store, cs: seq<Chunk>) {
    forall i :: 0 <= i < |cs| && cs[i].addr.blockId in s.blocks ==>
      s.blocks[cs[i].addr.blockId].pos <= cs[i].addr.offset
  }

  /** The chunks lie in the used parts of the blocks of `t`. */
  ghost predicate InUse(t: Store, cs: seq<Chunk>) {
    forall i :: 0 <= i < |cs| ==> ChunkInUse(t, cs[i])
  }

  ghost predicate ChunkInUse(t: Store, c: Chunk) {
    c.addr.blockId in t.blocks && c.addr.offset + HEADER_SIZE + c.length <= t.blocks[c.addr.blockId].pos
  }

  /** Appends a chunk to block `id` of `t`. */
  function ChunkAdded(t: Store, id: nat, src: seq<byte>, from: nat, len: nat): Store
    requires id in t.blocks && from + len <= |src|
  {
    t.(blocks := t.blocks[id := WithChunk(t.blocks[id], src, from, len)])
  }

  lemma ChunkAddedStays(t: Store, id: nat, src: seq<byte>, from: nat, len: nat)
    requires id in t.blocks && from + len <= |src| && t.blocks[id].pos + HEADER_SIZE + len <= |t.blocks[id].data|
    requires forall j :: j in t.blocks ==> t.blocks[j].pos <= |t.blocks[j].data|
    ensures UsedStays(t, ChunkAdded(t, id, src, from, len))
  {
    hide WithChunk;
    ChunkWritten(t.blocks, id, src, from, len);
    WithChunkPos(t.blocks[id], src, from, len);
  }

  lemma WithChunkPos(k: Block, src: seq<byte>, from: nat, len: nat)
    requires from + len <= |src|
    ensures WithChunk(k, src, from, len).pos == k.pos + HEADER_SIZE + len
    ensures WithChunk(k, src, from, len).(data := k.data, pos := k.pos) == k
  {
  }

  /** What appending a chunk to a block with room for a header does. */
  lemma ChunkAppended(env: Env, s: Store, t: Store, id: nat, src: seq<byte>, from: nat)
    requires UsedStays(s, t) && id in t.blocks && id <= t.lastId && from <= |src|
    requires forall j :: j in t.blocks ==> t.blocks[j].pos <= |t.blocks[j].data|
    requires |t.blocks[id].data| == env.area && Free(env, t.blocks[id]) >= HEADER_SIZE
    ensures var len := Min(Free(env, t.blocks[id]) - HEADER_SIZE, |src| - from);
            var u, c := ChunkAdded(t, id, src, from, len), Chunk(Address(id, t.blocks[id].pos), from, len);
            && UsedStays(s, u) && Unused(s, [c]) && ChunkStored(u.blocks, src, c, NO_ADDRESS)
            && LastChunk(env, u, src, c, from + len)
            && (forall j :: j in t.blocks && j != id ==> j in u.blocks && u.blocks[j] == t.blocks[j])
            && (forall j :: j in u.blocks ==> j in t.blocks)
  {
    hide ChunkStored, WithChunk;
    var k := t.blocks[id];
    var len := Min(Free(env, k) - HEADER_SIZE, |src| - from);
    ChunkWritten(t.blocks, id, src, from, len);
    ChunkAddedStays(t, id, src, from, len);
    WithChunkPos(k, src, from, len);
    UsedStaysTransitive(s, t, ChunkAdded(t, id, src, from, len));
    assert id in s.blocks ==> UsedBlockStays(s.blocks[id], k);
  }

  /** The first chunk, in a block `id` of `t` that has room for a header. */
  lemma FirstChunk(env: Env, s: Store, start: nat, src: seq<byte>, t: Store, id: nat)
    requires start in s.blocks && s.blocks[start].pos <= env.area && env.area > HEADER_SIZE
    requires UsedStays(s, t) && id in t.blocks && t.lastId == Max(s.lastId, id) <= s.lastId + 1
    requires forall j :: j in t.blocks ==> t.blocks[j].pos <= |t.blocks[j].data|
    requires |t.blocks[id].data| == env.area && Free(env, t.blocks[id]) >= HEADER_SIZE
    requires var len := Min(Free(env, t.blocks[id]) - HEADER_SIZE, |src|);
             FullLayout(env, s, start, |src|) ==
             [Chunk(Address(id, t.blocks[id].pos), 0, len)] + RestLayout(env.area, |src|, len, t.lastId)
    ensures var len := Min(Free(env, t.blocks[id]) - HEADER_SIZE, |src|);
            Progress(env, s, start, src, ChunkAdded(t, id, src, 0, len), [Chunk(Address(id, t.blocks[id].pos), 0, len)],
                     len)
  {
    hide ChunkStored, WithChunk, UsedStays, FullLayout, RestLayout, ChainStored, Distinct, Unused, LastChunk, InUse;
    var k := t.blocks[id];
    var len := Min(Free(env, k) - HEADER_SIZE, |src|);
    ChunkAppended(env, s, t, id, src, 0);
    LastInUse(env, ChunkAdded(t, id, src, 0, len), src, [], Chunk(Address(id, k.pos), 0, len), len);
    assert [] + [Chunk(Address(id, k.pos), 0, len)] == [Chunk(Address(id, k.pos), 0, len)];
    OneChunkStored(ChunkAdded(t, id, src, 0, len).blocks, src, Chunk(Address(id, k.pos), 0, len));
  }

  lemma LastInUse(env: Env, t: Store, src: seq<byte>, cs: seq<Chunk>, c: Chunk, from: nat)
    requires InUse(t, cs) && LastChunk(env, t, src, c, from)
    ensures InUse(t, cs + [c])
  {
  }

  /** Chunks stay in use when a value moves on and another chunk is appended. */
  lemma InUseStays(env: Env, t: Store, m: Store, u: Store, src: seq<byte>, cs: seq<Chunk>, c: Chunk)
    requires InUse(t, cs) && MovedOn(env, t, m, src, c) && UsedStays(m, u)
    ensures InUse(u, cs)
  {
    hide Linked;
    forall i | 0 <= i < |cs|
      ensures ChunkInUse(u, cs[i])
    {
      assert ChunkInUse(t, cs[i]);
      assert UsedBlockStays(m.blocks[cs[i].addr.blockId], u.blocks[cs[i].addr.blockId]);
    }
  }

  lemma OneChunkStored(blocks: map<nat, Block>, src: seq<byte>, c: Chunk)
    requires ChunkStored(blocks, src, c, NO_ADDRESS)
    ensures ChainStored(blocks, src, [c]) && Distinct([c])
  {
    hide ChunkStored;
  }

  /** `m` is `t` with a new last block to which the header of chunk `c` was linked. */
  ghost predicate MovedOn(env: Env, t: Store, m: Store, src: seq<byte>, c: Chunk) {
    && c.addr.blockId in t.blocks && c.from <= |src|
    && m.lastId == t.lastId + 1 && m.lastId in m.blocks
    && m.blocks[m.lastId].pos == 0 && |m.blocks[m.lastId].data| == env.area
    && (forall j :: j in t.blocks ==>
         && j in m.blocks && m.blocks[j].pos == t.blocks[j].pos
         && m.blocks[j].data == if j == c.addr.blockId then Linked(t.blocks[j], src, c, Address(m.lastId, 0)).data
                                else t.blocks[j].data)
  }

  /** Rewrites the header at `at` of block `id` when `link` is set. */
  function Relinked(t: Store, id: nat, link: bool, at: nat, h: Header): Store
    requires id in t.blocks
  {
    if link then t.(blocks := t.blocks[id := WithHeader(t.blocks[id], at, h)]) else t
  }

  /** Block `k` with the header of chunk `c` linked to `next`. */
  function Linked(k: Block, src: seq<byte>, c: Chunk, next: Address): Block
    requires c.from <= |src|
  {
    WithHeader(k, c.addr.offset, Header(|src| - c.from, c.length, next.blockId, next.offset))
  }

  lemma MovedOnKeeps(env: Env, s: Store, t: Store, m: Store, src: seq<byte>, c: Chunk)
    requires UsedStays(s, t) && MovedOn(env, t, m, src, c) && ChunkStored(t.blocks, src, c, NO_ADDRESS)
    requires c.addr.blockId in s.blocks ==> s.blocks[c.addr.blockId].pos <= c.addr.offset
    ensures UsedStays(s, m) && ChunkStored(m.blocks, src, c, Address(m.lastId, 0))
  {
    hide ChunkStored, EncodeHeader, WithHeader;
    var b, next := c.addr.blockId, Address(m.lastId, 0);
    var k := t.blocks[b];
    LinkPatched(t.blocks, src, c, next);
    ChunkInside(t.blocks, src, c, NO_ADDRESS);
    var patched := t.blocks[b := Linked(k, src, c, next)];
    assert ChunkStored(patched, src, c, next);
    ChunkStays(patched, m.blocks, src, c, next);
    forall id | id in s.blocks
      ensures id in m.blocks && UsedBlockStays(s.blocks[id], m.blocks[id])
    {
      assert UsedBlockStays(s.blocks[id], t.blocks[id]);
      if id == b {
        SliceOfPrefix(k.data, c.addr.offset, 0, s.blocks[id].pos);
        SliceOfPrefix(m.blocks[id].data, c.addr.offset, 0, s.blocks[id].pos);
      }
    }
  }

  lemma ChunkInside(blocks: map<nat, Block>, src: seq<byte>, c: Chunk, next: Address)
    requires ChunkStored(blocks, src, c, next)
    ensures c.addr.blockId in blocks && c.addr.offset + HEADER_SIZE <= |blocks[c.addr.blockId].data|
  {
  }

  /** One more chunk, in a new block. */
  lemma NextChunk(env: Env, s: Store, start: nat, src: seq<byte>, t: Store, cs: seq<Chunk>, from: nat, m: Store)
    requires start in s.blocks && s.blocks[start].pos <= env.area && env.area > HEADER_SIZE
    requires Progress(env, s, start, src, t, cs, from) && from < |src|
    requires MovedOn(env, t, m, src, cs[|cs| - 1])
    requires forall j :: j in m.blocks ==> m.blocks[j].pos <= |m.blocks[j].data|
    ensures var len := Min(env.area - HEADER_SIZE, |src| - from);
            Progress(env, s, start, src, ChunkAdded(m, m.lastId, src, from, len),
                     cs + [Chunk(Address(m.lastId, 0), from, len)], from + len)
  {
    hide ChunkStored, WithChunk, UsedStays, FullLayout, Layout, ChainStored, LastChunk, Linked, Distinct, Unused, InUse;
    var last, n := cs[|cs| - 1], |cs|;
    var len := Min(env.area - HEADER_SIZE, |src| - from);
    var u, c := ChunkAdded(m, m.lastId, src, from, len), Chunk(Address(m.lastId, 0), from, len);
    ChainFacts(env, s, t, src, cs, from, c);
    MovedOnKeeps(env, s, t, m, src, last);
    ChunkAppended(env, s, m, m.lastId, src, from);
    ChunkAddedStays(m, m.lastId, src, from, len);
    InUseStays(env, t, m, u, src, cs, last);
    LastInUse(env, u, src, cs, c, from + len);
    ChainExtends(t.blocks, m.blocks, u.blocks, src, cs, c);
    RestStep(env.area, |src|, from, t.lastId);
    UnusedBoth(s, cs, c);
    assert cs + ([c] + RestLayout(env.area, |src|, from + len, m.lastId))
        == (cs + [c]) + RestLayout(env.area, |src|, from + len, m.lastId);
  }

  lemma ChainFacts(env: Env, s: Store, t: Store, src: seq<byte>, cs: seq<Chunk>, from: nat, c: Chunk)
    requires |cs| > 0 && ChainStored(t.blocks, src, cs) && Distinct(cs) && Unused(s, cs)
    requires LastChunk(env, t, src, cs[|cs| - 1], from) && c.addr.blockId == t.lastId + 1
    ensures ChunkStored(t.blocks, src, cs[|cs| - 1], NO_ADDRESS)
    ensures var b := cs[|cs| - 1].addr.blockId; b in s.blocks ==> s.blocks[b].pos <= cs[|cs| - 1].addr.offset
    ensures Distinct(cs + [c])
  {
    hide ChunkStored;
    assert LinkOf(cs, |cs| - 1) == NO_ADDRESS;
    assert ChunkStored(t.blocks, src, cs[|cs| - 1], LinkOf(cs, |cs| - 1));
  }

  lemma UnusedBoth(s: Store, cs: seq<Chunk>, c: Chunk)
    requires Unused(s, cs) && Unused(s, [c])
    ensures Unused(s, cs + [c])
  {
    assert [c][0] == c;
  }

  lemma RestStep(area: nat, n: nat, from: nat, lastId: nat)
    requires from < n && area > HEADER_SIZE
    ensures var len := Min(area - HEADER_SIZE, n - from);
            RestLayout(area, n, from, lastId) ==
            [Chunk(Address(lastId + 1, 0), from, len)] + RestLayout(area, n, from + len, lastId + 1)
  {
    LayoutStep(area, n, from, Address(lastId + 1, 0), area, lastId + 1);
  }

  /** A value that does not fit behind the used part of the start block. */
  predicate NeedsNewBlock(env: Env, s: Store, start: nat, n: nat)
    requires start in s.blocks && s.blocks[start].pos <= env.area
  {
    Free(env, s.blocks[start]) < HEADER_SIZE || n > Free(env, s.blocks[start]) - HEADER_SIZE
  }

  /** The address behind the last chunk. */
  function EndOf(cs: seq<Chunk>): Address
    requires |cs| > 0
  {
    var c := cs[|cs| - 1];
    Address(c.addr.blockId, c.addr.offset + HEADER_SIZE + c.length)
  }

  lemma ProgressFacts(env: Env, s: Store, start: nat, src: seq<byte>, t: Store, cs: seq<Chunk>, from: nat)
    requires start in s.blocks && s.blocks[start].pos <= env.area && env.area > HEADER_SIZE
    requires Progress(env, s, start, src, t, cs, from)
    ensures UsedStays(s, t) && 0 < |cs| <= from + 1 && t.lastId <= s.lastId + |cs| && from <= |src|
    ensures t.lastId == Max(s.lastId, cs[|cs| - 1].addr.blockId) && ChainStored(t.blocks, src, cs)
    ensures LastChunk(env, t, src, cs[|cs| - 1], from) && InUse(t, cs)
  {
  }

  lemma WholeLayout(env: Env, s: Store, start: nat, src: seq<byte>, t: Store, cs: seq<Chunk>)
    requires start in s.blocks && s.blocks[start].pos <= env.area && env.area > HEADER_SIZE
    requires Progress(env, s, start, src, t, cs, |src|)
    ensures cs == FullLayout(env, s, start, |src|)
  {
    hide FullLayout, Layout;
    assert cs + [] == cs;
  }

  /** Block `start` exists, and a block has room for more than a header. */
  ghost predicate StartsIn(env: Env, s: Store, start: nat) {
    start in s.blocks && s.blocks[start].pos <= env.area && env.area > HEADER_SIZE
  }

  /** As much of `src` from byte `from` on as fits into block `id` is its next chunk. */
  ghost predicate ChunkIsNext(env: Env, s: Store, start: nat, src: seq<byte>, m: Store, cs: seq<Chunk>, from: nat,
                              id: nat)
    requires StartsIn(env, s, start)
  {
    && from <= |src| && id in m.blocks && m.blocks[id].pos + HEADER_SIZE <= env.area
    && (cs == [] || (m.blocks[id].pos == 0 && from < |src|))
    && var pos := m.blocks[id].pos;
       var len := Min(env.area - pos - HEADER_SIZE, |src| - from);
       Progress(env, s, start, src, ChunkAdded(m, id, src, from, len), cs + [Chunk(Address(id, pos), from, len)],
                from + len)
  }

  lemma FirstIsNext(env: Env, s: Store, start: nat, src: seq<byte>, m: Store, id: nat)
    requires StartsIn(env, s, start) && id in m.blocks && m.blocks[id].pos + HEADER_SIZE <= env.area
    requires var len := Min(env.area - m.blocks[id].pos - HEADER_SIZE, |src|);
             Progress(env, s, start, src, ChunkAdded(m, id, src, 0, len),
                      [Chunk(Address(id, m.blocks[id].pos), 0, len)], len)
    ensures ChunkIsNext(env, s, start, src, m, [], 0, id)
  {
    hide Progress, ChunkAdded;
    var c := Chunk(Address(id, m.blocks[id].pos), 0, Min(env.area - m.blocks[id].pos - HEADER_SIZE, |src|));
    assert [] + [c] == [c];
  }

  lemma FullLayoutStep(env: Env, s: Store, start: nat, n: nat)
    requires StartsIn(env, s, start)
    ensures var pos := s.blocks[start].pos;
            FullLayout(env, s, start, n) ==
            if pos + HEADER_SIZE <= env.area then
              var len := Min(env.area - pos - HEADER_SIZE, n);
              [Chunk(Address(start, pos), 0, len)] + RestLayout(env.area, n, len, s.lastId)
            else
              var len := Min(env.area - HEADER_SIZE, n);
              [Chunk(Address(s.lastId + 1, 0), 0, len)] + RestLayout(env.area, n, len, s.lastId + 1)
  {
    hide RestLayout, Layout;
    var k := s.blocks[start];
    if k.pos + HEADER_SIZE <= env.area {
      LayoutStep(env.area, n, 0, Address(start, k.pos), Free(env, k), s.lastId);
    } else {
      LayoutStep(env.area, n, 0, Address(s.lastId + 1, 0), env.area, s.lastId + 1);
    }
  }

  lemma NextChunkFits(env: Env, s: Store, start: nat, src: seq<byte>, m: Store, cs: seq<Chunk>, from: nat, id: nat)
    requires StartsIn(env, s, start) && ChunkIsNext(env, s, start, src, m, cs, from, id)
    ensures from <= |src| && id in m.blocks && m.blocks[id].pos + HEADER_SIZE <= env.area
  {
  }

  /** The blocks of `t` have full size and real ids. */
  ghost predicate FullBlocks(env: Env, t: Store) {
    && t.lastId < UINT64_LIMIT && env.area < UINT32_LIMIT
    && forall id :: id in t.blocks ==> id > 0 && |t.blocks[id].data| == env.area
  }

  /** A value that starts in block `start` of `s` was stored as a chain. */
  lemma WrittenIsStored(env: Env, s: Store, start: nat, src: seq<byte>, t: Store)
    requires StartsIn(env, s, start) && |src| < UINT32_LIMIT && FullBlocks(env, t)
    requires Free(env, s.blocks[start]) >= HEADER_SIZE && start <= s.lastId
    requires Progress(env, s, start, src, t, FullLayout(env, s, start, |src|), |src|)
    ensures var cs := FullLayout(env, s, start, |src|);
            && Stored(env, t, src, cs, s.lastId + 1) && cs[0].addr == Address(start, s.blocks[start].pos)
            && t.lastId == s.lastId + |cs| - 1
  {
    hide FullLayout, ChainStored, UsedStays, GoodLayout, LastChunk, Progress;
    var cs := FullLayout(env, s, start, |src|);
    LayoutFromStart(env, s, start, |src|);
    ProgressFacts(env, s, start, src, t, cs, |src|);
    GoodLayoutAddresses(env.area, |src|, cs, s.lastId + 1);
    ChainInFullBlocks(env, t, src, cs);
  }

  lemma LayoutFromStart(env: Env, s: Store, start: nat, n: nat)
    requires StartsIn(env, s, start) && Free(env, s.blocks[start]) >= HEADER_SIZE
    ensures var cs := FullLayout(env, s, start, n);
            && GoodLayout(env.area, n, cs, s.lastId + 1)
            && cs[0].addr == Address(start, s.blocks[start].pos) && cs[0].from == 0
  {
    hide GoodLayout;
    LayoutIsGood(env.area, n, 0, Address(start, s.blocks[start].pos), Free(env, s.blocks[start]), s.lastId + 1);
  }

  lemma ChainInFullBlocks(env: Env, t: Store, src: seq<byte>, cs: seq<Chunk>)
    requires ChainStored(t.blocks, src, cs) && FullBlocks(env, t)
    ensures forall i :: 0 <= i < |cs| ==>
              cs[i].addr.blockId in t.blocks && |t.blocks[cs[i].addr.blockId].data| == env.area
  {
    hide ChunkStored;
    forall i | 0 <= i < |cs|
      ensures cs[i].addr.blockId in t.blocks && |t.blocks[cs[i].addr.blockId].data| == env.area
    {
      ChunkInBlock(t.blocks, src, cs[i], LinkOf(cs, i));
    }
  }

  lemma GoodLayoutAddresses(area: nat, n: nat, cs: seq<Chunk>, nextId: nat)
    requires GoodLayout(area, n, cs, nextId)
    ensures forall i :: 0 < i < |cs| ==> cs[i].addr == Address(nextId + i - 1, 0)
  {
  }

  lemma ChunkStaysInUse(s: Store, t: Store, src: seq<byte>, c: Chunk, next: Address)
    requires ChunkStored(s.blocks, src, c, next) && ChunkInUse(s, c) && UsedStays(s, t)
    ensures ChunkStored(t.blocks, src, c, next) && ChunkInUse(t, c)
  {
    hide EncodeHeader;
    var k, k', off := s.blocks[c.addr.blockId], t.blocks[c.addr.blockId], c.addr.offset;
    assert UsedBlockStays(k, k');
    SliceOfPrefix(k.data, k.pos, off, off + HEADER_SIZE);
    SliceOfPrefix(k'.data, k.pos, off, off + HEADER_SIZE);
    SliceOfPrefix(k.data, k.pos, off + HEADER_SIZE, off + HEADER_SIZE + c.length);
    SliceOfPrefix(k'.data, k.pos, off + HEADER_SIZE, off + HEADER_SIZE + c.length);
  }

  /** A stored value stays stored while used bytes stay. */
  lemma StoredStays(env: Env, s: Store, t: Store, src: seq<byte>, cs: seq<Chunk>, nextId: nat)
    requires Stored(env, s, src, cs, nextId) && InUse(s, cs) && UsedStays(s, t) && FullBlocks(env, t)
    ensures Stored(env, t, src, cs, nextId) && InUse(t, cs)
  {
    hide ChunkStored, GoodLayout, UsedStays, ChunkInUse;
    forall i | 0 <= i < |cs|
      ensures ChunkStored(t.blocks, src, cs[i], LinkOf(cs, i)) && ChunkInUse(t, cs[i])
    {
      ChunkStaysInUse(s, t, src, cs[i], LinkOf(cs, i));
    }
    ChainInFullBlocks(env, t, src, cs);
    LaterIds(s, t);
  }

  lemma LaterIds(s: Store, t: Store)
    requires UsedStays(s, t)
    ensures s.lastId <= t.lastId
  {
  }

  /** In a layout, the third and later chunks lie below `lastId` exactly when the last one does. */
  lemma LinksBelowLast(area: nat, n: nat, cs: seq<Chunk>, nextId: nat, lastId: nat)
    requires GoodLayout(area, n, cs, nextId)
    ensures LinksBelow(cs, 2, lastId) <==> |cs| <= 2 || nextId + |cs| - 2 < lastId
  {
    GoodLayoutAddresses(area, n, cs, nextId);
    assert |cs| > 2 ==> cs[|cs| - 1].addr.blockId == nextId + |cs| - 2;
  }

  /** A value with its first chunk behind the used part of block `start` of `s` reads back exactly
      when it takes at most one more block or the column has a block behind its last chunk. */
  lemma LayoutReadsBack(env: Env, s: Store, start: nat, src: seq<byte>, u: Store)
    requires StartsIn(env, s, start) && Free(env, s.blocks[start]) >= HEADER_SIZE
    requires Stored(env, u, src, FullLayout(env, s, start, |src|), s.lastId + 1)
    ensures var free, cs := Free(env, s.blocks[start]), FullLayout(env, s, start, |src|);
            && (|cs| <= 2 <==> |src| <= (free - HEADER_SIZE) + (env.area - HEADER_SIZE))
            && ReadLob(env, u, Address(start, s.blocks[start].pos)) ==
               if |cs| <= 2 || s.lastId + |cs| - 1 < u.lastId then Some(src) else None
  {
    hide Stored, Layout, LinksBelow, GoodLayout, ReadLob;
    var k, cs := s.blocks[start], FullLayout(env, s, start, |src|);
    ReadStored(env, u, src, cs, s.lastId + 1);
    LayoutCount(env.area, |src|, Address(start, k.pos), Free(env, k), s.lastId + 1);
    LayoutFromStart(env, s, start, |src|);
    LinksBelowLast(env.area, |src|, cs, s.lastId + 1, u.lastId);
  }

  /** An address without room for a header does not load. */
  lemma NoRoomDoesNotLoad(env: Env, s: Store, addr: Address)
    requires addr.offset + HEADER_SIZE > env.area
    ensures ReadLob(env, s, addr).None?
  {
  }

  /** A value that was written when the column was in state `t` reads back in every later state `u`
      that keeps used bytes, exactly when its start block had room for a header, and the value takes
      at most one more block or the column has got a block since; otherwise the read fails. */
  lemma ReadsBackLater(env: Env, s: Store, start: nat, src: seq<byte>, t: Store, u: Store)
    requires StartsIn(env, s, start) && |src| < UINT32_LIMIT && start <= s.lastId
    requires Progress(env, s, start, src, t, FullLayout(env, s, start, |src|), |src|)
    requires FullBlocks(env, t) && FullBlocks(env, u) && UsedStays(t, u)
    ensures Free(env, s.blocks[start]) >= HEADER_SIZE ==>
              Stored(env, u, src, FullLayout(env, s, start, |src|), s.lastId + 1)
    ensures var free := Free(env, s.blocks[start]);
            ReadLob(env, u, Address(start, s.blocks[start].pos)) ==
            if && free >= HEADER_SIZE
               && (|src| <= (free - HEADER_SIZE) + (env.area - HEADER_SIZE) || t.lastId < u.lastId) then Some(src)
            else None
  {
    hide Progress, Stored, FullLayout, UsedStays, InUse, ReadLob, FullBlocks;
    if Free(env, s.blocks[start]) >= HEADER_SIZE {
      var cs := FullLayout(env, s, start, |src|);
      WrittenIsStored(env, s, start, src, t);
      ProgressFacts(env, s, start, src, t, cs, |src|);
      StoredStays(env, t, u, src, cs, s.lastId + 1);
      LayoutReadsBack(env, s, start, src, u);
    } else {
      NoRoomDoesNotLoad(env, u, Address(start, s.blocks[start].pos));
    }
  }

  /** Right after it was written a value reads back exactly when the start block had room for a
      header and the value takes at most one more block. */
  lemma WrittenReadsBack(env: Env, s: Store, start: nat, src: seq<byte>, t: Store)
    requires StartsIn(env, s, start) && |src| < UINT32_LIMIT && FullBlocks(env, t) && start <= s.lastId
    requires Progress(env, s, start, src, t, FullLayout(env, s, start, |src|), |src|)
    ensures var free := Free(env, s.blocks[start]);
            ReadLob(env, t, Address(start, s.blocks[start].pos)) ==
            if free >= HEADER_SIZE && |src| <= (free - HEADER_SIZE) + (env.area - HEADER_SIZE) then Some(src) else None
  {
    hide Progress, Stored, FullLayout, ReadLob, FullBlocks;
    if Free(env, s.blocks[start]) >= HEADER_SIZE {
      WrittenIsStored(env, s, start, src, t);
      LayoutReadsBack(env, s, start, src, t);
    } else {
      NoRoomDoesNotLoad(env, t, Address(start, s.blocks[start].pos));
    }
  }

  /** The map of available blocks plays no part in a chain. */
  lemma ProgressWithMap(env: Env, s: Store, start: nat, src: seq<byte>, t: Store, cs: seq<Chunk>, from: nat,
                        m: map<nat, nat>)
    requires StartsIn(env, s, start) && Progress(env, s, start, src, t, cs, from)
    ensures Progress(env, s, start, src, t.(available := m), cs, from)
  {
    hide FullLayout, Layout, ChunkStored;
  }

  /** A value that fits, stored in block `id`, with the block's map entry brought up to date. */
  function TextStored(env: Env, s: Store, id: nat, src: seq<byte>): Store
    requires id in s.blocks && s.blocks[id].pos + HEADER_SIZE + |src| <= env.area
  {
    Replaced(env, s, id, WithChunk(s.blocks[id], src, 0, |src|))
  }

  lemma ChunkAsText(env: Env, s: Store, id: nat, src: seq<byte>)
    requires id in s.blocks && s.blocks[id].pos + HEADER_SIZE + |src| <= env.area
    ensures var t := ChunkAdded(s, id, src, 0, |src|);
            && t.available == s.available && id in t.blocks && t.blocks[id].pos <= env.area
            && TextStored(env, s, id, src) == t.(available := s.available[id := env.area - t.blocks[id].pos])
  {
    hide EncodeHeader;
  }

  /** A value that fits into an available block keeps the invariant and all used bytes. */
  lemma TextKeeps(env: Env, s: Store, id: nat, src: seq<byte>)
    requires Inv(env, s) && id in s.available && id in s.blocks && s.blocks[id].pos + HEADER_SIZE + |src| <= env.area
    ensures Inv(env, TextStored(env, s, id, src)) && Grows(s, TextStored(env, s, id, src))
  {
    hide Inv, EncodeHeader, WithChunk;
    BlockIsGood(env, s, id);
    AvailableIsOpen(env, s, id);
    ChunkWritten(s.blocks, id, src, 0, |src|);
    WithChunkPos(s.blocks[id], src, 0, |src|);
    ReplacedKeeps(env, s, id, WithChunk(s.blocks[id], src, 0, |src|));
    forall j | j in s.blocks
      ensures BlockGrows(s.blocks[j], s.blocks[j])
    {
      BlockIsGood(env, s, j);
    }
  }

  /** What `readRecord` makes of an address: a null address stands for NULL. */
  datatype Loaded = Null | Value(bytes: seq<byte>) | Unreadable

  function ReadValue(env: Env, s: Store, addr: Address): Loaded {
    if addr == NO_ADDRESS then Null
    else
      match ReadLob(env, s, addr)
      case None => Unreadable
      case Some(v) => Value(v)
  }

  /** The first address that the writing loop returns. */
  function ReturnedAddress(env: Env, s: Store, start: nat): Address
    requires start in s.blocks
  {
    if Free(env, s.blocks[start]) < HEADER_SIZE then Address(start, s.blocks[start].pos) else NO_ADDRESS
  }

  /** Reading at the first address that the writing loop returns never gives the value: it reads as
      NULL if the start block had room for a header, and fails otherwise. */
  lemma ReturnedAddressLosesValue(env: Env, s: Store, start: nat, t: Store)
    requires start in s.blocks && start > 0
    ensures ReadValue(env, t, ReturnedAddress(env, s, start)) ==
            if Free(env, s.blocks[start]) >= HEADER_SIZE then Null else Unreadable
  {
  }

  // ---- Loading text ----

  /** Texts shorter than this are loaded into a string. */
  const SMALL_TEXT_LIMIT: nat := 0x10_0000

  /** The bytes before the first zero byte. */
  function UpToZero(v: seq<byte>): seq<byte> {
    if v == [] || v[0] == 0 then [] else [v[0]] + UpToZero(v[1..])
  }

  /** `loadText`: a short text is taken over as a C string. */
  function LoadText(env: Env, s: Store, addr: Address): Option<seq<byte>> {
    match ReadLob(env, s, addr)
    case None => None
    case Some(v) => Some(if |v| < SMALL_TEXT_LIMIT then UpToZero(v) else v)
  }

  lemma {:induction false} UpToZeroSame(v: seq<byte>)
    ensures UpToZero(v) == v <==> 0 !in v
  {
    if v == [] {
    } else {
      UpToZeroSame(v[1..]);
      assert v == [v[0]] + v[1..];
      if v[0] != 0 {
        assert UpToZero(v)[1..] == UpToZero(v[1..]);
      }
    }
  }

  /** A text that reads back as a value is loaded unchanged exactly when it is long or has no zero
      byte. */
  lemma TextLoads(env: Env, s: Store, addr: Address, src: seq<byte>)
    requires ReadLob(env, s, addr) == Some(src)
    ensures LoadText(env, s, addr) == Some(src) <==> |src| >= SMALL_TEXT_LIMIT || 0 !in src
  {
    hide ReadLob;
    UpToZeroSame(src);
  }
}
