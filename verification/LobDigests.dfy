/** What writing a long value does to the digests of blocks. When a value moves on to a new block, the
    header of its last chunk is rewritten after that block was closed and its digest was stored. */
module LobDigests {
  import opened Bytes
  import opened ColumnStore
  import opened LobWrite
  import L = LobChain

  // ---- One step of the writing loop ----

  /** When a long value moves on to a new block, the header of its last chunk is rewritten after the
      block was closed. The stored digest was taken over the old header, so it verifies only if the
      hash function gives the same digest for two different inputs. */
  lemma RelinkedDigest(env: Env, t: Store, src: seq<byte>, c: L.Chunk, now: nat)
    requires Sound(env, t) && c.addr.blockId in t.blocks
             && GoodBlock(env, t.blocks, c.addr.blockId, t.blocks[c.addr.blockId])
    requires L.ChunkStored(t.blocks, src, c, L.NO_ADDRESS) && |src| < UINT32_LIMIT && t.lastId + 1 < UINT64_LIMIT
    requires c.addr.offset + L.HEADER_SIZE <= t.blocks[c.addr.blockId].pos
    ensures var id, m := c.addr.blockId, Continued(env, t, src, c, now);
            var before, after := Advanced(env, t, id, now).blocks[id], m.blocks[id];
            && GoodBlock(env, m.blocks, id, after) && after.state == CLOSED && before.pos <= |before.data|
            && var prev := PrevDigest(m.blocks, after);
               && DigestInput(env, prev, id, before) != DigestInput(env, prev, id, after)
               && (DigestHolds(env, m.blocks, id, after) <==>
                   env.hash(DigestInput(env, prev, id, before)) == env.hash(DigestInput(env, prev, id, after)))
  {
    hide DigestInput, L.EncodeHeader, L.ChunkStored, Sound, Advanced, Continued;
    HeadersDiffer(t, src, c, t.lastId + 1);
    RelinkedBlock(env, t, src, c, now);
    var id, m := c.addr.blockId, Continued(env, t, src, c, now);
    var before, after := Advanced(env, t, id, now).blocks[id], m.blocks[id];
    DifferentData(env, PrevDigest(m.blocks, after), id, before, after, c.addr.offset, c.addr.offset + L.HEADER_SIZE);
  }

  /** The closed block before and after its header was rewritten. */
  lemma RelinkedBlock(env: Env, t: Store, src: seq<byte>, c: L.Chunk, now: nat)
    requires Sound(env, t) && c.addr.blockId in t.blocks
             && GoodBlock(env, t.blocks, c.addr.blockId, t.blocks[c.addr.blockId])
    requires c.from <= |src| && c.addr.offset + L.HEADER_SIZE <= env.area
    ensures var id, m := c.addr.blockId, Continued(env, t, src, c, now);
            var k, before, after := t.blocks[id], Advanced(env, t, id, now).blocks[id], m.blocks[id];
            && id in m.blocks && GoodBlock(env, m.blocks, id, after) && after.state == CLOSED
            && before.data == k.data && before.pos == after.pos == k.pos && before.stamp == after.stamp
            && before.digest == after.digest == env.hash(DigestInput(env, PrevDigest(m.blocks, after), id, before))
            && after.data[c.addr.offset..c.addr.offset + L.HEADER_SIZE]
               == L.EncodeHeader(L.Header(|src| - c.from, c.length, t.lastId + 1, 0))
  {
    hide DigestInput, L.EncodeHeader;
    SoundShape(env, t);
    var id, m := c.addr.blockId, Continued(env, t, src, c, now);
    assert PrevDigest(m.blocks, m.blocks[id]) == PrevDigest(t.blocks, t.blocks[id]);
    DigestIgnoresState(env, PrevDigest(t.blocks, t.blocks[id]), id, t.blocks[id].(stamp := now),
                       m.blocks[id].(data := t.blocks[id].data));
  }

  lemma DigestIgnoresState(env: Env, prev: seq<byte>, id: nat, k: Block, k': Block)
    requires k.pos == k'.pos <= |k.data| && k.data == k'.data && k.stamp == k'.stamp
    ensures DigestInput(env, prev, id, k) == DigestInput(env, prev, id, k')
  {
  }

  /** The header of a last chunk differs from the one that links to a new block. */
  lemma HeadersDiffer(t: Store, src: seq<byte>, c: L.Chunk, next: nat)
    requires L.ChunkStored(t.blocks, src, c, L.NO_ADDRESS) && |src| < UINT32_LIMIT && 0 < next < UINT64_LIMIT
    ensures c.from <= |src| && c.addr.offset + L.HEADER_SIZE <= |t.blocks[c.addr.blockId].data|
    ensures t.blocks[c.addr.blockId].data[c.addr.offset..c.addr.offset + L.HEADER_SIZE]
            != L.EncodeHeader(L.Header(|src| - c.from, c.length, next, 0))
  {
    hide L.EncodeHeader;
    L.HeaderRoundTrip(L.Header(|src| - c.from, c.length, 0, 0));
    L.HeaderRoundTrip(L.Header(|src| - c.from, c.length, next, 0));
  }

  lemma DifferentData(env: Env, prev: seq<byte>, id: nat, k: Block, k': Block, lo: nat, hi: nat)
    requires lo <= hi <= k.pos == k'.pos <= |k.data| && k.pos <= |k'.data| && k.stamp == k'.stamp
    requires k.data[lo..hi] != k'.data[lo..hi]
    ensures DigestInput(env, prev, id, k) != DigestInput(env, prev, id, k')
  {
    var head := prev + env.uuid + EncodeUInt(env.tableId, 4) + EncodeUInt(env.columnId, 4)
                + EncodeUInt(id, 8) + EncodeUInt(k.stamp, 8) + EncodeUInt(k.pos, 4);
    SliceOfPrefix(k.data, k.pos, lo, hi);
    SliceOfPrefix(k'.data, k.pos, lo, hi);
    assert DigestInput(env, prev, id, k)[|head|..] == k.data[..k.pos];
    assert DigestInput(env, prev, id, k')[|head|..] == k'.data[..k.pos];
  }

  // ---- The writing loop ----

  /** The hash function has no collisions. */
  ghost predicate Injective(hash: seq<byte> -> seq<byte>) {
    forall a, b :: hash(a) == hash(b) ==> a == b
  }

  /** If block `j` is closed, its digest is the one that its content and its predecessor give. */
  ghost predicate RightDigest(env: Env, blocks: map<nat, Block>, j: nat) {
    j in blocks && GoodBlock(env, blocks, j, blocks[j]) && DigestHolds(env, blocks, j, blocks[j])
  }

  /** Chunk `c` was just written behind its header in an open block. */
  ghost predicate JustWritten(env: Env, t: Store, src: seq<byte>, c: L.Chunk) {
    && CanContinue(env, t, src, c) && L.ChunkStored(t.blocks, src, c, L.NO_ADDRESS) && L.ChunkInUse(t, c)
    && t.blocks[c.addr.blockId].state != CLOSED && ListsBlocks(t)
  }

  lemma SameDigest(env: Env, blocks: map<nat, Block>, blocks': map<nat, Block>, j: nat)
    requires j in blocks && j in blocks' && blocks'[j] == blocks[j] && GoodBlock(env, blocks, j, blocks[j])
    requires var p := blocks[j].prev; p != 0 ==> p in blocks' && blocks'[p] == blocks[p]
    ensures RightDigest(env, blocks', j) <==> RightDigest(env, blocks, j)
  {
    FrameBlock(env, blocks, blocks', j, blocks[j]);
  }

  lemma OpenHasRightDigest(env: Env, s: Store, j: nat)
    requires Sound(env, s) && j in s.blocks && s.blocks[j].state != CLOSED
    ensures RightDigest(env, s.blocks, j)
  {
    hide Sound;
    SoundBlock(env, s, j);
    OpenBlockDigestHolds(env, s.blocks, j, s.blocks[j]);
  }

  /** The blocks after a value has moved on and its next chunk was written: the new block is open and
      the others are as after the move. */
  lemma NextWritten(env: Env, t: Store, src: seq<byte>, c: L.Chunk, now: nat)
    requires CanContinue(env, t, src, c) && c.from + c.length < |src| && ListsBlocks(t)
    ensures GoodBlock(env, t.blocks, c.addr.blockId, t.blocks[c.addr.blockId])
    ensures var m, from := Continued(env, t, src, c, now), c.from + c.length;
            var len := Min(env.area - L.HEADER_SIZE, |src| - from);
            var u, d := L.ChunkAdded(m, m.lastId, src, from, len), L.Chunk(Address(m.lastId, 0), from, len);
            && m.lastId == t.lastId + 1 && JustWritten(env, u, src, d) && u.lastId == m.lastId
            && u.blocks.Keys == m.blocks.Keys == t.blocks.Keys + {m.lastId}
            && (forall j :: j in m.blocks && j != m.lastId ==> u.blocks[j] == m.blocks[j])
            && (forall j :: j in t.blocks && j != c.addr.blockId ==> m.blocks[j] == t.blocks[j])
  {
    hide Sound, L.EncodeHeader, WriteAt, DigestInput, L.ChunkStored;
    ContinuedIsSound(env, t, src, c, now);
    var m, from := Continued(env, t, src, c, now), c.from + c.length;
    var len := Min(env.area - L.HEADER_SIZE, |src| - from);
    ChunkAddedIsSound(env, m, m.lastId, src, from, len);
    SoundBlock(env, m, m.lastId);
    SoundShape(env, t);
    L.ChunkWritten(m.blocks, m.lastId, src, from, len);
  }

  /** Moving on spoils the digest of the block that is left, and no other. */
  lemma StepDigests(env: Env, t: Store, src: seq<byte>, c: L.Chunk, now: nat, u: Store, j: nat)
    requires JustWritten(env, t, src, c) && c.from + c.length < |src| && j in t.blocks
    requires Injective(env.hash) && |src| < UINT32_LIMIT && t.lastId + 1 < UINT64_LIMIT
    requires GoodBlock(env, t.blocks, c.addr.blockId, t.blocks[c.addr.blockId])
    requires var m, from := Continued(env, t, src, c, now), c.from + c.length;
             u == L.ChunkAdded(m, m.lastId, src, from, Min(env.area - L.HEADER_SIZE, |src| - from))
    ensures j in u.blocks
    ensures RightDigest(env, u.blocks, j) <==> j != c.addr.blockId && RightDigest(env, t.blocks, j)
  {
    hide Sound, Continued, L.ChunkAdded, L.ChunkStored, DigestInput, DigestHolds;
    NextWritten(env, t, src, c, now);
    var m, b := Continued(env, t, src, c, now), c.addr.blockId;
    SoundBlock(env, t, j);
    SoundShape(env, t);
    if j == b {
      RelinkedDigest(env, t, src, c, now);
      assert !DigestHolds(env, m.blocks, b, m.blocks[b]);
      SameDigest(env, m.blocks, u.blocks, b);
    } else {
      SameDigest(env, t.blocks, u.blocks, j);
    }
  }

  /** Of the blocks in which the rest of a value is written, the last one alone has a right digest. */
  lemma {:induction false} RestDigests(env: Env, t: Store, src: seq<byte>, c: L.Chunk, now: nat, j: nat)
    requires JustWritten(env, t, src, c) && |src| < UINT32_LIMIT
    requires Injective(env.hash) || c.from + c.length == |src| || env.area < L.SPACE_FOR_NEXT_CHUNK
    requires t.lastId + |src| - (c.from + c.length) < UINT64_LIMIT && j in RestWritten(env, t, src, c, now).blocks
    ensures var u, from := RestWritten(env, t, src, c, now), c.from + c.length;
            RightDigest(env, u.blocks, j) <==>
            if j in t.blocks && j != c.addr.blockId then RightDigest(env, t.blocks, j)
            else j == if from == |src| || env.area < L.SPACE_FOR_NEXT_CHUNK then c.addr.blockId else u.lastId
    decreases |src| - (c.from + c.length)
  {
    hide Sound, Continued, RestWritten, WrittenFrom, RightDigest, L.ChunkAdded, L.ChunkStored, L.ChunkInUse;
    var from := c.from + c.length;
    RestWrittenStep(env, t, src, c, now);
    if from == |src| || env.area < L.SPACE_FOR_NEXT_CHUNK {
      OpenHasRightDigest(env, t, c.addr.blockId);
    } else {
      NextWritten(env, t, src, c, now);
      var m := Continued(env, t, src, c, now);
      var len := Min(env.area - L.HEADER_SIZE, |src| - from);
      var t', d := L.ChunkAdded(m, m.lastId, src, from, len), L.Chunk(Address(m.lastId, 0), from, len);
      WrittenFromStep(env, m, m.lastId, src, from, now);
      RestEntries(env, t', src, d, now);
      RestDigests(env, t', src, d, now, j);
      RestWrittenStep(env, t', src, d, now);
      SoundBlock(env, t, c.addr.blockId);
      if j in t.blocks {
        SoundBlock(env, t, j);
        StepDigests(env, t, src, c, now, t', j);
      }
    }
  }

  // ---- The whole write ----

  /** How many bytes the first chunk of a value can hold. */
  function FirstChunkRoom(env: Env, s: Store, start: nat): int
    requires start in s.blocks
  {
    (if Free(env, s.blocks[start]) >= L.HEADER_SIZE then Free(env, s.blocks[start]) else env.area) - L.HEADER_SIZE
  }

  /** A value takes one chunk exactly when the first chunk can hold all of it. */
  lemma OneChunk(env: Env, s: Store, start: nat, n: nat)
    requires L.StartsIn(env, s, start)
    ensures |L.FullLayout(env, s, start, n)| == 1 <==> n <= FirstChunkRoom(env, s, start)
  {
    var k := s.blocks[start];
    if Free(env, k) >= L.HEADER_SIZE {
      L.LayoutCount(env.area, n, Address(start, k.pos), Free(env, k), s.lastId + 1);
    } else {
      L.LayoutCount(env.area, n, Address(s.lastId + 1, 0), env.area, s.lastId + 2);
    }
  }

  lemma FirstWritten(env: Env, m: Store, id: nat, src: seq<byte>)
    requires Sound(env, m) && ListsBlocks(m) && id in m.blocks && env.area > L.HEADER_SIZE
    requires m.blocks[id].pos + L.HEADER_SIZE <= env.area && m.blocks[id].state != CLOSED
    ensures var pos := m.blocks[id].pos;
            var len := Min(env.area - pos - L.HEADER_SIZE, |src|);
            var u, c := L.ChunkAdded(m, id, src, 0, len), L.Chunk(Address(id, pos), 0, len);
            && JustWritten(env, u, src, c) && u.lastId == m.lastId && u.blocks.Keys == m.blocks.Keys
            && (forall j :: j in m.blocks && j != id ==> u.blocks[j] == m.blocks[j])
  {
    hide Sound, L.EncodeHeader, WriteAt, L.ChunkStored;
    SoundBlock(env, m, id);
    var len := Min(env.area - m.blocks[id].pos - L.HEADER_SIZE, |src|);
    ChunkAddedIsSound(env, m, id, src, 0, len);
    L.ChunkWritten(m.blocks, id, src, 0, len);
  }

  /** Of the blocks in which a value is written from block `id` on, the last one alone has a right
      digest; the others keep theirs. */
  lemma FromDigests(env: Env, m: Store, id: nat, src: seq<byte>, now: nat, j: nat)
    requires Sound(env, m) && ListsBlocks(m) && id in m.blocks && env.area > L.HEADER_SIZE
    requires m.blocks[id].pos + L.HEADER_SIZE <= env.area && m.blocks[id].state != CLOSED
    requires |src| < UINT32_LIMIT && m.lastId + |src| < UINT64_LIMIT
    requires Injective(env.hash) || m.blocks[id].pos + L.HEADER_SIZE + |src| <= env.area
             || env.area < L.SPACE_FOR_NEXT_CHUNK
    requires j in WrittenFrom(env, m, id, src, 0, now).blocks
    ensures var u := WrittenFrom(env, m, id, src, 0, now);
            RightDigest(env, u.blocks, j) <==>
            if j in m.blocks && j != id then RightDigest(env, m.blocks, j)
            else j == if u.lastId == m.lastId then id else u.lastId
  {
    hide Sound, RestWritten, WrittenFrom, RightDigest, L.ChunkAdded, L.ChunkStored, L.ChunkInUse;
    FirstWritten(env, m, id, src);
    WrittenFromStep(env, m, id, src, 0, now);
    FromEntries(env, m, id, src, 0, now);
    var pos := m.blocks[id].pos;
    var len := Min(env.area - pos - L.HEADER_SIZE, |src|);
    var t, c := L.ChunkAdded(m, id, src, 0, len), L.Chunk(Address(id, pos), 0, len);
    RestDigests(env, t, src, c, now, j);
    if j in m.blocks && j != id {
      SoundBlock(env, m, j);
      OtherDigest(env, m, t, id, j);
    }
  }

  /** A chunk in an open block does not concern the digests of other blocks. */
  lemma OtherDigest(env: Env, m: Store, t: Store, id: nat, j: nat)
    requires Sound(env, m) && id in m.blocks && m.blocks[id].state != CLOSED && j in m.blocks && j != id
    requires t.blocks.Keys == m.blocks.Keys && forall i :: i in m.blocks && i != id ==> t.blocks[i] == m.blocks[i]
    ensures RightDigest(env, t.blocks, j) <==> RightDigest(env, m.blocks, j)
  {
    hide Sound, DigestHolds;
    SoundBlock(env, m, j);
    SameDigest(env, m.blocks, t.blocks, j);
  }

  /** Block `j` holds a chunk of the value, but not the last one. */
  ghost predicate HoldsEarlierChunk(cs: seq<L.Chunk>, j: nat) {
    exists i :: 0 <= i < |cs| - 1 && cs[i].addr.blockId == j
  }

  lemma EarlierChunks(cs: seq<L.Chunk>, nextId: nat, j: nat)
    requires |cs| > 0 && forall i :: 0 < i < |cs| ==> cs[i].addr == Address(nextId + i - 1, 0)
    ensures HoldsEarlierChunk(cs, j) <==> |cs| > 1 && (j == cs[0].addr.blockId || nextId <= j < nextId + |cs| - 2)
  {
    if |cs| > 1 && nextId <= j < nextId + |cs| - 2 {
      assert cs[j - nextId + 1].addr.blockId == j;
    }
  }

  /** Writing creates blocks behind the last one only. */
  lemma {:induction false} RestKeys(env: Env, t: Store, src: seq<byte>, c: L.Chunk, now: nat, j: nat)
    requires CanContinue(env, t, src, c) && ListsBlocks(t) && j in RestWritten(env, t, src, c, now).blocks
    ensures j in t.blocks || t.lastId < j
    decreases |src| - (c.from + c.length)
  {
    hide Sound, Continued, RestWritten, WrittenFrom, L.ChunkAdded, L.ChunkStored, L.ChunkInUse;
    var from := c.from + c.length;
    RestWrittenStep(env, t, src, c, now);
    if from == |src| || env.area < L.SPACE_FOR_NEXT_CHUNK {
    } else {
      NextWritten(env, t, src, c, now);
      var m := Continued(env, t, src, c, now);
      var len := Min(env.area - L.HEADER_SIZE, |src| - from);
      WrittenFromStep(env, m, m.lastId, src, from, now);
      RestKeys(env, L.ChunkAdded(m, m.lastId, src, from, len), src, L.Chunk(Address(m.lastId, 0), from, len), now, j);
    }
  }

  lemma FromKeys(env: Env, m: Store, id: nat, src: seq<byte>, now: nat, j: nat)
    requires Sound(env, m) && ListsBlocks(m) && id in m.blocks && env.area > L.HEADER_SIZE
    requires m.blocks[id].pos + L.HEADER_SIZE <= env.area && j in WrittenFrom(env, m, id, src, 0, now).blocks
    ensures j in m.blocks || m.lastId < j
  {
    hide Sound, RestWritten, WrittenFrom, L.ChunkAdded;
    var pos := m.blocks[id].pos;
    var len := Min(env.area - pos - L.HEADER_SIZE, |src|);
    WrittenFromStep(env, m, id, src, 0, now);
    ChunkAddedIsSound(env, m, id, src, 0, len);
    RestKeys(env, L.ChunkAdded(m, id, src, 0, len), src, L.Chunk(Address(id, pos), 0, len), now, j);
  }

  lemma InvHasRightDigest(env: Env, s: Store, j: nat)
    requires Inv(env, s) && j in s.blocks
    ensures RightDigest(env, s.blocks, j)
  {
    hide Inv;
    BlockIsGood(env, s, j);
  }

  /** A value that starts in a block with room for a header: the blocks of all its chunks but the last
      have a stale digest, and no others. */
  lemma DigestsFromStart(env: Env, s: Store, start: nat, src: seq<byte>, now: nat, j: nat)
    requires Inv(env, s) && Workable(env, s) && L.StartsIn(env, s, start) && start in s.available
    requires Free(env, s.blocks[start]) >= L.HEADER_SIZE && |src| < UINT32_LIMIT && s.lastId + |src| < UINT64_LIMIT
    requires Injective(env.hash) || |src| <= FirstChunkRoom(env, s, start) || env.area < L.SPACE_FOR_NEXT_CHUNK
    requires j in WrittenFrom(env, s, start, src, 0, now).blocks
    ensures RightDigest(env, WrittenFrom(env, s, start, src, 0, now).blocks, j) <==>
            !(Completes(env, s, start, |src|) && HoldsEarlierChunk(L.FullLayout(env, s, start, |src|), j))
  {
    hide Inv, Sound, WrittenFrom, TextWritten, RightDigest, L.Layout, L.Progress, L.GoodLayout, L.ChainStored, L.InUse,
      UsedStays, HoldsEarlierChunk, L.ChunkAdded;
    var u, cs := WrittenFrom(env, s, start, src, 0, now), L.FullLayout(env, s, start, |src|);
    AvailableIsOpen(env, s, start);
    FromDigests(env, s, start, src, now, j);
    FromKeys(env, s, start, src, now, j);
    FromEntries(env, s, start, src, 0, now);
    ChunkAddedIsSound(env, s, start, src, 0, Min(Free(env, s.blocks[start]) - L.HEADER_SIZE, |src|));
    SoundBlock(env, s, start);
    if j in s.blocks {
      InvHasRightDigest(env, s, j);
      SoundBlock(env, s, j);
    }
    if Completes(env, s, start, |src|) {
      TextWrittenStep(env, s, start, src, now);
      WrittenProgress(env, s, start, src, now);
      L.ProgressFacts(env, s, start, src, u, cs, |src|);
      L.LayoutFromStart(env, s, start, |src|);
      L.GoodLayoutAddresses(env.area, |src|, cs, s.lastId + 1);
      EarlierChunks(cs, s.lastId + 1, j);
      OneChunk(env, s, start, |src|);
      SoundBlock(env, u, j);
    }
  }

  /** The same for a value whose first chunk goes to a new block. The start block was closed without
      a chunk, so its digest is right. */
  lemma DigestsFromNewBlock(env: Env, s: Store, start: nat, src: seq<byte>, now: nat, j: nat)
    requires Inv(env, s) && Workable(env, s) && L.StartsIn(env, s, start) && start in s.available
    requires Free(env, s.blocks[start]) < L.HEADER_SIZE && env.area >= L.SPACE_FOR_NEXT_CHUNK
    requires |src| < UINT32_LIMIT && s.lastId + |src| + 1 < UINT64_LIMIT
    requires Injective(env.hash) || |src| <= FirstChunkRoom(env, s, start)
    requires j in TextWritten(env, s, start, src, now).blocks
    ensures RightDigest(env, TextWritten(env, s, start, src, now).blocks, j) <==>
            !HoldsEarlierChunk(L.FullLayout(env, s, start, |src|), j)
  {
    hide Inv, Sound, WrittenFrom, TextWritten, RightDigest, L.Layout, L.Progress, L.GoodLayout, L.ChainStored, L.InUse,
      UsedStays, HoldsEarlierChunk, L.ChunkAdded, Advanced;
    AvailableIsOpen(env, s, start);
    SoundBlock(env, s, start);
    TextWrittenStep(env, s, start, src, now);
    NewBlockIsOpen(env, s, start, now);
    var m, cs := Advanced(env, s, start, now), L.FullLayout(env, s, start, |src|);
    var u := TextWritten(env, s, start, src, now);
    FromDigests(env, m, m.lastId, src, now, j);
    FromKeys(env, m, m.lastId, src, now, j);
    FromEntries(env, m, m.lastId, src, 0, now);
    ChunkAddedIsSound(env, m, m.lastId, src, 0, Min(env.area - L.HEADER_SIZE, |src|));
    if j in m.blocks {
      InvHasRightDigest(env, m, j);
      SoundBlock(env, m, j);
    }
    WrittenProgress(env, s, start, src, now);
    L.ProgressFacts(env, s, start, src, u, cs, |src|);
    L.LayoutIsGood(env.area, |src|, 0, Address(s.lastId + 1, 0), env.area, s.lastId + 2);
    L.GoodLayoutAddresses(env.area, |src|, cs, s.lastId + 2);
    EarlierChunks(cs, s.lastId + 2, j);
    OneChunk(env, s, start, |src|);
    SoundBlock(env, u, j);
  }

  lemma NewBlockIsOpen(env: Env, s: Store, id: nat, now: nat)
    requires Inv(env, s) && Workable(env, s) && id in s.blocks && s.blocks[id].state != CLOSED
    ensures GoodBlock(env, s.blocks, id, s.blocks[id])
    ensures var m := Advanced(env, s, id, now);
            && Inv(env, m) && Sound(env, m) && ListsBlocks(m) && m.lastId == s.lastId + 1
            && m.blocks[m.lastId].state != CLOSED && m.blocks[m.lastId].pos == 0
  {
    hide Inv, Sound, DigestInput, DigestHolds;
    SoundBlock(env, s, id);
    AdvancedKeeps(env, s, id, now);
    SoundAdvanced(env, s, id, now);
    AdvancedNewEntry(env, s, id, now);
  }

  /** After a completed write from a consistent column the blocks of all chunks of the value but the
      last have a stale digest, and no others, provided the hash function has no collisions. A write
      that does not complete leaves all digests right. */
  lemma WrittenDigests(env: Env, s: Store, start: nat, src: seq<byte>, now: nat, j: nat)
    requires Inv(env, s) && Workable(env, s) && L.StartsIn(env, s, start) && start in s.available
    requires |src| < UINT32_LIMIT && s.lastId + |src| + 1 < UINT64_LIMIT
    requires Injective(env.hash) || |src| <= FirstChunkRoom(env, s, start) || env.area < L.SPACE_FOR_NEXT_CHUNK
    requires j in TextWritten(env, s, start, src, now).blocks
    ensures RightDigest(env, TextWritten(env, s, start, src, now).blocks, j) <==>
            !(Completes(env, s, start, |src|) && HoldsEarlierChunk(L.FullLayout(env, s, start, |src|), j))
  {
    hide Inv, Sound, WrittenFrom, TextWritten, RightDigest, L.FullLayout, HoldsEarlierChunk, Advanced;
    TextWrittenStep(env, s, start, src, now);
    if Free(env, s.blocks[start]) >= L.HEADER_SIZE {
      DigestsFromStart(env, s, start, src, now, j);
    } else if env.area >= L.SPACE_FOR_NEXT_CHUNK {
      DigestsFromNewBlock(env, s, start, src, now, j);
    } else {
      InvHasRightDigest(env, s, j);
    }
  }

  ghost predicate AllRight(env: Env, blocks: map<nat, Block>) {
    forall j :: j in blocks ==> RightDigest(env, blocks, j)
  }

  /** A completed text leaves all digests right if and only if it takes one chunk; a text that does
      not complete always does. */
  lemma TextPutDigests(env: Env, s: Store, id: nat, src: seq<byte>, now: nat)
    requires Inv(env, s) && Workable(env, s) && L.StartsIn(env, s, id) && id in s.available
    requires |src| < UINT32_LIMIT && s.lastId + |src| + 1 < UINT64_LIMIT
    requires Injective(env.hash) || |src| <= FirstChunkRoom(env, s, id) || env.area < L.SPACE_FOR_NEXT_CHUNK
    ensures |L.FullLayout(env, s, id, |src|)| == 1 <==> |src| <= FirstChunkRoom(env, s, id)
    ensures AllRight(env, TextPut(env, s, id, src, now).blocks) <==>
            !Completes(env, s, id, |src|) || |src| <= FirstChunkRoom(env, s, id)
  {
    hide Inv, Sound, TextWritten, RightDigest, L.FullLayout, L.Progress, UsedStays, L.ChainStored;
    var t, cs := TextWritten(env, s, id, src, now), L.FullLayout(env, s, id, |src|);
    OneChunk(env, s, id, |src|);
    forall j | j in t.blocks
      ensures RightDigest(env, t.blocks, j) <==> !(Completes(env, s, id, |src|) && HoldsEarlierChunk(cs, j))
    {
      WrittenDigests(env, s, id, src, now, j);
    }
    if Completes(env, s, id, |src|) && |cs| > 1 {
      WrittenProgress(env, s, id, src, now);
      L.ProgressFacts(env, s, id, src, t, cs, |src|);
      assert L.ChunkInUse(t, cs[0]);
      assert HoldsEarlierChunk(cs, cs[0].addr.blockId);
    }
  }
}
