/** Writing a long value as a whole: the state of the column after the writing loop, and what it
    keeps, for values of any length. */
module LobWrite {
  import opened Bytes
  import opened ColumnStore
  import L = LobChain

  /** The first chunk of a long value goes to the start block when a header fits there. */
  lemma FirstChunkInStartBlock(env: Env, s: Store, start: nat, src: seq<byte>)
    requires Sound(env, s) && L.StartsIn(env, s, start) && s.blocks[start].pos + L.HEADER_SIZE <= env.area
    ensures L.ChunkIsNext(env, s, start, src, s, [], 0, start)
  {
    hide L.Progress, L.ChunkAdded, L.FullLayout, L.RestLayout, UsedStays, L.ChunkIsNext, Sound;
    SoundShape(env, s);
    SoundBlock(env, s, start);
    UsedStaysSame(s);
    L.FullLayoutStep(env, s, start, |src|);
    L.FirstChunk(env, s, start, src, s, start);
    L.FirstIsNext(env, s, start, src, s, start);
  }

  /** Otherwise it goes to a new block. */
  lemma FirstChunkInNewBlock(env: Env, s: Store, start: nat, src: seq<byte>, now: nat)
    requires Sound(env, s) && L.StartsIn(env, s, start) && s.blocks[start].pos + L.HEADER_SIZE > env.area
    requires GoodBlock(env, s.blocks, start, s.blocks[start])
    ensures var m := Advanced(env, s, start, now); L.ChunkIsNext(env, s, start, src, m, [], 0, m.lastId)
  {
    hide L.Progress, L.ChunkAdded, L.FullLayout, L.RestLayout, UsedStays, L.ChunkIsNext, Sound, Advanced;
    var m := Advanced(env, s, start, now);
    AdvancedUsed(env, s, start, now);
    L.FullLayoutStep(env, s, start, |src|);
    L.FirstChunk(env, s, start, src, m, m.lastId);
    L.FirstIsNext(env, s, start, src, m, m.lastId);
  }

  lemma AdvancedUsed(env: Env, s: Store, id: nat, now: nat)
    requires Sound(env, s) && id in s.blocks && GoodBlock(env, s.blocks, id, s.blocks[id])
    ensures var m := Advanced(env, s, id, now);
            && UsedStays(s, m) && m.lastId == s.lastId + 1 && m.lastId in m.blocks
            && m.blocks[m.lastId] == NewBlock(env, id, CREATING)
            && (forall j :: j in m.blocks ==> m.blocks[j].pos <= |m.blocks[j].data|)
  {
    hide DigestInput;
    SoundShape(env, s);
  }

  /** The column after a long value moved on from the block with chunk `c` to a new block, to which
      the header of `c` is linked. */
  function Continued(env: Env, t: Store, src: seq<byte>, c: L.Chunk, now: nat): (m: Store)
    requires c.addr.blockId in t.blocks && GoodBlock(env, t.blocks, c.addr.blockId, t.blocks[c.addr.blockId])
    requires c.from <= |src|
    ensures m.lastId in m.blocks
  {
    L.Relinked(Advanced(env, t, c.addr.blockId, now), c.addr.blockId, true, c.addr.offset,
               L.Header(|src| - c.from, c.length, t.lastId + 1, 0))
  }

  /** A later chunk goes to a new block. */
  lemma NextChunkInNewBlock(env: Env, s: Store, start: nat, src: seq<byte>, t: Store, cs: seq<L.Chunk>, from: nat,
                            now: nat)
    requires L.StartsIn(env, s, start) && |cs| > 0
    requires L.Progress(env, s, start, src, t, cs, from) && from < |src| && Sound(env, t)
    requires var c := cs[|cs| - 1];
             && c.addr.blockId in t.blocks && GoodBlock(env, t.blocks, c.addr.blockId, t.blocks[c.addr.blockId])
             && c.from <= |src| && c.addr.offset + L.HEADER_SIZE <= env.area
    ensures var m := Continued(env, t, src, cs[|cs| - 1], now); L.ChunkIsNext(env, s, start, src, m, cs, from, m.lastId)
  {
    hide L.Progress, L.ChunkAdded, Sound, Continued, L.MovedOn;
    ContinuedMovesOn(env, t, src, cs[|cs| - 1], now);
    L.NextChunk(env, s, start, src, t, cs, from, Continued(env, t, src, cs[|cs| - 1], now));
  }

  lemma ContinuedMovesOn(env: Env, t: Store, src: seq<byte>, c: L.Chunk, now: nat)
    requires Sound(env, t) && c.addr.blockId in t.blocks
             && GoodBlock(env, t.blocks, c.addr.blockId, t.blocks[c.addr.blockId])
    requires c.from <= |src| && c.addr.offset + L.HEADER_SIZE <= env.area
    ensures var m := Continued(env, t, src, c, now);
            && L.MovedOn(env, t, m, src, c) && m.blocks[m.lastId].pos == 0
            && (forall j :: j in m.blocks ==> m.blocks[j].pos <= |m.blocks[j].data|)
  {
    hide L.EncodeHeader, WriteAt, Advanced, Sound;
    var id, m := c.addr.blockId, Continued(env, t, src, c, now);
    AdvancedBlocks(env, t, id, now);
    SoundShape(env, t);
    var a := Advanced(env, t, id, now);
    forall j | j in m.blocks ensures m.blocks[j].pos <= |m.blocks[j].data| {
      if j != a.lastId {
        assert j in t.blocks;
      }
    }
  }

  /** What moving on does to each block. */
  lemma AdvancedBlocks(env: Env, t: Store, id: nat, now: nat)
    requires Sound(env, t) && id in t.blocks && GoodBlock(env, t.blocks, id, t.blocks[id])
    ensures var a := Advanced(env, t, id, now);
            && a.lastId == t.lastId + 1 && a.lastId !in t.blocks
            && a.blocks.Keys == t.blocks.Keys + {a.lastId} && a.blocks[a.lastId] == NewBlock(env, id, CREATING)
            && (forall j :: j in t.blocks ==>
                  a.blocks[j].pos == t.blocks[j].pos && a.blocks[j].data == t.blocks[j].data)
  {
    hide DigestInput;
    SoundShape(env, t);
  }

  // ---- The writing loop ----

  /** Chunk `c` of `src` is in place and the value can continue behind it. */
  ghost predicate CanContinue(env: Env, t: Store, src: seq<byte>, c: L.Chunk) {
    && Sound(env, t) && c.addr.blockId in t.blocks && c.from + c.length <= |src|
    && c.addr.offset + L.HEADER_SIZE <= env.area && env.area > L.HEADER_SIZE
  }

  lemma ContinuedIsSound(env: Env, t: Store, src: seq<byte>, c: L.Chunk, now: nat)
    requires CanContinue(env, t, src, c)
    ensures GoodBlock(env, t.blocks, c.addr.blockId, t.blocks[c.addr.blockId])
    ensures var m := Continued(env, t, src, c, now);
            && Sound(env, m) && m.lastId == t.lastId + 1 && m.blocks[m.lastId].pos == 0
            && m.available == (t.available - {c.addr.blockId})[m.lastId := env.area]
            && m.blocks.Keys == t.blocks.Keys + {m.lastId}
  {
    hide Sound, L.EncodeHeader, WriteAt, DigestInput;
    var id := c.addr.blockId;
    SoundBlock(env, t, id);
    SoundShape(env, t);
    SoundAdvanced(env, t, id, now);
    var a := Advanced(env, t, id, now);
    SoundReplaced(env, a, id,
                  L.WithHeader(a.blocks[id], c.addr.offset, L.Header(|src| - c.from, c.length, t.lastId + 1, 0)));
  }

  lemma ChunkAddedIsSound(env: Env, t: Store, id: nat, src: seq<byte>, from: nat, len: nat)
    requires Sound(env, t) && id in t.blocks && from + len <= |src|
             && t.blocks[id].pos + L.HEADER_SIZE + len <= env.area
    ensures var u := L.ChunkAdded(t, id, src, from, len);
            && Sound(env, u) && u.blocks.Keys == t.blocks.Keys && u.available == t.available && u.lastId == t.lastId
            && u.blocks[id].pos == t.blocks[id].pos + L.HEADER_SIZE + len
  {
    hide Sound, L.EncodeHeader, WriteAt;
    SoundBlock(env, t, id);
    SoundReplaced(env, t, id, L.WithChunk(t.blocks[id], src, from, len));
  }

  /** As much as fits of the rest of `src` in block `id`, and the rest in new blocks. */
  ghost function WrittenFrom(env: Env, m: Store, id: nat, src: seq<byte>, from: nat, now: nat): (u: Store)
    requires Sound(env, m) && id in m.blocks && from <= |src| && env.area > L.HEADER_SIZE
    requires m.blocks[id].pos + L.HEADER_SIZE <= env.area
    ensures Sound(env, u)
    decreases |src| - from, if m.blocks[id].pos + L.HEADER_SIZE == env.area then 3 else 1
  {
    var pos := m.blocks[id].pos;
    var len := Min(env.area - pos - L.HEADER_SIZE, |src| - from);
    ChunkAddedIsSound(env, m, id, src, from, len);
    RestWritten(env, L.ChunkAdded(m, id, src, from, len), src, L.Chunk(Address(id, pos), from, len), now)
  }

  /** The column after the rest of `src` was written behind chunk `c`. Where a block is too small for
      the room that is asked for the next chunk, nothing more is written. */
  ghost function RestWritten(env: Env, t: Store, src: seq<byte>, c: L.Chunk, now: nat): (u: Store)
    requires CanContinue(env, t, src, c)
    ensures Sound(env, u)
    decreases |src| - (c.from + c.length), if c.from + c.length == |src| then 0 else 2
  {
    var from := c.from + c.length;
    if from == |src| || env.area < L.SPACE_FOR_NEXT_CHUNK then t
    else
      ContinuedIsSound(env, t, src, c, now);
      var m := Continued(env, t, src, c, now);
      WrittenFrom(env, m, m.lastId, src, from, now)
  }

  /** The column after the writing loop, for a value that starts in block `start`. */
  ghost function TextWritten(env: Env, s: Store, start: nat, src: seq<byte>, now: nat): (t: Store)
    requires Sound(env, s) && L.StartsIn(env, s, start)
    ensures Sound(env, t)
  {
    SoundBlock(env, s, start);
    if Free(env, s.blocks[start]) >= L.HEADER_SIZE then WrittenFrom(env, s, start, src, 0, now)
    else if env.area < L.SPACE_FOR_NEXT_CHUNK then s
    else
      SoundAdvanced(env, s, start, now);
      AdvancedUsed(env, s, start, now);
      var m := Advanced(env, s, start, now);
      WrittenFrom(env, m, m.lastId, src, 0, now)
  }

  // ---- One step at a time ----

  /** The first chunk goes to the start block if a header fits there, else to a new block. */
  lemma TextWrittenStep(env: Env, s: Store, start: nat, src: seq<byte>, now: nat)
    requires Sound(env, s) && L.StartsIn(env, s, start)
    ensures Free(env, s.blocks[start]) >= L.HEADER_SIZE ==>
              TextWritten(env, s, start, src, now) == WrittenFrom(env, s, start, src, 0, now)
    ensures Free(env, s.blocks[start]) < L.HEADER_SIZE && env.area < L.SPACE_FOR_NEXT_CHUNK ==>
              TextWritten(env, s, start, src, now) == s
    ensures GoodBlock(env, s.blocks, start, s.blocks[start])
    ensures Free(env, s.blocks[start]) < L.HEADER_SIZE && env.area >= L.SPACE_FOR_NEXT_CHUNK ==>
              var m := Advanced(env, s, start, now);
              && Sound(env, m) && m.blocks[m.lastId].pos == 0
              && TextWritten(env, s, start, src, now) == WrittenFrom(env, m, m.lastId, src, 0, now)
  {
    hide Sound, WrittenFrom, Advanced, UsedStays;
    SoundBlock(env, s, start);
    SoundAdvanced(env, s, start, now);
    AdvancedUsed(env, s, start, now);
  }

  /** A later chunk goes to a new block. */
  lemma RestWrittenStep(env: Env, t: Store, src: seq<byte>, c: L.Chunk, now: nat)
    requires CanContinue(env, t, src, c)
    ensures GoodBlock(env, t.blocks, c.addr.blockId, t.blocks[c.addr.blockId])
    ensures var from := c.from + c.length;
            if from == |src| || env.area < L.SPACE_FOR_NEXT_CHUNK then RestWritten(env, t, src, c, now) == t
            else
              var m := Continued(env, t, src, c, now);
              && Sound(env, m) && m.lastId == t.lastId + 1 && m.blocks[m.lastId].pos == 0
              && RestWritten(env, t, src, c, now) == WrittenFrom(env, m, m.lastId, src, from, now)
  {
    hide Sound, WrittenFrom, Continued;
    ContinuedIsSound(env, t, src, c, now);
  }

  lemma WrittenFromStep(env: Env, m: Store, id: nat, src: seq<byte>, from: nat, now: nat)
    requires Sound(env, m) && id in m.blocks && from <= |src| && env.area > L.HEADER_SIZE
    requires m.blocks[id].pos + L.HEADER_SIZE <= env.area
    ensures var pos := m.blocks[id].pos;
            var len := Min(env.area - pos - L.HEADER_SIZE, |src| - from);
            var t, c := L.ChunkAdded(m, id, src, from, len), L.Chunk(Address(id, pos), from, len);
            && CanContinue(env, t, src, c)
            && WrittenFrom(env, m, id, src, from, now) == RestWritten(env, t, src, c, now)
            && t.lastId == m.lastId && (from + len < |src| ==> t.blocks[id].pos == env.area)
  {
    hide Sound, L.ChunkAdded, RestWritten;
    var pos := m.blocks[id].pos;
    ChunkAddedIsSound(env, m, id, src, from, Min(env.area - pos - L.HEADER_SIZE, |src| - from));
  }

  /** The loop stands in block `block`, behind chunk `c` if it has written one. */
  ghost predicate Ready(env: Env, t: Store, src: seq<byte>, started: bool, block: nat, c: L.Chunk) {
    && Sound(env, t) && L.StartsIn(env, t, block)
    && (started ==>
          && CanContinue(env, t, src, c) && c.addr.blockId == block
          && (c.from + c.length < |src| ==> t.blocks[block].pos == env.area))
  }

  /** How many bytes of `src` are written. */
  function Done(started: bool, c: L.Chunk): nat {
    if started then c.from + c.length else 0
  }

  /** The loop will end in state `goal`. */
  ghost predicate HeadsFor(env: Env, t: Store, src: seq<byte>, started: bool, block: nat, c: L.Chunk, now: nat,
                           goal: Store) {
    && Ready(env, t, src, started, block, c)
    && goal == if started then RestWritten(env, t, src, c, now) else TextWritten(env, t, block, src, now)
  }

  /** The loop ends when nothing is left, or when it cannot go on. */
  lemma GoalReached(env: Env, t: Store, src: seq<byte>, started: bool, block: nat, c: L.Chunk, now: nat, goal: Store)
    requires HeadsFor(env, t, src, started, block, c, now, goal)
    requires if started then Done(started, c) == |src| || env.area < L.SPACE_FOR_NEXT_CHUNK
             else Free(env, t.blocks[block]) < L.HEADER_SIZE && env.area < L.SPACE_FOR_NEXT_CHUNK
    ensures goal == t
  {
    hide Sound, RestWritten, TextWritten, Continued;
    if started {
      RestWrittenStep(env, t, src, c, now);
    } else {
      TextWrittenStep(env, t, block, src, now);
    }
  }

  /** The block for the next chunk: the current one while a header fits, else a new one. */
  ghost predicate MovesToBlock(env: Env, t: Store, src: seq<byte>, started: bool, block: nat, c: L.Chunk, now: nat,
                               m: Store, id: nat)
    requires Ready(env, t, src, started, block, c)
  {
    if Free(env, t.blocks[block]) >= L.HEADER_SIZE then m == t && id == block
    else
      && GoodBlock(env, t.blocks, block, t.blocks[block]) && env.area >= L.SPACE_FOR_NEXT_CHUNK && id == m.lastId
      && m == if started then Continued(env, t, src, c, now) else Advanced(env, t, block, now)
  }

  /** One more chunk brings the loop closer to its goal. */
  lemma GoalCloser(env: Env, t: Store, src: seq<byte>, started: bool, block: nat, c: L.Chunk, now: nat, goal: Store,
                   m: Store, id: nat)
    requires HeadsFor(env, t, src, started, block, c, now, goal) && (started ==> Done(started, c) < |src|)
    requires MovesToBlock(env, t, src, started, block, c, now, m, id)
    ensures id in m.blocks && m.blocks[id].pos + L.HEADER_SIZE <= env.area
    ensures Free(env, t.blocks[block]) < L.HEADER_SIZE ==> m.blocks[id].pos == 0
    ensures var from, pos := Done(started, c), m.blocks[id].pos;
            var len := Min(env.area - pos - L.HEADER_SIZE, |src| - from);
            HeadsFor(env, L.ChunkAdded(m, id, src, from, len), src, true, id, L.Chunk(Address(id, pos), from, len),
                     now, goal)
  {
    hide Sound, RestWritten, TextWritten, WrittenFrom, Continued, Advanced, L.ChunkAdded;
    if started {
      RestWrittenStep(env, t, src, c, now);
    } else {
      TextWrittenStep(env, t, block, src, now);
    }
    WrittenFromStep(env, m, id, src, Done(started, c), now);
    var pos := m.blocks[id].pos;
    ChunkAddedIsSound(env, m, id, src, Done(started, c), Min(env.area - pos - L.HEADER_SIZE, |src| - Done(started, c)));
  }

  /** The writing loop does not run out of room in blocks that are too small. */
  predicate Completes(env: Env, s: Store, start: nat, n: nat)
    requires start in s.blocks && s.blocks[start].pos <= env.area
  {
    env.area >= L.SPACE_FOR_NEXT_CHUNK || !L.NeedsNewBlock(env, s, start, n)
  }

  // ---- What the loop stores ----

  lemma ProgressContinues(env: Env, s: Store, start: nat, src: seq<byte>, t: Store, cs: seq<L.Chunk>, from: nat)
    requires L.StartsIn(env, s, start) && Sound(env, t) && L.Progress(env, s, start, src, t, cs, from)
    ensures |cs| > 0 && CanContinue(env, t, src, cs[|cs| - 1])
    ensures cs[|cs| - 1].from + cs[|cs| - 1].length == from && UsedStays(s, t)
    ensures var b := cs[|cs| - 1].addr.blockId; GoodBlock(env, t.blocks, b, t.blocks[b])
  {
    hide L.Progress, L.ChainStored, UsedStays, Sound, L.InUse;
    L.ProgressFacts(env, s, start, src, t, cs, from);
    SoundBlock(env, t, cs[|cs| - 1].addr.blockId);
  }

  lemma {:induction false} FromProgress(env: Env, s: Store, start: nat, src: seq<byte>, m: Store, cs: seq<L.Chunk>,
                                        from: nat, id: nat, now: nat)
    requires L.StartsIn(env, s, start) && Sound(env, m) && L.ChunkIsNext(env, s, start, src, m, cs, from, id)
    ensures var u := WrittenFrom(env, m, id, src, from, now);
            var len := Min(env.area - m.blocks[id].pos - L.HEADER_SIZE, |src| - from);
            && UsedStays(s, u)
            && (env.area >= L.SPACE_FOR_NEXT_CHUNK || from + len == |src| ==>
                  L.Progress(env, s, start, src, u, L.FullLayout(env, s, start, |src|), |src|))
    decreases |src| - from, if m.blocks[id].pos + L.HEADER_SIZE == env.area then 3 else 1
  {
    hide Sound, UsedStays, L.Progress, L.ChunkAdded, L.FullLayout, RestWritten;
    var pos := m.blocks[id].pos;
    var len := Min(env.area - pos - L.HEADER_SIZE, |src| - from);
    ChunkAddedIsSound(env, m, id, src, from, len);
    var cs' := cs + [L.Chunk(Address(id, pos), from, len)];
    assert cs'[|cs'| - 1] == L.Chunk(Address(id, pos), from, len);
    RestProgress(env, s, start, src, L.ChunkAdded(m, id, src, from, len), cs', from + len, now);
  }

  lemma {:induction false} RestProgress(env: Env, s: Store, start: nat, src: seq<byte>, t: Store, cs: seq<L.Chunk>,
                                        from: nat, now: nat)
    requires L.StartsIn(env, s, start) && Sound(env, t) && L.Progress(env, s, start, src, t, cs, from)
    ensures |cs| > 0 && CanContinue(env, t, src, cs[|cs| - 1])
    ensures var u := RestWritten(env, t, src, cs[|cs| - 1], now);
            && UsedStays(s, u)
            && (env.area >= L.SPACE_FOR_NEXT_CHUNK || from == |src| ==>
                  L.Progress(env, s, start, src, u, L.FullLayout(env, s, start, |src|), |src|))
    decreases |src| - from, if from == |src| then 0 else 2
  {
    hide Sound, UsedStays, L.Progress, L.FullLayout, L.ChunkIsNext, Continued, WrittenFrom;
    ProgressContinues(env, s, start, src, t, cs, from);
    var c := cs[|cs| - 1];
    if from == |src| {
      L.WholeLayout(env, s, start, src, t, cs);
    } else if env.area >= L.SPACE_FOR_NEXT_CHUNK {
      ContinuedIsSound(env, t, src, c, now);
      var m := Continued(env, t, src, c, now);
      NextChunkInNewBlock(env, s, start, src, t, cs, from, now);
      L.NextChunkFits(env, s, start, src, m, cs, from, m.lastId);
      FromProgress(env, s, start, src, m, cs, from, m.lastId, now);
    }
  }

  // ---- What the loop does to the map of available blocks ----

  /** The last block is listed as empty. */
  ghost predicate LastListedAsEmpty(env: Env, t: Store) {
    t.lastId in t.available && t.available[t.lastId] == env.area
  }

  ghost predicate ListsBlocks(t: Store) {
    forall id :: id in t.available ==> id in t.blocks
  }

  lemma {:induction false} FromEntries(env: Env, m: Store, id: nat, src: seq<byte>, from: nat, now: nat)
    requires Sound(env, m) && id in m.blocks && from <= |src| && env.area > L.HEADER_SIZE
    requires m.blocks[id].pos + L.HEADER_SIZE <= env.area && ListsBlocks(m)
    ensures var u := WrittenFrom(env, m, id, src, from, now);
            var len := Min(env.area - m.blocks[id].pos - L.HEADER_SIZE, |src| - from);
            && ListsBlocks(u) && m.lastId <= u.lastId <= m.lastId + |src| - from - len
            && if from + len == |src| || env.area < L.SPACE_FOR_NEXT_CHUNK then u == L.ChunkAdded(m, id, src, from, len)
               else u.lastId > m.lastId && LastListedAsEmpty(env, u)
    decreases |src| - from, if m.blocks[id].pos + L.HEADER_SIZE == env.area then 3 else 1
  {
    hide Sound, L.ChunkAdded, RestWritten;
    var pos := m.blocks[id].pos;
    var len := Min(env.area - pos - L.HEADER_SIZE, |src| - from);
    ChunkAddedIsSound(env, m, id, src, from, len);
    RestEntries(env, L.ChunkAdded(m, id, src, from, len), src, L.Chunk(Address(id, pos), from, len), now);
  }

  lemma {:induction false} RestEntries(env: Env, t: Store, src: seq<byte>, c: L.Chunk, now: nat)
    requires CanContinue(env, t, src, c) && ListsBlocks(t)
    ensures var u, from := RestWritten(env, t, src, c, now), c.from + c.length;
            && ListsBlocks(u) && t.lastId <= u.lastId <= t.lastId + |src| - from
            && if from == |src| || env.area < L.SPACE_FOR_NEXT_CHUNK then u == t
               else u.lastId > t.lastId && LastListedAsEmpty(env, u)
    decreases |src| - (c.from + c.length), if c.from + c.length == |src| then 0 else 2
  {
    hide Sound, Continued, WrittenFrom;
    var from := c.from + c.length;
    if from < |src| && env.area >= L.SPACE_FOR_NEXT_CHUNK {
      ContinuedIsSound(env, t, src, c, now);
      var m := Continued(env, t, src, c, now);
      var len := Min(env.area - L.HEADER_SIZE, |src| - from);
      ChunkAddedIsSound(env, m, m.lastId, src, from, len);
      FromEntries(env, m, m.lastId, src, from, now);
    }
  }

  // ---- The whole write ----

  /** The writing loop keeps all used bytes, and stores the whole layout when it completes. */
  lemma WrittenProgress(env: Env, s: Store, start: nat, src: seq<byte>, now: nat)
    requires Sound(env, s) && L.StartsIn(env, s, start)
    ensures var t := TextWritten(env, s, start, src, now);
            && UsedStays(s, t)
            && (Completes(env, s, start, |src|) ==>
                  L.Progress(env, s, start, src, t, L.FullLayout(env, s, start, |src|), |src|))
  {
    hide Sound, UsedStays, L.Progress, L.FullLayout, L.ChunkIsNext, Advanced, WrittenFrom;
    SoundBlock(env, s, start);
    SoundShape(env, s);
    if Free(env, s.blocks[start]) >= L.HEADER_SIZE {
      FirstChunkInStartBlock(env, s, start, src);
      FromProgress(env, s, start, src, s, [], 0, start, now);
    } else if env.area < L.SPACE_FOR_NEXT_CHUNK {
      UsedStaysSame(s);
    } else {
      var m := Advanced(env, s, start, now);
      SoundAdvanced(env, s, start, now);
      AdvancedUsed(env, s, start, now);
      FirstChunkInNewBlock(env, s, start, src, now);
      FromProgress(env, s, start, src, m, [], 0, m.lastId, now);
    }
  }

  lemma ReadyToStart(env: Env, s: Store, start: nat, src: seq<byte>, c: L.Chunk, now: nat)
    requires Workable(env, s) && L.StartsIn(env, s, start)
    ensures start <= s.lastId
    ensures var t, free := TextWritten(env, s, start, src, now), Free(env, s.blocks[start]);
            && HeadsFor(env, s, src, false, start, c, now, t) && UsedStays(s, t)
            && (Completes(env, s, start, |src|) ==>
                  L.Progress(env, s, start, src, t, L.FullLayout(env, s, start, |src|), |src|))
            && if !L.NeedsNewBlock(env, s, start, |src|) then t == L.ChunkAdded(s, start, src, 0, |src|)
               else env.area >= L.SPACE_FOR_NEXT_CHUNK ==> t.lastId > s.lastId && LastListedAsEmpty(env, t)
  {
    hide Sound, UsedStays, TextWritten, L.Progress, L.FullLayout, L.ChunkAdded;
    SoundBlock(env, s, start);
    WrittenProgress(env, s, start, src, now);
    WrittenEntries(env, s, start, src, now);
  }

  lemma UsedFromStart(env: Env, s: Store)
    requires Sound(env, s)
    ensures UsedStays(s, s)
  {
    hide Sound;
    SoundShape(env, s);
    UsedStaysSame(s);
  }

  lemma HeadingFacts(env: Env, t: Store, src: seq<byte>, started: bool, block: nat, c: L.Chunk, now: nat, goal: Store)
    requires HeadsFor(env, t, src, started, block, c, now, goal)
    ensures block in t.blocks && t.blocks[block].pos <= env.area && env.area > L.HEADER_SIZE
    ensures Ready(env, t, src, started, block, c)
    ensures started ==>
              && c.addr.blockId == block && c.from + c.length <= |src|
              && c.addr.offset + L.HEADER_SIZE <= env.area
    ensures started && Done(started, c) < |src| ==> t.blocks[block].pos == env.area
  {
    hide RestWritten, TextWritten;
  }

  /** Where a completed write ends: in the start block, or in the last block if there are new ones. */
  lemma WrittenEnd(env: Env, s: Store, start: nat, src: seq<byte>, t: Store, block: nat)
    requires L.StartsIn(env, s, start) && start <= s.lastId
    requires L.Progress(env, s, start, src, t, L.FullLayout(env, s, start, |src|), |src|)
    requires block == if t.lastId == s.lastId then start else t.lastId
    requires t.lastId == s.lastId ==>
               Free(env, s.blocks[start]) >= L.HEADER_SIZE && |src| <= Free(env, s.blocks[start]) - L.HEADER_SIZE
    ensures block in t.blocks && t.blocks[block].pos >= L.HEADER_SIZE
    ensures L.EndOf(L.FullLayout(env, s, start, |src|)) == Address(block, t.blocks[block].pos)
  {
    hide L.Progress, UsedStays, L.InUse, L.ChainStored, L.Layout;
    L.ProgressFacts(env, s, start, src, t, L.FullLayout(env, s, start, |src|), |src|);
    if t.lastId == s.lastId {
      L.LayoutStep(env.area, |src|, 0, Address(start, s.blocks[start].pos), Free(env, s.blocks[start]), s.lastId);
    }
  }

  /** What the writing loop does to the map and to the last block id. */
  lemma WrittenEntries(env: Env, s: Store, start: nat, src: seq<byte>, now: nat)
    requires Workable(env, s) && L.StartsIn(env, s, start)
    ensures var t, free := TextWritten(env, s, start, src, now), Free(env, s.blocks[start]);
            && Workable(env, t) && s.lastId <= t.lastId <= s.lastId + |src| + 1
            && if !L.NeedsNewBlock(env, s, start, |src|) then t == L.ChunkAdded(s, start, src, 0, |src|)
               else if env.area >= L.SPACE_FOR_NEXT_CHUNK then t.lastId > s.lastId && LastListedAsEmpty(env, t)
               else t == if free >= L.HEADER_SIZE then L.ChunkAdded(s, start, src, 0, free - L.HEADER_SIZE) else s
  {
    hide Sound, L.ChunkAdded, WrittenFrom;
    SoundBlock(env, s, start);
    if Free(env, s.blocks[start]) >= L.HEADER_SIZE {
      FromEntries(env, s, start, src, 0, now);
    } else if env.area >= L.SPACE_FOR_NEXT_CHUNK {
      SoundAdvanced(env, s, start, now);
      AdvancedUsed(env, s, start, now);
      var m := Advanced(env, s, start, now);
      ChunkAddedIsSound(env, m, m.lastId, src, 0, Min(env.area - L.HEADER_SIZE, |src|));
      FromEntries(env, m, m.lastId, src, 0, now);
    }
  }

  /** The column after a text or binary value was written in the selected block `id`: the entry of
      that block is brought up to date if the write completed and the entry is still there. */
  ghost function TextPut(env: Env, s: Store, id: nat, src: seq<byte>, now: nat): Store
    requires Workable(env, s) && L.StartsIn(env, s, id)
  {
    var t := TextWritten(env, s, id, src, now);
    WrittenEntries(env, s, id, src, now);
    if Completes(env, s, id, |src|) && id in t.available then
      SoundBlock(env, t, id);
      t.(available := t.available[id := env.area - t.blocks[id].pos])
    else t
  }

  /** A value of any length keeps the column workable and all used bytes, and is stored as a chain
      when its write completes. */
  lemma TextPutKeeps(env: Env, s: Store, id: nat, src: seq<byte>, now: nat)
    requires Workable(env, s) && L.StartsIn(env, s, id)
    ensures var t := TextPut(env, s, id, src, now);
            && Workable(env, t) && UsedStays(s, t) && s.lastId <= t.lastId <= s.lastId + |src| + 1
            && (Completes(env, s, id, |src|) ==>
                  L.Progress(env, s, id, src, t, L.FullLayout(env, s, id, |src|), |src|))
  {
    hide Sound, UsedStays, L.Progress, L.FullLayout, TextWritten;
    WrittenProgress(env, s, id, src, now);
    WrittenEntries(env, s, id, src, now);
    var t, u := TextWritten(env, s, id, src, now), TextPut(env, s, id, src, now);
    SoundWithMap(env, t, u.available);
    UsedWithMap(s, t, u.available);
    if Completes(env, s, id, |src|) {
      L.ProgressWithMap(env, s, id, src, t, L.FullLayout(env, s, id, |src|), |src|, u.available);
    }
  }

  /** Right after it was written a text reads back exactly when the start block had room for a header
      and the value takes at most one more block. */
  lemma TextReadsBack(env: Env, s: Store, id: nat, src: seq<byte>, now: nat)
    requires Workable(env, s) && L.StartsIn(env, s, id) && Completes(env, s, id, |src|)
    requires |src| < UINT32_LIMIT && env.area < UINT32_LIMIT && s.lastId + |src| + 1 < UINT64_LIMIT
    ensures var free := Free(env, s.blocks[id]);
            L.ReadLob(env, TextPut(env, s, id, src, now), Address(id, s.blocks[id].pos)) ==
            if free >= L.HEADER_SIZE && |src| <= (free - L.HEADER_SIZE) + (env.area - L.HEADER_SIZE) then Some(src)
            else None
  {
    hide Sound, UsedStays, L.Progress, L.FullLayout, L.ReadLob, TextPut;
    TextPutKeeps(env, s, id, src, now);
    SoundBlock(env, s, id);
    SoundIsFull(env, TextPut(env, s, id, src, now));
    L.WrittenReadsBack(env, s, id, src, TextPut(env, s, id, src, now));
  }

  lemma UsedWithMap(s: Store, t: Store, m: map<nat, nat>)
    requires UsedStays(s, t)
    ensures UsedStays(s, t.(available := m))
  {
  }

  /** A value that fits is written into its block and nothing else changes. */
  lemma TextPutFits(env: Env, s: Store, id: nat, src: seq<byte>, now: nat)
    requires Workable(env, s) && L.StartsIn(env, s, id) && id in s.available && !L.NeedsNewBlock(env, s, id, |src|)
    ensures TextPut(env, s, id, src, now) == L.TextStored(env, s, id, src)
  {
    hide Sound, TextWritten, L.ChunkAdded, L.TextStored;
    WrittenEntries(env, s, id, src, now);
    L.ChunkAsText(env, s, id, src);
  }

  /** Blocks are too small for another one and the start block has no room for a header. */
  predicate NothingFits(env: Env, s: Store, id: nat)
    requires id in s.blocks
  {
    env.area < L.SPACE_FOR_NEXT_CHUNK && Free(env, s.blocks[id]) < L.HEADER_SIZE
  }

  /** A text keeps the map exact and all digests right if and only if it fits into the selected
      block, or nothing of it can be written. */
  lemma TextPutInv(env: Env, s: Store, id: nat, src: seq<byte>, now: nat)
    requires Inv(env, s) && Workable(env, s) && L.StartsIn(env, s, id) && id in s.available
    ensures Inv(env, TextPut(env, s, id, src, now)) <==>
            !L.NeedsNewBlock(env, s, id, |src|) || NothingFits(env, s, id)
  {
    hide Inv, Sound, TextWritten, L.ChunkAdded, L.TextStored;
    var t := TextPut(env, s, id, src, now);
    WrittenEntries(env, s, id, src, now);
    AvailableIsOpen(env, s, id);
    SoundBlock(env, s, id);
    if !L.NeedsNewBlock(env, s, id, |src|) {
      TextPutFits(env, s, id, src, now);
      L.TextKeeps(env, s, id, src);
    } else if env.area >= L.SPACE_FOR_NEXT_CHUNK {
      LastBlockIsUsed(env, s, id, src, now);
      StaleEntry(env, t, t.lastId);
    } else if Free(env, s.blocks[id]) >= L.HEADER_SIZE {
      ChunkAddedIsSound(env, s, id, src, 0, Free(env, s.blocks[id]) - L.HEADER_SIZE);
      if Inv(env, t) {
        AvailableIsOpen(env, t, id);
      }
    }
  }

  /** Without an update of the map the write keeps it exact if and only if nothing can be written. */
  lemma WrittenInv(env: Env, s: Store, id: nat, src: seq<byte>, now: nat)
    requires Inv(env, s) && Workable(env, s) && L.StartsIn(env, s, id) && id in s.available
    ensures Inv(env, TextWritten(env, s, id, src, now)) <==> NothingFits(env, s, id)
    ensures NothingFits(env, s, id) ==> TextWritten(env, s, id, src, now) == s
  {
    hide Inv, Sound, TextWritten, L.ChunkAdded;
    var t := TextWritten(env, s, id, src, now);
    WrittenEntries(env, s, id, src, now);
    AvailableIsOpen(env, s, id);
    SoundBlock(env, s, id);
    if NothingFits(env, s, id) {
    } else if L.NeedsNewBlock(env, s, id, |src|) && env.area >= L.SPACE_FOR_NEXT_CHUNK {
      LastBlockIsUsed(env, s, id, src, now);
      StaleEntry(env, t, t.lastId);
    } else {
      ChunkAddedIsSound(env, s, id, src, 0, Min(Free(env, s.blocks[id]) - L.HEADER_SIZE, |src|));
      if Inv(env, t) {
        AvailableIsOpen(env, t, id);
      }
    }
  }

  lemma TextPutNothing(env: Env, s: Store, id: nat, src: seq<byte>, now: nat)
    requires Workable(env, s) && L.StartsIn(env, s, id) && NothingFits(env, s, id)
    ensures TextPut(env, s, id, src, now) == s
  {
    hide Sound, TextWritten;
    WrittenEntries(env, s, id, src, now);
  }

  /** What writing a text in the selected block amounts to. */
  lemma TextOutcome(env: Env, s0: Store, sel: Selection, src: seq<byte>, now: nat)
    requires Workable(env, s0) && Selects(env, s0, L.MIN_REQUIRED_SPACE, now, sel) && env.area > L.HEADER_SIZE
    ensures sel.Chosen? && Workable(env, sel.store) && L.StartsIn(env, sel.store, sel.id)
    ensures var t := TextPut(env, sel.store, sel.id, src, now);
            && Workable(env, t) && UsedStays(sel.store, t) && UsedStays(s0, t)
            && t.lastId <= sel.store.lastId + |src| + 1
            && (!L.NeedsNewBlock(env, sel.store, sel.id, |src|) ==> t == L.TextStored(env, sel.store, sel.id, src))
            && (Inv(env, s0) ==>
                  (Inv(env, t) <==>
                   !L.NeedsNewBlock(env, sel.store, sel.id, |src|) || NothingFits(env, sel.store, sel.id)))
            && (NothingFits(env, sel.store, sel.id) ==> t == sel.store)
  {
    hide Sound, Inv, Selects, UsedStays, TextPut, L.TextStored;
    SelectionUsed(env, s0, L.MIN_REQUIRED_SPACE, now, sel);
    SmallRequestIsServed(env, s0, L.MIN_REQUIRED_SPACE, now, sel);
    SoundBlock(env, sel.store, sel.id);
    TextPutKeeps(env, sel.store, sel.id, src, now);
    UsedStaysTransitive(s0, sel.store, TextPut(env, sel.store, sel.id, src, now));
    if !L.NeedsNewBlock(env, sel.store, sel.id, |src|) {
      TextPutFits(env, sel.store, sel.id, src, now);
    }
    if NothingFits(env, sel.store, sel.id) {
      TextPutNothing(env, sel.store, sel.id, src, now);
    }
    if Inv(env, s0) {
      SelectionKeeps(env, s0, L.MIN_REQUIRED_SPACE, now, sel);
      TextPutInv(env, sel.store, sel.id, src, now);
    }
  }

  /** The same for a value from a stream, after which the map is not brought up to date. */
  lemma StreamOutcome(env: Env, s0: Store, sel: Selection, src: seq<byte>, now: nat)
    requires Workable(env, s0) && Selects(env, s0, L.MIN_REQUIRED_SPACE, now, sel) && env.area > L.HEADER_SIZE
    ensures sel.Chosen? && Workable(env, sel.store) && L.StartsIn(env, sel.store, sel.id)
    ensures var t := TextWritten(env, sel.store, sel.id, src, now);
            Workable(env, t) && UsedStays(s0, t) && t.lastId <= sel.store.lastId + |src| + 1
  {
    hide Sound, Selects, UsedStays, TextWritten, TextPut, Inv, L.TextStored;
    TextOutcome(env, s0, sel, src, now);
    SelectionUsed(env, s0, L.MIN_REQUIRED_SPACE, now, sel);
    WrittenProgress(env, sel.store, sel.id, src, now);
    WrittenEntries(env, sel.store, sel.id, src, now);
    UsedStaysTransitive(s0, sel.store, TextWritten(env, sel.store, sel.id, src, now));
  }

  /** After a value has spilled, the last block holds its last chunk but is listed as empty. */
  lemma LastBlockIsUsed(env: Env, s: Store, id: nat, src: seq<byte>, now: nat)
    requires Workable(env, s) && L.StartsIn(env, s, id)
    requires L.NeedsNewBlock(env, s, id, |src|) && env.area >= L.SPACE_FOR_NEXT_CHUNK
    ensures var t := TextPut(env, s, id, src, now);
            && t.lastId > s.lastId && LastListedAsEmpty(env, t)
            && t.lastId in t.blocks && t.blocks[t.lastId].pos >= L.HEADER_SIZE
            && L.EndOf(L.FullLayout(env, s, id, |src|)) == Address(t.lastId, t.blocks[t.lastId].pos)
  {
    hide Sound, TextWritten, L.Progress, L.FullLayout, UsedStays, L.InUse, L.ChainStored;
    WrittenEntries(env, s, id, src, now);
    TextPutKeeps(env, s, id, src, now);
    SoundBlock(env, s, id);
    L.ProgressFacts(env, s, id, src, TextPut(env, s, id, src, now), L.FullLayout(env, s, id, |src|), |src|);
  }

  /** A map entry that overstates the free space breaks the invariant. */
  lemma StaleEntry(env: Env, s: Store, id: nat)
    requires id in s.available && id in s.blocks && s.available[id] == env.area && s.blocks[id].pos > 0
    ensures !Inv(env, s)
  {
    if Inv(env, s) {
      AvailableIsOpen(env, s, id);
    }
  }

  lemma SoundIsFull(env: Env, s: Store)
    requires Sound(env, s) && s.lastId < UINT64_LIMIT && env.area < UINT32_LIMIT
    ensures L.FullBlocks(env, s)
  {
  }
}
