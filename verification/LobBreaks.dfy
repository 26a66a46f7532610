/** A long value that is read from a stream while it is written. When a read fails, the write breaks
    off behind a chunk header. */
module LobBreaks {
  import opened Bytes
  import opened ColumnStore
  import opened LobWrite
  import L = LobChain

  // ---- A chunk in two steps ----

  /** Block `k` after a chunk header was appended. */
  function WithChunkHeader(k: Block, h: L.Header): Block {
    k.(data := WriteAt(k.data, k.pos, L.EncodeHeader(h)), pos := k.pos + L.HEADER_SIZE)
  }

  /** Block `k` after the data of a chunk were appended. */
  function WithChunkData(k: Block, data: seq<byte>): Block {
    k.(data := WriteAt(k.data, k.pos, data), pos := k.pos + |data|)
  }

  lemma ChunkInTwoSteps(k: Block, src: seq<byte>, from: nat, len: nat)
    requires from + len <= |src| && k.pos + L.HEADER_SIZE <= |k.data|
    ensures var half := WithChunkHeader(k, L.Header(|src| - from, len, 0, 0));
            && L.WithChunk(k, src, from, len) == WithChunkData(half, src[from..from + len])
            && (len == 0 ==> L.WithChunk(k, src, from, len) == half)
  {
    hide L.EncodeHeader, WriteAt;
    WriteNothing(WriteAt(k.data, k.pos, L.EncodeHeader(L.Header(|src| - from, len, 0, 0))), k.pos + L.HEADER_SIZE);
  }

  lemma WriteNothing(data: seq<byte>, at: nat)
    requires at <= |data|
    ensures WriteAt(data, at, []) == data
  {
  }

  // ---- The turns of the writing loop ----

  /** Where the writing loop stands: in block `block`, behind chunk `c` if it has written one. */
  datatype Loop = Loop(store: Store, started: bool, block: nat, c: L.Chunk)

  ghost predicate IsReady(env: Env, src: seq<byte>, l: Loop) {
    Ready(env, l.store, src, l.started, l.block, l.c)
  }

  /** The loop goes on in block `id` of `m`. */
  ghost predicate GoesOn(env: Env, src: seq<byte>, now: nat, l: Loop, m: Store, id: nat) {
    && IsReady(env, src, l) && (l.started ==> Done(l.started, l.c) < |src|)
    && MovesToBlock(env, l.store, src, l.started, l.block, l.c, now, m, id)
    && id in m.blocks && m.blocks[id].pos + L.HEADER_SIZE <= env.area
  }

  /** The loop after the next chunk was written in block `id` of `m`. */
  ghost function WithNextChunk(env: Env, src: seq<byte>, l: Loop, m: Store, id: nat): Loop
    requires id in m.blocks && m.blocks[id].pos + L.HEADER_SIZE <= env.area && Done(l.started, l.c) <= |src|
  {
    var from, pos := Done(l.started, l.c), m.blocks[id].pos;
    var len := Min(env.area - pos - L.HEADER_SIZE, |src| - from);
    Loop(L.ChunkAdded(m, id, src, from, len), true, id, L.Chunk(Address(id, pos), from, len))
  }

  /** The column after no more than the header of that chunk was written. */
  ghost function WithHeaderOnly(env: Env, src: seq<byte>, l: Loop, m: Store, id: nat): Store
    requires id in m.blocks && m.blocks[id].pos + L.HEADER_SIZE <= env.area && Done(l.started, l.c) <= |src|
  {
    var from := Done(l.started, l.c);
    var len := Min(env.area - m.blocks[id].pos - L.HEADER_SIZE, |src| - from);
    m.(blocks := m.blocks[id := WithChunkHeader(m.blocks[id], L.Header(|src| - from, len, 0, 0))])
  }

  lemma DoneAtMost(env: Env, src: seq<byte>, l: Loop)
    requires IsReady(env, src, l)
    ensures Done(l.started, l.c) <= |src|
  {
  }

  /** One turn of the loop. */
  ghost predicate Turns(env: Env, src: seq<byte>, now: nat, l: Loop, l': Loop) {
    exists m, id :: TurnsIn(env, src, now, l, m, id, l')
  }

  ghost predicate TurnsIn(env: Env, src: seq<byte>, now: nat, l: Loop, m: Store, id: nat, l': Loop) {
    GoesOn(env, src, now, l, m, id) && (DoneAtMost(env, src, l); l' == WithNextChunk(env, src, l, m, id))
  }

  /** A turn in which the data cannot be read. */
  ghost predicate Breaks(env: Env, src: seq<byte>, now: nat, l: Loop, s': Store) {
    exists m, id :: BreaksIn(env, src, now, l, m, id, s')
  }

  ghost predicate BreaksIn(env: Env, src: seq<byte>, now: nat, l: Loop, m: Store, id: nat, s': Store) {
    && GoesOn(env, src, now, l, m, id) && Done(l.started, l.c) < |src| && m.blocks[id].pos + L.HEADER_SIZE < env.area
    && s' == WithHeaderOnly(env, src, l, m, id)
  }

  lemma TurnMade(env: Env, src: seq<byte>, now: nat, l: Loop, m: Store, id: nat, len: nat, u: Store)
    requires IsReady(env, src, l) && (l.started ==> Done(l.started, l.c) < |src|)
    requires MovesToBlock(env, l.store, src, l.started, l.block, l.c, now, m, id)
    requires id in m.blocks && m.blocks[id].pos + L.HEADER_SIZE <= env.area && Done(l.started, l.c) <= |src|
    requires len == Min(env.area - m.blocks[id].pos - L.HEADER_SIZE, |src| - Done(l.started, l.c))
    requires u == L.ChunkAdded(m, id, src, Done(l.started, l.c), len)
    ensures Turns(env, src, now, l,
                  Loop(u, true, id, L.Chunk(Address(id, m.blocks[id].pos), Done(l.started, l.c), len)))
  {
    hide Sound, L.ChunkAdded, Ready, MovesToBlock;
    assert TurnsIn(env, src, now, l, m, id,
                   Loop(u, true, id, L.Chunk(Address(id, m.blocks[id].pos), Done(l.started, l.c), len)));
  }

  lemma BreakMade(env: Env, src: seq<byte>, now: nat, l: Loop, m: Store, id: nat, len: nat, u: Store)
    requires IsReady(env, src, l) && (l.started ==> Done(l.started, l.c) < |src|)
    requires MovesToBlock(env, l.store, src, l.started, l.block, l.c, now, m, id)
    requires id in m.blocks && m.blocks[id].pos + L.HEADER_SIZE <= env.area && Done(l.started, l.c) <= |src|
    requires 0 < len == Min(env.area - m.blocks[id].pos - L.HEADER_SIZE, |src| - Done(l.started, l.c))
    requires u == m.(blocks := m.blocks[id := WithChunkHeader(m.blocks[id],
                                                              L.Header(|src| - Done(l.started, l.c), len, 0, 0))])
    ensures Breaks(env, src, now, l, u)
  {
    hide Sound, WithChunkHeader, Ready, MovesToBlock;
    assert BreaksIn(env, src, now, l, m, id, u);
  }

  /** `ls` are the states of the loop at the beginning of its turns. */
  ghost predicate IsTrace(env: Env, s: Store, start: nat, src: seq<byte>, now: nat, ls: seq<Loop>) {
    && |ls| > 0 && ls[0].store == s && !ls[0].started && ls[0].block == start
    && forall i :: 0 < i < |ls| ==> Turns(env, src, now, ls[i - 1], ls[i])
  }

  /** Writing `src` from block `start` on broke off, after some turns, behind a chunk header. */
  ghost predicate BreaksOff(env: Env, s: Store, start: nat, src: seq<byte>, now: nat, s': Store) {
    exists ls :: IsTrace(env, s, start, src, now, ls) && Breaks(env, src, now, ls[|ls| - 1], s')
  }

  // ---- What every turn keeps ----

  /** What was used in `s` is still there in `t`, and chunk `c`, if there is one, lies behind it. */
  ghost predicate Behind(s: Store, t: Store, src: seq<byte>, started: bool, c: L.Chunk) {
    && UsedStays(s, t)
    && (started ==>
          && L.ChunkStored(t.blocks, src, c, L.NO_ADDRESS)
          && (c.addr.blockId in s.blocks ==> s.blocks[c.addr.blockId].pos <= c.addr.offset))
  }

  lemma StillBehind(env: Env, s: Store, t: Store, src: seq<byte>, started: bool, block: nat, c: L.Chunk, now: nat,
                    m: Store, id: nat)
    requires Ready(env, t, src, started, block, c) && Behind(s, t, src, started, c)
    requires MovesToBlock(env, t, src, started, block, c, now, m, id)
    ensures UsedStays(s, m)
  {
    hide UsedStays, L.ChunkStored, Continued, Advanced, Sound, L.MovedOn;
    if Free(env, t.blocks[block]) >= L.HEADER_SIZE {
    } else if started {
      ContinuedMovesOn(env, t, src, c, now);
      L.MovedOnKeeps(env, s, t, m, src, c);
    } else {
      AdvancedUsed(env, t, block, now);
      UsedStaysTransitive(s, t, m);
    }
  }

  /** A new chunk lies behind what was used, and so does its header alone. */
  lemma ChunkIsBehind(env: Env, s: Store, m: Store, id: nat, src: seq<byte>, from: nat, h: L.Header)
    requires UsedStays(s, m) && Sound(env, m) && id in m.blocks && from <= |src|
    requires m.blocks[id].pos + L.HEADER_SIZE <= env.area
    ensures var pos := m.blocks[id].pos;
            var len := Min(env.area - pos - L.HEADER_SIZE, |src| - from);
            Behind(s, L.ChunkAdded(m, id, src, from, len), src, true, L.Chunk(Address(id, pos), from, len))
    ensures UsedStays(s, m.(blocks := m.blocks[id := WithChunkHeader(m.blocks[id], h)]))
  {
    hide UsedStays, Sound, L.ChunkStored, L.ChunkAdded, WithChunkHeader, L.LastChunk;
    SoundBlock(env, m, id);
    SoundShape(env, m);
    L.ChunkAppended(env, s, m, id, src, from);
    var pos := m.blocks[id].pos;
    var c := L.Chunk(Address(id, pos), from, Min(env.area - pos - L.HEADER_SIZE, |src| - from));
    assert [c][0] == c;
    HeaderIsBehind(m, id, h);
    UsedStaysTransitive(s, m, m.(blocks := m.blocks[id := WithChunkHeader(m.blocks[id], h)]));
  }

  lemma HeaderIsBehind(m: Store, id: nat, h: L.Header)
    requires id in m.blocks && m.blocks[id].pos + L.HEADER_SIZE <= |m.blocks[id].data|
    requires forall j :: j in m.blocks ==> m.blocks[j].pos <= |m.blocks[j].data|
    ensures UsedStays(m, m.(blocks := m.blocks[id := WithChunkHeader(m.blocks[id], h)]))
  {
    hide L.EncodeHeader, WriteAt;
    var k := m.blocks[id];
    WriteElsewhere(k.data, k.pos, L.EncodeHeader(h), 0, k.pos);
  }

  /** What holds at the beginning of every turn. */
  ghost predicate OnTheWay(env: Env, s: Store, start: nat, src: seq<byte>, l: Loop) {
    && IsReady(env, src, l) && Behind(s, l.store, src, l.started, l.c) && ListsBlocks(l.store)
    && s.lastId <= l.store.lastId <= s.lastId + Done(l.started, l.c) + 1
    && (!l.started ==> l.store == s && l.block == start)
    && (l.started && l.store.lastId > s.lastId ==> l.block == l.store.lastId && LastListedAsEmpty(env, l.store))
    && (l.store.lastId == s.lastId ==> l.block == start && l.store.available == s.available)
  }

  /** What holds when the block for the next chunk has been found. */
  ghost predicate Found(env: Env, s: Store, start: nat, src: seq<byte>, l: Loop, m: Store, id: nat) {
    && Sound(env, m) && ListsBlocks(m) && UsedStays(s, m) && id in m.blocks
    && s.lastId <= m.lastId <= s.lastId + Done(l.started, l.c) + (if l.started then 2 else 1)
    && (m.lastId > s.lastId ==> id == m.lastId && LastListedAsEmpty(env, m) && m.blocks[id].pos == 0)
    && (m.lastId == s.lastId ==> m == s && id == start) && (l.started ==> m.lastId > s.lastId)
  }

  lemma FoundBlock(env: Env, s: Store, start: nat, src: seq<byte>, now: nat, l: Loop, m: Store, id: nat)
    requires OnTheWay(env, s, start, src, l) && GoesOn(env, src, now, l, m, id)
    ensures Found(env, s, start, src, l, m, id)
  {
    hide Sound, UsedStays, Continued, Advanced, L.ChunkStored;
    StillBehind(env, s, l.store, src, l.started, l.block, l.c, now, m, id);
    if Free(env, l.store.blocks[l.block]) >= L.HEADER_SIZE {
    } else if l.started {
      ContinuedIsSound(env, l.store, src, l.c, now);
    } else {
      SoundAdvanced(env, s, start, now);
      AdvancedListsBlocks(env, s, start, now);
    }
  }

  lemma AdvancedListsBlocks(env: Env, s: Store, id: nat, now: nat)
    requires Sound(env, s) && ListsBlocks(s) && id in s.blocks && GoodBlock(env, s.blocks, id, s.blocks[id])
    ensures var m := Advanced(env, s, id, now);
            && ListsBlocks(m) && LastListedAsEmpty(env, m) && m.lastId == s.lastId + 1 && m.blocks[m.lastId].pos == 0
  {
    hide DigestInput;
    AdvancedUsed(env, s, id, now);
  }

  lemma TurnKeeps(env: Env, s: Store, start: nat, src: seq<byte>, now: nat, l: Loop, l': Loop)
    requires OnTheWay(env, s, start, src, l) && Turns(env, src, now, l, l')
    ensures OnTheWay(env, s, start, src, l')
  {
    hide Sound, UsedStays, OnTheWay, MovesToBlock, Behind, L.ChunkAdded;
    var m, id :| TurnsIn(env, src, now, l, m, id, l');
    FoundBlock(env, s, start, src, now, l, m, id);
    NextOnTheWay(env, s, start, src, l, m, id);
  }

  lemma NextOnTheWay(env: Env, s: Store, start: nat, src: seq<byte>, l: Loop, m: Store, id: nat)
    requires Found(env, s, start, src, l, m, id) && m.blocks[id].pos + L.HEADER_SIZE <= env.area
    requires env.area > L.HEADER_SIZE && Done(l.started, l.c) <= |src| && (l.started ==> Done(l.started, l.c) < |src|)
    ensures OnTheWay(env, s, start, src, WithNextChunk(env, src, l, m, id))
  {
    hide Sound, UsedStays, Behind, L.ChunkAdded;
    var from, pos := Done(l.started, l.c), m.blocks[id].pos;
    var len := Min(env.area - pos - L.HEADER_SIZE, |src| - from);
    ChunkAddedIsSound(env, m, id, src, from, len);
    ChunkIsBehind(env, s, m, id, src, from, L.Header(0, 0, 0, 0));
  }

  lemma {:induction false} TraceKeeps(env: Env, s: Store, start: nat, src: seq<byte>, now: nat, ls: seq<Loop>)
    requires Workable(env, s) && L.StartsIn(env, s, start) && IsTrace(env, s, start, src, now, ls)
    ensures OnTheWay(env, s, start, src, ls[|ls| - 1])
    decreases |ls|
  {
    hide Turns, L.ChunkStored;
    if |ls| == 1 {
      UsedFromStart(env, s);
    } else {
      TraceKeeps(env, s, start, src, now, ls[..|ls| - 1]);
      TurnKeeps(env, s, start, src, now, ls[|ls| - 2], ls[|ls| - 1]);
    }
  }

  lemma TraceStarts(env: Env, s: Store, start: nat, src: seq<byte>, now: nat, c: L.Chunk)
    ensures IsTrace(env, s, start, src, now, [Loop(s, false, start, c)])
  {
  }

  lemma TraceGoesOn(env: Env, s: Store, start: nat, src: seq<byte>, now: nat, ls: seq<Loop>, l: Loop)
    requires IsTrace(env, s, start, src, now, ls) && Turns(env, src, now, ls[|ls| - 1], l)
    ensures IsTrace(env, s, start, src, now, ls + [l])
  {
    hide Turns;
  }

  lemma HeaderOnlyKeeps(env: Env, s: Store, start: nat, src: seq<byte>, l: Loop, m: Store, id: nat)
    requires Found(env, s, start, src, l, m, id) && m.blocks[id].pos + L.HEADER_SIZE <= env.area
    requires Done(l.started, l.c) < |src|
    ensures var s' := WithHeaderOnly(env, src, l, m, id);
            && Workable(env, s') && UsedStays(s, s') && s'.lastId <= s.lastId + |src| + 1
            && id in s'.blocks && s'.blocks[id].pos == m.blocks[id].pos + L.HEADER_SIZE && s'.available == m.available
  {
    hide Sound, UsedStays, WithChunkHeader;
    var len := Min(env.area - m.blocks[id].pos - L.HEADER_SIZE, |src| - Done(l.started, l.c));
    var h := L.Header(|src| - Done(l.started, l.c), len, 0, 0);
    ChunkIsBehind(env, s, m, id, src, Done(l.started, l.c), h);
    HeaderIsSound(env, m, id, h);
  }

  /** The map does not know of a header without data. */
  lemma HeaderOnlyIsNotListed(env: Env, s: Store, start: nat, src: seq<byte>, l: Loop, m: Store, id: nat, s': Store)
    requires Found(env, s, start, src, l, m, id) && Inv(env, s) && start in s.available
    requires s'.available == m.available && id in s'.blocks && s'.blocks[id].pos == m.blocks[id].pos + L.HEADER_SIZE
    ensures !Inv(env, s')
  {
    hide Inv, Sound, UsedStays;
    AvailableIsOpen(env, s, start);
    if Inv(env, s') {
      AvailableIsOpen(env, s', id);
    }
  }

  /** A write that breaks off keeps the column workable and all used bytes. If the column was
      consistent, its map is wrong afterwards. */
  lemma BreakKeeps(env: Env, s: Store, start: nat, src: seq<byte>, now: nat, s': Store)
    requires Workable(env, s) && L.StartsIn(env, s, start) && BreaksOff(env, s, start, src, now, s')
    ensures Workable(env, s') && UsedStays(s, s') && s'.lastId <= s.lastId + |src| + 1
    ensures Inv(env, s) && start in s.available ==> !Inv(env, s')
  {
    hide Inv, Workable, UsedStays, OnTheWay, GoesOn, Found, Turns, WithHeaderOnly;
    var ls :| IsTrace(env, s, start, src, now, ls) && Breaks(env, src, now, ls[|ls| - 1], s');
    var l := ls[|ls| - 1];
    var m, id :| BreaksIn(env, src, now, l, m, id, s');
    TraceKeeps(env, s, start, src, now, ls);
    FoundBlock(env, s, start, src, now, l, m, id);
    GoesOnFacts(env, src, now, l, m, id);
    HeaderOnlyKeeps(env, s, start, src, l, m, id);
    if Inv(env, s) && start in s.available {
      HeaderOnlyIsNotListed(env, s, start, src, l, m, id, s');
    }
  }

  lemma GoesOnFacts(env: Env, src: seq<byte>, now: nat, l: Loop, m: Store, id: nat)
    requires GoesOn(env, src, now, l, m, id)
    ensures id in m.blocks && m.blocks[id].pos + L.HEADER_SIZE <= env.area
  {
  }

  lemma HeaderIsSound(env: Env, m: Store, id: nat, h: L.Header)
    requires Sound(env, m) && id in m.blocks && m.blocks[id].pos + L.HEADER_SIZE <= env.area
    ensures WithChunkHeader(m.blocks[id], h).pos == m.blocks[id].pos + L.HEADER_SIZE
    ensures Sound(env, m.(blocks := m.blocks[id := WithChunkHeader(m.blocks[id], h)]))
  {
    hide Sound, L.EncodeHeader, WriteAt;
    SoundBlock(env, m, id);
    SoundReplaced(env, m, id, WithChunkHeader(m.blocks[id], h));
  }

  /** Where nothing fits, nothing can break off. */
  lemma NothingBreaks(env: Env, s: Store, start: nat, src: seq<byte>, now: nat, s': Store)
    requires BreaksOff(env, s, start, src, now, s') && start in s.blocks
    ensures !NothingFits(env, s, start)
  {
    hide Sound, Continued, Advanced, WithNextChunk, WithHeaderOnly;
    var ls :| IsTrace(env, s, start, src, now, ls) && Breaks(env, src, now, ls[|ls| - 1], s');
    if |ls| == 1 {
      var m, id :| BreaksIn(env, src, now, ls[0], m, id, s');
    } else {
      assert Turns(env, src, now, ls[1 - 1], ls[1]);
      var m, id :| TurnsIn(env, src, now, ls[0], m, id, ls[1]);
    }
  }
}
