/** A column: the allocator of data blocks and the operations that write, read and roll back
    records. The blocks are kept as values; the block registry is an object of its own. */
module Column {
  import opened Bytes
  import opened ColumnStore
  import opened RollbackPaths
  import opened Varint
  import L = LobChain
  import opened LobBreaks
  import opened LobWrite
  import M = MasterColumn
  import R = RegistryTables
  import BlockRegistry

  /** Keeps the registry files below the largest file size. */
  const MAX_BLOCK_ID: nat := 0x0400_0000_0000_0000

  /** The registry agrees with the blocks. The list that it keeps for a block holds nothing but the
      block's predecessor, and its state is "closed" exactly for closed blocks. */
  ghost predicate Matches(view: R.View, blocks: map<nat, Block>) {
    && (forall id :: id in view <==> id in blocks)
    && (forall id :: id in view ==> MatchesBlock(view[id], blocks[id]))
  }

  ghost predicate MatchesBlock(info: R.BlockInfo, k: Block) {
    && info.prev == k.prev && info.state == (if k.state == CLOSED then CLOSED else CREATING)
    && (|info.next| > 0 ==> k.prev != 0) && forall i :: 0 <= i < |info.next| ==> info.next[i] == k.prev
  }

  /** What the registry holds after `RecordBlockAndNextBlock` for a new block. */
  function Filed(view: R.View, id: nat, prev: nat, emptyFile: bool): R.View {
    if prev == 0 then R.RecordedView(view, id, prev, CREATING)
    else R.ExtendedView(R.RecordedView(view, id, prev, CREATING), id, prev, emptyFile)
  }

  lemma MatchesCreated(env: Env, view: R.View, blocks: map<nat, Block>, id: nat, prev: nat, state: byte,
                       emptyFile: bool)
    requires Matches(view, blocks) && id !in blocks && state != CLOSED
    ensures Matches(Filed(view, id, prev, emptyFile), blocks[id := NewBlock(env, prev, state)])
  {
  }

  predicate Usable(env: Env, k: Block, required: nat) {
    (k.state == CURRENT || k.state == AVAILABLE) && Free(env, k) >= required
  }

  /** A stream of bytes. A read delivers at most as many bytes as `takes` says, and everything that is
      asked for when nothing is said; a read that delivers nothing is a failure. */
  class Source {
    var left: seq<byte>
    var takes: seq<nat>
    var failed: bool

    /** Every read delivers something. */
    ghost predicate Delivers()
      reads this
    {
      forall i :: 0 <= i < |takes| ==> takes[i] > 0
    }

    constructor (left: seq<byte>, takes: seq<nat>)
      ensures this.left == left && this.takes == takes && !failed
    {
      this.left, this.takes, failed := left, takes, false;
    }

    method Read(n: nat) returns (data: seq<byte>)
      requires 0 < n <= |left|
      modifies this
      ensures old(left) == data + left && |data| <= n
      ensures failed <==> old(failed) || data == []
      ensures old(Delivers()) ==> Delivers() && data != []
    {
      var k := n;
      if takes != [] {
        k, takes := Min(n, takes[0]), takes[1..];
      }
      data, left := left[..k], left[k..];
      failed := failed || k == 0;
    }

    /** Reads `n` bytes, in as many pieces as it takes. */
    method ReadFully(n: nat) returns (r: Option<seq<byte>>)
      requires n <= |left| && !failed
      modifies this
      ensures (r.None? <==> failed) && (old(Delivers()) ==> Delivers() && !failed)
      ensures r.Some? ==> r.value == old(left)[..n] && left == old(left)[n..]
    {
      var data := [];
      while |data| < n
        invariant |data| <= n && !failed && old(left) == data + left && (old(Delivers()) ==> Delivers())
      {
        var piece := Read(n - |data|);
        if piece == [] {
          return None;
        }
        data := data + piece;
      }
      r := Some(data);
    }
  }

  class Column {
    const env: Env
    const registry: BlockRegistry.Registry
    var blocks: map<nat, Block>
    var available: map<nat, nat>
    var lastId: nat
    var index: map<nat, Address>

    ghost function S(): Store
      reads this
    {
      Store(blocks, available, lastId)
    }

    /** The blocks with the main index of a master column. */
    ghost function T(): M.Table
      reads this
    {
      M.Table(S(), index)
    }

    /** Consistency of blocks and registry; says nothing about free space and digests. */
    ghost predicate Valid()
      reads this, registry
    {
      && registry.Valid() && registry.lastBlockId == lastId <= MAX_BLOCK_ID
      && registry.nextsSize <= R.NEXT_RECORD_SIZE * lastId
      && Matches(registry.view, blocks) && Workable(env, S())
    }

    constructor (env: Env)
      ensures Valid() && fresh(registry) && this.env == env && T() == M.Table(EMPTY_STORE, map[])
    {
      this.env := env;
      registry := new BlockRegistry.Registry();
      blocks, available, lastId, index := map[], map[], 0, map[];
    }

    /** A new block with the next free id, filed in the registry as being created. */
    method CreateBlock(prev: nat, state: byte) returns (id: nat)
      requires Valid() && lastId < MAX_BLOCK_ID && state != CLOSED
      requires prev == 0 || prev in blocks
      modifies this`blocks, this`available, this`lastId, registry
      ensures id == old(lastId) + 1 && S() == Created(env, old(S()), prev, state)
      ensures registry.Valid() && registry.lastBlockId == lastId && registry.nextsSize <= R.NEXT_RECORD_SIZE * lastId
      ensures Matches(registry.view, blocks)
    {
      hide R.Represents, R.ExtendedView, R.RecordedView, Matches, GoodBlock;
      lastId := lastId + 1;
      id := lastId;
      MatchesCreated(env, registry.view, blocks, id, prev, state, registry.nextsSize == 0);
      blocks := blocks[id := NewBlock(env, prev, state)];
      var ok := registry.RecordBlockAndNextBlock(id, prev, CREATING, true, BlockRegistry.ALL_WRITES);
      assert ok;
    }

    /** Closes block `id`: stamps it, stores the digest and tells the registry. */
    method Finalize(id: nat, prevDigest: seq<byte>, now: nat)
      requires registry.Valid() && Matches(registry.view, blocks)
      requires id in blocks && blocks[id].pos <= |blocks[id].data|
      modifies this`blocks, registry
      ensures registry.Valid() && registry.lastBlockId == old(registry.lastBlockId)
      ensures registry.nextsSize == old(registry.nextsSize) && Matches(registry.view, blocks)
      ensures var stamped := old(blocks)[id].(stamp := now);
              blocks == old(blocks)[id := stamped.(state := CLOSED,
                                                   digest := env.hash(DigestInput(env, prevDigest, id, stamped)))]
    {
      hide R.Represents, R.RestatedView, Matches, DigestInput;
      var k := blocks[id];
      MatchesClosed(registry.view, blocks, id, k.(stamp := now, state := CLOSED,
        digest := env.hash(DigestInput(env, prevDigest, id, k.(stamp := now)))));
      var ok := registry.UpdateBlockState(id, CLOSING, true);
      k := k.(stamp := now);
      k := k.(digest := env.hash(DigestInput(env, prevDigest, id, k)));
      k := k.(state := CLOSED);
      ok := registry.UpdateBlockState(id, CLOSED, true);
      blocks := blocks[id := k];
    }

    method UpdateAvailableBlock(id: nat)
      requires id in blocks && blocks[id].pos <= env.area
      modifies this`available
      ensures available == old(available)[id := env.area - blocks[id].pos]
    {
      available := available[id := env.area - blocks[id].pos];
    }

    /** Looks for a usable one among the registered next blocks, last one first. */
    method FindUsableNextBlock(id: nat, required: nat) returns (next: Option<nat>)
      requires Valid() && id in blocks && id in registry.view
      ensures next.Some? ==>
                && next.value in registry.view[id].next && next.value in blocks
                && Usable(env, blocks[next.value], required)
      ensures next.None? ==>
                forall c :: c in registry.view[id].next && c in blocks ==> !Usable(env, blocks[c], required)
    {
      hide R.Represents, Matches, Sound;
      next := None;
      var nextIds := registry.FindNextBlockIds(id);
      ListedAreBlocks(env, S(), registry.view, id);
      var i := |nextIds.value|;
      while i > 0 && next.None?
        invariant 0 <= i <= |nextIds.value|
        invariant next.Some? ==>
                    next.value in nextIds.value && next.value in blocks && Usable(env, blocks[next.value], required)
        invariant next.None? ==>
                    forall j :: i <= j < |nextIds.value| ==> !Usable(env, blocks[nextIds.value[j]], required)
      {
        i := i - 1;
        var candidate := nextIds.value[i];
        if Usable(env, blocks[candidate], required) {
          next := Some(candidate);
        }
      }
    }

    /** Continues in a next block of block `id`, which is closed. */
    method CreateOrGetNextBlock(id: nat, required: nat, now: nat) returns (r: Option<nat>)
      requires Valid() && lastId < MAX_BLOCK_ID
      requires id in blocks
      modifies this`blocks, this`available, this`lastId, registry
      ensures Valid() && lastId <= old(lastId) + 1
      ensures r.None? <==> required == 0 || required > env.area
      ensures r.None? ==> S() == old(S())
      ensures r.Some? ==> r.value == old(lastId) + 1 && S() == Advanced(env, old(S()), id, now)
    {
      hide R.Represents, Matches, Sound, DigestInput;
      if required == 0 || required > env.area {
        return None;
      }
      SoundBlock(env, S(), id);
      SoundAdvanced(env, S(), id, now);
      MatchesHas(registry.view, blocks, id);
      var found := FindUsableNextBlock(id, required);
      var next;
      if found.Some? {
        // Never reached: the registry lists the predecessor of a block, which is closed
        next := found.value;
        assert false by { ListedAreClosed(env, S(), registry.view, id, next); }
      } else {
        next := CreateBlock(id, CREATING);
      }
      var prev := blocks[id].prev;
      var prevDigest := if prev == 0 then InitialDigest() else blocks[prev].digest;
      Finalize(id, prevDigest, now);
      available := available - {id};
      UpdateAvailableBlock(next);
      r := Some(next);
    }

    /** Chooses a block for `required` bytes: the lowest available block with enough room, or else a
        new block after the roomiest one. */
    method SelectAvailableBlock(required: nat, now: nat) returns (r: Option<nat>)
      requires Valid() && lastId < MAX_BLOCK_ID
      modifies this`blocks, this`available, this`lastId, registry
      ensures Valid() && lastId <= old(lastId) + 1
      ensures Selects(env, old(S()), required, now, if r.Some? then Chosen(S(), r.value) else Refused(S()))
    {
      hide R.Represents, Matches, Sound, Inv, GoodBlock, DigestInput, Advanced;
      if available == map[] {
        var id := CreateBlock(0, CURRENT);
        SoundCreated(env, old(S()), CURRENT);
        available := available[id := env.area - blocks[id].pos];
        return Some(id);
      }

      var fit, best := FindBlock(available, required);
      if fit.Some? {
        return fit;
      }
      available := available - {best};
      SoundWithMap(env, old(S()), old(available) - {best});
      r := CreateOrGetNextBlock(best, required, now);
      assert MovesOn(env, old(S()), required, now, best, if r.Some? then Chosen(S(), r.value) else Refused(S()));
    }

    /** Writes a value of fixed width, given as its encoded bytes, and moves the position by `len`.
        Returns the address of the record and the address behind it. */
    method WriteRecord(bytes: seq<byte>, len: nat, now: nat) returns (r: Option<(Address, Address)>)
      requires Valid() && lastId < MAX_BLOCK_ID
      modifies this`blocks, this`available, this`lastId, registry
      ensures Valid() && lastId <= old(lastId) + 1
      ensures WritesFixed(env, old(S()), bytes, len, now, if r.Some? then Stored(S(), r.value.0) else Failed(S()))
      ensures r.Some? ==> r.value.1 == Address(r.value.0.blockId, r.value.0.offset + len)
    {
      hide R.Represents, Matches, Sound, Inv, Selects, WriteAt;
      var selected := SelectAvailableBlock(len, now);
      ghost var sel := if selected.Some? then Chosen(S(), selected.value) else Refused(S());
      SelectionFacts(env, old(S()), len, now, sel);
      if selected.None? {
        assert PutsIn(env, old(S()), bytes, len, now, Failed(S()), sel);
        return None;
      }
      var id := selected.value;
      ghost var s := S();
      assert PutsIn(env, old(S()), bytes, len, now, Put(env, s, id, bytes, len), sel);
      SoundBlock(env, S(), id);
      MatchesWritten(registry.view, blocks, id, bytes, blocks[id].pos + len);
      SoundWritten(env, S(), id, bytes, len);
      var k := blocks[id];
      if k.pos + |bytes| > env.area {
        return None;
      }
      blocks := blocks[id := k.(data := WriteAt(k.data, k.pos, bytes))];
      if k.pos + len > env.area {
        return None;
      }
      blocks := blocks[id := blocks[id].(pos := k.pos + len)];
      assert blocks == s.blocks[id := Overwritten(k, bytes).(pos := k.pos + len)];
      available := available[id := env.area - blocks[id].pos];
      assert S() == Put(env, s, id, bytes, len).store;
      r := Some((Address(id, k.pos), Address(id, k.pos + len)));
    }

    /** Stores a master column record in the selected block `id` and updates the main index. */
    method StoreMasterColumnRecord(e: M.Entry, id: nat, recordSize: nat, size: nat)
      returns (r: Option<(Address, Address)>)
      requires Valid() && id in available && id in blocks
      requires recordSize == |e.body| % M.UINT16_LIMIT && size == M.TaggedSize(e.body)
      modifies this`blocks, this`available, this`index
      ensures Valid() && T() == M.StoredIn(env, old(T()), e, Chosen(old(S()), id))
      ensures r.Some? <==>
              && size == |M.Tagged(e.body)| && old(blocks)[id].pos + size <= env.area
              && !(e.kind == M.Insert && e.trid in old(index))
      ensures r.Some? ==> r.value == (Address(id, old(blocks)[id].pos), Address(id, old(blocks)[id].pos + size))
    {
      hide R.Represents, Matches, Sound, Inv, WriteAt, EncodeVarint;
      SoundBlock(env, S(), id);
      ghost var s := S();
      var k := blocks[id];
      var buffer := EncodeVarint(recordSize) + e.body;
      if |buffer| != size {
        return None;
      }
      MatchesWritten(registry.view, blocks, id, buffer, k.pos + size);
      SoundWritten(env, S(), id, buffer, size);
      if k.pos + size > env.area {
        return None;
      }
      blocks := blocks[id := k.(data := WriteAt(k.data, k.pos, buffer))];

      match e.kind {
        case Insert =>
          if e.trid in index {
            return None;
          }
          index := index[e.trid := Address(id, k.pos)];
        case Delete =>
          index := index - {e.trid};
        case Update =>
          if e.trid in index {
            index := index[e.trid := Address(id, k.pos)];
          }
      }

      blocks := blocks[id := blocks[id].(pos := k.pos + size)];
      assert blocks == s.blocks[id := Overwritten(k, buffer).(pos := k.pos + size)];
      available := available[id := env.area - blocks[id].pos];
      assert S() == Put(env, s, id, buffer, size).store;
      r := Some((Address(id, k.pos), Address(id, k.pos + size)));
    }

    /** Writes a master column record and updates the main index. */
    method WriteMasterColumnRecord(e: M.Entry, now: nat) returns (r: Option<(Address, Address)>)
      requires Valid() && lastId < MAX_BLOCK_ID
      modifies this, registry
      ensures Valid() && lastId <= old(lastId) + 1
      ensures M.Writes(env, old(T()), e, now, T())
      ensures Inv(env, old(S())) ==>
                (r.Some? <==> M.Accepted(env, e.body) && !(e.kind == M.Insert && e.trid in old(index)))
    {
      hide R.Represents, Matches, Sound, Inv, Grows, Selects, M.Writes, M.StoredIn, M.Accepted, M.Tagged, EncodeVarint;
      var recordSize := |e.body| % M.UINT16_LIMIT;
      var size := recordSize + |EncodeVarint(recordSize)|;
      if size > M.MAX_RECORD_SIZE {
        M.TooLargeIsNotWritten(env, T(), e, now);
        return None;
      }
      var selected := SelectAvailableBlock(size, now);
      ghost var sel := if selected.Some? then Chosen(S(), selected.value) else Refused(S());
      SelectionFacts(env, old(S()), size, now, sel);
      if Inv(env, old(S())) {
        M.AcceptedWhenStored(env, e.body, old(S()), now, sel);
      }
      M.WrittenInSelection(env, old(T()), e, now, sel);
      if selected.None? {
        M.RefusedIsUnchanged(env, old(T()), e, S());
        return None;
      }
      M.OnlySelectionMatters(env, old(T()), T(), e, sel);
      r := StoreMasterColumnRecord(e, selected.value, recordSize, size);
    }

    /** A whole log of master column records, written to a new column: the index is the fold of the
        log and each indexed address holds the row's latest record. */
    method WriteLog(log: seq<M.Entry>, now: nat)
      requires Valid() && T() == M.Table(EMPTY_STORE, map[]) && |log| < MAX_BLOCK_ID
      modifies this, registry
      ensures Valid() && M.Holds(env, T(), M.Rows(env, log))
    {
      hide R.Represents, Matches, Sound, M.Writes, M.Applied;
      var n := 0;
      while n < |log|
        invariant n <= |log| && Valid() && lastId <= n
        invariant M.Holds(env, T(), M.Rows(env, log[..n]))
      {
        ghost var t := T();
        var r := WriteMasterColumnRecord(log[n], now);
        M.WriteKeeps(env, t, M.Rows(env, log[..n]), log[n], now, T());
        assert log[..n + 1][..n] == log[..n];
        n := n + 1;
      }
      assert log[..n] == log;
    }

    /** Appends a chunk header to block `id`. */
    method WriteChunkHeader(id: nat, header: L.Header)
      requires Valid() && id in blocks && blocks[id].pos + L.HEADER_SIZE <= env.area
      modifies this`blocks
      ensures Valid() && blocks == old(blocks)[id := WithChunkHeader(old(blocks)[id], header)]
    {
      hide R.Represents, Matches, Sound, L.EncodeHeader, WriteAt;
      SoundBlock(env, S(), id);
      var k := blocks[id];
      ChunkKeepsSound(env, S(), registry.view, id, WithChunkHeader(k, header));
      k := k.(data := WriteAt(k.data, k.pos, L.EncodeHeader(header)));
      k := k.(pos := k.pos + L.HEADER_SIZE);
      blocks := blocks[id := k];
    }

    /** Appends the data of a chunk to block `id`. */
    method WriteChunkData(id: nat, data: seq<byte>)
      requires Valid() && id in blocks && blocks[id].pos + |data| <= env.area
      modifies this`blocks
      ensures Valid() && blocks == old(blocks)[id := WithChunkData(old(blocks)[id], data)]
    {
      hide R.Represents, Matches, Sound, WriteAt;
      SoundBlock(env, S(), id);
      var k := blocks[id];
      ChunkKeepsSound(env, S(), registry.view, id, WithChunkData(k, data));
      k := k.(data := WriteAt(k.data, k.pos, data));
      k := k.(pos := k.pos + |data|);
      blocks := blocks[id := k];
    }

    /** Appends a chunk of a long value to block `id`. */
    method WriteChunk(id: nat, src: seq<byte>, from: nat, len: nat)
      requires Valid() && id in blocks && from + len <= |src|
      requires blocks[id].pos + L.HEADER_SIZE + len <= env.area
      modifies this`blocks
      ensures Valid() && S() == L.ChunkAdded(old(S()), id, src, from, len)
    {
      hide R.Represents, Matches, Sound, L.EncodeHeader, WriteAt;
      SoundBlock(env, S(), id);
      ChunkInTwoSteps(blocks[id], src, from, len);
      WriteChunkHeader(id, L.Header(|src| - from, len, 0, 0));
      if len > 0 {
        WriteChunkData(id, src[from..from + len]);
      }
    }

    /** Continues a long value in a new block. When block `id` already holds a chunk, the header of
        that chunk, which starts at `at`, is linked to the new block. */
    method MoveToNextBlock(id: nat, link: bool, at: nat, header: L.Header, now: nat) returns (r: Option<nat>)
      requires Valid() && lastId < MAX_BLOCK_ID && id in blocks
      requires link ==> at + L.HEADER_SIZE <= env.area
      modifies this`blocks, this`available, this`lastId, registry
      ensures Valid() && (r.None? <==> env.area < L.SPACE_FOR_NEXT_CHUNK)
      ensures r.None? ==> S() == old(S())
      ensures r.Some? ==>
                && r.value == old(lastId) + 1 == lastId && lastId in available && available[lastId] == env.area
                && GoodBlock(env, old(blocks), id, old(blocks)[id])
                && S() == L.Relinked(Advanced(env, old(S()), id, now), id, link, at,
                                     header.(nextBlock := r.value, nextOffset := 0))
    {
      hide R.Represents, Matches, Sound, L.EncodeHeader, WriteAt;
      SoundBlock(env, S(), id);
      r := CreateOrGetNextBlock(id, L.SPACE_FOR_NEXT_CHUNK, now);
      if r.Some? && link {
        SoundBlock(env, S(), id);
        var k := L.WithHeader(blocks[id], at, header.(nextBlock := r.value, nextOffset := blocks[r.value].pos));
        ChunkKeepsSound(env, S(), registry.view, id, k);
        blocks := blocks[id := k];
      }
    }

    /** Finds the block for the next chunk of a long value: the current one while a header fits, else
        a new one. */
    method BlockForNextChunk(chunkId: nat, block: nat, headerPos: nat, header: L.Header, now: nat)
      returns (r: Option<nat>)
      requires Valid() && lastId < MAX_BLOCK_ID && block in blocks
      requires chunkId > 0 ==> headerPos + L.HEADER_SIZE <= env.area
      modifies this`blocks, this`available, this`lastId, registry
      ensures Valid() && GoodBlock(env, old(blocks), block, old(blocks)[block])
      ensures r.None? <==> Free(env, old(blocks)[block]) < L.HEADER_SIZE && env.area < L.SPACE_FOR_NEXT_CHUNK
      ensures r.None? ==> S() == old(S())
      ensures r.Some? ==>
                if Free(env, old(blocks)[block]) >= L.HEADER_SIZE then r.value == block && S() == old(S())
                else
                  && r.value == lastId == old(lastId) + 1
                  && S() == L.Relinked(Advanced(env, old(S()), block, now), block, chunkId > 0, headerPos,
                                       header.(nextBlock := lastId, nextOffset := 0))
    {
      hide R.Represents, Matches, Sound, Advanced;
      SoundBlock(env, S(), block);
      if env.area - blocks[block].pos >= L.HEADER_SIZE {
        return Some(block);
      }
      r := MoveToNextBlock(block, chunkId > 0, headerPos, header, now);
    }

    /** Appends the next chunk of a long value: as much as fits behind its header. */
    method WriteNextChunk(src: seq<byte>, from: nat, started: bool, block: nat, headerPos: nat, header: L.Header,
                          now: nat, ghost c: L.Chunk, ghost goal: Store)
      returns (r: Option<nat>, pos: nat, len: nat)
      requires Valid() && lastId < MAX_BLOCK_ID && HeadsFor(env, S(), src, started, block, c, now, goal)
      requires from == Done(started, c) && (started ==> from < |src|)
      requires started ==> headerPos == c.addr.offset && header == L.Header(|src| - c.from, c.length, 0, 0)
      modifies this`blocks, this`available, this`lastId, registry
      ensures Valid() && (r.None? ==> S() == old(S()))
      ensures r.None? <==> Free(env, old(blocks)[block]) < L.HEADER_SIZE && env.area < L.SPACE_FOR_NEXT_CHUNK
      ensures r.Some? ==>
                && from + len <= |src|
                && HeadsFor(env, S(), src, true, r.value, L.Chunk(Address(r.value, pos), from, len), now, goal)
                && if Free(env, old(blocks)[block]) >= L.HEADER_SIZE then
                     && r.value == block && lastId == old(lastId)
                     && len == Min(Free(env, old(blocks)[block]) - L.HEADER_SIZE, |src| - from)
                   else r.value == lastId == old(lastId) + 1 && (from < |src| ==> len > 0)
    {
      hide R.Represents, Matches, Sound, Advanced, L.ChunkAdded, HeadsFor;
      r, pos, len := None, 0, 0;
      ghost var t := S();
      HeadingFacts(env, t, src, started, block, c, now, goal);
      var next := BlockForNextChunk(if started then 1 else 0, block, headerPos, header, now);
      if next.None? {
        return;
      }
      var id := next.value;
      GoalCloser(env, t, src, started, block, c, now, goal, S(), id);
      pos := blocks[id].pos;
      len := Min(env.area - pos - L.HEADER_SIZE, |src| - from);
      WriteChunk(id, src, from, len);
      r := Some(id);
    }

    /** Writes a long value from the open block `start` on, chunk by chunk. The first address that it
        returns is set only when the start block has no room for a header. */
    method WriteBuffer(src: seq<byte>, start: nat, now: nat) returns (r: Option<(Address, Address)>)
      requires Valid() && L.StartsIn(env, S(), start)
      requires |src| < UINT32_LIMIT && lastId + |src| + 2 < MAX_BLOCK_ID
      modifies this`blocks, this`available, this`lastId, registry
      ensures Valid() && S() == TextWritten(env, old(S()), start, src, now) && UsedStays(old(S()), S())
      ensures r.None? <==> env.area < L.SPACE_FOR_NEXT_CHUNK && L.NeedsNewBlock(env, old(S()), start, |src|)
      ensures r.Some? ==>
                L.Progress(env, old(S()), start, src, S(), L.FullLayout(env, old(S()), start, |src|), |src|)
      ensures r.Some? ==>
                if L.NeedsNewBlock(env, old(S()), start, |src|) then
                  && lastId > old(lastId) && lastId in available && available[lastId] == env.area
                  && lastId in blocks && blocks[lastId].pos >= L.HEADER_SIZE
                else S() == L.ChunkAdded(old(S()), start, src, 0, |src|)
      ensures r.Some? ==>
                r.value == (L.ReturnedAddress(env, old(S()), start), L.EndOf(L.FullLayout(env, old(S()), start, |src|)))
    {
      hide R.Represents, Matches, Sound, UsedStays, L.FullLayout, L.ChunkAdded, L.Progress, TextWritten, HeadsFor;
      ghost var s, c := S(), L.Chunk(L.NO_ADDRESS, 0, 0);
      ReadyToStart(env, s, start, src, c, now);
      ghost var goal, free := TextWritten(env, s, start, src, now), Free(env, s.blocks[start]);
      var block: nat, from: nat, chunkId := start, 0, 0;
      var result, headerPos: nat, header := L.NO_ADDRESS, 0, L.Header(0, 0, 0, 0);
      while chunkId == 0 || from < |src|
        invariant Valid() && from <= |src| && s.lastId <= lastId <= s.lastId + from + 1
        invariant HeadsFor(env, S(), src, chunkId > 0, block, c, now, goal)
        invariant from == Done(chunkId > 0, c) && block == if lastId == s.lastId then start else lastId
        invariant result == if chunkId > 0 then L.ReturnedAddress(env, s, start) else L.NO_ADDRESS
        invariant chunkId == 0 ==> S() == s
        invariant chunkId > 0 ==> headerPos == c.addr.offset && header == L.Header(|src| - c.from, c.length, 0, 0)
        invariant chunkId > 0 && lastId == s.lastId ==>
                    free >= L.HEADER_SIZE && from == Min(free - L.HEADER_SIZE, |src|)
        invariant env.area < L.SPACE_FOR_NEXT_CHUNK ==> lastId == s.lastId
        decreases if chunkId == 0 then 1 else 0, |src| - from
      {
        HeadingFacts(env, S(), src, chunkId > 0, block, c, now, goal);
        if chunkId == 0 && env.area - blocks[block].pos < L.HEADER_SIZE {
          result := Address(block, blocks[block].pos);
        }
        var next, pos, len := WriteNextChunk(src, from, chunkId > 0, block, headerPos, header, now, c, goal);
        if next.None? {
          GoalReached(env, S(), src, chunkId > 0, block, c, now, goal);
          return None;
        }
        block, headerPos, header := next.value, pos, L.Header(|src| - from, len, 0, 0);
        c := L.Chunk(Address(block, headerPos), from, len);
        from, chunkId := from + len, chunkId + 1;
      }
      GoalReached(env, S(), src, true, block, c, now, goal);
      HeadingFacts(env, S(), src, true, block, c, now, goal);
      WrittenEnd(env, s, start, src, S(), block);
      r := Some((result, Address(block, blocks[block].pos)));
    }

    /** Writes a text or binary value. The column asks for less room than a header takes. Only the
        entry of the start block is brought up to date, if it is still there. */
    method WriteText(src: seq<byte>, now: nat) returns (r: Option<Address>, ghost sel: Selection)
      requires Valid() && env.area > L.HEADER_SIZE && |src| < UINT32_LIMIT && lastId + |src| + 3 < MAX_BLOCK_ID
      modifies this`blocks, this`available, this`lastId, registry
      ensures Valid() && Selects(env, old(S()), L.MIN_REQUIRED_SPACE, now, sel)
      ensures sel.Chosen? && Workable(env, sel.store) && L.StartsIn(env, sel.store, sel.id) && UsedStays(sel.store, S())
      ensures S() == TextPut(env, sel.store, sel.id, src, now) && lastId <= old(lastId) + |src| + 2
      ensures r.None? <==> env.area < L.SPACE_FOR_NEXT_CHUNK && L.NeedsNewBlock(env, sel.store, sel.id, |src|)
      ensures r.Some? ==> r.value == Address(sel.id, sel.store.blocks[sel.id].pos)
      ensures r.Some? && env.area < UINT32_LIMIT ==>
                var free := Free(env, sel.store.blocks[sel.id]);
                L.ReadLob(env, S(), r.value) ==
                if free >= L.HEADER_SIZE && |src| <= (free - L.HEADER_SIZE) + (env.area - L.HEADER_SIZE) then Some(src)
                else None
      ensures r.Some? && sel.id in sel.store.available && !L.NeedsNewBlock(env, sel.store, sel.id, |src|) ==>
                S() == L.TextStored(env, sel.store, sel.id, src)
      ensures Inv(env, old(S())) ==>
                (Inv(env, S()) <==>
                 !L.NeedsNewBlock(env, sel.store, sel.id, |src|) || NothingFits(env, sel.store, sel.id))
    {
      hide R.Represents, Matches, Sound, Inv, Selects, UsedStays, L.FullLayout, L.Progress, L.ReadLob, L.ChunkAdded,
        L.TextStored, TextWritten;
      var selected := SelectAvailableBlock(L.MIN_REQUIRED_SPACE, now);
      sel := if selected.Some? then Chosen(S(), selected.value) else Refused(S());
      TextOutcome(env, old(S()), sel, src, now);
      var id := selected.value;
      ghost var s := S();
      var pos := blocks[id].pos;
      var written := WriteBuffer(src, id, now);
      if written.None? {
        return None, sel;
      }
      UsedBlock(s, S(), id);
      SoundBlock(env, S(), id);
      SoundWithMap(env, S(), available[id := env.area - blocks[id].pos]);
      if id in available {
        available := available[id := env.area - blocks[id].pos];
      }
      if env.area < UINT32_LIMIT {
        TextReadsBack(env, s, id, src, now);
      }
      r := Some(Address(id, pos));
    }

    /** Appends a chunk with data from a stream. The header is written before the data are read. */
    method StreamChunk(id: nat, lob: Source, len: nat, ghost src: seq<byte>, ghost from: nat) returns (ok: bool)
      requires Valid() && id in blocks && blocks[id].pos + L.HEADER_SIZE + len <= env.area
      requires !lob.failed && from + len <= |src| && lob.left == src[from..]
      modifies this`blocks, lob
      ensures Valid() && ok == !lob.failed && (old(lob.Delivers()) ==> lob.Delivers() && ok)
      ensures ok ==> S() == L.ChunkAdded(old(S()), id, src, from, len) && lob.left == src[from + len..]
      ensures !ok ==>
                && len > 0
                && S() == old(S()).(blocks := old(blocks)[id := WithChunkHeader(old(blocks)[id],
                                                                               L.Header(|src| - from, len, 0, 0))])
    {
      hide R.Represents, Matches, Sound, L.EncodeHeader, WriteAt;
      SoundBlock(env, S(), id);
      ChunkInTwoSteps(blocks[id], src, from, len);
      WriteChunkHeader(id, L.Header(|lob.left|, len, 0, 0));
      if len > 0 {
        var data := lob.ReadFully(len);
        if data.None? {
          return false;
        }
        assert data.value == src[from..from + len];
        WriteChunkData(id, data.value);
      }
      ok := true;
    }

    /** Appends the next chunk of a long value that is read from a stream. */
    method StreamNextChunk(lob: Source, started: bool, block: nat, headerPos: nat, header: L.Header, now: nat,
                           ghost src: seq<byte>, ghost c: L.Chunk, ghost goal: Store)
      returns (r: Option<nat>, pos: nat, len: nat)
      requires Valid() && lastId < MAX_BLOCK_ID && HeadsFor(env, S(), src, started, block, c, now, goal)
      requires !lob.failed && Done(started, c) <= |src| && lob.left == src[Done(started, c)..]
      requires started ==> lob.left != []
      requires started ==> headerPos == c.addr.offset && header == L.Header(|src| - c.from, c.length, 0, 0)
      modifies this`blocks, this`available, this`lastId, registry, lob
      ensures Valid() && (r.None? && !lob.failed ==> S() == old(S()))
      ensures old(lob.Delivers()) ==> lob.Delivers() && !lob.failed
      ensures lob.failed ==> Breaks(env, src, now, Loop(old(S()), started, block, c), S())
      ensures r.None? <==>
              lob.failed || (Free(env, old(blocks)[block]) < L.HEADER_SIZE && env.area < L.SPACE_FOR_NEXT_CHUNK)
      ensures r.Some? ==>
                var c' := L.Chunk(Address(r.value, pos), Done(started, c), len);
                && Done(started, c) + len <= |src| && lob.left == src[Done(started, c) + len..]
                && Turns(env, src, now, Loop(old(S()), started, block, c), Loop(S(), true, r.value, c'))
                && HeadsFor(env, S(), src, true, r.value, c', now, goal)
                && if Free(env, old(blocks)[block]) >= L.HEADER_SIZE then
                     && r.value == block && lastId == old(lastId)
                     && len == Min(Free(env, old(blocks)[block]) - L.HEADER_SIZE, |src| - Done(started, c))
                   else r.value == lastId == old(lastId) + 1 && (Done(started, c) < |src| ==> len > 0)
    {
      hide R.Represents, Matches, Sound, Advanced, L.ChunkAdded, HeadsFor, WithChunkHeader, Turns, Breaks;
      r, pos, len := None, 0, 0;
      ghost var l, from := Loop(S(), started, block, c), Done(started, c);
      HeadingFacts(env, S(), src, started, block, c, now, goal);
      var next := BlockForNextChunk(if started then 1 else 0, block, headerPos, header, now);
      if next.None? {
        return;
      }
      var id := next.value;
      ghost var m := S();
      GoalCloser(env, l.store, src, started, block, c, now, goal, m, id);
      pos := blocks[id].pos;
      len := Min(env.area - pos - L.HEADER_SIZE, |lob.left|);
      var ok := StreamChunk(id, lob, len, src, from);
      if ok {
        TurnMade(env, src, now, l, m, id, len, S());
        r := Some(id);
      } else {
        BreakMade(env, src, now, l, m, id, len, S());
      }
    }

    /** Writes a long value that is read from a stream. Where a read fails, the write breaks off behind
        the last header. */
    method WriteStream(lob: Source, start: nat, now: nat) returns (r: Option<(Address, Address)>)
      requires Valid() && L.StartsIn(env, S(), start) && !lob.failed
      requires |lob.left| < UINT32_LIMIT && lastId + |lob.left| + 2 < MAX_BLOCK_ID
      modifies this`blocks, this`available, this`lastId, registry, lob
      ensures Valid() && UsedStays(old(S()), S()) && (old(lob.Delivers()) ==> !lob.failed)
      ensures !lob.failed ==> S() == TextWritten(env, old(S()), start, old(lob.left), now)
      ensures lob.failed ==> BreaksOff(env, old(S()), start, old(lob.left), now, S())
      ensures r.None? <==>
              || lob.failed
              || (env.area < L.SPACE_FOR_NEXT_CHUNK && L.NeedsNewBlock(env, old(S()), start, |old(lob.left)|))
      ensures r.Some? ==>
                && lob.left == []
                && r.value == (L.ReturnedAddress(env, old(S()), start),
                               L.EndOf(L.FullLayout(env, old(S()), start, |old(lob.left)|)))
    {
      hide R.Represents, Matches, Sound, UsedStays, L.FullLayout, L.ChunkAdded, L.Progress, TextWritten, HeadsFor,
        Turns, Breaks, IsTrace;
      ghost var s, src, c := S(), lob.left, L.Chunk(L.NO_ADDRESS, 0, 0);
      ReadyToStart(env, s, start, src, c, now);
      ghost var goal, free := TextWritten(env, s, start, src, now), Free(env, s.blocks[start]);
      var block: nat, chunkId := start, 0;
      var result, headerPos: nat, header := L.NO_ADDRESS, 0, L.Header(0, 0, 0, 0);
      ghost var from: nat, ls := 0, [Loop(s, false, start, c)];
      TraceStarts(env, s, start, src, now, c);
      while chunkId == 0 || lob.left != []
        invariant Valid() && !lob.failed && from <= |src| && lob.left == src[from..]
        invariant old(lob.Delivers()) ==> lob.Delivers()
        invariant s.lastId <= lastId <= s.lastId + from + 1
        invariant HeadsFor(env, S(), src, chunkId > 0, block, c, now, goal)
        invariant IsTrace(env, s, start, src, now, ls)
        invariant |ls| > 0 && ls[|ls| - 1] == Loop(S(), chunkId > 0, block, c)
        invariant from == Done(chunkId > 0, c) && block == if lastId == s.lastId then start else lastId
        invariant result == if chunkId > 0 then L.ReturnedAddress(env, s, start) else L.NO_ADDRESS
        invariant chunkId == 0 ==> S() == s
        invariant chunkId > 0 ==> headerPos == c.addr.offset && header == L.Header(|src| - c.from, c.length, 0, 0)
        invariant chunkId > 0 && lastId == s.lastId ==>
                    free >= L.HEADER_SIZE && from == Min(free - L.HEADER_SIZE, |src|)
        invariant env.area < L.SPACE_FOR_NEXT_CHUNK ==> lastId == s.lastId
        decreases if chunkId == 0 then 1 else 0, |lob.left|
      {
        HeadingFacts(env, S(), src, chunkId > 0, block, c, now, goal);
        if chunkId == 0 && env.area - blocks[block].pos < L.HEADER_SIZE {
          result := Address(block, blocks[block].pos);
        }
        var remaining := |lob.left|;
        var next, pos, len := StreamNextChunk(lob, chunkId > 0, block, headerPos, header, now, src, c, goal);
        if next.None? {
          if lob.failed {
            assert BreaksOff(env, s, start, src, now, S());
            BreakKeeps(env, s, start, src, now, S());
          } else {
            GoalReached(env, S(), src, chunkId > 0, block, c, now, goal);
          }
          return None;
        }
        block, headerPos, header := next.value, pos, L.Header(remaining, len, 0, 0);
        c := L.Chunk(Address(block, headerPos), from, len);
        TraceGoesOn(env, s, start, src, now, ls, Loop(S(), true, block, c));
        ls := ls + [Loop(S(), true, block, c)];
        from, chunkId := from + len, chunkId + 1;
      }
      GoalReached(env, S(), src, true, block, c, now, goal);
      HeadingFacts(env, S(), src, true, block, c, now, goal);
      WrittenEnd(env, s, start, src, S(), block);
      r := Some((result, Address(block, blocks[block].pos)));
    }

    /** Writes a text or binary value from a stream. The address that is returned is the one that the
        writing loop gives, and the map of available blocks is not brought up to date. No such value
        can be read: it reads as NULL, or reading fails. */
    method WriteLob(lob: Source, now: nat) returns (r: Option<(Address, Address)>, ghost sel: Selection)
      requires Valid() && env.area > L.HEADER_SIZE && !lob.failed
      requires |lob.left| < UINT32_LIMIT && lastId + |lob.left| + 3 < MAX_BLOCK_ID
      modifies this`blocks, this`available, this`lastId, registry, lob
      ensures Valid() && Selects(env, old(S()), L.MIN_REQUIRED_SPACE, now, sel)
      ensures sel.Chosen? && Workable(env, sel.store) && L.StartsIn(env, sel.store, sel.id) && UsedStays(sel.store, S())
      ensures !lob.failed ==> S() == TextWritten(env, sel.store, sel.id, old(lob.left), now)
      ensures lob.failed ==> BreaksOff(env, sel.store, sel.id, old(lob.left), now, S())
      ensures lastId <= old(lastId) + |old(lob.left)| + 2 && (old(lob.Delivers()) ==> !lob.failed)
      ensures r.None? <==>
              || lob.failed
              || (env.area < L.SPACE_FOR_NEXT_CHUNK && L.NeedsNewBlock(env, sel.store, sel.id, |old(lob.left)|))
      ensures r.Some? ==>
                L.ReadValue(env, S(), r.value.0) ==
                if Free(env, sel.store.blocks[sel.id]) >= L.HEADER_SIZE then L.Null else L.Unreadable
      ensures Inv(env, old(S())) ==> (Inv(env, S()) <==> !lob.failed && NothingFits(env, sel.store, sel.id))
    {
      hide R.Represents, Matches, Sound, Inv, Selects, UsedStays, L.FullLayout, L.ReadValue, TextWritten, TextPut,
        L.TextStored, BreaksOff;
      ghost var src := lob.left;
      var selected := SelectAvailableBlock(L.MIN_REQUIRED_SPACE, now);
      sel := if selected.Some? then Chosen(S(), selected.value) else Refused(S());
      TextOutcome(env, old(S()), sel, src, now);
      var id := selected.value;
      SoundBlock(env, S(), id);
      ghost var s := S();
      WrittenEntries(env, s, id, src, now);
      if Inv(env, old(S())) {
        SelectionKeeps(env, old(S()), L.MIN_REQUIRED_SPACE, now, sel);
      }
      r := WriteStream(lob, id, now);
      if lob.failed {
        BreakKeeps(env, s, id, src, now, S());
      }
      if Inv(env, old(S())) {
        WrittenInv(env, s, id, src, now);
      }
      if r.Some? {
        L.ReturnedAddressLosesValue(env, s, id, S());
      }
    }

    /** Sets position and fill time of block `id` and lists it as available. */
    method Rewind(id: nat, pos: nat, stamp: nat)
      requires Valid() && id in blocks && pos <= env.area
      modifies this`blocks, this`available
      ensures Valid() && S() == WithBlock(old(S()), id, old(blocks)[id].(pos := pos, stamp := stamp), env.area - pos)
    {
      hide R.Represents, Matches, Sound;
      BlockRewound(env, S(), registry.view, id, pos, stamp);
      var k := blocks[id];
      k := k.(pos := pos);
      k := k.(stamp := stamp);
      blocks := blocks[id := k];
      UpdateAvailableBlock(id);
    }

    /** Empties block `cur` on the way to `addr`. */
    method StepBack(cur: nat, ghost addr: Address, ghost first: nat, ghost visited: nat, ghost goal: Rollback)
      returns (prev: nat)
      requires Valid() && cur in blocks && visited in blocks && addr.blockId in blocks && Descending(blocks)
      requires cur != addr.blockId && addr.offset < env.area && RollFrom(env, S(), addr, first, cur, visited) == goal
      modifies this`blocks, this`available
      ensures Valid() && cur in blocks && addr.blockId in blocks && Descending(blocks) && prev < cur
      ensures prev == 0 ==> goal == NotReached(S())
      ensures prev != 0 ==> prev in blocks && RollFrom(env, S(), addr, first, prev, cur) == goal
    {
      hide R.Represents, Matches, Sound, RollFrom, Descending, WithBlock;
      ghost var s := S();
      Rewind(cur, 0, 0);
      RollStepTo(env, s, addr, first, cur, visited, S());
      prev := blocks[cur].prev;
    }

    /** Takes the column back to `addr`, walking from block `first` along the predecessors. Succeeds if
        and only if block `first` is available, the offset lies in the data area, and there is a path to
        the target. Within one block only its position and its map entry change. */
    method RollbackToAddress(addr: Address, first: nat) returns (ok: bool)
      requires Valid()
      modifies this`blocks, this`available
      ensures Valid()
      ensures ok <==>
              && first in old(available) && addr.blockId in old(blocks) && addr.blockId <= first
              && addr.offset < env.area && Reaches(old(blocks), first, addr.blockId)
      ensures ok ==> RolledBackTo(env, old(S()), S(), addr, first)
      ensures !ok ==> S() == old(S()) || RanOut(env, old(S()), S(), first)
      ensures first == addr.blockId && first in old(available) && addr.offset < env.area ==>
                && ok && first in old(blocks) && blocks == old(blocks)[first := old(blocks)[first].(pos := addr.offset)]
                && available == old(available)[first := env.area - addr.offset]
      ensures !CanRollBack(env, old(S()), addr, first) ==> !ok && S() == old(S())
      ensures CanRollBack(env, old(S()), addr, first) ==>
                && Descending(old(blocks))
                && RollFrom(env, old(S()), addr, first, first, addr.blockId)
                   == if ok then RolledBack(S()) else NotReached(S())
    {
      hide R.Represents, Matches, Sound, RollFrom, Descending, WithBlock, Reaches, RolledBackTo, RanOut;
      if !CanRollBack(env, Store(blocks, available, lastId), addr, first) {
        return false;
      }
      SoundDescends(env, S());
      ghost var goal := RollFrom(env, S(), addr, first, first, addr.blockId);
      RollMeans(env, S(), addr, first);
      if first == addr.blockId {
        RollInBlock(env, S(), addr);
      }
      var cur, block := first, addr.blockId;
      while cur != addr.blockId
        invariant Valid() && cur in blocks && block in blocks && addr.blockId in blocks && Descending(blocks)
        invariant RollFrom(env, S(), addr, first, cur, block) == goal
        decreases cur
      {
        var prev := StepBack(cur, addr, first, block, goal);
        block, cur := cur, prev;
        if cur == 0 {
          return false;
        }
      }
      RollEnd(env, S(), addr, first, block);
      Rewind(block, addr.offset, if block == first then blocks[block].stamp else 0);
      ok := true;
    }
  }

  /** Writing into a block does not concern the registry. */
  lemma MatchesWritten(view: R.View, blocks: map<nat, Block>, id: nat, bytes: seq<byte>, pos: nat)
    requires Matches(view, blocks) && id in blocks
    ensures Matches(view, blocks[id := Overwritten(blocks[id], bytes)])
    ensures Matches(view, blocks[id := Overwritten(blocks[id], bytes).(pos := pos)])
  {
    hide Matches, WriteAt;
    MatchesReplaced(view, blocks, id, Overwritten(blocks[id], bytes));
    MatchesReplaced(view, blocks, id, Overwritten(blocks[id], bytes).(pos := pos));
  }

  lemma MatchesReplaced(view: R.View, blocks: map<nat, Block>, id: nat, k: Block)
    requires Matches(view, blocks) && id in blocks && k.prev == blocks[id].prev && k.state == blocks[id].state
    ensures Matches(view, blocks[id := k])
  {
    hide MatchesBlock;
    SameMatch(view, blocks, id, k);
  }

  lemma SameMatch(view: R.View, blocks: map<nat, Block>, id: nat, k: Block)
    requires Matches(view, blocks) && id in blocks && k.prev == blocks[id].prev && k.state == blocks[id].state
    ensures id in view && MatchesBlock(view[id], k)
  {
    hide Matches, MatchesBlock;
    InMatches(view, blocks, id);
    SameInfo(view[id], blocks[id], k);
  }

  lemma InMatches(view: R.View, blocks: map<nat, Block>, id: nat)
    requires Matches(view, blocks) && id in blocks
    ensures id in view && MatchesBlock(view[id], blocks[id])
  {
    hide MatchesBlock;
  }

  lemma SameInfo(info: R.BlockInfo, k: Block, k': Block)
    requires MatchesBlock(info, k) && k'.prev == k.prev
    ensures k'.state == k.state ==> MatchesBlock(info, k')
    ensures k'.state == CLOSED ==> MatchesBlock(info.(state := CLOSED), k')
  {
  }

  /** Goes through the available blocks in ascending order of ids. */
  method FindBlock(available: map<nat, nat>, required: nat) returns (fit: Option<nat>, best: nat)
    requires available != map[]
    ensures fit.Some? ==> IsFirstFit(available, required, fit.value)
    ensures fit.None? ==> IsRoomiest(available, best) && forall id :: !IsFirstFit(available, required, id)
  {
    var rest := available.Keys;
    best := Minimum(rest);
    while rest != {}
      invariant rest <= available.Keys && best in available
      invariant forall j, l :: j in available && j !in rest && l in rest ==> j < l
      invariant forall j :: j in available && j !in rest ==> available[j] < required && available[j] <= available[best]
      invariant forall j :: j in available && j < best ==> j !in rest && available[j] < available[best]
      invariant rest == available.Keys || best !in rest
    {
      var k := Minimum(rest);
      if available[k] >= required {
        return Some(k), best;
      }
      if available[best] < available[k] {
        best := k;
      }
      rest := rest - {k};
    }
    fit := None;
  }

  method Minimum(s: set<nat>) returns (m: nat)
    requires s != {}
    ensures m in s && forall j :: j in s ==> m <= j
  {
    var rest := s;
    m :| m in s;
    while rest != {}
      invariant m in s && rest <= s
      invariant forall j :: j in s && j !in rest ==> m <= j
    {
      var j :| j in rest;
      if j < m {
        m := j;
      }
      rest := rest - {j};
    }
  }

  lemma MatchesHas(view: R.View, blocks: map<nat, Block>, id: nat)
    requires Matches(view, blocks) && id in blocks
    ensures id in view
  {
  }

  lemma ListedAreBlocks(env: Env, s: Store, view: R.View, id: nat)
    requires Matches(view, s.blocks) && Sound(env, s) && id in s.blocks && id in view
    ensures forall i :: 0 <= i < |view[id].next| ==> view[id].next[i] in s.blocks
  {
    assert MatchesBlock(view[id], s.blocks[id]) && GoodBlock(env, s.blocks, id, s.blocks[id]);
  }

  /** The blocks that the registry lists for a block are closed. */
  lemma ListedAreClosed(env: Env, s: Store, view: R.View, id: nat, next: nat)
    requires Matches(view, s.blocks) && Sound(env, s) && id in s.blocks && id in view
    requires next in view[id].next
    ensures next in s.blocks && s.blocks[next].state == CLOSED
  {
    assert MatchesBlock(view[id], s.blocks[id]) && GoodBlock(env, s.blocks, id, s.blocks[id]);
  }

  lemma MatchesClosed(view: R.View, blocks: map<nat, Block>, id: nat, k: Block)
    requires Matches(view, blocks) && id in blocks && k.prev == blocks[id].prev && k.state == CLOSED
    ensures id in view && id in R.RestatedView(view, id, CLOSING)
    ensures Matches(R.RestatedView(R.RestatedView(view, id, CLOSING), id, CLOSED), blocks[id := k])
  {
    hide MatchesBlock;
    ClosedMatch(view, blocks, id, k);
    var view' := R.RestatedView(R.RestatedView(view, id, CLOSING), id, CLOSED);
    assert view' == view[id := view[id].(state := CLOSED)];
  }

  lemma ClosedMatch(view: R.View, blocks: map<nat, Block>, id: nat, k: Block)
    requires Matches(view, blocks) && id in blocks && k.prev == blocks[id].prev && k.state == CLOSED
    ensures id in view && MatchesBlock(view[id].(state := CLOSED), k)
  {
    hide Matches, MatchesBlock;
    InMatches(view, blocks, id);
    SameInfo(view[id], blocks[id], k);
  }

  /** Replacing the contents of a block concerns neither the registry nor the shape of the column. */
  lemma ChunkKeepsSound(env: Env, s: Store, view: R.View, id: nat, k: Block)
    requires Sound(env, s) && Matches(view, s.blocks) && id in s.blocks
    requires k.prev == s.blocks[id].prev && k.state == s.blocks[id].state && |k.data| == env.area && k.pos <= env.area
    ensures Sound(env, s.(blocks := s.blocks[id := k])) && Matches(view, s.blocks[id := k])
  {
    hide Matches;
    MatchesReplaced(view, s.blocks, id, k);
    SoundReplaced(env, s, id, k);
  }

  lemma BlockRewound(env: Env, s: Store, view: R.View, id: nat, pos: nat, stamp: nat)
    requires Workable(env, s) && Matches(view, s.blocks) && id in s.blocks && pos <= env.area
    ensures var t := WithBlock(s, id, s.blocks[id].(pos := pos, stamp := stamp), env.area - pos);
            Workable(env, t) && Matches(view, t.blocks)
  {
    hide Sound, Matches;
    SoundBlock(env, s, id);
    ChunkKeepsSound(env, s, view, id, s.blocks[id].(pos := pos, stamp := stamp));
    SoundWithMap(env, s.(blocks := s.blocks[id := s.blocks[id].(pos := pos, stamp := stamp)]),
                 s.available[id := env.area - pos]);
  }
}
