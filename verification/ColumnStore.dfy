/** The data blocks of a column as values: append-only blocks of fixed size, the map of available
    blocks with their free space, and the chain of digests over closed blocks. The functions say
    what each operation of the column does to this state; the class `Column` carries them out. */
module ColumnStore {
  import opened Bytes

  // States of a data block
  const CREATING: byte := 1
  const CLOSING: byte := 2
  const CLOSED: byte := 3
  const CURRENT: byte := 4
  const AVAILABLE: byte := 5

  /** What the blocks of one column share: the data area size, the identity of the column, and the
      hash function. */
  datatype Env = Env(area: nat, uuid: seq<byte>, tableId: nat, columnId: nat, hash: seq<byte> -> seq<byte>)

  datatype Block = Block(prev: nat, data: seq<byte>, pos: nat, state: byte, stamp: nat, digest: seq<byte>)

  datatype Store = Store(blocks: map<nat, Block>, available: map<nat, nat>, lastId: nat)

  datatype Address = Address(blockId: nat, offset: nat)

  const DIGEST_LENGTH: nat := 64

  const EMPTY_STORE := Store(map[], map[], 0)

  function InitialDigest(): seq<byte> {
    Zeros(DIGEST_LENGTH)
  }

  function Free(env: Env, k: Block): int {
    env.area - k.pos
  }

  /** The bytes that are hashed for a block: the previous digest, the identifying header fields (the
      column id is cut to 32 bits), the fill time, the data length and the data. */
  function DigestInput(env: Env, prevDigest: seq<byte>, id: nat, k: Block): seq<byte>
    requires k.pos <= |k.data|
  {
    prevDigest + env.uuid + EncodeUInt(env.tableId, 4) + EncodeUInt(env.columnId, 4)
    + EncodeUInt(id, 8) + EncodeUInt(k.stamp, 8) + EncodeUInt(k.pos, 4) + k.data[..k.pos]
  }

  function PrevDigest(blocks: map<nat, Block>, k: Block): seq<byte>
    requires k.prev != 0 ==> k.prev in blocks
  {
    if k.prev == 0 then InitialDigest() else blocks[k.prev].digest
  }

  // ---- Invariant ----

  /** A block is full-sized and was created after its predecessor, which is closed. */
  ghost predicate GoodBlock(env: Env, blocks: map<nat, Block>, id: nat, k: Block) {
    && |k.data| == env.area && k.pos <= env.area && k.prev < id
    && (k.prev != 0 ==> k.prev in blocks && blocks[k.prev].state == CLOSED)
  }

  /** The digest stored in a closed block is the one that its predecessor and its content give. */
  ghost predicate DigestHolds(env: Env, blocks: map<nat, Block>, id: nat, k: Block)
    requires GoodBlock(env, blocks, id, k)
  {
    k.state == CLOSED ==> k.digest == env.hash(DigestInput(env, PrevDigest(blocks, k), id, k))
  }

  /** An available block is open and its entry is its real free space. */
  ghost predicate GoodEntry(env: Env, blocks: map<nat, Block>, id: nat, free: nat) {
    id in blocks && blocks[id].state != CLOSED && free == Free(env, blocks[id])
  }

  /** All blocks have full size and the links to predecessors go down to closed blocks. */
  ghost predicate Sound(env: Env, s: Store) {
    forall id :: id in s.blocks ==> 0 < id <= s.lastId && GoodBlock(env, s.blocks, id, s.blocks[id])
  }

  /** What the operations rely on: the map of available blocks lists existing blocks. */
  ghost predicate Workable(env: Env, s: Store) {
    Sound(env, s) && forall id :: id in s.available ==> id in s.blocks
  }

  ghost predicate Shaped(env: Env, s: Store) {
    Sound(env, s) && forall id :: id in s.available ==> GoodEntry(env, s.blocks, id, s.available[id])
  }

  ghost predicate Inv(env: Env, s: Store) {
    && Shaped(env, s)
    && (forall id :: id in s.blocks ==> DigestHolds(env, s.blocks, id, s.blocks[id]))
  }

  // ---- Operations ----

  function NewBlock(env: Env, prev: nat, state: byte): Block {
    Block(prev, Zeros(env.area), 0, state, 0, InitialDigest())
  }

  /** `createBlock`: a fresh empty block with the next id. */
  function Created(env: Env, s: Store, prev: nat, state: byte): Store {
    s.(blocks := s.blocks[s.lastId + 1 := NewBlock(env, prev, state)], lastId := s.lastId + 1)
  }

  /** `finalize`: stamps the block, stores its digest and closes it. */
  function Finalized(env: Env, blocks: map<nat, Block>, id: nat, k: Block, now: nat): Block
    requires k.prev != 0 ==> k.prev in blocks
    requires k.pos <= |k.data|
  {
    var stamped := k.(stamp := now);
    stamped.(state := CLOSED, digest := env.hash(DigestInput(env, PrevDigest(blocks, k), id, stamped)))
  }

  /** `createOrGetNextBlock`: a fresh block chained to block `id`, which is closed. */
  function Advanced(env: Env, s: Store, id: nat, now: nat): (r: Store)
    requires id in s.blocks && s.blocks[id].pos <= |s.blocks[id].data|
    requires s.blocks[id].prev != 0 ==> s.blocks[id].prev in s.blocks
    ensures id in r.blocks && r.lastId == s.lastId + 1 && r.lastId in r.blocks
  {
    var closed := Finalized(env, s.blocks, id, s.blocks[id], now);
    var t := Created(env, s, id, CREATING);
    t.(blocks := t.blocks[id := closed], available := (t.available - {id})[t.lastId := env.area])
  }

  /** The lowest available block with enough room. */
  ghost predicate IsFirstFit(available: map<nat, nat>, required: nat, id: nat) {
    && id in available && available[id] >= required
    && (forall j :: j in available && j < id ==> available[j] < required)
  }

  /** The lowest among the available blocks with the most free space. */
  ghost predicate IsRoomiest(available: map<nat, nat>, id: nat) {
    && id in available
    && (forall j :: j in available ==> available[j] <= available[id])
    && (forall j :: j in available && j < id ==> available[j] < available[id])
  }

  /** The outcome of selecting a block: the new state and the chosen block, or no block. */
  datatype Selection = Chosen(store: Store, id: nat) | Refused(store: Store)

  /** `selectAvailableBlockUnlocked`. A request larger than a block is refused after the roomiest
      block has been taken off the map, except when no block was available. */
  ghost predicate Selects(env: Env, s: Store, required: nat, now: nat, r: Selection)
    requires Workable(env, s)
  {
    if s.available == map[] then
      var t := Created(env, s, 0, CURRENT);
      r == Chosen(t.(available := map[t.lastId := env.area]), t.lastId)
    else if exists id :: IsFirstFit(s.available, required, id) then
      r.Chosen? && r.store == s && IsFirstFit(s.available, required, r.id)
    else
      exists id :: IsRoomiest(s.available, id) && MovesOn(env, s, required, now, id, r)
  }

  /** The part of a selection that continues in a new block after block `id`. */
  ghost predicate MovesOn(env: Env, s: Store, required: nat, now: nat, id: nat, r: Selection)
    requires Workable(env, s) && id in s.available
  {
    var t := s.(available := s.available - {id});
    if required == 0 || required > env.area then r == Refused(t)
    else r == Chosen(Advanced(env, t, id, now), t.lastId + 1)
  }

  lemma CreatedKeeps(env: Env, s: Store, state: byte)
    requires Inv(env, s) && state != CLOSED
    ensures var t := Created(env, s, 0, state);
            Inv(env, t) && Inv(env, t.(available := t.available[t.lastId := env.area]))
  {
    hide DigestHolds, GoodEntry;
    var t := Created(env, s, 0, state);
    forall j | j in t.blocks
      ensures GoodBlock(env, t.blocks, j, t.blocks[j]) && DigestHolds(env, t.blocks, j, t.blocks[j])
    {
      CreatedBlock(env, s, state, j);
    }
    CreatedEntries(env, s, state);
  }

  lemma CreatedBlock(env: Env, s: Store, state: byte, j: nat)
    requires Inv(env, s) && state != CLOSED && j in Created(env, s, 0, state).blocks
    ensures var t := Created(env, s, 0, state);
            GoodBlock(env, t.blocks, j, t.blocks[j]) && DigestHolds(env, t.blocks, j, t.blocks[j])
  {
    hide DigestInput, GoodEntry;
    if j in s.blocks {
      FrameBlock(env, s.blocks, Created(env, s, 0, state).blocks, j, s.blocks[j]);
    }
  }

  lemma CreatedEntries(env: Env, s: Store, state: byte)
    requires Inv(env, s) && state != CLOSED
    ensures var t := Created(env, s, 0, state);
            && (forall id :: id in t.available ==> GoodEntry(env, t.blocks, id, t.available[id]))
            && GoodEntry(env, t.blocks, t.lastId, env.area)
  {
    hide DigestHolds;
  }

  /** A block keeps its standing when the other blocks it does not follow change, and its
      predecessor keeps its state and digest. */
  lemma FrameBlock(env: Env, blocks: map<nat, Block>, blocks': map<nat, Block>, id: nat, k: Block)
    requires GoodBlock(env, blocks, id, k)
    requires k.prev != 0 ==> k.prev in blocks' && blocks'[k.prev] == blocks[k.prev]
    ensures GoodBlock(env, blocks', id, k)
    ensures DigestHolds(env, blocks, id, k) <==> DigestHolds(env, blocks', id, k)
  {
  }

  lemma OpenBlockDigestHolds(env: Env, blocks: map<nat, Block>, id: nat, k: Block)
    requires GoodBlock(env, blocks, id, k) && k.state != CLOSED
    ensures DigestHolds(env, blocks, id, k)
  {
  }

  lemma FinalizedIsGood(env: Env, blocks: map<nat, Block>, id: nat, k: Block, now: nat)
    requires GoodBlock(env, blocks, id, k)
    ensures var c := Finalized(env, blocks, id, k, now);
            GoodBlock(env, blocks, id, c) && DigestHolds(env, blocks, id, c) && c.state == CLOSED
            && c.prev == k.prev && c.data == k.data && c.pos == k.pos
  {
  }

  lemma AdvancedBlock(env: Env, s: Store, id: nat, now: nat, j: nat)
    requires Inv(env, s) && id in s.blocks && s.blocks[id].state != CLOSED
    requires j in Advanced(env, s, id, now).blocks
    ensures var t := Advanced(env, s, id, now);
            && 0 < j <= t.lastId && GoodBlock(env, t.blocks, j, t.blocks[j])
            && DigestHolds(env, t.blocks, j, t.blocks[j])
  {
    hide Finalized, DigestInput, GoodEntry;
    var t := Advanced(env, s, id, now);
    FinalizedIsGood(env, s.blocks, id, s.blocks[id], now);
    if j != t.lastId {
      assert GoodBlock(env, s.blocks, j, t.blocks[j]);
      FrameBlock(env, s.blocks, t.blocks, j, t.blocks[j]);
    }
  }

  lemma AdvancedEntry(env: Env, s: Store, id: nat, now: nat, j: nat)
    requires Inv(env, s) && id in s.blocks && s.blocks[id].state != CLOSED
    requires j in Advanced(env, s, id, now).available
    ensures var t := Advanced(env, s, id, now);
            GoodEntry(env, t.blocks, j, t.available[j])
  {
    hide Finalized, DigestInput, DigestHolds;
  }

  lemma AdvancedKeeps(env: Env, s: Store, id: nat, now: nat)
    requires Inv(env, s) && id in s.blocks && s.blocks[id].state != CLOSED
    ensures Inv(env, Advanced(env, s, id, now))
  {
    var t := Advanced(env, s, id, now);
    forall j | j in t.blocks
      ensures 0 < j <= t.lastId && GoodBlock(env, t.blocks, j, t.blocks[j])
              && DigestHolds(env, t.blocks, j, t.blocks[j])
    {
      AdvancedBlock(env, s, id, now, j);
    }
    hide GoodBlock, DigestHolds, GoodEntry, Advanced;
    forall j | j in t.available
      ensures GoodEntry(env, t.blocks, j, t.available[j])
    {
      AdvancedEntry(env, s, id, now, j);
    }
  }

  // ---- Which block is selected ----

  /** As long as some available block has room, nothing changes and the lowest such block is selected. */
  lemma SelectsLowest(env: Env, s: Store, required: nat, now: nat, sel: Selection, id: nat)
    requires Workable(env, s) && Selects(env, s, required, now, sel)
    requires id in s.available && s.available[id] >= required
    ensures sel.Chosen? && sel.store == s && sel.id <= id && sel.id in s.available && s.available[sel.id] >= required
  {
    hide Sound, MovesOn;
    var fits := set j | j in s.available && s.available[j] >= required;
    var low := LowestOf(fits, id);
    forall j | j in s.available && j < low ensures s.available[j] < required {
      assert j !in fits;
    }
    assert IsFirstFit(s.available, required, low);
  }

  lemma {:induction false} LowestOf(ids: set<nat>, id: nat) returns (low: nat)
    requires id in ids
    ensures low in ids && forall j :: j in ids ==> low <= j
    decreases id
  {
    low := id;
    if j :| j in ids && j < id {
      low := LowestOf(ids, j);
    }
  }

  /** When no available block has room, the one with the most is closed, taken off the map and followed by
      a new block. The other entries stay. */
  lemma ClosesRoomiest(env: Env, s: Store, required: nat, now: nat, sel: Selection, id: nat)
    requires Workable(env, s) && Selects(env, s, required, now, sel) && 0 < required <= env.area
    requires id in s.available && forall j :: j in s.available ==> s.available[j] < required
    ensures sel.Chosen? && sel.id == s.lastId + 1 == sel.store.lastId && sel.id in sel.store.blocks
    ensures var k := sel.store.blocks[sel.id].prev;
            && k in s.available && k in sel.store.blocks && sel.store.blocks[k].state == CLOSED
            && (if s.available[id] == s.available[k] then k <= id else s.available[id] < s.available[k])
            && sel.store.available == (s.available - {k})[sel.id := env.area]
  {
    hide Sound, DigestInput;
    SoundShape(env, s);
    assert forall j :: !IsFirstFit(s.available, required, j);
    var k :| IsRoomiest(s.available, k) && MovesOn(env, s, required, now, k, sel);
    assert k in s.blocks;
  }

  // ---- Shape of the column ----

  lemma SoundBlock(env: Env, s: Store, id: nat)
    requires Sound(env, s) && id in s.blocks
    ensures 0 < id <= s.lastId && GoodBlock(env, s.blocks, id, s.blocks[id])
  {
  }

  lemma SoundShape(env: Env, s: Store)
    requires Sound(env, s)
    ensures forall j :: j in s.blocks ==> j <= s.lastId && s.blocks[j].pos <= |s.blocks[j].data| == env.area
  {
  }

  lemma SoundWithMap(env: Env, s: Store, m: map<nat, nat>)
    requires Sound(env, s)
    ensures Sound(env, s.(available := m))
  {
  }

  lemma SoundCreated(env: Env, s: Store, state: byte)
    requires Sound(env, s)
    ensures Sound(env, Created(env, s, 0, state))
    ensures forall m :: Sound(env, Created(env, s, 0, state).(available := m))
  {
  }

  lemma SoundAdvanced(env: Env, s: Store, id: nat, now: nat)
    requires Sound(env, s) && id in s.blocks
    ensures Sound(env, Advanced(env, s, id, now))
  {
    hide DigestInput;
  }

  /** Replacing the contents of a block does not concern the shape of the column. */
  lemma SoundReplaced(env: Env, s: Store, id: nat, k: Block)
    requires Sound(env, s) && id in s.blocks
    requires k.prev == s.blocks[id].prev && k.state == s.blocks[id].state && |k.data| == env.area && k.pos <= env.area
    ensures Sound(env, s.(blocks := s.blocks[id := k]))
  {
  }

  // ---- Used bytes ----

  /** The used bytes of a block stay. */
  ghost predicate UsedBlockStays(k: Block, k': Block) {
    k.pos <= k'.pos && k.pos <= |k.data| && k.pos <= |k'.data| && k'.data[..k.pos] == k.data[..k.pos]
  }

  /** What is used in `s` stays as it is in `t`. */
  ghost predicate UsedStays(s: Store, t: Store) {
    && s.lastId <= t.lastId
    && forall id :: id in s.blocks ==> id in t.blocks && UsedBlockStays(s.blocks[id], t.blocks[id])
  }

  lemma UsedStaysSame(s: Store)
    requires forall j :: j in s.blocks ==> s.blocks[j].pos <= |s.blocks[j].data|
    ensures UsedStays(s, s)
  {
  }

  lemma UsedStaysTransitive(s: Store, t: Store, u: Store)
    requires UsedStays(s, t) && UsedStays(t, u)
    ensures UsedStays(s, u)
  {
    forall id | id in s.blocks
      ensures id in u.blocks && UsedBlockStays(s.blocks[id], u.blocks[id])
    {
      var k, k', k'' := s.blocks[id], t.blocks[id], u.blocks[id];
      assert UsedBlockStays(k, k') && UsedBlockStays(k', k'');
      SliceOfPrefix(k''.data, k'.pos, 0, k.pos);
      SliceOfPrefix(k'.data, k'.pos, 0, k.pos);
    }
  }

  lemma UsedBlock(s: Store, t: Store, id: nat)
    requires UsedStays(s, t) && id in s.blocks
    ensures id in t.blocks && s.lastId <= t.lastId
  {
  }

  /** What happens to a block later: its used bytes stay, and nothing changes once it is closed. */
  ghost predicate BlockGrows(k: Block, k': Block) {
    UsedBlockStays(k, k') && k'.prev == k.prev && (k.state == CLOSED ==> k' == k)
  }

  ghost predicate Grows(s: Store, t: Store) {
    && s.lastId <= t.lastId
    && forall id :: id in s.blocks ==> id in t.blocks && BlockGrows(s.blocks[id], t.blocks[id])
  }

  lemma GrowsUsed(s: Store, t: Store)
    requires Grows(s, t)
    ensures UsedStays(s, t)
  {
    forall id | id in s.blocks
      ensures id in t.blocks && UsedBlockStays(s.blocks[id], t.blocks[id])
    {
      assert BlockGrows(s.blocks[id], t.blocks[id]);
    }
  }

  lemma GrowsTransitive(s: Store, t: Store, u: Store)
    requires Grows(s, t) && Grows(t, u)
    ensures Grows(s, u)
  {
    forall id | id in s.blocks
      ensures id in u.blocks && BlockGrows(s.blocks[id], u.blocks[id])
    {
      var k, k', k'' := s.blocks[id], t.blocks[id], u.blocks[id];
      assert BlockGrows(k, k') && BlockGrows(k', k'');
      assert k''.data[..k.pos] == k''.data[..k'.pos][..k.pos];
      assert k'.data[..k.pos] == k'.data[..k'.pos][..k.pos];
    }
  }

  // ---- Selection ----

  lemma WithoutEntryKeeps(env: Env, s: Store, id: nat)
    requires Inv(env, s)
    ensures Inv(env, s.(available := s.available - {id}))
  {
  }

  lemma AdvancedGrows(env: Env, s: Store, id: nat, now: nat)
    requires Inv(env, s) && id in s.blocks && s.blocks[id].state != CLOSED
    ensures Grows(s, Advanced(env, s, id, now))
  {
    hide DigestHolds, GoodEntry, DigestInput;
  }

  lemma CreatedGrows(env: Env, s: Store, prev: nat, state: byte)
    requires Inv(env, s)
    ensures var t := Created(env, s, prev, state);
            Grows(s, t) && Grows(s, t.(available := t.available[t.lastId := env.area]))
  {
    hide DigestHolds, GoodEntry;
  }

  /** A successful selection for a length within the data area yields a mapped block with that much
      room, and used bytes stay as they are. */
  lemma SelectionKeeps(env: Env, s: Store, required: nat, now: nat, r: Selection)
    requires Inv(env, s) && Workable(env, s) && Selects(env, s, required, now, r)
    ensures Inv(env, r.store) && Grows(s, r.store)
    ensures r.Chosen? ==> r.id in r.store.available && r.id in r.store.blocks
    ensures r.Chosen? && required <= env.area ==> r.store.available[r.id] >= required
    ensures 0 < required <= env.area ==> r.Chosen?
  {
    hide DigestHolds, GoodBlock, MovesOn, Created, Grows;
    if s.available == map[] {
      CreatedIsEmptyBlock(env, s);
      CreatedKeeps(env, s, CURRENT);
      CreatedGrows(env, s, 0, CURRENT);
    } else if exists id :: IsFirstFit(s.available, required, id) {
      GrowsReflexive(env, s);
    } else {
      var id :| IsRoomiest(s.available, id) && MovesOn(env, s, required, now, id, r);
      MovingOnKeeps(env, s, required, now, id, r);
    }
  }

  lemma MovingOnKeeps(env: Env, s: Store, required: nat, now: nat, id: nat, r: Selection)
    requires Inv(env, s) && Workable(env, s) && id in s.available && MovesOn(env, s, required, now, id, r)
    ensures Inv(env, r.store) && Grows(s, r.store)
    ensures r.Chosen? <==> 0 < required <= env.area
    ensures r.Chosen? ==> r.id in r.store.available && r.id in r.store.blocks && r.store.available[r.id] == env.area
  {
    hide Inv, Grows, Advanced;
    var t := s.(available := s.available - {id});
    WithoutEntryKeeps(env, s, id);
    WithoutEntryGrows(env, s, id);
    if r.Chosen? {
      AvailableIsOpen(env, s, id);
      AdvancedKeeps(env, t, id, now);
      AdvancedGrows(env, t, id, now);
      AdvancedNewEntry(env, t, id, now);
      GrowsTransitive(s, t, r.store);
    }
  }

  lemma AvailableIsOpen(env: Env, s: Store, id: nat)
    requires Inv(env, s) && id in s.available
    ensures Shaped(env, s) && id in s.blocks && s.blocks[id].state != CLOSED
            && s.available[id] == Free(env, s.blocks[id])
  {
  }

  /** A request that a block can hold is always served. */
  lemma SmallRequestIsServed(env: Env, s: Store, required: nat, now: nat, r: Selection)
    requires Workable(env, s) && Selects(env, s, required, now, r) && 0 < required <= env.area
    ensures r.Chosen?
  {
    hide Advanced, Created;
  }

  /** A selection keeps the column workable, whatever the map says about free space. */
  lemma SelectionFacts(env: Env, s: Store, required: nat, now: nat, r: Selection)
    requires Workable(env, s) && Selects(env, s, required, now, r)
    ensures Workable(env, r.store)
    ensures r.Chosen? ==> r.id in r.store.available && r.id in r.store.blocks
  {
    hide MovesOn, Sound;
    if s.available == map[] {
      CreatedIsSound(env, s, map[s.lastId + 1 := env.area]);
    } else if !(exists id :: IsFirstFit(s.available, required, id)) {
      var id :| IsRoomiest(s.available, id) && MovesOn(env, s, required, now, id, r);
      MovingOnFacts(env, s, required, now, id, r);
    }
  }

  lemma CreatedIsSound(env: Env, s: Store, m: map<nat, nat>)
    requires Sound(env, s)
    ensures Sound(env, Created(env, s, 0, CURRENT).(available := m))
  {
  }

  lemma MovingOnFacts(env: Env, s: Store, required: nat, now: nat, id: nat, r: Selection)
    requires Workable(env, s) && id in s.available && MovesOn(env, s, required, now, id, r)
    ensures Workable(env, r.store)
    ensures r.Chosen? ==> r.id in r.store.available && r.id in r.store.blocks
  {
    hide DigestInput;
  }

  lemma GrowsReflexive(env: Env, s: Store)
    requires Inv(env, s)
    ensures Grows(s, s)
  {
    hide DigestHolds, GoodEntry;
  }

  lemma WithoutEntryGrows(env: Env, s: Store, id: nat)
    requires Inv(env, s)
    ensures Grows(s, s.(available := s.available - {id}))
  {
    hide DigestHolds, GoodEntry;
  }

  lemma CreatedIsEmptyBlock(env: Env, s: Store)
    ensures var t := Created(env, s, 0, CURRENT);
            t.lastId in t.blocks && t.available == s.available
  {
  }

  lemma AdvancedNewEntry(env: Env, s: Store, id: nat, now: nat)
    requires Inv(env, s) && id in s.blocks
    ensures var t := Advanced(env, s, id, now);
            && t.lastId == s.lastId + 1 && t.lastId in t.blocks
            && t.lastId in t.available && t.available[t.lastId] == env.area
            && t.blocks[t.lastId] == NewBlock(env, id, CREATING)
  {
    hide DigestHolds;
  }

  // ---- Writing records ----

  /** The outcome of a write: the new state and, when it succeeded, where the record is. */
  datatype Outcome = Stored(store: Store, addr: Address) | Failed(store: Store)

  function Overwritten(k: Block, bytes: seq<byte>): Block {
    k.(data := WriteAt(k.data, k.pos, bytes))
  }

  /** Writes `bytes` at the next position of block `id`, moves the position by `len` and updates
      the block's entry in the map. A write beyond the data area fails; when only the position
      cannot be moved, the bytes are already in the unused part of the block. */
  function Put(env: Env, s: Store, id: nat, bytes: seq<byte>, len: nat): Outcome
    requires id in s.blocks
  {
    var k := s.blocks[id];
    if k.pos + |bytes| > env.area then Failed(s)
    else if k.pos + len > env.area then Failed(s.(blocks := s.blocks[id := Overwritten(k, bytes)]))
    else
      Stored(s.(blocks := s.blocks[id := Overwritten(k, bytes).(pos := k.pos + len)],
                available := s.available[id := env.area - (k.pos + len)]),
             Address(id, k.pos))
  }

  /** `bytes` are stored at `addr` in the used part of a block. */
  ghost predicate RecordAt(s: Store, addr: Address, bytes: seq<byte>) {
    && addr.blockId in s.blocks
    && var k := s.blocks[addr.blockId];
       addr.offset + |bytes| <= k.pos <= |k.data| && k.data[addr.offset..addr.offset + |bytes|] == bytes
  }

  /** A stored record stays as it is while used bytes stay. */
  lemma RecordStays(s: Store, t: Store, addr: Address, bytes: seq<byte>)
    requires RecordAt(s, addr, bytes) && UsedStays(s, t)
    requires forall id :: id in t.blocks ==> t.blocks[id].pos <= |t.blocks[id].data|
    ensures RecordAt(t, addr, bytes)
  {
    var k, k' := s.blocks[addr.blockId], t.blocks[addr.blockId];
    assert UsedBlockStays(k, k');
    SliceOfPrefix(k.data, k.pos, addr.offset, addr.offset + |bytes|);
    SliceOfPrefix(k'.data, k.pos, addr.offset, addr.offset + |bytes|);
  }

  /** Block `id` replaced by `k`, and its entry set to the free space of `k`. */
  function Replaced(env: Env, s: Store, id: nat, k: Block): Store
    requires k.pos <= env.area
  {
    s.(blocks := s.blocks[id := k], available := s.available[id := env.area - k.pos])
  }

  /** `k` continues the open block `id`. */
  ghost predicate Continues(env: Env, s: Store, id: nat, k: Block) {
    && id in s.blocks && id in s.available
    && k.state == s.blocks[id].state && k.prev == s.blocks[id].prev && k.digest == s.blocks[id].digest
    && |k.data| == env.area && k.pos <= env.area
  }

  lemma ReplacedBlock(env: Env, s: Store, id: nat, k: Block, j: nat)
    requires Inv(env, s) && Continues(env, s, id, k) && j in Replaced(env, s, id, k).blocks
    ensures var t := Replaced(env, s, id, k);
            && 0 < j <= t.lastId && GoodBlock(env, t.blocks, j, t.blocks[j])
            && DigestHolds(env, t.blocks, j, t.blocks[j])
  {
    hide Inv, DigestHolds;
    AvailableIsOpen(env, s, id);
    var t := Replaced(env, s, id, k);
    if j == id {
      assert GoodBlock(env, s.blocks, id, s.blocks[id]);
      assert GoodBlock(env, t.blocks, id, k);
      OpenBlockDigestHolds(env, t.blocks, id, k);
    } else {
      BlockIsGood(env, s, j);
      FrameBlock(env, s.blocks, t.blocks, j, s.blocks[j]);
    }
  }

  lemma BlockIsGood(env: Env, s: Store, j: nat)
    requires Inv(env, s) && j in s.blocks
    ensures 0 < j <= s.lastId && GoodBlock(env, s.blocks, j, s.blocks[j]) && DigestHolds(env, s.blocks, j, s.blocks[j])
  {
    hide GoodBlock, DigestHolds;
  }

  lemma ReplacedEntry(env: Env, s: Store, id: nat, k: Block, j: nat)
    requires Inv(env, s) && Continues(env, s, id, k) && j in Replaced(env, s, id, k).available
    ensures GoodEntry(env, Replaced(env, s, id, k).blocks, j, Replaced(env, s, id, k).available[j])
  {
    hide DigestHolds, GoodBlock;
  }

  lemma ReplacedKeeps(env: Env, s: Store, id: nat, k: Block)
    requires Inv(env, s) && Continues(env, s, id, k)
    ensures Inv(env, Replaced(env, s, id, k))
  {
    hide GoodBlock, DigestHolds, GoodEntry, Replaced;
    var t := Replaced(env, s, id, k);
    forall j | j in t.blocks
      ensures 0 < j <= t.lastId && GoodBlock(env, t.blocks, j, t.blocks[j])
              && DigestHolds(env, t.blocks, j, t.blocks[j])
    {
      ReplacedBlock(env, s, id, k, j);
    }
    forall j | j in t.available
      ensures GoodEntry(env, t.blocks, j, t.available[j])
    {
      ReplacedEntry(env, s, id, k, j);
    }
  }

  lemma PutIsReplacement(env: Env, s: Store, id: nat, bytes: seq<byte>, len: nat)
    requires Inv(env, s) && id in s.available && id in s.blocks
    ensures var r := Put(env, s, id, bytes, len);
            || r.store == s
            || (id in r.store.blocks && Continues(env, s, id, r.store.blocks[id])
                && r.store == Replaced(env, s, id, r.store.blocks[id]))
  {
    hide Inv, Shaped, GoodEntry, DigestHolds, WriteAt;
    AvailableIsOpen(env, s, id);
    BlockIsGood(env, s, id);
  }

  lemma PutKeeps(env: Env, s: Store, id: nat, bytes: seq<byte>, len: nat)
    requires Inv(env, s) && id in s.available && id in s.blocks
    ensures Inv(env, Put(env, s, id, bytes, len).store)
  {
    hide Inv, Continues, Replaced, Put;
    PutIsReplacement(env, s, id, bytes, len);
    var t := Put(env, s, id, bytes, len).store;
    if t != s {
      ReplacedKeeps(env, s, id, t.blocks[id]);
    }
  }

  /** Bytes written behind the used part of an open block do not matter. */
  lemma OverwrittenKeeps(env: Env, s: Store, id: nat, bytes: seq<byte>)
    requires Inv(env, s) && id in s.available && id in s.blocks && s.blocks[id].pos + |bytes| <= env.area
    ensures var t := s.(blocks := s.blocks[id := Overwritten(s.blocks[id], bytes)]);
            Inv(env, t) && Grows(s, t)
  {
    hide Inv, Shaped, DigestHolds, GoodEntry, WriteAt;
    AvailableIsOpen(env, s, id);
    var k := Overwritten(s.blocks[id], bytes);
    BlockIsGood(env, s, id);
    ReplacedKeeps(env, s, id, k);
    assert Replaced(env, s, id, k) == s.(blocks := s.blocks[id := k]);
    forall j | j in s.blocks
      ensures BlockGrows(s.blocks[j], s.blocks[j])
    {
      BlockIsGood(env, s, j);
    }
  }

  lemma PutGrows(env: Env, s: Store, id: nat, bytes: seq<byte>, len: nat)
    requires Inv(env, s) && id in s.available && id in s.blocks
    ensures Grows(s, Put(env, s, id, bytes, len).store)
    ensures |bytes| <= len && Put(env, s, id, bytes, len).Stored? ==>
              RecordAt(Put(env, s, id, bytes, len).store, Put(env, s, id, bytes, len).addr, bytes)
  {
    hide Inv, Shaped, Overwritten, BlockGrows;
    AvailableIsOpen(env, s, id);
    BlockIsGood(env, s, id);
    if s.blocks[id].pos + |bytes| <= env.area {
      OverwrittenBlock(s.blocks[id], bytes);
    }
    forall j | j in s.blocks
      ensures j in Put(env, s, id, bytes, len).store.blocks
      ensures BlockGrows(s.blocks[j], Put(env, s, id, bytes, len).store.blocks[j])
    {
      BlockIsGood(env, s, j);
      OpenBlockGrows(s.blocks[j], Put(env, s, id, bytes, len).store.blocks[j]);
    }
  }

  lemma OpenBlockGrows(k: Block, k': Block)
    requires k' == k || k.state != CLOSED
    requires k'.prev == k.prev && UsedBlockStays(k, k')
    ensures BlockGrows(k, k')
  {
  }

  lemma OverwrittenBlock(k: Block, bytes: seq<byte>)
    requires k.pos + |bytes| <= |k.data|
    ensures var k' := Overwritten(k, bytes);
            && k'.(data := k.data) == k && |k'.data| == |k.data|
            && k'.data[..k.pos] == k.data[..k.pos] && k'.data[k.pos..k.pos + |bytes|] == bytes
  {
    hide WriteAt;
    WriteElsewhere(k.data, k.pos, bytes, 0, k.pos);
  }

  /** `writeRecord` for a value of fixed width: `bytes` are written and the position moves by `len`. */
  ghost predicate WritesFixed(env: Env, s: Store, bytes: seq<byte>, len: nat, now: nat, r: Outcome)
    requires Workable(env, s)
  {
    exists sel :: PutsIn(env, s, bytes, len, now, r, sel)
  }

  ghost predicate PutsIn(env: Env, s: Store, bytes: seq<byte>, len: nat, now: nat, r: Outcome, sel: Selection)
    requires Workable(env, s)
  {
    && Selects(env, s, len, now, sel)
    && (sel.Refused? ==> r == Failed(sel.store))
    && (sel.Chosen? ==> sel.id in sel.store.blocks && r == Put(env, sel.store, sel.id, bytes, len))
  }

  /** A fixed-width write within the data area succeeds and keeps the invariant. */
  lemma FixedWriteKeeps(env: Env, s: Store, bytes: seq<byte>, len: nat, now: nat, r: Outcome)
    requires Inv(env, s) && Workable(env, s) && WritesFixed(env, s, bytes, len, now, r) && |bytes| <= len
    ensures Inv(env, r.store) && Grows(s, r.store)
    ensures len > 0 ==> (r.Stored? <==> len <= env.area)
    ensures r.Stored? ==> RecordAt(r.store, r.addr, bytes)
  {
    hide Inv, Grows, Selects, RecordAt;
    var sel :| PutsIn(env, s, bytes, len, now, r, sel);
    SelectionKeeps(env, s, len, now, sel);
    if sel.Chosen? {
      AvailableIsOpen(env, sel.store, sel.id);
      PutKeeps(env, sel.store, sel.id, bytes, len);
      PutGrows(env, sel.store, sel.id, bytes, len);
      GrowsTransitive(s, sel.store, r.store);
    }
  }

  // ---- Writes whatever the map says about free space ----

  lemma SoundWritten(env: Env, s: Store, id: nat, bytes: seq<byte>, len: nat)
    requires Sound(env, s) && id in s.blocks
    ensures Sound(env, Put(env, s, id, bytes, len).store)
    ensures s.blocks[id].pos + |bytes| <= env.area ==>
              Sound(env, s.(blocks := s.blocks[id := Overwritten(s.blocks[id], bytes)]))
  {
    hide WriteAt;
  }

  lemma PutUsed(env: Env, s: Store, id: nat, bytes: seq<byte>, len: nat)
    requires Workable(env, s) && id in s.blocks && |bytes| <= len
    ensures var r := Put(env, s, id, bytes, len);
            Workable(env, r.store) && UsedStays(s, r.store) && (r.Stored? ==> RecordAt(r.store, r.addr, bytes))
  {
    hide Sound, Overwritten;
    SoundWritten(env, s, id, bytes, len);
    SoundShape(env, s);
    if s.blocks[id].pos + |bytes| <= env.area {
      OverwrittenBlock(s.blocks[id], bytes);
    }
  }

  lemma SelectionUsed(env: Env, s: Store, required: nat, now: nat, r: Selection)
    requires Workable(env, s) && Selects(env, s, required, now, r)
    ensures Workable(env, r.store) && UsedStays(s, r.store)
    ensures r.Chosen? ==> r.id in r.store.available && r.id in r.store.blocks
  {
    hide Sound, MovesOn, UsedStays, Created;
    SelectionFacts(env, s, required, now, r);
    SoundShape(env, s);
    if s.available == map[] {
      CreatedUsed(env, s, 0, CURRENT, map[s.lastId + 1 := env.area]);
    } else if exists id :: IsFirstFit(s.available, required, id) {
      UsedStaysSame(s);
    } else {
      var id :| IsRoomiest(s.available, id) && MovesOn(env, s, required, now, id, r);
      MovingOnUsed(env, s, required, now, id, r);
    }
  }

  lemma CreatedUsed(env: Env, s: Store, prev: nat, state: byte, m: map<nat, nat>)
    requires Sound(env, s)
    ensures Created(env, s, prev, state).lastId == s.lastId + 1
    ensures UsedStays(s, Created(env, s, prev, state).(available := m))
  {
  }

  lemma MovingOnUsed(env: Env, s: Store, required: nat, now: nat, id: nat, r: Selection)
    requires Workable(env, s) && id in s.available && MovesOn(env, s, required, now, id, r)
    ensures UsedStays(s, r.store)
  {
    hide DigestInput;
    SoundShape(env, s);
  }

  /** A fixed-width write keeps the column workable and all used bytes, whatever the map of available
      blocks says about free space. */
  lemma FixedWriteUsed(env: Env, s: Store, bytes: seq<byte>, len: nat, now: nat, r: Outcome)
    requires Workable(env, s) && WritesFixed(env, s, bytes, len, now, r) && |bytes| <= len
    ensures Workable(env, r.store) && UsedStays(s, r.store)
    ensures r.Stored? ==> RecordAt(r.store, r.addr, bytes)
  {
    hide Workable, UsedStays, Selects, RecordAt, Put;
    var sel :| PutsIn(env, s, bytes, len, now, r, sel);
    SelectionUsed(env, s, len, now, sel);
    if sel.Chosen? {
      PutUsed(env, sel.store, sel.id, bytes, len);
      UsedStaysTransitive(s, sel.store, r.store);
    }
  }

  // ---- Reading fixed-width records ----

  /** `readRecord`: refuses a record whose end is the end of the data area. */
  function ReadFixed(env: Env, s: Store, addr: Address, width: nat): Option<seq<byte>> {
    if addr.blockId !in s.blocks then None
    else
      var k := s.blocks[addr.blockId];
      if addr.offset + width >= env.area || |k.data| != env.area then None
      else Some(k.data[addr.offset..addr.offset + width])
  }

  /** A stored record reads back, now and in every later state that keeps used bytes, exactly when
      it does not end at the very end of its block. */
  lemma FixedReadBack(env: Env, s: Store, t: Store, addr: Address, bytes: seq<byte>)
    requires Sound(env, t) && RecordAt(s, addr, bytes) && UsedStays(s, t)
    ensures ReadFixed(env, t, addr, |bytes|) == Some(bytes) <==> addr.offset + |bytes| < env.area
  {
    hide Sound, UsedStays;
    SoundShape(env, t);
    RecordStays(s, t, addr, bytes);
  }

  // ---- Rolling back ----

  function WithBlock(s: Store, id: nat, k: Block, free: nat): Store {
    s.(blocks := s.blocks[id := k], available := s.available[id := free])
  }

  /** Every block was created after its predecessor. */
  ghost predicate Descending(blocks: map<nat, Block>) {
    forall id :: id in blocks ==> blocks[id].prev < id && (blocks[id].prev == 0 || blocks[id].prev in blocks)
  }

  /** What `rollbackToAddress` checks before it changes anything. */
  predicate CanRollBack(env: Env, s: Store, addr: Address, first: nat) {
    && first in s.available && first in s.blocks && addr.blockId <= first && addr.blockId in s.blocks
    && addr.offset < env.area
  }

  datatype Rollback = RolledBack(store: Store) | NotReached(store: Store)

  /** The walk of `rollbackToAddress` from block `cur` towards the target, with `block` the block
      visited last. Visited blocks are emptied. In the end the position is set in `block`. */
  ghost function RollFrom(env: Env, s: Store, addr: Address, first: nat, cur: nat, block: nat): Rollback
    requires cur in s.blocks && block in s.blocks && addr.offset < env.area
    requires Descending(s.blocks)
    decreases cur
  {
    if cur == addr.blockId then
      var k := s.blocks[block].(pos := addr.offset);
      RolledBack(WithBlock(s, block, if block == first then k else k.(stamp := 0), env.area - addr.offset))
    else
      var k := s.blocks[cur];
      var t := WithBlock(s, cur, k.(pos := 0, stamp := 0), env.area);
      if k.prev == 0 then NotReached(t) else RollFrom(env, t, addr, first, k.prev, cur)
  }

  lemma SoundDescends(env: Env, s: Store)
    requires Sound(env, s)
    ensures Descending(s.blocks)
  {
  }

  lemma RollStep(env: Env, s: Store, addr: Address, first: nat, cur: nat, block: nat)
    requires Descending(s.blocks) && cur in s.blocks && block in s.blocks && addr.offset < env.area
    requires cur != addr.blockId
    ensures var t := WithBlock(s, cur, s.blocks[cur].(pos := 0, stamp := 0), env.area);
            && Descending(t.blocks) && cur in t.blocks && t.blocks[cur].prev == s.blocks[cur].prev < cur
            && (t.blocks[cur].prev == 0 || t.blocks[cur].prev in t.blocks)
            && (addr.blockId in s.blocks ==> addr.blockId in t.blocks)
            && RollFrom(env, s, addr, first, cur, block) ==
               if s.blocks[cur].prev == 0 then NotReached(t)
               else RollFrom(env, t, addr, first, s.blocks[cur].prev, cur)
  {
  }

  /** One step of the walk leads from `s` to `t`. */
  lemma RollStepTo(env: Env, s: Store, addr: Address, first: nat, cur: nat, block: nat, t: Store)
    requires Descending(s.blocks) && cur in s.blocks && block in s.blocks && addr.offset < env.area
    requires cur != addr.blockId && addr.blockId in s.blocks
    requires t == WithBlock(s, cur, s.blocks[cur].(pos := 0, stamp := 0), env.area)
    ensures Descending(t.blocks) && cur in t.blocks && addr.blockId in t.blocks && t.blocks[cur].prev < cur
    ensures t.blocks[cur].prev == 0 ==> RollFrom(env, s, addr, first, cur, block) == NotReached(t)
    ensures t.blocks[cur].prev != 0 ==>
              && t.blocks[cur].prev in t.blocks
              && RollFrom(env, s, addr, first, cur, block) == RollFrom(env, t, addr, first, t.blocks[cur].prev, cur)
  {
    hide RollFrom, WithBlock, Descending;
    RollStep(env, s, addr, first, cur, block);
  }

  lemma RollEnd(env: Env, s: Store, addr: Address, first: nat, block: nat)
    requires Descending(s.blocks) && addr.blockId in s.blocks && block in s.blocks && addr.offset < env.area
    ensures var k := s.blocks[block].(pos := addr.offset);
            RollFrom(env, s, addr, first, addr.blockId, block) ==
            RolledBack(WithBlock(s, block, if block == first then k else k.(stamp := 0), env.area - addr.offset))
  {
  }

  /** Within one block a rollback sets the position. */
  lemma RollbackInBlock(env: Env, s: Store, addr: Address)
    requires Descending(s.blocks) && Inv(env, s) && addr.blockId in s.available && addr.blockId in s.blocks
             && addr.offset < env.area
    ensures var r := RollFrom(env, s, addr, addr.blockId, addr.blockId, addr.blockId);
            && r.RolledBack? && Inv(env, r.store)
            && r.store.blocks == s.blocks[addr.blockId := s.blocks[addr.blockId].(pos := addr.offset)]
  {
    hide Inv, Shaped, DigestHolds, GoodEntry;
    BlockIsGood(env, s, addr.blockId);
    AvailableIsOpen(env, s, addr.blockId);
    ReplacedKeeps(env, s, addr.blockId, s.blocks[addr.blockId].(pos := addr.offset));
  }

  /** A rollback that has to walk leaves the target block alone: the position is set in the block
      visited before it. */
  lemma {:induction false} WalkLeavesTarget(env: Env, s: Store, addr: Address, first: nat, cur: nat, block: nat)
    requires Descending(s.blocks) && cur in s.blocks && block in s.blocks && addr.offset < env.area
    requires addr.blockId in s.blocks && (cur == addr.blockId ==> block != addr.blockId)
    ensures var r := RollFrom(env, s, addr, first, cur, block);
            r.store.blocks.Keys == s.blocks.Keys && r.store.blocks[addr.blockId] == s.blocks[addr.blockId]
    decreases cur
  {
    if cur == addr.blockId {
    } else {
      var k := s.blocks[cur];
      var t := WithBlock(s, cur, k.(pos := 0, stamp := 0), env.area);
      if k.prev != 0 {
        WalkLeavesTarget(env, t, addr, first, k.prev, cur);
      }
    }
  }

  /** `rollbackToAddress` puts the target block at the requested position exactly when it starts in
      the target block, or when the block was at that position already. */
  lemma RollbackReachesPosition(env: Env, s: Store, addr: Address, first: nat)
    requires Descending(s.blocks) && first in s.blocks && addr.blockId in s.blocks && addr.offset < env.area
    ensures var t := RollFrom(env, s, addr, first, first, addr.blockId).store;
            && addr.blockId in t.blocks
            && (t.blocks[addr.blockId].pos == addr.offset <==>
                first == addr.blockId || s.blocks[addr.blockId].pos == addr.offset)
  {
    if first != addr.blockId {
      var k := s.blocks[first];
      var t := WithBlock(s, first, k.(pos := 0, stamp := 0), env.area);
      if k.prev != 0 {
        WalkLeavesTarget(env, t, addr, first, k.prev, first);
      }
    }
  }

  lemma RewoundIsWorkable(env: Env, s: Store, id: nat, pos: nat, stamp: nat)
    requires Workable(env, s) && id in s.blocks && pos <= env.area
    ensures Workable(env, WithBlock(s, id, s.blocks[id].(pos := pos, stamp := stamp), env.area - pos))
  {
    hide Sound;
    SoundBlock(env, s, id);
    var k := s.blocks[id].(pos := pos, stamp := stamp);
    SoundReplaced(env, s, id, k);
    SoundWithMap(env, s.(blocks := s.blocks[id := k]), s.available[id := env.area - pos]);
  }

  /** A rollback over any number of blocks keeps the column workable, whether or not it reaches its
      target. */
  lemma {:induction false} RollKeepsWorkable(env: Env, s: Store, addr: Address, first: nat, cur: nat, block: nat)
    requires Workable(env, s) && Descending(s.blocks) && cur in s.blocks && block in s.blocks && addr.offset < env.area
    ensures Workable(env, RollFrom(env, s, addr, first, cur, block).store)
    decreases cur
  {
    hide Workable, WithBlock;
    if cur == addr.blockId {
      RollEnd(env, s, addr, first, block);
      RewoundIsWorkable(env, s, block, addr.offset, if block == first then s.blocks[block].stamp else 0);
    } else {
      RollStep(env, s, addr, first, cur, block);
      RewoundIsWorkable(env, s, cur, 0, 0);
      if s.blocks[cur].prev != 0 {
        RollKeepsWorkable(env, WithBlock(s, cur, s.blocks[cur].(pos := 0, stamp := 0), env.area), addr, first,
                          s.blocks[cur].prev, cur);
      }
    }
  }

  // ---- When a rollback keeps the column consistent ----

  /** The walk visits no block but the one in which it starts. */
  predicate VisitsOneBlock(s: Store, addr: Address, first: nat)
    requires first in s.blocks
  {
    first == addr.blockId || s.blocks[first].prev == addr.blockId || s.blocks[first].prev == 0
  }

  /** A listed block stays listed and keeps its state. */
  lemma {:induction false} RollKeepsListed(env: Env, s: Store, addr: Address, first: nat, cur: nat, block: nat, j: nat)
    requires Descending(s.blocks) && cur in s.blocks && block in s.blocks && addr.offset < env.area
    requires j in s.blocks && j in s.available
    ensures var t := RollFrom(env, s, addr, first, cur, block).store;
            j in t.blocks && j in t.available && t.blocks[j].state == s.blocks[j].state
    decreases cur
  {
    if cur == addr.blockId {
    } else {
      var t := WithBlock(s, cur, s.blocks[cur].(pos := 0, stamp := 0), env.area);
      if s.blocks[cur].prev != 0 {
        RollKeepsListed(env, t, addr, first, s.blocks[cur].prev, cur, j);
      }
    }
  }

  /** The block in which a rollback starts continues at another position. */
  lemma FirstBlockKeeps(env: Env, s: Store, first: nat, pos: nat, stamp: nat)
    requires Inv(env, s) && first in s.available && first in s.blocks && pos <= env.area
    ensures Inv(env, WithBlock(s, first, s.blocks[first].(pos := pos, stamp := stamp), env.area - pos))
  {
    hide Inv, DigestHolds, GoodEntry;
    AvailableIsOpen(env, s, first);
    BlockIsGood(env, s, first);
    var k := s.blocks[first].(pos := pos, stamp := stamp);
    ReplacedKeeps(env, s, first, k);
    assert WithBlock(s, first, k, env.area - pos) == Replaced(env, s, first, k);
  }

  /** The second block that a rollback visits is closed and gets listed as available. */
  lemma SecondBlockIsListed(env: Env, s: Store, addr: Address, first: nat)
    requires Inv(env, s) && Descending(s.blocks) && CanRollBack(env, s, addr, first) && !VisitsOneBlock(s, addr, first)
    ensures !Inv(env, RollFrom(env, s, addr, first, first, addr.blockId).store)
  {
    hide Inv, RollFrom, DigestHolds, GoodEntry, Descending;
    BlockIsGood(env, s, first);
    RollStep(env, s, addr, first, first, addr.blockId);
    var one, second := WithBlock(s, first, s.blocks[first].(pos := 0, stamp := 0), env.area), s.blocks[first].prev;
    RollStep(env, one, addr, first, second, first);
    var two := WithBlock(one, second, one.blocks[second].(pos := 0, stamp := 0), env.area);
    if two.blocks[second].prev != 0 {
      RollKeepsListed(env, two, addr, first, two.blocks[second].prev, second, second);
    }
    var t := RollFrom(env, s, addr, first, first, addr.blockId).store;
    if Inv(env, t) {
      AvailableIsOpen(env, t, second);
    }
  }

  /** A rollback keeps the map exact and all digests right if and only if it visits no block but the
      one in which it starts. */
  lemma RollbackInv(env: Env, s: Store, addr: Address, first: nat)
    requires Inv(env, s) && CanRollBack(env, s, addr, first)
    ensures Descending(s.blocks)
    ensures Inv(env, RollFrom(env, s, addr, first, first, addr.blockId).store) <==> VisitsOneBlock(s, addr, first)
  {
    hide Inv, Shaped, RollFrom, Descending;
    AvailableIsOpen(env, s, first);
    assert Descending(s.blocks) by { ShapedDescends(env, s); }
    if !VisitsOneBlock(s, addr, first) {
      SecondBlockIsListed(env, s, addr, first);
    } else if first == addr.blockId {
      RollbackInBlock(env, s, addr);
    } else {
      RollStep(env, s, addr, first, first, addr.blockId);
      var one := WithBlock(s, first, s.blocks[first].(pos := 0, stamp := 0), env.area);
      FirstBlockKeeps(env, s, first, 0, 0);
      if s.blocks[first].prev == addr.blockId && addr.blockId != 0 {
        RollEnd(env, one, addr, first, first);
        FirstBlockKeeps(env, one, first, addr.offset, 0);
      }
    }
  }

  lemma ShapedDescends(env: Env, s: Store)
    requires Shaped(env, s)
    ensures Descending(s.blocks)
  {
    hide Sound;
    SoundDescends(env, s);
  }
}
