/** Concrete inputs for which the code does not do what one would expect. The exact conditions are
    stated beside each operation. */
module Counterexamples {
  import opened Bytes
  import opened Catalog
  import opened ColumnStore
  import opened ConstraintDefs
  import opened Varint
  import Column
  import D = LobDigests
  import L = LobChain
  import W = LobWrite
  import T = TridCounters
  import M = MasterColumn
  import O = SystemObjects
  import F = SystemObjectsFile

  // ---- Fixed-width records ----

  /** The column has one available block, with `free` bytes of room, and it is the last one. */
  ghost predicate OneAvailable(env: Env, s: Store, free: nat) {
    && Inv(env, s) && Workable(env, s) && s.available == map[s.lastId := free]
    && s.lastId in s.blocks && s.blocks[s.lastId].pos + free == env.area
  }

  /** The first record goes to a first block. */
  lemma FirstFixed(env: Env, bytes: seq<byte>, len: nat, now: nat, r: Outcome)
    requires Workable(env, EMPTY_STORE) && WritesFixed(env, EMPTY_STORE, bytes, len, now, r)
    requires 0 < len <= env.area && |bytes| <= len
    ensures r.Stored? && r.addr == Address(1, 0) && r.store.lastId == 1 && RecordAt(r.store, r.addr, bytes)
    ensures OneAvailable(env, r.store, env.area - len)
  {
    hide Inv, RecordAt, Grows, UsedStays, Workable;
    assert Inv(env, EMPTY_STORE) by { EmptyIsGood(env); }
    FixedWriteKeeps(env, EMPTY_STORE, bytes, len, now, r);
    FixedWriteUsed(env, EMPTY_STORE, bytes, len, now, r);
    var sel :| PutsIn(env, EMPTY_STORE, bytes, len, now, r, sel);
  }

  lemma EmptyIsGood(env: Env)
    ensures Inv(env, EMPTY_STORE)
  {
  }

  /** A record that fits goes to the same block. */
  lemma FixedInSameBlock(env: Env, s: Store, free: nat, bytes: seq<byte>, len: nat, now: nat, r: Outcome)
    requires OneAvailable(env, s, free) && WritesFixed(env, s, bytes, len, now, r) && |bytes| <= len && 0 < len <= free
    ensures r.Stored? && r.addr == Address(s.lastId, s.blocks[s.lastId].pos) && RecordAt(r.store, r.addr, bytes)
    ensures r.store.lastId == s.lastId && OneAvailable(env, r.store, free - len)
  {
    hide Inv, RecordAt, Grows, UsedStays, Workable, MovesOn;
    FixedWriteKeeps(env, s, bytes, len, now, r);
    FixedWriteUsed(env, s, bytes, len, now, r);
    var sel :| PutsIn(env, s, bytes, len, now, r, sel);
    assert IsFirstFit(s.available, len, s.lastId);
  }

  lemma NextBlockSelected(env: Env, s: Store, free: nat, len: nat, now: nat, sel: Selection)
    requires OneAvailable(env, s, free) && Selects(env, s, len, now, sel) && free < len <= env.area
    ensures sel.Chosen? && sel.id == s.lastId + 1 == sel.store.lastId && sel.store.available == map[sel.id := env.area]
    ensures sel.id in sel.store.blocks && sel.store.blocks[sel.id] == NewBlock(env, s.lastId, CREATING)
    ensures forall j :: j in s.blocks ==>
              && j in sel.store.blocks && sel.store.blocks[j].pos == s.blocks[j].pos
              && sel.store.blocks[j].prev == s.blocks[j].prev
  {
    hide Inv, DigestInput;
    SoundShape(env, s);
    assert s.lastId in s.available;
    assert forall id :: !IsFirstFit(s.available, len, id);
    var id :| IsRoomiest(s.available, id) && MovesOn(env, s, len, now, id, sel);
  }

  /** A record that does not fit goes to a next block. */
  lemma FixedInNextBlock(env: Env, s: Store, free: nat, bytes: seq<byte>, len: nat, now: nat, r: Outcome)
    requires OneAvailable(env, s, free) && WritesFixed(env, s, bytes, len, now, r) && |bytes| <= len
    requires free < len <= env.area
    ensures r.Stored? && r.store.lastId == s.lastId + 1 && OneAvailable(env, r.store, env.area - len)
    ensures r.store.blocks[r.store.lastId].prev == s.lastId
    ensures forall j :: j in s.blocks && j <= s.lastId ==>
              && j in r.store.blocks && r.store.blocks[j].pos == s.blocks[j].pos
              && r.store.blocks[j].prev == s.blocks[j].prev
  {
    hide Inv, RecordAt, Grows, UsedStays, Workable, Selects, WriteAt;
    FixedWriteKeeps(env, s, bytes, len, now, r);
    FixedWriteUsed(env, s, bytes, len, now, r);
    var sel :| PutsIn(env, s, bytes, len, now, r, sel);
    NextBlockSelected(env, s, free, len, now, sel);
  }

  /** The second of two records of 8 bytes in blocks of 16 bytes cannot be read. */
  method LastRecordOfBlock(env: Env) returns (c: Column.Column, first: Option<seq<byte>>, second: Option<seq<byte>>)
    requires env.area == 16
    ensures first == Some(Zeros(8)) && second == None
  {
    hide Column.Column.Valid, Inv, Workable, WritesFixed, RecordAt, UsedStays, OneAvailable;
    c := new Column.Column(env);
    ColumnIsWorkable(c);
    var one := c.WriteRecord(Zeros(8), 8, 0);
    FirstFixed(env, Zeros(8), 8, 0, if one.Some? then Stored(c.S(), one.value.0) else Failed(c.S()));
    ghost var s := c.S();
    ColumnIsWorkable(c);
    var two := c.WriteRecord(Zeros(8), 8, 0);
    assert s.blocks[s.lastId].pos == 8 && s.lastId == 1 by { AvailablePosition(env, s, 8); }
    FixedInSameBlock(env, s, 8, Zeros(8), 8, 0, if two.Some? then Stored(c.S(), two.value.0) else Failed(c.S()));
    FixedWriteUsed(env, s, Zeros(8), 8, 0, Stored(c.S(), two.value.0));
    assert Sound(env, c.S()) && UsedStays(c.S(), c.S()) by { AvailablePosition(env, c.S(), 0); }
    FixedReadBack(env, s, c.S(), one.value.0, Zeros(8));
    FixedReadBack(env, c.S(), c.S(), two.value.0, Zeros(8));
    first := ReadFixed(env, Store(c.blocks, c.available, c.lastId), one.value.0, 8);
    second := ReadFixed(env, Store(c.blocks, c.available, c.lastId), two.value.0, 8);
  }

  lemma AvailablePosition(env: Env, s: Store, free: nat)
    requires OneAvailable(env, s, free)
    ensures s.lastId in s.blocks && s.blocks[s.lastId].pos + free == env.area
    ensures Inv(env, s) && Workable(env, s) && Sound(env, s) && UsedStays(s, s)
  {
    hide Inv, Sound;
    SoundShape(env, s);
    UsedStaysSame(s);
  }

  lemma ColumnIsWorkable(c: Column.Column)
    requires c.Valid()
    ensures Workable(c.env, c.S())
  {
    hide Sound;
  }

  /** A master record with a body of 2^14 bytes reads as empty. */
  method LongMasterRecord(env: Env) returns (c: Column.Column, body: Option<seq<byte>>)
    requires env.area == 0x8000
    ensures body == Some([])
  {
    hide Column.Column.Valid, Inv, Workable, M.Writes, M.Tagged, M.ReadRecord, M.Accepted, RecordAt;
    c := new Column.Column(env);
    ColumnIsWorkable(c);
    var e := M.Entry(M.Insert, 7, Zeros(0x4000));
    var r := c.WriteMasterColumnRecord(e, 0);
    assert M.Holds(env, M.Table(EMPTY_STORE, map[]), map[]) by { EmptyIsGood(env); }
    M.WriteKeeps(env, M.Table(EMPTY_STORE, map[]), map[], e, 0, c.T());
    assert M.Accepted(env, e.body) by { LongBodyIsAccepted(env, e.body); }
    M.ReadBack(env, c.S(), c.index[7], e.body);
    body := M.ReadRecord(env, Store(c.blocks, c.available, c.lastId), c.index[7]);
  }

  lemma LongBodyIsAccepted(env: Env, body: seq<byte>)
    requires env.area == 0x8000 && |body| == 0x4000
    ensures M.Accepted(env, body)
  {
    hide EncodeVarint;
    M.TagBytes(0x4000);
  }

  // ---- Long values ----

  /** A value of 561 bytes in blocks of 300 takes three chunks and cannot be read after it was
      written. It can be read once another such value has been written. */
  method ThreeChunks(env: Env) returns (c: Column.Column, before: Option<seq<byte>>, after: Option<seq<byte>>)
    requires env.area == 300
    ensures before == None && after == Some(Zeros(561))
  {
    hide Column.Column.Valid, Workable, W.TextPut, Inv, UsedStays, L.ReadLob, L.TextStored, L.Progress, L.FullLayout;
    c := new Column.Column(env);
    var src := Zeros(561);
    var first, sel := c.WriteText(src, 0);
    ghost var one := c.S();
    W.TextPutKeeps(env, sel.store, sel.id, src, 0);
    before := L.ReadLob(env, Store(c.blocks, c.available, c.lastId), first.value);
    var second, sel' := c.WriteText(src, 1);
    after := L.ReadLob(env, Store(c.blocks, c.available, c.lastId), first.value);
    SecondMakesReadable(env, sel, src, one, sel', c.S());
  }

  lemma SecondMakesReadable(env: Env, sel: Selection, src: seq<byte>, one: Store, sel': Selection, two: Store)
    requires env.area == 300 && |src| == 561 && Selects(env, EMPTY_STORE, L.MIN_REQUIRED_SPACE, 0, sel)
    requires sel.Chosen? && Workable(env, sel.store) && L.StartsIn(env, sel.store, sel.id)
    requires one == W.TextPut(env, sel.store, sel.id, src, 0)
    requires Workable(env, one) && Selects(env, one, L.MIN_REQUIRED_SPACE, 1, sel')
    requires sel'.Chosen? && Workable(env, sel'.store) && L.StartsIn(env, sel'.store, sel'.id)
    requires two == W.TextPut(env, sel'.store, sel'.id, src, 1) && two.lastId < UINT64_LIMIT
    ensures L.ReadLob(env, one, Address(sel.id, sel.store.blocks[sel.id].pos)) == None
    ensures L.ReadLob(env, two, Address(sel.id, sel.store.blocks[sel.id].pos)) == Some(src)
  {
    hide Sound, W.TextPut, UsedStays, L.ReadLob, L.Progress, L.FullLayout, Selects;
    assert sel.store.blocks[sel.id].pos == 0 && sel.store.lastId == 1 by { FirstSelection(env, sel); }
    W.TextReadsBack(env, sel.store, sel.id, src, 0);
    W.TextPutKeeps(env, sel.store, sel.id, src, 0);
    W.TextOutcome(env, one, sel', src, 1);
    W.LastBlockIsUsed(env, sel'.store, sel'.id, src, 1);
    SelectionUsed(env, one, L.MIN_REQUIRED_SPACE, 1, sel');
    L.LaterIds(one, sel'.store);
    SoundBlock(env, sel.store, sel.id);
    W.SoundIsFull(env, one);
    W.SoundIsFull(env, two);
    L.ReadsBackLater(env, sel.store, sel.id, src, one, two);
  }

  lemma FirstSelection(env: Env, sel: Selection)
    requires Workable(env, EMPTY_STORE) && Selects(env, EMPTY_STORE, L.MIN_REQUIRED_SPACE, 0, sel) && sel.Chosen?
    ensures sel.store.lastId == sel.id == 1 && 1 in sel.store.blocks && sel.store.blocks[1].pos == 0
  {
  }

  /** A value of three bytes that is written from a stream to a new column reads as NULL. */
  method StreamReadsAsNull(env: Env) returns (c: Column.Column, value: L.Loaded)
    requires env.area == 300
    ensures value == L.Null
  {
    hide Column.Column.Valid, Workable, Inv, UsedStays, L.ReadValue, W.TextWritten;
    c := new Column.Column(env);
    var lob := new Column.Source([1, 2, 3], []);
    var r, sel := c.WriteLob(lob, 0);
    assert Free(env, sel.store.blocks[sel.id]) == 300 by { FirstSelection(env, sel); }
    value := L.ReadValue(env, Store(c.blocks, c.available, c.lastId), r.value.0);
  }

  /** A text of 10 bytes behind a record of 285 bytes in blocks of 300: the block is selected, but it
      has no room for a chunk header. The text can never be read, although it lies in one chunk and all
      digests are right. */
  method NoRoomForHeader(env: Env) returns (c: Column.Column, value: Option<seq<byte>>)
    requires env.area == 300
    ensures value == None && D.AllRight(env, c.blocks) && !Inv(env, c.S())
  {
    hide Column.Column.Valid, Inv, Workable, WritesFixed, RecordAt, UsedStays, L.ReadLob, W.TextPut, D.AllRight,
      L.FullLayout, L.TextStored;
    c := new Column.Column(env);
    ColumnIsWorkable(c);
    var r := c.WriteRecord(Zeros(285), 285, 0);
    FirstFixed(env, Zeros(285), 285, 0, if r.Some? then Stored(c.S(), r.value.0) else Failed(c.S()));
    ghost var s := c.S();
    var addr, sel := c.WriteText(Zeros(10), 0);
    SameBlockSelected(env, s, 15, L.MIN_REQUIRED_SPACE, 0, sel);
    D.TextPutDigests(env, s, 1, Zeros(10), 0);
    value := L.ReadLob(env, Store(c.blocks, c.available, c.lastId), addr.value);
  }

  lemma SameBlockSelected(env: Env, s: Store, free: nat, required: nat, now: nat, sel: Selection)
    requires OneAvailable(env, s, free) && Selects(env, s, required, now, sel) && required <= free
    ensures Inv(env, s) && sel == Chosen(s, s.lastId) && s.lastId in s.available
    ensures Free(env, s.blocks[s.lastId]) == free
  {
    hide Inv, Workable, MovesOn;
    assert IsFirstFit(s.available, required, s.lastId);
  }

  /** A text of 281 bytes in blocks of 300 takes two chunks. It reads back, but block 1 has a digest that
      is not the one of its content, and block 2 is listed as empty, for a hash without collisions. */
  method SpilledText() returns (c: Column.Column, value: Option<seq<byte>>)
    ensures value == Some(Zeros(281)) && !D.AllRight(c.env, c.blocks)
    ensures c.lastId in c.available && c.available[c.lastId] == 300
    ensures c.lastId in c.blocks && c.blocks[c.lastId].pos > 0
  {
    hide Column.Column.Valid, Inv, Workable, UsedStays, L.ReadLob, W.TextPut, D.AllRight, L.FullLayout, L.TextStored;
    var env := Env(300, [], 1, 1, (s: seq<byte>) => s);
    c := new Column.Column(env);
    var src := Zeros(281);
    var addr, sel := c.WriteText(src, 0);
    assert sel.id == 1 && Free(env, sel.store.blocks[1]) == 300 && sel.store.lastId == 1 by {
      FirstSelection(env, sel);
    }
    assert Inv(env, sel.store) && 1 in sel.store.available by { FirstSelectionIsGood(env, sel); }
    D.TextPutDigests(env, sel.store, 1, src, 0);
    W.LastBlockIsUsed(env, sel.store, 1, src, 0);
    value := L.ReadLob(env, Store(c.blocks, c.available, c.lastId), addr.value);
  }

  lemma FirstSelectionIsGood(env: Env, sel: Selection)
    requires Workable(env, EMPTY_STORE) && Selects(env, EMPTY_STORE, L.MIN_REQUIRED_SPACE, 0, sel) && sel.Chosen?
    ensures Inv(env, sel.store) && sel.id in sel.store.available
  {
    hide Inv, Selects, Grows;
    EmptyIsGood(env);
    SelectionKeeps(env, EMPTY_STORE, L.MIN_REQUIRED_SPACE, 0, sel);
  }

  /** The text "A", a zero byte, "B" is loaded as "A". */
  method TextWithZeroByte(env: Env) returns (c: Column.Column, text: Option<seq<byte>>)
    requires env.area == 300
    ensures text == Some([65])
  {
    hide Column.Column.Valid, Inv, Workable, UsedStays, L.ReadLob, W.TextPut, L.TextStored;
    c := new Column.Column(env);
    var addr, sel := c.WriteText([65, 0, 66], 0);
    assert Free(env, sel.store.blocks[sel.id]) == 300 by { FirstSelection(env, sel); }
    assert [65, 0, 66][1..] == [0, 66];
    assert L.UpToZero([65, 0, 66]) == [65];
    text := L.LoadText(env, Store(c.blocks, c.available, c.lastId), addr.value);
  }

  // ---- Rollbacks ----

  /** Three records of 20 bytes in blocks of 32 bytes, and then a rollback to byte 5 of the first: it
      leaves block 1 at byte 20 and lists the closed block 2 as available. */
  method RollbackOverBlocks(env: Env) returns (c: Column.Column, ok: bool)
    requires env.area == 32
    ensures ok && 1 in c.blocks && c.blocks[1].pos == 20
    ensures !Inv(env, c.S())
  {
    hide Column.Column.Valid, Inv, Workable, WritesFixed, RecordAt, RollFrom, Descending;
    c := new Column.Column(env);
    ColumnIsWorkable(c);
    var r := c.WriteRecord(Zeros(20), 20, 0);
    FirstFixed(env, Zeros(20), 20, 0, if r.Some? then Stored(c.S(), r.value.0) else Failed(c.S()));
    ghost var one := c.S();
    r := c.WriteRecord(Zeros(20), 20, 1);
    FixedInNextBlock(env, one, 12, Zeros(20), 20, 1, if r.Some? then Stored(c.S(), r.value.0) else Failed(c.S()));
    ghost var two := c.S();
    r := c.WriteRecord(Zeros(20), 20, 2);
    FixedInNextBlock(env, two, 12, Zeros(20), 20, 2, if r.Some? then Stored(c.S(), r.value.0) else Failed(c.S()));
    ghost var three := c.S();
    assert three.blocks[1].pos == 20 && three.blocks[3].prev == 2 && three.blocks[2].prev == 1;
    RollbackInv(env, three, Address(1, 5), 3);
    RollbackReachesPosition(env, three, Address(1, 5), 3);
    WalkLeavesTarget(env, three, Address(1, 5), 3, 3, 1);
    ReachesBlockOne(env, three);
    ok := c.RollbackToAddress(Address(1, 5), 3);
  }

  lemma ReachesBlockOne(env: Env, s: Store)
    requires env.area == 32 && Descending(s.blocks) && 1 in s.blocks && 2 in s.blocks && 3 in s.blocks
    requires s.blocks[3].prev == 2 && s.blocks[2].prev == 1
    ensures RollFrom(env, s, Address(1, 5), 3, 3, 1).RolledBack?
  {
    hide RollFrom, Descending;
    RollStep(env, s, Address(1, 5), 3, 3, 1);
    var one := WithBlock(s, 3, s.blocks[3].(pos := 0, stamp := 0), env.area);
    RollStep(env, one, Address(1, 5), 3, 2, 3);
    var two := WithBlock(one, 2, one.blocks[2].(pos := 0, stamp := 0), env.area);
    RollEnd(env, two, Address(1, 5), 3, 2);
  }

  // ---- Constraint definitions ----

  /** A loaded constraint definition does not have the hash with which it was saved. */
  lemma HashIsLost()
    ensures var defs := map[1 := ConstraintDefinitionRecord(1, [7], 99)];
            F.Restored(O.DefinitionCodec(0), defs) != defs
  {
    var defs := map[1 := ConstraintDefinitionRecord(1, [7], 99)];
    O.HashesReset(0, defs);
    assert defs[1].hash == 99;
  }

  /** Opening a database creates a loaded NOT NULL definition a second time. */
  method DefinitionIsDoubled() returns (d: Definitions, q: Request, second: nat)
    ensures Answers(d.registry, q, 1) && Answers(d.registry, q, second) && second != 1
  {
    var defs := map[1 := ConstraintDefinitionRecord(NOT_NULL, [7], 1)];
    var hash := (kind: nat, expression: seq<byte>) => |expression|;
    q := Request(true, NOT_NULL, [7]);
    assert Answers(defs, q, 1);
    var r, existing;
    d, r, existing := RequestAfterLoading(hash, defs, T.Counters(FIRST_USER_ID, FIRST_USER_ID - 1, 1), q);
    second := r.value;
  }
}
