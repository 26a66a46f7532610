/** Records of the master column and its main index. Each record holds the latest version of a row;
    the index maps a row id to the address of that record. */
module MasterColumn {
  import opened Bytes
  import opened Varint
  import opened ColumnStore

  const MAX_RECORD_SIZE: nat := 0x8000
  const UINT16_LIMIT: nat := 0x1_0000

  datatype Kind = Insert | Update | Delete

  /** A master column record: the operation, the row id and the serialized body. */
  datatype Entry = Entry(kind: Kind, trid: nat, body: seq<byte>)

  datatype Table = Table(store: Store, index: map<nat, Address>)

  /** A record as stored: its size as a variable-length 16-bit integer, then the body. */
  function Tagged(body: seq<byte>): seq<byte> {
    EncodeVarint(|body| % UINT16_LIMIT) + body
  }

  /** The size that the code computes, after cutting the body size to 16 bits. */
  function TaggedSize(body: seq<byte>): nat {
    |body| % UINT16_LIMIT + |EncodeVarint(|body| % UINT16_LIMIT)|
  }

  // ---- Writing ----

  function Indexed(index: map<nat, Address>, e: Entry, addr: Address): map<nat, Address> {
    match e.kind
    case Insert => index[e.trid := addr]
    case Update => if e.trid in index then index[e.trid := addr] else index
    case Delete => index - {e.trid}
  }

  /** Stores `e` in the selected block. A duplicate insert is found only after its bytes have been
      written behind the used part of the block; the position is then not moved. */
  function StoredIn(env: Env, t: Table, e: Entry, sel: Selection): Table
    requires sel.Chosen? ==> sel.id in sel.store.blocks
  {
    if sel.Refused? || TaggedSize(e.body) != |Tagged(e.body)| then t.(store := sel.store)
    else
      var size := TaggedSize(e.body);
      var k := sel.store.blocks[sel.id];
      if k.pos + size > env.area then t.(store := sel.store)
      else if e.kind == Insert && e.trid in t.index then
        t.(store := sel.store.(blocks := sel.store.blocks[sel.id := Overwritten(k, Tagged(e.body))]))
      else
        Table(Put(env, sel.store, sel.id, Tagged(e.body), size).store,
              Indexed(t.index, e, Address(sel.id, k.pos)))
  }

  lemma RefusedIsUnchanged(env: Env, t: Table, e: Entry, store: Store)
    ensures StoredIn(env, t, e, Refused(store)) == t.(store := store)
  {
  }

  lemma OnlySelectionMatters(env: Env, t: Table, u: Table, e: Entry, sel: Selection)
    requires t.index == u.index && (sel.Chosen? ==> sel.id in sel.store.blocks)
    ensures StoredIn(env, t, e, sel) == StoredIn(env, u, e, sel)
  {
  }

  /** `writeMasterColumnRecord` with index update. */
  ghost predicate Writes(env: Env, t: Table, e: Entry, now: nat, t': Table)
    requires Workable(env, t.store)
  {
    if TaggedSize(e.body) > MAX_RECORD_SIZE then t' == t
    else exists sel :: StoresWith(env, t, e, now, t', sel)
  }

  ghost predicate StoresWith(env: Env, t: Table, e: Entry, now: nat, t': Table, sel: Selection)
    requires Workable(env, t.store)
  {
    && Selects(env, t.store, TaggedSize(e.body), now, sel)
    && (sel.Chosen? ==> sel.id in sel.store.blocks)
    && t' == StoredIn(env, t, e, sel)
  }

  // ---- What the table means ----

  /** Rows are accepted when the record fits the size limit and a block. */
  predicate Accepted(env: Env, body: seq<byte>) {
    |body| < UINT16_LIMIT && TaggedSize(body) <= MAX_RECORD_SIZE && TaggedSize(body) <= env.area
  }

  /** The rows after one more operation: inserts do not replace, updates do not create. */
  function Applied(env: Env, rows: map<nat, seq<byte>>, e: Entry): map<nat, seq<byte>> {
    if !Accepted(env, e.body) then rows
    else
      match e.kind
      case Insert => if e.trid in rows then rows else rows[e.trid := e.body]
      case Update => if e.trid in rows then rows[e.trid := e.body] else rows
      case Delete => rows - {e.trid}
  }

  function Rows(env: Env, log: seq<Entry>): map<nat, seq<byte>> {
    if log == [] then map[] else Applied(env, Rows(env, log[..|log| - 1]), log[|log| - 1])
  }

  /** The index holds exactly the rows, and each address holds the row's latest record. */
  ghost predicate Holds(env: Env, t: Table, rows: map<nat, seq<byte>>) {
    && Inv(env, t.store)
    && t.index.Keys == rows.Keys
    && forall trid :: trid in rows ==> RecordAt(t.store, t.index[trid], Tagged(rows[trid]))
  }

  lemma TaggedSizeIsLength(body: seq<byte>)
    requires |body| < UINT16_LIMIT
    ensures |Tagged(body)| == TaggedSize(body) > 0
  {
  }

  lemma RecordsStay(env: Env, t: Table, rows: map<nat, seq<byte>>, store: Store)
    requires Holds(env, t, rows) && Inv(env, store) && Grows(t.store, store)
    ensures Holds(env, t.(store := store), rows)
  {
    hide DigestHolds, GoodEntry, Grows, UsedStays, RecordAt;
    GrowsUsed(t.store, store);
    forall trid | trid in rows
      ensures RecordAt(store, t.index[trid], Tagged(rows[trid]))
    {
      RecordStays(t.store, store, t.index[trid], Tagged(rows[trid]));
    }
  }

  lemma StoredInKeeps(env: Env, t: Table, rows: map<nat, seq<byte>>, e: Entry, now: nat, sel: Selection)
    requires Holds(env, t, rows) && Workable(env, t.store) && TaggedSize(e.body) <= MAX_RECORD_SIZE
    requires Selects(env, t.store, TaggedSize(e.body), now, sel)
    requires sel.Chosen? ==> sel.id in sel.store.blocks
    ensures Holds(env, StoredIn(env, t, e, sel), Applied(env, rows, e))
  {
    hide Inv, Grows, Selects, RecordAt, Put, Overwritten, Tagged;
    var bytes, size := Tagged(e.body), TaggedSize(e.body);
    SelectionKeeps(env, t.store, size, now, sel);
    RecordsStay(env, t, rows, sel.store);
    if |e.body| < UINT16_LIMIT {
      TaggedSizeIsLength(e.body);
    } else {
      LongBodyIsNoticed(e.body);
    }
    if sel.Chosen? && size == |bytes| {
      AvailableIsOpen(env, sel.store, sel.id);
      var k := sel.store.blocks[sel.id];
      if k.pos + size <= env.area {
        if e.kind == Insert && e.trid in t.index {
          OverwrittenKeeps(env, sel.store, sel.id, bytes);
          RecordsStay(env, t.(store := sel.store), rows, StoredIn(env, t, e, sel).store);
        } else {
          PutSucceeds(env, sel.store, sel.id, bytes);
          PutKeeps(env, sel.store, sel.id, bytes, size);
          PutGrows(env, sel.store, sel.id, bytes, size);
          RecordsStay(env, t.(store := sel.store), rows, StoredIn(env, t, e, sel).store);
        }
      }
    }
  }

  lemma PutSucceeds(env: Env, s: Store, id: nat, bytes: seq<byte>)
    requires id in s.blocks && s.blocks[id].pos + |bytes| <= env.area
    ensures Put(env, s, id, bytes, |bytes|).Stored?
    ensures Put(env, s, id, bytes, |bytes|).addr == Address(id, s.blocks[id].pos)
  {
  }

  lemma LongBodyIsNoticed(body: seq<byte>)
    requires |body| >= UINT16_LIMIT
    ensures TaggedSize(body) != |Tagged(body)|
  {
  }

  lemma WriteKeeps(env: Env, t: Table, rows: map<nat, seq<byte>>, e: Entry, now: nat, t': Table)
    requires Holds(env, t, rows) && Workable(env, t.store) && Writes(env, t, e, now, t')
    ensures Holds(env, t', Applied(env, rows, e))
  {
    hide Inv, Selects, RecordAt, StoredIn;
    if TaggedSize(e.body) <= MAX_RECORD_SIZE {
      var sel :| StoresWith(env, t, e, now, t', sel);
      StoredInKeeps(env, t, rows, e, now, sel);
    }
  }

  lemma TooLargeIsNotWritten(env: Env, t: Table, e: Entry, now: nat)
    requires Workable(env, t.store) && TaggedSize(e.body) > MAX_RECORD_SIZE
    ensures Writes(env, t, e, now, t) && !Accepted(env, e.body)
  {
  }

  lemma WrittenInSelection(env: Env, t: Table, e: Entry, now: nat, sel: Selection)
    requires Workable(env, t.store) && TaggedSize(e.body) <= MAX_RECORD_SIZE
    requires Selects(env, t.store, TaggedSize(e.body), now, sel)
    requires sel.Chosen? ==> sel.id in sel.store.blocks
    ensures Writes(env, t, e, now, StoredIn(env, t, e, sel))
  {
    hide Inv, Selects, StoredIn;
    assert StoresWith(env, t, e, now, StoredIn(env, t, e, sel), sel);
  }

  /** A record is accepted exactly when a block is selected, the sizes agree and the block has room. */
  lemma AcceptedWhenStored(env: Env, body: seq<byte>, s: Store, now: nat, sel: Selection)
    requires Inv(env, s) && Workable(env, s) && Selects(env, s, TaggedSize(body), now, sel)
             && TaggedSize(body) <= MAX_RECORD_SIZE
    ensures sel.Chosen? ==> sel.id in sel.store.blocks
    ensures Accepted(env, body) <==>
              && sel.Chosen? && TaggedSize(body) == |Tagged(body)|
              && sel.store.blocks[sel.id].pos + TaggedSize(body) <= env.area
  {
    hide Inv, Grows, Selects, Tagged, TaggedSize;
    SelectionKeeps(env, s, TaggedSize(body), now, sel);
    if |body| < UINT16_LIMIT {
      TaggedSizeIsLength(body);
    } else {
      LongBodyIsNoticed(body);
    }
    if sel.Chosen? {
      AvailableIsOpen(env, sel.store, sel.id);
    } else {
      TaggedSizeIsPositive(body);
    }
  }

  lemma TaggedSizeIsPositive(body: seq<byte>)
    ensures TaggedSize(body) > 0
  {
  }

  /** `ts` is a run: it starts empty and each table follows from the one before by writing the
      next log entry, at any time. */
  ghost predicate IsRun(env: Env, log: seq<Entry>, ts: seq<Table>) {
    && |ts| == |log| + 1
    && ts[0] == Table(EMPTY_STORE, map[])
    && forall i :: 0 <= i < |log| ==> RunStep(env, ts[i], log[i], ts[i + 1])
  }

  ghost predicate RunStep(env: Env, t: Table, e: Entry, t': Table) {
    Workable(env, t.store) && exists now :: Writes(env, t, e, now, t')
  }

  /** In every run, rejected duplicates and oversized records included, the main index is the fold
      of the log and every indexed address holds the exact bytes of the row's latest record. */
  lemma {:induction false} RunHoldsRows(env: Env, log: seq<Entry>, ts: seq<Table>, n: nat)
    requires IsRun(env, log, ts) && n <= |log|
    ensures Holds(env, ts[n], Rows(env, log[..n]))
  {
    hide Writes, Applied;
    if n == 0 {
    } else {
      RunHoldsRows(env, log, ts, n - 1);
      assert RunStep(env, ts[n - 1], log[n - 1], ts[n]);
      var now :| Writes(env, ts[n - 1], log[n - 1], now, ts[n]);
      WriteKeeps(env, ts[n - 1], Rows(env, log[..n - 1]), log[n - 1], now, ts[n]);
      assert log[..n][..n - 1] == log[..n - 1];
    }
  }

  // ---- Reading ----

  /** `readMasterColumnRecord`: at most two bytes of the size are read; a longer size decodes as
      "not enough data" and leaves zero. */
  function ReadRecord(env: Env, s: Store, addr: Address): Option<seq<byte>> {
    if addr.blockId !in s.blocks then None
    else
      var data, off := s.blocks[addr.blockId].data, addr.offset;
      if off + 1 > env.area || |data| != env.area then None
      else if data[off] < 128 then Body(data, off + 1, data[off])
      else if off + 2 > env.area then None
      else if data[off + 1] < 128 then Body(data, off + 2, (data[off] as int) - 128 + 128 * (data[off + 1] as int))
      else Body(data, off + 2, 0)
  }

  function Body(data: seq<byte>, off: nat, size: nat): Option<seq<byte>> {
    if size > MAX_RECORD_SIZE || off + size > |data| then None else Some(data[off..off + size])
  }

  const TWO_BYTE_LIMIT: nat := 0x4000

  lemma TagBytes(n: nat)
    requires n < UINT16_LIMIT
    ensures var tag := EncodeVarint(n);
            if n < 128 then tag == [n]
            else if n < TWO_BYTE_LIMIT then tag == [128 + n % 128, n / 128]
            else |tag| == 3 && tag[0] >= 128 && tag[1] >= 128
  {
    if n >= TWO_BYTE_LIMIT {
      assert EncodeVarint(n / 128 / 128) == [n / 128 / 128];
      assert EncodeVarint(n / 128) == [128 + n / 128 % 128] + EncodeVarint(n / 128 / 128);
    }
  }

  lemma TaggedAt(data: seq<byte>, off: nat, body: seq<byte>)
    requires |body| < UINT16_LIMIT
    requires off + |Tagged(body)| <= |data| && data[off..off + |Tagged(body)|] == Tagged(body)
    ensures var tag := EncodeVarint(|body|);
            && off + |tag| + |body| <= |data|
            && (forall i :: 0 <= i < |tag| ==> data[off + i] == tag[i])
            && data[off + |tag|..off + |tag| + |body|] == body
  {
    hide EncodeVarint;
    var tag := EncodeVarint(|body|);
    var d := data[off..off + |tag| + |body|];
    assert forall i :: 0 <= i < |tag| ==> data[off + i] == d[i] == tag[i];
    assert d[|tag|..] == body;
    assert data[off + |tag|..off + |tag| + |body|] == d[|tag|..];
  }

  /** A stored record reads back exactly when its body is shorter than 2^14 bytes: the size of a
      longer one takes three bytes, and the reader then returns an empty body. */
  lemma ReadBack(env: Env, s: Store, addr: Address, body: seq<byte>)
    requires Inv(env, s) && RecordAt(s, addr, Tagged(body)) && |body| < UINT16_LIMIT
    ensures ReadRecord(env, s, addr) == Some(body) <==> |body| < TWO_BYTE_LIMIT
    ensures |body| >= TWO_BYTE_LIMIT ==> ReadRecord(env, s, addr) == Some([])
  {
    hide Inv, DigestHolds, EncodeVarint, Tagged;
    BlockIsGood(env, s, addr.blockId);
    var data, off, tag := s.blocks[addr.blockId].data, addr.offset, EncodeVarint(|body|);
    TaggedAt(data, off, body);
    TagBytes(|body|);
    assert data[off] == data[off + 0] == tag[0];
    assert |body| >= 128 ==> data[off + 1] == tag[1];
    assert |body| >= TWO_BYTE_LIMIT ==> data[off + 2..off + 2] == [];
  }
}
