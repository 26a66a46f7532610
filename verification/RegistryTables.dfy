/** The record formats of the block registry files, the files as tables of records, and the lists
    of next block ids that the records form. */
module RegistryTables {
  import opened Bytes

  const BLOCK_RECORD_SIZE: nat := 25
  const PREV_ID_FIELD_OFFSET: nat := 1
  const NEXT_RECORD_SIZE: nat := 16
  const LINK_FIELD_OFFSET: nat := 8

  /** State byte of a slot that holds no block. */
  const NOT_PRESENT: byte := 0

  // ---- Record codecs ----

  datatype BlockRecord = BlockRecord(state: byte, prev: nat, first: nat, last: nat) {
    ghost predicate Fits() {
      prev < UINT64_LIMIT && first < UINT64_LIMIT && last < UINT64_LIMIT
    }
  }

  datatype NextRecord = NextRecord(blockId: nat, link: nat) {
    ghost predicate Fits() {
      blockId < UINT64_LIMIT && link < UINT64_LIMIT
    }
  }

  function EncodeBlock(r: BlockRecord): (s: seq<byte>)
    ensures |s| == BLOCK_RECORD_SIZE
  {
    [r.state] + (EncodeUInt(r.prev, 8) + (EncodeUInt(r.first, 8) + EncodeUInt(r.last, 8)))
  }

  function DecodeBlock(s: seq<byte>): BlockRecord
    requires |s| == BLOCK_RECORD_SIZE
  {
    BlockRecord(s[0], DecodeUInt(s[1..9]), DecodeUInt(s[9..17]), DecodeUInt(s[17..]))
  }

  lemma BlockRoundTrip(r: BlockRecord)
    requires r.Fits()
    ensures DecodeBlock(EncodeBlock(r)) == r
  {
    var s := EncodeBlock(r);
    assert s[1..9] == EncodeUInt(r.prev, 8);
    assert s[9..17] == EncodeUInt(r.first, 8);
    assert s[17..] == EncodeUInt(r.last, 8);
    UInt64RoundTrip(r.prev);
    UInt64RoundTrip(r.first);
    UInt64RoundTrip(r.last);
  }

  function EncodeNext(r: NextRecord): (s: seq<byte>)
    ensures |s| == NEXT_RECORD_SIZE
  {
    EncodeUInt(r.blockId, 8) + EncodeUInt(r.link, 8)
  }

  function DecodeNext(s: seq<byte>): NextRecord
    requires |s| == NEXT_RECORD_SIZE
  {
    NextRecord(DecodeUInt(s[..8]), DecodeUInt(s[8..]))
  }

  lemma NextRoundTrip(r: NextRecord)
    requires r.Fits()
    ensures DecodeNext(EncodeNext(r)) == r
  {
    var s := EncodeNext(r);
    assert s[..8] == EncodeUInt(r.blockId, 8);
    assert s[8..] == EncodeUInt(r.link, 8);
    UInt64RoundTrip(r.blockId);
    UInt64RoundTrip(r.link);
  }

  lemma DecodedFit(s: seq<byte>, t: seq<byte>)
    requires |s| == BLOCK_RECORD_SIZE && |t| == NEXT_RECORD_SIZE
    ensures DecodeBlock(s).Fits() && DecodeNext(t).Fits()
  {
    RangeOf4And8();
    DecodeUIntBound(s[1..9]);
    DecodeUIntBound(s[9..17]);
    DecodeUIntBound(s[17..]);
    DecodeUIntBound(t[..8]);
    DecodeUIntBound(t[8..]);
  }

  // ---- The two files as tables of records ----

  predicate WholeRecords(s: seq<byte>, size: nat)
    requires size > 0
  {
    |s| % size == 0
  }

  function BlockAt(blocks: seq<byte>, b: nat): BlockRecord
    requires BLOCK_RECORD_SIZE * b + BLOCK_RECORD_SIZE <= |blocks|
  {
    DecodeBlock(blocks[BLOCK_RECORD_SIZE * b..BLOCK_RECORD_SIZE * b + BLOCK_RECORD_SIZE])
  }

  function NextAt(nexts: seq<byte>, k: nat): NextRecord
    requires NEXT_RECORD_SIZE * k + NEXT_RECORD_SIZE <= |nexts|
  {
    DecodeNext(nexts[NEXT_RECORD_SIZE * k..NEXT_RECORD_SIZE * k + NEXT_RECORD_SIZE])
  }

  function SlotsOf(blocks: seq<byte>): (t: seq<BlockRecord>)
    ensures BLOCK_RECORD_SIZE * |t| <= |blocks| < BLOCK_RECORD_SIZE * |t| + BLOCK_RECORD_SIZE
    ensures forall b :: 0 <= b < |t| ==> t[b] == BlockAt(blocks, b)
  {
    seq(|blocks| / BLOCK_RECORD_SIZE, b requires 0 <= b < |blocks| / BLOCK_RECORD_SIZE => BlockAt(blocks, b))
  }

  function RecordsOf(nexts: seq<byte>): (t: seq<NextRecord>)
    ensures NEXT_RECORD_SIZE * |t| <= |nexts| < NEXT_RECORD_SIZE * |t| + NEXT_RECORD_SIZE
    ensures forall k :: 0 <= k < |t| ==> t[k] == NextAt(nexts, k)
  {
    seq(|nexts| / NEXT_RECORD_SIZE, k requires 0 <= k < |nexts| / NEXT_RECORD_SIZE => NextAt(nexts, k))
  }

  /** Writing a record to slot `b` of the file. */
  lemma WriteSlot(blocks: seq<byte>, b: nat, r: BlockRecord)
    requires r.Fits()
    ensures var t, t' := SlotsOf(blocks), SlotsOf(WriteAt(blocks, BLOCK_RECORD_SIZE * b, EncodeBlock(r)));
            && (WholeRecords(blocks, BLOCK_RECORD_SIZE) ==> |t'| == Max(|t|, b + 1))
            && |t'| >= |t| && b < |t'| && t'[b] == r
            && (forall c :: 0 <= c < |t| && c != b ==> t'[c] == t[c])
            && (WholeRecords(blocks, BLOCK_RECORD_SIZE) ==>
                  forall c :: |t| <= c < |t'| && c != b ==> t'[c].state == NOT_PRESENT)
  {
    var g := WriteAt(blocks, BLOCK_RECORD_SIZE * b, EncodeBlock(r));
    BlockRoundTrip(r);
    assert BlockAt(g, b) == r;
    forall c | 0 <= c < |SlotsOf(blocks)| && c != b
      ensures BlockAt(g, c) == BlockAt(blocks, c)
    {
      WriteElsewhere(blocks, BLOCK_RECORD_SIZE * b, EncodeBlock(r),
                     BLOCK_RECORD_SIZE * c, BLOCK_RECORD_SIZE * c + BLOCK_RECORD_SIZE);
    }
  }

  lemma WriteState(blocks: seq<byte>, b: nat, state: byte)
    requires BLOCK_RECORD_SIZE * b + BLOCK_RECORD_SIZE <= |blocks|
    ensures var t := SlotsOf(blocks);
            SlotsOf(WriteAt(blocks, BLOCK_RECORD_SIZE * b, [state])) == t[b := t[b].(state := state)]
  {
    var t, at := SlotsOf(blocks), BLOCK_RECORD_SIZE * b;
    var g := WriteAt(blocks, at, [state]);
    assert BlockAt(g, b) == t[b].(state := state) by {
      var x, y := g[at..at + BLOCK_RECORD_SIZE], blocks[at..at + BLOCK_RECORD_SIZE];
      assert forall i :: 1 <= i < BLOCK_RECORD_SIZE ==> x[i] == g[at + i] == blocks[at + i] == y[i];
      assert x[1..9] == y[1..9];
      assert x[9..17] == y[9..17];
      assert x[17..] == y[17..];
      assert g[at] == g[at..at + 1][0];
    }
    forall c | 0 <= c < |t| && c != b
      ensures BlockAt(g, c) == BlockAt(blocks, c)
    {
      WriteElsewhere(blocks, at, [state], BLOCK_RECORD_SIZE * c, BLOCK_RECORD_SIZE * c + BLOCK_RECORD_SIZE);
    }
  }

  lemma LinkField(nexts: seq<byte>, at: nat, link: nat)
    requires at + NEXT_RECORD_SIZE <= |nexts| && link < UINT64_LIMIT
    ensures var g := WriteAt(nexts, at + LINK_FIELD_OFFSET, EncodeUInt(link, 8));
            && |g| == |nexts|
            && DecodeNext(g[at..at + NEXT_RECORD_SIZE]) == DecodeNext(nexts[at..at + NEXT_RECORD_SIZE]).(link := link)
  {
    hide WriteAt, EncodeUInt, DecodeUInt;
    var g, end := WriteAt(nexts, at + LINK_FIELD_OFFSET, EncodeUInt(link, 8)), at + NEXT_RECORD_SIZE;
    SliceOfSlice(g, at, end, 0, 8);
    SliceOfSlice(nexts, at, end, 0, 8);
    SliceOfSlice(g, at, end, 8, 16);
    WriteElsewhere(nexts, at + LINK_FIELD_OFFSET, EncodeUInt(link, 8), at, at + 8);
    assert g[at..end][8..] == g[at..end][8..16] && g[at..end][..8] == g[at..end][0..8];
    assert nexts[at..end][..8] == nexts[at..end][0..8];
    UInt64RoundTrip(link);
  }

  lemma WriteLink(nexts: seq<byte>, k: nat, link: nat)
    requires NEXT_RECORD_SIZE * k + NEXT_RECORD_SIZE <= |nexts| && link < UINT64_LIMIT
    ensures var t := RecordsOf(nexts);
            RecordsOf(WriteAt(nexts, NEXT_RECORD_SIZE * k + LINK_FIELD_OFFSET, EncodeUInt(link, 8)))
            == t[k := t[k].(link := link)]
  {
    hide WriteAt, EncodeUInt, DecodeUInt, DecodeNext;
    var t, at := RecordsOf(nexts), NEXT_RECORD_SIZE * k;
    var g := WriteAt(nexts, at + LINK_FIELD_OFFSET, EncodeUInt(link, 8));
    LinkField(nexts, at, link);
    forall j | 0 <= j < |t| && j != k
      ensures NextAt(g, j) == NextAt(nexts, j)
    {
      WriteElsewhere(nexts, at + LINK_FIELD_OFFSET, EncodeUInt(link, 8),
                     NEXT_RECORD_SIZE * j, NEXT_RECORD_SIZE * j + NEXT_RECORD_SIZE);
    }
  }

  lemma AppendRecord(nexts: seq<byte>, r: NextRecord)
    requires WholeRecords(nexts, NEXT_RECORD_SIZE) && r.Fits()
    ensures RecordsOf(nexts + EncodeNext(r)) == RecordsOf(nexts) + [r]
  {
    hide EncodeNext, DecodeNext;
    var g, n := nexts + EncodeNext(r), |RecordsOf(nexts)|;
    NextRoundTrip(r);
    assert g[NEXT_RECORD_SIZE * n..NEXT_RECORD_SIZE * n + NEXT_RECORD_SIZE] == EncodeNext(r);
    forall k | 0 <= k < n
      ensures NextAt(g, k) == NextAt(nexts, k)
    {
      assert g[NEXT_RECORD_SIZE * k..NEXT_RECORD_SIZE * k + NEXT_RECORD_SIZE] ==
             nexts[NEXT_RECORD_SIZE * k..NEXT_RECORD_SIZE * k + NEXT_RECORD_SIZE];
    }
  }

  // ---- Lists of next block ids over the tables ----

  datatype BlockInfo = BlockInfo(state: byte, prev: nat, next: seq<nat>)

  type View = map<nat, BlockInfo>

  /** For each present block, the indices of its list records in list order. */
  type Chains = map<nat, seq<nat>>

  ghost predicate Increasing(ks: seq<nat>, n: nat) {
    && (forall i :: 0 <= i < |ks| ==> 0 < ks[i] < n)
    && (forall i, j :: 0 <= i < j < |ks| ==> ks[i] < ks[j])
  }

  /** The records `ks` are linked in this order; the last link is zero, which means "end". */
  ghost predicate Linked(recs: seq<NextRecord>, ks: seq<nat>)
    requires Increasing(ks, |recs|)
  {
    && (forall i :: 0 <= i < |ks| - 1 ==> recs[ks[i]].link == NEXT_RECORD_SIZE * ks[i + 1])
    && (ks != [] ==> recs[ks[|ks| - 1]].link == 0)
  }

  /** A block record points to the ends of its list; zero stands for "no list". */
  ghost predicate Ends(r: BlockRecord, ks: seq<nat>) {
    if ks == [] then r.first == 0 && r.last == 0
    else r.first == NEXT_RECORD_SIZE * ks[0] && r.last == NEXT_RECORD_SIZE * ks[|ks| - 1]
  }

  /** The list `ks` of a block with record `r`. Record 0 belongs to no list, because its offset
      also means "end of list". */
  ghost predicate GoodChain(recs: seq<NextRecord>, r: BlockRecord, ks: seq<nat>) {
    Increasing(ks, |recs|) && Linked(recs, ks) && Ends(r, ks)
  }

  ghost predicate Apart(ks: seq<nat>, js: seq<nat>) {
    forall i, j :: 0 <= i < |ks| && 0 <= j < |js| ==> ks[i] != js[j]
  }

  ghost predicate DisjointChains(chains: Chains) {
    forall b, c :: b in chains && c in chains && b != c ==> Apart(chains[b], chains[c])
  }

  /** The block ids stored in the records `ks`. */
  function Ids(recs: seq<NextRecord>, ks: seq<nat>): (ids: seq<nat>)
    requires forall i :: 0 <= i < |ks| ==> ks[i] < |recs|
    ensures |ids| == |ks|
    ensures forall i :: 0 <= i < |ks| ==> ids[i] == recs[ks[i]].blockId
  {
    seq(|ks|, i requires 0 <= i < |ks| => recs[ks[i]].blockId)
  }

  /** `info` is what the record `r` and the list `ks` say about a block. */
  ghost predicate Shows(recs: seq<NextRecord>, r: BlockRecord, ks: seq<nat>, info: BlockInfo) {
    && GoodChain(recs, r, ks)
    && info == BlockInfo(r.state, r.prev, Ids(recs, ks))
  }

  /** The tables represent the map `view`. */
  ghost predicate Represents(slots: seq<BlockRecord>, recs: seq<NextRecord>, chains: Chains, view: View) {
    && (forall b :: b in view <==> 0 <= b < |slots| && slots[b].state != NOT_PRESENT)
    && (forall b :: b in chains <==> b in view)
    && (forall b :: b in view ==> Shows(recs, slots[b], chains[b], view[b]))
    && DisjointChains(chains)
  }

  lemma InView(slots: seq<BlockRecord>, recs: seq<NextRecord>, chains: Chains, view: View, b: nat)
    requires Represents(slots, recs, chains, view)
    ensures b in view <==> b < |slots| && slots[b].state != NOT_PRESENT
    ensures b in view ==>
              && b in chains && Shows(recs, slots[b], chains[b], view[b])
              && view[b].state == slots[b].state && view[b].prev == slots[b].prev
  {
    hide Apart;
  }

  /** The view after block `b` was recorded anew. */
  function RecordedView(v: View, b: nat, prev: nat, state: byte): View {
    if state == NOT_PRESENT then v - {b} else v[b := BlockInfo(state, prev, [])]
  }

  function RecordedChains(chains: Chains, b: nat, state: byte): Chains {
    if state == NOT_PRESENT then chains - {b} else chains[b := []]
  }

  /** The view after the state of block `b` was changed. */
  function RestatedView(v: View, b: nat, state: byte): View
    requires b in v
  {
    if state == NOT_PRESENT then v - {b} else v[b := v[b].(state := state)]
  }

  /** The view after `id` was added to the list of block `b`. The first record of an empty list
      file does not show. */
  function ExtendedView(v: View, b: nat, id: nat, emptyFile: bool): View
    requires b in v
  {
    if emptyFile then v else v[b := v[b].(next := v[b].next + [id])]
  }

  lemma EmptyListShows(recs: seq<NextRecord>, prev: nat, state: byte)
    ensures Shows(recs, BlockRecord(state, prev, 0, 0), [], BlockInfo(state, prev, []))
  {
  }

  lemma ApartFromEmpty(ks: seq<nat>)
    ensures Apart([], ks) && Apart(ks, [])
  {
  }

  lemma RecordKeeps(slots: seq<BlockRecord>, recs: seq<NextRecord>, chains: Chains, view: View,
                    b: nat, prev: nat, state: byte, slots': seq<BlockRecord>)
    requires Represents(slots, recs, chains, view)
    requires |slots'| >= |slots| && b < |slots'| && slots'[b] == BlockRecord(state, prev, 0, 0)
    requires forall c :: 0 <= c < |slots| && c != b ==> slots'[c] == slots[c]
    requires forall c :: |slots| <= c < |slots'| && c != b ==> slots'[c].state == NOT_PRESENT
    ensures Represents(slots', recs, RecordedChains(chains, b, state), RecordedView(view, b, prev, state))
  {
    hide Shows, DisjointChains;
    EmptyListShows(recs, prev, state);
    RecordedDisjoint(chains, b, state);
    var chains', view' := RecordedChains(chains, b, state), RecordedView(view, b, prev, state);
    forall c | c in view'
      ensures Shows(recs, slots'[c], chains'[c], view'[c])
    {
      assert c != b ==> c in view;
    }
  }

  lemma RecordedDisjoint(chains: Chains, b: nat, state: byte)
    requires DisjointChains(chains)
    ensures DisjointChains(RecordedChains(chains, b, state))
  {
    hide Apart;
    forall c | c in chains
      ensures Apart([], chains[c]) && Apart(chains[c], [])
    {
      ApartFromEmpty(chains[c]);
    }
  }

  lemma RestatedShows(recs: seq<NextRecord>, r: BlockRecord, ks: seq<nat>, info: BlockInfo, state: byte)
    requires Shows(recs, r, ks, info)
    ensures Shows(recs, r.(state := state), ks, info.(state := state))
  {
  }

  lemma RestateKeeps(slots: seq<BlockRecord>, recs: seq<NextRecord>, chains: Chains, view: View,
                     b: nat, state: byte)
    requires Represents(slots, recs, chains, view) && b in view
    ensures Represents(slots[b := slots[b].(state := state)], recs,
                       if state == NOT_PRESENT then chains - {b} else chains, RestatedView(view, b, state))
  {
    hide Shows, Apart;
    RestatedShows(recs, slots[b], chains[b], view[b], state);
  }

  /** The block record of a block whose list got a new last record at byte offset `off`. */
  function Repointed(r: BlockRecord, off: nat): BlockRecord {
    r.(first := if r.last == 0 then off else r.first, last := off)
  }

  /** The records after one for `id` was appended behind the list record at offset `tail`. */
  function ExtendedRecords(recs: seq<NextRecord>, tail: nat, id: nat): seq<NextRecord>
    requires tail < NEXT_RECORD_SIZE * |recs| || tail == 0
  {
    var k := tail / NEXT_RECORD_SIZE;
    (if tail == 0 then recs else recs[k := recs[k].(link := NEXT_RECORD_SIZE * |recs|)])
    + [NextRecord(id, 0)]
  }

  function ExtendedChains(chains: Chains, b: nat, k: nat): Chains
    requires b in chains
  {
    if k == 0 then chains else chains[b := chains[b] + [k]]
  }

  lemma ListStart(recs: seq<NextRecord>, r: BlockRecord, ks: seq<nat>, info: BlockInfo)
    requires Shows(recs, r, ks, info)
    ensures |info.next| == |ks|
    ensures r.first == if ks == [] then 0 else NEXT_RECORD_SIZE * ks[0]
    ensures forall i :: 0 <= i < |ks| ==> 0 < ks[i] < |recs|
  {
  }

  /** One step along a list. */
  lemma ListStep(recs: seq<NextRecord>, r: BlockRecord, ks: seq<nat>, info: BlockInfo, i: nat)
    requires Shows(recs, r, ks, info) && i < |ks|
    ensures ks[i] < |recs| && |info.next| == |ks| && recs[ks[i]].blockId == info.next[i]
    ensures recs[ks[i]].link == if i + 1 < |ks| then NEXT_RECORD_SIZE * ks[i + 1] else 0
  {
  }

  lemma TailIndex(recs: seq<NextRecord>, r: BlockRecord, ks: seq<nat>)
    requires GoodChain(recs, r, ks)
    ensures r.last == 0 <==> ks == []
    ensures r.last % NEXT_RECORD_SIZE == 0
    ensures ks != [] ==> r.last / NEXT_RECORD_SIZE == ks[|ks| - 1] && recs[ks[|ks| - 1]].link == 0
    ensures r.last == 0 || r.last < NEXT_RECORD_SIZE * |recs|
  {
  }

  lemma ExtendedChainShows(recs: seq<NextRecord>, r: BlockRecord, ks: seq<nat>, info: BlockInfo, id: nat)
    requires Shows(recs, r, ks, info) && recs != []
    ensures r.last == 0 || r.last < NEXT_RECORD_SIZE * |recs|
    ensures Shows(ExtendedRecords(recs, r.last, id), Repointed(r, NEXT_RECORD_SIZE * |recs|), ks + [|recs|],
                  info.(next := info.next + [id]))
  {
  }

  /** The first record of an empty list file belongs to no list. */
  lemma FirstRecordDoesNotShow(r: BlockRecord, ks: seq<nat>, info: BlockInfo, id: nat)
    requires Shows([], r, ks, info)
    ensures r.last == 0
    ensures Shows(ExtendedRecords([], r.last, id), Repointed(r, 0), ks, info)
  {
  }

  lemma ShownTail(recs: seq<NextRecord>, r: BlockRecord, ks: seq<nat>, info: BlockInfo)
    requires Shows(recs, r, ks, info)
    ensures r.last % NEXT_RECORD_SIZE == 0
    ensures r.last == 0 || r.last + NEXT_RECORD_SIZE <= NEXT_RECORD_SIZE * |recs|
    ensures r.last != 0 ==> recs[r.last / NEXT_RECORD_SIZE].link == 0
  {
    TailIndex(recs, r, ks);
  }

  /** Appending to one list leaves a list that shares no record with it as it was. */
  lemma OtherChainShows(recs: seq<NextRecord>, r: BlockRecord, ks: seq<nat>, b: BlockInfo, id: nat,
                        other: BlockRecord, js: seq<nat>, info: BlockInfo)
    requires Shows(recs, r, ks, b) && Shows(recs, other, js, info) && Apart(ks, js)
    ensures r.last == 0 || r.last < NEXT_RECORD_SIZE * |recs|
    ensures Shows(ExtendedRecords(recs, r.last, id), other, js, info)
    ensures Apart(ks + [|recs|], js) && Apart(js, ks + [|recs|])
  {
  }

  lemma ExtendKeeps(slots: seq<BlockRecord>, recs: seq<NextRecord>, chains: Chains, view: View, b: nat, id: nat)
    requires Represents(slots, recs, chains, view) && b in view
    ensures slots[b].last == 0 || slots[b].last < NEXT_RECORD_SIZE * |recs|
    ensures Represents(slots[b := Repointed(slots[b], NEXT_RECORD_SIZE * |recs|)],
                       ExtendedRecords(recs, slots[b].last, id),
                       ExtendedChains(chains, b, |recs|),
                       ExtendedView(view, b, id, recs == []))
  {
    hide Shows, Apart, ExtendedRecords, Repointed;
    var r := slots[b];
    if recs == [] {
      FirstRecordDoesNotShow(r, chains[b], view[b], id);
    } else {
      ExtendedChainShows(recs, r, chains[b], view[b], id);
    }
    RepointedKeepsPresence(r, NEXT_RECORD_SIZE * |recs|);
    ExtendKeepsOthers(slots, recs, chains, view, b, id);
  }

  lemma RepointedKeepsPresence(r: BlockRecord, off: nat)
    ensures Repointed(r, off).state == r.state
  {
  }

  lemma ExtendKeepsOthers(slots: seq<BlockRecord>, recs: seq<NextRecord>, chains: Chains, view: View, b: nat, id: nat)
    requires Represents(slots, recs, chains, view) && b in view
    ensures slots[b].last == 0 || slots[b].last < NEXT_RECORD_SIZE * |recs|
    ensures forall c :: c in view && c != b ==>
              && Shows(ExtendedRecords(recs, slots[b].last, id), slots[c], chains[c], view[c])
              && Apart(chains[b] + [|recs|], chains[c]) && Apart(chains[c], chains[b] + [|recs|])
  {
    hide Shows, Apart, ExtendedRecords;
    ShownTail(recs, slots[b], chains[b], view[b]);
    forall c | c in view && c != b
      ensures Shows(ExtendedRecords(recs, slots[b].last, id), slots[c], chains[c], view[c])
      ensures Apart(chains[b] + [|recs|], chains[c]) && Apart(chains[c], chains[b] + [|recs|])
    {
      OtherChainShows(recs, slots[b], chains[b], view[b], id, slots[c], chains[c], view[c]);
    }
  }

  lemma MoreRecordsShow(recs: seq<NextRecord>, more: seq<NextRecord>, r: BlockRecord, ks: seq<nat>, info: BlockInfo)
    requires Shows(recs, r, ks, info)
    ensures Shows(recs + more, r, ks, info)
  {
  }

  /** More records behind the ones that the lists use change nothing. */
  lemma MoreRecordsKeep(slots: seq<BlockRecord>, recs: seq<NextRecord>, chains: Chains, view: View,
                        more: seq<NextRecord>)
    requires Represents(slots, recs, chains, view)
    ensures Represents(slots, recs + more, chains, view)
  {
    hide Shows;
    forall b | b in view
      ensures Shows(recs + more, slots[b], chains[b], view[b])
    {
      MoreRecordsShow(recs, more, slots[b], chains[b], view[b]);
    }
  }

  lemma MoreRecords(nexts: seq<byte>, size: nat)
    requires size <= |nexts| && size % NEXT_RECORD_SIZE == 0
    ensures var some, all := RecordsOf(nexts[..size]), RecordsOf(nexts);
            |some| <= |all| && all == some + all[|some|..]
  {
    hide DecodeNext;
    var some, all := RecordsOf(nexts[..size]), RecordsOf(nexts);
    forall k | 0 <= k < |some|
      ensures some[k] == all[k]
    {
      SliceOfPrefix(nexts, size, NEXT_RECORD_SIZE * k, NEXT_RECORD_SIZE * k + NEXT_RECORD_SIZE);
    }
  }

  /** The tables determine the view: the list of a block is what following its links yields. */
  lemma ViewIsUnique(slots: seq<BlockRecord>, recs: seq<NextRecord>, chains: Chains, view: View,
                     chains': Chains, view': View)
    requires Represents(slots, recs, chains, view) && Represents(slots, recs, chains', view')
    ensures view == view'
  {
    forall b | b in view
      ensures view[b] == view'[b]
    {
      assert Shows(recs, slots[b], chains[b], view[b]) && Shows(recs, slots[b], chains'[b], view'[b]);
      ChainIsUnique(recs, slots[b], chains[b], chains'[b], 0);
    }
  }

  lemma {:induction false} ChainIsUnique(recs: seq<NextRecord>, r: BlockRecord, ks: seq<nat>, js: seq<nat>, n: nat)
    requires GoodChain(recs, r, ks) && GoodChain(recs, r, js)
    requires n <= |ks| && n <= |js| && ks[..n] == js[..n]
    ensures ks == js
    decreases |ks| - n
  {
    if n == |ks| || n == |js| {
      if n > 0 {
        assert ks[n - 1] == ks[..n][n - 1] == js[n - 1];
      }
    } else {
      if n > 0 {
        assert ks[n - 1] == ks[..n][n - 1] == js[n - 1];
      }
      assert ks[n] == js[n];
      assert ks[..n + 1] == ks[..n] + [ks[n]] && js[..n + 1] == js[..n] + [js[n]];
      ChainIsUnique(recs, r, ks, js, n + 1);
    }
  }

  // ---- The same steps on the bytes of the files ----

  /** The live part of the list file after a record for `id` was appended and the list record at
      offset `tail`, if any, was linked to it. */
  function AppendedBytes(live: seq<byte>, tail: nat, id: nat): (s: seq<byte>)
    requires tail == 0 || tail + NEXT_RECORD_SIZE <= |live|
    ensures |s| == |live| + NEXT_RECORD_SIZE
  {
    (if tail == 0 then live else WriteAt(live, tail + LINK_FIELD_OFFSET, EncodeUInt(|live|, 8)))
    + EncodeNext(NextRecord(id, 0))
  }

  lemma AppendedBytesHoldRecords(live: seq<byte>, tail: nat, id: nat)
    requires WholeRecords(live, NEXT_RECORD_SIZE) && |live| < UINT64_LIMIT && id < UINT64_LIMIT
    requires tail % NEXT_RECORD_SIZE == 0 && (tail == 0 || tail + NEXT_RECORD_SIZE <= |live|)
    ensures RecordsOf(AppendedBytes(live, tail, id)) == ExtendedRecords(RecordsOf(live), tail, id)
  {
    hide WriteAt, EncodeUInt, EncodeNext, NextAt;
    var w := if tail == 0 then live else WriteAt(live, tail + LINK_FIELD_OFFSET, EncodeUInt(|live|, 8));
    if tail != 0 {
      WriteLink(live, tail / NEXT_RECORD_SIZE, |live|);
    }
    AppendRecord(w, NextRecord(id, 0));
  }

  lemma {:induction false} UIntReencode(s: seq<byte>)
    ensures EncodeUInt(DecodeUInt(s), |s|) == s
  {
    if s == [] {
    } else {
      UIntReencode(s[1..]);
      assert DecodeUInt(s) % 256 == s[0] && DecodeUInt(s) / 256 == DecodeUInt(s[1..]);
    }
  }

  /** Linking a list end to a new record and then writing a zero link restores the bytes. */
  lemma UnlinkRestores(nexts: seq<byte>, k: nat, size: nat)
    requires NEXT_RECORD_SIZE * k + NEXT_RECORD_SIZE <= |nexts| && NextAt(nexts, k).link == 0
    ensures var at := NEXT_RECORD_SIZE * k + LINK_FIELD_OFFSET;
            WriteAt(WriteAt(nexts, at, EncodeUInt(size, 8)), at, EncodeUInt(0, 8)) == nexts
  {
    var at := NEXT_RECORD_SIZE * k + LINK_FIELD_OFFSET;
    assert nexts[at - 8..at + 8][8..] == nexts[at..at + 8];
    UIntReencode(nexts[at..at + 8]);
    var linked := WriteAt(nexts, at, EncodeUInt(size, 8));
    var restored := WriteAt(linked, at, EncodeUInt(0, 8));
    forall i | 0 <= i < |nexts|
      ensures restored[i] == nexts[i]
    {
      if at <= i < at + 8 {
        assert restored[i] == restored[at..at + 8][i - at] && nexts[i] == nexts[at..at + 8][i - at];
      }
    }
  }

  lemma LinkBytes(r: NextRecord)
    ensures EncodeNext(r)[LINK_FIELD_OFFSET..] == EncodeUInt(r.link, 8)
  {
  }

  /** Writing the new record changes nothing before it. */
  lemma NewRecordWritten(nexts: seq<byte>, size: nat, id: nat)
    requires size <= |nexts|
    ensures var written := WriteAt(nexts, size, EncodeNext(NextRecord(id, 0)));
            && written[..size] == nexts[..size]
            && written[..size + NEXT_RECORD_SIZE] == AppendedBytes(nexts[..size], 0, id)
  {
    hide EncodeNext;
  }

  /** The file with the link of the record at `tail` set to zero. */
  function Unlinked(nexts: seq<byte>, tail: nat): (s: seq<byte>)
    ensures |s| == Max(|nexts|, tail + NEXT_RECORD_SIZE)
  {
    WriteAt(nexts, tail + LINK_FIELD_OFFSET, EncodeUInt(0, 8))
  }

  /** Linking the old list end completes the append; writing a zero link takes it back. */
  lemma LinkWritten(nexts: seq<byte>, size: nat, tail: nat, id: nat)
    requires size <= |nexts| && tail % NEXT_RECORD_SIZE == 0 && tail + NEXT_RECORD_SIZE <= size
    requires NextAt(nexts[..size], tail / NEXT_RECORD_SIZE).link == 0 && tail != 0
    ensures var written := WriteAt(nexts, size, EncodeNext(NextRecord(id, 0)));
            var linked := WriteAt(written, tail + LINK_FIELD_OFFSET, EncodeUInt(size, 8));
            && |linked| == |written|
            && linked[..size + NEXT_RECORD_SIZE] == AppendedBytes(nexts[..size], tail, id)
            && WriteAt(linked, tail + LINK_FIELD_OFFSET, EncodeUInt(0, 8)) == written
  {
    hide EncodeNext, DecodeNext;
    var written := WriteAt(nexts, size, EncodeNext(NextRecord(id, 0)));
    SliceOfPrefix(nexts, size, tail, tail + NEXT_RECORD_SIZE);
    assert written[tail..tail + NEXT_RECORD_SIZE] == nexts[tail..tail + NEXT_RECORD_SIZE];
    UnlinkRestores(written, tail / NEXT_RECORD_SIZE, size);
    var live := nexts[..size];
    var linked := WriteAt(written, tail + LINK_FIELD_OFFSET, EncodeUInt(size, 8));
    assert linked[..size] == WriteAt(live, tail + LINK_FIELD_OFFSET, EncodeUInt(size, 8));
    assert linked[size..size + NEXT_RECORD_SIZE] == EncodeNext(NextRecord(id, 0));
    assert linked[..size + NEXT_RECORD_SIZE] == linked[..size] + linked[size..size + NEXT_RECORD_SIZE];
  }

  /** The bytes written by a successful append represent the view extended by `id`. */
  /** The part of the list file before the new record. */
  lemma LinkedLive(nexts: seq<byte>, live: seq<byte>, tail: nat, id: nat)
    requires tail != 0 && tail + NEXT_RECORD_SIZE <= |live| && |live| + NEXT_RECORD_SIZE <= |nexts|
    requires nexts[..|live| + NEXT_RECORD_SIZE] == AppendedBytes(live, tail, id)
    ensures nexts[..|live|] == WriteAt(live, tail + LINK_FIELD_OFFSET, EncodeUInt(|live|, 8))
  {
    hide WriteAt, EncodeUInt, EncodeNext;
    SliceOfPrefix(nexts, |live| + NEXT_RECORD_SIZE, 0, |live|);
  }

  /** A list whose end is linked to a record that is not part of it cannot be read at all. */
  lemma DanglingLink(blocks: seq<byte>, live: seq<byte>, b: nat)
    requires b < |SlotsOf(blocks)| && SlotsOf(blocks)[b].state != NOT_PRESENT && 0 < |live| < UINT64_LIMIT
    requires var tail := SlotsOf(blocks)[b].last;
             tail != 0 && tail % NEXT_RECORD_SIZE == 0 && tail + NEXT_RECORD_SIZE <= |live|
    ensures var linked := WriteAt(live, SlotsOf(blocks)[b].last + LINK_FIELD_OFFSET, EncodeUInt(|live|, 8));
            forall chains, view :: !Represents(SlotsOf(blocks), RecordsOf(linked), chains, view)
  {
    hide WriteAt, EncodeUInt, SlotsOf, RecordsOf, Represents, Shows;
    var r := SlotsOf(blocks)[b];
    var linked := WriteAt(live, r.last + LINK_FIELD_OFFSET, EncodeUInt(|live|, 8));
    LinkedTail(live, r.last);
    forall chains, view
      ensures !Represents(SlotsOf(blocks), RecordsOf(linked), chains, view)
    {
      if Represents(SlotsOf(blocks), RecordsOf(linked), chains, view) {
        InView(SlotsOf(blocks), RecordsOf(linked), chains, view, b);
        TailHasNoLink(RecordsOf(linked), r, chains[b], view[b]);
      }
    }
  }

  lemma LinkedTail(live: seq<byte>, tail: nat)
    requires tail % NEXT_RECORD_SIZE == 0 && tail + NEXT_RECORD_SIZE <= |live| < UINT64_LIMIT
    ensures var recs := RecordsOf(WriteAt(live, tail + LINK_FIELD_OFFSET, EncodeUInt(|live|, 8)));
            tail / NEXT_RECORD_SIZE < |recs| && recs[tail / NEXT_RECORD_SIZE].link == |live|
  {
    hide WriteAt, EncodeUInt, NextAt;
    WriteLink(live, tail / NEXT_RECORD_SIZE, |live|);
  }

  /** The record at the end of a list that shows has no link; a list is empty exactly when there is no
      such record. */
  lemma TailHasNoLink(recs: seq<NextRecord>, r: BlockRecord, ks: seq<nat>, info: BlockInfo)
    requires Shows(recs, r, ks, info)
    ensures r.last == 0 <==> info.next == []
    ensures r.last != 0 ==> r.last / NEXT_RECORD_SIZE < |recs| && recs[r.last / NEXT_RECORD_SIZE].link == 0
  {
    TailIndex(recs, r, ks);
  }

  lemma AddKeeps(blocks: seq<byte>, live: seq<byte>, chains: Chains, view: View, b: nat, id: nat)
    requires Represents(SlotsOf(blocks), RecordsOf(live), chains, view)
    requires WholeRecords(blocks, BLOCK_RECORD_SIZE) && WholeRecords(live, NEXT_RECORD_SIZE)
    requires |live| < UINT64_LIMIT && id < UINT64_LIMIT && b in view
    ensures b < |SlotsOf(blocks)| && b in chains
    ensures var r := SlotsOf(blocks)[b];
            && (r.last == 0 || r.last + NEXT_RECORD_SIZE <= |live|)
            && Represents(SlotsOf(WriteAt(blocks, BLOCK_RECORD_SIZE * b, EncodeBlock(Repointed(r, |live|)))),
                          RecordsOf(AppendedBytes(live, r.last, id)),
                          ExtendedChains(chains, b, |live| / NEXT_RECORD_SIZE),
                          ExtendedView(view, b, id, |live| == 0))
  {
    hide Represents, Shows, EncodeBlock, EncodeNext, ExtendedChains, ExtendedView, ExtendedRecords, AppendedBytes,
      WriteAt, SlotsOf, RecordsOf, NextAt;
    var slots, recs := SlotsOf(blocks), RecordsOf(live);
    InView(slots, recs, chains, view, b);
    var r, at := slots[b], BLOCK_RECORD_SIZE * b;
    ShownTail(recs, r, chains[b], view[b]);
    DecodedFit(blocks[at..at + BLOCK_RECORD_SIZE], EncodeNext(NextRecord(0, 0)));
    assert |recs| == |live| / NEXT_RECORD_SIZE;
    WriteSlot(blocks, b, Repointed(r, |live|));
    assert SlotsOf(WriteAt(blocks, at, EncodeBlock(Repointed(r, |live|)))) == slots[b := Repointed(r, |live|)];
    AppendedBytesHoldRecords(live, r.last, id);
    ExtendKeeps(slots, recs, chains, view, b, id);
  }
}
