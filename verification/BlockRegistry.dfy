/** The block registry of a column: a file of 25-byte block records addressed by block id, and a
    shared file of 16-byte records that form one linked list of next block ids per block.

    `Registry` works on the bytes of the two files. Callers rely on `view`, the map from block id
    to state, previous block id and next block ids that the bytes represent. */
module BlockRegistry {
  import opened Bytes
  import opened RegistryTables

  /** Which of the writes of an operation the operating system completes. A write either stores
      all its bytes or none. */
  datatype Writes = Writes(record: bool, link: bool, block: bool, unlink: bool)

  const ALL_WRITES := Writes(true, true, true, true)

  class Registry {
    var blocks: seq<byte>
    var nexts: seq<byte>
    var nextsSize: nat
    var lastBlockId: nat
    ghost var chains: Chains
    ghost var view: View

    ghost predicate Valid()
      reads this
    {
      && |nexts| % NEXT_RECORD_SIZE == 0 && nextsSize % NEXT_RECORD_SIZE == 0
      && nextsSize <= |nexts| <= MAX_FILE_SIZE && |blocks| <= MAX_FILE_SIZE
      && (if blocks == [] then lastBlockId == 0 else |blocks| == BLOCK_RECORD_SIZE * (lastBlockId + 1))
      && Represents(SlotsOf(blocks), RecordsOf(nexts[..nextsSize]), chains, view)
    }

    /** A new registry with two empty files. */
    constructor ()
      ensures Valid() && view == map[] && nextsSize == 0 && lastBlockId == 0
    {
      blocks, nexts, nextsSize, lastBlockId := [], [], 0, 0;
      chains, view := map[], map[];
    }

    method CheckBlockRecordPresent(b: nat) returns (present: bool)
      requires Valid()
      ensures present <==> b in view
    {
      hide Represents, Shows;
      InView(SlotsOf(blocks), RecordsOf(nexts[..nextsSize]), chains, view, b);
      if b > lastBlockId || BLOCK_RECORD_SIZE * b >= |blocks| {
        return false;
      }
      assert BlockAt(blocks, b).state == blocks[BLOCK_RECORD_SIZE * b];
      present := blocks[BLOCK_RECORD_SIZE * b] != NOT_PRESENT;
    }

    method LoadRecord(b: nat) returns (r: Option<BlockRecord>)
      requires Valid()
      ensures r.Some? <==> b in view
      ensures r.Some? ==> b < |SlotsOf(blocks)| && r.value == SlotsOf(blocks)[b]
    {
      hide Shows;
      var present := CheckBlockRecordPresent(b);
      if !present {
        return None;
      }
      r := Some(DecodeBlock(blocks[BLOCK_RECORD_SIZE * b..BLOCK_RECORD_SIZE * b + BLOCK_RECORD_SIZE]));
    }

    method FindPrevBlockId(b: nat) returns (r: Option<nat>)
      requires Valid()
      ensures r == if b in view then Some(view[b].prev) else None
    {
      hide Represents, Shows;
      InView(SlotsOf(blocks), RecordsOf(nexts[..nextsSize]), chains, view, b);
      var present := CheckBlockRecordPresent(b);
      if !present {
        return None;
      }
      var at := BLOCK_RECORD_SIZE * b;
      SliceOfSlice(blocks, at, at + BLOCK_RECORD_SIZE, 1, 9);
      r := Some(DecodeUInt(blocks[at + PREV_ID_FIELD_OFFSET..at + PREV_ID_FIELD_OFFSET + 8]));
    }

    method ReadNextRecord(off: nat) returns (r: NextRecord)
      requires off % NEXT_RECORD_SIZE == 0 && off + NEXT_RECORD_SIZE <= nextsSize <= |nexts|
      ensures r == RecordsOf(nexts[..nextsSize])[off / NEXT_RECORD_SIZE]
    {
      SliceOfPrefix(nexts, nextsSize, off, off + NEXT_RECORD_SIZE);
      assert NextAt(nexts[..nextsSize], off / NEXT_RECORD_SIZE) == DecodeNext(nexts[off..off + NEXT_RECORD_SIZE]);
      r := DecodeNext(nexts[off..off + NEXT_RECORD_SIZE]);
    }

    /** Follows the list of block `b` until a zero link. */
    method FindNextBlockIds(b: nat) returns (r: Option<seq<nat>>)
      requires Valid()
      ensures r == if b in view then Some(view[b].next) else None
    {
      hide Represents, Shows, DecodeNext;
      InView(SlotsOf(blocks), RecordsOf(nexts[..nextsSize]), chains, view, b);
      var blockRecord := LoadRecord(b);
      if blockRecord.None? {
        return None;
      }
      var ids := [];
      var off := blockRecord.value.first;
      ghost var recs, ks, i := RecordsOf(nexts[..nextsSize]), chains[b], 0;
      ListStart(recs, blockRecord.value, ks, view[b]);
      while off != 0
        invariant 0 <= i <= |ks|
        invariant off == if i < |ks| then NEXT_RECORD_SIZE * ks[i] else 0
        invariant ids == view[b].next[..i]
        decreases |ks| - i
      {
        ListStep(recs, blockRecord.value, ks, view[b], i);
        var nextRecord := ReadNextRecord(off);
        ids := ids + [nextRecord.blockId];
        off := nextRecord.link;
        i := i + 1;
      }
      assert i == |ks| && view[b].next[..i] == view[b].next;
      r := Some(ids);
    }

    method RecordBlock(b: nat, prev: nat, state: byte, written: bool) returns (ok: bool)
      requires Valid() && b < UINT64_LIMIT && prev < UINT64_LIMIT
      modifies this
      ensures Valid() && nexts == old(nexts) && nextsSize == old(nextsSize)
      ensures ok <==> written && BLOCK_RECORD_SIZE * b + BLOCK_RECORD_SIZE <= MAX_FILE_SIZE
      ensures !ok ==> unchanged(this)
      ensures ok ==> view == RecordedView(old(view), b, prev, state) && lastBlockId == Max(old(lastBlockId), b)
    {
      hide Represents, EncodeBlock, RecordedChains, RecordedView, WriteAt, SlotsOf, RecordsOf, BlockAt;
      var at := BLOCK_RECORD_SIZE * b;
      var buffer := EncodeBlock(BlockRecord(state, prev, 0, 0));
      if !written || at + |buffer| > MAX_FILE_SIZE {
        return false;
      }
      WriteSlot(blocks, b, BlockRecord(state, prev, 0, 0));
      blocks := WriteAt(blocks, at, buffer);
      RecordKeeps(SlotsOf(old(blocks)), RecordsOf(nexts[..nextsSize]), chains, view, b, prev, state, SlotsOf(blocks));
      chains, view := RecordedChains(chains, b, state), RecordedView(view, b, prev, state);
      if b > lastBlockId {
        lastBlockId := b;
      }
      ok := true;
    }

    method UpdateBlockState(b: nat, state: byte, written: bool) returns (ok: bool)
      requires Valid()
      modifies this
      ensures Valid() && nexts == old(nexts) && nextsSize == old(nextsSize) && lastBlockId == old(lastBlockId)
      ensures ok <==> written && b in old(view)
      ensures !ok ==> unchanged(this)
      ensures ok ==> view == RestatedView(old(view), b, state)
    {
      hide Represents, Shows, RestatedView;
      InView(SlotsOf(blocks), RecordsOf(nexts[..nextsSize]), chains, view, b);
      var present := CheckBlockRecordPresent(b);
      if !present || !written {
        return false;
      }
      WriteState(blocks, b, state);
      RestateKeeps(SlotsOf(blocks), RecordsOf(nexts[..nextsSize]), chains, view, b, state);
      blocks := WriteAt(blocks, BLOCK_RECORD_SIZE * b, [state]);
      chains := if state == NOT_PRESENT then chains - {b} else chains;
      view := RestatedView(view, b, state);
      ok := true;
    }

    /** What a successful `AddNextBlock` leaves in the block list file. */
    ghost function BlocksAfterAdd(b: nat): seq<byte>
      reads this
      requires Valid() && b in view
    {
      WriteAt(blocks, BLOCK_RECORD_SIZE * b, EncodeBlock(Repointed(SlotsOf(blocks)[b], nextsSize)))
    }

    /** What a successful `AddNextBlock` leaves in the live part of the next block list file. */
    ghost function LiveAfterAdd(b: nat, id: nat): seq<byte>
      reads this
      requires Valid() && b in view
    {
      TailInFile(b);
      AppendedBytes(nexts[..nextsSize], SlotsOf(blocks)[b].last, id)
    }

    lemma TailInFile(b: nat)
      requires Valid() && b in view
      ensures var tail := SlotsOf(blocks)[b].last;
              && tail % NEXT_RECORD_SIZE == 0 && (tail == 0 || tail + NEXT_RECORD_SIZE <= nextsSize)
              && (tail != 0 ==> NextAt(nexts[..nextsSize], tail / NEXT_RECORD_SIZE).link == 0)
              && Repointed(SlotsOf(blocks)[b], nextsSize).Fits()
    {
      hide Represents;
      var recs := RecordsOf(nexts[..nextsSize]);
      InView(SlotsOf(blocks), recs, chains, view, b);
      var r := SlotsOf(blocks)[b];
      TailIndex(recs, r, chains[b]);
      hide Shows;
      DecodedFit(blocks[BLOCK_RECORD_SIZE * b..BLOCK_RECORD_SIZE * b + BLOCK_RECORD_SIZE],
                 EncodeNext(NextRecord(0, 0)));
    }

    /** Writes a record for `id` at the end of the file and links the record at `tail`, the old end of
        the list, to it. */
    method WriteNextRecord(tail: nat, id: nat, w: Writes) returns (ok: bool)
      requires nextsSize <= |nexts| && tail % NEXT_RECORD_SIZE == 0
               && (tail == 0 || tail + NEXT_RECORD_SIZE <= nextsSize)
      requires tail != 0 ==> NextAt(nexts[..nextsSize], tail / NEXT_RECORD_SIZE).link == 0
      requires |nexts| % NEXT_RECORD_SIZE == 0 && nextsSize % NEXT_RECORD_SIZE == 0 && |nexts| <= MAX_FILE_SIZE
      modifies this`nexts
      ensures |nexts| % NEXT_RECORD_SIZE == 0 && |nexts| <= MAX_FILE_SIZE
      ensures ok <==> w.record && nextsSize + NEXT_RECORD_SIZE <= MAX_FILE_SIZE && (w.link || tail == 0)
      ensures nextsSize <= |nexts| && (!ok ==> nexts[..nextsSize] == old(nexts[..nextsSize]))
      ensures ok ==>
              && nextsSize + NEXT_RECORD_SIZE <= |nexts|
              && nexts[..nextsSize + NEXT_RECORD_SIZE] == AppendedBytes(old(nexts[..nextsSize]), tail, id)
              && (tail == 0 ==> nexts[..nextsSize] == old(nexts[..nextsSize]))
              && (tail != 0 ==> Unlinked(nexts, tail)[..nextsSize] == old(nexts[..nextsSize]))
    {
      hide EncodeNext, DecodeNext, EncodeUInt, AppendedBytes, WriteAt, RecordsOf, NextAt;
      var at := nextsSize;
      if !w.record || at + NEXT_RECORD_SIZE > MAX_FILE_SIZE {
        return false;
      }
      NewRecordWritten(nexts, at, id);
      if tail != 0 {
        LinkWritten(nexts, at, tail, id);
      }
      nexts := WriteAt(nexts, at, EncodeNext(NextRecord(id, 0)));
      if tail != 0 {
        var lastRecord := ReadNextRecord(tail);
        var buffer := EncodeNext(lastRecord.(link := at));
        if !w.link {
          return false;
        }
        LinkBytes(lastRecord.(link := at));
        nexts := WriteAt(nexts, tail + LINK_FIELD_OFFSET, buffer[LINK_FIELD_OFFSET..]);
      }
      ok := true;
    }

    /** The files can be read as some map. */
    ghost predicate Readable()
      reads this
      requires nextsSize <= |nexts|
    {
      exists chains, view :: Represents(SlotsOf(blocks), RecordsOf(nexts[..nextsSize]), chains, view)
    }

    /** The end of the list of block `b` gets linked to a new record, and stays so although the block
        record is not updated. */
    ghost predicate LeavesLink(b: nat, w: Writes)
      reads this
      requires Valid()
    {
      && b in view && nextsSize + NEXT_RECORD_SIZE <= MAX_FILE_SIZE && SlotsOf(blocks)[b].last != 0
      && w.record && w.link && !w.block && !w.unlink
    }

    /** Takes the link to a new record back, if there is one and the write succeeds. */
    method TakeLinkBack(tail: nat, w: Writes, ghost live: seq<byte>, ghost id: nat)
      requires |live| == nextsSize && nextsSize + NEXT_RECORD_SIZE <= |nexts| <= MAX_FILE_SIZE
      requires |nexts| % NEXT_RECORD_SIZE == 0 && (tail == 0 || tail + NEXT_RECORD_SIZE <= nextsSize)
      requires nexts[..nextsSize + NEXT_RECORD_SIZE] == AppendedBytes(live, tail, id)
      requires if tail == 0 then nexts[..nextsSize] == live else Unlinked(nexts, tail)[..nextsSize] == live
      modifies this`nexts
      ensures |nexts| == |old(nexts)|
      ensures nexts[..nextsSize] ==
              if tail == 0 || w.unlink then live
              else WriteAt(live, tail + LINK_FIELD_OFFSET, EncodeUInt(|live|, 8))
    {
      hide AppendedBytes, WriteAt, EncodeUInt, Unlinked;
      if tail != 0 {
        if w.unlink {
          nexts := Unlinked(nexts, tail);
        } else {
          LinkedLive(nexts, live, tail, id);
        }
      }
    }

    lemma LinkIsUnreadable(b: nat)
      requires Valid() && b in view && SlotsOf(blocks)[b].last != 0
      ensures var linked := WriteAt(nexts[..nextsSize], SlotsOf(blocks)[b].last + LINK_FIELD_OFFSET,
                                    EncodeUInt(nextsSize, 8));
              forall chains, view :: !Represents(SlotsOf(blocks), RecordsOf(linked), chains, view)
    {
      hide Represents, Shows, SlotsOf, RecordsOf, NextAt, WriteAt, EncodeUInt;
      TailInFile(b);
      InView(SlotsOf(blocks), RecordsOf(nexts[..nextsSize]), chains, view, b);
      DanglingLink(blocks, nexts[..nextsSize], b);
    }

    /** Appends a record for `id` to the list of block `b`: writes and links the record, and then
        updates the block record. When that fails, the link is taken back. */
    method AddNextBlock(b: nat, id: nat, w: Writes) returns (ok: bool)
      requires Valid() && id < UINT64_LIMIT
      modifies this
      ensures lastBlockId == old(lastBlockId)
      ensures ok <==>
              && b in old(view) && old(nextsSize) + NEXT_RECORD_SIZE <= MAX_FILE_SIZE
              && w.record && (w.link || old(SlotsOf(blocks)[b]).last == 0) && w.block
      ensures ok ==>
              && Valid() && view == ExtendedView(old(view), b, id, old(nextsSize) == 0)
              && nextsSize == old(nextsSize) + NEXT_RECORD_SIZE
              && blocks == old(BlocksAfterAdd(b)) && nexts[..nextsSize] == old(LiveAfterAdd(b, id))
      ensures !ok ==>
              && view == old(view) && blocks == old(blocks) && nextsSize == old(nextsSize) <= |nexts|
              && (Readable() <==> !old(LeavesLink(b, w)))
              && (!old(LeavesLink(b, w)) ==> Valid() && nexts[..nextsSize] == old(nexts[..nextsSize]))
    {
      hide Represents, Shows, EncodeBlock, EncodeUInt, AppendedBytes, WriteAt, Unlinked,
        ExtendedView, ExtendedChains, Repointed, SlotsOf, RecordsOf, BlockAt, NextAt;
      var loaded := LoadRecord(b);
      if loaded.None? {
        return false;
      }
      var blockRecord := loaded.value;
      TailInFile(b);
      ghost var live := nexts[..nextsSize];
      if LeavesLink(b, w) {
        LinkIsUnreadable(b);
      }
      var linked := WriteNextRecord(blockRecord.last, id, w);
      if !linked {
        return false;
      }
      if !w.block {
        TakeLinkBack(blockRecord.last, w, live, id);
        return false;
      }
      AddKeeps(blocks, live, chains, view, b, id);
      ghost var at := nextsSize;
      blocks := WriteAt(blocks, BLOCK_RECORD_SIZE * b, EncodeBlock(Repointed(blockRecord, nextsSize)));
      nextsSize := nextsSize + NEXT_RECORD_SIZE;
      chains, view := ExtendedChains(chains, b, at / NEXT_RECORD_SIZE), ExtendedView(view, b, id, at == 0);
      ok := true;
    }

    /** An attempt, followed by a second one if it fails, leaves exactly the bytes that one successful
        attempt would have left, unless the first one leaves a link behind. */
    method AddNextBlockWithRetry(b: nat, id: nat, w: Writes) returns (first: bool)
      requires Valid() && id < UINT64_LIMIT && b in view
      requires nextsSize + NEXT_RECORD_SIZE <= MAX_FILE_SIZE && !LeavesLink(b, w)
      modifies this
      ensures Valid() && lastBlockId == old(lastBlockId)
      ensures view == ExtendedView(old(view), b, id, old(nextsSize) == 0)
      ensures nextsSize == old(nextsSize) + NEXT_RECORD_SIZE
      ensures blocks == old(BlocksAfterAdd(b)) && nexts[..nextsSize] == old(LiveAfterAdd(b, id))
    {
      hide Represents, ExtendedView, AppendedBytes;
      first := AddNextBlock(b, id, w);
      if !first {
        var second := AddNextBlock(b, id, ALL_WRITES);
      }
    }

    /** The list of a block that was just recorded is empty, so adding to it needs no link. */
    lemma NothingToUnlink(b: nat, w: Writes)
      requires Valid() && b in view && view[b].next == []
      ensures !LeavesLink(b, w)
    {
      hide Represents, Shows, SlotsOf, RecordsOf;
      InView(SlotsOf(blocks), RecordsOf(nexts[..nextsSize]), chains, view, b);
      TailHasNoLink(RecordsOf(nexts[..nextsSize]), SlotsOf(blocks)[b], chains[b], view[b]);
    }

    /** Records a block and then files its parent under it: the arguments of `AddNextBlock` are the
        block and its parent, in this order. */
    method RecordBlockAndNextBlock(b: nat, parent: nat, state: byte, written: bool, w: Writes) returns (ok: bool)
      requires Valid() && b < UINT64_LIMIT && parent < UINT64_LIMIT && state != NOT_PRESENT
      modifies this
      ensures Valid()
      ensures ok && parent == 0 ==>
              view == RecordedView(old(view), b, parent, state) && nextsSize == old(nextsSize)
      ensures ok && parent != 0 ==>
              && view == ExtendedView(RecordedView(old(view), b, parent, state), b, parent, old(nextsSize) == 0)
              && nextsSize == old(nextsSize) + NEXT_RECORD_SIZE
      ensures ok ==> lastBlockId == Max(old(lastBlockId), b)
      ensures !ok ==> view == old(view) || view == RecordedView(old(view), b, parent, state)
      ensures (&& written && w == ALL_WRITES && BLOCK_RECORD_SIZE * b + BLOCK_RECORD_SIZE <= MAX_FILE_SIZE
               && old(nextsSize) + NEXT_RECORD_SIZE <= MAX_FILE_SIZE) ==> ok
    {
      ok := RecordBlock(b, parent, state, written);
      if ok && parent != 0 {
        NothingToUnlink(b, w);
        ok := AddNextBlock(b, parent, w);
      }
    }

    /** Opens the files: sizes and the last block id are taken from the file lengths, whatever the
        files hold. Files that this registry wrote always open, and show what they showed before. */
    method OpenDataFiles() returns (ok: bool)
      modifies this
      ensures ok <==> |old(blocks)| % BLOCK_RECORD_SIZE == 0 && |old(nexts)| % NEXT_RECORD_SIZE == 0
      ensures blocks == old(blocks) && nexts == old(nexts) && view == old(view)
      ensures !ok ==> nextsSize == old(nextsSize) && lastBlockId == old(lastBlockId)
      ensures ok ==>
                && nextsSize == |nexts|
                && |blocks| == if blocks == [] then 0 else BLOCK_RECORD_SIZE * (lastBlockId + 1)
      ensures old(Valid()) ==> ok && Valid() && lastBlockId == old(lastBlockId)
    {
      hide Represents;
      if |blocks| % BLOCK_RECORD_SIZE != 0 || |nexts| % NEXT_RECORD_SIZE != 0 {
        return false;
      }
      if Valid() {
        MoreRecords(nexts, nextsSize);
        MoreRecordsKeep(SlotsOf(blocks), RecordsOf(nexts[..nextsSize]), chains, view,
                        RecordsOf(nexts)[|RecordsOf(nexts[..nextsSize])|..]);
      }
      nextsSize := |nexts|;
      assert nexts[..nextsSize] == nexts;
      lastBlockId := |blocks| / BLOCK_RECORD_SIZE;
      if lastBlockId > 0 {
        lastBlockId := lastBlockId - 1;
      }
      ok := true;
    }

    /** Any interleaving of additions: `log` holds (block id, next block id) pairs. */
    method AddAll(log: seq<(nat, nat)>)
      requires Valid() && nextsSize + NEXT_RECORD_SIZE * |log| <= MAX_FILE_SIZE
      requires forall i :: 0 <= i < |log| ==> log[i].0 in view && log[i].1 < UINT64_LIMIT
      modifies this
      ensures Valid() && view.Keys == old(view).Keys
      ensures forall b :: b in view ==>
                view[b].next == old(view)[b].next + IdsFor(Shown(log, old(nextsSize) == 0), b)
    {
      hide Represents, SlotsOf, RecordsOf, EncodeBlock, AppendedBytes, WriteAt, ExtendedView, Repointed;
      var n := 0;
      while n < |log|
        invariant n <= |log| && Valid()
        invariant nextsSize == old(nextsSize) + NEXT_RECORD_SIZE * n
        invariant view == AddedView(old(view), log[..n], old(nextsSize) == 0)
      {
        assert log[..n + 1][..n] == log[..n];
        var ok := AddNextBlock(log[n].0, log[n].1, ALL_WRITES);
        n := n + 1;
      }
      assert log[..n] == log;
      forall b | b in view
        ensures view[b].next == old(view)[b].next + IdsFor(Shown(log, old(nextsSize) == 0), b)
      {
        AddedLists(old(view), log, old(nextsSize) == 0, b);
      }
    }
  }

  /** The view after all additions of a log. */
  function AddedView(v: View, log: seq<(nat, nat)>, emptyFile: bool): (v': View)
    requires forall i :: 0 <= i < |log| ==> log[i].0 in v
    ensures v'.Keys == v.Keys
  {
    if log == [] then v
    else
      var n := |log| - 1;
      ExtendedView(AddedView(v, log[..n], emptyFile), log[n].0, log[n].1, emptyFile && n == 0)
  }

  /** The entries of a log of additions that show: all but the first one to an empty file. */
  function Shown(log: seq<(nat, nat)>, emptyFile: bool): seq<(nat, nat)> {
    if emptyFile && log != [] then log[1..] else log
  }

  /** The ids that a log adds to block `b`, in order. */
  function IdsFor(log: seq<(nat, nat)>, b: nat): seq<nat> {
    if log == [] then []
    else (if log[0].0 == b then [log[0].1] else []) + IdsFor(log[1..], b)
  }

  lemma {:induction false} IdsForSnoc(log: seq<(nat, nat)>, e: (nat, nat), b: nat)
    ensures IdsFor(log + [e], b) == IdsFor(log, b) + if e.0 == b then [e.1] else []
  {
    if log == [] {
      assert log + [e] == [e];
    } else {
      assert (log + [e])[1..] == log[1..] + [e];
      IdsForSnoc(log[1..], e, b);
    }
  }

  lemma ShownSnoc(log: seq<(nat, nat)>, e: (nat, nat), emptyFile: bool)
    ensures Shown(log + [e], emptyFile) == if emptyFile && log == [] then [] else Shown(log, emptyFile) + [e]
  {
  }

  /** Interleaved additions do not mix: the list of each block holds the ids added to it, in order,
      except the very first addition to an empty list file. */
  lemma {:induction false} AddedLists(v: View, log: seq<(nat, nat)>, emptyFile: bool, b: nat)
    requires forall i :: 0 <= i < |log| ==> log[i].0 in v
    requires b in v
    ensures AddedView(v, log, emptyFile)[b].next == v[b].next + IdsFor(Shown(log, emptyFile), b)
  {
    if log == [] {
    } else {
      var n := |log| - 1;
      AddedLists(v, log[..n], emptyFile, b);
      assert log == log[..n] + [log[n]];
      ShownSnoc(log[..n], log[n], emptyFile);
      IdsForSnoc(Shown(log[..n], emptyFile), log[n], b);
    }
  }
}
