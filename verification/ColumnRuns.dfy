/** Whole runs of a column: what holds in every state after any sequence of writes, of values of any
    length, and of rollbacks. */
module ColumnRuns {
  import opened Bytes
  import opened ColumnStore
  import opened LobBreaks
  import opened LobWrite
  import L = LobChain
  import Column
  import BlockRegistry
  import R = RegistryTables

  /** One operation: a write of a fixed-width value, of a long value from memory or from a stream, or a
      rollback. The reads of a stream deliver at most as many bytes as `takes` says, and fail where it
      says 0. */
  datatype Op =
    | Fixed(bytes: seq<byte>, len: nat)
    | Text(src: seq<byte>)
    | Stream(src: seq<byte>, takes: seq<nat>)
    | RollBack(addr: Address, first: nat)

  ghost predicate WritesText(env: Env, s: Store, src: seq<byte>, now: nat, sel: Selection, s': Store)
    requires Workable(env, s)
  {
    && Selects(env, s, L.MIN_REQUIRED_SPACE, now, sel)
    && (sel.Refused? ==> s' == sel.store)
    && (sel.Chosen? ==> && Workable(env, sel.store) && L.StartsIn(env, sel.store, sel.id)
                        && s' == TextPut(env, sel.store, sel.id, src, now))
  }

  /** The value is written as a whole, or the write breaks off where a read fails. */
  ghost predicate WritesStream(env: Env, s: Store, src: seq<byte>, takes: seq<nat>, now: nat, sel: Selection, s': Store)
    requires Workable(env, s)
  {
    && Selects(env, s, L.MIN_REQUIRED_SPACE, now, sel)
    && (sel.Refused? ==> s' == sel.store)
    && (sel.Chosen? ==> && Workable(env, sel.store) && L.StartsIn(env, sel.store, sel.id)
                        && (|| s' == TextWritten(env, sel.store, sel.id, src, now)
                            || (0 in takes && BreaksOff(env, sel.store, sel.id, src, now, s'))))
  }

  ghost predicate Step(env: Env, s: Store, op: Op, now: nat, s': Store)
    requires Workable(env, s)
  {
    match op
    case Fixed(bytes, len) => exists r :: WritesFixed(env, s, bytes, len, now, r) && s' == r.store
    case Text(src) => exists sel :: WritesText(env, s, src, now, sel, s')
    case Stream(src, takes) => exists sel :: WritesStream(env, s, src, takes, now, sel, s')
    case RollBack(addr, first) =>
      if CanRollBack(env, s, addr, first) then
        SoundDescends(env, s);
        s' == RollFrom(env, s, addr, first, first, addr.blockId).store
      else s' == s
  }

  /** A workable column carries the operation out. Of any other column nothing is known. */
  ghost predicate IsStep(env: Env, s: Store, op: Op, s': Store) {
    Workable(env, s) ==> exists now :: Step(env, s, op, now, s')
  }

  /** `ss` are the states of a run of `ops` from an empty column, each at some time. Blocks are larger
      than a chunk header and fixed-width values are not wider than the room asked for them. */
  ghost predicate IsRun(env: Env, ops: seq<Op>, ss: seq<Store>) {
    && env.area > L.HEADER_SIZE && |ss| == |ops| + 1 && ss[0] == EMPTY_STORE
    && (forall i :: 0 <= i < |ops| && ops[i].Fixed? ==> |ops[i].bytes| <= ops[i].len)
    && forall i :: 0 <= i < |ops| ==> IsStep(env, ss[i], ops[i], ss[i + 1])
  }

  // ---- All runs ----

  lemma StepKeeps(env: Env, s: Store, op: Op, now: nat, s': Store)
    requires Workable(env, s) && Step(env, s, op, now, s') && env.area > L.HEADER_SIZE
    requires op.Fixed? ==> |op.bytes| <= op.len
    ensures Workable(env, s') && (!op.RollBack? ==> UsedStays(s, s'))
  {
    hide Workable, UsedStays, WritesFixed, Selects, TextPut, TextWritten, BreaksOff, RollFrom;
    match op
    case Fixed(bytes, len) =>
      var r :| WritesFixed(env, s, bytes, len, now, r) && s' == r.store;
      FixedWriteUsed(env, s, bytes, len, now, r);
    case Text(src) =>
      var sel :| WritesText(env, s, src, now, sel, s');
      TextOutcome(env, s, sel, src, now);
    case Stream(src, takes) =>
      var sel :| WritesStream(env, s, src, takes, now, sel, s');
      StreamOutcome(env, s, sel, src, now);
      if BreaksOff(env, sel.store, sel.id, src, now, s') {
        SelectionUsed(env, s, L.MIN_REQUIRED_SPACE, now, sel);
        BreakKeeps(env, sel.store, sel.id, src, now, s');
        UsedStaysTransitive(s, sel.store, s');
      }
    case RollBack(addr, first) =>
      if CanRollBack(env, s, addr, first) {
        assert Descending(s.blocks) by { WorkableDescends(env, s); }
        RollKeepsWorkable(env, s, addr, first, first, addr.blockId);
      }
  }

  lemma WorkableDescends(env: Env, s: Store)
    requires Workable(env, s)
    ensures Descending(s.blocks)
  {
    hide Sound;
    SoundDescends(env, s);
  }

  /** In every state of every run the blocks are in good shape and the map lists existing blocks. */
  lemma {:induction false} RunIsWorkable(env: Env, ops: seq<Op>, ss: seq<Store>, n: nat)
    requires IsRun(env, ops, ss) && n <= |ops|
    ensures Workable(env, ss[n])
  {
    if n == 0 {
    } else {
      RunIsWorkable(env, ops, ss, n - 1);
      assert IsStep(env, ss[n - 1], ops[n - 1], ss[n]);
      var now :| Step(env, ss[n - 1], ops[n - 1], now, ss[n]);
      StepKeeps(env, ss[n - 1], ops[n - 1], now, ss[n]);
    }
  }

  /** Between rollbacks no used byte changes, whatever is written. */
  lemma {:induction false} RunUsedStays(env: Env, ops: seq<Op>, ss: seq<Store>, i: nat, j: nat)
    requires IsRun(env, ops, ss) && i <= j <= |ops|
    requires forall k :: i <= k < j ==> !ops[k].RollBack?
    ensures UsedStays(ss[i], ss[j])
    decreases j
  {
    hide Step, UsedStays, Sound;
    if i == j {
      RunIsWorkable(env, ops, ss, i);
      SoundShape(env, ss[i]);
      UsedStaysSame(ss[i]);
    } else {
      RunUsedStays(env, ops, ss, i, j - 1);
      RunIsWorkable(env, ops, ss, j - 1);
      assert IsStep(env, ss[j - 1], ops[j - 1], ss[j]);
      var now :| Step(env, ss[j - 1], ops[j - 1], now, ss[j]);
      StepKeeps(env, ss[j - 1], ops[j - 1], now, ss[j]);
      UsedStaysTransitive(ss[i], ss[j - 1], ss[j]);
    }
  }

  /** A fixed-width record that a run has stored stays where it is, and reads back later in the run,
      as long as nothing was rolled back, exactly when it does not end at the very end of its block. */
  lemma StoredRecordReadsBack(env: Env, ops: seq<Op>, ss: seq<Store>, i: nat, j: nat, now: nat, r: Outcome)
    requires IsRun(env, ops, ss) && i < j <= |ops| && ops[i].Fixed? && Workable(env, ss[i])
    requires WritesFixed(env, ss[i], ops[i].bytes, ops[i].len, now, r) && r.Stored? && r.store == ss[i + 1]
    requires forall k :: i < k < j ==> !ops[k].RollBack?
    ensures RecordAt(ss[j], r.addr, ops[i].bytes)
    ensures ReadFixed(env, ss[j], r.addr, |ops[i].bytes|) == Some(ops[i].bytes)
       <==> r.addr.offset + |ops[i].bytes| < env.area
  {
    hide IsStep, UsedStays, WritesFixed, RecordAt, ReadFixed, Sound;
    FixedWriteUsed(env, ss[i], ops[i].bytes, ops[i].len, now, r);
    RunUsedStays(env, ops, ss, i + 1, j);
    RunIsWorkable(env, ops, ss, j);
    SoundShape(env, ss[j]);
    RecordStays(ss[i + 1], ss[j], r.addr, ops[i].bytes);
    FixedReadBack(env, ss[i + 1], ss[j], r.addr, ops[i].bytes);
  }

  /** The chunks of a long value that a run has stored stay in place as long as nothing is rolled
      back. The value then reads back exactly when its start block had room for a header, and it takes
      at most one more block or the run has created a block since. */
  lemma StoredTextReadsBack(env: Env, ops: seq<Op>, ss: seq<Store>, i: nat, j: nat, now: nat, sel: Selection)
    requires IsRun(env, ops, ss) && i < j <= |ops| && ops[i].Text? && Workable(env, ss[i])
    requires WritesText(env, ss[i], ops[i].src, now, sel, ss[i + 1]) && sel.Chosen?
    requires Completes(env, sel.store, sel.id, |ops[i].src|)
    requires |ops[i].src| < UINT32_LIMIT && env.area < UINT32_LIMIT && ss[j].lastId < UINT64_LIMIT
    requires forall k :: i < k < j ==> !ops[k].RollBack?
    ensures Free(env, sel.store.blocks[sel.id]) >= L.HEADER_SIZE ==>
              L.Stored(env, ss[j], ops[i].src, L.FullLayout(env, sel.store, sel.id, |ops[i].src|), sel.store.lastId + 1)
    ensures var src, free := ops[i].src, Free(env, sel.store.blocks[sel.id]);
            L.ReadLob(env, ss[j], Address(sel.id, sel.store.blocks[sel.id].pos)) ==
            if && free >= L.HEADER_SIZE
               && (|src| <= (free - L.HEADER_SIZE) + (env.area - L.HEADER_SIZE) || ss[i + 1].lastId < ss[j].lastId)
            then Some(src)
            else None
  {
    hide IsStep, UsedStays, Selects, TextPut, L.Progress, L.FullLayout, L.ReadLob, L.Stored, Sound;
    var s, id, src := sel.store, sel.id, ops[i].src;
    TextPutKeeps(env, s, id, src, now);
    RunUsedStays(env, ops, ss, i + 1, j);
    RunIsWorkable(env, ops, ss, j);
    L.LaterIds(ss[i + 1], ss[j]);
    SoundBlock(env, s, id);
    SoundIsFull(env, ss[i + 1]);
    SoundIsFull(env, ss[j]);
    L.ReadsBackLater(env, s, id, src, ss[i + 1], ss[j]);
  }

  // ---- Runs that keep the map exact ----

  /** What a write of a long value needs for the map and the digests to stay right: a value from memory
      fits into the selected block, or nothing of the value can be written at all. */
  ghost predicate StaysInBlock(env: Env, op: Op, sel: Selection)
    requires (op.Text? || op.Stream?) && sel.Chosen? && L.StartsIn(env, sel.store, sel.id)
  {
    (op.Text? && !L.NeedsNewBlock(env, sel.store, sel.id, |op.src|)) || NothingFits(env, sel.store, sel.id)
  }

  /** The operation stays in one block. */
  ghost predicate Plain(env: Env, s: Store, op: Op)
    requires Workable(env, s)
  {
    match op
    case Fixed(_, _) => true
    case RollBack(addr, first) => CanRollBack(env, s, addr, first) ==> VisitsOneBlock(s, addr, first)
    case _ =>
      forall now, sel ::
        Selects(env, s, L.MIN_REQUIRED_SPACE, now, sel) && sel.Chosen? && L.StartsIn(env, sel.store, sel.id) ==>
          StaysInBlock(env, op, sel)
  }

  /** The selected block and its position do not depend on the time. */
  lemma SameSelection(env: Env, s: Store, required: nat, now: nat, sel: Selection, now': nat, sel': Selection)
    requires Workable(env, s) && Selects(env, s, required, now, sel) && Selects(env, s, required, now', sel')
    requires sel.Chosen? && sel'.Chosen? && sel.id in sel.store.blocks && sel'.id in sel'.store.blocks
    ensures sel.id == sel'.id && sel.store.blocks[sel.id].pos == sel'.store.blocks[sel'.id].pos
  {
    hide Sound, MovesOn;
    if s.available == map[] {
    } else if exists id :: IsFirstFit(s.available, required, id) {
    } else {
      var id :| IsRoomiest(s.available, id) && MovesOn(env, s, required, now, id, sel);
      var id' :| IsRoomiest(s.available, id') && MovesOn(env, s, required, now', id', sel');
      MovedToEmptyBlock(env, s, required, now, id, sel);
      MovedToEmptyBlock(env, s, required, now', id', sel');
    }
  }

  lemma MovedToEmptyBlock(env: Env, s: Store, required: nat, now: nat, id: nat, sel: Selection)
    requires Workable(env, s) && id in s.available && MovesOn(env, s, required, now, id, sel) && sel.Chosen?
    requires sel.id in sel.store.blocks
    ensures sel.id == s.lastId + 1 && sel.store.blocks[sel.id].pos == 0
  {
    hide DigestInput;
    SoundShape(env, s);
  }

  lemma PlainSelection(env: Env, s: Store, op: Op, now: nat, sel: Selection)
    requires Workable(env, s) && (op.Text? || op.Stream?) && Selects(env, s, L.MIN_REQUIRED_SPACE, now, sel)
    requires sel.Chosen? && L.StartsIn(env, sel.store, sel.id)
    ensures Plain(env, s, op) <==> StaysInBlock(env, op, sel)
  {
    hide Workable, Selects;
    forall now', sel' | Selects(env, s, L.MIN_REQUIRED_SPACE, now', sel') && sel'.Chosen?
                        && L.StartsIn(env, sel'.store, sel'.id)
      ensures StaysInBlock(env, op, sel') <==> StaysInBlock(env, op, sel)
    {
      SameSelection(env, s, L.MIN_REQUIRED_SPACE, now, sel, now', sel');
    }
  }

  lemma TextStepInv(env: Env, s: Store, op: Op, now: nat, sel: Selection, s': Store)
    requires Inv(env, s) && Workable(env, s) && op.Text? && WritesText(env, s, op.src, now, sel, s')
    requires env.area > L.HEADER_SIZE
    ensures Inv(env, s') <==> Plain(env, s, op)
    ensures Inv(env, s') ==> Grows(s, s')
  {
    hide Inv, Workable, Grows, UsedStays, Selects, TextPut, L.TextStored, Plain;
    TextOutcome(env, s, sel, op.src, now);
    PlainSelection(env, s, op, now, sel);
    SelectionKeeps(env, s, L.MIN_REQUIRED_SPACE, now, sel);
    if !L.NeedsNewBlock(env, sel.store, sel.id, |op.src|) {
      L.TextKeeps(env, sel.store, sel.id, op.src);
      GrowsTransitive(s, sel.store, s');
    }
  }

  lemma StreamStepInv(env: Env, s: Store, op: Op, now: nat, sel: Selection, s': Store)
    requires Inv(env, s) && Workable(env, s) && op.Stream? && WritesStream(env, s, op.src, op.takes, now, sel, s')
    requires env.area > L.HEADER_SIZE
    ensures Inv(env, s') <==> Plain(env, s, op)
    ensures Inv(env, s') ==> Grows(s, s')
  {
    hide Inv, Workable, Grows, UsedStays, Selects, TextWritten, BreaksOff, Plain;
    StreamOutcome(env, s, sel, op.src, now);
    PlainSelection(env, s, op, now, sel);
    SelectionKeeps(env, s, L.MIN_REQUIRED_SPACE, now, sel);
    WrittenInv(env, sel.store, sel.id, op.src, now);
    if BreaksOff(env, sel.store, sel.id, op.src, now, s') {
      BreakKeeps(env, sel.store, sel.id, op.src, now, s');
      NothingBreaks(env, sel.store, sel.id, op.src, now, s');
    }
  }

  /** An operation keeps the map exact and all digests right if and only if it stays in one block. */
  lemma StepInv(env: Env, s: Store, op: Op, now: nat, s': Store)
    requires Inv(env, s) && Workable(env, s) && Step(env, s, op, now, s') && env.area > L.HEADER_SIZE
    requires op.Fixed? ==> |op.bytes| <= op.len
    ensures Inv(env, s') <==> Plain(env, s, op)
    ensures Inv(env, s') && !op.RollBack? ==> Grows(s, s')
  {
    hide Inv, Workable, Grows, WritesFixed, WritesText, WritesStream, RollFrom;
    match op
    case Fixed(bytes, len) =>
      var r :| WritesFixed(env, s, bytes, len, now, r) && s' == r.store;
      FixedWriteKeeps(env, s, bytes, len, now, r);
    case Text(src) =>
      var sel :| WritesText(env, s, src, now, sel, s');
      TextStepInv(env, s, op, now, sel, s');
    case Stream(src, takes) =>
      var sel :| WritesStream(env, s, src, takes, now, sel, s');
      StreamStepInv(env, s, op, now, sel, s');
    case RollBack(addr, first) =>
      if CanRollBack(env, s, addr, first) {
        RollbackInv(env, s, addr, first);
      }
  }

  /** As long as all operations stay in one block, the map of available blocks is exact, and the
      digest of every closed block is the one that its content and its predecessor give. */
  lemma {:induction false} RunKeepsInv(env: Env, ops: seq<Op>, ss: seq<Store>, n: nat)
    requires IsRun(env, ops, ss) && n <= |ops|
    requires forall k :: 0 <= k < n && Workable(env, ss[k]) ==> Plain(env, ss[k], ops[k])
    ensures Inv(env, ss[n])
  {
    hide Plain, Step;
    if n == 0 {
    } else {
      RunKeepsInv(env, ops, ss, n - 1);
      RunIsWorkable(env, ops, ss, n - 1);
      assert IsStep(env, ss[n - 1], ops[n - 1], ss[n]);
      var now :| Step(env, ss[n - 1], ops[n - 1], now, ss[n]);
      StepInv(env, ss[n - 1], ops[n - 1], now, ss[n]);
    }
  }

  /** Then closed blocks never change between rollbacks. */
  lemma {:induction false} RunGrows(env: Env, ops: seq<Op>, ss: seq<Store>, i: nat, j: nat)
    requires IsRun(env, ops, ss) && i <= j <= |ops|
    requires forall k :: 0 <= k < j && Workable(env, ss[k]) ==> Plain(env, ss[k], ops[k])
    requires forall k :: i <= k < j ==> !ops[k].RollBack?
    ensures Grows(ss[i], ss[j])
    decreases j
  {
    hide Plain, Step, Inv, Grows;
    RunKeepsInv(env, ops, ss, i);
    if i == j {
      GrowsReflexive(env, ss[i]);
    } else {
      RunGrows(env, ops, ss, i, j - 1);
      RunKeepsInv(env, ops, ss, j - 1);
      RunIsWorkable(env, ops, ss, j - 1);
      assert IsStep(env, ss[j - 1], ops[j - 1], ss[j]);
      var now :| Step(env, ss[j - 1], ops[j - 1], now, ss[j]);
      StepInv(env, ss[j - 1], ops[j - 1], now, ss[j]);
      GrowsTransitive(ss[i], ss[j - 1], ss[j]);
    }
  }

  // ---- Runs of the class ----

  /** How many blocks the operations can create at most. */
  function Budget(ops: seq<Op>): nat {
    if ops == [] then 0
    else
      Budget(ops[..|ops| - 1]) +
      match ops[|ops| - 1]
      case Fixed(_, _) => 1
      case Text(src) => |src| + 3
      case Stream(src, _) => |src| + 3
      case RollBack(_, _) => 0
  }

  lemma {:induction false} BudgetOfPrefix(ops: seq<Op>, n: nat)
    requires n <= |ops|
    ensures Budget(ops[..n]) <= Budget(ops)
  {
    if n == |ops| {
      assert ops[..n] == ops;
    } else {
      BudgetOfPrefix(ops[..|ops| - 1], n);
      assert ops[..|ops| - 1][..n] == ops[..n];
    }
  }

  /** The operations of a column object make a run. */
  method Perform(env: Env, ops: seq<Op>, times: seq<nat>) returns (c: Column.Column, ghost ss: seq<Store>)
    requires env.area > L.HEADER_SIZE && |times| == |ops| && Budget(ops) < Column.MAX_BLOCK_ID
    requires forall i :: 0 <= i < |ops| ==> (ops[i].Fixed? ==> |ops[i].bytes| <= ops[i].len)
                                            && (ops[i].Text? || ops[i].Stream? ==> |ops[i].src| < UINT32_LIMIT)
    ensures c.Valid() && c.env == env && IsRun(env, ops, ss) && ss[|ops|] == c.S()
  {
    hide Workable, Step, Column.Matches, R.Represents, BlockRegistry.Registry.Valid;
    c := new Column.Column(env);
    ss := [c.S()];
    var n := 0;
    while n < |ops|
      invariant n <= |ops| && fresh(c) && fresh(c.registry) && c.Valid() && c.env == env
      invariant c.lastId <= Budget(ops[..n]) && |ss| == n + 1 && ss[0] == EMPTY_STORE && ss[n] == c.S()
      invariant forall i :: 0 <= i < n ==> IsStep(env, ss[i], ops[i], ss[i + 1])
    {
      BudgetOfPrefix(ops, n + 1);
      assert ops[..n + 1][..n] == ops[..n] && [ops[n]][..0] == [];
      ghost var s := c.S();
      PerformOne(c, ops[n], times[n]);
      assert Step(env, s, ops[n], times[n], c.S());
      ss := ss + [c.S()];
      n := n + 1;
    }
    assert ops[..n] == ops;
  }

  method PerformOne(c: Column.Column, op: Op, now: nat)
    requires c.Valid() && c.env.area > L.HEADER_SIZE
    requires op.Fixed? ==> |op.bytes| <= op.len && c.lastId + 1 < Column.MAX_BLOCK_ID
    requires op.Text? || op.Stream? ==> |op.src| < UINT32_LIMIT && c.lastId + |op.src| + 3 < Column.MAX_BLOCK_ID
    modifies c, c.registry
    ensures c.Valid() && Workable(c.env, old(c.S())) && Step(c.env, old(c.S()), op, now, c.S())
    ensures c.lastId <= old(c.lastId) + Budget([op])
  {
    hide Workable, Selects, WritesFixed, TextPut, TextWritten, BreaksOff, RollFrom, UsedStays, Inv, L.ReadLob,
      L.ReadValue, L.TextStored, Column.Matches, R.Represents, BlockRegistry.Registry.Valid;
    assert [op][..0] == [];
    match op {
      case Fixed(bytes, len) =>
        var r := c.WriteRecord(bytes, len, now);
      case Text(src) =>
        var r, sel := c.WriteText(src, now);
        assert WritesText(c.env, old(c.S()), src, now, sel, c.S());
      case Stream(src, takes) =>
        var lob := new Column.Source(src, takes);
        assert 0 !in takes ==> lob.Delivers();
        var r, sel := c.WriteLob(lob, now);
        assert WritesStream(c.env, old(c.S()), src, takes, now, sel, c.S());
      case RollBack(addr, first) =>
        var ok := c.RollbackToAddress(addr, first);
    }
  }
}
