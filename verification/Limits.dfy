/** The byte order of numbers, and the sizes at which the code changes its behaviour, as numbers. */
module Limits {
  import opened Bytes
  import opened Catalog
  import opened ColumnStore
  import opened Counterexamples
  import opened Varint
  import Column
  import J = JsonStreams
  import L = LobChain
  import M = MasterColumn
  import O = SystemObjects
  import F = SystemObjectsFile
  import V = SqlValues
  import W = LobWrite

  /** Numbers are stored with their least significant byte first. */
  lemma WordBytes(n: nat)
    requires n < 4_294_967_296
    ensures EncodeUInt(n, 4) == [n % 256, n / 256 % 256, n / 65_536 % 256, n / 16_777_216]
  {
    hide EncodeUInt;
    var a, b, c := n / 256, n / 65_536, n / 16_777_216;
    assert a / 256 == b && b / 256 == c && c / 256 == 0;
    LowestByte(n, 4);
    LowestByte(a, 3);
    LowestByte(b, 2);
    LowestByte(c, 1);
    LowestByte(0, 0);
  }

  lemma LowestByte(n: nat, width: nat)
    ensures EncodeUInt(n, width) == if width == 0 then [] else [n % 256] + EncodeUInt(n / 256, width - 1)
  {
  }

  /** A text of 10 bytes behind a record of `n` bytes in a block of 300: it cannot be read exactly when
      10 to 19 bytes are left. With fewer it goes to a next block, with more it has a header. */
  method TextBehindRecord(env: Env, n: nat) returns (c: Column.Column, value: Option<seq<byte>>)
    requires env.area == 300 && 0 < n <= 300
    ensures value == if 281 <= n <= 290 then None else Some(Zeros(10))
  {
    hide Column.Column.Valid, Inv, Workable, WritesFixed, RecordAt, UsedStays, L.ReadLob, W.TextPut,
      L.FullLayout, L.TextStored, Selects, OneAvailable;
    c := new Column.Column(env);
    ColumnIsWorkable(c);
    var r := c.WriteRecord(Zeros(n), n, 0);
    FirstFixed(env, Zeros(n), n, 0, if r.Some? then Stored(c.S(), r.value.0) else Failed(c.S()));
    ghost var s := c.S();
    var addr, sel := c.WriteText(Zeros(10), 0);
    RoomOfSelected(env, s, 300 - n, sel);
    value := L.ReadLob(env, Store(c.blocks, c.available, c.lastId), addr.value);
  }

  lemma RoomOfSelected(env: Env, s: Store, free: nat, sel: Selection)
    requires env.area == 300 && OneAvailable(env, s, free) && Selects(env, s, L.MIN_REQUIRED_SPACE, 0, sel)
    ensures sel.Chosen? && sel.id in sel.store.blocks
    ensures sel.store.blocks[sel.id].pos == 300 - if free < 10 then 300 else free
  {
    hide Inv, Workable, Selects;
    if free < 10 {
      NextBlockSelected(env, s, free, L.MIN_REQUIRED_SPACE, 0, sel);
    } else {
      SameBlockSelected(env, s, free, L.MIN_REQUIRED_SPACE, 0, sel);
    }
  }

  /** A text that is one byte too long for a first block can be written exactly when blocks have 276
      bytes or more. */
  method TextForTwoBlocks(env: Env) returns (c: Column.Column, r: Option<Address>)
    requires 20 < env.area < 1_000_000
    ensures r.None? <==> env.area <= 275
  {
    hide Column.Column.Valid, Inv, Workable, UsedStays, L.ReadLob, W.TextPut, L.FullLayout, L.TextStored, Selects;
    c := new Column.Column(env);
    ColumnIsWorkable(c);
    ghost var sel;
    r, sel := c.WriteText(Zeros(env.area - 19), 0);
    FirstSelection(env, sel);
  }

  /** In blocks of 32768 bytes or more a row is accepted up to a body of 32765 bytes. */
  lemma LongestRow(env: Env, body: seq<byte>)
    requires env.area >= 32768
    ensures M.Accepted(env, body) <==> |body| <= 32765
  {
    hide EncodeVarint;
    if |body| < M.UINT16_LIMIT {
      M.TagBytes(|body|);
    }
  }

  /** A text of zero bytes is loaded unchanged exactly when it is empty or has 1048576 bytes or more. */
  lemma ZeroTextLoads(env: Env, s: Store, addr: Address, n: nat)
    requires L.ReadLob(env, s, addr) == Some(Zeros(n))
    ensures L.LoadText(env, s, addr) == Some(Zeros(n)) <==> n == 0 || n >= 1_048_576
  {
    hide L.ReadLob, L.LoadText;
    L.TextLoads(env, s, addr, Zeros(n));
    assert n > 0 ==> Zeros(n)[0] == 0;
  }

  /** A number takes more than five bytes from 2^35 on, and is cut to 32 bits below. */
  lemma SizesRead(n: nat, rest: seq<byte>)
    ensures J.ReadSize(EncodeVarint(n) + rest) ==
            if n < 34_359_738_368 then Some((n % 4_294_967_296, rest)) else None
  {
    hide EncodeVarint, DecodeVarint;
    VarintRoundTrip(n, rest);
    VarintLength(n, 5);
    assert Groups(5) == 34_359_738_368 by {
      assert Groups(3) == 2_097_152;
    }
    assert (EncodeVarint(n) + rest)[|EncodeVarint(n)|..] == rest;
  }

  /** One chunk has at most 2147483647 bytes. */
  lemma LongestChunk(data: seq<byte>, rest: seq<byte>)
    requires 0 < |data| < 4_294_967_296
    ensures J.Payload(EncodeVarint(|data|) + (data + (EncodeVarint(0) + rest))) ==
            if |data| <= 2_147_483_647 then Some((data, rest)) else None
  {
    hide J.Payload, J.ReadSize, EncodeVarint;
    var behind := EncodeVarint(0) + rest;
    SizesRead(|data|, data + behind);
    SizesRead(0, rest);
    J.PayloadStep(EncodeVarint(|data|) + (data + behind));
    J.PayloadStep(behind);
    assert (data + behind)[..|data|] == data && (data + behind)[|data|..] == behind;
    assert data + [] == data;
  }

  /** A definition with a small id and type is loaded exactly when its expression has at most 65514
      bytes, so that 65536 are not exceeded. */
  lemma LongestExpression(emptyHash: nat, id: nat, x: ConstraintDefinitionRecord)
    requires id < 128 && x.constraintType < 128
    ensures F.FitsLimit(O.DefinitionCodec(emptyHash), map[id := x]) <==> |x.expression| <= 65_514
  {
    hide DecodeVarint;
    var n := |x.expression|;
    VarintLength(n, 2);
    VarintLength(n, 3);
    assert Groups(2) == 16_384 && Groups(3) == 2_097_152;
    assert |O.EncodeDefinition(id, x)| == 19 + |EncodeVarint(n)| + n;
    var objects := map[id := x];
    assert id in objects && objects[id] == x;
  }

  /** A definition is not loaded in any later version of the format. */
  lemma LaterVersions(emptyHash: nat, version: nat, rest: seq<byte>)
    requires version > 0
    ensures O.DecodeDefinition(emptyHash, O.DEFINITION_UUID + (EncodeVarint(version) + rest)) == None
  {
    hide O.ReadVarint, EncodeVarint;
    O.ReadVarintBack(version, rest);
    var s := O.DEFINITION_UUID + (EncodeVarint(version) + rest);
    assert s[..16] == O.DEFINITION_UUID && s[16..] == EncodeVarint(version) + rest;
  }

  /** A number in a script gets the smallest unsigned type that holds it. */
  lemma LiteralTypes(n: nat, rest: string)
    requires V.Ends(rest) && n < 18_446_744_073_709_551_616
    ensures V.ReadVariant(V.Render(V.IntValue(n)) + rest) ==
            Some((V.IntVariant(false, if n <= 255 then 8 else if n <= 65_535 then 16
                                      else if n <= 4_294_967_295 then 32 else 64, n), rest))
  {
    hide V.ReadVariant, V.Render;
    V.ReadInt(n, rest);
  }

  /** The values of a signed 64-bit column, and those of them that a dump restores. */
  lemma SignedWords(n: int)
    ensures V.HasType(V.IntValue(n), V.IntType(true, 64)) <==>
            -9_223_372_036_854_775_808 <= n <= 9_223_372_036_854_775_807
    ensures V.HasType(V.IntValue(n), V.IntType(true, 64)) ==>
              (V.Converted(V.Parsed(V.IntValue(n)), V.IntType(true, 64)) == Some(V.IntValue(n)) <==>
               !(-4_294_967_295 <= n <= -65_536))
  {
    hide V.Converted, V.Parsed;
    if V.HasType(V.IntValue(n), V.IntType(true, 64)) {
      V.ConvertedBack(V.IntValue(n), V.IntType(true, 64));
    }
  }
}
