/** The stream that reads a long value piece by piece, following the chain of chunks. */
module LobStream {
  import opened Bytes
  import opened ColumnStore
  import L = LobChain

  /** A place in a value: the rest of the current chunk starts at `off` in block `id`. */
  ghost predicate InChunk(store: Store, id: nat, off: nat, done: nat, h: L.Header) {
    id in store.blocks && done <= h.length && off + (h.length - done) <= |store.blocks[id].data|
  }

  /** What is left to read when `remaining` bytes of the value are left, `done` bytes of the current
      chunk have been read and the chain goes on as `h` says; nothing at all when it is broken. */
  ghost function RestOf(env: Env, store: Store, id: nat, off: nat, done: nat, h: L.Header,
                        remaining: nat): Option<seq<byte>>
    requires InChunk(store, id, off, done, h)
  {
    var n := Min(h.length - done, remaining);
    var part := store.blocks[id].data[off..off + n];
    if n == remaining then Some(part)
    else if h.nextBlock == 0 then None
    else
      var next := Address(h.nextBlock, h.nextOffset);
      match L.LoadNextHeader(env, store, next, remaining - n)
      case None => None
      case Some(g) => Prepend(part, L.ReadChunks(env, store, next, g, remaining - n))
  }

  /** Reading a piece of the current chunk. */
  lemma PieceOfRest(env: Env, store: Store, id: nat, off: nat, done: nat, h: L.Header, remaining: nat, k: nat)
    requires InChunk(store, id, off, done, h) && k <= h.length - done && k <= remaining
    ensures RestOf(env, store, id, off, done, h, remaining) ==
            Prepend(store.blocks[id].data[off..off + k], RestOf(env, store, id, off + k, done + k, h, remaining - k))
  {
    hide L.LoadNextHeader, L.ReadChunks;
    var n := Min(h.length - done, remaining);
    var data := store.blocks[id].data;
    var one, two := data[off..off + k], data[off + k..off + n];
    assert data[off..off + n] == one + two;
    if n < remaining && h.nextBlock != 0 {
      var next := Address(h.nextBlock, h.nextOffset);
      var g := L.LoadNextHeader(env, store, next, remaining - n);
      if g.Some? {
        PrependTwice(one, two, L.ReadChunks(env, store, next, g.value, remaining - n));
      }
    }
  }

  /** Moving on to the next chunk. */
  lemma RestInNextChunk(env: Env, store: Store, id: nat, off: nat, h: L.Header, remaining: nat)
    requires InChunk(store, id, off, h.length, h) && remaining > 0
    ensures var next := Address(h.nextBlock, h.nextOffset);
            var g := L.LoadNextHeader(env, store, next, remaining);
            && (g.Some? ==> InChunk(store, next.blockId, next.offset + L.HEADER_SIZE, 0, g.value))
            && RestOf(env, store, id, off, h.length, h, remaining) ==
               if h.nextBlock == 0 || g.None? then None
               else RestOf(env, store, next.blockId, next.offset + L.HEADER_SIZE, 0, g.value, remaining)
  {
    hide L.LoadNextHeader;
    var next := Address(h.nextBlock, h.nextOffset);
    var g := L.LoadNextHeader(env, store, next, remaining);
    assert store.blocks[id].data[off..off + 0] == [];
    if h.nextBlock != 0 && g.Some? {
      RestIsRead(env, store, next, g.value, remaining);
      var r := L.ReadChunks(env, store, next, g.value, remaining);
      assert r.Some? ==> [] + r.value == r.value;
    }
  }

  lemma RestIsRead(env: Env, store: Store, addr: Address, h: L.Header, remaining: nat)
    requires InChunk(store, addr.blockId, addr.offset + L.HEADER_SIZE, 0, h)
    ensures RestOf(env, store, addr.blockId, addr.offset + L.HEADER_SIZE, 0, h, remaining) ==
            L.ReadChunks(env, store, addr, h, remaining)
  {
    hide L.LoadNextHeader;
  }

  class Stream {
    const env: Env
    const store: Store
    const size: nat
    var blockId: nat
    var offsetInBlock: nat
    var offsetInChunk: nat
    var header: L.Header
    var pos: nat

    ghost predicate Valid()
      reads this
    {
      InChunk(store, blockId, offsetInBlock, offsetInChunk, header) && pos <= size
    }

    ghost function Rest(): Option<seq<byte>>
      reads this
      requires Valid()
    {
      RestOf(env, store, blockId, offsetInBlock, offsetInChunk, header, size - pos)
    }

    constructor (env: Env, store: Store, addr: Address)
      requires L.LoadHeader(env, store, addr).Some?
      ensures Valid() && this.env == env && this.store == store && Rest() == L.ReadLob(env, store, addr)
      ensures pos == 0 && size == L.LoadHeader(env, store, addr).value.remaining
    {
      var h := L.LoadHeader(env, store, addr).value;
      this.env, this.store, size := env, store, h.remaining;
      blockId, offsetInBlock, offsetInChunk := addr.blockId, addr.offset + L.HEADER_SIZE, 0;
      header, pos := h, 0;
      RestIsRead(env, store, addr, h, h.remaining);
    }

    /** Reads up to `n` bytes; fails when the chain is broken. */
    method Read(n: nat) returns (r: Option<seq<byte>>)
      requires Valid()
      modifies this
      ensures r.None? ==> old(Rest()).None?
      ensures r.Some? ==>
                && Valid() && |r.value| == Min(n, size - old(pos)) && pos == old(pos) + |r.value|
                && old(Rest()) == Prepend(r.value, Rest())
    {
      hide L.LoadNextHeader, RestOf;
      var total := Min(n, size - pos);
      var buffer := [];
      ghost var goal := Rest();
      PrependNothing(goal);
      if total == 0 {
        return Some([]);
      }
      while true
        invariant Valid() && |buffer| < total <= size - old(pos) && pos == old(pos) + |buffer|
        invariant goal == Prepend(buffer, Rest())
        decreases size - pos, if header.length == offsetInChunk then 1 else 0
      {
        var available := header.length - offsetInChunk;
        if available > 0 {
          var k := Min(available, total - |buffer|);
          var piece := store.blocks[blockId].data[offsetInBlock..offsetInBlock + k];
          PieceOfRest(env, store, blockId, offsetInBlock, offsetInChunk, header, size - pos, k);
          offsetInBlock, offsetInChunk, pos := offsetInBlock + k, offsetInChunk + k, pos + k;
          PrependTwice(buffer, piece, Rest());
          buffer := buffer + piece;
          if |buffer| == total {
            return Some(buffer);
          }
        }
        RestInNextChunk(env, store, blockId, offsetInBlock, header, size - pos);
        if header.nextBlock == 0 {
          return None;
        }
        var next := Address(header.nextBlock, header.nextOffset);
        var g := L.LoadNextHeader(env, store, next, size - pos);
        if g.None? {
          return None;
        }
        blockId, offsetInBlock, offsetInChunk := next.blockId, next.offset + L.HEADER_SIZE, 0;
        header := g.value;
      }
    }
  }

  /** Reading a value buffer by buffer gives the whole value, and fails exactly when reading it at
      once would. */
  method ReadInPieces(env: Env, store: Store, addr: Address, bufferSize: nat) returns (r: Option<seq<byte>>)
    requires bufferSize > 0
    ensures r == L.ReadLob(env, store, addr)
  {
    hide L.LoadHeader, L.ReadLob;
    if L.LoadHeader(env, store, addr).None? {
      assert L.ReadLob(env, store, addr).None? by { NothingToRead(env, store, addr); }
      return None;
    }
    var stream := new Stream(env, store, addr);
    var value := [];
    ghost var goal := L.ReadLob(env, store, addr);
    PrependNothing(goal);
    while stream.pos < stream.size
      invariant stream.Valid() && fresh(stream) && goal == Prepend(value, stream.Rest())
      decreases stream.size - stream.pos
    {
      var piece := stream.Read(bufferSize);
      if piece.None? {
        return None;
      }
      PrependTwice(value, piece.value, stream.Rest());
      value := value + piece.value;
    }
    NothingLeft(stream.env, stream.store, stream.blockId, stream.offsetInBlock, stream.offsetInChunk, stream.header);
    assert value + [] == value;
    r := Some(value);
  }

  lemma NothingLeft(env: Env, store: Store, id: nat, off: nat, done: nat, h: L.Header)
    requires InChunk(store, id, off, done, h)
    ensures RestOf(env, store, id, off, done, h, 0) == Some([])
  {
    assert store.blocks[id].data[off..off] == [];
  }

  lemma NothingToRead(env: Env, store: Store, addr: Address)
    requires L.LoadHeader(env, store, addr).None?
    ensures L.ReadLob(env, store, addr).None?
  {
    hide L.LoadHeader;
  }
}
