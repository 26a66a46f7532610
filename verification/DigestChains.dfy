/** What the digest of a closed block stands for: the identity of the column and the whole chain of blocks
    down to the first one. */
module DigestChains {
  import opened Bytes
  import opened ColumnStore

  // ---- Integers cut to their width ----

  lemma {:induction false} EncodeCut(n: nat, width: nat)
    ensures EncodeUInt(n, width) == EncodeUInt(n % Range(width), width)
  {
    if width == 0 {
    } else {
      var r := Range(width - 1);
      EncodeCut(n / 256, width - 1);
      CutQuotient(n, r);
    }
  }

  lemma CutQuotient(n: nat, r: nat)
    requires r > 0
    ensures n % (256 * r) % 256 == n % 256 && n % (256 * r) / 256 == n / 256 % r
  {
    var q, low := n / 256, n % 256;
    var hi := q % r;
    assert n == 256 * q + low && q == r * (q / r) + hi;
    assert n == (256 * r) * (q / r) + (256 * hi + low) by {
      assert 256 * (r * (q / r)) == (256 * r) * (q / r);
    }
    assert 256 * hi + low < 256 * r;
    assert n == (q / r) * (256 * r) + (256 * hi + low);
    QuotientIs(n, 256 * r, q / r, 256 * hi + low);
  }

  /** Encodings agree exactly when the numbers agree in their width. */
  lemma EncodedEqually(n: nat, m: nat, width: nat)
    ensures EncodeUInt(n, width) == EncodeUInt(m, width) <==> n % Range(width) == m % Range(width)
  {
    EncodeCut(n, width);
    EncodeCut(m, width);
    UIntRoundTrip(n % Range(width), width);
    UIntRoundTrip(m % Range(width), width);
  }

  // ---- The input of a digest ----

  /** The fields of both blocks fit their encodings. */
  ghost predicate FieldsFit(id: nat, k: Block) {
    id < UINT64_LIMIT && k.stamp < UINT64_LIMIT && k.pos < UINT32_LIMIT && k.pos <= |k.data|
  }

  /** Two columns have the same identity, as far as it goes into digests. */
  predicate SameIdentity(env: Env, env': Env) {
    && env.uuid == env'.uuid && env.tableId % UINT32_LIMIT == env'.tableId % UINT32_LIMIT
    && env.columnId % UINT32_LIMIT == env'.columnId % UINT32_LIMIT
  }

  predicate SameContent(k: Block, k': Block)
    requires k.pos <= |k.data| && k'.pos <= |k'.data|
  {
    k.stamp == k'.stamp && k.pos == k'.pos && k.data[..k.pos] == k'.data[..k'.pos]
  }

  lemma SplitEqually(a: seq<byte>, b: seq<byte>, c: seq<byte>, d: seq<byte>)
    requires |a| == |c| && a + b == c + d
    ensures a == c && b == d
  {
    assert a == (a + b)[..|a|] && c == (c + d)[..|a|];
    assert b == (a + b)[|a|..] && d == (c + d)[|a|..];
  }

  /** The input of a digest, regrouped. */
  lemma InputParts(env: Env, prev: seq<byte>, id: nat, k: Block)
    requires k.pos <= |k.data|
    ensures DigestInput(env, prev, id, k) ==
            prev + (env.uuid + (EncodeUInt(env.tableId, 4) + (EncodeUInt(env.columnId, 4) + (EncodeUInt(id, 8)
            + (EncodeUInt(k.stamp, 8) + (EncodeUInt(k.pos, 4) + k.data[..k.pos]))))))
  {
    hide EncodeUInt;
  }

  /** The bytes that go into the two digests agree part by part. */
  ghost predicate SameParts(env: Env, env': Env, prev: seq<byte>, prev': seq<byte>, id: nat, id': nat, k: Block,
                            k': Block)
    requires k.pos <= |k.data| && k'.pos <= |k'.data|
  {
    && prev == prev' && env.uuid == env'.uuid && EncodeUInt(env.tableId, 4) == EncodeUInt(env'.tableId, 4)
    && EncodeUInt(env.columnId, 4) == EncodeUInt(env'.columnId, 4) && EncodeUInt(id, 8) == EncodeUInt(id', 8)
    && EncodeUInt(k.stamp, 8) == EncodeUInt(k'.stamp, 8) && EncodeUInt(k.pos, 4) == EncodeUInt(k'.pos, 4)
    && k.data[..k.pos] == k'.data[..k'.pos]
  }

  lemma SameInput(env: Env, env': Env, prev: seq<byte>, prev': seq<byte>, id: nat, id': nat, k: Block, k': Block)
    requires |prev| == |prev'| && |env.uuid| == |env'.uuid| && k.pos <= |k.data| && k'.pos <= |k'.data|
    ensures DigestInput(env, prev, id, k) == DigestInput(env', prev', id', k') <==>
            SameParts(env, env', prev, prev', id, id', k, k')
  {
    hide EncodeUInt, DigestInput;
    InputParts(env, prev, id, k);
    InputParts(env', prev', id', k');
    if DigestInput(env, prev, id, k) == DigestInput(env', prev', id', k') {
      PartsAgree(prev, env.uuid, EncodeUInt(env.tableId, 4), EncodeUInt(env.columnId, 4), EncodeUInt(id, 8),
                 EncodeUInt(k.stamp, 8), EncodeUInt(k.pos, 4), k.data[..k.pos],
                 prev', env'.uuid, EncodeUInt(env'.tableId, 4), EncodeUInt(env'.columnId, 4), EncodeUInt(id', 8),
                 EncodeUInt(k'.stamp, 8), EncodeUInt(k'.pos, 4), k'.data[..k'.pos]);
    }
  }

  lemma Fits4(n: nat, m: nat)
    ensures EncodeUInt(n, 4) == EncodeUInt(m, 4) <==> n % UINT32_LIMIT == m % UINT32_LIMIT
  {
    hide EncodeUInt, Range;
    RangeOf4And8();
    EncodedEqually(n, m, 4);
  }

  lemma Fits8(n: nat, m: nat)
    requires n < UINT64_LIMIT && m < UINT64_LIMIT
    ensures EncodeUInt(n, 8) == EncodeUInt(m, 8) <==> n == m
  {
    hide EncodeUInt, Range;
    RangeOf4And8();
    EncodedEqually(n, m, 8);
  }

  /** Nothing that goes into a digest can be exchanged for something else. */
  lemma InputTellsParts(env: Env, env': Env, prev: seq<byte>, prev': seq<byte>, id: nat, id': nat, k: Block, k': Block)
    requires |prev| == |prev'| && |env.uuid| == |env'.uuid| && FieldsFit(id, k) && FieldsFit(id', k')
    ensures DigestInput(env, prev, id, k) == DigestInput(env', prev', id', k') <==>
            prev == prev' && SameIdentity(env, env') && id == id' && SameContent(k, k')
  {
    hide EncodeUInt, DigestInput;
    SameInput(env, env', prev, prev', id, id', k, k');
    Fits4(env.tableId, env'.tableId);
    Fits4(env.columnId, env'.columnId);
    Fits8(id, id');
    Fits8(k.stamp, k'.stamp);
    Fits4(k.pos, k'.pos);
  }

  lemma PartsAgree(a: seq<byte>, b: seq<byte>, c: seq<byte>, d: seq<byte>, e: seq<byte>, f: seq<byte>, g: seq<byte>,
                   h: seq<byte>, a': seq<byte>, b': seq<byte>, c': seq<byte>, d': seq<byte>, e': seq<byte>,
                   f': seq<byte>, g': seq<byte>, h': seq<byte>)
    requires |a| == |a'| && |b| == |b'| && |c| == |c'| && |d| == |d'| && |e| == |e'| && |f| == |f'| && |g| == |g'|
    requires a + (b + (c + (d + (e + (f + (g + h)))))) == a' + (b' + (c' + (d' + (e' + (f' + (g' + h'))))))
    ensures a == a' && b == b' && c == c' && d == d' && e == e' && f == f' && g == g' && h == h'
  {
    SplitEqually(a, b + (c + (d + (e + (f + (g + h))))), a', b' + (c' + (d' + (e' + (f' + (g' + h'))))));
    SplitEqually(b, c + (d + (e + (f + (g + h)))), b', c' + (d' + (e' + (f' + (g' + h')))));
    SplitEqually(c, d + (e + (f + (g + h))), c', d' + (e' + (f' + (g' + h'))));
    SplitEqually(d, e + (f + (g + h)), d', e' + (f' + (g' + h')));
    SplitEqually(e, f + (g + h), e', f' + (g' + h'));
    SplitEqually(f, g + h, f', g' + h');
    SplitEqually(g, h, g', h');
  }

  // ---- Chains of blocks ----

  /** Block `id` is closed in a consistent column. */
  ghost predicate IsClosed(env: Env, s: Store, id: nat) {
    Inv(env, s) && id in s.blocks && s.blocks[id].state == CLOSED
  }

  /** The digest that was there for the predecessor of block `id`. */
  ghost function Prior(env: Env, s: Store, id: nat): seq<byte>
    requires IsClosed(env, s, id)
  {
    PrevDigest(s.blocks, s.blocks[id])
  }

  /** What was hashed for block `id`. */
  ghost function Input(env: Env, s: Store, id: nat): seq<byte>
    requires IsClosed(env, s, id)
  {
    DigestInput(env, PrevDigest(s.blocks, s.blocks[id]), id, s.blocks[id])
  }

  /** Results of the hash function have the length of a digest, and ids and times fit 64 bits. */
  ghost predicate FitsDigests(env: Env, s: Store) {
    && (forall x :: |env.hash(x)| == DIGEST_LENGTH) && env.area < UINT32_LIMIT && s.lastId < UINT64_LIMIT
    && forall id :: id in s.blocks ==> s.blocks[id].stamp < UINT64_LIMIT
  }

  /** The hash function tells the inputs of the two columns apart, from each other and from the digest that
      stands for "no block". */
  ghost predicate TellsApart(env: Env, s: Store, env': Env, s': Store) {
    && (forall i, j :: IsClosed(env, s, i) && IsClosed(env', s', j) ==>
          (env.hash(Input(env, s, i)) == env'.hash(Input(env', s', j)) ==> Input(env, s, i) == Input(env', s', j)))
    && (forall i :: IsClosed(env, s, i) ==> env.hash(Input(env, s, i)) != InitialDigest())
    && (forall j :: IsClosed(env', s', j) ==> env'.hash(Input(env', s', j)) != InitialDigest())
  }

  /** From block `id` down to the first block the two columns have the same blocks with the same used
      bytes and times. */
  ghost predicate ChainsAgree(blocks: map<nat, Block>, blocks': map<nat, Block>, id: nat) {
    && id in blocks && id in blocks'
    && var k, k' := blocks[id], blocks'[id];
       && k.pos <= |k.data| && k'.pos <= |k'.data| && SameContent(k, k') && k.prev == k'.prev
       && (k.prev != 0 ==> k.prev < id && ChainsAgree(blocks, blocks', k.prev))
  }

  /** The digest of a closed block is the hash of its input, and its predecessor is closed as well. */
  lemma ClosedBlock(env: Env, s: Store, id: nat)
    requires IsClosed(env, s, id) && FitsDigests(env, s)
    ensures id in s.blocks
    ensures var k := s.blocks[id];
            && k.digest == env.hash(Input(env, s, id)) && FieldsFit(id, k) && k.prev < id
            && (k.prev != 0 ==> IsClosed(env, s, k.prev))
            && PrevDigest(s.blocks, k) == (if k.prev == 0 then InitialDigest() else s.blocks[k.prev].digest)
  {
    hide Inv, DigestInput;
    BlockIsGood(env, s, id);
  }

  lemma PrevDigestLength(env: Env, s: Store, id: nat)
    requires IsClosed(env, s, id) && FitsDigests(env, s)
    ensures |PrevDigest(s.blocks, s.blocks[id])| == DIGEST_LENGTH
  {
    hide Inv, DigestInput;
    ClosedBlock(env, s, id);
    if s.blocks[id].prev != 0 {
      ClosedBlock(env, s, s.blocks[id].prev);
    }
  }

  /** The inputs of two closed blocks agree exactly when the columns, the ids, the contents and the digests
      of the predecessors do. */
  lemma InputsAgree(env: Env, s: Store, env': Env, s': Store, id: nat, id': nat)
    requires IsClosed(env, s, id) && IsClosed(env', s', id') && FitsDigests(env, s) && FitsDigests(env', s')
    requires |env.uuid| == |env'.uuid|
    ensures s.blocks[id].pos <= |s.blocks[id].data| && s'.blocks[id'].pos <= |s'.blocks[id'].data|
    ensures Input(env, s, id) == Input(env', s', id') <==>
            && Prior(env, s, id) == Prior(env', s', id') && SameIdentity(env, env') && id == id'
            && SameContent(s.blocks[id], s'.blocks[id'])
  {
    hide Inv, DigestInput, PrevDigest, SameIdentity, SameContent, FitsDigests;
    ClosedBlock(env, s, id);
    ClosedBlock(env', s', id');
    PrevDigestLength(env, s, id);
    PrevDigestLength(env', s', id');
    InputTellsParts(env, env', Prior(env, s, id), Prior(env', s', id'), id, id', s.blocks[id], s'.blocks[id']);
  }

  /** Closed blocks of two columns have the same digest if and only if they have the same id, the columns
      have the same identity, and the whole chains below the blocks agree. */
  lemma {:induction false} DigestTellsChain(env: Env, s: Store, env': Env, s': Store, id: nat, id': nat)
    requires IsClosed(env, s, id) && IsClosed(env', s', id') && FitsDigests(env, s) && FitsDigests(env', s')
    requires env.hash == env'.hash && |env.uuid| == |env'.uuid| && TellsApart(env, s, env', s')
    ensures s.blocks[id].digest == s'.blocks[id'].digest <==>
            SameIdentity(env, env') && id == id' && ChainsAgree(s.blocks, s'.blocks, id)
    decreases id
  {
    hide Inv, Input, IsClosed, SameIdentity, SameContent, FitsDigests;
    ClosedBlock(env, s, id);
    ClosedBlock(env', s', id');
    InputsAgree(env, s, env', s', id, id');
    var k, k' := s.blocks[id], s'.blocks[id'];
    assert k.digest == k'.digest <==> Input(env, s, id) == Input(env', s', id');
    if k.prev != 0 && k'.prev != 0 {
      DigestTellsChain(env, s, env', s', k.prev, k'.prev);
    } else if k.prev != 0 {
      ClosedBlock(env, s, k.prev);
    } else if k'.prev != 0 {
      ClosedBlock(env', s', k'.prev);
    }
  }
}
