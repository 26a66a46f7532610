/** What a rollback does to each block, in terms of the path from the block in which it starts along the
    predecessors to its target. */
module RollbackPaths {
  import opened ColumnStore

  /** `path` leads from block `first` along predecessors to block `target`. */
  ghost predicate IsPath(blocks: map<nat, Block>, path: seq<nat>, first: nat, target: nat) {
    && |path| > 0 && path[0] == first && path[|path| - 1] == target
    && (forall i :: 0 <= i < |path| ==> path[i] in blocks)
    && (forall i :: 0 < i < |path| ==> path[i] != 0 && blocks[path[i - 1]].prev == path[i])
  }

  ghost predicate Reaches(blocks: map<nat, Block>, first: nat, target: nat) {
    exists path :: IsPath(blocks, path, first, target)
  }

  /** Block `j`, which was `k`, after a walk that emptied the blocks `visited` and set the position in
      block `last`. */
  function WalkedBlock(k: Block, j: nat, visited: seq<nat>, last: nat, offset: nat, keepStamp: bool): Block {
    var e := if j in visited then k.(pos := 0, stamp := 0) else k;
    if j == last then e.(pos := offset, stamp := if keepStamp then e.stamp else 0) else e
  }

  /** The map entries after such a walk. */
  ghost predicate WalkedEntries(env: Env, before: map<nat, nat>, after: map<nat, nat>, visited: seq<nat>, last: nat,
                                offset: nat) {
    && (forall j :: j in after <==> j in before || j in visited || j == last)
    && (forall j :: j in after ==>
          after[j] == if j == last then env.area - offset else if j in visited then env.area else before[j])
  }

  /** The column after the walk along `path`, when block `block` was visited before it. The target, at the
      end of the path, is not visited; the position is set in the block before it. */
  ghost predicate Walked(env: Env, s: Store, t: Store, path: seq<nat>, first: nat, block: nat, offset: nat)
    requires |path| > 0
  {
    var visited, last := path[..|path| - 1], if |path| == 1 then block else path[|path| - 2];
    && t.lastId == s.lastId && t.blocks.Keys == s.blocks.Keys
    && (forall j :: j in s.blocks ==> t.blocks[j] == WalkedBlock(s.blocks[j], j, visited, last, offset, last == first))
    && WalkedEntries(env, s.available, t.available, visited, last, offset)
  }

  lemma PathTail(blocks: map<nat, Block>, path: seq<nat>, first: nat, target: nat)
    requires IsPath(blocks, path, first, target) && first != target
    ensures |path| > 1 && IsPath(blocks, path[1..], blocks[first].prev, target)
    ensures path[..|path| - 1] == [first] + path[1..][..|path| - 2]
  {
    var rest := path[1..];
    assert forall i :: 0 <= i < |rest| ==> rest[i] == path[i + 1];
    assert path[1] == blocks[path[1 - 1]].prev;
    forall i | 0 < i < |rest|
      ensures rest[i] != 0 && blocks[rest[i - 1]].prev == rest[i]
    {
      assert blocks[path[(i + 1) - 1]].prev == path[i + 1];
    }
  }

  lemma PathStays(blocks: map<nat, Block>, blocks': map<nat, Block>, path: seq<nat>, first: nat, target: nat)
    requires IsPath(blocks, path, first, target) && blocks'.Keys == blocks.Keys
    requires forall j :: j in blocks ==> blocks'[j].prev == blocks[j].prev
    ensures IsPath(blocks', path, first, target)
  {
  }

  lemma PathLonger(blocks: map<nat, Block>, path: seq<nat>, first: nat, target: nat)
    requires first in blocks && blocks[first].prev != 0 && IsPath(blocks, path, blocks[first].prev, target)
    ensures IsPath(blocks, [first] + path, first, target)
  {
  }

  /** Paths go down. */
  lemma {:induction false} PathDescends(blocks: map<nat, Block>, path: seq<nat>, first: nat, target: nat)
    requires Descending(blocks) && IsPath(blocks, path, first, target)
    ensures target <= first && (target == first ==> |path| == 1)
    decreases |path|
  {
    if |path| == 1 {
    } else {
      assert blocks[path[1 - 1]].prev == path[1];
      if first == target {
        SuffixIsPath(blocks, path, first, target);
        PathDescends(blocks, path[1..], path[1], target);
      } else {
        PathTail(blocks, path, first, target);
        PathDescends(blocks, path[1..], blocks[first].prev, target);
      }
    }
  }

  lemma SuffixIsPath(blocks: map<nat, Block>, path: seq<nat>, first: nat, target: nat)
    requires IsPath(blocks, path, first, target) && |path| > 1
    ensures IsPath(blocks, path[1..], path[1], target)
  {
    var rest := path[1..];
    assert forall i :: 0 <= i < |rest| ==> rest[i] == path[i + 1];
    forall i | 0 < i < |rest|
      ensures rest[i] != 0 && blocks[rest[i - 1]].prev == rest[i]
    {
      assert blocks[path[(i + 1) - 1]].prev == path[i + 1];
    }
  }

  /** The walk meets its target if and only if there is a path to it. */
  lemma {:induction false} RollReaches(env: Env, s: Store, addr: Address, first: nat, cur: nat, block: nat)
    requires Descending(s.blocks) && cur in s.blocks && block in s.blocks && addr.offset < env.area
    requires addr.blockId in s.blocks
    ensures RollFrom(env, s, addr, first, cur, block).RolledBack? <==> Reaches(s.blocks, cur, addr.blockId)
    decreases cur
  {
    hide RollFrom, Descending, IsPath;
    if cur == addr.blockId {
      RollEnd(env, s, addr, first, block);
      assert IsPath(s.blocks, [cur], cur, addr.blockId) by { OnePath(s.blocks, cur); }
    } else {
      RollStep(env, s, addr, first, cur, block);
      var t := WithBlock(s, cur, s.blocks[cur].(pos := 0, stamp := 0), env.area);
      var prev := s.blocks[cur].prev;
      if prev != 0 {
        RollReaches(env, t, addr, first, prev, cur);
        if Reaches(t.blocks, prev, addr.blockId) {
          var path :| IsPath(t.blocks, path, prev, addr.blockId);
          PathStays(t.blocks, s.blocks, path, prev, addr.blockId);
          PathLonger(s.blocks, path, cur, addr.blockId);
        }
      }
      if Reaches(s.blocks, cur, addr.blockId) {
        var path :| IsPath(s.blocks, path, cur, addr.blockId);
        PathTail(s.blocks, path, cur, addr.blockId);
        PathHead(s.blocks, path[1..], prev, addr.blockId);
        PathStays(s.blocks, t.blocks, path[1..], prev, addr.blockId);
      }
    }
  }

  lemma OnePath(blocks: map<nat, Block>, id: nat)
    requires id in blocks
    ensures IsPath(blocks, [id], id, id)
  {
  }

  lemma PathHead(blocks: map<nat, Block>, path: seq<nat>, first: nat, target: nat)
    requires IsPath(blocks, path, first, target)
    ensures |path| > 0 && path[0] == first && first in blocks && (|path| > 1 ==> blocks[first].prev != 0)
  {
    assert |path| > 1 ==> blocks[path[1 - 1]].prev == path[1];
  }

  // ---- The state after a rollback ----

  lemma VisitedSplit(path: seq<nat>, cur: nat, j: nat)
    requires |path| > 1 && path[0] == cur
    ensures j in path[..|path| - 1] <==> j == cur || j in path[1..][..|path| - 2]
  {
    var rest := path[1..];
    assert path[..|path| - 1] == [cur] + rest[..|path| - 2];
  }

  /** One step of the walk, put before a walk along the rest of the path. */
  lemma WalkLonger(env: Env, s: Store, t: Store, u: Store, path: seq<nat>, first: nat, cur: nat, block: nat,
                   offset: nat)
    requires |path| > 1 && path[0] == cur && cur in s.blocks
    requires t == WithBlock(s, cur, s.blocks[cur].(pos := 0, stamp := 0), env.area)
    requires Walked(env, t, u, path[1..], first, cur, offset)
    ensures Walked(env, s, u, path, first, block, offset)
  {
    var visited, last := path[..|path| - 1], path[|path| - 2];
    var rest := path[1..];
    assert last == if |rest| == 1 then cur else rest[|rest| - 2];
    forall j | j in s.blocks
      ensures u.blocks[j] == WalkedBlock(s.blocks[j], j, visited, last, offset, last == first)
    {
      VisitedSplit(path, cur, j);
      assert u.blocks[j] == WalkedBlock(t.blocks[j], j, rest[..|rest| - 1], last, offset, last == first);
      assert last in visited by { assert visited[|path| - 2] == last; }
    }
    forall j
      ensures j in u.available <==> j in s.available || j in visited || j == last
      ensures j in u.available ==>
                u.available[j] ==
                if j == last then env.area - offset else if j in visited then env.area else s.available[j]
    {
      VisitedSplit(path, cur, j);
    }
  }

  /** The walk does exactly this along every path to its target. */
  lemma {:induction false} RollWalks(env: Env, s: Store, addr: Address, first: nat, cur: nat, block: nat,
                                     path: seq<nat>)
    requires Descending(s.blocks) && cur in s.blocks && block in s.blocks && addr.offset < env.area
    requires IsPath(s.blocks, path, cur, addr.blockId)
    ensures Walked(env, s, RollFrom(env, s, addr, first, cur, block).store, path, first, block, addr.offset)
    decreases cur
  {
    hide RollFrom, Descending, IsPath, Walked;
    if cur == addr.blockId {
      RollEnd(env, s, addr, first, block);
      PathDescends(s.blocks, path, cur, addr.blockId);
      WalkEnds(env, s, RollFrom(env, s, addr, first, cur, block).store, path, first, block, addr.offset);
    } else {
      RollStep(env, s, addr, first, cur, block);
      var t := WithBlock(s, cur, s.blocks[cur].(pos := 0, stamp := 0), env.area);
      PathTail(s.blocks, path, cur, addr.blockId);
      PathHead(s.blocks, path, cur, addr.blockId);
      PathHead(s.blocks, path[1..], s.blocks[cur].prev, addr.blockId);
      PathStays(s.blocks, t.blocks, path[1..], s.blocks[cur].prev, addr.blockId);
      RollWalks(env, t, addr, first, s.blocks[cur].prev, cur, path[1..]);
      WalkLonger(env, s, t, RollFrom(env, s, addr, first, cur, block).store, path, first, cur, block, addr.offset);
    }
  }

  lemma WalkEnds(env: Env, s: Store, t: Store, path: seq<nat>, first: nat, block: nat, offset: nat)
    requires |path| == 1 && block in s.blocks && offset < env.area
    requires var k := s.blocks[block].(pos := offset);
             t == WithBlock(s, block, if block == first then k else k.(stamp := 0), env.area - offset)
    ensures Walked(env, s, t, path, first, block, offset)
  {
  }

  /** The column after all blocks on `path` were emptied. */
  ghost predicate Emptied(env: Env, s: Store, t: Store, path: seq<nat>) {
    && t.lastId == s.lastId && t.blocks.Keys == s.blocks.Keys
    && (forall j :: j in s.blocks ==>
          t.blocks[j] == if j in path then s.blocks[j].(pos := 0, stamp := 0) else s.blocks[j])
    && (forall j :: j in t.available <==> j in s.available || j in path)
    && (forall j :: j in t.available ==> t.available[j] == if j in path then env.area else s.available[j])
  }

  lemma EmptiedLonger(env: Env, s: Store, t: Store, u: Store, cur: nat, path: seq<nat>)
    requires cur in s.blocks && t == WithBlock(s, cur, s.blocks[cur].(pos := 0, stamp := 0), env.area)
    requires Emptied(env, t, u, path)
    ensures Emptied(env, s, u, [cur] + path)
  {
    var longer := [cur] + path;
    assert forall j :: j in longer <==> j == cur || j in path;
  }

  /** A walk that does not meet its target empties all blocks down to the first one of the column. */
  lemma {:induction false} RollRunsOut(env: Env, s: Store, addr: Address, first: nat, cur: nat, block: nat)
    returns (path: seq<nat>, root: nat)
    requires Descending(s.blocks) && cur in s.blocks && block in s.blocks && addr.offset < env.area
    requires RollFrom(env, s, addr, first, cur, block).NotReached?
    ensures IsPath(s.blocks, path, cur, root) && root in s.blocks && s.blocks[root].prev == 0
    ensures Emptied(env, s, RollFrom(env, s, addr, first, cur, block).store, path)
    decreases cur
  {
    hide RollFrom, Descending, IsPath, Emptied;
    if cur == addr.blockId {
      RollEnd(env, s, addr, first, block);
    } else {
      RollStep(env, s, addr, first, cur, block);
      var t := WithBlock(s, cur, s.blocks[cur].(pos := 0, stamp := 0), env.area);
      if s.blocks[cur].prev == 0 {
        path, root := [cur], cur;
        OnePath(s.blocks, cur);
        OneEmptied(env, s, cur);
      } else {
        path, root := RollRunsOut(env, t, addr, first, s.blocks[cur].prev, cur);
        PathStays(t.blocks, s.blocks, path, s.blocks[cur].prev, root);
        PathLonger(s.blocks, path, cur, root);
        EmptiedLonger(env, s, t, RollFrom(env, s, addr, first, cur, block).store, cur, path);
        path := [cur] + path;
      }
    }
  }

  lemma OneEmptied(env: Env, s: Store, cur: nat)
    requires cur in s.blocks
    ensures Emptied(env, s, WithBlock(s, cur, s.blocks[cur].(pos := 0, stamp := 0), env.area), [cur])
  {
  }

  /** There is one path to a target. */
  lemma {:induction false} PathIsUnique(blocks: map<nat, Block>, path: seq<nat>, path': seq<nat>, first: nat,
                                        target: nat)
    requires Descending(blocks) && IsPath(blocks, path, first, target) && IsPath(blocks, path', first, target)
    ensures path == path'
    decreases |path|
  {
    hide IsPath;
    PathDescends(blocks, path, first, target);
    PathDescends(blocks, path', first, target);
    PathHead(blocks, path, first, target);
    PathHead(blocks, path', first, target);
    if first == target {
    } else {
      PathTail(blocks, path, first, target);
      PathTail(blocks, path', first, target);
      PathIsUnique(blocks, path[1..], path'[1..], blocks[first].prev, target);
      assert path == [first] + path[1..] && path' == [first] + path'[1..];
    }
  }

  // ---- Calls ----

  /** A rollback was carried out along the path to its target. */
  ghost predicate RolledBackTo(env: Env, s: Store, t: Store, addr: Address, first: nat) {
    exists path :: IsPath(s.blocks, path, first, addr.blockId) && Walked(env, s, t, path, first, first, addr.offset)
  }

  /** A rollback missed its target and emptied all blocks below the first one. */
  ghost predicate RanOut(env: Env, s: Store, t: Store, first: nat) {
    exists path, root ::
      IsPath(s.blocks, path, first, root) && root in s.blocks && s.blocks[root].prev == 0 && Emptied(env, s, t, path)
  }

  lemma RollMeans(env: Env, s: Store, addr: Address, first: nat)
    requires Descending(s.blocks) && first in s.blocks && addr.blockId in s.blocks && addr.offset < env.area
    ensures var r := RollFrom(env, s, addr, first, first, addr.blockId);
            && (r.RolledBack? <==> Reaches(s.blocks, first, addr.blockId))
            && (r.RolledBack? ==> RolledBackTo(env, s, r.store, addr, first))
            && (r.NotReached? ==> RanOut(env, s, r.store, first))
  {
    hide RollFrom, Descending, IsPath, Emptied, Walked;
    var r := RollFrom(env, s, addr, first, first, addr.blockId);
    RollReaches(env, s, addr, first, first, addr.blockId);
    if r.RolledBack? {
      var path :| IsPath(s.blocks, path, first, addr.blockId);
      PathHead(s.blocks, path, first, addr.blockId);
      RollWalks(env, s, addr, first, first, addr.blockId, path);
      SameWalk(env, s, r.store, path, first, addr.blockId, addr.offset);
    } else {
      var path, root := RollRunsOut(env, s, addr, first, first, addr.blockId);
    }
  }

  lemma SameWalk(env: Env, s: Store, t: Store, path: seq<nat>, first: nat, target: nat, offset: nat)
    requires IsPath(s.blocks, path, first, target) && Walked(env, s, t, path, first, target, offset)
    ensures Walked(env, s, t, path, first, first, offset)
  {
  }

  /** Within one block only its position and its map entry change. */
  lemma RollInBlock(env: Env, s: Store, addr: Address)
    requires Descending(s.blocks) && addr.blockId in s.blocks && addr.offset < env.area
    ensures RollFrom(env, s, addr, addr.blockId, addr.blockId, addr.blockId) ==
            RolledBack(s.(blocks := s.blocks[addr.blockId := s.blocks[addr.blockId].(pos := addr.offset)],
                          available := s.available[addr.blockId := env.area - addr.offset]))
  {
    hide RollFrom, Descending;
    RollEnd(env, s, addr, addr.blockId, addr.blockId);
  }
}
