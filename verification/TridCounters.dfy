/** The counters from which a table draws row ids: user ids from the first user id on, system ids
    below it. Both are 64-bit and wrap around. */
module TridCounters {
  import opened Bytes

  const MAX_UINT64: nat := UINT64_LIMIT - 1

  datatype Counters = Counters(first: nat, lastUser: nat, lastSystem: nat)

  /** The outcome of drawing an id: the counters afterwards and the id, or an exhausted range. */
  datatype Drawn = Drawn(counters: Counters, id: nat) | Exhausted

  function NewCounters(first: nat): Counters {
    Counters(first, if first > 0 then first - 1 else 0, if first < 2 then MAX_UINT64 else 0)
  }

  function DrawUser(c: Counters): Drawn {
    if c.lastUser == MAX_UINT64 then Exhausted
    else
      var id := (c.lastUser + 1) % UINT64_LIMIT;
      Drawn(c.(lastUser := id), id)
  }

  function DrawSystem(c: Counters): Drawn {
    if c.lastSystem == (c.first - 1) % UINT64_LIMIT then Exhausted
    else
      var id := (c.lastSystem + 1) % UINT64_LIMIT;
      Drawn(c.(lastSystem := id), id)
  }

  /** Within its range a counter just counts up. */
  lemma SystemDraw(c: Counters)
    requires c.lastSystem < c.first < UINT64_LIMIT
    ensures DrawSystem(c) ==
            if c.lastSystem == c.first - 1 then Exhausted
            else Drawn(c.(lastSystem := c.lastSystem + 1), c.lastSystem + 1)
  {
  }

  lemma UserDraw(c: Counters)
    requires c.lastUser < UINT64_LIMIT
    ensures DrawUser(c) ==
            if c.lastUser == MAX_UINT64 then Exhausted else Drawn(c.(lastUser := c.lastUser + 1), c.lastUser + 1)
  {
  }

  function SetLastSystem(c: Counters, last: nat): (r: Option<Counters>)
    ensures r.None? <==> last >= c.first
  {
    if last >= c.first then None else Some(c.(lastSystem := last))
  }

  function SetLastUser(c: Counters, last: nat): (r: Option<Counters>)
    ensures r.None? <==> last <= c.lastUser
  {
    if last <= c.lastUser then None else Some(c.(lastUser := last))
  }

  // ---- User ids in any order of draws and settings ----

  datatype UserOp = NextUser | SetLast(last: nat)

  /** The counters after `ops` and the user ids drawn on the way. What fails changes nothing. */
  function RunUserOps(c: Counters, ops: seq<UserOp>): (Counters, seq<nat>) {
    if ops == [] then (c, [])
    else
      var (before, ids) := RunUserOps(c, ops[..|ops| - 1]);
      match ops[|ops| - 1]
      case NextUser =>
        (match DrawUser(before)
         case Exhausted => (before, ids)
         case Drawn(after, id) => (after, ids + [id]))
      case SetLast(last) =>
        (match SetLastUser(before, last)
         case None => (before, ids)
         case Some(after) => (after, ids))
  }

  /** However draws and settings of the last user id are mixed, a user id is never handed out twice:
      each one is larger than all before it and than the last one at the start. The system counter
      stays as it is. */
  lemma {:induction false} DrawnUserIdsIncrease(c: Counters, ops: seq<UserOp>)
    requires c.lastUser < UINT64_LIMIT && forall i :: 0 <= i < |ops| && ops[i].SetLast? ==> ops[i].last < UINT64_LIMIT
    ensures var (after, ids) := RunUserOps(c, ops);
            && (forall i :: 0 <= i < |ids| ==> c.lastUser < ids[i] <= after.lastUser)
            && (forall i, j :: 0 <= i < j < |ids| ==> ids[i] < ids[j])
            && after == c.(lastUser := after.lastUser) && c.lastUser <= after.lastUser < UINT64_LIMIT
  {
    if ops == [] {
    } else {
      DrawnUserIdsIncrease(c, ops[..|ops| - 1]);
    }
  }

  /** Draws `n` system ids, or as many as there are. */
  method DrawSystemIds(first: nat, n: nat) returns (ids: seq<nat>)
    requires first < UINT64_LIMIT
    ensures ids == SystemIds(first, n)
  {
    var c := NewCounters(first);
    ids := [];
    while |ids| < n
      invariant |ids| <= n && ids == SystemIds(first, |ids|)
      invariant c.first == first
      invariant c.lastSystem ==
                if first < 2 && ids == [] then MAX_UINT64 else if first == 1 then 0 else |ids|
    {
      match DrawSystem(c)
      case Exhausted => return;
      case Drawn(d, id) =>
        c, ids := d, ids + [id];
    }
  }

  /** The ids that a new table hands out: 1, 2, ... below the first user id, except that a first user
      id of 1 gives the single id 0. */
  function SystemIds(first: nat, n: nat): (ids: seq<nat>) {
    if first == 1 then (if n == 0 then [] else [0])
    else seq(Min(n, if first == 0 then 0 else first - 1), i => i + 1)
  }

  /** System ids lie below the user ids and are not 0, for any number of draws, exactly when the
      first user id is not 1. */
  lemma SystemIdsInRange(first: nat)
    requires first < UINT64_LIMIT
    ensures (forall n, i | 0 <= i < |SystemIds(first, n)| :: 1 <= SystemIds(first, n)[i] < first) <==> first != 1
  {
    if first == 1 {
      assert SystemIds(first, 1)[0] == 0;
    }
  }
}
