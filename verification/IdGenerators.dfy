/** Ids of catalog objects. While the system tables are being created, ids come from temporary
    counters; as soon as the table for a kind of object exists, its own counters take over. */
module IdGenerators {
  import opened Bytes
  import opened TridCounters

  datatype Kind =
    | Tables | ColumnSets | Columns | ColumnDefs | ColumnSetColumns | ConstraintDefs | Constraints
    | ColumnDefConstraints | Indices | IndexColumns

  /** The first user id of each kind. */
  function FirstUserId(k: Kind): (first: nat)
    ensures 2 <= first < UINT32_LIMIT
  {
    match k
    case Tables => 0x1_0000
    case ColumnSets => 0x100_0000
    case Columns => 0x10_0000
    case ColumnDefs => 0x100_0000
    case ColumnSetColumns => 0x1000_0000
    case ConstraintDefs => 0x10_0000
    case Constraints => 0x100_0000
    case ColumnDefConstraints => 0x1000_0000
    case Indices => 0x100_0000
    case IndexColumns => 0x1000_0000
  }

  /** Ids of tables have 32 bits. */
  function Limit(k: Kind): (limit: nat)
    ensures FirstUserId(k) < limit
  {
    if k == Tables then UINT32_LIMIT - 1 else UINT64_LIMIT
  }

  /** Temporary counters never come near the end of their range. */
  const MAX_TEMPORARY: nat := 0xFFFF_0000

  /** Creating one system table takes less than this many ids. */
  const PARTS_LIMIT: nat := 0x10_0000

  datatype Draw = Draw(kind: Kind, system: bool, id: nat)

  /** How many ids of a kind and range the log holds. */
  function Count(log: seq<Draw>, k: Kind, system: bool): nat {
    if log == [] then 0
    else
      var d := log[|log| - 1];
      Count(log[..|log| - 1], k, system) + if d.kind == k && d.system == system then 1 else 0
  }

  function First(k: Kind, system: bool): nat {
    if system then 1 else FirstUserId(k)
  }

  /** Every id is the next one of its kind and range. */
  ghost predicate InOrder(log: seq<Draw>) {
    forall i :: 0 <= i < |log| ==>
      log[i].id == First(log[i].kind, log[i].system) + Count(log[..i], log[i].kind, log[i].system)
  }

  lemma {:induction false} CountGrows(log: seq<Draw>, i: nat, j: nat, k: Kind, system: bool)
    requires i <= j <= |log|
    ensures Count(log[..i], k, system) <= Count(log[..j], k, system)
    ensures i < j && log[i].kind == k && log[i].system == system ==>
              Count(log[..i], k, system) < Count(log[..j], k, system)
    decreases j
  {
    if i == j {
    } else {
      assert log[..j][..j - 1] == log[..j - 1];
      CountGrows(log, i, j - 1, k, system);
    }
  }

  lemma {:induction false} CountAtMost(log: seq<Draw>, k: Kind, system: bool)
    ensures Count(log, k, system) <= |log|
  {
    if log == [] {
    } else {
      CountAtMost(log[..|log| - 1], k, system);
    }
  }

  lemma CountOneMore(log: seq<Draw>, d: Draw, k: Kind, system: bool)
    ensures Count(log + [d], k, system) == Count(log, k, system) + if d.kind == k && d.system == system then 1 else 0
  {
    assert (log + [d])[..|log|] == log;
  }

  lemma CountsOneMore(log: seq<Draw>, d: Draw)
    ensures forall k: Kind, system: bool ::
              Count(log + [d], k, system) == Count(log, k, system) + if d.kind == k && d.system == system then 1 else 0
  {
    forall k: Kind, system: bool
      ensures Count(log + [d], k, system) == Count(log, k, system) + if d.kind == k && d.system == system then 1 else 0
    {
      CountOneMore(log, d, k, system);
    }
  }

  lemma InOrderOneMore(log: seq<Draw>, d: Draw)
    requires InOrder(log) && d.id == First(d.kind, d.system) + Count(log, d.kind, d.system)
    ensures InOrder(log + [d])
  {
    var log' := log + [d];
    forall i | 0 <= i < |log'|
      ensures log'[i].id == First(log'[i].kind, log'[i].system) + Count(log'[..i], log'[i].kind, log'[i].system)
    {
      assert i < |log| ==> log'[..i] == log[..i];
      assert log'[..|log|] == log;
    }
  }

  /** What has been drawn, without the ids. */
  function KindsOf(log: seq<Draw>): seq<(Kind, bool)> {
    seq(|log|, i requires 0 <= i < |log| => (log[i].kind, log[i].system))
  }

  function SystemKinds(kinds: seq<Kind>): seq<(Kind, bool)> {
    seq(|kinds|, i requires 0 <= i < |kinds| => (kinds[i], true))
  }

  /** What the creation of tables with these parts draws. */
  function DrawnFor(parts: seq<seq<Kind>>): seq<(Kind, bool)> {
    if parts == [] then [] else DrawnFor(parts[..|parts| - 1]) + SystemKinds([Tables] + parts[|parts| - 1])
  }

  lemma DrawnForStep(parts: seq<seq<Kind>>, n: nat, before: seq<(Kind, bool)>)
    requires n < |parts|
    ensures before + DrawnFor(parts[..n + 1]) == before + DrawnFor(parts[..n]) + SystemKinds([Tables] + parts[n])
  {
    hide SystemKinds;
    assert parts[..n + 1][..n] == parts[..n];
  }

  lemma NothingDrawn(parts: seq<seq<Kind>>, before: seq<(Kind, bool)>)
    ensures before + DrawnFor(parts[..0]) == before
  {
  }

  // ---- Room in the system range ----

  /** The system range of kind `k` has room for all that is drawn. */
  ghost predicate HasRoom(drawn: seq<(Kind, bool)>, k: Kind) {
    multiset(drawn)[(k, true)] < FirstUserId(k)
  }

  ghost predicate AllHaveRoom(drawn: seq<(Kind, bool)>) {
    forall k: Kind :: HasRoom(drawn, k)
  }

  lemma {:induction false} CountIsMultiplicity(log: seq<Draw>, k: Kind, system: bool)
    ensures Count(log, k, system) == multiset(KindsOf(log))[(k, system)]
  {
    if log == [] {
    } else {
      var rest, d := log[..|log| - 1], log[|log| - 1];
      CountIsMultiplicity(rest, k, system);
      assert KindsOf(log) == KindsOf(rest) + [(d.kind, d.system)];
    }
  }

  /** What has been drawn leaves no more room than a part of it. */
  lemma LessRoom(drawn: seq<(Kind, bool)>, more: seq<(Kind, bool)>, k: Kind)
    ensures HasRoom(drawn + more, k) ==> HasRoom(drawn, k)
  {
    assert multiset(drawn + more) == multiset(drawn) + multiset(more);
  }

  /** One more draw takes the last room. */
  lemma LastRoom(drawn: seq<(Kind, bool)>, k: Kind)
    requires multiset(drawn)[(k, true)] == FirstUserId(k) - 1
    ensures !HasRoom(drawn + [(k, true)], k)
  {
    hide FirstUserId;
    assert multiset(drawn + [(k, true)]) == multiset(drawn) + multiset{(k, true)};
  }

  lemma SystemKindsSplit(kinds: seq<Kind>, n: nat)
    requires n < |kinds|
    ensures SystemKinds(kinds) == SystemKinds(kinds[..n]) + [(kinds[n], true)] + SystemKinds(kinds[n + 1..])
  {
  }

  /** A draw that finds no room shows that there is none for all that is to be drawn. */
  lemma NoRoomAtDraw(log: seq<Draw>, before: seq<(Kind, bool)>, kinds: seq<Kind>, n: nat)
    requires n < |kinds| && KindsOf(log) == before + SystemKinds(kinds[..n])
    requires Count(log, kinds[n], true) == FirstUserId(kinds[n]) - 1
    ensures !HasRoom(before + SystemKinds(kinds), kinds[n])
  {
    hide Count, FirstUserId, SystemKinds, HasRoom, KindsOf;
    var k := kinds[n];
    CountIsMultiplicity(log, k, true);
    LastRoom(KindsOf(log), k);
    SystemKindsSplit(kinds, n);
    LessRoom(KindsOf(log) + [(k, true)], SystemKinds(kinds[n + 1..]), k);
    assert before + SystemKinds(kinds) == KindsOf(log) + [(k, true)] + SystemKinds(kinds[n + 1..]);
  }

  lemma {:induction false} MoreTables(before: seq<(Kind, bool)>, parts: seq<seq<Kind>>, n: nat, k: Kind)
    requires n <= |parts| && !HasRoom(before + DrawnFor(parts[..n]), k)
    ensures !AllHaveRoom(before + DrawnFor(parts))
  {
    hide HasRoom, SystemKinds;
    if n == |parts| {
      assert parts[..n] == parts;
    } else {
      var rest := parts[..|parts| - 1];
      assert rest[..n] == parts[..n];
      MoreTables(before, rest, n, k);
      var last := SystemKinds([Tables] + parts[|parts| - 1]);
      var k' :| !HasRoom(before + DrawnFor(rest), k');
      LessRoom(before + DrawnFor(rest), last, k');
      assert before + DrawnFor(parts) == before + DrawnFor(rest) + last;
    }
  }

  /** Where the ids of a kind come from. */
  datatype Source = Temporary(last: nat) | Table(counters: Counters)

  /** Draws the next id. A table id beyond 32 bits is used up but refused. */
  function Next(src: Source, k: Kind, system: bool): (Source, Option<nat>)
    requires src.Table? || system
  {
    match src
    case Temporary(last) => (Temporary(last + 1), Checked(k, last + 1))
    case Table(c) =>
      match if system then DrawSystem(c) else DrawUser(c)
      case Exhausted => (src, None)
      case Drawn(d, id) => (Table(d), Checked(k, id))
  }

  function Checked(k: Kind, id: nat): Option<nat> {
    if k == Tables && id >= UINT32_LIMIT - 1 then None else Some(id)
  }

  /** The source of a kind agrees with the number of ids drawn so far. */
  ghost predicate Agrees(src: Source, k: Kind, systemIds: nat, userIds: nat) {
    match src
    case Temporary(last) => last == systemIds && userIds == 0
    case Table(c) =>
      && c.first == FirstUserId(k) && c.lastSystem == systemIds < c.first && c.lastUser < UINT64_LIMIT
      && FirstUserId(k) + userIds == Min(c.lastUser + 1, Limit(k))
  }

  lemma NextAgrees(src: Source, k: Kind, system: bool, systemIds: nat, userIds: nat)
    requires Agrees(src, k, systemIds, userIds) && (src.Table? || (system && src.last < MAX_TEMPORARY))
    ensures var (src', r) := Next(src, k, system);
            && (r.None? ==> Agrees(src', k, systemIds, userIds))
            && (r.Some? && system ==> r.value == 1 + systemIds && Agrees(src', k, systemIds + 1, userIds))
            && (r.Some? && !system ==> r.value == FirstUserId(k) + userIds && Agrees(src', k, systemIds, userIds + 1))
            && (src'.Table? <==> src.Table?) && (src.Temporary? ==> src' == Temporary(src.last + 1))
    ensures Next(src, k, system).1.None? <==>
              src.Table? && if system then systemIds == FirstUserId(k) - 1 else FirstUserId(k) + userIds == Limit(k)
  {
    hide FirstUserId, DrawSystem, DrawUser;
    if src.Table? {
      SystemDraw(src.counters);
      UserDraw(src.counters);
    }
  }

  lemma TemporaryIsCount(src: Source, k: Kind, systemIds: nat, userIds: nat)
    requires Agrees(src, k, systemIds, userIds)
    ensures src.Temporary? ==> src.last == systemIds
  {
  }

  class Generators {
    var sources: map<Kind, Source>
    ghost var log: seq<Draw>

    ghost predicate Valid()
      reads this
    {
      && InOrder(log)
      && forall k: Kind :: k in sources && Agrees(sources[k], k, Count(log, k, true), Count(log, k, false))
    }

    constructor ()
      ensures Valid() && log == [] && forall k: Kind :: sources[k] == Temporary(0)
    {
      sources := map[Tables := Temporary(0), ColumnSets := Temporary(0), Columns := Temporary(0),
                     ColumnDefs := Temporary(0), ColumnSetColumns := Temporary(0), ConstraintDefs := Temporary(0),
                     Constraints := Temporary(0), ColumnDefConstraints := Temporary(0), Indices := Temporary(0),
                     IndexColumns := Temporary(0)];
      log := [];
      new;
      forall k: Kind ensures k in sources && sources[k] == Temporary(0) {
        match k
        case Tables =>
        case _ =>
      }
    }

    /** Draws an id of kind `k` in the system or the user range; refuses when the range is used up. */
    method GenerateNextId(k: Kind, system: bool) returns (r: Option<nat>)
      requires Valid()
      requires sources[k].Table? || (system && |log| < MAX_TEMPORARY)
      modifies this
      ensures Valid()
      ensures forall j: Kind :: (sources[j].Table? <==> old(sources)[j].Table?)
                                && (j != k ==> sources[j] == old(sources)[j])
      ensures old(sources)[k].Temporary? ==> sources[k] == Temporary(old(sources)[k].last + 1)
      ensures log == if r.Some? then old(log) + [Draw(k, system, r.value)] else old(log)
      ensures r.None? <==>
                old(sources)[k].Table?
                && if system then Count(old(log), k, true) == FirstUserId(k) - 1
                   else FirstUserId(k) + Count(old(log), k, false) == Limit(k)
    {
      hide Count, InOrder, Agrees, Next, FirstUserId, Limit;
      ghost var n, m := Count(log, k, true), Count(log, k, false);
      CountAtMost(log, k, true);
      TemporaryIsCount(sources[k], k, n, m);
      NextAgrees(sources[k], k, system, n, m);
      var (src, id) := Next(sources[k], k, system);
      sources := sources[k := src];
      r := id;
      if r.Some? {
        InOrderOneMore(log, Draw(k, system, r.value));
        CountsOneMore(log, Draw(k, system, r.value));
        log := log + [Draw(k, system, r.value)];
      }
    }

    /** The table for kind `k` is created and takes over from the temporary counter. */
    method HandOver(k: Kind) returns (ok: bool)
      requires Valid() && sources[k].Temporary?
      modifies this`sources
      ensures Valid() && (!ok ==> sources == old(sources))
      ensures ok ==> sources[k].Table? && forall j: Kind :: j != k ==> sources[j] == old(sources)[j]
      ensures ok <==> old(sources)[k].last < FirstUserId(k)
    {
      hide Count, FirstUserId;
      var c := NewCounters(FirstUserId(k));
      var moved := SetLastSystem(c, sources[k].last);
      if moved.None? {
        return false;
      }
      sources := sources[k := Table(moved.value)];
      ok := true;
    }

    /** SYS_TABLES takes over by drawing one id that is thrown away, which stands for the id that the
        temporary counter gave to SYS_TABLES itself. */
    method HandOverTables()
      requires Valid() && sources[Tables] == Temporary(1)
      modifies this`sources
      ensures Valid() && sources[Tables].Table? && forall j: Kind :: j != Tables ==> sources[j] == old(sources)[j]
    {
      hide Count;
      var c := NewCounters(FirstUserId(Tables));
      match DrawSystem(c)
      case Drawn(d, _) =>
        sources := sources[Tables := Table(d)];
    }

    /** Creates a system table: draws its table id and then whatever ids its parts need. */
    method CreateTable(parts: seq<Kind>) returns (ok: bool)
      requires Valid() && forall j :: 0 <= j < |parts| ==> parts[j] != Tables
      requires |log| + |parts| + 1 < MAX_TEMPORARY
      modifies this
      ensures Valid() && forall k: Kind :: sources[k].Table? <==> old(sources)[k].Table?
      ensures ok && old(sources)[Tables].Temporary? ==> sources[Tables] == Temporary(old(sources)[Tables].last + 1)
      ensures old(log) <= log && |log| <= |old(log)| + |parts| + 1
      ensures ok ==> KindsOf(log) == KindsOf(old(log)) + SystemKinds([Tables] + parts)
      ensures ok <==> forall k: Kind ::
                old(sources)[k].Table? ==> HasRoom(KindsOf(old(log)) + SystemKinds([Tables] + parts), k)
    {
      hide Count, InOrder, Agrees, FirstUserId, HasRoom;
      var id := GenerateNextId(Tables, true);
      if id.None? {
        NoRoomAtDraw(log, KindsOf(log), [Tables] + parts, 0);
        return false;
      }
      ghost var own := sources[Tables];
      var n := 0;
      while n < |parts|
        invariant n <= |parts| && Valid() && old(log) <= log && |log| == |old(log)| + n + 1 && sources[Tables] == own
        invariant KindsOf(log) == KindsOf(old(log)) + SystemKinds([Tables] + parts[..n])
        invariant forall k: Kind :: sources[k].Table? <==> old(sources)[k].Table?
      {
        ghost var before := log;
        id := GenerateNextId(parts[n], true);
        if id.None? {
          assert ([Tables] + parts)[..n + 1] == [Tables] + parts[..n];
          NoRoomAtDraw(log, KindsOf(old(log)), [Tables] + parts, n + 1);
          return false;
        }
        assert KindsOf(log) == KindsOf(before) + [(parts[n], true)];
        assert SystemKinds([Tables] + parts[..n + 1]) == SystemKinds([Tables] + parts[..n]) + [(parts[n], true)];
        n := n + 1;
      }
      assert parts[..n] == parts;
      TablesHaveRoom();
      ok := true;
    }

    /** A kind that has its table has room for what was drawn. */
    lemma TablesHaveRoom()
      requires Valid()
      ensures forall k: Kind :: sources[k].Table? ==> HasRoom(KindsOf(log), k)
    {
      hide Count, InOrder, KindsOf, FirstUserId;
      forall k: Kind | sources[k].Table?
        ensures HasRoom(KindsOf(log), k)
      {
        CountIsMultiplicity(log, k, true);
      }
    }

    /** Creates the system tables of a database one after another. `parts[i]` are the kinds of the
        ids that the parts of table `i` need. */
    method CreateSystemTables(parts: seq<seq<Kind>>) returns (ok: bool)
      requires Valid() && sources[Tables] == Temporary(0) && forall k: Kind :: sources[k].Temporary?
      requires |parts| == |ORDER| + 2 && |log| < PARTS_LIMIT
      requires forall i :: 0 <= i < |parts| ==> |parts[i]| < PARTS_LIMIT && Tables !in parts[i]
      modifies this
      ensures Valid() && old(log) <= log
      ensures ok ==> KindsOf(log) == KindsOf(old(log)) + DrawnFor(parts) && forall k: Kind :: sources[k].Table?
      ensures ok <==> AllHaveRoom(KindsOf(old(log)) + DrawnFor(parts))
    {
      hide Count, InOrder, Agrees, KindsOf, SystemKinds, DrawnFor, HasRoom, FirstUserId;
      NothingDrawn(parts, KindsOf(log));
      // Cannot fail: the ids of all kinds still come from temporary counters
      ok := CreateTable(parts[0]);
      HandOverTables();
      ghost var log1 := log;
      ok := CreateTable(parts[1]);
      if !ok {
        ghost var k: Kind :| !HasRoom(KindsOf(log1) + SystemKinds([Tables] + parts[1]), k);
        DrawnForStep(parts, 0, KindsOf(old(log)));
        DrawnForStep(parts, 1, KindsOf(old(log)));
        assert KindsOf(log1) + SystemKinds([Tables] + parts[1]) == KindsOf(old(log)) + DrawnFor(parts[..2]);
        MoreTables(KindsOf(old(log)), parts, 2, k);
        return;
      }
      DrawnForStep(parts, 0, KindsOf(old(log)));
      DrawnForStep(parts, 1, KindsOf(old(log)));
      ok := HandOverOthers(parts, KindsOf(old(log)));
    }

    /** Creates the table for kind `k`, which then takes over. */
    method CreateTableFor(k: Kind, parts: seq<Kind>) returns (ok: bool)
      requires Valid() && sources[k].Temporary? && Tables !in parts && |log| + |parts| + 1 < MAX_TEMPORARY
      modifies this
      ensures Valid() && old(log) <= log && |log| <= |old(log)| + |parts| + 1
      ensures ok ==> KindsOf(log) == KindsOf(old(log)) + SystemKinds([Tables] + parts)
      ensures ok ==> forall j: Kind :: sources[j].Table? <==> j == k || old(sources)[j].Table?
      ensures ok <==> forall j: Kind ::
                j == k || old(sources)[j].Table? ==> HasRoom(KindsOf(old(log)) + SystemKinds([Tables] + parts), j)
    {
      hide Count, InOrder, Agrees, KindsOf, SystemKinds, HasRoom, FirstUserId;
      ok := CreateTable(parts);
      if ok {
        TemporaryHasRoom(k);
        ok := HandOver(k);
      }
    }

    /** A temporary counter can be handed over exactly when the system range has room for what was
        drawn. */
    lemma TemporaryHasRoom(k: Kind)
      requires Valid() && sources[k].Temporary?
      ensures sources[k].last < FirstUserId(k) <==> HasRoom(KindsOf(log), k)
    {
      hide Count, InOrder, KindsOf, FirstUserId;
      CountIsMultiplicity(log, k, true);
    }

    /** Creates the tables after the first two, each of which takes over for its kind. */
    method HandOverOthers(parts: seq<seq<Kind>>, ghost before: seq<(Kind, bool)>) returns (ok: bool)
      requires Valid() && sources[Tables].Table? && forall k: Kind :: sources[k].Table? ==> k == Tables
      requires |parts| == |ORDER| + 2 && |log| < 3 * PARTS_LIMIT && KindsOf(log) == before + DrawnFor(parts[..2])
      requires forall i :: 0 <= i < |parts| ==> |parts[i]| < PARTS_LIMIT && Tables !in parts[i]
      modifies this
      ensures Valid() && old(log) <= log
      ensures ok ==> KindsOf(log) == before + DrawnFor(parts) && forall k: Kind :: sources[k].Table?
      ensures ok <==> AllHaveRoom(before + DrawnFor(parts))
    {
      hide Count, InOrder, Agrees, KindsOf, SystemKinds, DrawnFor, HasRoom, FirstUserId;
      var n := 0;
      while n < |ORDER|
        invariant n <= |ORDER| && Valid() && old(log) <= log && |log| < (n + 3) * PARTS_LIMIT
        invariant KindsOf(log) == before + DrawnFor(parts[..n + 2])
        invariant forall k: Kind :: sources[k].Table? <==> k == Tables || k in ORDER[..n]
      {
        OrderHasNoRepeats(n);
        DrawnForStep(parts, n + 2, before);
        ghost var drawn := KindsOf(log);
        ok := CreateTableFor(ORDER[n], parts[n + 2]);
        if !ok {
          ghost var k: Kind :| !HasRoom(drawn + SystemKinds([Tables] + parts[n + 2]), k);
          assert drawn + SystemKinds([Tables] + parts[n + 2]) == before + DrawnFor(parts[..n + 3]);
          MoreTables(before, parts, n + 3, k);
          return;
        }
        assert ORDER[..n + 1] == ORDER[..n] + [ORDER[n]];
        n := n + 1;
      }
      assert ORDER[..n] == ORDER && parts[..n + 2] == parts;
      forall k: Kind ensures sources[k].Table? {
        OrderIsComplete(k);
      }
      TablesHaveRoom();
      ok := true;
    }
  }

  lemma OrderHasNoRepeats(n: nat)
    requires n < |ORDER|
    ensures ORDER[n] !in ORDER[..n] && ORDER[n] != Tables
  {
    assert forall i, j :: 0 <= i < j < 9 ==> ORDER[i] != ORDER[j];
  }

  /** The kinds other than tables, in the order in which their tables are created. */
  const ORDER: seq<Kind> := [ColumnSets, Columns, ColumnDefs, ColumnSetColumns, ConstraintDefs, Constraints,
                             ColumnDefConstraints, Indices, IndexColumns]

  lemma OrderIsComplete(k: Kind)
    ensures k == Tables || k in ORDER
  {
    match k
    case Tables =>
    case ColumnSets => assert ORDER[0] == k;
    case Columns => assert ORDER[1] == k;
    case ColumnDefs => assert ORDER[2] == k;
    case ColumnSetColumns => assert ORDER[3] == k;
    case ConstraintDefs => assert ORDER[4] == k;
    case Constraints => assert ORDER[5] == k;
    case ColumnDefConstraints => assert ORDER[6] == k;
    case Indices => assert ORDER[7] == k;
    case IndexColumns => assert ORDER[8] == k;
  }

  /** All ids ever drawn of one kind are different, across the hand-over; once the table of the kind
      exists, system ids lie below the first user id and user ids do not. */
  lemma DrawnIdsAreDistinct(log: seq<Draw>, src: Source, i: nat, j: nat)
    requires InOrder(log) && i < j < |log| && log[i].kind == log[j].kind
    requires Agrees(src, log[i].kind, Count(log, log[i].kind, true), Count(log, log[i].kind, false)) && src.Table?
    ensures log[i].id != log[j].id
    ensures if log[i].system then 1 <= log[i].id < FirstUserId(log[i].kind) else FirstUserId(log[i].kind) <= log[i].id
  {
    hide Count;
    var k := log[i].kind;
    assert log[..|log|] == log;
    CountGrows(log, i, j, k, log[i].system);
    CountGrows(log, i, |log|, k, log[i].system);
    CountGrows(log, j, |log|, k, log[j].system);
  }
}
