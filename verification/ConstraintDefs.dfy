/** Sharing of constraint definitions: a definition is looked up by its stored hash and created when
    the lookup finds none with the same type and expression in the same range of ids. */
module ConstraintDefs {
  import opened Bytes
  import opened Catalog
  import opened TridCounters
  import G = IdGenerators
  import F = SystemObjectsFile
  import O = SystemObjects

  const FIRST_USER_ID: nat := G.FirstUserId(G.ConstraintDefs)

  /** The numeric value of the constraint type NOT NULL. */
  const NOT_NULL: nat := 0

  type HashFunction = (nat, seq<byte>) -> nat

  /** The hash of a definition without an expression, as a new record has it. */
  function EmptyHash(hash: HashFunction): nat {
    hash(NOT_NULL, [])
  }

  /** What a caller asks for. */
  datatype Request = Request(system: bool, constraintType: nat, expression: seq<byte>)

  function HashOf(hash: HashFunction, q: Request): nat {
    hash(q.constraintType, q.expression)
  }

  predicate InRange(system: bool, id: nat) {
    (id < FIRST_USER_ID) == system
  }

  /** Definition `id` is one that `q` asks for. */
  predicate Answers(registry: map<nat, ConstraintDefinitionRecord>, q: Request, id: nat) {
    && id in registry && InRange(q.system, id)
    && registry[id].constraintType == q.constraintType && registry[id].expression == q.expression
  }

  /** Definition `id` is one that `q` asks for and lies in the bucket where it is looked for. */
  predicate Hit(hash: HashFunction, registry: map<nat, ConstraintDefinitionRecord>, q: Request, id: nat) {
    Answers(registry, q, id) && registry[id].hash == HashOf(hash, q)
  }

  /** No two definitions answer the same request. */
  ghost predicate Unique(registry: map<nat, ConstraintDefinitionRecord>) {
    forall q, i, j :: Answers(registry, q, i) && Answers(registry, q, j) ==> i == j
  }

  /** No two definitions that can be found answer the same request. */
  ghost predicate UniqueHits(hash: HashFunction, registry: map<nat, ConstraintDefinitionRecord>) {
    forall q, i, j :: Hit(hash, registry, q, i) && Hit(hash, registry, q, j) ==> i == j
  }

  /** Every definition stores its own hash. */
  ghost predicate RightHashes(hash: HashFunction, registry: map<nat, ConstraintDefinitionRecord>) {
    forall id :: id in registry ==> registry[id].hash == hash(registry[id].constraintType, registry[id].expression)
  }

  ghost predicate CanAnswer(registry: map<nat, ConstraintDefinitionRecord>, q: Request) {
    exists id :: Answers(registry, q, id)
  }

  ghost predicate CanFind(hash: HashFunction, registry: map<nat, ConstraintDefinitionRecord>, q: Request) {
    exists id :: Hit(hash, registry, q, id)
  }

  /** The ids in the registry have been drawn from the counters. */
  ghost predicate IdsDrawn(registry: map<nat, ConstraintDefinitionRecord>, c: Counters) {
    && c.first == FIRST_USER_ID && c.lastSystem < FIRST_USER_ID <= c.lastUser + 1 <= UINT64_LIMIT
    && forall id :: id in registry ==> id <= if id < FIRST_USER_ID then c.lastSystem else c.lastUser
  }

  function NewRecord(hash: HashFunction, q: Request): ConstraintDefinitionRecord {
    ConstraintDefinitionRecord(q.constraintType, q.expression, HashOf(hash, q))
  }

  lemma FoundAreUnique(hash: HashFunction, registry: map<nat, ConstraintDefinitionRecord>)
    requires Unique(registry)
    ensures UniqueHits(hash, registry)
  {
    forall q, i, j | Hit(hash, registry, q, i) && Hit(hash, registry, q, j)
      ensures i == j
    {
      assert Answers(registry, q, i) && Answers(registry, q, j);
    }
  }

  lemma RightHashesFind(hash: HashFunction, registry: map<nat, ConstraintDefinitionRecord>, q: Request)
    ensures RightHashes(hash, registry) ==> (CanFind(hash, registry, q) <==> CanAnswer(registry, q))
  {
    if RightHashes(hash, registry) && CanAnswer(registry, q) {
      var id :| Answers(registry, q, id);
      assert Hit(hash, registry, q, id);
    }
  }

  /** Where no definition is there twice, the search never misses one if and only if every definition
      stores its own hash. */
  lemma NothingMissed(hash: HashFunction, registry: map<nat, ConstraintDefinitionRecord>)
    requires Unique(registry)
    ensures (forall q :: CanAnswer(registry, q) ==> CanFind(hash, registry, q)) <==> RightHashes(hash, registry)
  {
    if RightHashes(hash, registry) {
      forall q | CanAnswer(registry, q)
        ensures CanFind(hash, registry, q)
      {
        RightHashesFind(hash, registry, q);
      }
    }
    if forall q :: CanAnswer(registry, q) ==> CanFind(hash, registry, q) {
      forall id | id in registry
        ensures registry[id].hash == hash(registry[id].constraintType, registry[id].expression)
      {
        var q := Request(id < FIRST_USER_ID, registry[id].constraintType, registry[id].expression);
        assert Answers(registry, q, id);
        assert CanFind(hash, registry, q);
        var found :| Hit(hash, registry, q, found);
        assert Answers(registry, q, found);
      }
    }
  }

  lemma OneMoreHit(hash: HashFunction, registry: map<nat, ConstraintDefinitionRecord>, id: nat, q: Request)
    requires id !in registry && InRange(q.system, id) && UniqueHits(hash, registry) && !CanFind(hash, registry, q)
    ensures UniqueHits(hash, registry[id := NewRecord(hash, q)])
    ensures Hit(hash, registry[id := NewRecord(hash, q)], q, id)
  {
    var registry' := registry[id := NewRecord(hash, q)];
    forall p, i, j | Hit(hash, registry', p, i) && Hit(hash, registry', p, j)
      ensures i == j
    {
      assert i != id ==> Hit(hash, registry, p, i);
      assert j != id ==> Hit(hash, registry, p, j);
      assert i == id || j == id ==> p == q;
    }
  }

  lemma OneMoreAnswer(hash: HashFunction, registry: map<nat, ConstraintDefinitionRecord>, id: nat, q: Request)
    requires id !in registry && InRange(q.system, id)
    ensures Unique(registry) ==> (Unique(registry[id := NewRecord(hash, q)]) <==> !CanAnswer(registry, q))
  {
    var registry' := registry[id := NewRecord(hash, q)];
    assert Answers(registry', q, id);
    if CanAnswer(registry, q) {
      var other :| Answers(registry, q, other);
      assert Answers(registry', q, other);
    } else if Unique(registry) {
      forall p, i, j | Answers(registry', p, i) && Answers(registry', p, j)
        ensures i == j
      {
        assert i != id ==> Answers(registry, p, i);
        assert j != id ==> Answers(registry, p, j);
        assert i == id || j == id ==> p == q;
      }
    }
  }

  /** A loaded registry answers what the saved one answered, and finds it exactly when its hash is
      that of an empty definition. */
  lemma LoadedHits(hash: HashFunction, defs: map<nat, ConstraintDefinitionRecord>)
    requires Unique(defs)
    ensures var loaded := F.Restored(O.DefinitionCodec(EmptyHash(hash)), defs);
            && Unique(loaded)
            && (forall q :: CanAnswer(loaded, q) <==> CanAnswer(defs, q))
            && forall q :: CanFind(hash, loaded, q) <==> CanAnswer(defs, q) && HashOf(hash, q) == EmptyHash(hash)
  {
    var loaded := F.Restored(O.DefinitionCodec(EmptyHash(hash)), defs);
    assert forall id :: id in defs ==> loaded[id] == defs[id].(hash := EmptyHash(hash));
    assert forall q, id :: Answers(loaded, q, id) <==> Answers(defs, q, id);
    assert forall q, id :: Hit(hash, loaded, q, id) <==> Answers(defs, q, id) && HashOf(hash, q) == EmptyHash(hash);
    assert Unique(loaded);
  }

  class Definitions {
    const hash: HashFunction
    var registry: map<nat, ConstraintDefinitionRecord>
    var counters: Counters

    /** Stored hashes may be wrong, as they are after the system objects have been loaded. */
    ghost predicate Valid()
      reads this
    {
      IdsDrawn(registry, counters) && UniqueHits(hash, registry)
    }

    constructor (hash: HashFunction)
      ensures Valid() && RightHashes(hash, registry) && registry == map[] && this.hash == hash
    {
      this.hash, registry, counters := hash, map[], NewCounters(FIRST_USER_ID);
    }

    /** The registry of a database that is being opened: what the file of system objects gives back. */
    constructor Loaded(hash: HashFunction, defs: map<nat, ConstraintDefinitionRecord>, counters: Counters)
      requires Unique(defs) && IdsDrawn(defs, counters)
      ensures Valid() && Unique(registry) && this.hash == hash && this.counters == counters
      ensures registry == F.Restored(O.DefinitionCodec(EmptyHash(hash)), defs)
    {
      this.hash, this.counters := hash, counters;
      registry := F.Restored(O.DefinitionCodec(EmptyHash(hash)), defs);
      new;
      LoadedHits(hash, defs);
      FoundAreUnique(hash, registry);
    }

    /** Looks through the definitions with the right stored hash only. */
    method Find(q: Request) returns (r: Option<nat>)
      ensures r.Some? ==> Hit(hash, registry, q, r.value)
      ensures r.Some? <==> CanFind(hash, registry, q)
      ensures (r.Some? <==> CanAnswer(registry, q))
         <==> !CanAnswer(registry, q)
              || exists id :: Answers(registry, q, id) && registry[id].hash == hash(q.constraintType, q.expression)
    {
      var bucket := set id | id in registry && registry[id].hash == HashOf(hash, q);
      while bucket != {}
        invariant forall id :: id in bucket ==> id in registry && registry[id].hash == HashOf(hash, q)
        invariant forall id :: Hit(hash, registry, q, id) ==> id in bucket
      {
        var id :| id in bucket;
        if Answers(registry, q, id) {
          assert Hit(hash, registry, q, id);
          return Some(id);
        }
        bucket := bucket - {id};
      }
      r := None;
      assert forall id :: Answers(registry, q, id) && registry[id].hash == HashOf(hash, q) ==>
                            Hit(hash, registry, q, id);
    }

    /** Returns the definition that is asked for, creating it when none is found. A definition that
        is there already is doubled exactly when none of its kind stores the right hash. */
    method FindOrCreate(q: Request) returns (r: Option<nat>, existing: bool)
      requires Valid()
      modifies this`registry, this`counters
      ensures Valid()
      ensures existing <==> CanFind(hash, old(registry), q)
      ensures r.Some? ==> Hit(hash, registry, q, r.value)
      ensures existing ==> r.Some? && registry == old(registry)
      ensures r.None? ==> registry == old(registry)
      ensures r.None? <==> !existing && if q.system then old(counters).lastSystem == FIRST_USER_ID - 1
                                        else old(counters).lastUser == MAX_UINT64
      ensures !existing && r.Some? ==>
                && r.value !in old(registry)
                && registry == old(registry)[r.value := NewRecord(hash, q)]
      ensures old(RightHashes(hash, registry)) ==> RightHashes(hash, registry)
      ensures r.Some? && old(Unique(registry)) ==>
                (Unique(registry) <==> existing || !CanAnswer(old(registry), q))
    {
      r := Find(q);
      existing := r.Some?;
      if existing {
        return;
      }
      match if q.system then DrawSystem(counters) else DrawUser(counters)
      case Exhausted =>
        return;
      case Drawn(c, id) =>
        counters := c;
        OneMoreHit(hash, registry, id, q);
        OneMoreAnswer(hash, registry, id, q);
        registry := registry[id := NewRecord(hash, q)];
        r := Some(id);
    }

    /** Dropping tables erases definitions. */
    method Erase(ids: set<nat>)
      requires Valid()
      modifies this`registry
      ensures Valid() && registry == old(registry) - ids
      ensures old(RightHashes(hash, registry)) ==> RightHashes(hash, registry)
      ensures old(Unique(registry)) ==> Unique(registry)
    {
      registry := registry - ids;
      assert forall q, i :: Hit(hash, registry, q, i) ==> Hit(hash, old(registry), q, i);
      assert forall q, i :: Answers(registry, q, i) ==> Answers(old(registry), q, i);
    }

    /** In every run of requests, two of them get the same definition exactly when they agree in
        range, type and expression. The run may start with stored hashes that are wrong. */
    method RunRequests(qs: seq<Request>) returns (rs: seq<Option<nat>>)
      requires Valid()
      modifies this`registry, this`counters
      ensures Valid() && |rs| == |qs|
      ensures forall i, j :: 0 <= i < |qs| && 0 <= j < |qs| && rs[i].Some? && rs[j].Some? ==>
                               (rs[i] == rs[j] <==> qs[i] == qs[j])
      ensures old(RightHashes(hash, registry) && Unique(registry)) ==> RightHashes(hash, registry) && Unique(registry)
    {
      rs := [];
      while |rs| < |qs|
        invariant |rs| <= |qs| && Valid()
        invariant forall i :: 0 <= i < |rs| && rs[i].Some? ==> Hit(hash, registry, qs[i], rs[i].value)
        invariant old(RightHashes(hash, registry) && Unique(registry)) ==>
                    RightHashes(hash, registry) && Unique(registry)
      {
        ghost var was := registry;
        var r, existing := FindOrCreate(qs[|rs|]);
        RightHashesFind(hash, was, qs[|rs|]);
        rs := rs + [r];
      }
      forall i, j | 0 <= i < |qs| && 0 <= j < |qs| && rs[i].Some? && rs[j].Some?
        ensures rs[i] == rs[j] <==> qs[i] == qs[j]
      {
        assert Hit(hash, registry, qs[i], rs[i].value) && Hit(hash, registry, qs[j], rs[j].value);
      }
    }
  }

  /** Opening a database asks for a definition that has been loaded. It is found, and not created a
      second time, exactly when its hash is that of an empty definition. */
  method RequestAfterLoading(hash: HashFunction, defs: map<nat, ConstraintDefinitionRecord>, c: Counters, q: Request)
    returns (d: Definitions, r: Option<nat>, existing: bool)
    requires Unique(defs) && IdsDrawn(defs, c) && CanAnswer(defs, q)
    ensures d.Valid() && d.hash == hash
    ensures existing <==> HashOf(hash, q) == EmptyHash(hash)
    ensures r.None? <==> !existing && if q.system then c.lastSystem == FIRST_USER_ID - 1 else c.lastUser == MAX_UINT64
    ensures r.Some? ==> Hit(hash, d.registry, q, r.value) && (existing <==> Answers(defs, q, r.value))
    ensures forall id :: Answers(defs, q, id) ==> Answers(d.registry, q, id)
    ensures r.Some? ==> (Unique(d.registry) <==> HashOf(hash, q) == EmptyHash(hash))
  {
    d := new Definitions.Loaded(hash, defs, c);
    LoadedHits(hash, defs);
    r, existing := d.FindOrCreate(q);
  }
}
