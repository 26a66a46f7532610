/** The in-memory registries of a database catalog, which refer to each other by id, and what it
    means that all these references are intact. */
module Catalog {
  import opened Bytes

  datatype TableRecord = TableRecord(name: string, currentColumnSetId: nat)

  datatype ColumnSetColumn = ColumnSetColumn(columnDefinitionId: nat, columnId: nat)

  datatype ColumnSetRecord = ColumnSetRecord(tableId: nat, columns: map<nat, ColumnSetColumn>)

  datatype ColumnRecord = ColumnRecord(tableId: nat, name: string)

  /** `constraints` maps the id of each column definition constraint to the constraint's id. */
  datatype ColumnDefinitionRecord = ColumnDefinitionRecord(columnId: nat, constraints: map<nat, nat>)

  datatype ConstraintRecord = ConstraintRecord(tableId: nat, columnId: nat, definitionId: nat)

  datatype ConstraintDefinitionRecord =
    ConstraintDefinitionRecord(constraintType: nat, expression: seq<byte>, hash: nat)

  /** `columns` maps the id of each index column to its column definition. */
  datatype IndexRecord = IndexRecord(tableId: nat, columns: map<nat, nat>)

  datatype Registries = Registries(
    tables: map<nat, TableRecord>,
    columnSets: map<nat, ColumnSetRecord>,
    columns: map<nat, ColumnRecord>,
    columnDefs: map<nat, ColumnDefinitionRecord>,
    constraints: map<nat, ConstraintRecord>,
    constraintDefs: map<nat, ConstraintDefinitionRecord>,
    indices: map<nat, IndexRecord>)

  // ---- Referential integrity ----

  ghost predicate TableRefers(r: Registries, t: nat)
    requires t in r.tables
  {
    var s := r.tables[t].currentColumnSetId;
    s in r.columnSets && r.columnSets[s].tableId == t
  }

  /** A column set and its columns belong to one table, and each definition belongs to its column. */
  ghost predicate ColumnSetRefers(r: Registries, s: nat)
    requires s in r.columnSets
  {
    && r.columnSets[s].tableId in r.tables
    && forall l :: l in r.columnSets[s].columns ==>
         ColumnSetColumnRefers(r, r.columnSets[s].tableId, r.columnSets[s].columns[l])
  }

  ghost predicate ColumnSetColumnRefers(r: Registries, t: nat, x: ColumnSetColumn) {
    && x.columnId in r.columns && r.columns[x.columnId].tableId == t
    && x.columnDefinitionId in r.columnDefs && r.columnDefs[x.columnDefinitionId].columnId == x.columnId
  }

  ghost predicate DefinitionRefers(r: Registries, d: nat)
    requires d in r.columnDefs
  {
    && r.columnDefs[d].columnId in r.columns
    && forall l :: l in r.columnDefs[d].constraints ==>
         LinkRefers(r, r.columnDefs[d].columnId, r.columnDefs[d].constraints[l])
  }

  ghost predicate LinkRefers(r: Registries, columnId: nat, k: nat) {
    k in r.constraints && r.constraints[k].columnId == columnId
  }

  ghost predicate ConstraintRefers(r: Registries, k: nat)
    requires k in r.constraints
  {
    var x := r.constraints[k];
    && x.tableId in r.tables && x.columnId in r.columns && r.columns[x.columnId].tableId == x.tableId
    && x.definitionId in r.constraintDefs
  }

  ghost predicate IndexRefers(r: Registries, i: nat)
    requires i in r.indices
  {
    && r.indices[i].tableId in r.tables
    && forall l :: l in r.indices[i].columns ==> IndexColumnRefers(r, r.indices[i].tableId, r.indices[i].columns[l])
  }

  ghost predicate IndexColumnRefers(r: Registries, t: nat, d: nat) {
    && d in r.columnDefs
    && r.columnDefs[d].columnId in r.columns && r.columns[r.columnDefs[d].columnId].tableId == t
  }

  ghost predicate Integrity(r: Registries) {
    && (forall t :: t in r.tables ==> TableRefers(r, t))
    && (forall s :: s in r.columnSets ==> ColumnSetRefers(r, s))
    && (forall c :: c in r.columns ==> r.columns[c].tableId in r.tables)
    && (forall d :: d in r.columnDefs ==> DefinitionRefers(r, d))
    && (forall k :: k in r.constraints ==> ConstraintRefers(r, k))
    && (forall i :: i in r.indices ==> IndexRefers(r, i))
  }

  // ---- What belongs to a table ----

  predicate SetOf(r: Registries, t: nat, s: nat) {
    s in r.columnSets && r.columnSets[s].tableId == t
  }

  /** Column `c` is listed in a column set of table `t`. */
  ghost predicate Listed(r: Registries, t: nat, c: nat) {
    c in r.columns && exists s, l :: ListedIn(r, t, c, s, l)
  }

  ghost predicate ListedIn(r: Registries, t: nat, c: nat, s: nat, l: nat) {
    SetOf(r, t, s) && l in r.columnSets[s].columns && r.columnSets[s].columns[l].columnId == c
  }

  ghost predicate DefinitionOf(r: Registries, t: nat, d: nat) {
    d in r.columnDefs && Listed(r, t, r.columnDefs[d].columnId)
  }

  /** Constraint `k` is linked from a definition of a listed column. */
  ghost predicate Linked(r: Registries, t: nat, k: nat) {
    k in r.constraints && exists d, l :: LinkedFrom(r, t, k, d, l)
  }

  ghost predicate LinkedFrom(r: Registries, t: nat, k: nat, d: nat, l: nat) {
    DefinitionOf(r, t, d) && l in r.columnDefs[d].constraints && r.columnDefs[d].constraints[l] == k
  }

  predicate UsedBy(r: Registries, e: nat, k: nat) {
    k in r.constraints && r.constraints[k].definitionId == e
  }

  /** A constraint definition all of whose constraints are linked from the table. */
  ghost predicate Unshared(r: Registries, t: nat, e: nat) {
    && (exists k :: UsedBy(r, e, k) && Linked(r, t, k))
    && (forall k :: UsedBy(r, e, k) ==> Linked(r, t, k))
  }

  /** `u` is `r` after table `t` was dropped. */
  ghost predicate Drops(r: Registries, t: nat, u: Registries) {
    && u.tables == r.tables - {t}
    && u.columnSets == (map s | s in r.columnSets && !SetOf(r, t, s) :: r.columnSets[s])
    && u.columns == (map c | c in r.columns && !Listed(r, t, c) :: r.columns[c])
    && u.columnDefs == (map d | d in r.columnDefs && !DefinitionOf(r, t, d) :: r.columnDefs[d])
    && u.constraints == (map k | k in r.constraints && !Linked(r, t, k) :: r.constraints[k])
    && u.constraintDefs == (map e | e in r.constraintDefs && !Unshared(r, t, e) :: r.constraintDefs[e])
    && u.indices == (map i | i in r.indices && r.indices[i].tableId != t :: r.indices[i])
  }

  /** Everything that refers to the table can be reached from its column sets. */
  ghost predicate Covered(r: Registries, t: nat) {
    && (forall c :: c in r.columns && r.columns[c].tableId == t ==> Listed(r, t, c))
    && (forall k :: k in r.constraints && r.constraints[k].tableId == t ==> Linked(r, t, k))
  }

  lemma ListedIsOfTable(r: Registries, t: nat, c: nat)
    requires Integrity(r) && Listed(r, t, c)
    ensures r.columns[c].tableId == t
  {
    var s, l :| ListedIn(r, t, c, s, l);
    assert ColumnSetRefers(r, s);
    assert ColumnSetColumnRefers(r, t, r.columnSets[s].columns[l]);
  }

  lemma LinkedIsOfTable(r: Registries, t: nat, k: nat)
    requires Integrity(r) && Linked(r, t, k)
    ensures r.constraints[k].tableId == t && Listed(r, t, r.constraints[k].columnId)
  {
    hide Listed;
    var d, l :| LinkedFrom(r, t, k, d, l);
    assert DefinitionRefers(r, d) && LinkRefers(r, r.columnDefs[d].columnId, k);
    ListedIsOfTable(r, t, r.columnDefs[d].columnId);
    assert ConstraintRefers(r, k);
  }

  // ---- Dropping keeps integrity exactly when the table is covered ----

  lemma DropKeepsTable(r: Registries, t: nat, u: Registries, x: nat)
    requires Integrity(r) && Drops(r, t, u) && x in u.tables
    ensures TableRefers(u, x)
  {
    assert TableRefers(r, x);
  }

  lemma DropKeepsColumnSet(r: Registries, t: nat, u: Registries, s: nat)
    requires Integrity(r) && Drops(r, t, u) && s in u.columnSets
    ensures ColumnSetRefers(u, s)
  {
    hide Listed, Linked, Unshared;
    assert ColumnSetRefers(r, s);
    forall l | l in u.columnSets[s].columns
      ensures ColumnSetColumnRefers(u, u.columnSets[s].tableId, u.columnSets[s].columns[l])
    {
      var x := r.columnSets[s].columns[l];
      assert ColumnSetColumnRefers(r, r.columnSets[s].tableId, x);
      if Listed(r, t, x.columnId) {
        ListedIsOfTable(r, t, x.columnId);
      }
    }
  }

  lemma DropKeepsDefinition(r: Registries, t: nat, u: Registries, d: nat)
    requires Integrity(r) && Drops(r, t, u) && d in u.columnDefs
    ensures DefinitionRefers(u, d)
  {
    hide Listed, Linked, Unshared;
    assert DefinitionRefers(r, d);
    forall l | l in u.columnDefs[d].constraints
      ensures LinkRefers(u, u.columnDefs[d].columnId, u.columnDefs[d].constraints[l])
    {
      var k := r.columnDefs[d].constraints[l];
      assert LinkRefers(r, r.columnDefs[d].columnId, k);
      if Linked(r, t, k) {
        LinkedIsOfTable(r, t, k);
      }
    }
  }

  lemma DropKeepsConstraint(r: Registries, t: nat, u: Registries, k: nat)
    requires Integrity(r) && Drops(r, t, u) && k in u.constraints && r.constraints[k].tableId != t
    ensures ConstraintRefers(u, k)
  {
    hide Listed, Linked;
    assert ConstraintRefers(r, k);
    var x := r.constraints[k];
    if Listed(r, t, x.columnId) {
      ListedIsOfTable(r, t, x.columnId);
    }
    assert UsedBy(r, x.definitionId, k) && !Linked(r, t, k);
  }

  lemma DropKeepsIndex(r: Registries, t: nat, u: Registries, i: nat)
    requires Integrity(r) && Drops(r, t, u) && i in u.indices
    ensures IndexRefers(u, i)
  {
    hide Listed, Linked, Unshared;
    assert IndexRefers(r, i);
    forall l | l in u.indices[i].columns
      ensures IndexColumnRefers(u, u.indices[i].tableId, u.indices[i].columns[l])
    {
      var d := r.indices[i].columns[l];
      assert IndexColumnRefers(r, r.indices[i].tableId, d);
      if Listed(r, t, r.columnDefs[d].columnId) {
        ListedIsOfTable(r, t, r.columnDefs[d].columnId);
      }
    }
  }

  /** Dropping a table keeps all references intact exactly when every column and every constraint of
      the table can be reached from its column sets. */
  lemma DropKeepsIntegrity(r: Registries, t: nat, u: Registries)
    requires Integrity(r) && Drops(r, t, u)
    ensures Integrity(u) <==> Covered(r, t)
  {
    hide Listed, Linked, Unshared, TableRefers, ColumnSetRefers, DefinitionRefers, IndexRefers;
    if Covered(r, t) {
      forall x | x in u.tables ensures TableRefers(u, x) { DropKeepsTable(r, t, u, x); }
      forall s | s in u.columnSets ensures ColumnSetRefers(u, s) { DropKeepsColumnSet(r, t, u, s); }
      forall d | d in u.columnDefs ensures DefinitionRefers(u, d) { DropKeepsDefinition(r, t, u, d); }
      forall k | k in u.constraints ensures ConstraintRefers(u, k) { DropKeepsConstraint(r, t, u, k); }
      forall i | i in u.indices ensures IndexRefers(u, i) { DropKeepsIndex(r, t, u, i); }
    }
    if Integrity(u) {
      forall c | c in r.columns && r.columns[c].tableId == t
        ensures Listed(r, t, c)
      {
        if c in u.columns {
          assert false;
        }
      }
      forall k | k in r.constraints && r.constraints[k].tableId == t
        ensures Linked(r, t, k)
      {
        if k in u.constraints {
          assert false;
        }
      }
    }
  }

  /** A table with a column that none of its column sets lists. */
  const UNLISTED := Registries(map[1 := TableRecord("T", 1)], map[1 := ColumnSetRecord(1, map[])],
                               map[5 := ColumnRecord(1, "C")], map[], map[], map[], map[])

  lemma UnlistedColumnIsLeftBehind(u: Registries)
    requires Drops(UNLISTED, 1, u)
    ensures Integrity(UNLISTED) && 5 in u.columns && u.columns[5].tableId !in u.tables
  {
    assert !Listed(UNLISTED, 1, 5);
  }

  // ---- Other tables ----

  /** `u` still holds what `r` holds for table `x`, the constraint definitions that it uses included. */
  ghost predicate SameFor(r: Registries, u: Registries, x: nat) {
    && (x in r.tables <==> x in u.tables) && (x in r.tables ==> u.tables[x] == r.tables[x])
    && (forall s :: SetOf(r, x, s) <==> SetOf(u, x, s))
    && (forall s :: SetOf(r, x, s) ==> u.columnSets[s] == r.columnSets[s])
    && (forall c :: KeepsColumn(r, u, x, c)) && (forall d :: KeepsDefinition(r, u, x, d))
    && (forall k :: KeepsConstraint(r, u, x, k))
    && (forall i :: i in r.indices && r.indices[i].tableId == x ==> i in u.indices && u.indices[i] == r.indices[i])
  }

  ghost predicate KeepsColumn(r: Registries, u: Registries, x: nat, c: nat) {
    c in r.columns && r.columns[c].tableId == x ==> c in u.columns && u.columns[c] == r.columns[c]
  }

  ghost predicate KeepsDefinition(r: Registries, u: Registries, x: nat, d: nat) {
    d in r.columnDefs && r.columnDefs[d].columnId in r.columns && r.columns[r.columnDefs[d].columnId].tableId == x ==>
      d in u.columnDefs && u.columnDefs[d] == r.columnDefs[d]
  }

  /** A constraint stays together with its constraint definition. */
  ghost predicate KeepsConstraint(r: Registries, u: Registries, x: nat, k: nat) {
    k in r.constraints && r.constraints[k].tableId == x ==>
      var e := r.constraints[k].definitionId;
      && k in u.constraints && u.constraints[k] == r.constraints[k]
      && (e in r.constraintDefs ==> e in u.constraintDefs && u.constraintDefs[e] == r.constraintDefs[e])
  }

  /** Dropping table `t` touches nothing of any other table. */
  lemma DropLeavesOthers(r: Registries, t: nat, u: Registries, x: nat)
    requires Integrity(r) && Drops(r, t, u) && x != t
    ensures SameFor(r, u, x)
  {
    hide Integrity, Drops, KeepsColumn, KeepsDefinition, KeepsConstraint;
    forall c ensures KeepsColumn(r, u, x, c) { DropLeavesColumn(r, t, u, x, c); }
    forall d ensures KeepsDefinition(r, u, x, d) { DropLeavesDefinition(r, t, u, x, d); }
    forall k ensures KeepsConstraint(r, u, x, k) { DropLeavesConstraint(r, t, u, x, k); }
    DropLeavesSets(r, t, u, x);
  }

  lemma DropLeavesSets(r: Registries, t: nat, u: Registries, x: nat)
    requires Drops(r, t, u) && x != t
    ensures (x in r.tables <==> x in u.tables) && (x in r.tables ==> u.tables[x] == r.tables[x])
    ensures forall s :: SetOf(r, x, s) <==> SetOf(u, x, s)
    ensures forall s :: SetOf(r, x, s) ==> u.columnSets[s] == r.columnSets[s]
    ensures forall i :: i in r.indices && r.indices[i].tableId == x ==> i in u.indices && u.indices[i] == r.indices[i]
  {
    hide Listed, Linked, Unshared, DefinitionOf;
  }

  lemma DropLeavesColumn(r: Registries, t: nat, u: Registries, x: nat, c: nat)
    requires Integrity(r) && Drops(r, t, u) && x != t
    ensures KeepsColumn(r, u, x, c)
  {
    hide Integrity, Listed, Linked, Unshared, DefinitionOf;
    if Listed(r, t, c) {
      ListedIsOfTable(r, t, c);
    }
  }

  lemma DropLeavesDefinition(r: Registries, t: nat, u: Registries, x: nat, d: nat)
    requires Integrity(r) && Drops(r, t, u) && x != t
    ensures KeepsDefinition(r, u, x, d)
  {
    hide Integrity, Listed, Linked, Unshared;
    if d in r.columnDefs && Listed(r, t, r.columnDefs[d].columnId) {
      ListedIsOfTable(r, t, r.columnDefs[d].columnId);
    }
  }

  lemma DropLeavesConstraint(r: Registries, t: nat, u: Registries, x: nat, k: nat)
    requires Integrity(r) && Drops(r, t, u) && x != t
    ensures KeepsConstraint(r, u, x, k)
  {
    hide Integrity, Listed, Linked, DefinitionOf;
    if Linked(r, t, k) {
      LinkedIsOfTable(r, t, k);
    } else if k in r.constraints {
      assert UsedBy(r, r.constraints[k].definitionId, k);
    }
  }

  /** A constraint definition that the dropped table used is removed exactly when no constraint that
      is left uses it. */
  lemma DropRemovesUnusedDefinitions(r: Registries, t: nat, u: Registries, e: nat)
    requires Drops(r, t, u) && e in r.constraintDefs
    requires exists k :: UsedBy(r, e, k) && Linked(r, t, k)
    ensures e !in u.constraintDefs <==> forall k :: !UsedBy(u, e, k)
  {
    hide Linked;
    if e in u.constraintDefs {
      var k :| UsedBy(r, e, k) && !Linked(r, t, k);
      assert UsedBy(u, e, k);
    } else {
      forall k ensures !UsedBy(u, e, k) {
        assert UsedBy(u, e, k) ==> UsedBy(r, e, k);
      }
    }
  }

  // ---- Runs of drops ----

  ghost predicate Healthy(r: Registries) {
    Integrity(r) && forall t :: t in r.tables ==> Covered(r, t)
  }

  lemma ListedStays(r: Registries, t: nat, u: Registries, x: nat, c: nat)
    requires Integrity(r) && Drops(r, t, u) && x != t && Listed(r, x, c)
    ensures Listed(u, x, c)
  {
    var s, l :| ListedIn(r, x, c, s, l);
    ListedIsOfTable(r, x, c);
    if Listed(r, t, c) {
      ListedIsOfTable(r, t, c);
    }
    assert ListedIn(u, x, c, s, l);
  }

  lemma LinkedStays(r: Registries, t: nat, u: Registries, x: nat, k: nat)
    requires Integrity(r) && Drops(r, t, u) && x != t && Linked(r, x, k)
    ensures Linked(u, x, k)
  {
    hide Listed, Unshared;
    var d, l :| LinkedFrom(r, x, k, d, l);
    var c := r.columnDefs[d].columnId;
    LinkedIsOfTable(r, x, k);
    if Linked(r, t, k) {
      LinkedIsOfTable(r, t, k);
    }
    ListedStays(r, t, u, x, c);
    ListedIsOfTable(r, x, c);
    if Listed(r, t, c) {
      ListedIsOfTable(r, t, c);
    }
    assert LinkedFrom(u, x, k, d, l);
  }

  /** Dropping a table keeps the whole catalog healthy, so tables can be dropped in any order. */
  lemma DropKeepsHealthy(r: Registries, t: nat, u: Registries)
    requires Healthy(r) && t in r.tables && Drops(r, t, u)
    ensures Healthy(u)
  {
    hide Integrity, Listed, Linked, Unshared;
    DropKeepsIntegrity(r, t, u);
    forall x | x in u.tables
      ensures Covered(u, x)
    {
      assert Covered(r, x);
      forall c | c in u.columns && u.columns[c].tableId == x ensures Listed(u, x, c) { ListedStays(r, t, u, x, c); }
      forall k | k in u.constraints && u.constraints[k].tableId == x
        ensures Linked(u, x, k)
      {
        LinkedStays(r, t, u, x, k);
      }
    }
  }
}
