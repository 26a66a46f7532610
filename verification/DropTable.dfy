/** DROP TABLE: collects everything that hangs on the table, decides which shared constraint
    definitions go with it, and erases the collected records. */
module DropTable {
  import opened Bytes
  import opened Catalog

  /** The collected definitions of a column: definition id, link id, constraint id. */
  type Definitions = map<nat, map<nat, nat>>

  /** The collected columns with their definitions. */
  type Captured = map<nat, Definitions>

  /** The collected constraints under each constraint definition. */
  type Groups = map<nat, set<nat>>

  // ---- What the collecting loops gather ----

  /** `links` are the links of definition `d` that lead to existing constraints. */
  ghost predicate LinksOf(r: Registries, d: nat, links: map<nat, nat>) {
    && d in r.columnDefs
    && (forall l :: l in links <==> l in r.columnDefs[d].constraints && r.columnDefs[d].constraints[l] in r.constraints)
    && (forall l :: l in links ==> links[l] == r.columnDefs[d].constraints[l])
  }

  /** `defs` are the definitions of column `c` with their links. */
  ghost predicate DefinitionsOf(r: Registries, c: nat, defs: Definitions) {
    && (forall d :: d in defs <==> d in r.columnDefs && r.columnDefs[d].columnId == c)
    && (forall d :: d in defs ==> LinksOf(r, d, defs[d]))
  }

  /** `captured` are the listed columns of table `t` with their definitions. */
  ghost predicate ColumnsOf(r: Registries, t: nat, captured: Captured) {
    && (forall c :: c in captured <==> Listed(r, t, c))
    && (forall c :: c in captured ==> DefinitionsOf(r, c, captured[c]))
  }

  /** The constraints in `ks` grouped by their constraint definitions. */
  ghost predicate Grouped(r: Registries, ks: set<nat>, groups: Groups) {
    && (forall k :: k in ks ==> k in r.constraints && r.constraints[k].definitionId in groups)
    && (forall e :: e in groups ==> groups[e] != {})
    && (forall e, k :: e in groups ==> (k in groups[e] <==> k in ks && UsedBy(r, e, k)))
  }

  function ConstraintsIn(defs: Definitions): set<nat> {
    set d, l | d in defs && l in defs[d] :: defs[d][l]
  }

  function AllConstraints(captured: Captured): set<nat> {
    set c, k | c in captured && k in ConstraintsIn(captured[c]) :: k
  }

  function AllDefinitions(captured: Captured): set<nat> {
    set c, d | c in captured && d in captured[c] :: d
  }

  lemma GroupedOneMore(r: Registries, ks: set<nat>, groups: Groups, k: nat)
    requires Grouped(r, ks, groups) && k in r.constraints
    ensures var e := r.constraints[k].definitionId;
            Grouped(r, ks + {k}, groups[e := (if e in groups then groups[e] else {}) + {k}])
  {
  }

  method CaptureLinks(r: Registries, d: nat, groups: Groups, ghost ks: set<nat>)
      returns (links: map<nat, nat>, groups': Groups)
    requires d in r.columnDefs && Grouped(r, ks, groups)
    ensures LinksOf(r, d, links) && Grouped(r, ks + links.Values, groups')
  {
    links, groups' := map[], groups;
    var rest := r.columnDefs[d].constraints.Keys;
    assert ks + links.Values == ks;
    while rest != {}
      invariant rest <= r.columnDefs[d].constraints.Keys
      invariant forall l :: l in links <==>
                  l in r.columnDefs[d].constraints && l !in rest && r.columnDefs[d].constraints[l] in r.constraints
      invariant forall l :: l in links ==> links[l] == r.columnDefs[d].constraints[l]
      invariant Grouped(r, ks + links.Values, groups')
    {
      hide Grouped;
      var l :| l in rest;
      var k := r.columnDefs[d].constraints[l];
      if k in r.constraints {
        ghost var known := ks + links.Values;
        GroupedOneMore(r, known, groups', k);
        ValuesOneMore(links, l, k);
        links := links[l := k];
        var e := r.constraints[k].definitionId;
        groups' := groups'[e := (if e in groups' then groups'[e] else {}) + {k}];
        assert ks + links.Values == known + {k};
      }
      rest := rest - {l};
    }
  }

  lemma ValuesOneMore(m: map<nat, nat>, l: nat, k: nat)
    requires l !in m
    ensures m[l := k].Values == m.Values + {k}
  {
    var n := m[l := k];
    forall v | v in m.Values + {k} ensures v in n.Values {
      if v in m.Values {
        var j :| j in m && m[j] == v;
        assert n[j] == v;
      } else {
        assert n[l] == v;
      }
    }
  }

  method CaptureDefinitions(r: Registries, c: nat, groups: Groups, ghost ks: set<nat>)
      returns (defs: Definitions, groups': Groups)
    requires Grouped(r, ks, groups)
    ensures DefinitionsOf(r, c, defs) && Grouped(r, ks + ConstraintsIn(defs), groups')
  {
    hide Grouped, LinksOf;
    defs, groups' := map[], groups;
    var rest := set d | d in r.columnDefs && r.columnDefs[d].columnId == c;
    assert ks + ConstraintsIn(defs) == ks;
    while rest != {}
      invariant forall d :: d in rest ==> d in r.columnDefs && r.columnDefs[d].columnId == c
      invariant forall d :: d in defs <==> d in r.columnDefs && r.columnDefs[d].columnId == c && d !in rest
      invariant forall d :: d in defs ==> LinksOf(r, d, defs[d])
      invariant Grouped(r, ks + ConstraintsIn(defs), groups')
    {
      var d :| d in rest;
      var links;
      ghost var known := ks + ConstraintsIn(defs);
      links, groups' := CaptureLinks(r, d, groups', known);
      ConstraintsOneMore(defs, d, links);
      defs := defs[d := links];
      assert ks + ConstraintsIn(defs) == known + links.Values;
      rest := rest - {d};
    }
  }

  lemma ConstraintsOneMore(defs: Definitions, d: nat, links: map<nat, nat>)
    requires d !in defs
    ensures ConstraintsIn(defs[d := links]) == ConstraintsIn(defs) + links.Values
  {
    var n := defs[d := links];
    forall k | k in ConstraintsIn(defs) + links.Values ensures k in ConstraintsIn(n) {
      if k in links.Values {
        var l :| l in links && links[l] == k;
        assert n[d][l] == k;
      } else {
        var e, l :| e in defs && l in defs[e] && defs[e][l] == k;
        assert n[e][l] == k;
      }
    }
  }

  /** Adds the columns of column set `s` that exist and are not collected yet. */
  method CaptureColumnSet(r: Registries, t: nat, s: nat, captured: Captured, groups: Groups)
      returns (captured': Captured, groups': Groups)
    requires SetOf(r, t, s) && Grouped(r, AllConstraints(captured), groups)
    requires forall c :: c in captured ==> Listed(r, t, c) && DefinitionsOf(r, c, captured[c])
    ensures Grouped(r, AllConstraints(captured'), groups') && captured.Keys <= captured'.Keys
    ensures forall c :: c in captured' ==> Listed(r, t, c) && DefinitionsOf(r, c, captured'[c])
    ensures forall l :: l in r.columnSets[s].columns && r.columnSets[s].columns[l].columnId in r.columns ==>
              r.columnSets[s].columns[l].columnId in captured'
  {
    hide Grouped, DefinitionsOf, Listed;
    captured', groups' := captured, groups;
    var rest := r.columnSets[s].columns.Keys;
    while rest != {}
      invariant rest <= r.columnSets[s].columns.Keys && captured.Keys <= captured'.Keys
      invariant Grouped(r, AllConstraints(captured'), groups')
      invariant forall c :: c in captured' ==> Listed(r, t, c) && DefinitionsOf(r, c, captured'[c])
      invariant forall l :: l in r.columnSets[s].columns && l !in rest
                            && r.columnSets[s].columns[l].columnId in r.columns ==>
                  r.columnSets[s].columns[l].columnId in captured'
    {
      var l :| l in rest;
      var c := r.columnSets[s].columns[l].columnId;
      if c !in captured' && c in r.columns {
        var defs;
        ghost var known := AllConstraints(captured');
        ListedHere(r, t, c, s, l);
        defs, groups' := CaptureDefinitions(r, c, groups', known);
        AllOneMore(captured', c, defs);
        captured' := captured'[c := defs];
      }
      rest := rest - {l};
    }
  }

  lemma ListedHere(r: Registries, t: nat, c: nat, s: nat, l: nat)
    requires c in r.columns && ListedIn(r, t, c, s, l)
    ensures Listed(r, t, c)
  {
  }

  lemma AllOneMore(captured: Captured, c: nat, defs: Definitions)
    requires c !in captured
    ensures AllConstraints(captured[c := defs]) == AllConstraints(captured) + ConstraintsIn(defs)
  {
    var n := captured[c := defs];
    forall k | k in AllConstraints(captured) + ConstraintsIn(defs) ensures k in AllConstraints(n) {
      if k in ConstraintsIn(defs) {
        assert k in ConstraintsIn(n[c]);
      } else {
        var e :| e in captured && k in ConstraintsIn(captured[e]);
        assert k in ConstraintsIn(n[e]);
      }
    }
  }

  method CaptureColumns(r: Registries, t: nat) returns (sets: set<nat>, captured: Captured, groups: Groups)
    ensures forall s :: s in sets <==> SetOf(r, t, s)
    ensures ColumnsOf(r, t, captured) && Grouped(r, AllConstraints(captured), groups)
  {
    hide Grouped, DefinitionsOf;
    sets, captured, groups := {}, map[], map[];
    var rest := set s | s in r.columnSets && SetOf(r, t, s);
    assert Grouped(r, AllConstraints(captured), groups) by { NothingGrouped(r, captured); }
    while rest != {}
      invariant forall s :: s in rest ==> SetOf(r, t, s)
      invariant forall s :: s in sets <==> SetOf(r, t, s) && s !in rest
      invariant Grouped(r, AllConstraints(captured), groups)
      invariant forall c :: c in captured ==> Listed(r, t, c) && DefinitionsOf(r, c, captured[c])
      invariant forall s, l :: s in sets && l in r.columnSets[s].columns
                               && r.columnSets[s].columns[l].columnId in r.columns ==>
                  r.columnSets[s].columns[l].columnId in captured
    {
      hide Listed;
      var s :| s in rest;
      sets := sets + {s};
      captured, groups := CaptureColumnSet(r, t, s, captured, groups);
      rest := rest - {s};
    }
    forall c | Listed(r, t, c) ensures c in captured {
      var s, l :| ListedIn(r, t, c, s, l);
      assert s in sets && l in r.columnSets[s].columns;
    }
  }

  lemma NothingGrouped(r: Registries, captured: Captured)
    requires captured == map[]
    ensures Grouped(r, AllConstraints(captured), map[])
  {
  }

  /** Keeps the groups that hold all constraints of their constraint definition. */
  method FilterGroups(r: Registries, groups: Groups) returns (kept: Groups)
    ensures forall e :: e in kept <==> e in groups && groups[e] == (set k | k in r.constraints && UsedBy(r, e, k))
  {
    kept := groups;
    var rest := groups.Keys;
    while rest != {}
      invariant rest <= groups.Keys
      invariant forall e :: e in rest ==> e in kept
      invariant forall e :: e in kept ==> e in groups
      invariant forall e :: e in groups && e !in rest ==>
                  (e in kept <==> groups[e] == (set k | k in r.constraints && UsedBy(r, e, k)))
    {
      var e :| e in rest;
      var all := set k | k in r.constraints && UsedBy(r, e, k);
      if all != groups[e] {
        kept := kept - {e};
      }
      rest := rest - {e};
    }
  }

  lemma CapturedConstraints(r: Registries, t: nat, captured: Captured, k: nat)
    requires ColumnsOf(r, t, captured)
    ensures k in AllConstraints(captured) <==> Linked(r, t, k)
  {
    hide Listed;
    if k in AllConstraints(captured) {
      var c :| c in captured && k in ConstraintsIn(captured[c]);
      var d, l :| d in captured[c] && l in captured[c][d] && captured[c][d][l] == k;
      assert LinksOf(r, d, captured[c][d]);
      assert LinkedFrom(r, t, k, d, l);
    }
    if Linked(r, t, k) {
      var d, l :| LinkedFrom(r, t, k, d, l);
      var c := r.columnDefs[d].columnId;
      assert DefinitionsOf(r, c, captured[c]) && LinksOf(r, d, captured[c][d]);
      assert captured[c][d][l] == k;
      assert k in ConstraintsIn(captured[c]);
    }
  }

  lemma CapturedDefinitions(r: Registries, t: nat, captured: Captured, d: nat)
    requires ColumnsOf(r, t, captured)
    ensures d in AllDefinitions(captured) <==> DefinitionOf(r, t, d)
  {
    hide Listed, LinksOf;
    if DefinitionOf(r, t, d) {
      var c := r.columnDefs[d].columnId;
      assert DefinitionsOf(r, c, captured[c]) && d in captured[c];
    }
    if d in AllDefinitions(captured) {
      var c :| c in captured && d in captured[c];
      assert DefinitionsOf(r, c, captured[c]);
    }
  }

  /** The groups that are kept are the constraint definitions that only the table uses. */
  lemma KeptGroups(r: Registries, t: nat, captured: Captured, groups: Groups, e: nat)
    requires ColumnsOf(r, t, captured) && Grouped(r, AllConstraints(captured), groups)
    ensures e in groups && groups[e] == (set k | k in r.constraints && UsedBy(r, e, k)) <==> Unshared(r, t, e)
  {
    hide Linked, ColumnsOf, AllConstraints;
    forall k ensures k in AllConstraints(captured) <==> Linked(r, t, k) { CapturedConstraints(r, t, captured, k); }
    var all := set k | k in r.constraints && UsedBy(r, e, k);
    if e in groups && groups[e] == all {
      var k :| k in groups[e];
      assert UsedBy(r, e, k) && Linked(r, t, k);
      forall j | UsedBy(r, e, j) ensures Linked(r, t, j) { assert j in all; }
    }
    if Unshared(r, t, e) {
      var k :| UsedBy(r, e, k) && Linked(r, t, k);
      assert k in AllConstraints(captured) && e in groups;
      assert forall j :: j in groups[e] <==> j in all;
    }
  }

  class Database {
    var tables: map<nat, TableRecord>
    var columnSets: map<nat, ColumnSetRecord>
    var columns: map<nat, ColumnRecord>
    var columnDefs: map<nat, ColumnDefinitionRecord>
    var constraints: map<nat, ConstraintRecord>
    var constraintDefs: map<nat, ConstraintDefinitionRecord>
    var indices: map<nat, IndexRecord>

    function R(): Registries
      reads this
    {
      Registries(tables, columnSets, columns, columnDefs, constraints, constraintDefs, indices)
    }

    constructor (r: Registries)
      ensures R() == r
    {
      tables, columnSets, columns, columnDefs := r.tables, r.columnSets, r.columns, r.columnDefs;
      constraints, constraintDefs, indices := r.constraints, r.constraintDefs, r.indices;
    }

    method FindTable(name: string) returns (t: Option<nat>)
      ensures t.Some? ==> t.value in tables && tables[t.value].name == name
      ensures t.None? ==> forall x :: x in tables ==> tables[x].name != name
    {
      var rest := tables.Keys;
      while rest != {}
        invariant rest <= tables.Keys
        invariant forall x :: x in tables && x !in rest ==> tables[x].name != name
      {
        var x :| x in rest;
        if tables[x].name == name {
          return Some(x);
        }
        rest := rest - {x};
      }
      t := None;
    }

    method EraseColumns(captured: Captured)
      modifies this`columns, this`columnDefs, this`constraints
      ensures columns == old(columns) - captured.Keys
      ensures columnDefs == old(columnDefs) - AllDefinitions(captured)
      ensures constraints == old(constraints) - AllConstraints(captured)
    {
      hide AllDefinitions, AllConstraints, ConstraintsIn;
      var rest := captured.Keys;
      NothingErased(captured);
      while rest != {}
        invariant rest <= captured.Keys
        invariant columns == old(columns) - (captured.Keys - rest)
        invariant columnDefs == old(columnDefs) - AllDefinitions(captured - rest)
        invariant constraints == old(constraints) - AllConstraints(captured - rest)
      {
        var c :| c in rest;
        columns := columns - {c};
        columnDefs := columnDefs - captured[c].Keys;
        constraints := constraints - ConstraintsIn(captured[c]);
        ErasedOneMore(captured, rest, c);
        MinusTwice(old(columns), captured.Keys - rest, {c});
        MinusTwice(old(columnDefs), AllDefinitions(captured - rest), captured[c].Keys);
        MinusTwice(old(constraints), AllConstraints(captured - rest), ConstraintsIn(captured[c]));
        assert captured.Keys - (rest - {c}) == captured.Keys - rest + {c};
        rest := rest - {c};
      }
      assert captured - rest == captured;
    }

    /** Drops the table with the given name. */
    method Drop(name: string, mustExist: bool) returns (ok: bool)
      modifies this
      ensures (forall x :: x in old(tables) ==> old(tables)[x].name != name) ==> ok == !mustExist && R() == old(R())
      ensures (exists x :: x in old(tables) && old(tables)[x].name == name) ==>
                ok && exists t :: t in old(tables) && old(tables)[t].name == name && Drops(old(R()), t, R())
    {
      var found := FindTable(name);
      if found.None? {
        return !mustExist;
      }
      var t := found.value;
      ghost var r := R();
      var sets, captured, groups := CaptureColumns(R(), t);
      var defsToRemove := FilterGroups(R(), groups);
      var indicesToRemove := set i | i in indices && indices[i].tableId == t;

      indices := indices - indicesToRemove;
      columnSets := columnSets - sets;
      tables := tables - {t};
      EraseColumns(captured);
      constraintDefs := constraintDefs - defsToRemove.Keys;
      ErasedIsDropped(r, t, sets, captured, groups, defsToRemove.Keys, R());
      ok := true;
    }
  }

  lemma MinusTwice<T>(m: map<nat, T>, a: set<nat>, b: set<nat>)
    ensures m - a - b == m - (a + b)
  {
  }

  lemma NothingErased(captured: Captured)
    ensures AllDefinitions(captured - captured.Keys) == {} && AllConstraints(captured - captured.Keys) == {}
  {
  }

  lemma ErasedOneMore(captured: Captured, rest: set<nat>, c: nat)
    requires c in rest && rest <= captured.Keys
    ensures AllDefinitions(captured - (rest - {c})) == AllDefinitions(captured - rest) + captured[c].Keys
    ensures AllConstraints(captured - (rest - {c})) == AllConstraints(captured - rest) + ConstraintsIn(captured[c])
  {
    var m, n := captured - rest, captured - (rest - {c});
    assert n == m[c := captured[c]];
    AllOneMore(m, c, captured[c]);
    forall d | d in AllDefinitions(m) + captured[c].Keys ensures d in AllDefinitions(n) {
      if d in captured[c] {
        assert d in n[c];
      } else {
        var e :| e in m && d in m[e];
        assert d in n[e];
      }
    }
  }

  lemma ErasedIsDropped(r: Registries, t: nat, sets: set<nat>, captured: Captured, groups: Groups, defs: set<nat>,
                        u: Registries)
    requires forall s :: s in sets <==> SetOf(r, t, s)
    requires ColumnsOf(r, t, captured) && Grouped(r, AllConstraints(captured), groups)
    requires forall e :: e in defs <==> e in groups && groups[e] == (set k | k in r.constraints && UsedBy(r, e, k))
    requires u.tables == r.tables - {t} && u.columnSets == r.columnSets - sets && u.columns == r.columns - captured.Keys
    requires u.columnDefs == r.columnDefs - AllDefinitions(captured)
    requires u.constraints == r.constraints - AllConstraints(captured) && u.constraintDefs == r.constraintDefs - defs
    requires u.indices == r.indices - (set i | i in r.indices && r.indices[i].tableId == t)
    ensures Drops(r, t, u)
  {
    hide Listed, Linked, Unshared, Grouped, DefinitionsOf, DefinitionOf, AllConstraints, AllDefinitions;
    forall k ensures k in AllConstraints(captured) <==> Linked(r, t, k) { CapturedConstraints(r, t, captured, k); }
    forall d
      ensures d in AllDefinitions(captured) <==> DefinitionOf(r, t, d)
    {
      CapturedDefinitions(r, t, captured, d);
    }
    forall e ensures e in defs <==> Unshared(r, t, e) { KeptGroups(r, t, captured, groups, e); }
  }
}
