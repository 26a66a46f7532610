/** Saving and loading the system objects of a database, all seven registries in one file. */
module SystemObjects {
  import opened Bytes
  import opened Varint
  import opened Catalog
  import opened SystemObjectsFile
  import G = IdGenerators

  datatype Codecs = Codecs(
    tables: Codec<TableRecord>,
    columnSets: Codec<ColumnSetRecord>,
    columns: Codec<ColumnRecord>,
    columnDefs: Codec<ColumnDefinitionRecord>,
    constraints: Codec<ConstraintRecord>,
    constraintDefs: Codec<ConstraintDefinitionRecord>,
    indices: Codec<IndexRecord>)

  /** The records of the system range. */
  function SystemRecords(r: Registries): Registries {
    Registries(SystemPart(r.tables, G.FirstUserId(G.Tables)),
               SystemPart(r.columnSets, G.FirstUserId(G.ColumnSets)),
               SystemPart(r.columns, G.FirstUserId(G.Columns)),
               SystemPart(r.columnDefs, G.FirstUserId(G.ColumnDefs)),
               SystemPart(r.constraints, G.FirstUserId(G.Constraints)),
               SystemPart(r.constraintDefs, G.FirstUserId(G.ConstraintDefs)),
               SystemPart(r.indices, G.FirstUserId(G.Indices)))
  }

  ghost predicate AllRoundTrip(cs: Codecs, r: Registries) {
    && RoundTrips(cs.tables, r.tables) && RoundTrips(cs.columnSets, r.columnSets)
    && RoundTrips(cs.columns, r.columns) && RoundTrips(cs.columnDefs, r.columnDefs)
    && RoundTrips(cs.constraints, r.constraints) && RoundTrips(cs.constraintDefs, r.constraintDefs)
    && RoundTrips(cs.indices, r.indices)
  }

  ghost predicate AllFitWords(cs: Codecs, r: Registries) {
    && FitsWords(cs.tables, r.tables) && FitsWords(cs.columnSets, r.columnSets)
    && FitsWords(cs.columns, r.columns) && FitsWords(cs.columnDefs, r.columnDefs)
    && FitsWords(cs.constraints, r.constraints) && FitsWords(cs.constraintDefs, r.constraintDefs)
    && FitsWords(cs.indices, r.indices)
  }

  ghost predicate AllFitLimit(cs: Codecs, r: Registries) {
    && FitsLimit(cs.tables, r.tables) && FitsLimit(cs.columnSets, r.columnSets)
    && FitsLimit(cs.columns, r.columns) && FitsLimit(cs.columnDefs, r.columnDefs)
    && FitsLimit(cs.constraints, r.constraints) && FitsLimit(cs.constraintDefs, r.constraintDefs)
    && FitsLimit(cs.indices, r.indices)
  }

  function RestoredAll(cs: Codecs, r: Registries): Registries {
    Registries(Restored(cs.tables, r.tables), Restored(cs.columnSets, r.columnSets), Restored(cs.columns, r.columns),
               Restored(cs.columnDefs, r.columnDefs), Restored(cs.constraints, r.constraints),
               Restored(cs.constraintDefs, r.constraintDefs), Restored(cs.indices, r.indices))
  }

  /** The file holds the seven registries one after another; section `i` ends where the next begins. */
  ghost predicate HoldsSections(cs: Codecs, r: Registries, file: seq<byte>, ends: seq<nat>) {
    && |ends| == 8 && ends[0] == 0
    && SectionAt(cs.tables, r.tables, file, ends[0], ends[1])
    && SectionAt(cs.columnSets, r.columnSets, file, ends[1], ends[2])
    && SectionAt(cs.columns, r.columns, file, ends[2], ends[3])
    && SectionAt(cs.columnDefs, r.columnDefs, file, ends[3], ends[4])
    && SectionAt(cs.constraints, r.constraints, file, ends[4], ends[5])
    && SectionAt(cs.constraintDefs, r.constraintDefs, file, ends[5], ends[6])
    && SectionAt(cs.indices, r.indices, file, ends[6], ends[7])
  }

  ghost predicate Holds(cs: Codecs, r: Registries, file: seq<byte>) {
    exists ends :: HoldsSections(cs, r, file, ends)
  }

  method Save(cs: Codecs, r: Registries) returns (file: seq<byte>)
    ensures Holds(cs, SystemRecords(r), file)
  {
    hide SectionAt, SystemPart;
    var s := new Serializer([]);
    s.Serialize(cs.tables, r.tables, G.FirstUserId(G.Tables));
    ghost var f1, e1 := s.file, s.filePos;
    s.Serialize(cs.columnSets, r.columnSets, G.FirstUserId(G.ColumnSets));
    ghost var f2, e2 := s.file, s.filePos;
    s.Serialize(cs.columns, r.columns, G.FirstUserId(G.Columns));
    ghost var f3, e3 := s.file, s.filePos;
    s.Serialize(cs.columnDefs, r.columnDefs, G.FirstUserId(G.ColumnDefs));
    ghost var f4, e4 := s.file, s.filePos;
    s.Serialize(cs.constraints, r.constraints, G.FirstUserId(G.Constraints));
    ghost var f5, e5 := s.file, s.filePos;
    s.Serialize(cs.constraintDefs, r.constraintDefs, G.FirstUserId(G.ConstraintDefs));
    ghost var f6, e6 := s.file, s.filePos;
    s.Serialize(cs.indices, r.indices, G.FirstUserId(G.Indices));
    file := s.file;
    ghost var ends := [0, e1, e2, e3, e4, e5, e6, s.filePos];
    ghost var u := SystemRecords(r);
    SectionStays(cs.tables, u.tables, f1, file, 0, e1);
    SectionStays(cs.columnSets, u.columnSets, f2, file, e1, e2);
    SectionStays(cs.columns, u.columns, f3, file, e2, e3);
    SectionStays(cs.columnDefs, u.columnDefs, f4, file, e3, e4);
    SectionStays(cs.constraints, u.constraints, f5, file, e4, e5);
    SectionStays(cs.constraintDefs, u.constraintDefs, f6, file, e5, e6);
    assert HoldsSections(cs, u, file, ends);
  }

  /** Loading, section by section; fails when a section cannot be read. */
  method Load(cs: Codecs, file: seq<byte>) returns (r: Option<Registries>)
    ensures r == LoadAll(cs, file)
  {
    hide ReadSection;
    var s := new Serializer(file);
    var tables := s.Deserialize(cs.tables);
    if tables.None? {
      return None;
    }
    var columnSets := s.Deserialize(cs.columnSets);
    if columnSets.None? {
      return None;
    }
    var columns := s.Deserialize(cs.columns);
    if columns.None? {
      return None;
    }
    var columnDefs := s.Deserialize(cs.columnDefs);
    if columnDefs.None? {
      return None;
    }
    var constraints := s.Deserialize(cs.constraints);
    if constraints.None? {
      return None;
    }
    var constraintDefs := s.Deserialize(cs.constraintDefs);
    if constraintDefs.None? {
      return None;
    }
    var indices := s.Deserialize(cs.indices);
    if indices.None? {
      return None;
    }
    r := Some(Registries(tables.value, columnSets.value, columns.value, columnDefs.value, constraints.value,
                         constraintDefs.value, indices.value));
  }

  function LoadAll(cs: Codecs, file: seq<byte>): Option<Registries> {
    var a := ReadSection(cs.tables, file, 0);
    if a.None? then None
    else
      var b := ReadSection(cs.columnSets, file, a.value.1);
      if b.None? then None
      else
        var c := ReadSection(cs.columns, file, b.value.1);
        if c.None? then None
        else
          var d := ReadSection(cs.columnDefs, file, c.value.1);
          if d.None? then None
          else
            var e := ReadSection(cs.constraints, file, d.value.1);
            if e.None? then None
            else
              var f := ReadSection(cs.constraintDefs, file, e.value.1);
              if f.None? then None
              else
                var g := ReadSection(cs.indices, file, f.value.1);
                if g.None? then None
                else Some(Registries(a.value.0, b.value.0, c.value.0, d.value.0, e.value.0, f.value.0, g.value.0))
  }

  /** A saved file loads exactly when no system record is larger than the limit, and then gives back
      all system records, as far as they survive their codecs. */
  lemma SavedLoads(cs: Codecs, r: Registries, file: seq<byte>)
    requires Holds(cs, r, file) && AllRoundTrip(cs, r) && AllFitWords(cs, r)
    ensures LoadAll(cs, file) == if AllFitLimit(cs, r) then Some(RestoredAll(cs, r)) else None
  {
    hide SectionAt, RoundTrips, FitsWords, FitsLimit, Restored, ReadSection;
    var ends :| HoldsSections(cs, r, file, ends);
    SectionReadsBack(cs.tables, r.tables, file, ends[0], ends[1]);
    SectionReadsBack(cs.columnSets, r.columnSets, file, ends[1], ends[2]);
    SectionReadsBack(cs.columns, r.columns, file, ends[2], ends[3]);
    SectionReadsBack(cs.columnDefs, r.columnDefs, file, ends[3], ends[4]);
    SectionReadsBack(cs.constraints, r.constraints, file, ends[4], ends[5]);
    SectionReadsBack(cs.constraintDefs, r.constraintDefs, file, ends[5], ends[6]);
    SectionReadsBack(cs.indices, r.indices, file, ends[6], ends[7]);
  }

  /** Saving and loading in one go. */
  method SaveAndLoad(cs: Codecs, r: Registries) returns (loaded: Option<Registries>)
    requires AllRoundTrip(cs, SystemRecords(r)) && AllFitWords(cs, SystemRecords(r))
    ensures loaded == if AllFitLimit(cs, SystemRecords(r)) then Some(RestoredAll(cs, SystemRecords(r))) else None
  {
    hide Holds, AllRoundTrip, AllFitWords, AllFitLimit, LoadAll, SystemRecords;
    var file := Save(cs, r);
    loaded := Load(cs, file);
    SavedLoads(cs, SystemRecords(r), file);
  }

  // ---- The codec of constraint definitions loses the hash ----

  const DEFINITION_UUID: seq<byte> :=
    [0x20, 0x77, 0xe0, 0x2b, 0x16, 0x8a, 0x48, 0xab, 0x9a, 0x66, 0x80, 0xf0, 0xef, 0xfc, 0x40, 0x31]

  function EncodeDefinition(id: nat, x: ConstraintDefinitionRecord): seq<byte> {
    DEFINITION_UUID + (EncodeVarint(0) + (EncodeVarint(id) + (EncodeVarint(x.constraintType) +
    (EncodeVarint(|x.expression|) + x.expression))))
  }

  /** The number at the front of `s` and what follows it. */
  function ReadVarint(s: seq<byte>): Option<(nat, seq<byte>)> {
    match DecodeVarint(s)
    case None => None
    case Some((v, n)) => Some((v, s[n..]))
  }

  lemma ReadVarintBack(n: nat, rest: seq<byte>)
    ensures ReadVarint(EncodeVarint(n) + rest) == Some((n, rest))
  {
    hide EncodeVarint, DecodeVarint;
    VarintRoundTrip(n, rest);
    assert (EncodeVarint(n) + rest)[|EncodeVarint(n)|..] == rest;
  }

  /** Reads a definition into a new record, whose hash is that of an empty definition and stays so. */
  function DecodeDefinition(emptyHash: nat, s: seq<byte>): Option<(nat, ConstraintDefinitionRecord)> {
    if |s| < 16 || s[..16] != DEFINITION_UUID then None
    else
      var version := ReadVarint(s[16..]);
      if version.None? || version.value.0 > 0 then None
      else
        var id := ReadVarint(version.value.1);
        if id.None? then None
        else
          var kind := ReadVarint(id.value.1);
          if kind.None? then None
          else
            var length := ReadVarint(kind.value.1);
            if length.None? || length.value.0 > |length.value.1| then None
            else
              Some((id.value.0, ConstraintDefinitionRecord(kind.value.0, length.value.1[..length.value.0], emptyHash)))
  }

  lemma DefinitionRoundTrip(emptyHash: nat, id: nat, x: ConstraintDefinitionRecord)
    ensures DecodeDefinition(emptyHash, EncodeDefinition(id, x)) == Some((id, x.(hash := emptyHash)))
  {
    hide EncodeVarint, ReadVarint;
    var s3 := EncodeVarint(|x.expression|) + x.expression;
    var s2 := EncodeVarint(x.constraintType) + s3;
    var s1 := EncodeVarint(id) + s2;
    var s := EncodeDefinition(id, x);
    assert s[..16] == DEFINITION_UUID && s[16..] == EncodeVarint(0) + s1;
    ReadVarintBack(0, s1);
    ReadVarintBack(id, s2);
    ReadVarintBack(x.constraintType, s3);
    ReadVarintBack(|x.expression|, x.expression);
    assert x.expression[..|x.expression|] == x.expression;
  }

  function DefinitionCodec(emptyHash: nat): Codec<ConstraintDefinitionRecord> {
    Codec((id, x) => EncodeDefinition(id, x), s => DecodeDefinition(emptyHash, s),
          (x: ConstraintDefinitionRecord) => x.(hash := emptyHash))
  }

  lemma DefinitionsRoundTrip(emptyHash: nat, defs: map<nat, ConstraintDefinitionRecord>)
    ensures RoundTrips(DefinitionCodec(emptyHash), defs)
  {
    hide EncodeDefinition, DecodeDefinition;
    forall id | id in defs
      ensures DecodeDefinition(emptyHash, EncodeDefinition(id, defs[id])) == Some((id, defs[id].(hash := emptyHash)))
    {
      DefinitionRoundTrip(emptyHash, id, defs[id]);
    }
  }

  /** The other codecs keep their records as they are. */
  ghost predicate KeepRecords(cs: Codecs) {
    && (forall x :: cs.tables.norm(x) == x) && (forall x :: cs.columnSets.norm(x) == x)
    && (forall x :: cs.columns.norm(x) == x) && (forall x :: cs.columnDefs.norm(x) == x)
    && (forall x :: cs.constraints.norm(x) == x) && (forall x :: cs.indices.norm(x) == x)
  }

  /** What is loaded is exactly what was saved if and only if every constraint definition has the
      hash of an empty definition. */
  lemma RestoredExactly(cs: Codecs, emptyHash: nat, r: Registries)
    requires KeepRecords(cs) && cs.constraintDefs == DefinitionCodec(emptyHash)
    ensures RestoredAll(cs, r) == r <==> forall e :: e in r.constraintDefs ==> r.constraintDefs[e].hash == emptyHash
  {
    hide Restored;
    KeptAsIs(cs.tables, r.tables);
    KeptAsIs(cs.columnSets, r.columnSets);
    KeptAsIs(cs.columns, r.columns);
    KeptAsIs(cs.columnDefs, r.columnDefs);
    KeptAsIs(cs.constraints, r.constraints);
    KeptAsIs(cs.indices, r.indices);
    HashesReset(emptyHash, r.constraintDefs);
  }

  lemma KeptAsIs<T(!new)>(c: Codec<T>, objects: map<nat, T>)
    requires forall x :: c.norm(x) == x
    ensures Restored(c, objects) == objects
  {
  }

  lemma HashesReset(emptyHash: nat, defs: map<nat, ConstraintDefinitionRecord>)
    ensures Restored(DefinitionCodec(emptyHash), defs) == defs <==> forall e :: e in defs ==> defs[e].hash == emptyHash
  {
    var u := Restored(DefinitionCodec(emptyHash), defs);
    assert forall e :: e in defs ==> u[e] == defs[e].(hash := emptyHash);
    if u == defs {
      forall e | e in defs ensures defs[e].hash == emptyHash {
        assert u[e] == defs[e];
      }
    }
  }

  /** The six other codecs give back what they encode. */
  ghost predicate OthersRoundTrip(cs: Codecs, r: Registries) {
    && RoundTrips(cs.tables, r.tables) && RoundTrips(cs.columnSets, r.columnSets)
    && RoundTrips(cs.columns, r.columns) && RoundTrips(cs.columnDefs, r.columnDefs)
    && RoundTrips(cs.constraints, r.constraints) && RoundTrips(cs.indices, r.indices)
  }

  /** Every system constraint definition stores the hash of an empty definition. */
  ghost predicate EmptyHashes(emptyHash: nat, defs: map<nat, ConstraintDefinitionRecord>) {
    forall e :: e in defs && e < G.FirstUserId(G.ConstraintDefs) ==> defs[e].hash == emptyHash
  }

  /** With the codec that constraint definitions have, saving and then loading yields the system
      records if and only if all of them fit the limit and all constraint definitions among them
      store the hash of an empty definition. */
  method SaveAndLoadExactly(cs: Codecs, ghost emptyHash: nat, r: Registries) returns (loaded: Option<Registries>)
    requires KeepRecords(cs) && cs.constraintDefs == DefinitionCodec(emptyHash)
    requires OthersRoundTrip(cs, SystemRecords(r)) && AllFitWords(cs, SystemRecords(r))
    ensures loaded == Some(SystemRecords(r))
       <==> AllFitLimit(cs, SystemRecords(r)) && EmptyHashes(emptyHash, r.constraintDefs)
  {
    hide KeepRecords, RoundTrips, AllFitWords, AllFitLimit, RestoredAll;
    ghost var u := SystemRecords(r);
    DefinitionsRoundTrip(emptyHash, u.constraintDefs);
    loaded := SaveAndLoad(cs, r);
    RestoredExactly(cs, emptyHash, u);
    SystemHashes(emptyHash, r.constraintDefs);
  }

  lemma SystemHashes(emptyHash: nat, defs: map<nat, ConstraintDefinitionRecord>)
    ensures EmptyHashes(emptyHash, defs) <==>
            var u := SystemPart(defs, G.FirstUserId(G.ConstraintDefs));
            forall e :: e in u ==> u[e].hash == emptyHash
  {
    var u := SystemPart(defs, G.FirstUserId(G.ConstraintDefs));
    assert forall e :: e in defs && e < G.FirstUserId(G.ConstraintDefs) <==> e in u;
  }
}
