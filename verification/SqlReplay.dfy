/** The replay of a dump: statements are read character by character, and each value goes to the column
    that the statement names for it. */
module SqlReplay {
  import opened Bytes
  import opened SqlDump
  import opened SqlText
  import opened SqlValues
  import opened TridCounters

  // ---- Names ----

  predicate IsNameStart(c: char) {
    'a' <= c <= 'z' || 'A' <= c <= 'Z' || c == '_'
  }

  predicate IsNameChar(c: char) {
    IsNameStart(c) || IsDigit(c)
  }

  /** What the parser takes for a name without quotes. */
  predicate IsIdentifier(s: string) {
    s != "" && IsNameStart(s[0]) && forall i :: 0 <= i < |s| ==> IsNameChar(s[i])
  }

  function UpperChar(c: char): char {
    if 'a' <= c <= 'z' then 'A' + (c - 'a') else c
  }

  function Upper(s: string): (u: string)
    ensures |u| == |s|
  {
    seq(|s|, i requires 0 <= i < |s| => UpperChar(s[i]))
  }

  /** As many characters of a name as there are, and what follows. */
  function NameChars(s: string): (r: (string, string))
    ensures s == r.0 + r.1
  {
    if s == "" || !IsNameChar(s[0]) then ("", s)
    else
      var r := NameChars(s[1..]);
      ([s[0]] + r.0, r.1)
  }

  /** Reads a name; the parser converts it to upper case. */
  function ReadName(s: string): (r: Option<(string, string)>)
    ensures r.Some? ==> |r.value.1| < |s|
  {
    if s == "" || !IsNameStart(s[0]) then None
    else
      var r := NameChars(s);
      Some((Upper(r.0), r.1))
  }

  lemma {:induction false} NameCharsBack(name: string, rest: string)
    requires forall i :: 0 <= i < |name| ==> IsNameChar(name[i])
    requires rest == "" || !IsNameChar(rest[0])
    ensures NameChars(name + rest) == (name, rest)
  {
    if name == "" {
      assert name + rest == rest;
    } else {
      NameCharsBack(name[1..], rest);
      assert (name + rest)[1..] == name[1..] + rest;
      assert name == [name[0]] + name[1..];
    }
  }

  /** A name is read in upper case. */
  lemma NameBack(name: string, rest: string)
    requires IsIdentifier(name) && (rest == "" || !IsNameChar(rest[0]))
    ensures ReadName(name + rest) == Some((Upper(name), rest))
  {
    NameCharsBack(name, rest);
    assert (name + rest)[0] == name[0];
  }

  // ---- Statements ----

  datatype Statement =
    | Alter(database: string, table: string, next: nat)
    | Insert(database: string, table: string, names: seq<string>, values: seq<Variant>)

  /** What follows `token` at the front of `s`. */
  function After(token: string, s: string): (r: Option<string>)
    ensures r.Some? ==> s == token + r.value
  {
    if token <= s then Some(s[|token|..]) else None
  }

  lemma AfterBack(token: string, rest: string)
    ensures After(token, token + rest) == Some(rest)
  {
  }

  /** A database and a table with a dot between them. */
  function ReadQualified(s: string): (r: Option<((string, string), string)>)
    ensures r.Some? ==> |r.value.1| < |s|
  {
    var database := ReadName(s);
    if database.None? then None
    else
      var dot := After(".", database.value.1);
      if dot.None? then None
      else
        var table := ReadName(dot.value);
        if table.None? then None else Some(((database.value.0, table.value.0), table.value.1))
  }

  /** Names with commas between them, up to a closing parenthesis. */
  function ReadNames(s: string): (r: Option<(seq<string>, string)>)
    ensures r.Some? ==> |r.value.1| <= |s|
    decreases |s|
  {
    if ")" <= s then Some(([], s))
    else
      var first := ReadName(s);
      if first.None? then None
      else
        var comma := After(", ", first.value.1);
        if comma.None? then Some(([first.value.0], first.value.1))
        else if ")" <= comma.value then None
        else
          var others := ReadNames(comma.value);
          if others.None? then None else Some(([first.value.0] + others.value.0, others.value.1))
  }

  /** Values with commas between them, up to a closing parenthesis. */
  function ReadValues(s: string): (r: Option<(seq<Variant>, string)>)
    ensures r.Some? ==> |r.value.1| <= |s|
    decreases |s|
  {
    if ")" <= s then Some(([], s))
    else
      var first := ReadVariant(s);
      if first.None? then None
      else
        var comma := After(", ", first.value.1);
        if comma.None? then Some(([first.value.0], first.value.1))
        else if ")" <= comma.value then None
        else
          var others := ReadValues(comma.value);
          if others.None? then None else Some(([first.value.0] + others.value.0, others.value.1))
  }

  function ReadAlter(s: string): (r: Option<(Statement, string)>)
    ensures r.Some? ==> |r.value.1| < |s|
  {
    var q := ReadQualified(s);
    if q.None? then None
    else
      var next := After(" SET NEXT_TRID=", q.value.1);
      if next.None? then None
      else
        var n := ReadNumber(next.value);
        if n.None? then None
        else
          var end := After(";\n", n.value.1);
          if end.None? then None else Some((Alter(q.value.0.0, q.value.0.1, n.value.0), end.value))
  }

  function ReadInsert(s: string): (r: Option<(Statement, string)>)
    ensures r.Some? ==> |r.value.1| < |s|
  {
    var q := ReadQualified(s);
    if q.None? then None
    else
      var open := After(" (", q.value.1);
      if open.None? then None
      else
        var names := ReadNames(open.value);
        if names.None? then None
        else
          var middle := After(")\nVALUES (", names.value.1);
          if middle.None? then None
          else
            var values := ReadValues(middle.value);
            if values.None? then None
            else
              var end := After(");\n", values.value.1);
              if end.None? then None
              else Some((Insert(q.value.0.0, q.value.0.1, names.value.0, values.value.0), end.value))
  }

  function ReadStatement(s: string): (r: Option<(Statement, string)>)
    ensures r.Some? ==> |r.value.1| < |s|
  {
    var alter := After("ALTER TABLE ", s);
    if alter.Some? then ReadAlter(alter.value)
    else
      var insert := After("INSERT INTO ", s);
      if insert.Some? then ReadInsert(insert.value) else None
  }

  // ---- Statements read back ----

  /** The names are names without quotes, in upper case. */
  predicate Readable(h: Names) {
    && IsPlain(h.database) && IsPlain(h.table) && forall i :: 0 <= i < |h.columns| ==> IsPlain(h.columns[i])
  }

  predicate IsPlain(name: string) {
    IsIdentifier(name) && Upper(name) == name
  }

  lemma PlainBack(name: string, rest: string)
    requires IsPlain(name) && (rest == "" || !IsNameChar(rest[0]))
    ensures ReadName(name + rest) == Some((name, rest))
  {
    hide IsIdentifier, Upper, ReadName;
    NameBack(name, rest);
  }

  lemma QualifiedBack(h: Names, rest: string)
    requires Readable(h) && rest != "" && !IsNameChar(rest[0])
    ensures ReadQualified(h.database + ("." + (h.table + rest))) == Some(((h.database, h.table), rest))
  {
    hide ReadName, After, IsPlain;
    var tail := h.table + rest;
    assert ("." + tail)[0] == '.';
    PlainBack(h.database, "." + tail);
    AfterBack(".", tail);
    PlainBack(h.table, rest);
  }

  lemma {:induction false} NamesBack(names: seq<string>, rest: string)
    requires (forall i :: 0 <= i < |names| ==> IsPlain(names[i])) && rest != "" && rest[0] == ')'
    ensures ReadNames(Joined(names) + rest) == Some((names, rest))
  {
    hide ReadName, After, IsPlain;
    if names == [] {
      assert Joined(names) + rest == rest && ")" <= rest;
    } else if |names| == 1 {
      PlainBack(names[0], rest);
      StartsWithName(names[0], rest);
      NoComma(rest);
      assert names == [names[0]];
    } else {
      var tail := Joined(names[1..]) + rest;
      assert Joined(names) + rest == names[0] + (", " + tail);
      assert (", " + tail)[0] == ',';
      PlainBack(names[0], ", " + tail);
      StartsWithName(names[0], ", " + tail);
      AfterBack(", ", tail);
      JoinedStarts(names[1..], rest);
      NamesBack(names[1..], rest);
      assert names == [names[0]] + names[1..];
    }
  }

  lemma StartsWithName(name: string, rest: string)
    requires IsPlain(name)
    ensures !(")" <= name + rest)
  {
    assert (name + rest)[0] == name[0];
  }

  lemma JoinedStarts(names: seq<string>, rest: string)
    requires names != [] && IsPlain(names[0])
    ensures !(")" <= Joined(names) + rest)
  {
    hide IsPlain;
    var more := if |names| == 1 then "" else ", " + Joined(names[1..]);
    StartsWithName(names[0], more + rest);
    assert Joined(names) + rest == names[0] + (more + rest);
  }

  lemma RowStarts(values: seq<Value>, rest: string)
    requires values != []
    ensures !(")" <= RowText(values) + rest)
  {
    hide Render;
    var more := if |values| == 1 then "" else ", " + RowText(values[1..]);
    StartsWithValue(values[0], more + rest);
    assert RowText(values) + rest == Render(values[0]) + (more + rest);
  }

  lemma NoComma(rest: string)
    requires rest != "" && rest[0] == ')'
    ensures After(", ", rest).None?
  {
  }

  /** Integers fit 64 bits. */
  predicate Words(values: seq<Value>) {
    forall i :: 0 <= i < |values| ==> (values[i].IntValue? ==> InWords(values[i].n))
  }

  function ParsedAll(values: seq<Value>): (r: seq<Variant>)
    requires Words(values)
    ensures |r| == |values|
  {
    seq(|values|, i requires 0 <= i < |values| => Parsed(values[i]))
  }

  lemma StartsWithValue(v: Value, rest: string)
    ensures !(")" <= Render(v) + rest)
  {
    hide Digits, Doubled, Hex;
    assert Render(v) != "" && (Render(v) + rest)[0] == Render(v)[0] != ')' by {
      if v.IntValue? && v.n >= 0 {
        assert IsDigit(Digits(v.n)[0]);
      }
    }
  }

  lemma {:induction false} ValuesBack(values: seq<Value>, rest: string)
    requires Words(values) && rest != "" && rest[0] == ')'
    ensures ReadValues(RowText(values) + rest) == Some((ParsedAll(values), rest))
  {
    hide ReadVariant, Render, Parsed, After;
    if values == [] {
      assert RowText(values) + rest == rest && ")" <= rest;
    } else if |values| == 1 {
      ReadBack(values[0], rest);
      StartsWithValue(values[0], rest);
      NoComma(rest);
      assert ParsedAll(values) == [Parsed(values[0])];
    } else {
      var tail := RowText(values[1..]) + rest;
      assert RowText(values) + rest == Render(values[0]) + (", " + tail);
      assert (", " + tail)[0] == ',';
      ReadBack(values[0], ", " + tail);
      StartsWithValue(values[0], ", " + tail);
      AfterBack(", ", tail);
      RowStarts(values[1..], rest);
      ValuesBack(values[1..], rest);
      assert ParsedAll(values) == [Parsed(values[0])] + ParsedAll(values[1..]);
    }
  }

  /** An ALTER statement reads back to its table and its number. */
  lemma AlterBack(h: Names, n: nat, rest: string)
    requires Readable(h)
    ensures ReadStatement(AlterText(h, n) + rest) == Some((Alter(h.database, h.table, n), rest))
  {
    hide ReadQualified, After, Digits, ReadNumber, Readable;
    var number := Digits(n) + (";\n" + rest);
    var tail := " SET NEXT_TRID=" + number;
    var qualified := h.database + ("." + (h.table + tail));
    assert AlterText(h, n) + rest == "ALTER TABLE " + qualified;
    AfterBack("ALTER TABLE ", qualified);
    QualifiedBack(h, tail);
    AfterBack(" SET NEXT_TRID=", number);
    NumberBack(n, ";\n" + rest);
    AfterBack(";\n", rest);
  }

  /** An INSERT statement reads back to its table, its columns and its values. */
  lemma InsertBack(h: Names, values: seq<Value>, rest: string)
    requires Readable(h) && Words(values)
    ensures ReadStatement(InsertText(h, values) + rest) ==
            Some((Insert(h.database, h.table, h.columns, ParsedAll(values)), rest))
  {
    hide ReadQualified, ReadNames, ReadValues, After, Joined, RowText, IsPlain, ParsedAll;
    var end := ");\n" + rest;
    var row := RowText(values) + end;
    var middle := ")\nVALUES (" + row;
    var names := Joined(h.columns) + middle;
    var tail := " (" + names;
    var qualified := h.database + ("." + (h.table + tail));
    assert InsertText(h, values) + rest == "INSERT INTO " + qualified;
    NotAlter(qualified);
    AfterBack("INSERT INTO ", qualified);
    QualifiedBack(h, tail);
    AfterBack(" (", names);
    NamesBack(h.columns, middle);
    AfterBack(")\nVALUES (", row);
    ValuesBack(values, end);
    AfterBack(");\n", rest);
  }

  lemma NotAlter(s: string)
    ensures After("ALTER TABLE ", "INSERT INTO " + s).None?
  {
    assert ("INSERT INTO " + s)[0] == 'I';
  }

  // ---- Inserting by column names ----

  predicate Distinct(names: seq<string>) {
    forall i, j :: 0 <= i < j < |names| ==> names[i] != names[j]
  }

  /** The table into which the dump is replayed. Its columns may be in any order. */
  datatype Target = Target(database: string, table: string, columns: seq<string>, types: seq<ColumnType>,
                           defaults: seq<Variant>) {
    ghost predicate Valid() {
      |types| == |columns| == |defaults| && Distinct(columns)
    }
  }

  function IndexOf(names: seq<string>, name: string): (i: nat)
    requires name in names
    ensures i < |names| && names[i] == name
  {
    if names[0] == name then 0 else 1 + IndexOf(names[1..], name)
  }

  /** The names are those of different columns, one for each value. */
  predicate CanPlace(columns: seq<string>, names: seq<string>, count: nat) {
    |names| == count && Distinct(names) && forall i :: 0 <= i < |names| ==> names[i] in columns
  }

  /** The values in the order of the columns, with default values for columns that are not named. */
  function Placed(columns: seq<string>, defaults: seq<Variant>, names: seq<string>, values: seq<Variant>): seq<Variant>
    requires |columns| == |defaults| && |names| == |values|
  {
    seq(|columns|, j requires 0 <= j < |columns| =>
      if columns[j] in names then values[IndexOf(names, columns[j])] else defaults[j])
  }

  /** `insertRow` for named columns. */
  method PlaceValues(columns: seq<string>, defaults: seq<Variant>, names: seq<string>, values: seq<Variant>)
    returns (r: Option<seq<Variant>>)
    requires |columns| == |defaults| && Distinct(columns)
    ensures r == if CanPlace(columns, names, |values|) then Some(Placed(columns, defaults, names, values)) else None
    ensures r.Some? <==> |names| == |values| && Distinct(names) && forall l :: 0 <= l < |names| ==> names[l] in columns
    ensures r.Some? ==> |r.value| == |columns|
    ensures r.Some? ==>
              forall j, l :: 0 <= j < |columns| && 0 <= l < |names| && columns[j] == names[l] ==>
                r.value[j] == values[l]
    ensures r.Some? ==> forall j :: 0 <= j < |columns| && columns[j] !in names ==> r.value[j] == defaults[j]
  {
    hide IndexOf;
    if |names| != |values| {
      return None;
    }
    var ordered: seq<Variant>, present: seq<bool> := defaults, seq(|columns|, _ => false);
    var i, failed := 0, false;
    while i < |names|
      invariant i <= |names| && |ordered| == |present| == |columns|
      invariant !failed <==> CanPlace(columns, names[..i], i)
      invariant !failed ==> forall j :: 0 <= j < |columns| ==> (present[j] <==> columns[j] in names[..i])
      invariant !failed ==>
                  forall j, l :: 0 <= j < |columns| && 0 <= l < i && columns[j] == names[l] ==> ordered[j] == values[l]
      invariant !failed ==> forall j :: 0 <= j < |columns| && columns[j] !in names[..i] ==> ordered[j] == defaults[j]
    {
      NextName(columns, names, i);
      if names[i] !in columns {
        failed := true;
      } else {
        var j := IndexOf(columns, names[i]);
        if present[j] {
          failed := true;
        } else {
          present, ordered := present[j := true], ordered[j := values[i]];
        }
      }
      i := i + 1;
    }
    assert names[..i] == names;
    if failed {
      return None;
    }
    assert ordered == Placed(columns, defaults, names, values);
    r := Some(ordered);
  }

  lemma NextName(columns: seq<string>, names: seq<string>, i: nat)
    requires i < |names|
    ensures names[..i + 1] == names[..i] + [names[i]]
    ensures CanPlace(columns, names[..i + 1], i + 1) <==>
            CanPlace(columns, names[..i], i) && names[i] in columns && names[i] !in names[..i]
  {
    var shorter, longer := names[..i], names[..i + 1];
    assert longer == shorter + [names[i]];
    if CanPlace(columns, longer, i + 1) {
      forall l | 0 <= l < i ensures shorter[l] in columns && shorter[l] != names[i] {
        assert longer[l] == shorter[l] && longer[i] == names[i];
      }
      assert longer[i] in columns;
      forall l, m | 0 <= l < m < i ensures shorter[l] != shorter[m] {
        assert longer[l] != longer[m];
      }
    }
  }

  // ---- Carrying statements out ----

  /** The new table: its counters and the rows inserted so far, in the order of its columns. */
  datatype Replica = Replica(counters: Counters, rows: seq<Row>)

  /** The values converted for their columns, unless one cannot be converted. */
  function ConvertedAll(types: seq<ColumnType>, values: seq<Variant>): Option<seq<Value>>
    requires |types| == |values|
  {
    if types == [] then Some([])
    else
      var first := Converted(values[0], types[0]);
      var others := ConvertedAll(types[1..], values[1..]);
      if first.None? || others.None? then None else Some([first.value] + others.value)
  }

  /** SET NEXT_TRID sets the last user id to one less; 0 and ids that are not ahead are refused. */
  function SetNextTrid(c: Counters, next: nat): Option<Counters> {
    if next == 0 then None else SetLastUser(c, next - 1)
  }

  /** The table after one statement. A statement for another table is not carried out. */
  function Execute(target: Target, statement: Statement, t: Replica): Option<Replica>
    requires target.Valid()
  {
    if statement.database != target.database || statement.table != target.table then None
    else
      match statement
      case Alter(_, _, next) => (
        match SetNextTrid(t.counters, next)
        case None => None
        case Some(c) => Some(t.(counters := c)))
      case Insert(_, _, names, values) =>
        if !CanPlace(target.columns, names, |values|) then None
        else
          match ConvertedAll(target.types, Placed(target.columns, target.defaults, names, values))
          case None => None
          case Some(row) =>
            match DrawUser(t.counters)
            case Exhausted => None
            case Drawn(c, trid) => Some(Replica(c, t.rows + [Row(trid, row)]))
  }

  /** The table after all statements of a script, unless one of them fails. */
  function Replay(target: Target, s: string, t: Replica): Option<Replica>
    requires target.Valid()
    decreases |s|
  {
    if s == "" then Some(t)
    else
      var r := ReadStatement(s);
      if r.None? then None
      else
        var u := Execute(target, r.value.0, t);
        if u.None? then None else Replay(target, r.value.1, u.value)
  }

  lemma ReplayStep(target: Target, s: string, rest: string, statement: Statement, t: Replica, u: Replica)
    requires target.Valid() && ReadStatement(s) == Some((statement, rest)) && Execute(target, statement, t) == Some(u)
    ensures Replay(target, s, t) == Replay(target, rest, u)
  {
    hide ReadStatement, Execute;
    assert ReadStatement("").None? by { NothingToRead(); }
  }

  lemma NothingToRead()
    ensures ReadStatement("").None?
  {
  }

  // ---- What arrives ----

  /** What arrives for a value: itself, unless the parser misreads it. */
  function Arrived(v: Value, t: ColumnType): Value {
    if Misread(v, t) then IntValue(v.n + UINT32_LIMIT) else v
  }

  ghost predicate RowFits(types: seq<ColumnType>, values: seq<Value>) {
    && |types| == |values|
    && forall i :: 0 <= i < |types| ==> IsColumnType(types[i]) && HasType(values[i], types[i])
  }

  /** The target is the table `h` with its columns, of the types `types`, in any order. */
  ghost predicate Fits(target: Target, h: Names, types: seq<ColumnType>) {
    && target.Valid() && Readable(h) && target.database == h.database && target.table == h.table
    && |types| == |h.columns| == |target.columns| && Distinct(h.columns)
    && (forall i :: 0 <= i < |h.columns| ==> h.columns[i] in target.columns)
    && (forall j :: 0 <= j < |target.columns| ==> target.columns[j] in h.columns)
    && (forall i, j :: 0 <= i < |types| && 0 <= j < |target.columns| && target.columns[j] == h.columns[i] ==>
          target.types[j] == types[i])
  }

  /** The row that arrives in the target: under each name the value that the dumped row has there. */
  function ArrivedRow(target: Target, h: Names, types: seq<ColumnType>, values: seq<Value>): (r: seq<Value>)
    requires |types| == |h.columns| == |values|
    requires forall j :: 0 <= j < |target.columns| ==> target.columns[j] in h.columns
    ensures |r| == |target.columns|
  {
    seq(|target.columns|, j requires 0 <= j < |target.columns| =>
      var i := IndexOf(h.columns, target.columns[j]);
      Arrived(values[i], types[i]))
  }

  lemma {:induction false} ConvertedEach(types: seq<ColumnType>, values: seq<Variant>, row: seq<Value>)
    requires |types| == |values| == |row|
    requires forall j :: 0 <= j < |types| ==> Converted(values[j], types[j]) == Some(row[j])
    ensures ConvertedAll(types, values) == Some(row)
  {
    hide Converted;
    if types == [] {
    } else {
      ConvertedEach(types[1..], values[1..], row[1..]);
      assert row == [row[0]] + row[1..];
    }
  }

  lemma RowArrives(target: Target, h: Names, types: seq<ColumnType>, values: seq<Value>)
    requires Fits(target, h, types) && RowFits(types, values)
    ensures Words(values) && CanPlace(target.columns, h.columns, |values|)
    ensures ConvertedAll(target.types, Placed(target.columns, target.defaults, h.columns, ParsedAll(values)))
            == Some(ArrivedRow(target, h, types, values))
  {
    hide Converted, Parsed, HasType, Misread, Readable, IndexOf;
    forall i | 0 <= i < |values| ensures values[i].IntValue? ==> InWords(values[i].n) {
      ConvertedBack(values[i], types[i]);
    }
    var variants := Placed(target.columns, target.defaults, h.columns, ParsedAll(values));
    var row := ArrivedRow(target, h, types, values);
    forall j | 0 <= j < |target.columns| ensures Converted(variants[j], target.types[j]) == Some(row[j]) {
      var i := IndexOf(h.columns, target.columns[j]);
      ConvertedBack(values[i], types[i]);
      assert variants[j] == Parsed(values[i]);
    }
    ConvertedEach(target.types, variants, row);
  }

  // ---- Dump and replay ----

  lemma ReplayInsert(target: Target, h: Names, types: seq<ColumnType>, values: seq<Value>, rest: string, t: Replica)
    requires Fits(target, h, types) && RowFits(types, values) && t.counters.lastUser + 1 < UINT64_LIMIT
    ensures var trid := t.counters.lastUser + 1;
            Replay(target, InsertText(h, values) + rest, t) ==
            Replay(target, rest, Replica(t.counters.(lastUser := trid),
                                         t.rows + [Row(trid, ArrivedRow(target, h, types, values))]))
  {
    hide InsertText, ReadStatement, Replay, CanPlace, ConvertedAll, Placed, ParsedAll, ArrivedRow, RowFits, Readable;
    RowFitsFacts(types, values);
    RowArrives(target, h, types, values);
    InsertBack(h, values, rest);
    UserDraw(t.counters);
    var trid := t.counters.lastUser + 1;
    ReplayStep(target, InsertText(h, values) + rest, rest,
               Insert(h.database, h.table, h.columns, ParsedAll(values)), t,
               Replica(t.counters.(lastUser := trid), t.rows + [Row(trid, ArrivedRow(target, h, types, values))]));
  }

  /** An ALTER statement for an id that is ahead is accepted. */
  lemma ReplayAlter(target: Target, h: Names, types: seq<ColumnType>, next: nat, rest: string, t: Replica)
    requires Fits(target, h, types) && t.counters.lastUser + 1 < next
    ensures SetNextTrid(t.counters, next) == Some(t.counters.(lastUser := next - 1))
    ensures Replay(target, AlterText(h, next) + rest, t) ==
            Replay(target, rest, t.(counters := t.counters.(lastUser := next - 1)))
  {
    hide AlterText, ReadStatement, Replay, Readable;
    AlterBack(h, next, rest);
    ReplayStep(target, AlterText(h, next) + rest, rest, Alter(h.database, h.table, next), t,
               t.(counters := t.counters.(lastUser := next - 1)));
  }

  lemma ReplayRow(target: Target, h: Names, types: seq<ColumnType>, row: Row, rest: string, t: Replica)
    requires Fits(target, h, types) && RowFits(types, row.values) && t.counters.lastUser < row.trid < UINT64_LIMIT
    ensures Replay(target, Statements(h, row, t.counters.lastUser + 1) + rest, t) ==
            Replay(target, rest, Replica(t.counters.(lastUser := row.trid),
                                         t.rows + [Row(row.trid, ArrivedRow(target, h, types, row.values))]))
  {
    hide Replay, AlterText, InsertText, Fits, RowFits, ArrivedRow;
    FitsFacts(target, h, types);
    RowFitsFacts(types, row.values);
    var expected := t.counters.lastUser + 1;
    if expected == row.trid {
      assert Statements(h, row, expected) + rest == InsertText(h, row.values) + rest;
      ReplayInsert(target, h, types, row.values, rest, t);
    } else {
      assert Statements(h, row, expected) + rest == AlterText(h, row.trid) + (InsertText(h, row.values) + rest);
      ReplayAlter(target, h, types, row.trid, InsertText(h, row.values) + rest, t);
      ReplayInsert(target, h, types, row.values, rest, t.(counters := t.counters.(lastUser := row.trid - 1)));
    }
  }

  lemma FitsFacts(target: Target, h: Names, types: seq<ColumnType>)
    requires Fits(target, h, types)
    ensures target.Valid() && |types| == |h.columns|
    ensures forall j :: 0 <= j < |target.columns| ==> target.columns[j] in h.columns
  {
  }

  lemma RowFitsFacts(types: seq<ColumnType>, values: seq<Value>)
    requires RowFits(types, values)
    ensures |types| == |values|
  {
  }

  /** Rows that fit their columns, with ids that go up from above `last`. */
  ghost predicate Dumpable(types: seq<ColumnType>, rows: seq<Row>, last: nat) {
    && (forall i :: 0 <= i < |rows| ==> RowFits(types, rows[i].values) && last < rows[i].trid < UINT64_LIMIT)
    && (forall i, j :: 0 <= i < j < |rows| ==> rows[i].trid < rows[j].trid)
  }

  /** The replica holds the rows with their ids, and under each column name what arrives for the value
      there. */
  ghost predicate HoldsRows(target: Target, h: Names, types: seq<ColumnType>, rows: seq<Row>, back: seq<Row>)
    requires |types| == |h.columns|
  {
    && |back| == |rows|
    && forall n :: 0 <= n < |rows| ==> HoldsRow(target, h, types, rows[n], back[n])
  }

  ghost predicate HoldsRow(target: Target, h: Names, types: seq<ColumnType>, row: Row, back: Row)
    requires |types| == |h.columns|
  {
    && back.trid == row.trid && |back.values| == |target.columns| && |row.values| == |types|
    && forall i, j :: 0 <= i < |types| && 0 <= j < |target.columns| && target.columns[j] == h.columns[i] ==>
         back.values[j] == Arrived(row.values[i], types[i])
  }

  lemma ArrivedIsHeld(target: Target, h: Names, types: seq<ColumnType>, row: Row)
    requires Fits(target, h, types) && RowFits(types, row.values)
    ensures HoldsRow(target, h, types, row, Row(row.trid, ArrivedRow(target, h, types, row.values)))
  {
    hide Arrived, IndexOf, HasType, Readable;
  }

  lemma {:induction false} ReplayScript(target: Target, h: Names, types: seq<ColumnType>, rows: seq<Row>, t: Replica)
    requires Fits(target, h, types) && Dumpable(types, rows, t.counters.lastUser) && t.counters.lastUser < UINT64_LIMIT
    ensures target.Valid() && |types| == |h.columns|
    ensures var r := Replay(target, Script(h, rows, (t.counters.lastUser + 1) % UINT64_LIMIT), t);
            && r.Some? && |r.value.rows| >= |t.rows| && r.value.rows[..|t.rows|] == t.rows
            && HoldsRows(target, h, types, rows, r.value.rows[|t.rows|..])
    decreases |rows|
  {
    hide Replay, Statements, ArrivedRow, RowFits, Script, Fits, HoldsRow;
    FitsFacts(target, h, types);
    if rows == [] {
      NoRows(h, rows, (t.counters.lastUser + 1) % UINT64_LIMIT);
      ReplayNothing(target, t);
    } else {
      var row, rest := rows[0], rows[1..];
      RowFitsFacts(types, row.values);
      var arrived := Row(row.trid, ArrivedRow(target, h, types, row.values));
      var t' := Replica(t.counters.(lastUser := row.trid), t.rows + [arrived]);
      ScriptStep(h, rows, 0, t.counters.lastUser + 1);
      assert rows[0..] == rows;
      ReplayRow(target, h, types, row, Script(h, rest, (row.trid + 1) % UINT64_LIMIT), t);
      ReplayScript(target, h, types, rest, t');
      ArrivedIsHeld(target, h, types, row);
      var back := Replay(target, Script(h, rest, (row.trid + 1) % UINT64_LIMIT), t').value.rows;
      OneMoreHeld(target, h, types, rows, back, t.rows, arrived);
    }
  }

  lemma OneMoreHeld(target: Target, h: Names, types: seq<ColumnType>, rows: seq<Row>, back: seq<Row>, before: seq<Row>,
                    arrived: Row)
    requires |types| == |h.columns| && rows != [] && |back| > |before| && back[..|before| + 1] == before + [arrived]
    requires HoldsRow(target, h, types, rows[0], arrived)
    requires HoldsRows(target, h, types, rows[1..], back[|before| + 1..])
    ensures back[..|before|] == before && HoldsRows(target, h, types, rows, back[|before|..])
  {
    hide HoldsRow;
    var tail := back[|before|..];
    assert back[..|before|] == back[..|before| + 1][..|before|];
    assert tail[0] == back[..|before| + 1][|before|] == arrived;
    forall n | 0 <= n < |rows| ensures HoldsRow(target, h, types, rows[n], tail[n]) {
      if n > 0 {
        assert rows[n] == rows[1..][n - 1] && tail[n] == back[|before| + 1..][n - 1];
      }
    }
  }

  lemma ReplayNothing(target: Target, t: Replica)
    requires target.Valid()
    ensures Replay(target, "", t) == Some(t)
  {
  }

  ghost predicate NothingMisread(types: seq<ColumnType>, rows: seq<Row>) {
    forall i, j :: 0 <= i < |rows| && 0 <= j < |types| && j < |rows[i].values| ==> !Misread(rows[i].values[j], types[j])
  }

  /** The rows agree under each column name. */
  ghost predicate SameByName(columns: seq<string>, rows: seq<Row>, columns': seq<string>, rows': seq<Row>) {
    && |rows| == |rows'|
    && forall n :: 0 <= n < |rows| ==> SameRowByName(columns, rows[n], columns', rows'[n])
  }

  ghost predicate SameRowByName(columns: seq<string>, row: Row, columns': seq<string>, row': Row) {
    && row.trid == row'.trid
    && forall i, j :: 0 <= i < |columns| && i < |row.values| && 0 <= j < |columns'| && j < |row'.values| ==>
         (columns[i] == columns'[j] ==> row.values[i] == row'.values[j])
  }

  /** Replaying a dump on a new table whose columns are in any order never fails and rebuilds all row ids;
      it rebuilds, under each column name, all values, NULLs included, exactly when no value is misread. */
  lemma DumpReplays(target: Target, h: Names, types: seq<ColumnType>, rows: seq<Row>)
    requires Fits(target, h, types) && Dumpable(types, rows, 0)
    ensures target.Valid() && |types| == |h.columns|
    ensures var r := Replay(target, Script(h, rows, 1), Replica(NewCounters(0), []));
            && r.Some? && HoldsRows(target, h, types, rows, r.value.rows)
            && (SameByName(h.columns, rows, target.columns, r.value.rows) <==> NothingMisread(types, rows))
  {
    hide Replay, Script, Dumpable, Fits, NothingMisread, HoldsRows, SameByName;
    ReplayScript(target, h, types, rows, Replica(NewCounters(0), []));
    var back := Replay(target, Script(h, rows, 1), Replica(NewCounters(0), [])).value.rows;
    assert back[0..] == back;
    HeldUnchanged(target, h, types, rows, back);
  }

  lemma HeldUnchanged(target: Target, h: Names, types: seq<ColumnType>, rows: seq<Row>, back: seq<Row>)
    requires Fits(target, h, types) && HoldsRows(target, h, types, rows, back)
    ensures SameByName(h.columns, rows, target.columns, back) <==> NothingMisread(types, rows)
  {
    hide Misread, Readable;
    if NothingMisread(types, rows) {
      forall n | 0 <= n < |rows| ensures SameRowByName(h.columns, rows[n], target.columns, back[n]) {
        assert HoldsRow(target, h, types, rows[n], back[n]);
      }
    } else {
      var n, i :| 0 <= n < |rows| && 0 <= i < |types| && i < |rows[n].values| && Misread(rows[n].values[i], types[i]);
      assert HoldsRow(target, h, types, rows[n], back[n]);
      assert h.columns[i] in target.columns;
      var j :| 0 <= j < |target.columns| && target.columns[j] == h.columns[i];
      assert back[n].values[j] == Arrived(rows[n].values[i], types[i]);
      MisreadChanges(rows[n].values[i], types[i]);
      assert SameByName(h.columns, rows, target.columns, back) ==>
             SameRowByName(h.columns, rows[n], target.columns, back[n]);
    }
  }

  lemma MisreadChanges(v: Value, t: ColumnType)
    requires Misread(v, t)
    ensures Arrived(v, t) != v
  {
  }

  // ---- Examples ----

  /** The value -100000 of a 64-bit column comes back as 2^32 - 100000. */
  lemma MisreadExample()
    ensures var h, rows := Names("D", "T", ["A"]), [Row(1, [IntValue(-100000)])];
            var target := Target("D", "T", ["A"], [IntType(true, 64)], [NullVariant]);
            && target.Valid()
            && var r := Replay(target, Script(h, rows, 1), Replica(NewCounters(0), []));
               r.Some? && r.value.rows == [Row(1, [IntValue(4294867296)])]
  {
    hide Replay, Script, IsPlain, SameByName, NothingMisread;
    var types := [IntType(true, 64)];
    var h, rows := Names("D", "T", ["A"]), [Row(1, [IntValue(-100000)])];
    var target := Target("D", "T", ["A"], types, [NullVariant]);
    PlainLetters();
    DumpReplays(target, h, types, rows);
    var back := Replay(target, Script(h, rows, 1), Replica(NewCounters(0), [])).value.rows;
    assert HoldsRow(target, h, types, rows[0], back[0]);
    assert target.columns[0] == h.columns[0];
    assert back[0].values[0] == Arrived(rows[0].values[0], types[0]) == IntValue(4294867296);
    assert back[0].values == [IntValue(4294867296)];
    assert back == [Row(1, [IntValue(4294867296)])];
  }

  /** Values go to their columns by name, also when the new table has them in another order. */
  lemma OtherOrderExample()
    ensures var h, rows := Names("D", "T", ["A", "B"]), [Row(1, [IntValue(1), IntValue(2)])];
            var types := [IntType(true, 32), IntType(true, 32)];
            var target := Target("D", "T", ["B", "A"], types, [NullVariant, NullVariant]);
            && target.Valid()
            && var r := Replay(target, Script(h, rows, 1), Replica(NewCounters(0), []));
               r.Some? && r.value.rows == [Row(1, [IntValue(2), IntValue(1)])]
  {
    hide Replay, Script, IsPlain, SameByName, NothingMisread;
    var types := [IntType(true, 32), IntType(true, 32)];
    var h, rows := Names("D", "T", ["A", "B"]), [Row(1, [IntValue(1), IntValue(2)])];
    var target := Target("D", "T", ["B", "A"], types, [NullVariant, NullVariant]);
    PlainLetters();
    assert target.columns[0] == h.columns[1] && target.columns[1] == h.columns[0];
    DumpReplays(target, h, types, rows);
    var back := Replay(target, Script(h, rows, 1), Replica(NewCounters(0), [])).value.rows;
    assert HoldsRow(target, h, types, rows[0], back[0]);
    assert back[0].values == [IntValue(2), IntValue(1)];
    assert back == [Row(1, [IntValue(2), IntValue(1)])];
  }

  /** A table with a lower-case name cannot be restored: its statements are read for another table. */
  lemma LowerCaseExample()
    ensures var target := Target("D", "t", [], [], []);
            target.Valid() && Replay(target, AlterText(Names("D", "t", []), 5), Replica(NewCounters(0), [])).None?
  {
    hide ReadName, After, Digits, ReadNumber;
    var tail := " SET NEXT_TRID=" + (Digits(5) + ";\n");
    var qualified := "D" + ("." + ("t" + tail));
    assert AlterText(Names("D", "t", []), 5) == "ALTER TABLE " + qualified;
    AfterBack("ALTER TABLE ", qualified);
    assert ("." + ("t" + tail))[0] == '.' && tail[0] == ' ';
    NameBack("D", "." + ("t" + tail));
    AfterBack(".", "t" + tail);
    NameBack("t", tail);
    assert Upper("D") == "D" && Upper("t") == "T";
    AfterBack(" SET NEXT_TRID=", Digits(5) + ";\n");
    NumberBack(5, ";\n");
  }

  lemma PlainLetters()
    ensures IsPlain("A") && IsPlain("B") && IsPlain("D") && IsPlain("T")
  {
    assert Upper("A") == "A" && Upper("B") == "B" && Upper("D") == "D" && Upper("T") == "T";
  }
}
