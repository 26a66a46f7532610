/** The dump of a table as a script of SQL statements. */
module SqlDump {
  import opened Bytes
  import opened SqlText
  import opened SqlValues

  datatype Names = Names(database: string, table: string, columns: seq<string>)

  datatype Row = Row(trid: nat, values: seq<Value>)

  // ---- Writing the script ----

  function AlterHead(h: Names): string {
    "ALTER TABLE " + h.database + "." + h.table + " SET NEXT_TRID="
  }

  function AlterText(h: Names, next: nat): string {
    AlterHead(h) + Digits(next) + ";\n"
  }

  function Joined(names: seq<string>): string {
    if names == [] then "" else if |names| == 1 then names[0] else names[0] + ", " + Joined(names[1..])
  }

  function InsertHead(h: Names): string {
    "INSERT INTO " + h.database + "." + h.table + " (" + Joined(h.columns) + ")\nVALUES ("
  }

  function RowText(values: seq<Value>): string {
    if values == [] then ""
    else if |values| == 1 then Render(values[0])
    else Render(values[0]) + ", " + RowText(values[1..])
  }

  function InsertText(h: Names, values: seq<Value>): string {
    InsertHead(h) + RowText(values) + ");\n"
  }

  /** The statements for `rows` when the next insert would get the id `expected`. */
  function Script(h: Names, rows: seq<Row>, expected: nat): string {
    if rows == [] then ""
    else Statements(h, rows[0], expected) + Script(h, rows[1..], (rows[0].trid + 1) % UINT64_LIMIT)
  }

  function Statements(h: Names, row: Row, expected: nat): string {
    (if expected != row.trid then AlterText(h, row.trid) else "") + InsertText(h, row.values)
  }

  method WriteRow(values: seq<Value>) returns (s: string)
    ensures s == RowText(values)
  {
    hide RowText, Render, Separated;
    s := "";
    var i := 0;
    SeparatedEnds(values);
    while i < |values|
      invariant i <= |values|
      invariant RowText(values) == s + Separated(i > 0, values[i..])
    {
      SeparatedStep(i > 0, values, i);
      ghost var more := Separated(true, values[i + 1..]);
      if i > 0 {
        Regrouped(s, ", ", Render(values[i]), more);
        s := s + ", ";
      } else {
        Regrouped(s, "", Render(values[i]), more);
        assert s + "" == s;
      }
      s := s + Render(values[i]);
      i := i + 1;
    }
    assert values[i..] == [] && s + "" == s;
  }

  lemma SeparatedEnds(values: seq<Value>)
    ensures RowText(values) == "" + Separated(false, values[0..]) && Separated(true, []) == ""
            && Separated(false, []) == ""
  {
    assert values[0..] == values;
  }

  /** The rest of a row, with a separator in front when something comes before it. */
  function Separated(after: bool, values: seq<Value>): string {
    if values == [] then "" else (if after then ", " else "") + RowText(values)
  }

  lemma SeparatedStep(after: bool, values: seq<Value>, i: nat)
    requires i < |values|
    ensures Separated(after, values[i..]) ==
            (if after then ", " else "") + (Render(values[i]) + Separated(true, values[i + 1..]))
  {
    hide Render;
    assert values[i..][1..] == values[i + 1..];
  }

  method DumpTable(h: Names, rows: seq<Row>) returns (os: string)
    requires forall i :: 0 <= i < |rows| ==> rows[i].trid < UINT64_LIMIT
    ensures os == Script(h, rows, 1)
  {
    hide AlterHead, InsertHead, RowText, Script, Statements;
    os := "";
    var expected: nat, n := 1, 0;
    assert rows[0..] == rows;
    while n < |rows|
      invariant n <= |rows| && Script(h, rows, 1) == os + Script(h, rows[n..], expected)
    {
      var row := rows[n];
      ScriptStep(h, rows, n, expected);
      var statements := "";
      ghost var was := expected;
      if expected != row.trid {
        statements := statements + (AlterHead(h) + Digits(row.trid) + ";\n");
        expected := (row.trid + 1) % UINT64_LIMIT;
      } else {
        expected := (expected + 1) % UINT64_LIMIT;
      }
      var values := WriteRow(row.values);
      statements := statements + (InsertHead(h) + values + ");\n");
      assert statements == Statements(h, row, was) by { StatementsOf(h, row, was); }
      assert os + (statements + Script(h, rows[n + 1..], expected))
             == os + statements + Script(h, rows[n + 1..], expected);
      os := os + statements;
      n := n + 1;
    }
    assert Script(h, rows[n..], expected) == "" by { NoRows(h, rows[n..], expected); }
  }

  lemma StatementsOf(h: Names, row: Row, expected: nat)
    ensures Statements(h, row, expected) ==
            (if expected != row.trid then AlterHead(h) + Digits(row.trid) + ";\n" else "")
            + (InsertHead(h) + RowText(row.values) + ");\n")
  {
  }

  lemma ScriptStep(h: Names, rows: seq<Row>, n: nat, expected: nat)
    requires n < |rows|
    ensures Script(h, rows[n..], expected) ==
            Statements(h, rows[n], expected) + Script(h, rows[n + 1..], (rows[n].trid + 1) % UINT64_LIMIT)
  {
    assert rows[n..][1..] == rows[n + 1..];
  }

  lemma NoRows(h: Names, rows: seq<Row>, expected: nat)
    requires rows == []
    ensures Script(h, rows, expected) == ""
  {
  }

  // ---- Examples ----

  lemma AlterExample()
    ensures AlterText(Names("D", "T", []), 42) == "ALTER TABLE D.T SET NEXT_TRID=42;\n"
  {
    assert Digits(42) == "42" by { assert Digits(4) == "4"; }
  }

  lemma InsertHeadExample()
    ensures InsertHead(Names("D", "T", ["A", "B"])) == "INSERT INTO D.T (A, B)\nVALUES ("
  {
    assert Joined(["A", "B"]) == "A, B" by { assert ["A", "B"][1..] == ["B"]; }
  }

  lemma ValueExamples()
    ensures Render(TextValue("o'c")) == "'o''c'" && Render(BinaryValue([0xAB])) == "X'ab'"
    ensures Render(IntValue(-17)) == "-17"
  {
    assert Digits(17) == "17" by { assert Digits(1) == "1"; }
    assert Doubled("o'c") == "o''c" by {
      assert "o'c"[1..] == "'c" && "'c"[1..] == "c";
      assert Doubled("c") == "c" && Doubled("'c") == "''c";
    }
    assert Hex([0xAB]) == "ab" by { assert [0xAB][1..] == []; }
  }

  lemma RowExample()
    ensures RowText([IntValue(-17), Null, BoolValue(true)]) == "-17, NULL, true"
  {
    hide Render;
    var row := [IntValue(-17), Null, BoolValue(true)];
    assert row[1..] == [Null, BoolValue(true)] && row[1..][1..] == [BoolValue(true)];
    assert Render(Null) == "NULL" && Render(BoolValue(true)) == "true" by { RenderedWords(); }
    ValueExamples();
    assert RowText(row[1..][1..]) == "true" && RowText(row[1..]) == "NULL, true";
  }

  lemma RenderedWords()
    ensures Render(Null) == "NULL" && Render(BoolValue(true)) == "true"
  {
  }
}
