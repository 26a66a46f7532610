/** Which rows a table has after a run of its master column, and with which contents, read off the
    operations without following them one by one. */
module RowHistory {
  import opened ColumnStore
  import opened MasterColumn

  predicate Does(env: Env, e: Entry, kind: Kind, trid: nat) {
    e.kind == kind && e.trid == trid && Accepted(env, e.body)
  }

  /** Entry `i` inserts the row, and no later entry deletes it. */
  ghost predicate Lasts(env: Env, log: seq<Entry>, trid: nat, i: nat) {
    && i < |log| && Does(env, log[i], Insert, trid)
    && forall j :: i < j < |log| ==> !Does(env, log[j], Delete, trid)
  }

  ghost predicate LastsFromSome(env: Env, log: seq<Entry>, trid: nat, n: nat) {
    exists i: nat :: i < n && Lasts(env, log, trid, i)
  }

  /** Entry `k` wrote the row as it is: it is the last update of the row since it lasts, or, if there is
      none, the first insert since it lasts. */
  ghost predicate Wrote(env: Env, log: seq<Entry>, trid: nat, k: nat) {
    && k < |log| && (forall j :: k < j < |log| ==> !Does(env, log[j], Update, trid))
    && if LastsFromSome(env, log, trid, k) then Does(env, log[k], Update, trid) else Lasts(env, log, trid, k)
  }

  lemma LastsLonger(env: Env, log: seq<Entry>, e: Entry, trid: nat, i: nat)
    ensures Lasts(env, log + [e], trid, i) <==>
            if i < |log| then Lasts(env, log, trid, i) && !Does(env, e, Delete, trid)
            else i == |log| && Does(env, e, Insert, trid)
  {
    hide Does;
    var longer := log + [e];
    assert longer[|log|] == e;
    assert forall j :: 0 <= j < |log| ==> longer[j] == log[j];
  }

  lemma LastsFromSomeLonger(env: Env, log: seq<Entry>, e: Entry, trid: nat, n: nat)
    requires n <= |log|
    ensures LastsFromSome(env, log + [e], trid, n) <==> LastsFromSome(env, log, trid, n) && !Does(env, e, Delete, trid)
  {
    hide Lasts, Does;
    forall i: nat | i < n
      ensures Lasts(env, log + [e], trid, i) <==> Lasts(env, log, trid, i) && !Does(env, e, Delete, trid)
    {
      LastsLonger(env, log, e, trid, i);
    }
  }

  /** A table has the row exactly when some accepted insert of it is followed by no accepted delete. */
  lemma {:induction false} RowExists(env: Env, log: seq<Entry>, trid: nat)
    ensures trid in Rows(env, log) <==> LastsFromSome(env, log, trid, |log|)
  {
    hide Lasts;
    if log == [] {
    } else {
      var before, e := log[..|log| - 1], log[|log| - 1];
      assert log == before + [e];
      RowExists(env, before, trid);
      LastsFromSomeLonger(env, before, e, trid, |before|);
      LastsLonger(env, before, e, trid, |before|);
      assert LastsFromSome(env, log, trid, |log|) <==>
             LastsFromSome(env, log, trid, |before|) || Lasts(env, log, trid, |before|);
    }
  }

  lemma WroteLonger(env: Env, log: seq<Entry>, e: Entry, trid: nat, k: nat)
    requires k < |log|
    ensures Wrote(env, log + [e], trid, k) <==>
            Wrote(env, log, trid, k) && !Does(env, e, Update, trid) && !Does(env, e, Delete, trid)
  {
    hide Lasts, LastsFromSome, Does;
    var longer := log + [e];
    assert longer[|log|] == e && forall j :: 0 <= j < |log| ==> longer[j] == log[j];
    LastsFromSomeLonger(env, log, e, trid, k);
    LastsLonger(env, log, e, trid, k);
  }

  lemma WroteLast(env: Env, log: seq<Entry>, e: Entry, trid: nat)
    ensures Wrote(env, log + [e], trid, |log|) <==>
            if trid in Rows(env, log) then Does(env, e, Update, trid) else Does(env, e, Insert, trid)
  {
    hide Lasts, LastsFromSome, Rows;
    RowExists(env, log, trid);
    LastsFromSomeLonger(env, log, e, trid, |log|);
    LastsLonger(env, log, e, trid, |log|);
  }

  /** The contents of a row are those of the entry that wrote it. */
  lemma {:induction false} RowIsWritten(env: Env, log: seq<Entry>, trid: nat, k: nat)
    requires Wrote(env, log, trid, k)
    ensures trid in Rows(env, log) && Rows(env, log)[trid] == log[k].body
  {
    hide Wrote, Accepted;
    assert k < |log| by { WriterIsInLog(env, log, trid, k); }
    var before, e := log[..|log| - 1], log[|log| - 1];
    assert log == before + [e];
    if k == |before| {
      WroteLast(env, before, e, trid);
    } else {
      WroteLonger(env, before, e, trid, k);
      RowIsWritten(env, before, trid, k);
    }
  }

  lemma WriterIsInLog(env: Env, log: seq<Entry>, trid: nat, k: nat)
    requires Wrote(env, log, trid, k)
    ensures k < |log|
  {
  }

  /** Every row was written by some entry. */
  lemma {:induction false} RowHasWriter(env: Env, log: seq<Entry>, trid: nat) returns (k: nat)
    requires trid in Rows(env, log)
    ensures Wrote(env, log, trid, k)
  {
    hide Wrote, Accepted;
    var before, e := log[..|log| - 1], log[|log| - 1];
    assert log == before + [e];
    if if trid in Rows(env, before) then Does(env, e, Update, trid) else Does(env, e, Insert, trid) {
      k := |before|;
      WroteLast(env, before, e, trid);
    } else {
      k := RowHasWriter(env, before, trid);
      WriterIsInLog(env, before, trid, k);
      WroteLonger(env, before, e, trid, k);
    }
  }

  /** In every run the main index lists exactly the rows of which some accepted insert is followed by no
      accepted delete, each with the address of a record that holds the body of the entry that wrote
      the row. */
  lemma RunKeepsLatest(env: Env, log: seq<Entry>, ts: seq<Table>, n: nat, trid: nat)
    requires IsRun(env, log, ts) && n <= |log|
    ensures trid in ts[n].index <==> LastsFromSome(env, log[..n], trid, n)
    ensures trid in ts[n].index <==> exists k :: 0 <= k < n && Wrote(env, log[..n], trid, k)
    ensures forall k :: 0 <= k < n && Wrote(env, log[..n], trid, k) ==>
              trid in ts[n].index && RecordAt(ts[n].store, ts[n].index[trid], Tagged(log[k].body))
  {
    hide Wrote, LastsFromSome, RunStep, Inv, RecordAt, Tagged, Rows;
    var done := log[..n];
    RunHoldsRows(env, log, ts, n);
    RowExists(env, done, trid);
    forall k: nat | k < n && Wrote(env, done, trid, k)
      ensures trid in Rows(env, done) && Rows(env, done)[trid] == log[k].body
    {
      RowIsWritten(env, done, trid, k);
    }
    if trid in Rows(env, done) {
      var k := RowHasWriter(env, done, trid);
      WriterIsInLog(env, done, trid, k);
    }
  }
}
