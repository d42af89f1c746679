/**
 The Databricks result table of api/databricks.go: rows are only ever inserted, by a MERGE keyed on
 result_id, and read back to decide whether a publication is exact.
 */
module Sink {
  import opened Ledger

  datatype SinkRow = SinkRow(runId: Id, resultId: Id, payload: Outcome)

  datatype Readback = Exact | Absent | Conflict

  /** SELECT run_id, result_json FROM table WHERE result_id = ? */
  function Stored(table: seq<SinkRow>, resultId: Id): (found: seq<SinkRow>)
    ensures forall row :: row in found <==> row in table && row.resultId == resultId
  {
    if table == [] then []
    else
      var rest := Stored(table[..|table| - 1], resultId);
      var last := table[|table| - 1];
      assert table == table[..|table| - 1] + [last];
      if last.resultId == resultId then rest + [last] else rest
  }

  /** MERGE ... ON target.result_id = source.result_id WHEN NOT MATCHED THEN INSERT */
  function Merge(table: seq<SinkRow>, source: SinkRow): seq<SinkRow> {
    if Stored(table, source.resultId) == [] then table + [source] else table
  }

  /** What reading back tells about the row a publication should have left. */
  function ReadbackOf(table: seq<SinkRow>, expected: SinkRow): Readback {
    var found := Stored(table, expected.resultId);
    if found == [] then Absent else if found == [expected] then Exact else Conflict
  }

  /** Inserting a row changes the answer for its own result_id only. */
  lemma {:induction false} StoredAppend(table: seq<SinkRow>, row: SinkRow, resultId: Id)
    ensures Stored(table + [row], resultId)
         == Stored(table, resultId) + (if row.resultId == resultId then [row] else [])
  {
    assert (table + [row])[..|table + [row]| - 1] == table;
  }

  lemma {:induction false} StoredNonempty(table: seq<SinkRow>, resultId: Id)
    ensures Stored(table, resultId) != [] <==> exists k :: 0 <= k < |table| && table[k].resultId == resultId
  {
    var found := Stored(table, resultId);
    if found != [] {
      assert found[0] in found;
    }
    if k :| 0 <= k < |table| && table[k].resultId == resultId {
      assert table[k] in found;
    }
  }

  lemma {:induction false} OnlyOneStored(table: seq<SinkRow>, row: SinkRow, k: nat)
    requires k < |table| && table[k] == row
    requires forall i :: 0 <= i < |table| && table[i].resultId == row.resultId ==> i == k
    ensures Stored(table, row.resultId) == [row]
    decreases |table|
  {
    var init := table[..|table| - 1];
    StoredNonempty(init, row.resultId);
    if k < |init| {
      OnlyOneStored(init, row, k);
    }
  }

  lemma {:induction false} StoredTwice(table: seq<SinkRow>, row: SinkRow, i: nat, j: nat)
    requires i < j < |table| && table[i].resultId == table[j].resultId == row.resultId
    ensures |Stored(table, row.resultId)| >= 2
    decreases |table|
  {
    var init := table[..|table| - 1];
    if j < |init| {
      StoredTwice(init, row, i, j);
    } else {
      StoredNonempty(init, row.resultId);
      assert init[i].resultId == row.resultId;
    }
  }

  /** Absent: no row has the key. Exact: exactly one has, and it is the expected one. Anything else is a conflict. */
  lemma {:induction false} ReadbackMeans(table: seq<SinkRow>, expected: SinkRow)
    ensures ReadbackOf(table, expected).Absent? <==>
              forall i :: 0 <= i < |table| ==> table[i].resultId != expected.resultId
    ensures ReadbackOf(table, expected).Exact? <==>
              exists k :: 0 <= k < |table| && table[k] == expected
                && forall i :: 0 <= i < |table| && table[i].resultId == expected.resultId ==> i == k
  {
    StoredNonempty(table, expected.resultId);
    var found := Stored(table, expected.resultId);
    if found == [expected] {
      assert found[0] in found;
      var k :| 0 <= k < |table| && table[k] == expected;
      forall i | 0 <= i < |table| && table[i].resultId == expected.resultId ensures i == k {
        if i < k {
          StoredTwice(table, expected, i, k);
        } else if k < i {
          StoredTwice(table, expected, k, i);
        }
      }
    }
    if k :| 0 <= k < |table| && table[k] == expected
            && forall i :: 0 <= i < |table| && table[i].resultId == expected.resultId ==> i == k {
      OnlyOneStored(table, expected, k);
    }
  }

  /** A MERGE leaves every other key alone, never removes or rewrites a row, and leaves at least one row
      for its own key; repeating it, at once or later, inserts nothing more. */
  lemma {:induction false} MergeInsertsOnce(table: seq<SinkRow>, source: SinkRow, resultId: Id)
    ensures table <= Merge(table, source)
    ensures resultId != source.resultId ==> Stored(Merge(table, source), resultId) == Stored(table, resultId)
    ensures Stored(Merge(table, source), source.resultId)
         == if Stored(table, source.resultId) == [] then [source] else Stored(table, source.resultId)
    ensures Merge(Merge(table, source), source) == Merge(table, source)
  {
    StoredAppend(table, source, resultId);
    StoredAppend(table, source, source.resultId);
  }

  class DatabricksSink {
    var table: seq<SinkRow>

    constructor ()
      ensures table == []
    {
      table := [];
    }

    /** The MERGE of Publish. */
    method ExecuteMerge(source: SinkRow)
      modifies this
      ensures table == Merge(old(table), source)
    {
      var matched := false;
      for i := 0 to |table|
        invariant matched <==> exists k :: 0 <= k < i && table[k].resultId == source.resultId
      {
        if table[i].resultId == source.resultId {
          matched := true;
        }
      }
      StoredNonempty(table, source.resultId);
      if !matched {
        table := table + [source];
      }
    }

    /** verifyPayload: stop at the first row that differs, then require exactly one row. */
    method VerifyPayload(expected: SinkRow) returns (result: Readback)
      ensures result == ReadbackOf(table, expected)
    {
      var count := 0;
      ghost var resultId := expected.resultId;
      for i := 0 to |table|
        invariant count == |Stored(table[..i], resultId)|
        invariant forall row :: row in Stored(table[..i], resultId) ==> row == expected
      {
        assert table[..i + 1] == table[..i] + [table[i]];
        StoredAppend(table[..i], table[i], resultId);
        if table[i].resultId == expected.resultId {
          count := count + 1;
          if table[i] != expected {
            assert table[i] in Stored(table, resultId);
            return Conflict;
          }
        }
      }
      assert table[..|table|] == table;
      ghost var found := Stored(table, resultId);
      if count == 0 {
        return Absent;
      }
      assert found[0] in found;
      if count > 1 {
        return Conflict;
      }
      assert found == [expected];
      return Exact;
    }
  }
}
