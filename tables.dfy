/** Tab-separated tables as pandas holds them once read with an index column:
    a set of columns, the index in file order, and one row of cells per key. */
module Tables {
  import opened Common

  /** The cells of one row by column; a column missing from the map holds NaN. */
  type Row = map<string, Value>

  datatype Table = Table(columns: set<string>, ids: seq<string>, rows: map<string, Row>)

  /** The value of one cell: NaN when the row leaves it out. */
  function Cell(row: Row, column: string): Value {
    if column in row then row[column] else Null
  }

  /** The row of a key, all NaN when the table lacks it. */
  function RowOf(t: Table, id: string): Row {
    if id in t.rows then t.rows[id] else map[]
  }

  /** `t.loc[id, column]`: KeyError for a key or a column the table does not have. */
  function Loc(t: Table, id: string, column: string): (r: Result<Value, Error>)
    ensures r.Success? <==> id in t.rows && column in t.columns
    ensures r.Success? ==> r.value == Cell(t.rows[id], column)
    ensures id !in t.rows ==> r == Failure(KeyMissing(id))
  {
    if id !in t.rows then Failure(KeyMissing(id))
    else if column !in t.columns then Failure(KeyMissing(column))
    else Success(Cell(t.rows[id], column))
  }

  /** A row reindexed onto the given columns, as pandas does when a row of
      another table is assigned with `.loc`: cells of other columns are dropped
      and missing ones become NaN. */
  function Conform(row: Row, columns: set<string>): (r: Row)
    ensures r.Keys <= columns
    ensures forall c :: c in columns ==> Cell(r, c) == Cell(row, c)
  {
    map c | c in row && c in columns :: row[c]
  }

  // ------------------------------------------------ the participants merge

  /** The participants merge of mriqc_job.py: every key of `incoming`, taken in
      order, that the table does not hold yet is appended with its row
      reindexed onto the table's columns; rows already present are kept. */
  function Merge(t: Table, incoming: Table): Table {
    MergeIds(t, incoming.ids, incoming)
  }

  function MergeIds(t: Table, ids: seq<string>, incoming: Table): Table
    decreases |ids|
  {
    if |ids| == 0 then t
    else MergeIds(AddIfAbsent(t, ids[0], incoming), ids[1..], incoming)
  }

  /** One step of the merge loop. */
  function AddIfAbsent(t: Table, id: string, incoming: Table): Table {
    if id in t.rows then t
    else Table(t.columns, t.ids + [id], t.rows[id := Conform(RowOf(incoming, id), t.columns)])
  }

  /** The merge adds exactly the new keys: the key set after it is the union. */
  lemma {:induction false} MergeIdsKeys(t: Table, ids: seq<string>, incoming: Table)
    ensures forall k :: k in MergeIds(t, ids, incoming).rows <==> k in t.rows || k in ids
    decreases |ids|
  {
    if |ids| > 0 {
      MergeIdsKeys(AddIfAbsent(t, ids[0], incoming), ids[1..], incoming);
      assert forall k :: k in ids <==> k == ids[0] || k in ids[1..];
    }
  }

  /** Rows already in the table are never replaced, and a new key gets the
      incoming row reindexed onto the old columns. */
  lemma {:induction false} MergeIdsRows(t: Table, ids: seq<string>, incoming: Table)
    ensures forall k :: k in MergeIds(t, ids, incoming).rows <==> k in t.rows || k in ids
    ensures forall k :: k in t.rows ==> MergeIds(t, ids, incoming).rows[k] == t.rows[k]
    ensures forall k :: k in ids && k !in t.rows ==>
              MergeIds(t, ids, incoming).rows[k] == Conform(RowOf(incoming, k), t.columns)
    ensures MergeIds(t, ids, incoming).columns == t.columns
    decreases |ids|
  {
    if |ids| > 0 {
      var t1 := AddIfAbsent(t, ids[0], incoming);
      MergeIdsRows(t1, ids[1..], incoming);
      MergeIdsKeys(t1, ids[1..], incoming);
      assert forall k :: k in ids <==> k == ids[0] || k in ids[1..];
    }
  }

  /** The old index order is kept; new keys only follow it. */
  lemma {:induction false} MergeIdsPrefix(t: Table, ids: seq<string>, incoming: Table)
    ensures |t.ids| <= |MergeIds(t, ids, incoming).ids|
    ensures MergeIds(t, ids, incoming).ids[..|t.ids|] == t.ids
    decreases |ids|
  {
    if |ids| > 0 {
      var t1 := AddIfAbsent(t, ids[0], incoming);
      MergeIdsPrefix(t1, ids[1..], incoming);
      assert t1.ids[..|t.ids|] == t.ids;
    }
  }

  /** Merging keys that are all present already changes nothing. */
  lemma {:induction false} MergeIdsPresent(t: Table, ids: seq<string>, incoming: Table)
    requires forall k :: k in ids ==> k in t.rows
    ensures MergeIds(t, ids, incoming) == t
    decreases |ids|
  {
    if |ids| > 0 {
      assert ids[0] in ids;
      MergeIdsPresent(t, ids[1..], incoming);
    }
  }

  /** No participant is ever removed, every incoming one is present afterwards,
      existing rows win over incoming ones, and the columns stay those of the
      existing table. */
  lemma MergeSpec(t: Table, incoming: Table)
    ensures forall k :: k in Merge(t, incoming).rows <==> k in t.rows || k in incoming.ids
    ensures forall k :: k in t.rows ==> Merge(t, incoming).rows[k] == t.rows[k]
    ensures forall k :: k in incoming.ids && k !in t.rows ==>
              Merge(t, incoming).rows[k] == Conform(RowOf(incoming, k), t.columns)
    ensures Merge(t, incoming).columns == t.columns
    ensures |t.ids| <= |Merge(t, incoming).ids| && Merge(t, incoming).ids[..|t.ids|] == t.ids
  {
    MergeIdsKeys(t, incoming.ids, incoming);
    MergeIdsRows(t, incoming.ids, incoming);
    MergeIdsPrefix(t, incoming.ids, incoming);
  }

  /** Merging the same incoming table a second time changes nothing. */
  lemma MergeIdempotent(t: Table, incoming: Table)
    ensures Merge(Merge(t, incoming), incoming) == Merge(t, incoming)
  {
    MergeIdsKeys(t, incoming.ids, incoming);
    MergeIdsPresent(Merge(t, incoming), incoming.ids, incoming);
  }

  /** The merge loop itself: `olddata` is extended row by row. */
  method MergeTables(existing: Table, incoming: Table) returns (merged: Table)
    ensures merged == Merge(existing, incoming)
  {
    merged := existing;
    var i := 0;
    while i < |incoming.ids|
      invariant 0 <= i <= |incoming.ids|
      invariant MergeIds(merged, incoming.ids[i..], incoming) == Merge(existing, incoming)
    {
      var participant := incoming.ids[i];
      if participant !in merged.rows {
        merged := Table(merged.columns, merged.ids + [participant],
                        merged.rows[participant := Conform(RowOf(incoming, participant), merged.columns)]);
      }
      assert incoming.ids[i..][1..] == incoming.ids[i + 1..];
      i := i + 1;
    }
  }
}
