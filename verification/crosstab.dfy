/**
 * Count-mode cross-tabulation with margins: for a list of row-key columns and
 * one column key, each cell counts the records that fall in that
 * (row key, column value) bucket, and a "Total" column and a "Total" row
 * hold the marginal counts. Records with a missing key value are dropped,
 * and only observed row keys and column values get a row or a column.
 */
module CrossTab {
  import opened Wrappers
  import opened Records

  /** The (row key, column value) bucket of a record, or None when a key is missing. */
  function Entry(r: Record, rows: seq<Field>, col: Field): (e: Option<(seq<Value>, Value)>)
    ensures e.Some? <==> KeyOf(r, rows).Some? && FieldValue(r, col).Some?
    ensures e.Some? ==> e.value == (KeyOf(r, rows).value, FieldValue(r, col).value)
  {
    var k := KeyOf(r, rows);
    var c := FieldValue(r, col);
    if k.Some? && c.Some? then Some((k.value, c.value)) else None
  }

  /** Records in the bucket (key, c). */
  function CellCount(recs: seq<Record>, rows: seq<Field>, col: Field, key: seq<Value>, c: Value): nat
  {
    if recs == [] then 0
    else (if Entry(recs[0], rows, col) == Some((key, c)) then 1 else 0) + CellCount(recs[1..], rows, col, key, c)
  }

  /** Records with row key `key` and a column value. */
  function RowCount(recs: seq<Record>, rows: seq<Field>, col: Field, key: seq<Value>): nat
  {
    if recs == [] then 0
    else
      var e := Entry(recs[0], rows, col);
      (if e.Some? && e.value.0 == key then 1 else 0) + RowCount(recs[1..], rows, col, key)
  }

  /** Records with column value `c` and a complete row key. */
  function ColCount(recs: seq<Record>, rows: seq<Field>, col: Field, c: Value): nat
  {
    if recs == [] then 0
    else
      var e := Entry(recs[0], rows, col);
      (if e.Some? && e.value.1 == c then 1 else 0) + ColCount(recs[1..], rows, col, c)
  }

  /** Records with no missing key value at all. */
  function CompleteCount(recs: seq<Record>, rows: seq<Field>, col: Field): nat
  {
    if recs == [] then 0
    else (if Entry(recs[0], rows, col).Some? then 1 else 0) + CompleteCount(recs[1..], rows, col)
  }

  /** The row keys observed among the complete records. */
  function RowKeys(recs: seq<Record>, rows: seq<Field>, col: Field): set<seq<Value>>
  {
    set r | r in recs && Entry(r, rows, col).Some? :: Entry(r, rows, col).value.0
  }

  /** The column values observed among the complete records. */
  function ColValues(recs: seq<Record>, rows: seq<Field>, col: Field): set<Value>
  {
    set r | r in recs && Entry(r, rows, col).Some? :: Entry(r, rows, col).value.1
  }

  /** A row header of the table: an observed row key, or the "Total" margin row. */
  datatype RowKey = Row(values: seq<Value>) | TotalRow

  /** A column header of the table: an observed column value, or the "Total" margin column. */
  datatype ColKey = Col(value: Value) | TotalCol

  /** The address of one cell of the table. */
  datatype Cell = Cell(row: RowKey, col: ColKey)

  type Table = map<Cell, nat>

  function RowHeaders(recs: seq<Record>, rows: seq<Field>, col: Field): set<RowKey>
  {
    (set k | k in RowKeys(recs, rows, col) :: Row(k)) + {TotalRow}
  }

  function ColHeaders(recs: seq<Record>, rows: seq<Field>, col: Field): set<ColKey>
  {
    (set c | c in ColValues(recs, rows, col) :: Col(c)) + {TotalCol}
  }

  /** The count a cell holds: its bucket, or a margin. */
  function CellValue(recs: seq<Record>, rows: seq<Field>, col: Field, cell: Cell): nat
  {
    match cell
    case Cell(Row(k), Col(c)) => CellCount(recs, rows, col, k, c)
    case Cell(Row(k), TotalCol) => RowCount(recs, rows, col, k)
    case Cell(TotalRow, Col(c)) => ColCount(recs, rows, col, c)
    case Cell(TotalRow, TotalCol) => CompleteCount(recs, rows, col)
  }

  /**
   * The cross-tabulation of `recs` by the row-key columns `rows` and the column key `col`,
   * with margins: dense over the observed row keys and column values, plus the Total row
   * and Total column.
   */
  function CountTable(recs: seq<Record>, rows: seq<Field>, col: Field): Table
  {
    var cells := set k, c | k in RowHeaders(recs, rows, col) && c in ColHeaders(recs, rows, col) :: Cell(k, c);
    map cell | cell in cells :: CellValue(recs, rows, col, cell)
  }

  /** The table is dense: every (row header, column header) pair has a cell, and nothing else does. */
  lemma CountTableShape(recs: seq<Record>, rows: seq<Field>, col: Field)
    ensures forall cell :: cell in CountTable(recs, rows, col) <==>
      cell.row in RowHeaders(recs, rows, col) && cell.col in ColHeaders(recs, rows, col)
    ensures forall cell :: cell in CountTable(recs, rows, col) ==>
      CountTable(recs, rows, col)[cell] == CellValue(recs, rows, col, cell)
  {
  }

  // ---------------------------------------------------------------------------
  // Counting facts

  /** A bucket is non-empty exactly when some record falls in it. */
  lemma {:induction false} CellCountPositive(recs: seq<Record>, rows: seq<Field>, col: Field, key: seq<Value>, c: Value)
    ensures CellCount(recs, rows, col, key, c) > 0 <==> exists r :: r in recs && Entry(r, rows, col) == Some((key, c))
  {
    if recs != [] {
      CellCountPositive(recs[1..], rows, col, key, c);
      assert forall r :: r in recs <==> r == recs[0] || r in recs[1..];
    }
  }

  /** Records with no Risk Score. */
  function MissingScores(recs: seq<Record>): nat
  {
    if recs == [] then 0 else (if recs[0].riskScore.None? then 1 else 0) + MissingScores(recs[1..])
  }

  /**
   * Only a missing Risk Score keeps a record out of the table, and only when Risk Score
   * is one of the keys; the table then counts every other record.
   */
  lemma {:induction false} OnlyMissingScoresDropped(recs: seq<Record>, rows: seq<Field>, col: Field)
    ensures forall r :: Entry(r, rows, col).None? <==> r.riskScore.None? && (col == RiskScore || RiskScore in rows)
    ensures CompleteCount(recs, rows, col) ==
      |recs| - (if col == RiskScore || RiskScore in rows then MissingScores(recs) else 0)
  {
    forall r ensures Entry(r, rows, col).None? <==> r.riskScore.None? && (col == RiskScore || RiskScore in rows) {
      if RiskScore in rows {
        var i :| 0 <= i < |rows| && rows[i] == RiskScore;
      }
    }
    if recs != [] {
      OnlyMissingScoresDropped(recs[1..], rows, col);
    }
  }

  /** Every observed row key and every observed column value has at least one record. */
  lemma {:induction false} ObservedMeansCounted(recs: seq<Record>, rows: seq<Field>, col: Field)
    ensures forall k :: k in RowKeys(recs, rows, col) ==> RowCount(recs, rows, col, k) > 0
    ensures forall c :: c in ColValues(recs, rows, col) ==> ColCount(recs, rows, col, c) > 0
  {
    if recs != [] {
      ObservedMeansCounted(recs[1..], rows, col);
      forall k | k in RowKeys(recs, rows, col)
        ensures RowCount(recs, rows, col, k) > 0
      {
        var r :| r in recs && Entry(r, rows, col).Some? && Entry(r, rows, col).value.0 == k;
        if r != recs[0] {
          assert r in recs[1..];
          assert k in RowKeys(recs[1..], rows, col);
        }
      }
      forall c | c in ColValues(recs, rows, col)
        ensures ColCount(recs, rows, col, c) > 0
      {
        var r :| r in recs && Entry(r, rows, col).Some? && Entry(r, rows, col).value.1 == c;
        if r != recs[0] {
          assert r in recs[1..];
          assert c in ColValues(recs[1..], rows, col);
        }
      }
    }
  }

  /** Sum over the columns `cs` of the buckets of row key `key`. */
  function SumOverCols(recs: seq<Record>, rows: seq<Field>, col: Field, key: seq<Value>, cs: seq<Value>): nat
  {
    if cs == [] then 0
    else CellCount(recs, rows, col, key, cs[0]) + SumOverCols(recs, rows, col, key, cs[1..])
  }

  /** Sum over the row keys `ks` of the buckets of column value `c`. */
  function SumOverRows(recs: seq<Record>, rows: seq<Field>, col: Field, ks: seq<seq<Value>>, c: Value): nat
  {
    if ks == [] then 0
    else CellCount(recs, rows, col, ks[0], c) + SumOverRows(recs, rows, col, ks[1..], c)
  }

  /** Sum over the columns `cs` of the column margins. */
  function SumOfColCounts(recs: seq<Record>, rows: seq<Field>, col: Field, cs: seq<Value>): nat
  {
    if cs == [] then 0
    else ColCount(recs, rows, col, cs[0]) + SumOfColCounts(recs, rows, col, cs[1..])
  }

  /** Sum over the row keys `ks` of the row margins. */
  function SumOfRowCounts(recs: seq<Record>, rows: seq<Field>, col: Field, ks: seq<seq<Value>>): nat
  {
    if ks == [] then 0
    else RowCount(recs, rows, col, ks[0]) + SumOfRowCounts(recs, rows, col, ks[1..])
  }

  /** Peeling the first record off every bucket of a row. */
  lemma {:induction false} SumOverColsHead(recs: seq<Record>, rows: seq<Field>, col: Field, key: seq<Value>, cs: seq<Value>)
    requires recs != [] && Distinct(cs)
    ensures SumOverCols(recs, rows, col, key, cs) ==
      SumOverCols(recs[1..], rows, col, key, cs) +
      (var e := Entry(recs[0], rows, col); if e.Some? && e.value.0 == key && e.value.1 in cs then 1 else 0)
  {
    if cs != [] {
      SumOverColsHead(recs, rows, col, key, cs[1..]);
      var e := Entry(recs[0], rows, col);
      if e.Some? && e.value.0 == key && e.value.1 == cs[0] {
        DistinctTail(cs);
      }
    }
  }

  /** Peeling the first record off every bucket of a column. */
  lemma {:induction false} SumOverRowsHead(recs: seq<Record>, rows: seq<Field>, col: Field, ks: seq<seq<Value>>, c: Value)
    requires recs != [] && Distinct(ks)
    ensures SumOverRows(recs, rows, col, ks, c) ==
      SumOverRows(recs[1..], rows, col, ks, c) +
      (var e := Entry(recs[0], rows, col); if e.Some? && e.value.1 == c && e.value.0 in ks then 1 else 0)
  {
    if ks != [] {
      SumOverRowsHead(recs, rows, col, ks[1..], c);
      var e := Entry(recs[0], rows, col);
      if e.Some? && e.value.1 == c && e.value.0 == ks[0] {
        DistinctTail(ks);
      }
    }
  }

  /** Peeling the first record off every column margin. */
  lemma {:induction false} SumOfColCountsHead(recs: seq<Record>, rows: seq<Field>, col: Field, cs: seq<Value>)
    requires recs != [] && Distinct(cs)
    ensures SumOfColCounts(recs, rows, col, cs) ==
      SumOfColCounts(recs[1..], rows, col, cs) +
      (var e := Entry(recs[0], rows, col); if e.Some? && e.value.1 in cs then 1 else 0)
  {
    if cs != [] {
      SumOfColCountsHead(recs, rows, col, cs[1..]);
      var e := Entry(recs[0], rows, col);
      if e.Some? && e.value.1 == cs[0] {
        DistinctTail(cs);
      }
    }
  }

  /** Peeling the first record off every row margin. */
  lemma {:induction false} SumOfRowCountsHead(recs: seq<Record>, rows: seq<Field>, col: Field, ks: seq<seq<Value>>)
    requires recs != [] && Distinct(ks)
    ensures SumOfRowCounts(recs, rows, col, ks) ==
      SumOfRowCounts(recs[1..], rows, col, ks) +
      (var e := Entry(recs[0], rows, col); if e.Some? && e.value.0 in ks then 1 else 0)
  {
    if ks != [] {
      DistinctTail(ks);
      SumOfRowCountsHead(recs, rows, col, ks[1..]);
    }
  }

  /** A row's buckets, over columns that list every observed value once, add up to the row's record count. */
  lemma {:induction false} RowCountIsSum(recs: seq<Record>, rows: seq<Field>, col: Field, key: seq<Value>, cs: seq<Value>)
    requires Distinct(cs)
    requires forall c :: c in ColValues(recs, rows, col) ==> c in cs
    ensures SumOverCols(recs, rows, col, key, cs) == RowCount(recs, rows, col, key)
  {
    if recs == [] {
      if cs != [] { RowCountIsSum(recs, rows, col, key, cs[1..]); }
    } else {
      assert ColValues(recs[1..], rows, col) <= ColValues(recs, rows, col);
      RowCountIsSum(recs[1..], rows, col, key, cs);
      SumOverColsHead(recs, rows, col, key, cs);
      var e := Entry(recs[0], rows, col);
      if e.Some? { assert e.value.1 in ColValues(recs, rows, col); }
    }
  }

  /** A column's buckets, over row keys that list every observed key once, add up to the column's record count. */
  lemma {:induction false} ColCountIsSum(recs: seq<Record>, rows: seq<Field>, col: Field, ks: seq<seq<Value>>, c: Value)
    requires Distinct(ks)
    requires forall k :: k in RowKeys(recs, rows, col) ==> k in ks
    ensures SumOverRows(recs, rows, col, ks, c) == ColCount(recs, rows, col, c)
  {
    if recs == [] {
      if ks != [] { ColCountIsSum(recs, rows, col, ks[1..], c); }
    } else {
      assert RowKeys(recs[1..], rows, col) <= RowKeys(recs, rows, col);
      ColCountIsSum(recs[1..], rows, col, ks, c);
      SumOverRowsHead(recs, rows, col, ks, c);
      var e := Entry(recs[0], rows, col);
      if e.Some? { assert e.value.0 in RowKeys(recs, rows, col); }
    }
  }

  /** The column margins add up to the number of complete records. */
  lemma {:induction false} CompleteCountIsSum(recs: seq<Record>, rows: seq<Field>, col: Field, cs: seq<Value>)
    requires Distinct(cs)
    requires forall c :: c in ColValues(recs, rows, col) ==> c in cs
    ensures SumOfColCounts(recs, rows, col, cs) == CompleteCount(recs, rows, col)
  {
    if recs == [] {
      if cs != [] { CompleteCountIsSum(recs, rows, col, cs[1..]); }
    } else {
      assert ColValues(recs[1..], rows, col) <= ColValues(recs, rows, col);
      CompleteCountIsSum(recs[1..], rows, col, cs);
      SumOfColCountsHead(recs, rows, col, cs);
      var e := Entry(recs[0], rows, col);
      if e.Some? { assert e.value.1 in ColValues(recs, rows, col); }
    }
  }

  /** The row margins add up to the number of complete records. */
  lemma {:induction false} CompleteCountIsRowSum(recs: seq<Record>, rows: seq<Field>, col: Field, ks: seq<seq<Value>>)
    requires Distinct(ks)
    requires forall k :: k in RowKeys(recs, rows, col) ==> k in ks
    ensures SumOfRowCounts(recs, rows, col, ks) == CompleteCount(recs, rows, col)
  {
    if recs == [] {
      if ks != [] { CompleteCountIsRowSum(recs, rows, col, ks[1..]); }
    } else {
      assert RowKeys(recs[1..], rows, col) <= RowKeys(recs, rows, col);
      CompleteCountIsRowSum(recs[1..], rows, col, ks);
      SumOfRowCountsHead(recs, rows, col, ks);
      var e := Entry(recs[0], rows, col);
      if e.Some? { assert e.value.0 in RowKeys(recs, rows, col); }
    }
  }

  // ---------------------------------------------------------------------------
  // Margins of the table

  /** Sum of the cells of row `row` over the columns `cs` (a missing cell adds 0). */
  function SumAcross(t: Table, row: RowKey, cs: seq<Value>): nat
  {
    if cs == [] then 0
    else (if Cell(row, Col(cs[0])) in t then t[Cell(row, Col(cs[0]))] else 0) + SumAcross(t, row, cs[1..])
  }

  /** Sum of the cells of column `column` over the row keys `ks` (a missing cell adds 0). */
  function SumDown(t: Table, ks: seq<seq<Value>>, column: ColKey): nat
  {
    if ks == [] then 0
    else (if Cell(Row(ks[0]), column) in t then t[Cell(Row(ks[0]), column)] else 0) + SumDown(t, ks[1..], column)
  }

  /** An enumeration of the observed column values: each once, and nothing else. */
  ghost predicate ListsColumns(recs: seq<Record>, rows: seq<Field>, col: Field, cs: seq<Value>)
  {
    Distinct(cs) && forall c :: c in cs <==> c in ColValues(recs, rows, col)
  }

  /** An enumeration of the observed row keys: each once, and nothing else. */
  ghost predicate ListsRows(recs: seq<Record>, rows: seq<Field>, col: Field, ks: seq<seq<Value>>)
  {
    Distinct(ks) && forall k :: k in ks <==> k in RowKeys(recs, rows, col)
  }

  lemma {:induction false} SumAcrossBuckets(recs: seq<Record>, rows: seq<Field>, col: Field, key: seq<Value>, cs: seq<Value>)
    requires key in RowKeys(recs, rows, col)
    requires forall c :: c in cs ==> c in ColValues(recs, rows, col)
    ensures SumAcross(CountTable(recs, rows, col), Row(key), cs) == SumOverCols(recs, rows, col, key, cs)
  {
    CountTableShape(recs, rows, col);
    if cs != [] {
      SumAcrossBuckets(recs, rows, col, key, cs[1..]);
      assert Cell(Row(key), Col(cs[0])) in CountTable(recs, rows, col);
    }
  }

  lemma {:induction false} SumAcrossMargins(recs: seq<Record>, rows: seq<Field>, col: Field, cs: seq<Value>)
    requires forall c :: c in cs ==> c in ColValues(recs, rows, col)
    ensures SumAcross(CountTable(recs, rows, col), TotalRow, cs) == SumOfColCounts(recs, rows, col, cs)
  {
    CountTableShape(recs, rows, col);
    if cs != [] {
      SumAcrossMargins(recs, rows, col, cs[1..]);
      assert Cell(TotalRow, Col(cs[0])) in CountTable(recs, rows, col);
    }
  }

  lemma {:induction false} SumDownBuckets(recs: seq<Record>, rows: seq<Field>, col: Field, ks: seq<seq<Value>>, c: Value)
    requires c in ColValues(recs, rows, col)
    requires forall k :: k in ks ==> k in RowKeys(recs, rows, col)
    ensures SumDown(CountTable(recs, rows, col), ks, Col(c)) == SumOverRows(recs, rows, col, ks, c)
  {
    CountTableShape(recs, rows, col);
    if ks != [] {
      SumDownBuckets(recs, rows, col, ks[1..], c);
      assert Cell(Row(ks[0]), Col(c)) in CountTable(recs, rows, col);
    }
  }

  lemma {:induction false} SumDownMargins(recs: seq<Record>, rows: seq<Field>, col: Field, ks: seq<seq<Value>>)
    requires forall k :: k in ks ==> k in RowKeys(recs, rows, col)
    ensures SumDown(CountTable(recs, rows, col), ks, TotalCol) == SumOfRowCounts(recs, rows, col, ks)
  {
    CountTableShape(recs, rows, col);
    if ks != [] {
      SumDownMargins(recs, rows, col, ks[1..]);
      assert Cell(Row(ks[0]), TotalCol) in CountTable(recs, rows, col);
    }
  }

  /**
   * The "Total" column of an observed row is the sum of that row's cells, and the
   * row's cells count exactly the records with that row key.
   */
  lemma TotalColumnIsRowSum(recs: seq<Record>, rows: seq<Field>, col: Field, key: seq<Value>, cs: seq<Value>)
    requires key in RowKeys(recs, rows, col)
    requires ListsColumns(recs, rows, col, cs)
    ensures Cell(Row(key), TotalCol) in CountTable(recs, rows, col)
    ensures CountTable(recs, rows, col)[Cell(Row(key), TotalCol)] == SumAcross(CountTable(recs, rows, col), Row(key), cs)
    ensures CountTable(recs, rows, col)[Cell(Row(key), TotalCol)] == RowCount(recs, rows, col, key) > 0
  {
    CountTableShape(recs, rows, col);
    SumAcrossBuckets(recs, rows, col, key, cs);
    RowCountIsSum(recs, rows, col, key, cs);
    ObservedMeansCounted(recs, rows, col);
  }

  /**
   * The "Total" row of an observed column is the sum of that column's cells over
   * the observed row keys.
   */
  lemma TotalRowIsColumnSum(recs: seq<Record>, rows: seq<Field>, col: Field, ks: seq<seq<Value>>, c: Value)
    requires c in ColValues(recs, rows, col)
    requires ListsRows(recs, rows, col, ks)
    ensures Cell(TotalRow, Col(c)) in CountTable(recs, rows, col)
    ensures CountTable(recs, rows, col)[Cell(TotalRow, Col(c))] == SumDown(CountTable(recs, rows, col), ks, Col(c))
    ensures CountTable(recs, rows, col)[Cell(TotalRow, Col(c))] == ColCount(recs, rows, col, c) > 0
  {
    CountTableShape(recs, rows, col);
    SumDownBuckets(recs, rows, col, ks, c);
    ColCountIsSum(recs, rows, col, ks, c);
    ObservedMeansCounted(recs, rows, col);
  }

  /** The grand total is the sum of the Total row, and counts every complete record. */
  lemma GrandTotalIsSum(recs: seq<Record>, rows: seq<Field>, col: Field, cs: seq<Value>)
    requires ListsColumns(recs, rows, col, cs)
    ensures Cell(TotalRow, TotalCol) in CountTable(recs, rows, col)
    ensures CountTable(recs, rows, col)[Cell(TotalRow, TotalCol)] == SumAcross(CountTable(recs, rows, col), TotalRow, cs)
    ensures CountTable(recs, rows, col)[Cell(TotalRow, TotalCol)] == CompleteCount(recs, rows, col)
  {
    CountTableShape(recs, rows, col);
    SumAcrossMargins(recs, rows, col, cs);
    CompleteCountIsSum(recs, rows, col, cs);
  }

  /** The grand total is also the sum down the "Total" column over the observed row keys. */
  lemma GrandTotalIsColumnSum(recs: seq<Record>, rows: seq<Field>, col: Field, ks: seq<seq<Value>>)
    requires ListsRows(recs, rows, col, ks)
    ensures Cell(TotalRow, TotalCol) in CountTable(recs, rows, col)
    ensures CountTable(recs, rows, col)[Cell(TotalRow, TotalCol)] == SumDown(CountTable(recs, rows, col), ks, TotalCol)
    ensures CountTable(recs, rows, col)[Cell(TotalRow, TotalCol)] == CompleteCount(recs, rows, col)
  {
    CountTableShape(recs, rows, col);
    SumDownMargins(recs, rows, col, ks);
    CompleteCountIsRowSum(recs, rows, col, ks);
  }

  /** Each non-margin cell counts exactly the records in its bucket; an empty bucket of an observed row and column is 0. */
  lemma CellCountsBucket(recs: seq<Record>, rows: seq<Field>, col: Field, key: seq<Value>, c: Value)
    requires key in RowKeys(recs, rows, col) && c in ColValues(recs, rows, col)
    ensures Cell(Row(key), Col(c)) in CountTable(recs, rows, col)
    ensures CountTable(recs, rows, col)[Cell(Row(key), Col(c))] > 0 <==>
      exists r :: r in recs && KeyOf(r, rows) == Some(key) && FieldValue(r, col) == Some(c)
  {
    CountTableShape(recs, rows, col);
    CellCountPositive(recs, rows, col, key, c);
  }
}
