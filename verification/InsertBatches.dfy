/** insertRows: multi-row INSERT statements under SQLite's limit on bound variables. */
module InsertBatches {
  import opened Common

  datatype Value = Text(text: string) | Blob(bytes: seq<bv8>) | Number(number: int)
  type Row = seq<Value>

  /** One executed INSERT into a table: VALUES tuples of `columns` placeholders, bound in order. */
  datatype Statement = Statement(table: nat, columns: nat, arguments: seq<Value>)

  datatype InsertError = NoValues | LimitBelowWidth | WidthMismatch | ExecFailed

  /** The tuples that bound arguments fill; used on a whole number of tuples. */
  function Tuples(columns: nat, arguments: seq<Value>): (rows: seq<Row>)
    decreases |arguments|
  {
    if columns == 0 || |arguments| < columns then []
    else Tuples(columns, arguments[..|arguments| - columns]) + [arguments[|arguments| - columns..]]
  }

  /** What a list of statements puts into a table. */
  function Delivered(log: seq<Statement>, table: nat): (rows: seq<Row>) {
    if log == [] then [] else
      var last := log[|log| - 1];
      Delivered(log[..|log| - 1], table) + DeliveredBy(last, table)
  }

  function DeliveredBy(s: Statement, table: nat): seq<Row> {
    if s.table == table then Tuples(s.columns, s.arguments) else []
  }

  lemma DeliveredOneMore(log: seq<Statement>, s: Statement, table: nat)
    ensures Delivered(log + [s], table) == Delivered(log, table) + DeliveredBy(s, table)
  {
    assert (log + [s])[..|log|] == log;
  }

  lemma {:induction false} DeliveredAppend(a: seq<Statement>, b: seq<Statement>, table: nat)
    ensures Delivered(a + b, table) == Delivered(a, table) + Delivered(b, table)
  {
    if b == [] {
      assert a + b == a;
    } else {
      hide Delivered, DeliveredBy;
      var init, last := b[..|b| - 1], b[|b| - 1];
      DeliveredAppend(a, init, table);
      DeliveredOneMore(a + init, last, table);
      DeliveredOneMore(init, last, table);
      LastOfAppend(a, b);
      Associate(Delivered(a, table), Delivered(init, table), DeliveredBy(last, table));
    }
  }

  lemma LastOfAppend<T>(a: seq<T>, b: seq<T>)
    requires b != []
    ensures a + b == (a + b[..|b| - 1]) + [b[|b| - 1]] && b == b[..|b| - 1] + [b[|b| - 1]]
  {}

  lemma Associate<T>(a: seq<T>, b: seq<T>, c: seq<T>)
    ensures (a + b) + c == a + (b + c)
  {}

  /** A table and the buffers before and after one table's buffer was inserted. */
  lemma InsertedStored(before: seq<Statement>, log: seq<Statement>, rows: seq<seq<Row>>, t: nat, u: nat)
    requires t < |rows| && u < |rows| && (forall s :: s in log ==> s.table == t) && Delivered(log, t) == rows[t]
    ensures Delivered(before + log, u) + rows[t := []][u] == Delivered(before, u) + rows[u]
  {
    hide Delivered;
    DeliveredAppend(before, log, u);
    if u != t { DeliveredElsewhere(log, u); }
  }

  lemma {:induction false} DeliveredElsewhere(log: seq<Statement>, table: nat)
    requires forall s :: s in log ==> s.table != table
    ensures Delivered(log, table) == []
  {
    if log != [] { DeliveredElsewhere(log[..|log| - 1], table); }
  }

  /** No statement binds more variables than allowed or carries more rows than asked for. */
  predicate Fits(s: Statement, variableLimit: int, maximumRows: int) {
    && |s.arguments| <= variableLimit
    && |Tuples(s.columns, s.arguments)| <= maximumRows
    && |s.arguments| == |Tuples(s.columns, s.arguments)| * s.columns
  }

  function RowsPerStatement(variableLimit: int, maximumRows: int, columns: nat): int
    requires columns > 0
  {
    if variableLimit / columns > maximumRows then maximumRows else variableLimit / columns
  }

  /** The most rows that keep both limits. */
  lemma RowsPerStatementIsMost(variableLimit: nat, maximumRows: nat, columns: nat, rows: nat)
    requires columns > 0
    ensures rows <= RowsPerStatement(variableLimit, maximumRows, columns)
       <==> rows <= maximumRows && rows * columns <= variableLimit
  {
    if rows <= variableLimit / columns { ChunkWithinLimit(variableLimit, columns, rows); }
    if rows > variableLimit / columns {
      assert rows * columns >= (variableLimit / columns + 1) * columns > variableLimit;
    }
  }

  ghost predicate SameWidth(rows: seq<Row>) {
    forall i :: 0 <= i < |rows| ==> |rows[i]| == |rows[0]|
  }

  /** What makes rows insertable at all. */
  ghost predicate Insertable(variableLimit: int, maximumRows: int, rows: seq<Row>) {
    rows != [] ==>
      |rows[0]| > 0 && RowsPerStatement(variableLimit, maximumRows, |rows[0]|) >= 1 && SameWidth(rows)
  }

  /** Rows that can be inserted together can be inserted in pieces. */
  lemma InsertableParts(variableLimit: int, maximumRows: int, a: seq<Row>, b: seq<Row>)
    requires Insertable(variableLimit, maximumRows, a + b)
    ensures Insertable(variableLimit, maximumRows, a) && Insertable(variableLimit, maximumRows, b)
  {
    var rows := a + b;
    assert forall i :: 0 <= i < |a| ==> a[i] == rows[i];
    assert forall i :: 0 <= i < |b| ==> b[i] == rows[|a| + i];
  }

  lemma PieceInsertable(variableLimit: int, maximumRows: int, x: seq<Row>, piece: seq<Row>, y: seq<Row>)
    ensures Insertable(variableLimit, maximumRows, x + piece + y) ==> Insertable(variableLimit, maximumRows, piece)
  {
    if Insertable(variableLimit, maximumRows, x + piece + y) {
      InsertableParts(variableLimit, maximumRows, x + piece, y);
      InsertableParts(variableLimit, maximumRows, x, piece);
    }
  }

  /** A row that some statement can carry. */
  predicate RowFits(variableLimit: int, maximumRows: int, row: Row) {
    |row| > 0 && RowsPerStatement(variableLimit, maximumRows, |row|) >= 1
  }

  lemma {:induction false} TupleWidth(columns: nat, arguments: seq<Value>, row: Row)
    requires row in Tuples(columns, arguments)
    ensures |row| == columns > 0
    decreases |arguments|
  {
    var init := arguments[..|arguments| - columns];
    if row in Tuples(columns, init) { TupleWidth(columns, init, row); }
  }

  /** Whatever statements within the limits deliver was within them row by row. */
  lemma {:induction false} DeliveredFits(log: seq<Statement>, table: nat, variableLimit: int, maximumRows: int,
                                         row: Row)
    requires forall s :: s in log ==> Fits(s, variableLimit, maximumRows)
    requires row in Delivered(log, table)
    ensures RowFits(variableLimit, maximumRows, row)
  {
    var init, last := log[..|log| - 1], log[|log| - 1];
    if row in Delivered(init, table) {
      DeliveredFits(init, table, variableLimit, maximumRows, row);
    } else {
      TupleWidth(last.columns, last.arguments, row);
      assert last in log && Fits(last, variableLimit, maximumRows);
      OneTupleFits(|Tuples(last.columns, last.arguments)|, last.columns, variableLimit);
    }
  }

  lemma OneTupleFits(tuples: nat, columns: nat, variableLimit: int)
    requires tuples >= 1 && columns > 0 && tuples * columns <= variableLimit
    ensures variableLimit / columns >= 1
  {
    assert columns <= tuples * columns;
  }

  lemma TuplesAppend(columns: nat, arguments: seq<Value>, row: Row)
    requires columns > 0 && |row| == columns
    ensures Tuples(columns, arguments + row) == Tuples(columns, arguments) + [row]
  {
    assert (arguments + row)[..|arguments + row| - columns] == arguments;
    assert (arguments + row)[|arguments + row| - columns..] == row;
  }

  lemma ChunkWithinLimit(variableLimit: int, columns: nat, chunk: nat)
    requires columns > 0 && chunk <= variableLimit / columns
    ensures chunk * columns <= variableLimit
  {
    assert chunk * columns <= variableLimit / columns * columns;
  }

  lemma NothingDelivered(table: nat)
    ensures Delivered([], table) == []
  {}

  lemma StatementDelivers(log: seq<Statement>, s: Statement, chunk: seq<Row>, variableLimit: int, maximumRows: int)
    requires Tuples(s.columns, s.arguments) == chunk && |s.arguments| == |chunk| * s.columns
    requires |s.arguments| <= variableLimit && |chunk| <= maximumRows
    ensures Fits(s, variableLimit, maximumRows) && Delivered(log + [s], s.table) == Delivered(log, s.table) + chunk
  {
    assert (log + [s])[..|log|] == log;
  }

  lemma NoTuples(columns: nat)
    ensures Tuples(columns, []) == []
  {}

  /** Values in n rows. */
  function RowSpace(n: nat, columns: nat): nat {
    if n == 0 then 0 else RowSpace(n - 1, columns) + columns
  }

  lemma {:induction false} RowSpaceIsProduct(n: nat, columns: nat)
    ensures RowSpace(n, columns) == n * columns
  {
    if n > 0 {
      RowSpaceIsProduct(n - 1, columns);
      assert n * columns == (n - 1) * columns + columns;
    }
  }

  /** The argument list of one chunk; fails on the first row of another width. */
  method BindChunk(chunk: seq<Row>, columns: nat) returns (arguments: Option<seq<Value>>)
    requires columns > 0
    ensures arguments.Some? <==> forall i :: 0 <= i < |chunk| ==> |chunk[i]| == columns
    ensures arguments.Some? ==> Tuples(columns, arguments.value) == chunk && |arguments.value| == |chunk| * columns
  {
    hide Tuples;
    var bound: seq<Value> := [];
    NoTuples(columns);
    for i := 0 to |chunk|
      invariant forall j :: 0 <= j < i ==> |chunk[j]| == columns
      invariant Tuples(columns, bound) == chunk[..i] && |bound| == RowSpace(i, columns)
    {
      if |chunk[i]| != columns { return None; }
      TuplesAppend(columns, bound, chunk[i]);
      assert chunk[..i + 1] == chunk[..i] + [chunk[i]];
      bound := bound + chunk[i];
    }
    assert chunk[..|chunk|] == chunk;
    RowSpaceIsProduct(|chunk|, columns);
    return Some(bound);
  }

  /**
   * Success delivers exactly the rows, in order; failure leaves a prefix behind, which the
   * enclosing transaction undoes. Every statement respects both limits, and all but the last are full.
   */
  method InsertRows(variableLimit: int, maximumRows: int, table: nat, rows: seq<Row>)
    returns (log: seq<Statement>, error: Option<InsertError>)
    ensures forall s :: s in log ==> s.table == table && Fits(s, variableLimit, maximumRows)
    ensures Delivered(log, table) <= rows
    ensures error.None? ==> Delivered(log, table) == rows && Insertable(variableLimit, maximumRows, rows)
    ensures rows != [] && rows[0] != [] ==>
              forall i :: 0 <= i < |log| - 1 ==>
                && log[i].columns == |rows[0]|
                && |log[i].arguments| == RowsPerStatement(variableLimit, maximumRows, |rows[0]|) * |rows[0]|
    ensures error.Some? ==> error.value == ExecFailed || !Insertable(variableLimit, maximumRows, rows)
    ensures error == Some(NoValues) <==> rows != [] && rows[0] == []
    ensures error == Some(LimitBelowWidth) <==>
              rows != [] && rows[0] != [] && RowsPerStatement(variableLimit, maximumRows, |rows[0]|) < 1
    ensures error == Some(WidthMismatch) <==>
              && error != Some(ExecFailed) && !SameWidth(rows)
              && rows[0] != [] && RowsPerStatement(variableLimit, maximumRows, |rows[0]|) >= 1
  {
    hide Fits, Tuples, Delivered;
    log := [];
    NothingDelivered(table);
    if |rows| == 0 { return log, None; }
    var columns := |rows[0]|;
    if columns == 0 { return log, Some(NoValues); }
    var step := RowsPerStatement(variableLimit, maximumRows, columns);
    if step < 1 { return log, Some(LimitBelowWidth); }
    var start := 0;
    while start < |rows|
      invariant 0 <= start <= |rows|
      invariant forall s :: s in log ==> s.table == table && Fits(s, variableLimit, maximumRows)
      invariant Delivered(log, table) == rows[..start]
      invariant forall i :: 0 <= i < start ==> |rows[i]| == columns
      invariant forall i :: 0 <= i < |log| && (i < |log| - 1 || start < |rows|) ==>
                  log[i].columns == columns && |log[i].arguments| == step * columns
    {
      var end := if start + step < |rows| then start + step else |rows|;
      var chunk := rows[start..end];
      var arguments := BindChunk(chunk, columns);
      assert forall i :: 0 <= i < |chunk| ==> chunk[i] == rows[start + i];
      if arguments.None? { return log, Some(WidthMismatch); }
      var failed := *;
      if failed { return log, Some(ExecFailed); }
      var statement := Statement(table, columns, arguments.value);
      ChunkWithinLimit(variableLimit, columns, |chunk|);
      StatementDelivers(log, statement, chunk, variableLimit, maximumRows);
      log := log + [statement];
      assert rows[..end] == rows[..start] + chunk;
      forall i | start <= i < end ensures |rows[i]| == columns { assert rows[i] == chunk[i - start]; }
      start := end;
    }
    assert rows[..start] == rows;
    return log, None;
  }
}
