/** publicationBatch: rows of several contributions buffered per table and flushed under limits. */
module PublicationBatches {
  import opened Common
  import opened InsertBatches

  /** The ten contribution tables, in insertion order. */
  const TABLES: nat := 10
  const MAXIMUM_BATCH_ROWS := 500

  /** Zero switches a limit off; all three zero is the unlimited (legacy) mode. */
  datatype Limits = Limits(maximumRows: int, maximumBytes: int, maximumSources: int) {
    predicate Legacy() { maximumRows == 0 && maximumBytes == 0 && maximumSources == 0 }
    function StatementRows(): int { if maximumRows <= 0 then MAXIMUM_BATCH_ROWS else maximumRows }
  }

  type Tables = seq<seq<Row>>

  // ----- Row counts and byte estimates -----

  function ValueBytes(v: Value): nat {
    match v case Text(t) => |t| case Blob(b) => |b| case Number(_) => 8
  }

  function RowBytes(row: Row): nat {
    if row == [] then 8 else RowBytes(row[..|row| - 1]) + ValueBytes(row[|row| - 1])
  }

  function TableBytes(rows: seq<Row>): nat {
    if rows == [] then 0 else TableBytes(rows[..|rows| - 1]) + RowBytes(rows[|rows| - 1])
  }

  function Bytes(tables: Tables): nat {
    if tables == [] then 0 else Bytes(tables[..|tables| - 1]) + TableBytes(tables[|tables| - 1])
  }

  function Rows(tables: Tables): nat {
    if tables == [] then 0 else Rows(tables[..|tables| - 1]) + |tables[|tables| - 1]|
  }

  /** Eight for the row, the length of each text or blob and eight for any other value, whatever their order. */
  lemma {:induction false} RowBytesAppend(a: Row, b: Row)
    ensures RowBytes([]) == 8 && RowBytes(a + b) == RowBytes(a) + RowBytes(b) - 8
    ensures forall t, x, n ::
              ValueBytes(Text(t)) == |t| && ValueBytes(Blob(x)) == |x| && ValueBytes(Number(n)) == 8
    ensures forall v :: RowBytes([v]) == 8 + ValueBytes(v)
  {
    forall v ensures RowBytes([v]) == 8 + ValueBytes(v) { assert [v][..0] == []; }
    if b == [] {
      assert a + b == a;
    } else {
      RowBytesAppend(a, b[..|b| - 1]);
      assert (a + b)[..|a + b| - 1] == a + b[..|b| - 1];
    }
  }

  lemma {:induction false} TableBytesAppend(a: seq<Row>, b: seq<Row>)
    ensures TableBytes(a + b) == TableBytes(a) + TableBytes(b)
  {
    if b == [] {
      assert a + b == a;
    } else {
      TableBytesAppend(a, b[..|b| - 1]);
      assert (a + b)[..|a + b| - 1] == a + b[..|b| - 1];
    }
  }

  /** Table by table, c is a followed by b. */
  ghost predicate Joins(a: Tables, b: Tables, c: Tables) {
    |a| == |b| == |c| && forall t :: 0 <= t < |a| ==> c[t] == a[t] + b[t]
  }

  lemma {:induction false} JoinedTotals(a: Tables, b: Tables, c: Tables)
    requires Joins(a, b, c)
    ensures Rows(c) == Rows(a) + Rows(b) && Bytes(c) == Bytes(a) + Bytes(b)
  {
    if a != [] {
      var n := |a| - 1;
      JoinedTotals(a[..n], b[..n], c[..n]);
      TableBytesAppend(a[n], b[n]);
    }
  }

  ghost predicate AllEmpty(tables: Tables) {
    forall t :: 0 <= t < |tables| ==> tables[t] == []
  }

  lemma {:induction false} EmptyTotals(tables: Tables)
    requires AllEmpty(tables)
    ensures Rows(tables) == 0 && Bytes(tables) == 0
  {
    if tables != [] { EmptyTotals(tables[..|tables| - 1]); }
  }

  method CountRows(tables: Tables) returns (n: nat)
    ensures n == Rows(tables)
  {
    n := 0;
    for t := 0 to |tables|
      invariant n == Rows(tables[..t])
    {
      assert tables[..t + 1][..t] == tables[..t];
      n := n + |tables[t]|;
    }
    assert tables[..|tables|] == tables;
  }

  method EstimateRowBytes(row: Row) returns (n: nat)
    ensures n == RowBytes(row)
  {
    n := 8;
    for i := 0 to |row|
      invariant n == RowBytes(row[..i])
    {
      assert row[..i + 1][..i] == row[..i];
      n := n + ValueBytes(row[i]);
    }
    assert row[..|row|] == row;
  }

  method EstimateBytes(tables: Tables) returns (n: nat)
    ensures n == Bytes(tables)
  {
    n := 0;
    for t := 0 to |tables|
      invariant n == Bytes(tables[..t])
    {
      var rows := tables[t];
      assert tables[..t + 1][..t] == tables[..t];
      for i := 0 to |rows|
        invariant n == Bytes(tables[..t]) + TableBytes(rows[..i])
      {
        assert rows[..i + 1][..i] == rows[..i];
        var bytes := EstimateRowBytes(rows[i]);
        n := n + bytes;
      }
      assert rows[..|rows|] == rows;
    }
    assert tables[..|tables|] == tables;
  }

  // ----- The batch -----

  /** What one flush wrote out. */
  datatype Flushed = Flushed(rows: nat, bytes: nat, sources: nat)

  /** Over a row or byte limit only when a single contribution is already too large by itself. */
  predicate WithinLimits(limits: Limits, f: Flushed) {
    && (limits.maximumRows > 0 ==> f.rows <= limits.maximumRows || f.sources == 1)
    && (limits.maximumBytes > 0 ==> f.bytes <= limits.maximumBytes || f.sources == 1)
    && (limits.maximumSources > 0 ==> f.sources <= limits.maximumSources)
  }

  function Plus(a: Flushed, b: Flushed): Flushed {
    Flushed(a.rows + b.rows, a.bytes + b.bytes, a.sources + b.sources)
  }

  /** Together with what is held, the next contribution would go over the row or byte limit. */
  predicate Overflows(limits: Limits, held: Flushed, next: Flushed) {
    && held.sources > 0
    && (|| (limits.maximumRows > 0 && Plus(held, next).rows > limits.maximumRows)
        || (limits.maximumBytes > 0 && Plus(held, next).bytes > limits.maximumBytes))
  }

  /** What is held has reached a limit. */
  predicate Full(limits: Limits, held: Flushed) {
    || (limits.maximumRows > 0 && held.rows >= limits.maximumRows)
    || (limits.maximumBytes > 0 && held.bytes >= limits.maximumBytes)
    || (limits.maximumSources > 0 && held.sources >= limits.maximumSources)
  }

  function FlushedRows(flushes: seq<Flushed>): nat {
    if flushes == [] then 0 else FlushedRows(flushes[..|flushes| - 1]) + flushes[|flushes| - 1].rows
  }

  function FlushedSources(flushes: seq<Flushed>): nat {
    if flushes == [] then 0 else FlushedSources(flushes[..|flushes| - 1]) + flushes[|flushes| - 1].sources
  }

  ghost predicate StatementsFit(log: seq<Statement>, variableLimit: int, maximumRows: int) {
    forall s :: s in log ==> Fits(s, variableLimit, maximumRows)
  }

  class PublicationBatch {
    const variableLimit: int
    const limits: Limits
    var pending: Tables
    var rowCount: nat
    var estimatedBytes: nat
    var sourceCount: nat
    var executed: seq<Statement>     // the statements the transaction has executed
    ghost var flushes: seq<Flushed>

    /** Buffers and statements, whatever the counters say; holds after a failure as well. */
    ghost predicate Shaped() reads this {
      && |pending| == TABLES
      && StatementsFit(executed, variableLimit, limits.StatementRows())
    }

    /** The counters measure the buffers, and every flush so far was within the limits. */
    ghost predicate Counted() reads this {
      && (!limits.Legacy() ==> rowCount == Rows(pending) && estimatedBytes == Bytes(pending))
      && (!limits.Legacy() && sourceCount == 0 ==> AllEmpty(pending))
      && (limits.Legacy() || forall i :: 0 <= i < |flushes| ==> WithinLimits(limits, flushes[i]))
    }

    /** Between calls nothing that should have been written out is still buffered. */
    ghost predicate Valid() reads this {
      && Shaped() && Counted()
      && (limits.maximumRows > 0 ==> rowCount < limits.maximumRows)
      && (limits.maximumBytes > 0 ==> estimatedBytes < limits.maximumBytes)
      && (limits.maximumSources > 0 ==> sourceCount < limits.maximumSources)
      && (limits.Legacy() ==> forall t :: 0 <= t < TABLES ==> |pending[t]| < MAXIMUM_BATCH_ROWS)
    }

    /** Everything given to the batch for a table, written or still buffered, in order. */
    ghost function Stored(t: nat): seq<Row>
      requires |pending| == TABLES && t < TABLES
      reads this
    {
      Delivered(executed, t) + pending[t]
    }

    ghost function Held(): Flushed reads this {
      Flushed(rowCount, estimatedBytes, sourceCount)
    }

    lemma BuffersWithinLimits()
      requires Valid()
      ensures limits.Legacy() || WithinLimits(limits, Flushed(rowCount, estimatedBytes, sourceCount))
    {}

    /** A failure is a failing statement, or some table cannot take the rows it was given. */
    ghost predicate Explained(error: Option<InsertError>, tables: Tables) {
      error.None? || error.value == ExecFailed
      || exists t :: 0 <= t < |tables| && !Insertable(variableLimit, limits.StatementRows(), tables[t])
    }

    constructor (variableLimit: int, limits: Limits)
      ensures Valid() && this.variableLimit == variableLimit && this.limits == limits
      ensures flushes == [] && rowCount == sourceCount == 0
      ensures executed == [] && forall t :: 0 <= t < TABLES ==> Stored(t) == []
    {
      this.variableLimit, this.limits := variableLimit, limits;
      pending := [[], [], [], [], [], [], [], [], [], []];
      rowCount, estimatedBytes, sourceCount := 0, 0, 0;
      executed, flushes := [], [];
      new;
      EmptyTotals(pending);
    }

    method FlushInsertion(t: nat) returns (error: Option<InsertError>)
      requires Shaped() && t < TABLES
      modifies this`pending, this`executed
      ensures Shaped()
      ensures error.None? ==> pending == old(pending)[t := []] && old(executed) <= executed
      ensures error.Some? && error.value != ExecFailed ==>
                !Insertable(variableLimit, limits.StatementRows(), old(pending[t]))
      ensures error.None? ==> forall u :: 0 <= u < TABLES ==> Stored(u) == old(Stored(u))
    {
      if |pending[t]| == 0 {
        assert pending == pending[t := []];
        return None;
      }
      hide Insertable, Fits, Delivered;
      var log;
      log, error := InsertRows(variableLimit, limits.StatementRows(), t, pending[t]);
      ghost var before, rows := executed, pending;
      executed := executed + log;
      if error.None? {
        pending := pending[t := []];
        forall u | 0 <= u < TABLES ensures Stored(u) == Delivered(before, u) + rows[u] {
          InsertedStored(before, log, rows, t, u);
        }
      }
    }

    method Flush() returns (error: Option<InsertError>)
      requires Shaped() && Counted()
      requires limits.Legacy() || WithinLimits(limits, Flushed(rowCount, estimatedBytes, sourceCount))
      modifies this
      ensures Shaped()
      ensures error.None? ==> Valid() && AllEmpty(pending) && rowCount == estimatedBytes == sourceCount == 0
      ensures error.None? ==>
                flushes == old(flushes) + [Flushed(Rows(old(pending)), Bytes(old(pending)), old(sourceCount))]
      ensures Explained(error, old(pending))
      ensures error.None? ==> forall t :: 0 <= t < TABLES ==> Stored(t) == old(Stored(t))
    {
      hide StatementsFit, Insertable, Delivered;
      ghost var written := Flushed(Rows(pending), Bytes(pending), sourceCount);
      for t := 0 to TABLES
        invariant Shaped()
        invariant forall u :: t <= u < TABLES ==> pending[u] == old(pending[u])
        invariant forall u :: 0 <= u < t ==> pending[u] == []
        invariant forall u :: 0 <= u < TABLES ==> Stored(u) == old(Stored(u))
        invariant flushes == old(flushes) && sourceCount == old(sourceCount)
      {
        error := FlushInsertion(t);
        if error.Some? { return; }
      }
      rowCount, estimatedBytes, sourceCount := 0, 0, 0;
      flushes := flushes + [written];
      EmptyTotals(pending);
      return None;
    }

    /** Appends the rows of one contribution, table by table. */
    method Buffer(rows: Tables) returns (error: Option<InsertError>)
      requires Shaped() && |rows| == TABLES
      requires limits.Legacy() ==> forall t :: 0 <= t < TABLES ==> |pending[t]| < MAXIMUM_BATCH_ROWS
      modifies this`pending, this`executed
      ensures Shaped()
      ensures error.None? ==> forall t :: 0 <= t < TABLES ==> Stored(t) == old(Stored(t)) + rows[t]
      ensures error.None? && !limits.Legacy() ==> Joins(old(pending), rows, pending) && executed == old(executed)
      ensures error.Some? && error.value != ExecFailed ==>
                exists t :: 0 <= t < TABLES &&
                  !Insertable(variableLimit, limits.StatementRows(), old(pending[t]) + rows[t])
      ensures error.None? && limits.Legacy() ==> forall t :: 0 <= t < TABLES ==> |pending[t]| < MAXIMUM_BATCH_ROWS
      ensures (forall t :: 0 <= t < TABLES ==> |old(pending[t])| + |rows[t]| < 500) ==>
                error.None? && executed == old(executed)
    {
      hide StatementsFit, Insertable, Delivered;
      for t := 0 to TABLES
        invariant Shaped()
        invariant forall u :: 0 <= u < t ==> Stored(u) == old(Stored(u)) + rows[u]
        invariant forall u :: t <= u < TABLES ==> Stored(u) == old(Stored(u)) && pending[u] == old(pending[u])
        invariant !limits.Legacy() ==> forall u :: 0 <= u < t ==> pending[u] == old(pending[u]) + rows[u]
        invariant !limits.Legacy() ==> executed == old(executed)
        invariant limits.Legacy() ==> forall u :: 0 <= u < TABLES ==> |pending[u]| < MAXIMUM_BATCH_ROWS
        invariant (forall u :: 0 <= u < TABLES ==> |old(pending[u])| + |rows[u]| < 500) ==> executed == old(executed)
      {
        ghost var was := Stored(t);
        pending := pending[t := pending[t] + rows[t]];
        assert Stored(t) == was + rows[t];
        if limits.Legacy() && |pending[t]| >= MAXIMUM_BATCH_ROWS {
          error := FlushInsertion(t);
          if error.Some? { return; }
        }
      }
      return None;
    }

    /** Sources and, unless unlimited, rows move from the counters to the flushes; none get lost. */
    ghost predicate Progressed(before: seq<Flushed>, after: seq<Flushed>, rows: nat, rows': nat,
                               sources: nat, sources': nat)
    {
      && before <= after
      && FlushedSources(after) + sources' == FlushedSources(before) + sources
      && (!limits.Legacy() ==> FlushedRows(after) + rows' == FlushedRows(before) + rows)
    }

    /** Writes the buffers out first when the next contribution would take them over a limit. */
    method MakeRoom(preparedRows: nat, preparedBytes: nat) returns (error: Option<InsertError>)
      requires Valid()
      modifies this
      ensures Shaped()
      ensures error.None? ==> Valid() && forall t :: 0 <= t < TABLES ==> Stored(t) == old(Stored(t))
      ensures error.None? ==>
                WithinLimits(limits, Flushed(rowCount + preparedRows, estimatedBytes + preparedBytes, sourceCount + 1))
      ensures error.None? ==> Progressed(old(flushes), flushes, old(rowCount), rowCount, old(sourceCount), sourceCount)
      ensures error.None? ==> pending == old(pending) || AllEmpty(pending)
      ensures error.None? && !limits.Legacy() ==>
                if Overflows(limits, old(Held()), Flushed(preparedRows, preparedBytes, 1))
                then flushes == old(flushes) + [old(Held())] && Held() == Flushed(0, 0, 0)
                else flushes == old(flushes) && Held() == old(Held()) && executed == old(executed)
      ensures Explained(error, old(pending))
    {
      hide Rows, Bytes, Delivered, StatementsFit, Insertable;
      if sourceCount > 0 && ((limits.maximumRows > 0 && rowCount + preparedRows > limits.maximumRows)
                             || (limits.maximumBytes > 0 && estimatedBytes + preparedBytes > limits.maximumBytes)) {
        error := Flush();
        assert error.None? ==> flushes[..|flushes| - 1] == old(flushes);
        return;
      }
      return None;
    }

    /** Writes the buffers out once they reach a limit. */
    method FlushIfFull() returns (error: Option<InsertError>)
      requires Shaped() && Counted()
      requires WithinLimits(limits, Flushed(rowCount, estimatedBytes, sourceCount))
      requires limits.Legacy() ==> forall t :: 0 <= t < TABLES ==> |pending[t]| < MAXIMUM_BATCH_ROWS
      modifies this
      ensures Shaped()
      ensures error.None? ==> Valid() && forall t :: 0 <= t < TABLES ==> Stored(t) == old(Stored(t))
      ensures error.None? ==> Progressed(old(flushes), flushes, old(rowCount), rowCount, old(sourceCount), sourceCount)
      ensures error.None? && !limits.Legacy() ==>
                if Full(limits, old(Held()))
                then flushes == old(flushes) + [old(Held())] && Held() == Flushed(0, 0, 0)
                else flushes == old(flushes) && Held() == old(Held()) && executed == old(executed)
      ensures Explained(error, old(pending))
    {
      hide Rows, Bytes, Delivered, StatementsFit, Insertable;
      if (limits.maximumRows > 0 && rowCount >= limits.maximumRows)
         || (limits.maximumBytes > 0 && estimatedBytes >= limits.maximumBytes)
         || (limits.maximumSources > 0 && sourceCount >= limits.maximumSources) {
        error := Flush();
        assert error.None? ==> flushes[..|flushes| - 1] == old(flushes);
        return;
      }
      return None;
    }

    /**
     * What is held is written out first when the contribution does not fit beside it, and again once a limit
     * is reached; otherwise nothing is written.
     */
    method Add(rows: Tables) returns (error: Option<InsertError>)
      requires Valid() && |rows| == TABLES
      modifies this
      ensures Shaped()
      ensures error.None? ==> Valid()
      ensures error.None? ==> forall t :: 0 <= t < TABLES ==> Stored(t) == old(Stored(t)) + rows[t]
      ensures error.None? ==>
                Progressed(old(flushes), flushes, old(rowCount) + Rows(rows), rowCount,
                           old(sourceCount) + 1, sourceCount)
      ensures error.None? && !limits.Legacy() ==>
                var held, next := old(Held()), Flushed(Rows(rows), Bytes(rows), 1);
                var over := Overflows(limits, held, next);
                var kept := if over then next else Plus(held, next);
                && flushes == old(flushes) + (if over then [held] else []) + (if Full(limits, kept) then [kept] else [])
                && Held() == (if Full(limits, kept) then Flushed(0, 0, 0) else kept)
                && (!over && !Full(limits, kept) ==> executed == old(executed))
      ensures error.Some? && error.value != ExecFailed ==>
                exists t :: 0 <= t < TABLES &&
                  !Insertable(variableLimit, limits.StatementRows(), old(Stored(t)) + rows[t])
    {
      hide Rows, Bytes, Delivered, StatementsFit, Joins, WithinLimits, Insertable, FlushedRows, FlushedSources;
      hide AllEmpty, Overflows, Full;
      ghost var start, done := pending, executed;
      var preparedRows := CountRows(rows);
      var preparedBytes := EstimateBytes(rows);
      error := MakeRoom(preparedRows, preparedBytes);
      if error.Some? {
        if error.value != ExecFailed { Blame(done, start, rows, error); }
        return;
      }
      ghost var before := pending;
      error := Buffer(rows);
      if error.Some? {
        if error.value != ExecFailed { BlameJoined(done, start, before, rows); }
        return;
      }
      if !limits.Legacy() { JoinedTotals(before, rows, pending); }
      rowCount := rowCount + preparedRows;
      estimatedBytes := estimatedBytes + preparedBytes;
      sourceCount := sourceCount + 1;
      ghost var buffered, log := pending, executed;
      assert forall t :: 0 <= t < TABLES ==> Delivered(log, t) + buffered[t] == Delivered(done, t) + start[t] + rows[t];
      error := FlushIfFull();
      if error.Some? && error.value != ExecFailed { BlameBuffered(done, start, rows, log, buffered, error); }
    }

    lemma BlameBuffered(done: seq<Statement>, start: Tables, rows: Tables, log: seq<Statement>, buffered: Tables,
                        error: Option<InsertError>)
      requires |start| == |rows| == |buffered| == TABLES
      requires forall t :: 0 <= t < TABLES ==>
                 Delivered(log, t) + buffered[t] == Delivered(done, t) + start[t] + rows[t]
      requires Explained(error, buffered) && error.Some? && error.value != ExecFailed
      ensures exists t :: 0 <= t < TABLES &&
                !Insertable(variableLimit, limits.StatementRows(), Delivered(done, t) + start[t] + rows[t])
    {
      hide Insertable, Delivered;
      var t :| 0 <= t < TABLES && !Insertable(variableLimit, limits.StatementRows(), buffered[t]);
      PieceInsertable(variableLimit, limits.StatementRows(), Delivered(log, t), buffered[t], []);
      assert Delivered(log, t) + buffered[t] + [] == Delivered(done, t) + start[t] + rows[t];
    }

    /** A buffer that cannot be inserted is part of what its table was given. */
    lemma Blame(done: seq<Statement>, start: Tables, rows: Tables, error: Option<InsertError>)
      requires |start| == |rows| == TABLES && Explained(error, start) && error.Some? && error.value != ExecFailed
      ensures exists t :: 0 <= t < TABLES &&
                !Insertable(variableLimit, limits.StatementRows(), Delivered(done, t) + start[t] + rows[t])
    {
      hide Insertable, Delivered;
      var t :| 0 <= t < TABLES && !Insertable(variableLimit, limits.StatementRows(), start[t]);
      PieceInsertable(variableLimit, limits.StatementRows(), Delivered(done, t), start[t], rows[t]);
    }

    lemma BlameJoined(done: seq<Statement>, start: Tables, before: Tables, rows: Tables)
      requires |start| == |rows| == |before| == TABLES && (before == start || AllEmpty(before))
      requires exists t :: 0 <= t < TABLES && !Insertable(variableLimit, limits.StatementRows(), before[t] + rows[t])
      ensures exists t :: 0 <= t < TABLES &&
                !Insertable(variableLimit, limits.StatementRows(), Delivered(done, t) + start[t] + rows[t])
    {
      hide Insertable, Delivered;
      var t :| 0 <= t < TABLES && !Insertable(variableLimit, limits.StatementRows(), before[t] + rows[t]);
      PieceInsertable(variableLimit, limits.StatementRows(), Delivered(done, t), start[t] + rows[t], []);
      PieceInsertable(variableLimit, limits.StatementRows(), Delivered(done, t) + start[t], rows[t], []);
      assert Delivered(done, t) + (start[t] + rows[t]) + [] == Delivered(done, t) + start[t] + rows[t];
      assert Delivered(done, t) + start[t] + rows[t] + [] == Delivered(done, t) + start[t] + rows[t];
      assert AllEmpty(before) ==> before[t] + rows[t] == rows[t];
    }
  }

  /** The rows of all contributions for one table, in order. */
  function RowsFor(prepared: seq<Tables>, t: nat): seq<Row>
    requires t < TABLES && forall i :: 0 <= i < |prepared| ==> |prepared[i]| == TABLES
  {
    if prepared == [] then [] else RowsFor(prepared[..|prepared| - 1], t) + prepared[|prepared| - 1][t]
  }

  lemma {:induction false} RowsForPrefix(prepared: seq<Tables>, i: nat, t: nat)
    requires i <= |prepared| && t < TABLES && forall j :: 0 <= j < |prepared| ==> |prepared[j]| == TABLES
    ensures RowsFor(prepared[..i], t) <= RowsFor(prepared, t)
  {
    if i < |prepared| {
      RowsForPrefix(prepared[..|prepared| - 1], i, t);
      assert prepared[..|prepared| - 1][..i] == prepared[..i];
    } else {
      assert prepared[..i] == prepared;
    }
  }

  /** All rows of all contributions. */
  function TotalRows(prepared: seq<Tables>): nat {
    if prepared == [] then 0 else TotalRows(prepared[..|prepared| - 1]) + Rows(prepared[|prepared| - 1])
  }

  /** Some table cannot take all its rows: an empty row, one beyond the variable limit, or mixed widths. */
  ghost predicate Unwritable(variableLimit: int, limits: Limits, prepared: seq<Tables>)
    requires forall i :: 0 <= i < |prepared| ==> |prepared[i]| == TABLES
  {
    exists t :: 0 <= t < TABLES && !Insertable(variableLimit, limits.StatementRows(), RowsFor(prepared, t))
  }

  lemma PrefixUnwritable(variableLimit: int, limits: Limits, prepared: seq<Tables>, i: nat)
    requires i <= |prepared| && (forall j :: 0 <= j < |prepared| ==> |prepared[j]| == TABLES)
    requires Unwritable(variableLimit, limits, prepared[..i])
    ensures Unwritable(variableLimit, limits, prepared)
  {
    hide Insertable;
    var t :| 0 <= t < TABLES && !Insertable(variableLimit, limits.StatementRows(), RowsFor(prepared[..i], t));
    RowsForPrefix(prepared, i, t);
    var part, all := RowsFor(prepared[..i], t), RowsFor(prepared, t);
    assert all == [] + part + all[|part|..];
    PieceInsertable(variableLimit, limits.StatementRows(), [], part, all[|part|..]);
  }

  /** What the batch holds and has flushed after these contributions. */
  ghost predicate Holds(batch: PublicationBatch, variableLimit: int, limits: Limits, prepared: seq<Tables>)
    requires forall i :: 0 <= i < |prepared| ==> |prepared[i]| == TABLES
    reads batch
  {
    && batch.Valid() && batch.variableLimit == variableLimit && batch.limits == limits
    && (forall t :: 0 <= t < TABLES ==> batch.Stored(t) == RowsFor(prepared, t))
    && FlushedSources(batch.flushes) + batch.sourceCount == |prepared|
    && (!limits.Legacy() ==> FlushedRows(batch.flushes) + batch.rowCount == TotalRows(prepared))
  }

  method AddNext(batch: PublicationBatch, variableLimit: int, limits: Limits, ghost before: seq<Tables>, next: Tables)
    returns (error: Option<InsertError>)
    requires |next| == TABLES && forall i :: 0 <= i < |before| ==> |before[i]| == TABLES
    requires Holds(batch, variableLimit, limits, before)
    modifies batch
    ensures batch.Shaped() && batch.variableLimit == variableLimit && batch.limits == limits
    ensures error.None? ==> Holds(batch, variableLimit, limits, before + [next])
    ensures error.Some? ==> error.value == ExecFailed || Unwritable(variableLimit, limits, before + [next])
  {
    hide Delivered, Insertable, Fits, Rows, Bytes, WithinLimits, StatementsFit, FlushedRows, FlushedSources;
    assert (before + [next])[..|before|] == before;
    ghost var stored := seq(TABLES, t requires 0 <= t < TABLES => RowsFor(before, t));
    error := batch.Add(next);
    if error.Some? && error.value != ExecFailed {
      ghost var t :| 0 <= t < TABLES && !Insertable(variableLimit, limits.StatementRows(), stored[t] + next[t]);
      assert RowsFor(before + [next], t) == stored[t] + next[t];
    }
  }

  /** The last flush of a batch. */
  method Finish(batch: PublicationBatch, variableLimit: int, limits: Limits, ghost prepared: seq<Tables>)
    returns (error: Option<InsertError>)
    requires forall i :: 0 <= i < |prepared| ==> |prepared[i]| == TABLES
    requires Holds(batch, variableLimit, limits, prepared)
    modifies batch
    ensures batch.Shaped() && batch.variableLimit == variableLimit && batch.limits == limits
    ensures error.None? ==> Holds(batch, variableLimit, limits, prepared) && batch.rowCount == batch.sourceCount == 0
    ensures error.None? ==> forall t :: 0 <= t < TABLES ==> Delivered(batch.executed, t) == RowsFor(prepared, t)
    ensures error.Some? ==> error.value == ExecFailed || Unwritable(variableLimit, limits, prepared)
  {
    hide Delivered, Insertable, Fits, Rows, Bytes, WithinLimits, StatementsFit;
    ghost var buffered, done, before := batch.pending, batch.executed, batch.flushes;
    batch.BuffersWithinLimits();
    error := batch.Flush();
    if error.None? {
      assert batch.flushes[..|batch.flushes| - 1] == before;
      forall t | 0 <= t < TABLES ensures Delivered(batch.executed, t) == RowsFor(prepared, t) {
        assert batch.Stored(t) == Delivered(batch.executed, t);
      }
    } else if error.value != ExecFailed {
      ghost var t :| 0 <= t < TABLES && !Insertable(variableLimit, limits.StatementRows(), buffered[t]);
      PieceInsertable(variableLimit, limits.StatementRows(), Delivered(done, t), buffered[t], []);
      assert Delivered(done, t) + buffered[t] + [] == RowsFor(prepared, t);
    }
  }

  /** Without a failing statement, uniform rows are written exactly when every table can take its rows. */
  lemma WrittenExactly(variableLimit: int, limits: Limits, prepared: seq<Tables>, error: Option<InsertError>)
    requires forall i :: 0 <= i < |prepared| ==> |prepared[i]| == TABLES
    requires forall t :: 0 <= t < TABLES ==> SameWidth(RowsFor(prepared, t))
    requires error.Some? ==> Unwritable(variableLimit, limits, prepared)
    requires error.None? ==> forall t, row :: 0 <= t < TABLES && row in RowsFor(prepared, t) ==>
                               RowFits(variableLimit, limits.StatementRows(), row)
    ensures error.None? <==> !Unwritable(variableLimit, limits, prepared)
  {
    if error.None? {
      forall t | 0 <= t < TABLES ensures Insertable(variableLimit, limits.StatementRows(), RowsFor(prepared, t)) {
        var rows := RowsFor(prepared, t);
        if rows != [] {
          assert rows[0] in RowsFor(prepared, t) && RowFits(variableLimit, limits.StatementRows(), rows[0]);
        }
      }
    }
  }

  /**
   * Adds followed by a final flush. Success means each table received exactly the prepared rows, in
   * order, through statements within the variable limit, in flushes that together hold every source
   * and row and each keep the limits or hold a single oversized source. It fails only through a
   * failing statement or a table that cannot take its rows; with rows of one width per table, which
   * is how they are prepared, that is exact.
   */
  method WriteAll(variableLimit: int, limits: Limits, prepared: seq<Tables>)
    returns (executed: seq<Statement>, error: Option<InsertError>, ghost flushes: seq<Flushed>)
    requires forall i :: 0 <= i < |prepared| ==> |prepared[i]| == TABLES
    ensures StatementsFit(executed, variableLimit, limits.StatementRows())
    ensures error.None? ==> forall t :: 0 <= t < TABLES ==> Delivered(executed, t) == RowsFor(prepared, t)
    ensures error.None? ==> FlushedSources(flushes) == |prepared|
    ensures error.None? && !limits.Legacy() ==> FlushedRows(flushes) == TotalRows(prepared)
    ensures error.None? && !limits.Legacy() ==> forall i :: 0 <= i < |flushes| ==> WithinLimits(limits, flushes[i])
    ensures error.Some? ==> error.value == ExecFailed || Unwritable(variableLimit, limits, prepared)
    ensures error.None? ==> forall t, row :: 0 <= t < TABLES && row in RowsFor(prepared, t) ==>
                              RowFits(variableLimit, limits.StatementRows(), row)
    ensures error != Some(ExecFailed) && (forall t :: 0 <= t < TABLES ==> SameWidth(RowsFor(prepared, t))) ==>
              (error.None? <==> !Unwritable(variableLimit, limits, prepared))
  {
    hide Delivered, Insertable, Fits, Rows, Bytes, WithinLimits, Unwritable, SameWidth, RowFits;
    var batch := new PublicationBatch(variableLimit, limits);
    for i := 0 to |prepared|
      invariant fresh(batch) && Holds(batch, variableLimit, limits, prepared[..i])
    {
      assert prepared[..i + 1] == prepared[..i] + [prepared[i]];
      error := AddNext(batch, variableLimit, limits, prepared[..i], prepared[i]);
      if error.Some? {
        if error.value != ExecFailed { PrefixUnwritable(variableLimit, limits, prepared, i + 1); }
        return batch.executed, error, batch.flushes;
      }
    }
    assert prepared[..|prepared|] == prepared;
    error := Finish(batch, variableLimit, limits, prepared);
    executed, flushes := batch.executed, batch.flushes;
    if error.None? {
      forall t, row | 0 <= t < TABLES && row in RowsFor(prepared, t)
        ensures RowFits(variableLimit, limits.StatementRows(), row)
      {
        DeliveredFits(executed, t, variableLimit, limits.StatementRows(), row);
      }
      if forall t :: 0 <= t < TABLES ==> SameWidth(RowsFor(prepared, t)) {
        WrittenExactly(variableLimit, limits, prepared, error);
      }
    }
  }
}
