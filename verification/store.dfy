/** The `messages` table, messages(messageID INTEGER PRIMARY KEY, name,
    message, createdAt), and the three store operations the handlers use:
    the insert, the read of last_insert_rowid(), and the newest-first
    listing. Every operation may fail. */
module Store {
  import opened Text

  /** A query result: rows of column values. */
  type SQResult = seq<seq<string>>

  datatype Row = Row(messageID: nat, name: string, message: string, createdAt: string)

  /** Rows in strictly ascending messageID order: the order SQLite keeps a
      rowid table in, and so the ids are distinct. */
  predicate Ascending(rows: seq<Row>) {
    forall i, j :: 0 <= i < j < |rows| ==> rows[i].messageID < rows[j].messageID
  }

  /** Every stored id is positive. */
  predicate PositiveIds(rows: seq<Row>) {
    forall i :: 0 <= i < |rows| ==> rows[i].messageID >= 1
  }

  /** The largest id in use, 0 for an empty table. */
  function MaxId(rows: seq<Row>): (m: nat)
    ensures forall i :: 0 <= i < |rows| ==> rows[i].messageID <= m
    ensures rows == [] ==> m == 0
  {
    if rows == [] then 0
    else
      var prior := MaxId(rows[..|rows| - 1]);
      var last := rows[|rows| - 1].messageID;
      if prior < last then last else prior
  }

  /** The id SQLite gives the next inserted row: one more than the largest
      id in use (1 for an empty table). */
  function NextId(rows: seq<Row>): (id: nat)
    ensures id >= 1
    ensures forall i :: 0 <= i < |rows| ==> rows[i].messageID < id
  {
    MaxId(rows) + 1
  }

  /** Appending a row whose id exceeds every id in use keeps the table
      ordered. */
  lemma AppendLargerKeepsOrder(rows: seq<Row>, row: Row)
    requires Ascending(rows)
    requires forall i :: 0 <= i < |rows| ==> rows[i].messageID < row.messageID
    ensures Ascending(rows + [row])
  {
    var rows' := rows + [row];
    forall i, j | 0 <= i < j < |rows'|
      ensures rows'[i].messageID < rows'[j].messageID
    {
      assert rows'[i] == rows[i];
      if j < |rows| {
        assert rows'[j] == rows[j];
      }
    }
  }

  /** Appending the row with the next id keeps the table ordered with
      positive ids, and ids keep growing. */
  lemma AppendNextKeepsOrder(rows: seq<Row>, name: string, message: string, createdAt: string)
    requires Ascending(rows) && PositiveIds(rows)
    ensures var rows' := rows + [Row(NextId(rows), name, message, createdAt)];
            Ascending(rows') && PositiveIds(rows') && NextId(rows') > NextId(rows)
  {
    var row := Row(NextId(rows), name, message, createdAt);
    var rows' := rows + [row];
    AppendLargerKeepsOrder(rows, row);
    forall i | 0 <= i < |rows'|
      ensures rows'[i].messageID >= 1
    {
      if i < |rows| {
        assert rows'[i] == rows[i];
      }
    }
    MaxIdOfAppendLarger(rows, row);
  }

  /** A bound on every id is a bound on the largest id. */
  lemma {:induction false} MaxIdBelow(rows: seq<Row>, bound: nat)
    requires bound >= 1
    requires forall i :: 0 <= i < |rows| ==> rows[i].messageID < bound
    ensures MaxId(rows) < bound
    decreases |rows|
  {
    if rows != [] {
      var prefix := rows[..|rows| - 1];
      assert forall i :: 0 <= i < |prefix| ==> prefix[i] == rows[i];
      MaxIdBelow(prefix, bound);
    }
  }

  lemma MaxIdOfAppendLarger(rows: seq<Row>, row: Row)
    requires row.messageID >= 1
    requires forall i :: 0 <= i < |rows| ==> rows[i].messageID < row.messageID
    ensures MaxId(rows + [row]) == row.messageID
  {
    var s := rows + [row];
    assert s[..|s| - 1] == rows;
    MaxIdBelow(rows, row.messageID);
  }

  /** `SELECT ... ORDER BY messageID DESC LIMIT n` over an ascending table:
      the last min(n, |rows|) rows, last first. */
  function Newest(rows: seq<Row>, n: nat): seq<Row> {
    var k := if n < |rows| then n else |rows|;
    seq(k, i requires 0 <= i < k => rows[|rows| - 1 - i])
  }

  /** Newest is the ORDER BY/LIMIT answer: min(n, |rows|) rows of the table,
      in strictly descending id order, and every row it leaves out has a
      smaller id than every row it returns. */
  lemma NewestIsLargestDescending(rows: seq<Row>, n: nat)
    requires Ascending(rows)
    ensures var r := Newest(rows, n);
      && |r| == (if n < |rows| then n else |rows|)
      && (forall i, j :: 0 <= i < j < |r| ==> r[i].messageID > r[j].messageID)
      && (forall i :: 0 <= i < |r| ==> r[i] in rows)
      && (forall x, i :: x in rows && x !in r && 0 <= i < |r| ==> x.messageID < r[i].messageID)
  {
    var r := Newest(rows, n);
    var k := |r|;
    forall j | |rows| - k <= j < |rows|
      ensures rows[j] in r
    {
      assert r[|rows| - 1 - j] == rows[j];
    }
  }

  /** The columns a listing query yields for one row. */
  function Columns(row: Row): (c: seq<string>)
    ensures |c| == 4
  {
    [Decimal(row.messageID), row.name, row.message, row.createdAt]
  }

  function Render(rows: seq<Row>): (result: SQResult)
    ensures |result| == |rows|
    ensures forall i :: 0 <= i < |rows| ==> result[i] == Columns(rows[i])
  {
    seq(|rows|, i requires 0 <= i < |rows| => Columns(rows[i]))
  }

  /** The SQLite session a command is handed. */
  class Database {
    var rows: seq<Row>
    /** What last_insert_rowid() answers: the id of the last successful insert, 0 before any. */
    var lastInsertRowid: nat

    ghost predicate Valid()
      reads this
    {
      Ascending(rows) && PositiveIds(rows)
    }

    constructor ()
      ensures Valid() && rows == [] && lastInsertRowid == 0
    {
      rows := [];
      lastInsertRowid := 0;
    }

    /** db.write of `INSERT INTO messages (name, message, createdAt) ...`:
        either appends one row with a new id and records that id, or fails
        and changes nothing. */
    method InsertMessage(name: string, message: string, createdAt: string) returns (ok: bool)
      requires Valid()
      modifies this
      ensures Valid()
      ensures ok ==> && rows == old(rows) + [Row(NextId(old(rows)), name, message, createdAt)]
                     && lastInsertRowid == NextId(old(rows))
      ensures !ok ==> unchanged(this)
    {
      ok := *;
      if ok {
        var id := NextId(rows);
        AppendNextKeepsOrder(rows, name, message, createdAt);
        rows := rows + [Row(id, name, message, createdAt)];
        lastInsertRowid := id;
      }
    }

    /** db.read of `SELECT last_insert_rowid()`: one row, one column. */
    method ReadLastInsertRowid() returns (ok: bool, result: SQResult)
      ensures ok ==> result == [[Decimal(lastInsertRowid)]]
    {
      ok := *;
      result := if ok then [[Decimal(lastInsertRowid)]] else [];
    }

    /** db.read of the listing query with `LIMIT limit`. */
    method ReadNewest(limit: nat) returns (ok: bool, result: SQResult)
      requires Valid()
      ensures ok ==> result == Render(Newest(rows, limit))
    {
      ok := *;
      result := if ok then Render(Newest(rows, limit)) else [];
    }
  }
}
