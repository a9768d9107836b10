/**
 * The `expenses` table as an append-only store.  `create_table` makes the
 * table when it is missing; `add_expense` inserts one row whose id SQLite's
 * AUTOINCREMENT chooses, and a failing insert (a `sqlite3.Error` that
 * `add_expense` catches and prints) leaves the store as it was.
 */
module Store {

  datatype Expense = Expense(id: int, date: string, amount: real, category: string, description: string)

  /**
   * The table: its rows in rowid order, and the largest id AUTOINCREMENT has
   * ever handed out (its `sqlite_sequence` entry, 0 before the first insert).
   */
  datatype Table = Table(rows: seq<Expense>, sequence: int)

  /** The database file either has the `expenses` table or does not. */
  datatype Db = NoTable | HasTable(table: Table)

  /** The largest rowid SQLite can store, 2^63 - 1. */
  const MaxRowId: int := 0x7FFF_FFFF_FFFF_FFFF

  /**
   * The store's invariant: the counter is in range, every id lies between 1
   * and the counter, and ids increase strictly in row order.
   */
  predicate Valid(t: Table) {
    && 0 <= t.sequence <= MaxRowId
    && (forall i :: 0 <= i < |t.rows| ==> 1 <= t.rows[i].id <= t.sequence)
    && (forall i, j :: 0 <= i < j < |t.rows| ==> t.rows[i].id < t.rows[j].id)
  }

  /** `CREATE TABLE IF NOT EXISTS expenses (...)`. */
  function CreateTable(db: Db): (r: Db)
    ensures r.HasTable?
    ensures db.HasTable? ==> r == db
    ensures db.NoTable? ==> r.table.rows == [] && r.table.sequence == 0 && Valid(r.table)
  {
    match db
    case NoTable => HasTable(Table([], 0))
    case HasTable(_) => db
  }

  /** Creating the table twice is creating it once. */
  lemma CreateTableIdempotent(db: Db)
    ensures CreateTable(CreateTable(db)) == CreateTable(db)
  {
  }

  /** The largest id among the rows, 0 when there are none. */
  function MaxId(rows: seq<Expense>): int
  {
    if |rows| == 0 then 0
    else
      var m := MaxId(rows[..|rows| - 1]);
      if rows[|rows| - 1].id > m then rows[|rows| - 1].id else m
  }

  /** `MaxId` bounds every id, and is either 0 or the id of some row. */
  lemma {:induction false} MaxIdIsMax(rows: seq<Expense>)
    ensures forall i :: 0 <= i < |rows| ==> rows[i].id <= MaxId(rows)
    ensures MaxId(rows) == 0 || exists i :: 0 <= i < |rows| && rows[i].id == MaxId(rows)
    decreases |rows|
  {
    if |rows| > 0 {
      var front := rows[..|rows| - 1];
      MaxIdIsMax(front);
      assert forall i :: 0 <= i < |front| ==> rows[i] == front[i];
    }
  }

  /** Why an insert did not happen. */
  datatype AddError =
    | NoSuchTable   // the statement names a table that does not exist
    | TableFull     // AUTOINCREMENT has used up the rowid range (SQLITE_FULL)

  datatype Added = Inserted(id: int) | Failed(error: AddError)

  datatype AddResult = AddResult(db: Db, outcome: Added)

  /**
   * `INSERT INTO expenses (date, amount, category, description) VALUES (...)`.
   * AUTOINCREMENT takes one more than the larger of the counter and the
   * largest id present, and fails with SQLITE_FULL when that would exceed
   * the rowid range.  The columns impose no grammar: any date text is stored.
   */
  function AddExpense(db: Db, date: string, amount: real, category: string, description: string): (r: AddResult)
    ensures r.outcome.Failed? ==> r.db == db
    ensures db.NoTable? ==> r.outcome == Failed(NoSuchTable)
    ensures r.outcome.Inserted? ==>
              && db.HasTable? && r.db.HasTable?
              && r.db.table.rows == db.table.rows + [Expense(r.outcome.id, date, amount, category, description)]
              && r.outcome.id > db.table.sequence
              && r.db.table.sequence == r.outcome.id
              && (forall i :: 0 <= i < |db.table.rows| ==> db.table.rows[i].id < r.outcome.id)
  {
    match db
    case NoTable => AddResult(db, Failed(NoSuchTable))
    case HasTable(t) =>
      var m := MaxId(t.rows);
      MaxIdIsMax(t.rows);
      var last := if t.sequence > m then t.sequence else m;
      if last >= MaxRowId then AddResult(db, Failed(TableFull))
      else
        var id := last + 1;
        AddResult(HasTable(Table(t.rows + [Expense(id, date, amount, category, description)], id)), Inserted(id))
  }

  /**
   * An insert into a valid table keeps it valid, and succeeds exactly when
   * the rowid range is not used up.
   */
  lemma AddExpensePreservesValid(db: Db, date: string, amount: real, category: string, description: string)
    requires db.HasTable? && Valid(db.table)
    ensures var r := AddExpense(db, date, amount, category, description);
            && r.db.HasTable? && Valid(r.db.table)
            && (r.outcome.Inserted? <==> db.table.sequence < MaxRowId)
            && (r.outcome.Inserted? ==> r.outcome.id == db.table.sequence + 1)
  {
    var t := db.table;
    var m := MaxId(t.rows);
    MaxIdIsMax(t.rows);
    assert m <= t.sequence by {
      if m != 0 {
        var i :| 0 <= i < |t.rows| && t.rows[i].id == m;
      }
    }
  }

  /** The first expense added to a fresh table gets id 1. */
  lemma FirstIdIsOne(date: string, amount: real, category: string, description: string)
    ensures AddExpense(CreateTable(NoTable), date, amount, category, description).outcome == Inserted(1)
  {
  }
}
