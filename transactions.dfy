/**
 * The transaction scope the employee service opens around each write
 * (`try (TransactionManager tx = ...)`), over the two tables it writes. Starting the
 * transaction takes a snapshot of both tables; `commit` keeps what was written;
 * closing a scope that was started and not committed restores the snapshot (the
 * rollback-on-close the service relies on) and then closes the connection.
 */
module Transactions {
  import opened Dao
  import opened Jdbc

  class TransactionManager<A, B> {
    const conn: Connection
    const first: Dao<A>
    const second: Dao<B>
    /** The rollback image taken by `StartTransaction`. */
    var savedFirst: Table<A>
    var savedSecond: Table<B>
    var started: bool
    var committed: bool

    /** Wraps a freshly acquired connection; no transaction has started yet. */
    constructor (first: Dao<A>, second: Dao<B>)
      ensures this.first == first && this.second == second
      ensures fresh(conn) && !conn.closed
      ensures !started && !committed
    {
      this.first := first;
      this.second := second;
      conn := new Connection();
      savedFirst, savedSecond := first.rows, second.rows;
      started, committed := false, false;
    }

    /** `startTransaction()`: auto-commit off, snapshot of both tables taken. */
    method StartTransaction()
      modifies this, conn
      ensures started && !committed && !conn.autoCommit && conn.closed == old(conn.closed)
      ensures savedFirst == first.rows && savedSecond == second.rows
    {
      conn.SetAutoCommit(false);
      savedFirst, savedSecond := first.rows, second.rows;
      started, committed := true, false;
    }

    /** `commit()`: everything written since the start is kept. */
    method Commit()
      modifies this
      ensures committed && started == old(started)
      ensures savedFirst == old(savedFirst) && savedSecond == old(savedSecond)
    {
      committed := true;
    }

    /**
     * `close()`: a started, uncommitted transaction is rolled back to its snapshot;
     * a committed one (or one never started) leaves the tables as they are. The
     * connection is closed in every case.
     */
    method Close()
      requires first as object != second
      modifies this, conn, first, second
      ensures conn.closed
      ensures old(started) && !old(committed) ==> first.rows == old(savedFirst) && second.rows == old(savedSecond)
      ensures !(old(started) && !old(committed)) ==> first.rows == old(first.rows) && second.rows == old(second.rows)
    {
      if started && !committed {
        first.rows := savedFirst;
        second.rows := savedSecond;
      }
      conn.Close();
      started := false;
    }
  }
}
