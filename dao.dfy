/**
 * The store contract every DAO follows (GenericDAO<T>): a table of rows keyed by id,
 * each carrying a logical-deletion flag. Deletion only sets that flag; single reads
 * and listings hide flagged rows. The transactional `*Tx` variants share the caller's
 * connection and, unless a DAO overrides them, fail with UnsupportedOperationException.
 *
 * What storage itself answers to a write (the generated key, or a fault) is a parameter
 * of each write: the concrete DAO bodies and the SQL behind them are outside this model.
 */
module Dao {
  import opened Wrappers
  import opened Exceptions
  import opened Jdbc

  /** A stored row: the entity's columns and the `eliminado` column. */
  datatype Row<T> = Row(value: T, eliminado: bool)

  type Table<T> = map<int, Row<T>>

  /** The answer of storage to an INSERT: the key it generated, or the fault it raised. */
  datatype Creation = Created(key: int) | CreateFailed(fault: Fault)

  /** GenericDAO.UNSUPPORTED_TRANSACTION_MESSAGE. */
  const UNSUPPORTED_TRANSACTION_MESSAGE: string :=
    "Operación transaccional no soportada por este DAO. "
    + "Sobrescriba el método *Tx correspondiente para habilitarla."

  // ---------------------------------------------------------------------------
  // Table semantics

  /** `leer(id)`: the row's entity, or null when the row is absent or logically deleted. */
  function Lookup<T>(t: Table<T>, id: int): (r: Option<T>)
    ensures r.Some? <==> id in t && !t[id].eliminado
    ensures r.Some? ==> r.value == t[id].value
  {
    if id in t && !t[id].eliminado then Some(t[id].value) else None
  }

  /** `leerTodos()`: every row that is not logically deleted, by id. */
  function Visible<T>(t: Table<T>): (v: map<int, T>)
    ensures forall id :: id in v <==> id in t && !t[id].eliminado
    ensures forall id :: id in v ==> v[id] == t[id].value
  {
    map id | id in t && !t[id].eliminado :: t[id].value
  }

  /** A new row at `key`, not deleted. */
  function Inserted<T>(t: Table<T>, key: int, value: T): Table<T> {
    t[key := Row(value, false)]
  }

  /** `UPDATE ... WHERE id = ?`: new columns for row `id`, deletion flag kept; no row, no change. */
  function Updated<T>(t: Table<T>, id: int, value: T): Table<T> {
    if id in t then t[id := Row(value, t[id].eliminado)] else t
  }

  /** `UPDATE ... SET eliminado = TRUE WHERE id = ?`. */
  function SoftDeleted<T>(t: Table<T>, id: int): Table<T> {
    if id in t then t[id := t[id].(eliminado := true)] else t
  }

  /** A single read and the listing agree on every id. */
  lemma LookupAgreesWithVisible<T>(t: Table<T>, id: int)
    ensures Lookup(t, id) == (if id in Visible(t) then Some(Visible(t)[id]) else None)
  {
  }

  /**
   * Logical deletion: the row stays in storage with its columns, it is hidden from
   * `leer` and `leerTodos` afterwards, and every other row reads as before.
   */
  lemma SoftDeleteHides<T>(t: Table<T>, id: int)
    ensures SoftDeleted(t, id).Keys == t.Keys
    ensures id in t ==> SoftDeleted(t, id)[id] == Row(t[id].value, true)
    ensures Lookup(SoftDeleted(t, id), id).None?
    ensures Visible(SoftDeleted(t, id)) == Visible(t) - {id}
    ensures forall k :: k != id ==> Lookup(SoftDeleted(t, id), k) == Lookup(t, k)
  {
    var v, w := Visible(SoftDeleted(t, id)), Visible(t) - {id};
    assert v.Keys == w.Keys;
  }

  /** Deleting again changes nothing, so what is visible stays the same. */
  lemma SoftDeleteIdempotent<T>(t: Table<T>, id: int)
    ensures SoftDeleted(SoftDeleted(t, id), id) == SoftDeleted(t, id)
    ensures Visible(SoftDeleted(SoftDeleted(t, id), id)) == Visible(SoftDeleted(t, id))
  {
  }

  /** However many deletions ran, no listed row carries the deletion flag. */
  lemma {:induction false} VisibleAfterDeletions<T>(t: Table<T>, ids: seq<int>)
    ensures forall k :: k in Visible(DeleteAll(t, ids)) ==> k !in ids && !DeleteAll(t, ids)[k].eliminado
    ensures Visible(DeleteAll(t, ids)).Keys == Visible(t).Keys - set k | k in ids
  {
    if ids != [] {
      VisibleAfterDeletions(SoftDeleted(t, ids[0]), ids[1..]);
      SoftDeleteHides(t, ids[0]);
      assert forall k :: k in ids <==> k == ids[0] || k in ids[1..];
    }
  }

  /** The table after deleting `ids` in order. */
  function DeleteAll<T>(t: Table<T>, ids: seq<int>): Table<T> {
    if ids == [] then t else DeleteAll(SoftDeleted(t, ids[0]), ids[1..])
  }

  /** An inserted row reads back as it was written. */
  lemma InsertedReadsBack<T>(t: Table<T>, key: int, value: T)
    ensures Lookup(Inserted(t, key, value), key) == Some(value)
    ensures Visible(Inserted(t, key, value)) == Visible(t)[key := value]
  {
    var v, w := Visible(Inserted(t, key, value)), Visible(t)[key := value];
    assert v.Keys == w.Keys;
  }

  /**
   * A generated key is new, so an insert adds exactly one row and keeps every row
   * already stored, logically deleted ones included.
   */
  lemma InsertedKeepsRows<T>(t: Table<T>, key: int, value: T)
    requires key !in t
    ensures Inserted(t, key, value).Keys == t.Keys + {key}
    ensures forall k :: k in t ==> Inserted(t, key, value)[k] == t[k]
    ensures Visible(Inserted(t, key, value)).Keys == Visible(t).Keys + {key}
  {
    InsertedReadsBack(t, key, value);
  }

  /** An update never brings a deleted row back, and a visible row reads the new columns. */
  lemma UpdatedKeepsDeletion<T>(t: Table<T>, id: int, value: T)
    ensures Updated(t, id, value).Keys == t.Keys
    ensures Lookup(Updated(t, id, value), id) == if Lookup(t, id).Some? then Some(value) else None
  {
  }

  // ---------------------------------------------------------------------------
  // The DAO object

  class Dao<T> {
    /** The table this DAO reads and writes. */
    var rows: Table<T>
    /** Whether the concrete DAO overrides the default `*Tx` methods. */
    const overridesTx: bool

    constructor (overridesTx: bool)
      ensures rows == map[] && this.overridesTx == overridesTx
    {
      rows := map[];
      this.overridesTx := overridesTx;
    }

    /** `leer(id)`. */
    function Leer(id: int): (r: Option<T>)
      reads this
      ensures r.Some? <==> id in LeerTodos()
      ensures r.Some? ==> r.value == LeerTodos()[id]
    {
      Lookup(rows, id)
    }

    /** `leerTodos()`, as a map from id to entity (the order of the list is not modelled). */
    function LeerTodos(): (v: map<int, T>)
      reads this
      ensures forall id :: id in v ==> id in rows && !rows[id].eliminado && v[id] == rows[id].value
      ensures forall id :: id in rows && !rows[id].eliminado ==> id in v
    {
      Visible(rows)
    }

    /** `crear(entidad)`, on its own connection in auto-commit mode: returns the generated id. */
    method Crear(value: T, storage: Creation) returns (r: Result<int, Exception>)
      requires storage.Created? ==> storage.key !in rows
      modifies this
      ensures storage.Created? ==> r == Success(storage.key) && rows == Inserted(old(rows), storage.key, value)
      ensures storage.CreateFailed? ==> r == Failure(Raised(storage.fault)) && rows == old(rows)
    {
      if storage.Created? {
        rows := Inserted(rows, storage.key, value);
        r := Success(storage.key);
      } else {
        r := Failure(Raised(storage.fault));
      }
    }

    /** `crearTx(entidad, conn)`: as `crear`, on the caller's connection, which stays open. */
    method CrearTx(value: T, conn: Connection, storage: Creation) returns (r: Result<int, Exception>)
      requires storage.Created? ==> storage.key !in rows
      modifies this
      ensures !overridesTx ==> r == Failure(UnsupportedOperation(UNSUPPORTED_TRANSACTION_MESSAGE)) && rows == old(rows)
      ensures overridesTx && storage.Created? ==> r == Success(storage.key) && rows == Inserted(old(rows), storage.key, value)
      ensures overridesTx && storage.CreateFailed? ==> r == Failure(Raised(storage.fault)) && rows == old(rows)
      ensures conn.closed == old(conn.closed)
    {
      if !overridesTx {
        r := Failure(UnsupportedOperation(UNSUPPORTED_TRANSACTION_MESSAGE));
      } else {
        r := Crear(value, storage);
      }
    }

    /** `actualizar(entidad)` for the row `id`, on its own connection. */
    method Actualizar(id: int, value: T, fault: Option<Fault>) returns (r: Outcome<Exception>)
      modifies this
      ensures fault.None? ==> r == Pass && rows == Updated(old(rows), id, value)
      ensures fault.Some? ==> r == Fail(Raised(fault.value)) && rows == old(rows)
    {
      if fault.None? {
        rows := Updated(rows, id, value);
        r := Pass;
      } else {
        r := Fail(Raised(fault.value));
      }
    }

    /** `actualizarTx(entidad, conn)`. */
    method ActualizarTx(id: int, value: T, conn: Connection, fault: Option<Fault>) returns (r: Outcome<Exception>)
      modifies this
      ensures !overridesTx ==> r == Fail(UnsupportedOperation(UNSUPPORTED_TRANSACTION_MESSAGE)) && rows == old(rows)
      ensures overridesTx && fault.None? ==> r == Pass && rows == Updated(old(rows), id, value)
      ensures overridesTx && fault.Some? ==> r == Fail(Raised(fault.value)) && rows == old(rows)
      ensures conn.closed == old(conn.closed)
    {
      if !overridesTx {
        r := Fail(UnsupportedOperation(UNSUPPORTED_TRANSACTION_MESSAGE));
      } else {
        r := Actualizar(id, value, fault);
      }
    }

    /** `eliminar(id)`: logical deletion, on its own connection. */
    method Eliminar(id: int, fault: Option<Fault>) returns (r: Outcome<Exception>)
      modifies this
      ensures fault.None? ==> r == Pass && rows == SoftDeleted(old(rows), id)
      ensures fault.Some? ==> r == Fail(Raised(fault.value)) && rows == old(rows)
    {
      if fault.None? {
        rows := SoftDeleted(rows, id);
        r := Pass;
      } else {
        r := Fail(Raised(fault.value));
      }
    }

    /** `eliminarTx(id, conn)`. */
    method EliminarTx(id: int, conn: Connection, fault: Option<Fault>) returns (r: Outcome<Exception>)
      modifies this
      ensures !overridesTx ==> r == Fail(UnsupportedOperation(UNSUPPORTED_TRANSACTION_MESSAGE)) && rows == old(rows)
      ensures overridesTx && fault.None? ==> r == Pass && rows == SoftDeleted(old(rows), id)
      ensures overridesTx && fault.Some? ==> r == Fail(Raised(fault.value)) && rows == old(rows)
      ensures conn.closed == old(conn.closed)
    {
      if !overridesTx {
        r := Fail(UnsupportedOperation(UNSUPPORTED_TRANSACTION_MESSAGE));
      } else {
        r := Eliminar(id, fault);
      }
    }
  }
}
