/**
 * LegajoServiceImpl: field-level validation of a Legajo, the standalone insert, the
 * id guard on reads, and the transactional operations the employee service calls on
 * the shared connection.
 */
module LegajoService {
  import opened Wrappers
  import opened JavaText
  import opened Exceptions
  import opened Entities
  import opened Dao
  import opened Jdbc

  /** A row of the legajo table: the owning employee's id (null when none was given) and the attributes. */
  datatype LegajoRow = LegajoRow(empleadoId: Option<int>, fields: LegajoFields)

  const MSG_LEGAJO_NULL := "El legajo no puede ser null"
  const MSG_NUMERO_VACIO := "El número de legajo no puede estar vacío"
  const MSG_ESTADO_NULL := "El Estado del Legajo no puede ser null"
  const MSG_NUMERO_LARGO := "El número de legajo no puede exceder los 20 caracteres"
  const MSG_CATEGORIA_LARGA := "La categoría no puede exceder los 30 caracteres"
  const MSG_OBSERVACIONES_LARGAS := "Las observaciones no pueden exceder los 255 caracteres"
  const MSG_ID_POSITIVO := "El ID debe ser mayor a 0"

  /** The Legajo an object reference denotes, or None for null. */
  function LegajoFieldsOf(legajo: Legajo?): Option<LegajoFields>
    reads legajo
  {
    if legajo == null then None else Some(legajo.Fields())
  }

  /** `validateLegajo`: the checks in source order; the first that fails decides the message. */
  function ValidateLegajo(l: Option<LegajoFields>): (r: Outcome<Exception>)
    ensures r.Fail? ==> r.error.IllegalArgument?
    ensures l.None? ==> r == Fail(IllegalArgument(MSG_LEGAJO_NULL))
  {
    if l.None? then Fail(IllegalArgument(MSG_LEGAJO_NULL))
    else if IsBlank(l.value.numeroLegajo) then Fail(IllegalArgument(MSG_NUMERO_VACIO))
    else if l.value.estado.None? then Fail(IllegalArgument(MSG_ESTADO_NULL))
    else if |Trim(l.value.numeroLegajo.value)| > 20 then Fail(IllegalArgument(MSG_NUMERO_LARGO))
    else if l.value.categoria.Some? && |l.value.categoria.value| > 30 then Fail(IllegalArgument(MSG_CATEGORIA_LARGA))
    else if l.value.observaciones.Some? && |l.value.observaciones.value| > 255 then Fail(IllegalArgument(MSG_OBSERVACIONES_LARGAS))
    else Pass
  }

  /**
   * The rules stated declaratively: a legajo exists; its number holds a visible
   * character and is at most 20 characters once trimmed; it has a status; a present
   * category has at most 30 characters and present observations at most 255.
   */
  ghost predicate LegajoAcceptable(l: Option<LegajoFields>) {
    && l.Some?
    && HasText(l.value.numeroLegajo)
    && |Trim(l.value.numeroLegajo.value)| <= 20
    && l.value.estado.Some?
    && (l.value.categoria.None? || |l.value.categoria.value| <= 30)
    && (l.value.observaciones.None? || |l.value.observaciones.value| <= 255)
  }

  lemma ValidateLegajoAccepts(l: Option<LegajoFields>)
    ensures ValidateLegajo(l).Pass? <==> LegajoAcceptable(l)
  {
    if l.Some? {
      BlankIffNoText(l.value.numeroLegajo);
    }
  }

  /** Which rule a rejected legajo breaks decides the message: the first one, in source order. */
  lemma ValidateLegajoReports(l: LegajoFields)
    ensures !HasText(l.numeroLegajo) ==> ValidateLegajo(Some(l)) == Fail(IllegalArgument(MSG_NUMERO_VACIO))
    ensures HasText(l.numeroLegajo) && l.estado.None? ==>
              ValidateLegajo(Some(l)) == Fail(IllegalArgument(MSG_ESTADO_NULL))
    ensures HasText(l.numeroLegajo) && l.estado.Some? && |Trim(l.numeroLegajo.value)| > 20 ==>
              ValidateLegajo(Some(l)) == Fail(IllegalArgument(MSG_NUMERO_LARGO))
    ensures HasText(l.numeroLegajo) && l.estado.Some? && |Trim(l.numeroLegajo.value)| <= 20
            && l.categoria.Some? && |l.categoria.value| > 30 ==>
              ValidateLegajo(Some(l)) == Fail(IllegalArgument(MSG_CATEGORIA_LARGA))
    ensures HasText(l.numeroLegajo) && l.estado.Some? && |Trim(l.numeroLegajo.value)| <= 20
            && (l.categoria.None? || |l.categoria.value| <= 30)
            && l.observaciones.Some? && |l.observaciones.value| > 255 ==>
              ValidateLegajo(Some(l)) == Fail(IllegalArgument(MSG_OBSERVACIONES_LARGAS))
  {
    BlankIffNoText(l.numeroLegajo);
  }

  /**
   * The length limit on the number applies after trimming: a number padded with
   * trimmable characters is judged exactly as its visible core alone, so a padded
   * core of at most 20 characters passes and a longer core fails on its length.
   */
  lemma NumeroLengthCountsTrimmed(left: string, core: string, right: string, l: LegajoFields)
    requires forall i :: 0 <= i < |left| ==> IsTrimmable(left[i])
    requires forall i :: 0 <= i < |right| ==> IsTrimmable(right[i])
    requires core != [] && !IsTrimmable(core[0]) && !IsTrimmable(core[|core| - 1])
    requires l.numeroLegajo == Some(left + core + right) && l.estado.Some?
    ensures ValidateLegajo(Some(l)) == ValidateLegajo(Some(l.(numeroLegajo := Some(core))))
    ensures |core| <= 20 && (l.categoria.None? || |l.categoria.value| <= 30)
            && (l.observaciones.None? || |l.observaciones.value| <= 255) ==>
              ValidateLegajo(Some(l)) == Pass
    ensures |core| > 20 ==> ValidateLegajo(Some(l)) == Fail(IllegalArgument(MSG_NUMERO_LARGO))
  {
    var m := l.(numeroLegajo := Some(core));
    TrimRemovesPadding(left, core, right);
    TrimKeepsTrimmed(core);
    ValidateLegajoSeesTrimmed(l, m);
    assert !IsBlank(m.numeroLegajo) && |Trim(core)| == |core|;
  }

  /** Validation reads the number only through its trimmed form. */
  lemma ValidateLegajoSeesTrimmed(l: LegajoFields, m: LegajoFields)
    requires l.numeroLegajo.Some? && m.numeroLegajo.Some?
    requires Trim(l.numeroLegajo.value) == Trim(m.numeroLegajo.value)
    requires l.estado == m.estado && l.categoria == m.categoria && l.observaciones == m.observaciones
    ensures ValidateLegajo(Some(l)) == ValidateLegajo(Some(m))
  {
    if IsBlank(l.numeroLegajo) {
      assert ValidateLegajo(Some(m)) == Fail(IllegalArgument(MSG_NUMERO_VACIO));
    } else if l.estado.None? {
      assert ValidateLegajo(Some(m)) == Fail(IllegalArgument(MSG_ESTADO_NULL));
    } else if |Trim(l.numeroLegajo.value)| > 20 {
      assert ValidateLegajo(Some(m)) == Fail(IllegalArgument(MSG_NUMERO_LARGO));
    }
  }

  /**
   * A null category or null observations are never a reason to reject: with a usable
   * number and a status, a null category leaves only the observations to judge, and
   * null observations leave only the category, whatever the other field holds.
   */
  lemma OptionalFieldsMayBeNull(l: LegajoFields)
    requires HasText(l.numeroLegajo) && |Trim(l.numeroLegajo.value)| <= 20 && l.estado.Some?
    ensures ValidateLegajo(Some(l.(categoria := None))) == Pass <==>
              l.observaciones.None? || |l.observaciones.value| <= 255
    ensures ValidateLegajo(Some(l.(observaciones := None))) == Pass <==>
              l.categoria.None? || |l.categoria.value| <= 30
  {
    BlankIffNoText(l.numeroLegajo);
  }

  /** The employee a legajo row belongs to, as stored. */
  function OwnerOf(t: Table<LegajoRow>, id: int): Option<int> {
    if id in t then t[id].value.empleadoId else None
  }

  /** Updating a legajo's attributes keeps the row's owner and deletion flag. */
  function UpdatedLegajo(t: Table<LegajoRow>, id: int, f: LegajoFields): (u: Table<LegajoRow>)
    ensures u.Keys == t.Keys
    ensures id in t ==> u[id] == Row(LegajoRow(t[id].value.empleadoId, f), t[id].eliminado)
    ensures forall k :: k in t && k != id ==> u[k] == t[k]
  {
    Updated(t, id, LegajoRow(OwnerOf(t, id), f))
  }

  class LegajoServiceImpl {
    const legajoDAO: Dao<LegajoRow>

    constructor (legajoDAO: Dao<LegajoRow>)
      ensures this.legajoDAO == legajoDAO
    {
      this.legajoDAO := legajoDAO;
    }

    /** `insertar(legajo)`: validates, then calls the DAO's standalone `crear`. */
    method Insertar(legajo: Legajo?, storage: Creation) returns (r: Outcome<Exception>)
      requires storage.Created? ==> storage.key !in legajoDAO.rows
      modifies legajoDAO
      ensures ValidateLegajo(LegajoFieldsOf(legajo)).Fail? ==>
                r == ValidateLegajo(LegajoFieldsOf(legajo)) && legajoDAO.rows == old(legajoDAO.rows)
      ensures ValidateLegajo(LegajoFieldsOf(legajo)).Pass? && storage.Created? ==>
                legajo != null && r == Pass
                && legajoDAO.rows == Inserted(old(legajoDAO.rows), storage.key, LegajoRow(None, legajo.Fields()))
      ensures ValidateLegajo(LegajoFieldsOf(legajo)).Pass? && storage.CreateFailed? ==>
                r == Fail(Raised(storage.fault)) && legajoDAO.rows == old(legajoDAO.rows)
    {
      r := ValidateLegajo(LegajoFieldsOf(legajo));
      if r.Pass? {
        var created := legajoDAO.Crear(LegajoRow(None, legajo.Fields()), storage);
        if created.Failure? {
          r := Fail(created.error);
        }
      }
    }

    /** `actualizar(entidad)`: has an empty body, so it changes nothing and returns normally. */
    method Actualizar(entidad: Legajo?) returns (r: Outcome<Exception>)
      ensures r == Pass
    {
      r := Pass;
    }

    /** `eliminar(id)`: has an empty body, so it changes nothing and returns normally. */
    method Eliminar(id: int) returns (r: Outcome<Exception>)
      ensures r == Pass
    {
      r := Pass;
    }

    /** `getById(id)`: rejects a non-positive id, otherwise the DAO's `leer(id)` unchanged. */
    function GetById(id: int): (r: Result<Option<LegajoRow>, Exception>)
      reads this, legajoDAO
      ensures id <= 0 ==> r == Failure(IllegalArgument(MSG_ID_POSITIVO))
      ensures id > 0 ==> r.Success? && r.value == legajoDAO.Leer(id)
      ensures r.Success? && r.value.Some? ==>
                id in legajoDAO.rows && !legajoDAO.rows[id].eliminado && r.value.value == legajoDAO.rows[id].value
      ensures id > 0 && id in legajoDAO.rows && !legajoDAO.rows[id].eliminado ==> r.Success? && r.value.Some?
    {
      if id <= 0 then Failure(IllegalArgument(MSG_ID_POSITIVO)) else Success(legajoDAO.Leer(id))
    }

    /** `getAll()`: the DAO's `leerTodos()` unchanged, so exactly the rows not logically deleted. */
    function GetAll(): (r: map<int, LegajoRow>)
      reads this, legajoDAO
      ensures forall id :: id in r <==> id in legajoDAO.rows && !legajoDAO.rows[id].eliminado
      ensures forall id :: id in r ==> r[id] == legajoDAO.rows[id].value
    {
      legajoDAO.LeerTodos()
    }

    /** `insertarTx(legajo, empleadoId, conn)`: the DAO's `crearTx` of a row owned by `empleadoId`. */
    method InsertarTx(legajo: Legajo, empleadoId: int, conn: Connection, storage: Creation)
      returns (r: Result<int, Exception>)
      requires storage.Created? ==> storage.key !in legajoDAO.rows
      modifies legajoDAO
      ensures !legajoDAO.overridesTx ==>
                r == Failure(UnsupportedOperation(UNSUPPORTED_TRANSACTION_MESSAGE)) && legajoDAO.rows == old(legajoDAO.rows)
      ensures legajoDAO.overridesTx && storage.Created? ==>
                r == Success(storage.key)
                && legajoDAO.rows == Inserted(old(legajoDAO.rows), storage.key, LegajoRow(Some(empleadoId), legajo.Fields()))
      ensures legajoDAO.overridesTx && storage.CreateFailed? ==>
                r == Failure(Raised(storage.fault)) && legajoDAO.rows == old(legajoDAO.rows)
      ensures conn.closed == old(conn.closed)
    {
      r := legajoDAO.CrearTx(LegajoRow(Some(empleadoId), legajo.Fields()), conn, storage);
    }

    /** `actualizarTx(legajo, conn)`: the DAO's `actualizarTx` of the legajo's own row. */
    method ActualizarTx(legajo: Legajo, conn: Connection, fault: Option<Fault>) returns (r: Outcome<Exception>)
      modifies legajoDAO
      ensures !legajoDAO.overridesTx ==>
                r == Fail(UnsupportedOperation(UNSUPPORTED_TRANSACTION_MESSAGE)) && legajoDAO.rows == old(legajoDAO.rows)
      ensures legajoDAO.overridesTx && fault.None? ==>
                r == Pass && legajoDAO.rows == UpdatedLegajo(old(legajoDAO.rows), legajo.Id(), legajo.Fields())
      ensures legajoDAO.overridesTx && fault.Some? ==>
                r == Fail(Raised(fault.value)) && legajoDAO.rows == old(legajoDAO.rows)
      ensures conn.closed == old(conn.closed)
    {
      var owner := OwnerOf(legajoDAO.rows, legajo.Id());
      r := legajoDAO.ActualizarTx(legajo.Id(), LegajoRow(owner, legajo.Fields()), conn, fault);
    }

    /** `eliminarTx(id, conn)`: the DAO's logical `eliminarTx`. */
    method EliminarTx(id: int, conn: Connection, fault: Option<Fault>) returns (r: Outcome<Exception>)
      modifies legajoDAO
      ensures !legajoDAO.overridesTx ==>
                r == Fail(UnsupportedOperation(UNSUPPORTED_TRANSACTION_MESSAGE)) && legajoDAO.rows == old(legajoDAO.rows)
      ensures legajoDAO.overridesTx && fault.None? ==>
                r == Pass && legajoDAO.rows == SoftDeleted(old(legajoDAO.rows), id)
      ensures legajoDAO.overridesTx && fault.Some? ==>
                r == Fail(Raised(fault.value)) && legajoDAO.rows == old(legajoDAO.rows)
      ensures conn.closed == old(conn.closed)
    {
      r := legajoDAO.EliminarTx(id, conn, fault);
    }
  }
}
