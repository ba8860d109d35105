/**
 * EmpleadoServiceImpl: the coordinator of the two tables. It validates an employee,
 * translates storage exceptions into domain messages, and runs each write that
 * touches both tables inside one transaction scope on one shared connection, so
 * that either both writes are kept or neither is.
 */
module EmpleadoService {
  import opened Wrappers
  import opened JavaText
  import opened Exceptions
  import opened Entities
  import opened Dao
  import opened Jdbc
  import opened Transactions
  import opened LegajoService

  // ---------------------------------------------------------------------------
  // Messages

  const MSG_PERSONA_NULL := "La persona no puede ser null"
  const MSG_NOMBRE_VACIO := "El nombre no puede estar vacío"
  const MSG_APELLIDO_VACIO := "El apellido no puede estar vacío"
  const MSG_DNI_VACIO := "El DNI no puede estar vacío"
  const MSG_DNI_INVALIDO := "DNI inválido. Debe contener solo números."
  const MSG_EMAIL_INVALIDO := "Email inválido. Formato esperado: usuario@dominio.com."

  const MSG_LEGAJO_REQUERIDO := "Un Empleado debe ser creado con un Legajo."
  const MSG_ID_CERO := "No se pudo crear el empleado, ID es 0."
  const PREFIX_CREAR := "Error al crear empleado: "
  const MSG_ACTUALIZAR_SIN_ID := "El empleado a actualizar no puede ser null y debe tener un ID."
  const MSG_ACTUALIZAR_SIN_LEGAJO := "El empleado debe tener un legajo asociado con ID para actualizar."
  const PREFIX_ACTUALIZAR := "Error al actualizar empleado: "
  const MSG_ELIMINAR_ID := "El ID para eliminar debe ser mayor a 0."
  const MSG_NO_ENCONTRADO := "No se encontró un empleado (activo) con el ID: "
  const PREFIX_ELIMINAR := "Error al eliminar empleado: "
  const MSG_DNI_BUSQUEDA_VACIO := "El DNI no puede estar vacío."

  /** The SQL state of an integrity-constraint violation. */
  const SQL_STATE_INTEGRITY := "23000"
  const UQ_EMPLEADO_DNI := "uq_empleado_dni"
  const UQ_EMPLEADO_EMAIL := "uq_empleado_email"
  const UQ_LEGAJO_NRO_LEGAJO := "uq_legajo_nro_legajo"
  const MSG_DNI_EN_USO := "Error: El DNI ya está en uso por otro empleado."
  const MSG_EMAIL_EN_USO := "Error: El email ya está en uso por otro empleado."
  const MSG_NRO_LEGAJO_EN_USO := "Error: El número de legajo ya está en uso."
  const MSG_UNICIDAD: string :=
    "Error: Se ha violado una restricción de datos únicos " + "(DNI, email o Nro. de Legajo ya existen)."
  const MSG_DB_INESPERADO := "Error de base de datos inesperado."

  /** The IllegalStateException text for an active employee `id` that has no legajo. */
  function MsgSinLegajo(id: nat): string {
    "Error de datos: El empleado " + DecimalText(id) + " no tiene un legajo asociado."
  }

  // ---------------------------------------------------------------------------
  // validateEmpleado

  /** The attributes an object reference denotes, or None for null. */
  function EmpleadoFieldsOf(empleado: Empleado?): (r: Option<EmpleadoFields>)
    reads empleado
    ensures r.None? <==> empleado == null
  {
    if empleado == null then None else Some(empleado.Fields())
  }

  /** `validateEmpleado`: the checks in source order; the first that fails decides the message. */
  function ValidateEmpleado(e: Option<EmpleadoFields>): (r: Outcome<Exception>)
    ensures r.Fail? ==> r.error.IllegalArgument?
    ensures e.None? ==> r == Fail(IllegalArgument(MSG_PERSONA_NULL))
  {
    if e.None? then Fail(IllegalArgument(MSG_PERSONA_NULL))
    else if IsBlank(e.value.nombre) then Fail(IllegalArgument(MSG_NOMBRE_VACIO))
    else if IsBlank(e.value.apellido) then Fail(IllegalArgument(MSG_APELLIDO_VACIO))
    else if IsBlank(e.value.dni) then Fail(IllegalArgument(MSG_DNI_VACIO))
    else if !MatchesDigits(e.value.dni.value) then Fail(IllegalArgument(MSG_DNI_INVALIDO))
    else if !IsBlank(e.value.email) && !MatchesEmail(e.value.email.value) then Fail(IllegalArgument(MSG_EMAIL_INVALIDO))
    else Pass
  }

  /**
   * The rules stated declaratively: an employee exists; name and surname hold a
   * visible character; the DNI, untrimmed, is one or more ASCII digits; an email
   * that holds a visible character is a local run over `[A-Za-z0-9+_.-]`, '@', and
   * at least one further character with no line terminator.
   */
  ghost predicate EmpleadoAcceptable(e: Option<EmpleadoFields>) {
    && e.Some?
    && HasText(e.value.nombre)
    && HasText(e.value.apellido)
    && e.value.dni.Some? && |e.value.dni.value| > 0
    && (forall i :: 0 <= i < |e.value.dni.value| ==> IsAsciiDigit(e.value.dni.value[i]))
    && (HasText(e.value.email) ==> EmailShape(e.value.email.value))
  }

  lemma ValidateEmpleadoAccepts(e: Option<EmpleadoFields>)
    ensures ValidateEmpleado(e).Pass? <==> EmpleadoAcceptable(e)
  {
    if e.Some? {
      BlankIffNoText(e.value.nombre);
      BlankIffNoText(e.value.apellido);
      BlankIffNoText(e.value.dni);
      BlankIffNoText(e.value.email);
      if e.value.dni.Some? {
        MatchesDigitsIff(e.value.dni.value);
        if |e.value.dni.value| > 0 && IsAsciiDigit(e.value.dni.value[0]) {
          assert !IsTrimmable(e.value.dni.value[0]);
        }
      }
      if e.value.email.Some? {
        MatchesEmailIff(e.value.email.value);
      }
    }
  }

  /** Which rule a rejected employee breaks decides the message: the first one, in source order. */
  lemma ValidateEmpleadoReports(e: EmpleadoFields)
    ensures !HasText(e.nombre) ==> ValidateEmpleado(Some(e)) == Fail(IllegalArgument(MSG_NOMBRE_VACIO))
    ensures HasText(e.nombre) && !HasText(e.apellido) ==>
              ValidateEmpleado(Some(e)) == Fail(IllegalArgument(MSG_APELLIDO_VACIO))
    ensures HasText(e.nombre) && HasText(e.apellido) && !HasText(e.dni) ==>
              ValidateEmpleado(Some(e)) == Fail(IllegalArgument(MSG_DNI_VACIO))
    ensures HasText(e.nombre) && HasText(e.apellido) && HasText(e.dni)
            && (exists i :: 0 <= i < |e.dni.value| && !IsAsciiDigit(e.dni.value[i])) ==>
              ValidateEmpleado(Some(e)) == Fail(IllegalArgument(MSG_DNI_INVALIDO))
    ensures HasText(e.nombre) && HasText(e.apellido) && e.dni.Some? && |e.dni.value| > 0
            && (forall i :: 0 <= i < |e.dni.value| ==> IsAsciiDigit(e.dni.value[i]))
            && HasText(e.email) && !EmailShape(e.email.value) ==>
              ValidateEmpleado(Some(e)) == Fail(IllegalArgument(MSG_EMAIL_INVALIDO))
  {
    BlankIffNoText(e.nombre);
    BlankIffNoText(e.apellido);
    BlankIffNoText(e.dni);
    BlankIffNoText(e.email);
    if e.dni.Some? {
      MatchesDigitsIff(e.dni.value);
      if |e.dni.value| > 0 && IsAsciiDigit(e.dni.value[0]) {
        assert !IsTrimmable(e.dni.value[0]);
      }
    }
    if e.email.Some? {
      MatchesEmailIff(e.email.value);
    }
  }

  /** The DNI is matched untrimmed: a space in front of the digits is rejected as invalid. */
  lemma PaddedDniRejected(e: EmpleadoFields)
    requires HasText(e.nombre) && HasText(e.apellido)
    requires e.dni == Some(" 123")
    ensures ValidateEmpleado(Some(e)) == Fail(IllegalArgument(MSG_DNI_INVALIDO))
  {
    BlankIffNoText(e.nombre);
    BlankIffNoText(e.apellido);
    assert !IsTrimmable(e.dni.value[1]);
    assert !MatchesDigits(e.dni.value) by {
      MatchesDigitsIff(e.dni.value);
      assert !IsAsciiDigit(e.dni.value[0]);
    }
  }

  /** The email is optional: null, or only blanks, never causes a rejection. */
  lemma BlankEmailAccepted(e: EmpleadoFields, blanks: string)
    requires EmpleadoAcceptable(Some(e))
    requires forall i :: 0 <= i < |blanks| ==> IsTrimmable(blanks[i])
    ensures ValidateEmpleado(Some(e.(email := None))) == Pass
    ensures ValidateEmpleado(Some(e.(email := Some(blanks)))) == Pass
  {
    ValidateEmpleadoAccepts(Some(e.(email := None)));
    ValidateEmpleadoAccepts(Some(e.(email := Some(blanks))));
  }

  // ---------------------------------------------------------------------------
  // handleSqlException

  /** The lower-cased message names the constraint `name` somewhere. */
  ghost predicate Mentions(message: string, name: string) {
    exists i :: OccursAt(ToLowerAscii(message), name, i)
  }

  /**
   * `handleSqlException(e)` for an SQLException with state `state` and message
   * `detail`: the exception it throws. With state "23000" and a null message the
   * `toLowerCase` call itself throws a NullPointerException.
   */
  function HandleSqlException(state: JString, detail: JString): (r: Exception)
    ensures r.NullPointer? <==> state == Some(SQL_STATE_INTEGRITY) && detail.None?
    ensures !r.NullPointer? ==> r.ServiceException? && r.cause == SqlException(state, detail)
    ensures state != Some(SQL_STATE_INTEGRITY) <==> r == ServiceException(MSG_DB_INESPERADO, SqlException(state, detail))
  {
    var cause := SqlException(state, detail);
    if state == Some(SQL_STATE_INTEGRITY) then
      if detail.None? then NullPointer
      else
        var message := ToLowerAscii(detail.value);
        if Contains(message, UQ_EMPLEADO_DNI) then ServiceException(MSG_DNI_EN_USO, cause)
        else if Contains(message, UQ_EMPLEADO_EMAIL) then ServiceException(MSG_EMAIL_EN_USO, cause)
        else if Contains(message, UQ_LEGAJO_NRO_LEGAJO) then ServiceException(MSG_NRO_LEGAJO_EN_USO, cause)
        else ServiceException(MSG_UNICIDAD, cause)
    else
      ServiceException(MSG_DB_INESPERADO, cause)
  }

  /**
   * For an integrity violation, the constraint names are looked for in order: the
   * first one the message mentions (in any letter case) decides the text, and the
   * generic uniqueness text is used when it mentions none of them.
   */
  lemma HandleSqlExceptionClassifies(m: string)
    ensures var r := HandleSqlException(Some(SQL_STATE_INTEGRITY), Some(m));
      && r.ServiceException?
      && (r.reason == MSG_DNI_EN_USO <==> Mentions(m, UQ_EMPLEADO_DNI))
      && (r.reason == MSG_EMAIL_EN_USO <==> !Mentions(m, UQ_EMPLEADO_DNI) && Mentions(m, UQ_EMPLEADO_EMAIL))
      && (r.reason == MSG_NRO_LEGAJO_EN_USO <==>
            !Mentions(m, UQ_EMPLEADO_DNI) && !Mentions(m, UQ_EMPLEADO_EMAIL) && Mentions(m, UQ_LEGAJO_NRO_LEGAJO))
      && (r.reason == MSG_UNICIDAD <==>
            !Mentions(m, UQ_EMPLEADO_DNI) && !Mentions(m, UQ_EMPLEADO_EMAIL) && !Mentions(m, UQ_LEGAJO_NRO_LEGAJO))
  {
    var low := ToLowerAscii(m);
    ContainsIff(low, UQ_EMPLEADO_DNI);
    ContainsIff(low, UQ_EMPLEADO_EMAIL);
    ContainsIff(low, UQ_LEGAJO_NRO_LEGAJO);
    assert MSG_DNI_EN_USO[10] != MSG_EMAIL_EN_USO[10];
    assert MSG_DNI_EN_USO[10] != MSG_NRO_LEGAJO_EN_USO[10];
    assert MSG_EMAIL_EN_USO[10] != MSG_NRO_LEGAJO_EN_USO[10];
    assert MSG_UNICIDAD[10] != MSG_DNI_EN_USO[10];
    assert MSG_UNICIDAD[10] != MSG_EMAIL_EN_USO[10];
    assert MSG_UNICIDAD[10] != MSG_NRO_LEGAJO_EN_USO[10];
  }

  /** Lower-casing is idempotent, so the letter case of a message never changes the text chosen. */
  lemma HandleSqlExceptionIgnoresCase(m: string)
    ensures HandleSqlException(Some(SQL_STATE_INTEGRITY), Some(ToLowerAscii(m))).reason
         == HandleSqlException(Some(SQL_STATE_INTEGRITY), Some(m)).reason
  {
    var low := ToLowerAscii(m);
    assert ToLowerAscii(low) == low by {
      forall i | 0 <= i < |low|
        ensures ToLowerAscii(low)[i] == low[i]
      {
        assert low[i] == LowerChar(m[i]);
      }
    }
  }

  /**
   * What a `catch` of the write methods makes of an exception from the transaction
   * body: an SQLException goes through `handleSqlException`; anything else becomes a
   * ServiceException whose message is `prefix` followed by the original message.
   */
  function Caught(e: Exception, prefix: string): (r: Exception)
    ensures r.NullPointer? <==> e.SqlException? && e.sqlState == Some(SQL_STATE_INTEGRITY) && e.detail.None?
    ensures r.ServiceException? || r.NullPointer?
    ensures r.ServiceException? ==> r.cause == e
    ensures !e.SqlException? ==> r.reason == prefix + Render(e.GetMessage())
  {
    if e.SqlException? then HandleSqlException(e.sqlState, e.detail)
    else ServiceException(prefix + Render(e.GetMessage()), e)
  }

  /** An exception that is not an SQLException, such as the unsupported default of a `*Tx` method, keeps its text behind the prefix. */
  lemma UnsupportedIsWrapped(prefix: string)
    ensures Caught(UnsupportedOperation(UNSUPPORTED_TRANSACTION_MESSAGE), prefix)
         == ServiceException(prefix + UNSUPPORTED_TRANSACTION_MESSAGE, UnsupportedOperation(UNSUPPORTED_TRANSACTION_MESSAGE))
  {
  }

  // ---------------------------------------------------------------------------
  // Reads

  /** An employee as `leer` returns it: id, attributes and the id of the legajo joined to it. */
  datatype EmpleadoRecord = EmpleadoRecord(id: int, fields: EmpleadoFields, legajoId: Option<int>)

  /** Row `lid` of the legajo table is visible and belongs to employee `empId`. */
  predicate OwnsLegajo(legajos: Table<LegajoRow>, empId: int, lid: int) {
    lid in legajos && !legajos[lid].eliminado && legajos[lid].value.empleadoId == Some(empId)
  }

  /** The zero-key error is an SQLException without a state, so it is reported as an unexpected database error. */
  lemma ZeroKeyIsUnexpected()
    ensures Caught(SqlException(None, Some(MSG_ID_CERO)), PREFIX_CREAR)
            == ServiceException(MSG_DB_INESPERADO, SqlException(None, Some(MSG_ID_CERO)))
  {
  }

  /** What the transaction body's failure, if any, makes the whole call return. */
  function Finish(failure: Option<Exception>, prefix: string): (r: Outcome<Exception>)
    ensures r.Pass? <==> failure.None?
    ensures failure.Some? ==> r == Fail(Caught(failure.value, prefix))
  {
    if failure.None? then Pass else Fail(Caught(failure.value, prefix))
  }

  class EmpleadoServiceImpl {
    const empleadoDAO: Dao<EmpleadoFields>
    const legajoService: LegajoServiceImpl

    constructor (empleadoDAO: Dao<EmpleadoFields>, legajoService: LegajoServiceImpl)
      ensures this.empleadoDAO == empleadoDAO && this.legajoService == legajoService
    {
      this.empleadoDAO := empleadoDAO;
      this.legajoService := legajoService;
    }

    /**
     * `empleadoDAO.leer(id)`: the active employee with its legajo joined, or None.
     * The join picks a visible legajo row that belongs to the employee, if any.
     */
    method Leer(id: int) returns (r: Option<EmpleadoRecord>)
      ensures r.Some? <==> empleadoDAO.Leer(id).Some?
      ensures r.Some? ==> r.value.id == id && r.value.fields == empleadoDAO.rows[id].value
      ensures r.Some? && r.value.legajoId.Some? ==> OwnsLegajo(legajoService.legajoDAO.rows, id, r.value.legajoId.value)
      ensures r.Some? && r.value.legajoId.None? ==> forall lid :: !OwnsLegajo(legajoService.legajoDAO.rows, id, lid)
    {
      var e := empleadoDAO.Leer(id);
      if e.None? {
        return None;
      }
      var legajos := legajoService.legajoDAO.rows;
      var links := set lid | lid in legajos.Keys && OwnsLegajo(legajos, id, lid);
      if links == {} {
        assert forall lid :: OwnsLegajo(legajos, id, lid) ==> lid in links;
        r := Some(EmpleadoRecord(id, e.value, None));
      } else {
        var lid :| lid in links;
        r := Some(EmpleadoRecord(id, e.value, Some(lid)));
      }
    }

    /** `getById(id)`: rejects a non-positive id, otherwise `leer(id)` unchanged, possibly None. */
    method GetById(id: int) returns (r: Result<Option<EmpleadoRecord>, Exception>)
      ensures id <= 0 ==> r == Failure(IllegalArgument(MSG_ID_POSITIVO))
      ensures id > 0 ==> r.Success?
      ensures r.Success? ==> (r.value.Some? <==> id in empleadoDAO.LeerTodos())
      ensures r.Success? && r.value.Some? ==>
                r.value.value.id == id && r.value.value.fields == empleadoDAO.LeerTodos()[id]
      // the legajo joined by `leer`
      ensures r.Success? && r.value.Some? && r.value.value.legajoId.Some? ==>
                OwnsLegajo(legajoService.legajoDAO.rows, id, r.value.value.legajoId.value)
      ensures r.Success? && r.value.Some? && r.value.value.legajoId.None? ==>
                forall lid :: !OwnsLegajo(legajoService.legajoDAO.rows, id, lid)
    {
      if id <= 0 {
        return Failure(IllegalArgument(MSG_ID_POSITIVO));
      }
      var e := Leer(id);
      r := Success(e);
    }

    /** `getAll()`: the DAO's `leerTodos()` unchanged, so exactly the active employees. */
    function GetAll(): (r: map<int, EmpleadoFields>)
      reads this, empleadoDAO
      ensures forall id :: id in r <==> id in empleadoDAO.rows && !empleadoDAO.rows[id].eliminado
      ensures forall id :: id in r ==> r[id] == empleadoDAO.rows[id].value
    {
      empleadoDAO.LeerTodos()
    }

    /**
     * `getByDni(dni)`: rejects a null or blank DNI; otherwise `buscarPorDni(dni)`, an
     * active employee whose DNI is exactly `dni`, or None when there is none.
     */
    method GetByDni(dni: JString) returns (r: Result<Option<EmpleadoRecord>, Exception>)
      ensures IsBlank(dni) ==> r == Failure(IllegalArgument(MSG_DNI_BUSQUEDA_VACIO))
      ensures !IsBlank(dni) ==> r.Success?
      ensures r.Success? && r.value.Some? ==>
                r.value.value.id in empleadoDAO.LeerTodos() && r.value.value.fields.dni == dni
                && r.value.value.fields == empleadoDAO.LeerTodos()[r.value.value.id]
      ensures r.Success? && r.value.None? ==>
                forall id :: id in empleadoDAO.LeerTodos() ==> empleadoDAO.LeerTodos()[id].dni != dni
      // the legajo joined by `leer`
      ensures r.Success? && r.value.Some? && r.value.value.legajoId.Some? ==>
                OwnsLegajo(legajoService.legajoDAO.rows, r.value.value.id, r.value.value.legajoId.value)
      ensures r.Success? && r.value.Some? && r.value.value.legajoId.None? ==>
                forall lid :: !OwnsLegajo(legajoService.legajoDAO.rows, r.value.value.id, lid)
    {
      if IsBlank(dni) {
        return Failure(IllegalArgument(MSG_DNI_BUSQUEDA_VACIO));
      }
      var active := empleadoDAO.LeerTodos();
      if id :| id in active && active[id].dni == dni {
        var e := Leer(id);
        r := Success(e);
      } else {
        r := Success(None);
      }
    }

    // -------------------------------------------------------------------------
    // Transactional writes

    /**
     * The body of the transaction in `insertar`: `crearTx` of the employee, the
     * generated key stored as the employee's id, the check against a key of 0, and
     * `insertarTx` of the legajo for that key. Returns the exception the body throws,
     * if any. On success both rows have been written.
     */
    method InsertarEnTransaccion(empleado: Empleado, conn: Connection, empStorage: Creation, legStorage: Creation)
      returns (failure: Option<Exception>)
      requires empleado.legajo != null
      requires empStorage.Created? ==> empStorage.key !in empleadoDAO.rows
      requires legStorage.Created? ==> legStorage.key !in legajoService.legajoDAO.rows
      modifies empleado, empleadoDAO, legajoService.legajoDAO
      ensures failure.None? <==>
                empleadoDAO.overridesTx && empStorage.Created? && empStorage.key != 0
                && legajoService.legajoDAO.overridesTx && legStorage.Created?
      ensures failure.None? ==>
                && empleadoDAO.rows == Inserted(old(empleadoDAO.rows), empStorage.key, old(empleado.Fields()))
                && legajoService.legajoDAO.rows
                   == Inserted(old(legajoService.legajoDAO.rows), legStorage.key,
                               LegajoRow(Some(empStorage.key), old(empleado.legajo.Fields())))
      ensures !empleadoDAO.overridesTx ==> failure == Some(UnsupportedOperation(UNSUPPORTED_TRANSACTION_MESSAGE))
      ensures empleadoDAO.overridesTx && empStorage.CreateFailed? ==> failure == Some(Raised(empStorage.fault))
      ensures empleadoDAO.overridesTx && empStorage == Created(0) ==> failure == Some(SqlException(None, Some(MSG_ID_CERO)))
      ensures empleadoDAO.overridesTx && empStorage.Created? && empStorage.key != 0 && !legajoService.legajoDAO.overridesTx ==>
                failure == Some(UnsupportedOperation(UNSUPPORTED_TRANSACTION_MESSAGE))
      ensures empleadoDAO.overridesTx && empStorage.Created? && empStorage.key != 0 && legajoService.legajoDAO.overridesTx
              && legStorage.CreateFailed? ==>
                failure == Some(Raised(legStorage.fault))
      ensures empleado.Fields() == old(empleado.Fields()) && empleado.legajo == old(empleado.legajo)
      ensures empleadoDAO.overridesTx && empStorage.Created? ==>
                empleado.Id() == empStorage.key && empleado.IsEliminado() == old(empleado.IsEliminado())
      ensures !(empleadoDAO.overridesTx && empStorage.Created?) ==> empleado.base == old(empleado.base)
    {
      var created := empleadoDAO.CrearTx(empleado.Fields(), conn, empStorage);
      if created.Failure? {
        return Some(created.error);
      }
      empleado.SetId(created.value);
      if empleado.Id() == 0 {
        return Some(SqlException(None, Some(MSG_ID_CERO)));
      }
      var linked := legajoService.InsertarTx(empleado.legajo, empleado.Id(), conn, legStorage);
      if linked.Failure? {
        return Some(linked.error);
      }
      return None;
    }

    /**
     * `insertar(empleado)`. Validation and the legajo check come before any
     * transaction. Inside it the employee row is created first; its generated key
     * becomes the employee's id; a key of 0 is an error; then the legajo row is
     * created for that key. Only when both succeed is the transaction committed:
     * any failure leaves both tables as they were.
     */
    method Insertar(empleado: Empleado?, empStorage: Creation, legStorage: Creation) returns (r: Outcome<Exception>)
      requires empStorage.Created? ==> empStorage.key !in empleadoDAO.rows
      requires legStorage.Created? ==> legStorage.key !in legajoService.legajoDAO.rows
      modifies empleado, empleadoDAO, legajoService.legajoDAO
      // validation and the legajo check, before any write
      ensures ValidateEmpleado(old(EmpleadoFieldsOf(empleado))).Fail? ==>
                r == ValidateEmpleado(old(EmpleadoFieldsOf(empleado)))
                && empleadoDAO.rows == old(empleadoDAO.rows) && legajoService.legajoDAO.rows == old(legajoService.legajoDAO.rows)
      ensures ValidateEmpleado(old(EmpleadoFieldsOf(empleado))).Pass? && empleado != null && old(empleado.legajo) == null ==>
                r == Fail(IllegalArgument(MSG_LEGAJO_REQUERIDO))
                && empleadoDAO.rows == old(empleadoDAO.rows) && legajoService.legajoDAO.rows == old(legajoService.legajoDAO.rows)
      // both rows or neither
      ensures r.Fail? ==>
                empleadoDAO.rows == old(empleadoDAO.rows) && legajoService.legajoDAO.rows == old(legajoService.legajoDAO.rows)
      ensures r.Pass? <==>
                && ValidateEmpleado(old(EmpleadoFieldsOf(empleado))).Pass? && empleado != null && old(empleado.legajo) != null
                && empleadoDAO.overridesTx && empStorage.Created? && empStorage.key != 0
                && legajoService.legajoDAO.overridesTx && legStorage.Created?
      ensures r.Pass? ==>
                && empleado != null && empleado.legajo != null
                && empleadoDAO.rows == Inserted(old(empleadoDAO.rows), empStorage.key, old(empleado.Fields()))
                && legajoService.legajoDAO.rows
                   == Inserted(old(legajoService.legajoDAO.rows), legStorage.key,
                               LegajoRow(Some(empStorage.key), old(empleado.legajo.Fields())))
      // which failure is reported, in the order the steps run
      ensures ValidateEmpleado(old(EmpleadoFieldsOf(empleado))).Pass? && empleado != null && old(empleado.legajo) != null ==>
                && (!empleadoDAO.overridesTx ==>
                      r == Fail(Caught(UnsupportedOperation(UNSUPPORTED_TRANSACTION_MESSAGE), PREFIX_CREAR)))
                && (empleadoDAO.overridesTx && empStorage.CreateFailed? ==>
                      r == Fail(Caught(Raised(empStorage.fault), PREFIX_CREAR)))
                && (empleadoDAO.overridesTx && empStorage == Created(0) ==>
                      r == Fail(ServiceException(MSG_DB_INESPERADO, SqlException(None, Some(MSG_ID_CERO)))))
                && (empleadoDAO.overridesTx && empStorage.Created? && empStorage.key != 0
                    && !legajoService.legajoDAO.overridesTx ==>
                      r == Fail(Caught(UnsupportedOperation(UNSUPPORTED_TRANSACTION_MESSAGE), PREFIX_CREAR)))
                && (empleadoDAO.overridesTx && empStorage.Created? && empStorage.key != 0
                    && legajoService.legajoDAO.overridesTx && legStorage.CreateFailed? ==>
                      r == Fail(Caught(Raised(legStorage.fault), PREFIX_CREAR)))
      // the employee object takes the generated key, even when the transaction is rolled back
      ensures empleado != null ==> empleado.Fields() == old(empleado.Fields()) && empleado.legajo == old(empleado.legajo)
      ensures empleado != null && ValidateEmpleado(old(EmpleadoFieldsOf(empleado))).Pass? && old(empleado.legajo) != null
              && empleadoDAO.overridesTx && empStorage.Created? ==>
                empleado.Id() == empStorage.key && empleado.IsEliminado() == old(empleado.IsEliminado())
      ensures empleado != null && !(ValidateEmpleado(old(EmpleadoFieldsOf(empleado))).Pass? && old(empleado.legajo) != null
              && empleadoDAO.overridesTx && empStorage.Created?) ==>
                empleado.base == old(empleado.base)
    {
      r := ValidateEmpleado(EmpleadoFieldsOf(empleado));
      if r.Fail? {
        return;
      }
      if empleado.legajo == null {
        return Fail(IllegalArgument(MSG_LEGAJO_REQUERIDO));
      }
      var tx := new TransactionManager(empleadoDAO, legajoService.legajoDAO);
      tx.StartTransaction();
      var failure := InsertarEnTransaccion(empleado, tx.conn, empStorage, legStorage);
      ZeroKeyIsUnexpected();
      if failure.None? {
        tx.Commit();
      }
      tx.Close();
      r := Finish(failure, PREFIX_CREAR);
    }

    /**
     * The body of the transaction in `actualizar`: `actualizarTx` of the legajo, then
     * of the employee. Returns the exception the body throws, if any.
     */
    method ActualizarEnTransaccion(empleado: Empleado, conn: Connection, legFault: Option<Fault>, empFault: Option<Fault>)
      returns (failure: Option<Exception>)
      requires empleado.legajo != null
      modifies empleadoDAO, legajoService.legajoDAO
      ensures failure.None? <==>
                legajoService.legajoDAO.overridesTx && legFault.None? && empleadoDAO.overridesTx && empFault.None?
      ensures failure.None? ==>
                && legajoService.legajoDAO.rows
                   == UpdatedLegajo(old(legajoService.legajoDAO.rows), empleado.legajo.Id(), empleado.legajo.Fields())
                && empleadoDAO.rows == Updated(old(empleadoDAO.rows), empleado.Id(), empleado.Fields())
      ensures !legajoService.legajoDAO.overridesTx ==> failure == Some(UnsupportedOperation(UNSUPPORTED_TRANSACTION_MESSAGE))
      ensures legajoService.legajoDAO.overridesTx && legFault.Some? ==> failure == Some(Raised(legFault.value))
      ensures legajoService.legajoDAO.overridesTx && legFault.None? && !empleadoDAO.overridesTx ==>
                failure == Some(UnsupportedOperation(UNSUPPORTED_TRANSACTION_MESSAGE))
      ensures legajoService.legajoDAO.overridesTx && legFault.None? && empleadoDAO.overridesTx && empFault.Some? ==>
                failure == Some(Raised(empFault.value))
    {
      var first := legajoService.ActualizarTx(empleado.legajo, conn, legFault);
      if first.Fail? {
        return Some(first.error);
      }
      var second := empleadoDAO.ActualizarTx(empleado.Id(), empleado.Fields(), conn, empFault);
      if second.Fail? {
        return Some(second.error);
      }
      return None;
    }

    /**
     * `actualizar(empleado)`. The id guards come first, then validation, all before
     * any write. Inside the transaction the legajo is updated first and then the
     * employee; a failure of either leaves both tables as they were, and a failing
     * legajo step is the one reported.
     */
    method Actualizar(empleado: Empleado?, legFault: Option<Fault>, empFault: Option<Fault>) returns (r: Outcome<Exception>)
      modifies empleadoDAO, legajoService.legajoDAO
      ensures empleado == null || empleado.Id() <= 0 ==> r == Fail(IllegalArgument(MSG_ACTUALIZAR_SIN_ID))
      ensures empleado != null && empleado.Id() > 0 && (empleado.legajo == null || empleado.legajo.Id() <= 0) ==>
                r == Fail(IllegalArgument(MSG_ACTUALIZAR_SIN_LEGAJO))
      ensures empleado != null && empleado.Id() > 0 && empleado.legajo != null && empleado.legajo.Id() > 0
              && ValidateEmpleado(EmpleadoFieldsOf(empleado)).Fail? ==>
                r == ValidateEmpleado(EmpleadoFieldsOf(empleado))
      // both updates or neither
      ensures r.Fail? ==>
                empleadoDAO.rows == old(empleadoDAO.rows) && legajoService.legajoDAO.rows == old(legajoService.legajoDAO.rows)
      ensures r.Pass? <==>
                && empleado != null && empleado.Id() > 0 && empleado.legajo != null && empleado.legajo.Id() > 0
                && ValidateEmpleado(EmpleadoFieldsOf(empleado)).Pass?
                && legajoService.legajoDAO.overridesTx && legFault.None?
                && empleadoDAO.overridesTx && empFault.None?
      ensures r.Pass? ==>
                && empleado != null && empleado.legajo != null
                && legajoService.legajoDAO.rows
                   == UpdatedLegajo(old(legajoService.legajoDAO.rows), empleado.legajo.Id(), empleado.legajo.Fields())
                && empleadoDAO.rows == Updated(old(empleadoDAO.rows), empleado.Id(), empleado.Fields())
      // which failure is reported: the legajo step runs first
      ensures empleado != null && empleado.Id() > 0 && empleado.legajo != null && empleado.legajo.Id() > 0
              && ValidateEmpleado(EmpleadoFieldsOf(empleado)).Pass? ==>
                && (!legajoService.legajoDAO.overridesTx ==>
                      r == Fail(Caught(UnsupportedOperation(UNSUPPORTED_TRANSACTION_MESSAGE), PREFIX_ACTUALIZAR)))
                && (legajoService.legajoDAO.overridesTx && legFault.Some? ==>
                      r == Fail(Caught(Raised(legFault.value), PREFIX_ACTUALIZAR)))
                && (legajoService.legajoDAO.overridesTx && legFault.None? && !empleadoDAO.overridesTx ==>
                      r == Fail(Caught(UnsupportedOperation(UNSUPPORTED_TRANSACTION_MESSAGE), PREFIX_ACTUALIZAR)))
                && (legajoService.legajoDAO.overridesTx && legFault.None? && empleadoDAO.overridesTx && empFault.Some? ==>
                      r == Fail(Caught(Raised(empFault.value), PREFIX_ACTUALIZAR)))
    {
      if empleado == null || empleado.Id() <= 0 {
        return Fail(IllegalArgument(MSG_ACTUALIZAR_SIN_ID));
      }
      if empleado.legajo == null || empleado.legajo.Id() <= 0 {
        return Fail(IllegalArgument(MSG_ACTUALIZAR_SIN_LEGAJO));
      }
      r := ValidateEmpleado(EmpleadoFieldsOf(empleado));
      if r.Fail? {
        return;
      }
      var tx := new TransactionManager(empleadoDAO, legajoService.legajoDAO);
      tx.StartTransaction();
      var failure := ActualizarEnTransaccion(empleado, tx.conn, legFault, empFault);
      if failure.None? {
        tx.Commit();
      }
      tx.Close();
      r := Finish(failure, PREFIX_ACTUALIZAR);
    }

    /**
     * The body of the transaction in `eliminar`: `eliminarTx` of the legajo, then of
     * the employee. Returns the exception the body throws, if any.
     */
    method EliminarEnTransaccion(id: int, legajoId: int, conn: Connection, legFault: Option<Fault>, empFault: Option<Fault>)
      returns (failure: Option<Exception>)
      modifies empleadoDAO, legajoService.legajoDAO
      ensures failure.None? <==>
                legajoService.legajoDAO.overridesTx && legFault.None? && empleadoDAO.overridesTx && empFault.None?
      ensures failure.None? ==>
                && legajoService.legajoDAO.rows == SoftDeleted(old(legajoService.legajoDAO.rows), legajoId)
                && empleadoDAO.rows == SoftDeleted(old(empleadoDAO.rows), id)
      ensures !legajoService.legajoDAO.overridesTx ==> failure == Some(UnsupportedOperation(UNSUPPORTED_TRANSACTION_MESSAGE))
      ensures legajoService.legajoDAO.overridesTx && legFault.Some? ==> failure == Some(Raised(legFault.value))
      ensures legajoService.legajoDAO.overridesTx && legFault.None? && !empleadoDAO.overridesTx ==>
                failure == Some(UnsupportedOperation(UNSUPPORTED_TRANSACTION_MESSAGE))
      ensures legajoService.legajoDAO.overridesTx && legFault.None? && empleadoDAO.overridesTx && empFault.Some? ==>
                failure == Some(Raised(empFault.value))
    {
      var first := legajoService.EliminarTx(legajoId, conn, legFault);
      if first.Fail? {
        return Some(first.error);
      }
      var second := empleadoDAO.EliminarTx(id, conn, empFault);
      if second.Fail? {
        return Some(second.error);
      }
      return None;
    }

    /**
     * `eliminar(id)`. Rejects a non-positive id, an id with no active employee, and
     * an employee with no legajo (as a data error), all before any write. Inside the
     * transaction the employee's legajo is logically deleted first and then the
     * employee; a failure of either leaves both tables as they were and is wrapped as
     * a ServiceException.
     */
    method Eliminar(id: int, legFault: Option<Fault>, empFault: Option<Fault>) returns (r: Outcome<Exception>)
      modifies empleadoDAO, legajoService.legajoDAO
      ensures id <= 0 ==> r == Fail(IllegalArgument(MSG_ELIMINAR_ID))
      ensures id > 0 && id !in old(empleadoDAO.LeerTodos()) ==>
                r == Fail(IllegalArgument(MSG_NO_ENCONTRADO + DecimalText(id)))
      ensures id > 0 && id in old(empleadoDAO.LeerTodos())
              && (forall lid :: !OwnsLegajo(old(legajoService.legajoDAO.rows), id, lid)) ==>
                r == Fail(IllegalState(MsgSinLegajo(id)))
      // both deletions or neither
      ensures r.Fail? ==>
                empleadoDAO.rows == old(empleadoDAO.rows) && legajoService.legajoDAO.rows == old(legajoService.legajoDAO.rows)
      ensures r.Pass? <==>
                && id > 0 && id in old(empleadoDAO.LeerTodos())
                && (exists lid :: OwnsLegajo(old(legajoService.legajoDAO.rows), id, lid))
                && legajoService.legajoDAO.overridesTx && legFault.None?
                && empleadoDAO.overridesTx && empFault.None?
      ensures r.Pass? ==>
                && empleadoDAO.rows == SoftDeleted(old(empleadoDAO.rows), id)
                && (exists lid :: OwnsLegajo(old(legajoService.legajoDAO.rows), id, lid)
                      && legajoService.legajoDAO.rows == SoftDeleted(old(legajoService.legajoDAO.rows), lid))
      // a failure inside the transaction is always wrapped, with the legajo step reported first
      ensures id > 0 && id in old(empleadoDAO.LeerTodos())
              && (exists lid :: OwnsLegajo(old(legajoService.legajoDAO.rows), id, lid)) ==>
                && (!legajoService.legajoDAO.overridesTx ==>
                      r == Fail(ServiceException(PREFIX_ELIMINAR + UNSUPPORTED_TRANSACTION_MESSAGE,
                                                 UnsupportedOperation(UNSUPPORTED_TRANSACTION_MESSAGE))))
                && (legajoService.legajoDAO.overridesTx && legFault.Some? ==>
                      r == Fail(ServiceException(PREFIX_ELIMINAR + Render(legFault.value.detail), Raised(legFault.value))))
                && (legajoService.legajoDAO.overridesTx && legFault.None? && !empleadoDAO.overridesTx ==>
                      r == Fail(ServiceException(PREFIX_ELIMINAR + UNSUPPORTED_TRANSACTION_MESSAGE,
                                                 UnsupportedOperation(UNSUPPORTED_TRANSACTION_MESSAGE))))
                && (legajoService.legajoDAO.overridesTx && legFault.None? && empleadoDAO.overridesTx && empFault.Some? ==>
                      r == Fail(ServiceException(PREFIX_ELIMINAR + Render(empFault.value.detail), Raised(empFault.value))))
    {
      if id <= 0 {
        return Fail(IllegalArgument(MSG_ELIMINAR_ID));
      }
      var found := Leer(id);
      if found.None? {
        return Fail(IllegalArgument(MSG_NO_ENCONTRADO + DecimalText(id)));
      }
      if found.value.legajoId.None? {
        return Fail(IllegalState(MsgSinLegajo(id)));
      }
      var tx := new TransactionManager(empleadoDAO, legajoService.legajoDAO);
      tx.StartTransaction();
      var failure := EliminarEnTransaccion(id, found.value.legajoId.value, tx.conn, legFault, empFault);
      if failure.None? {
        tx.Commit();
      }
      tx.Close();
      r := if failure.None? then Pass
           else Fail(ServiceException(PREFIX_ELIMINAR + Render(failure.value.GetMessage()), failure.value));
    }
  }
}
