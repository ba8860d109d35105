# Employees and their record files, in Dafny

This project models the business layer of a small Java system that keeps
employees (`Empleado`) and the record file each one has (`Legajo`) in two
tables with logical deletion. It then proves properties of that model.

- **`EmpleadoServiceImpl`** validates an employee. It translates SQL errors
  into domain messages. It runs every write that touches both tables inside one
  transaction scope on one shared connection.
- **`LegajoServiceImpl`** validates a record file and guards reads by id. Its
  own `actualizar` and `eliminar` do nothing.
- **`GenericDAO`** is the store contract. Deletion only sets the `eliminado`
  flag, and reads hide flagged rows. The transactional `*Tx` methods fail as
  "unsupported" unless a DAO overrides them.
- **The entities** are `Base` (id and deletion flag), `Legajo`, `Empleado` and
  the status enum `EstadoLegajo`.

Modules follow the Java packages:

| file | module | contents |
|---|---|---|
| `wrappers.dfy` | `Wrappers` | `Option`, `Result`, `Outcome` |
| `java_text.dfy` | `JavaText` | `trim`, `isEmpty`, the two regular expressions, `toLowerCase`, `contains`, decimal rendering of ids |
| `exceptions.dfy` | `Exceptions` | the exceptions the core throws or lets through, and storage faults |
| `jdbc.dfy` | `Jdbc` | the shared connection (open/closed, auto-commit) |
| `entities.dfy` | `Entities` | `EstadoLegajo`, `Base`, `Legajo`, `Empleado` |
| `dao.dfy` | `Dao` | tables of rows with a deletion flag, and the class `Dao<T>` |
| `transactions.dfy` | `Transactions` | the transaction scope: snapshot on start, commit, rollback on close |
| `legajo_service.dfy` | `LegajoService` | `validateLegajo` and `LegajoServiceImpl` |
| `empleado_service.dfy` | `EmpleadoService` | `validateEmpleado`, `handleSqlException` and `EmpleadoServiceImpl` |

How Java maps onto the model:

- **null.** Java `null` is `None` (`JString = Option<string>`). A nullable
  object parameter has type `Legajo?` or `Empleado?`.
- **Base.** `Base` is an abstract superclass in Java. Here it is a value
  embedded in each entity class as the field `base`, and the inherited setters
  are methods of each class.
- **Exceptions.** A thrown exception is the `Fail` or `Failure` value of the
  method's result. `ServiceException` is a constructor of the `Exception`
  datatype that carries its cause.
- **Storage.** Each table is a map from id to a row holding the entity's columns
  and its `eliminado` flag. The concrete DAO bodies are not part of this model.
  What storage answers to a write is therefore a parameter:
  - `Creation` for an insert: the generated key, or a fault;
  - `Option<Fault>` for an update or a deletion.
- **Overriding `*Tx`.** Whether a concrete DAO overrides the default `*Tx`
  methods is the constant `Dao.overridesTx`.
- **Legajo rows.** A legajo row stores the id of the employee it belongs to.
  That id is null when the row was created on its own by
  `LegajoServiceImpl.insertar`.
- **Reading an employee.** `EmpleadoDAO.leer` returns the employee with its
  legajo joined. The model picks any visible legajo row that belongs to the
  employee.
- **Transactions.** The code relies on a transaction scope that is rolled back
  on close unless committed. `TransactionManager` states that as its contract:
  `startTransaction` takes a snapshot of both tables, and `close` restores the
  snapshot unless `commit` ran.

## Model

| member | source | states |
|---|---|---|
| JavaText.TrimStart | src/main/java/service/LegajoServiceImpl.java:67 | the leading half of `trim()`: the result is a suffix of the input, every character dropped is `<= ' '`, and a non-empty result starts with a character above `' '` |
| JavaText.TrimEnd | src/main/java/service/LegajoServiceImpl.java:67 | the trailing half of `trim()`: the result is a prefix of the input, every character dropped is `<= ' '`, and a non-empty result ends with a character above `' '` |
| JavaText.Trim | src/main/java/service/LegajoServiceImpl.java:67 | `trim()` never lengthens, and a non-empty result starts and ends with a character above `' '` |
| JavaText.TrimEmptyIff | src/main/java/service/LegajoServiceImpl.java:67 | `trim()` yields the empty string exactly when every character is `<= ' '` |
| JavaText.TrimRemovesPadding | src/main/java/service/LegajoServiceImpl.java:67 | any padding of trimmable characters around a visible core trims to exactly that core |
| JavaText.TrimStartSkips | src/main/java/service/LegajoServiceImpl.java:67 | leading characters `<= ' '` are all skipped: trimming the start of `pad + rest` is trimming the start of `rest` |
| JavaText.TrimEndSkips | src/main/java/service/LegajoServiceImpl.java:67 | trailing characters `<= ' '` are all dropped: trimming the end of `rest + pad` is trimming the end of `rest` |
| JavaText.TrimKeepsTrimmed | src/main/java/service/LegajoServiceImpl.java:67 | a string that starts and ends with a visible character is its own trim |
| JavaText.IsBlank | src/main/java/service/LegajoServiceImpl.java:56 | `s == null \|\| s.trim().isEmpty()`, the blank test of every validation; `JavaText.BlankIffNoText` characterises it |
| JavaText.BlankIffNoText | src/main/java/service/EmpleadoServiceImpl.java:170 | `s == null \|\| s.trim().isEmpty()` holds exactly when the string has no visible character |
| JavaText.AllDigitsIff | src/main/java/service/EmpleadoServiceImpl.java:35 | the recursive digit test holds exactly when every character is an ASCII digit |
| JavaText.MatchesDigits | src/main/java/service/EmpleadoServiceImpl.java:179 | `dni.matches("\\d+")` on the untrimmed string: `JavaText.MatchesDigitsIff` characterises it |
| JavaText.MatchesDigitsIff | src/main/java/service/EmpleadoServiceImpl.java:179-181 | `matches("\\d+")` holds exactly for a non-empty string of ASCII digits, the whole untrimmed string |
| JavaText.LocalPartLength | src/main/java/service/EmpleadoServiceImpl.java:36 | the longest prefix over `[A-Za-z0-9+_.-]`: all in the class, followed by a character outside it |
| JavaText.MatchesEmail | src/main/java/service/EmpleadoServiceImpl.java:185 | `email.matches(EMAIL_REGEX)`, decided at the end of the longest local prefix; `JavaText.MatchesEmailIff` characterises it |
| JavaText.MatchesEmailIff | src/main/java/service/EmpleadoServiceImpl.java:183-188 | `matches("^[A-Za-z0-9+_.-]+@(.+)$")` holds exactly when the string splits into a non-empty local run, '@' and a non-empty rest with no line terminator |
| JavaText.ToLowerAscii | src/main/java/service/EmpleadoServiceImpl.java:201 | lower-casing keeps the length and maps each character independently |
| JavaText.Contains | src/main/java/service/EmpleadoServiceImpl.java:202-208 | `message.contains(name)`, tried at every start position; `JavaText.ContainsIff` characterises it |
| JavaText.ContainsIff | src/main/java/service/EmpleadoServiceImpl.java:202-208 | `contains(sub)` holds exactly when `sub` occurs at some index |
| JavaText.ContainsOccurs | src/main/java/service/EmpleadoServiceImpl.java:202-208 | when `contains(sub)` holds, `sub` occurs at some index |
| JavaText.OccursContains | src/main/java/service/EmpleadoServiceImpl.java:202-208 | an occurrence of `sub` at any index makes `contains(sub)` hold |
| JavaText.DecimalText | src/main/java/service/EmpleadoServiceImpl.java:124-127 | the rendering of an id in a message is a non-empty string of digits without a leading zero |
| JavaText.DecimalTextRoundTrip | src/main/java/service/EmpleadoServiceImpl.java:124-127 | reading the rendered digits back gives the id |
| Exceptions.Raised | src/main/java/dao/GenericDAO.java:28-35 | a storage fault surfaces as an SQLException exactly when it is an SQL error, with the fault's message |
| Exceptions.Exception.GetMessage | src/main/java/service/EmpleadoServiceImpl.java:79 | `e.getMessage()`: the text each exception was built with, or null for an SQL or runtime failure that carries none; the NullPointerException's message is left null, although JDK 15 and later fill in a helpful one, and no contract reads it because that exception escapes unwrapped |
| Entities.EstadoLegajo.Descripcion | src/main/java/entities/EstadoLegajo.java:14-32 | `getDescripcion()` returns the text each constant was declared with |
| Entities.EstadoLegajo.IsActivo | src/main/java/entities/EstadoLegajo.java:37-39 | `isActivo()` tests for ACTIVO; `Entities.EstadoExactlyOne` relates it to `isInactivo` |
| Entities.EstadoLegajo.IsInactivo | src/main/java/entities/EstadoLegajo.java:44-46 | `isInactivo()` tests for INACTIVO |
| Entities.EstadoLegajo.Name | src/main/java/entities/EstadoLegajo.java:14-19 | the constant's own name, which `Legajo.toString` prints through `getEstado()` |
| Entities.EstadoExactlyOne | src/main/java/entities/EstadoLegajo.java:34-46 | `isActivo` holds exactly for ACTIVO, `isInactivo` exactly for INACTIVO, and exactly one of them holds |
| Entities.DescripcionInjective | src/main/java/entities/EstadoLegajo.java:14-32 | the two fixed descriptions differ, so a description identifies its constant |
| Entities.Base.SetId | src/main/java/entities/Base.java:40-42 | `setId(x)` makes the id x and keeps the deletion flag |
| Entities.Base.SetEliminado | src/main/java/entities/Base.java:48-50 | `setEliminado(v)` makes the flag v and keeps the id |
| Entities.Base.MarcarEliminado | src/main/java/entities/Base.java:56-58 | `marcarEliminado` sets the flag and keeps the id |
| Entities.MarcarEliminadoIdempotent | src/main/java/entities/Base.java:56-58 | marking twice equals marking once, and equals `setEliminado(true)` |
| Entities.LegajoState.EliminarRegistro | src/main/java/entities/Legajo.java:96-99 | a logically deleted Legajo is flagged with its id kept and its status INACTIVO; number, category, date and observations are kept |
| Entities.EliminarRegistroIdempotent | src/main/java/entities/Legajo.java:96-99 | deleting a Legajo twice equals deleting it once |
| Entities.Legajo.Id | src/main/java/entities/Base.java:36-38 | `getId()`, inherited from Base: the id held in the embedded base state |
| Entities.Legajo.IsEliminado | src/main/java/entities/Base.java:44-46 | `isEliminado()`, inherited from Base: the deletion flag held in the embedded base state |
| Entities.Legajo.Fields | src/main/java/entities/Legajo.java:53-87 | the five getters `getNumeroLegajo` to `getObservaciones`, read together as one value |
| Entities.Legajo.constructor | src/main/java/entities/Legajo.java:36-44 | the full constructor stores the five attributes, with id 0 and not deleted |
| Entities.Legajo.Empty | src/main/java/entities/Legajo.java:46-48 | the no-argument constructor leaves every attribute null, with id 0 and not deleted |
| Entities.Legajo.SetId | src/main/java/entities/Base.java:40-42 | the id becomes x; the flag and the attributes are kept |
| Entities.Legajo.SetEliminado | src/main/java/entities/Base.java:48-50 | the flag becomes v; the id and the attributes are kept |
| Entities.Legajo.SetNumeroLegajo | src/main/java/entities/Legajo.java:57-59 | only `numeroLegajo` changes, to the value given |
| Entities.Legajo.SetCategoria | src/main/java/entities/Legajo.java:65-67 | only `categoria` changes, to the value given |
| Entities.Legajo.SetEstado | src/main/java/entities/Legajo.java:73-75 | only `estado` changes, to the value given |
| Entities.Legajo.SetFechaAlta | src/main/java/entities/Legajo.java:81-83 | only `fechaAlta` changes, to the value given |
| Entities.Legajo.SetObservaciones | src/main/java/entities/Legajo.java:89-91 | only `observaciones` changes, to the value given |
| Entities.Legajo.EliminarRegistro | src/main/java/entities/Legajo.java:96-99 | the object's new state is the logically deleted state of its old one |
| Entities.Legajo.ToString | src/main/java/entities/Legajo.java:103-109 | the text starts with "Legajo [" |
| Entities.Empleado.Id | src/main/java/entities/Base.java:36-38 | `getId()`, inherited from Base |
| Entities.Empleado.IsEliminado | src/main/java/entities/Base.java:44-46 | `isEliminado()`, inherited from Base |
| Entities.Empleado.Fields | src/main/java/entities/Empleado.java:60-102 | the six getters `getNombre` to `getArea`, read together as one value |
| Entities.Empleado.constructor | src/main/java/entities/Empleado.java:38-53 | the full constructor stores all seven arguments, including the legajo reference, with id 0 and not deleted |
| Entities.Empleado.Empty | src/main/java/entities/Empleado.java:55-57 | the no-argument constructor leaves every attribute and the legajo null, with id 0 and not deleted |
| Entities.Empleado.SetId | src/main/java/entities/Base.java:40-42 | the id becomes x; the flag, the attributes and the legajo are kept |
| Entities.Empleado.SetEliminado | src/main/java/entities/Base.java:48-50 | the flag becomes v; the id, the attributes and the legajo are kept |
| Entities.Empleado.SetNombre | src/main/java/entities/Empleado.java:64-66 | only `nombre` changes, to the value given |
| Entities.Empleado.SetApellido | src/main/java/entities/Empleado.java:72-74 | only `apellido` changes, to the value given |
| Entities.Empleado.SetDni | src/main/java/entities/Empleado.java:80-82 | only `dni` changes, to the value given |
| Entities.Empleado.SetEmail | src/main/java/entities/Empleado.java:88-90 | only `email` changes, to the value given |
| Entities.Empleado.SetFechaIngreso | src/main/java/entities/Empleado.java:96-98 | only `fechaIngreso` changes, to the value given |
| Entities.Empleado.SetArea | src/main/java/entities/Empleado.java:104-106 | only `area` changes, to the value given |
| Entities.Empleado.SetLegajo | src/main/java/entities/Empleado.java:112-114 | only the legajo reference changes, to the value given |
| Entities.Empleado.EliminarRegistro | src/main/java/entities/Empleado.java:117-119 | the employee is flagged with its id kept; attributes, legajo reference and the legajo's own state are untouched |
| Entities.Empleado.LegajoDescription | src/main/java/entities/Empleado.java:134-136 | the description is "No asignado" exactly when there is no legajo, and the legajo's own text otherwise |
| Dao.Lookup | src/main/java/dao/GenericDAO.java:111-119 | a read finds a row exactly when it is present and not logically deleted, and returns its columns |
| Dao.Visible | src/main/java/dao/GenericDAO.java:121-128 | the listing holds exactly the rows not logically deleted, with their columns |
| Dao.LookupAgreesWithVisible | src/main/java/dao/GenericDAO.java:111-128 | a single read and the listing agree on every id |
| Dao.SoftDeleteHides | src/main/java/dao/GenericDAO.java:84-92 | deletion keeps the row in storage with its columns; afterwards the row is read as absent and missing from the listing, and every other row reads as before |
| Dao.SoftDeleteIdempotent | src/main/java/dao/GenericDAO.java:84-92 | deleting again changes neither the table nor the listing |
| Dao.VisibleAfterDeletions | src/main/java/dao/GenericDAO.java:121-128 | after any sequence of deletions the listing is the earlier listing minus the deleted ids, and no listed row is flagged |
| Dao.InsertedReadsBack | src/main/java/dao/GenericDAO.java:28-35 | an inserted row reads back as written and joins the listing |
| Dao.InsertedKeepsRows | src/main/java/entities/Legajo.java:15-17 | with a new generated key, an insert adds exactly that key and keeps every stored row unchanged, logically deleted ones included |
| Dao.UpdatedKeepsDeletion | src/main/java/dao/GenericDAO.java:56-63 | an update keeps the ids and never brings a deleted row back |
| Dao.Dao.constructor | src/main/java/dao/GenericDAO.java:19 | a DAO starts over an empty table, and records whether it overrides the `*Tx` defaults |
| Dao.Dao.Leer | src/main/java/dao/GenericDAO.java:111-119 | `leer(id)` returns a row exactly when the listing has that id, with the same entity |
| Dao.Dao.LeerTodos | src/main/java/dao/GenericDAO.java:121-128 | `leerTodos()` holds exactly the rows not logically deleted |
| Dao.Dao.Crear | src/main/java/dao/GenericDAO.java:28-35 | the generated key is new to the table; on success a row at that key returns it, and no stored row is replaced; on a fault the table is unchanged and the fault is raised |
| Dao.Dao.CrearTx | src/main/java/dao/GenericDAO.java:37-54 | unless overridden: fails with the standard unsupported message and writes nothing; otherwise as `crear`, with a generated key new to the table; the caller's connection is never closed |
| Dao.Dao.Actualizar | src/main/java/dao/GenericDAO.java:56-63 | on success the row gets the new columns with its flag kept; on a fault nothing changes |
| Dao.Dao.ActualizarTx | src/main/java/dao/GenericDAO.java:65-82 | unless overridden: fails as unsupported and writes nothing; otherwise as `actualizar`; the connection stays open |
| Dao.Dao.Eliminar | src/main/java/dao/GenericDAO.java:84-92 | on success only the row's flag is set; on a fault nothing changes |
| Dao.Dao.EliminarTx | src/main/java/dao/GenericDAO.java:94-109 | unless overridden: fails as unsupported and writes nothing; otherwise as `eliminar`; the connection stays open |
| Transactions.TransactionManager.constructor | src/main/java/service/EmpleadoServiceImpl.java:60 | a scope wraps a freshly acquired, open connection; no transaction has started |
| Transactions.TransactionManager.StartTransaction | src/main/java/service/EmpleadoServiceImpl.java:61 | auto-commit is off and a snapshot of both tables is taken |
| Transactions.TransactionManager.Commit | src/main/java/service/EmpleadoServiceImpl.java:72 | the transaction is marked committed; the snapshot is kept |
| Transactions.TransactionManager.Close | src/main/java/service/EmpleadoServiceImpl.java:73-79 | closing a started, uncommitted scope restores both tables to the snapshot; otherwise the tables stay; the connection ends closed |
| LegajoService.ValidateLegajo | src/main/java/service/LegajoServiceImpl.java:47-82 | every rejection is an IllegalArgumentException, and a null legajo is rejected with its own message |
| LegajoService.ValidateLegajoAccepts | src/main/java/service/LegajoServiceImpl.java:50-77 | a legajo passes exactly when it exists, its number has a visible character and at most 20 characters once trimmed, its status is set, and a present category (observations) has at most 30 (255) characters |
| LegajoService.ValidateLegajoReports | src/main/java/service/LegajoServiceImpl.java:56-77 | a rejected legajo gets the message of the first rule it breaks, in the order number present, status present, number length, category length, observations length |
| LegajoService.NumeroLengthCountsTrimmed | src/main/java/service/LegajoServiceImpl.java:67-69 | padding around the number is ignored: a padded number is judged exactly as its visible core, it passes when the core is at most 20 long and the other fields are within their limits, and it fails with the length message when the core is longer |
| LegajoService.ValidateLegajoSeesTrimmed | src/main/java/service/LegajoServiceImpl.java:56-77 | two legajos whose numbers trim to the same text and whose other fields agree get the same verdict |
| LegajoService.OptionalFieldsMayBeNull | src/main/java/service/LegajoServiceImpl.java:71-77 | with a usable number and a status, a null category leaves the verdict to the observations' length alone, and null observations leave it to the category's length alone, whatever the other field holds |
| LegajoService.UpdatedLegajo | src/main/java/service/EmpleadoServiceImpl.java:100 | updating a legajo row changes its attributes only, keeping the owning employee and the deletion flag |
| LegajoService.LegajoServiceImpl.constructor | src/main/java/service/LegajoServiceImpl.java:32-37 | the service keeps the DAO it is given |
| LegajoService.LegajoServiceImpl.Insertar | src/main/java/service/LegajoServiceImpl.java:41-44 | a rejected legajo leaves the table unchanged and reports the validation error; a valid one is written by `crear` |
| LegajoService.LegajoServiceImpl.Actualizar | src/main/java/service/LegajoServiceImpl.java:84-87 | returns normally and changes nothing |
| LegajoService.LegajoServiceImpl.Eliminar | src/main/java/service/LegajoServiceImpl.java:89-92 | returns normally and changes nothing |
| LegajoService.LegajoServiceImpl.GetById | src/main/java/service/LegajoServiceImpl.java:100-106 | a non-positive id is rejected; otherwise the DAO's `leer(id)`, which finds exactly the visible row |
| LegajoService.LegajoServiceImpl.GetAll | src/main/java/service/LegajoServiceImpl.java:114-117 | exactly the rows not logically deleted |
| LegajoService.LegajoServiceImpl.InsertarTx | src/main/java/service/EmpleadoServiceImpl.java:70 | the DAO's `crearTx` of a row owned by the given employee id |
| LegajoService.LegajoServiceImpl.ActualizarTx | src/main/java/service/EmpleadoServiceImpl.java:100 | the DAO's `actualizarTx` of the legajo's own row, keeping its owner |
| LegajoService.LegajoServiceImpl.EliminarTx | src/main/java/service/EmpleadoServiceImpl.java:136 | the DAO's logical `eliminarTx` |
| EmpleadoService.ValidateEmpleado | src/main/java/service/EmpleadoServiceImpl.java:166-189 | every rejection is an IllegalArgumentException, and a null employee is rejected with its own message |
| EmpleadoService.ValidateEmpleadoAccepts | src/main/java/service/EmpleadoServiceImpl.java:166-189 | an employee passes exactly when it exists, name and surname have visible characters, the DNI is one or more ASCII digits, and an email with visible characters has the local-run '@' rest shape |
| EmpleadoService.ValidateEmpleadoReports | src/main/java/service/EmpleadoServiceImpl.java:170-188 | a rejected employee gets the message of the first rule it breaks, in the order name, surname, DNI present, DNI digits, email shape |
| EmpleadoService.PaddedDniRejected | src/main/java/service/EmpleadoServiceImpl.java:176-181 | " 123" passes the blank check but is rejected as an invalid DNI |
| EmpleadoService.BlankEmailAccepted | src/main/java/service/EmpleadoServiceImpl.java:183-188 | a null or blank email never causes a rejection |
| EmpleadoService.HandleSqlException | src/main/java/service/EmpleadoServiceImpl.java:198-216 | state "23000" with a null message throws a NullPointerException; everything else is a ServiceException caused by the SQLException; any other state, null included, gives the generic database message |
| EmpleadoService.HandleSqlExceptionClassifies | src/main/java/service/EmpleadoServiceImpl.java:200-212 | for state "23000" the first constraint name the lower-cased message mentions, in the order DNI, email, record number, decides the message, and none gives the generic uniqueness message |
| EmpleadoService.HandleSqlExceptionIgnoresCase | src/main/java/service/EmpleadoServiceImpl.java:201 | the letter case of the message never changes the message chosen |
| EmpleadoService.Caught | src/main/java/service/EmpleadoServiceImpl.java:73-80 | what a `catch` makes of a failure: an SQLException goes through `handleSqlException`, anything else becomes a ServiceException with the prefix and the original message; the cause is always the original |
| EmpleadoService.UnsupportedIsWrapped | src/main/java/service/EmpleadoServiceImpl.java:77-80 | an unsupported `*Tx` call surfaces as a ServiceException carrying the standard message behind the prefix |
| EmpleadoService.EmpleadoServiceImpl.constructor | src/main/java/service/EmpleadoServiceImpl.java:41-50 | the service keeps the employee DAO and the legajo service it is given |
| EmpleadoService.EmpleadoServiceImpl.Leer | src/main/java/service/EmpleadoServiceImpl.java:122 | finds exactly an active employee, and joins a visible legajo of theirs, or none when they have none |
| EmpleadoService.EmpleadoServiceImpl.GetById | src/main/java/service/EmpleadoServiceImpl.java:147-152 | a non-positive id is rejected; otherwise `leer(id)` unchanged: exactly an active employee, with its columns, joined to a visible legajo it owns, or to none when it owns none |
| EmpleadoService.EmpleadoServiceImpl.GetAll | src/main/java/service/EmpleadoServiceImpl.java:155-157 | exactly the employees not logically deleted |
| EmpleadoService.EmpleadoServiceImpl.GetByDni | src/main/java/service/EmpleadoServiceImpl.java:159-164 | a null or blank DNI is rejected; otherwise an active employee with exactly that DNI, joined to a visible legajo it owns (or to none when it owns none), or none when no active employee has it |
| EmpleadoService.EmpleadoServiceImpl.InsertarEnTransaccion | src/main/java/service/EmpleadoServiceImpl.java:64-70 | inside the transaction the employee row is created first and the employee takes its key; a key of 0 raises an SQLException; then the legajo row is created for that key; the first step that fails is the one returned, and on success both rows are inserted |
| EmpleadoService.ZeroKeyIsUnexpected | src/main/java/service/EmpleadoServiceImpl.java:65-67 | the zero-key SQLException has no SQL state, so the caller reports it as an unexpected database error |
| EmpleadoService.EmpleadoServiceImpl.Insertar | src/main/java/service/EmpleadoServiceImpl.java:53-81 | validation and the missing-legajo check fail before any write; the employee is created first and the legajo then for the new key; a key of 0 writes no legajo and fails; on success both rows exist, otherwise neither table changes; each failure is reported as the catch clauses translate it |
| EmpleadoService.EmpleadoServiceImpl.ActualizarEnTransaccion | src/main/java/service/EmpleadoServiceImpl.java:100-101 | the legajo row is updated before the employee row; the first failing step is returned; on success both rows carry the new columns |
| EmpleadoService.EmpleadoServiceImpl.Actualizar | src/main/java/service/EmpleadoServiceImpl.java:84-111 | the id guards, then validation, fail before any write; the legajo is updated before the employee; both updates or neither; a failing legajo step is the one reported |
| EmpleadoService.EmpleadoServiceImpl.EliminarEnTransaccion | src/main/java/service/EmpleadoServiceImpl.java:136-137 | the legajo row is logically deleted before the employee row; the first failing step is returned; on success both rows are flagged as deleted |
| EmpleadoService.EmpleadoServiceImpl.Eliminar | src/main/java/service/EmpleadoServiceImpl.java:114-144 | a non-positive id, a missing active employee and an employee without a legajo (IllegalStateException) fail before any write; otherwise the employee's legajo and then the employee are logically deleted, both or neither, every failure wrapped as ServiceException |

## Left out

- The console UI (`MenuHandler`, `AppMenu`, `MenuDisplay`) and the smoke programs (`TestConexion`, `TestCompilacion`) only read input and print.
- `DatabaseConnection`, the internals of `TransactionManager`, and the SQL text are not part of this model. A connection that cannot be acquired, and a failing commit, rollback or close, are not modelled.
- Regular expressions are not interpreted. The two patterns used are written out as character predicates.
- `JavaText.ToLowerAscii`: lower-cases only the ASCII letters, as `toLowerCase()` does under a root or English locale for ASCII text. Java's `toLowerCase()` uses the default locale and also maps letters outside ASCII: under a Turkish locale `I` becomes a dotless `ı`, so `"UQ_EMPLEADO_DNI"` no longer contains `uq_empleado_dni`, and U+0130 maps to two characters. `EmpleadoService.HandleSqlException` therefore models a root/ASCII locale; messages containing non-ASCII upper-case letters, and other default locales, are not covered.
- Strings are sequences of characters. Java's UTF-16 lengths differ only for characters outside the Basic Multilingual Plane.
- `LocalDate` is opaque; only its text is used.
- `leerTodos()` lists are modelled as maps from id to entity, so their order is not modelled.
- Reads through a DAO never fail in the model. They declare `SQLException` in Java.
- Concrete DAO bodies are not part of this model. Their answers to a write are parameters (`Creation`, `Option<Fault>`), and whether a DAO overrides the `*Tx` defaults is one flag per DAO.
- `EmpleadoServiceImpl.Leer`: which legajo is joined when several visible rows belong to one employee is left open, because the join in `EmpleadoDAO.leer` is not part of this model.
- `EmpleadoServiceImpl.GetByDni`: `buscarPorDni` is taken to match the DNI exactly among active employees, because its body is not part of this model.
- `LegajoServiceImpl.InsertarTx`, `ActualizarTx`, `EliminarTx` and `getByEstado` are called but not defined in the sources. The first three are modelled as direct delegations to the DAO's `*Tx` methods. `getByEstado` is used only by the console UI and is left out.
- `LegajoServiceImpl.EliminarTx`: setting the stored legajo's status to INACTIVO on deletion is not modelled. Only the in-memory `Legajo.eliminarRegistro` does that, and the DAO body is not visible.
- Read results are returned as values, not as freshly built `Empleado`/`Legajo` objects.
- `Entities.Empleado`'s `toString` is modelled through its last line only (the legajo description). The other lines are plain concatenations of the attributes.
- `Entities.Legajo.ToString`: only its fixed opening "Legajo [" is stated.
- The constructors' null checks on their dependencies (`EmpleadoDAO no puede ser null`, `LegajoService no puede ser null`, `LegajoDAO no puede ser null`) are excluded by non-null parameter types.
- The uniqueness constraints on DNI, email and record number are enforced by the database. The model does not enforce them; it only translates the error they raise.
- `LegajoService.LegajoServiceImpl.Insertar`: the standalone insert validates and then calls the DAO's `crear`. A row created this way has no owning employee (`empleadoId` is None).
- `Dao.Dao.Crear` and `Dao.Dao.CrearTx` take the generated key as a parameter and require it to be absent from the table, standing for the AUTO_INCREMENT primary key of each table; the service inserts pass the same requirement on. Key exhaustion and keys reused after physical deletion are not modelled.
- `Dao.Dao` keys are `int`, so Java's 64-bit `long` ids are unbounded here; no arithmetic is done on ids.
