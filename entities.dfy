/**
 * The entities: the contractual status enum, the id / logical-deletion state every
 * entity shares, and the two mutable records Legajo and Empleado.
 *
 * Java's abstract superclass Base becomes the value type `Base`, embedded in each
 * entity class as its field `base`: the inherited setters are methods of each class
 * that update that embedded value in place.
 */
module Entities {
  import opened Wrappers
  import opened JavaText

  /** A calendar date, kept opaque: only its ISO-8601 text (`LocalDate.toString`) is used. */
  datatype LocalDate = LocalDate(iso: string)

  // ---------------------------------------------------------------------------
  // EstadoLegajo

  /** The contractual situation recorded in a Legajo. */
  datatype EstadoLegajo = ACTIVO | INACTIVO
  {
    /** `getDescripcion()`: the fixed text given to each constant. */
    function Descripcion(): string {
      match this
      case ACTIVO => "Empleado activo / en servicio"
      case INACTIVO => "Empleado inactivo / fuera de servicio"
    }

    predicate IsActivo() { this == ACTIVO }

    predicate IsInactivo() { this == INACTIVO }

    /** `name()`, which is also what the enum's `toString()` yields. */
    function Name(): string {
      match this
      case ACTIVO => "ACTIVO"
      case INACTIVO => "INACTIVO"
    }
  }

  /** Exactly one of `isActivo` and `isInactivo` holds, and they name the two constants. */
  lemma EstadoExactlyOne(e: EstadoLegajo)
    ensures e.IsActivo() <==> e == ACTIVO
    ensures e.IsInactivo() <==> e == INACTIVO
    ensures e.IsActivo() != e.IsInactivo()
  {
  }

  /** Different constants carry different descriptions. */
  lemma DescripcionInjective(a: EstadoLegajo, b: EstadoLegajo)
    ensures a.Descripcion() == b.Descripcion() <==> a == b
  {
    assert ACTIVO.Descripcion()[9] != INACTIVO.Descripcion()[9];
  }

  // ---------------------------------------------------------------------------
  // Base

  /** The technical id (assigned by persistence) and the logical-deletion flag. */
  datatype Base = Base(id: int, eliminado: bool)
  {
    /** `setId(x)`. */
    function SetId(x: int): (b: Base)
      ensures b.id == x && b.eliminado == eliminado
    {
      this.(id := x)
    }

    /** `setEliminado(v)`. */
    function SetEliminado(v: bool): (b: Base)
      ensures b.eliminado == v && b.id == id
    {
      this.(eliminado := v)
    }

    /** `marcarEliminado()`. */
    function MarcarEliminado(): (b: Base)
      ensures b.eliminado && b.id == id
    {
      this.(eliminado := true)
    }
  }

  /** What the protected constructor leaves: id 0, not deleted. */
  const NEW_BASE: Base := Base(0, false)

  /** Marking as deleted is idempotent and agrees with `setEliminado(true)`. */
  lemma MarcarEliminadoIdempotent(b: Base)
    ensures b.MarcarEliminado().MarcarEliminado() == b.MarcarEliminado()
    ensures b.MarcarEliminado() == b.SetEliminado(true)
  {
  }

  // ---------------------------------------------------------------------------
  // Legajo

  /** The five attributes of a Legajo besides id and deletion flag. */
  datatype LegajoFields = LegajoFields(
    numeroLegajo: JString,
    categoria: JString,
    estado: Option<EstadoLegajo>,
    fechaAlta: Option<LocalDate>,
    observaciones: JString)

  /** A Legajo's whole state: shared part and own attributes. */
  datatype LegajoState = LegajoState(base: Base, fields: LegajoFields)
  {
    /** `eliminarRegistro()`: logically deleted, and its status forced to INACTIVO. */
    function EliminarRegistro(): (s: LegajoState)
      ensures s.base.eliminado && s.base.id == base.id
      ensures s.fields.estado == Some(INACTIVO)
      ensures s.fields.numeroLegajo == fields.numeroLegajo && s.fields.categoria == fields.categoria
      ensures s.fields.fechaAlta == fields.fechaAlta && s.fields.observaciones == fields.observaciones
    {
      LegajoState(base.SetEliminado(true), fields.(estado := Some(INACTIVO)))
    }
  }

  /** Deleting a Legajo twice leaves it as deleting it once. */
  lemma EliminarRegistroIdempotent(s: LegajoState)
    ensures s.EliminarRegistro().EliminarRegistro() == s.EliminarRegistro()
  {
  }

  function RenderEstado(e: Option<EstadoLegajo>): string {
    if e.None? then "null" else e.value.Name()
  }

  function RenderDate(d: Option<LocalDate>): string {
    if d.None? then "null" else d.value.iso
  }

  class Legajo {
    var base: Base
    var numeroLegajo: JString
    var categoria: JString
    var estado: Option<EstadoLegajo>
    var fechaAlta: Option<LocalDate>
    var observaciones: JString

    function Fields(): LegajoFields
      reads this
    {
      LegajoFields(numeroLegajo, categoria, estado, fechaAlta, observaciones)
    }

    function State(): LegajoState
      reads this
    {
      LegajoState(base, Fields())
    }

    /** `getId()`. */
    function Id(): int
      reads this
    {
      base.id
    }

    /** `isEliminado()`. */
    function IsEliminado(): bool
      reads this
    {
      base.eliminado
    }

    /** The full constructor: stores the five attributes; id 0, not deleted. */
    constructor (numeroLegajo: JString, categoria: JString, estado: Option<EstadoLegajo>,
                 fechaAlta: Option<LocalDate>, observaciones: JString)
      ensures State() == LegajoState(NEW_BASE, LegajoFields(numeroLegajo, categoria, estado, fechaAlta, observaciones))
    {
      base := NEW_BASE;
      this.numeroLegajo := numeroLegajo;
      this.categoria := categoria;
      this.estado := estado;
      this.fechaAlta := fechaAlta;
      this.observaciones := observaciones;
    }

    /** The no-argument constructor: every attribute null; id 0, not deleted. */
    constructor Empty()
      ensures State() == LegajoState(NEW_BASE, LegajoFields(None, None, None, None, None))
    {
      base := NEW_BASE;
      numeroLegajo, categoria, estado, fechaAlta, observaciones := None, None, None, None, None;
    }

    method SetId(x: int)
      modifies this
      ensures Id() == x && IsEliminado() == old(IsEliminado())
      ensures Fields() == old(Fields())
    {
      base := base.SetId(x);
    }

    method SetEliminado(v: bool)
      modifies this
      ensures IsEliminado() == v && Id() == old(Id())
      ensures Fields() == old(Fields())
    {
      base := base.SetEliminado(v);
    }

    method SetNumeroLegajo(x: JString)
      modifies this
      ensures State() == old(State()).(fields := old(Fields()).(numeroLegajo := x))
    {
      numeroLegajo := x;
    }

    method SetCategoria(x: JString)
      modifies this
      ensures State() == old(State()).(fields := old(Fields()).(categoria := x))
    {
      categoria := x;
    }

    method SetEstado(x: Option<EstadoLegajo>)
      modifies this
      ensures State() == old(State()).(fields := old(Fields()).(estado := x))
    {
      estado := x;
    }

    method SetFechaAlta(x: Option<LocalDate>)
      modifies this
      ensures State() == old(State()).(fields := old(Fields()).(fechaAlta := x))
    {
      fechaAlta := x;
    }

    method SetObservaciones(x: JString)
      modifies this
      ensures State() == old(State()).(fields := old(Fields()).(observaciones := x))
    {
      observaciones := x;
    }

    /** `eliminarRegistro()`, in place. */
    method EliminarRegistro()
      modifies this
      ensures State() == old(State()).EliminarRegistro()
    {
      SetEliminado(true);
      SetEstado(Some(INACTIVO));
    }

    /** `toString()`. */
    function ToString(): (r: string)
      reads this
      ensures |r| > 8 && r[..8] == "Legajo ["
    {
      "Legajo [Número: " + Render(numeroLegajo)
      + ", Categoría: " + Render(categoria)
      + ", Estado: " + RenderEstado(estado)
      + ", Fecha Alta: " + RenderDate(fechaAlta)
      + ", Observaciones: " + Render(observaciones) + "]"
    }
  }

  // ---------------------------------------------------------------------------
  // Empleado

  /** The six attributes of an Empleado besides id, deletion flag and legajo. */
  datatype EmpleadoFields = EmpleadoFields(
    nombre: JString,
    apellido: JString,
    dni: JString,
    email: JString,
    fechaIngreso: Option<LocalDate>,
    area: JString)

  const LEGAJO_NO_ASIGNADO: string := "No asignado"

  class Empleado {
    var base: Base
    var nombre: JString
    var apellido: JString
    var dni: JString
    var email: JString
    var fechaIngreso: Option<LocalDate>
    var area: JString
    /** The one-to-one, one-directional association Empleado -> Legajo. */
    var legajo: Legajo?

    function Fields(): EmpleadoFields
      reads this
    {
      EmpleadoFields(nombre, apellido, dni, email, fechaIngreso, area)
    }

    /** `getId()`. */
    function Id(): int
      reads this
    {
      base.id
    }

    /** `isEliminado()`. */
    function IsEliminado(): bool
      reads this
    {
      base.eliminado
    }

    /** The full constructor: stores all seven arguments; id 0, not deleted. */
    constructor (nombre: JString, apellido: JString, dni: JString, email: JString,
                 fechaIngreso: Option<LocalDate>, area: JString, legajo: Legajo?)
      ensures base == NEW_BASE
      ensures Fields() == EmpleadoFields(nombre, apellido, dni, email, fechaIngreso, area)
      ensures this.legajo == legajo
    {
      base := NEW_BASE;
      this.nombre := nombre;
      this.apellido := apellido;
      this.dni := dni;
      this.email := email;
      this.fechaIngreso := fechaIngreso;
      this.area := area;
      this.legajo := legajo;
    }

    /** The no-argument constructor: every attribute and the legajo null; id 0, not deleted. */
    constructor Empty()
      ensures base == NEW_BASE && legajo == null
      ensures Fields() == EmpleadoFields(None, None, None, None, None, None)
    {
      base := NEW_BASE;
      nombre, apellido, dni, email, fechaIngreso, area := None, None, None, None, None, None;
      legajo := null;
    }

    method SetId(x: int)
      modifies this
      ensures Id() == x && IsEliminado() == old(IsEliminado())
      ensures Fields() == old(Fields()) && legajo == old(legajo)
    {
      base := base.SetId(x);
    }

    method SetEliminado(v: bool)
      modifies this
      ensures IsEliminado() == v && Id() == old(Id())
      ensures Fields() == old(Fields()) && legajo == old(legajo)
    {
      base := base.SetEliminado(v);
    }

    method SetNombre(x: JString)
      modifies this
      ensures Fields() == old(Fields()).(nombre := x)
      ensures base == old(base) && legajo == old(legajo)
    {
      nombre := x;
    }

    method SetApellido(x: JString)
      modifies this
      ensures Fields() == old(Fields()).(apellido := x)
      ensures base == old(base) && legajo == old(legajo)
    {
      apellido := x;
    }

    method SetDni(x: JString)
      modifies this
      ensures Fields() == old(Fields()).(dni := x)
      ensures base == old(base) && legajo == old(legajo)
    {
      dni := x;
    }

    method SetEmail(x: JString)
      modifies this
      ensures Fields() == old(Fields()).(email := x)
      ensures base == old(base) && legajo == old(legajo)
    {
      email := x;
    }

    method SetFechaIngreso(x: Option<LocalDate>)
      modifies this
      ensures Fields() == old(Fields()).(fechaIngreso := x)
      ensures base == old(base) && legajo == old(legajo)
    {
      fechaIngreso := x;
    }

    method SetArea(x: JString)
      modifies this
      ensures Fields() == old(Fields()).(area := x)
      ensures base == old(base) && legajo == old(legajo)
    {
      area := x;
    }

    method SetLegajo(x: Legajo?)
      modifies this
      ensures legajo == x
      ensures Fields() == old(Fields()) && base == old(base)
    {
      legajo := x;
    }

    /** `eliminarRegistro()`: only the inherited flag changes; the legajo is not touched. */
    method EliminarRegistro()
      modifies this
      ensures base == old(base).MarcarEliminado()
      ensures Fields() == old(Fields()) && legajo == old(legajo)
      ensures legajo != null ==> legajo.State() == old(legajo.State())
    {
      base := base.MarcarEliminado();
    }

    /** `buildLegajoDescription()`, the last line of `toString()`. */
    function LegajoDescription(): (r: string)
      reads this, legajo
      ensures legajo != null ==> r == legajo.ToString()
      ensures r == LEGAJO_NO_ASIGNADO <==> legajo == null
    {
      if legajo != null then
        assert legajo.ToString()[0] == 'L';
        legajo.ToString()
      else
        LEGAJO_NO_ASIGNADO
    }
  }
}
