/**
 * `IncidenciaController` of the older revision (`/incidencias`, package
 * `ReaktorIssuesServer`): incidents are keyed by (classroom, teacher e-mail,
 * creation instant) and carry the e-mail address to notify. Creating one
 * stores it and composes the notification e-mail.
 */
module LegacyIncidenciaController {
  import opened Wrappers
  import opened Text
  import opened Constants
  import opened IssuesServerErrors
  import opened Tables
  import IncidenciaController

  /** The entity's composite key. */
  datatype IncidenciaKey = IncidenciaKey(numeroAula: string, correoDocente: string, fechaIncidencia: int)

  /** `IncidenciaEntity` of this revision. */
  datatype IncidenciaEntity = IncidenciaEntity(
    numeroAula: string,
    correoDocente: string,
    fechaIncidencia: int,
    descripcionIncidencia: string,
    correoDestinatario: string,
    estadoIncidencia: string,
    comentario: Option<string>)

  function IncidenciaKeyOf(e: IncidenciaEntity): IncidenciaKey
  {
    IncidenciaKey(e.numeroAula, e.correoDocente, e.fechaIncidencia)
  }

  /** The request bodies, with the fields the controller reads; null is None. */
  datatype CrearIncidenciaDto = CrearIncidenciaDto(
    numeroAula: Option<string>,
    correoDocente: Option<string>,
    descripcionIncidencia: Option<string>,
    correoDestinatario: Option<string>)

  datatype ModificarIncidenciaDto = ModificarIncidenciaDto(
    numeroAula: Option<string>,
    correoDocente: Option<string>,
    fechaIncidencia: Option<int>,
    estadoIncidencia: Option<string>,
    comentario: Option<string>)

  datatype IncidenciaDto = IncidenciaDto(
    numeroAula: Option<string>,
    correoDocente: Option<string>,
    fechaIncidencia: Option<int>)

  /** The `SimpleMailMessage` that `EmailService.sendEmail` builds. */
  datatype Correo = Correo(to: string, from: string, subject: string, text: string, replyTo: string)

  const REMITENTE: string := "jjurval099@g.educaand.es"

  const MSG_ESTADO_OBLIGATORIO: string := "El estado es obligatorio."
  const MSG_COMENTARIO_OBLIGATORIO: string := "El comentario de la incidencia es obligatorio."
  const MSG_DOCENTE_OBLIGATORIO: string := "El correo del docente es obligatorio."
  const MSG_DESTINATARIO_OBLIGATORIO: string := "El correo del destinatario es obligatorio."
  /** The success text, with the two stray characters it ends in. */
  const MSG_MODIFICADA: string := "Incidencia modificada con éxito\"}"

  // ---------------------------------------------------------------------
  // The notification text

  const PREFIJO_ASUNTO: string := "Nueva Incidencia en el Aula "
  const CUERPO_AULA: string := "Detalles de la Incidencia:\n\n" + "Aula: "
  const CUERPO_DESCRIPCION: string := "\n" + "Descripción: "
  const CUERPO_FECHA: string := "\n" + "Fecha: "
  const CUERPO_PIE: string := "\n\n" + "Este correo ha sido generado automáticamente."

  /** The subject: a fixed text followed by the classroom. */
  function Asunto(numeroAula: string): (s: string)
    ensures |s| == |PREFIJO_ASUNTO| + |numeroAula|
    ensures HasAt(s, 0, PREFIJO_ASUNTO) && HasAt(s, |PREFIJO_ASUNTO|, numeroAula)
  {
    PREFIJO_ASUNTO + numeroAula
  }

  /** The classroom can be read back from the subject. */
  lemma AsuntoInjective(a: string, b: string)
    requires Asunto(a) == Asunto(b)
    ensures a == b
  {
    var s := Asunto(a);
    assert a == s[|PREFIJO_ASUNTO|..] == b;
  }

  /** Where each of seven pieces sits in their concatenation. */
  lemma SietePiezas(a: string, b: string, c: string, d: string, e: string, f: string, g: string)
    ensures var s := a + b + c + d + e + f + g;
            var p1 := |a|;
            var p2 := p1 + |b|;
            var p3 := p2 + |c|;
            var p4 := p3 + |d|;
            var p5 := p4 + |e|;
            var p6 := p5 + |f|;
            && |s| == p6 + |g|
            && HasAt(s, 0, a) && HasAt(s, p1, b) && HasAt(s, p2, c) && HasAt(s, p3, d)
            && HasAt(s, p4, e) && HasAt(s, p5, f) && HasAt(s, p6, g)
  {
    var s2 := a + b;
    var s3 := s2 + c;
    var s4 := s3 + d;
    var s5 := s4 + e;
    var s6 := s5 + f;
    var s := s6 + g;
    HasAtConcat(s6, g);
    HasAtConcat(s5, f);
    HasAtWithin(s, 0, s6, |s5|, f);
    HasAtWithin(s, 0, s6, 0, s5);
    HasAtConcat(s4, e);
    HasAtWithin(s, 0, s5, |s4|, e);
    HasAtWithin(s, 0, s5, 0, s4);
    HasAtConcat(s3, d);
    HasAtWithin(s, 0, s4, |s3|, d);
    HasAtWithin(s, 0, s4, 0, s3);
    HasAtConcat(s2, c);
    HasAtWithin(s, 0, s3, |s2|, c);
    HasAtWithin(s, 0, s3, 0, s2);
    HasAtConcat(a, b);
    HasAtWithin(s, 0, s2, |a|, b);
    HasAtWithin(s, 0, s2, 0, a);
  }

  /** The body: a heading, then the lines for the classroom, the description
      and the formatted date, in that order, then the fixed footer. */
  function Cuerpo(numeroAula: string, descripcion: string, fechaFormateada: string): (c: string)
    ensures var p1 := |CUERPO_AULA|;
            var p2 := p1 + |numeroAula|;
            var p3 := p2 + |CUERPO_DESCRIPCION|;
            var p4 := p3 + |descripcion|;
            var p5 := p4 + |CUERPO_FECHA|;
            var p6 := p5 + |fechaFormateada|;
            && |c| == p6 + |CUERPO_PIE|
            && HasAt(c, 0, CUERPO_AULA) && HasAt(c, p1, numeroAula)
            && HasAt(c, p2, CUERPO_DESCRIPCION) && HasAt(c, p3, descripcion)
            && HasAt(c, p4, CUERPO_FECHA) && HasAt(c, p5, fechaFormateada)
            && HasAt(c, p6, CUERPO_PIE)
  {
    SietePiezas(CUERPO_AULA, numeroAula, CUERPO_DESCRIPCION, descripcion, CUERPO_FECHA, fechaFormateada, CUERPO_PIE);
    CUERPO_AULA + numeroAula + CUERPO_DESCRIPCION + descripcion + CUERPO_FECHA + fechaFormateada + CUERPO_PIE
  }

  /** The notice for incident `e`: to the addressee, answerable to the
      teacher, and naming the same classroom in subject and body. */
  lemma AvisoNombraAula(e: IncidenciaEntity, fechaFormateada: string)
    ensures var c := Correo(e.correoDestinatario, REMITENTE, Asunto(e.numeroAula),
                            Cuerpo(e.numeroAula, e.descripcionIncidencia, fechaFormateada), e.correoDocente);
            && c.subject[|PREFIJO_ASUNTO|..] == e.numeroAula
            && c.text[|CUERPO_AULA|..|CUERPO_AULA| + |e.numeroAula|] == e.numeroAula
  {
    var s := Asunto(e.numeroAula);
    assert s[|PREFIJO_ASUNTO|..] == s[|PREFIJO_ASUNTO|..|PREFIJO_ASUNTO| + |e.numeroAula|];
  }

  // ---------------------------------------------------------------------
  // The table

  /** `EncontrarByNumeroAulaAndCorreoDocenteAndFechaIncidencia`: the incident
      with the three key fields, or null; a null argument matches nothing. */
  function Encontrar(rows: seq<IncidenciaEntity>, numeroAula: Option<string>, correoDocente: Option<string>,
                     fechaIncidencia: Option<int>): (r: Option<IncidenciaEntity>)
    ensures r.Some? ==> r.value in rows && Some(r.value.numeroAula) == numeroAula
                        && Some(r.value.correoDocente) == correoDocente && Some(r.value.fechaIncidencia) == fechaIncidencia
    ensures r.None? <==> !(exists e :: e in rows && Some(e.numeroAula) == numeroAula
                                     && Some(e.correoDocente) == correoDocente && Some(e.fechaIncidencia) == fechaIncidencia)
  {
    if numeroAula.None? || correoDocente.None? || fechaIncidencia.None? then None
    else
      var k := IncidenciaKey(numeroAula.value, correoDocente.value, fechaIncidencia.value);
      FindSpec(rows, IncidenciaKeyOf, k);
      Find(rows, IncidenciaKeyOf, k)
  }

  class Database {
    var incidencias: seq<IncidenciaEntity>

    ghost predicate Valid()
      reads this
    {
      UniqueKeys(incidencias, IncidenciaKeyOf)
    }

    constructor ()
      ensures Valid() && incidencias == []
    {
      incidencias := [];
    }

    /** `saveAndFlush(e)`: insert, or overwrite the row with `e`'s key. */
    method SaveIncidencia(e: IncidenciaEntity)
      requires Valid()
      modifies this
      ensures Valid()
      ensures incidencias == Save(old(incidencias), IncidenciaKeyOf, e)
    {
      FindAfterSave(incidencias, IncidenciaKeyOf, e, IncidenciaKeyOf(e));
      incidencias := Save(incidencias, IncidenciaKeyOf, e);
    }

    /** `delete(e)`: remove the row with `e`'s key. */
    method DeleteIncidencia(k: IncidenciaKey)
      requires Valid()
      modifies this
      ensures Valid()
      ensures incidencias == Delete(old(incidencias), IncidenciaKeyOf, k)
    {
      FindAfterDelete(incidencias, IncidenciaKeyOf, k, k);
      incidencias := Delete(incidencias, IncidenciaKeyOf, k);
    }
  }

  // ---------------------------------------------------------------------
  // Endpoints

  /** `PUT /incidencias/modificar_incidencia`: state and comment are both
      required (not blank) and both replaced; any state text is accepted. */
  method ModificarIncidencia(db: Database, dto: ModificarIncidenciaDto) returns (r: Reply<string>)
    requires db.Valid()
    modifies db
    ensures db.Valid()
    ensures NullOrBlank(dto.estadoIncidencia) ==>
              r == Fail(BAD_REQUEST, ErrorBody(4, MSG_ESTADO_OBLIGATORIO, None)) && unchanged(db)
    ensures !NullOrBlank(dto.estadoIncidencia) && NullOrBlank(dto.comentario) ==>
              r == Fail(BAD_REQUEST, ErrorBody(5, MSG_COMENTARIO_OBLIGATORIO, None)) && unchanged(db)
    ensures !NullOrBlank(dto.estadoIncidencia) && !NullOrBlank(dto.comentario) ==>
      var found := Encontrar(old(db.incidencias), dto.numeroAula, dto.correoDocente, dto.fechaIncidencia);
      && (found.None? ==> r == Fail(BAD_REQUEST, ErrorBody(6, IncidenciaController.MSG_NO_EXISTE, None)) && unchanged(db))
      && (found.Some? ==>
            var nueva := found.value.(estadoIncidencia := dto.estadoIncidencia.value, comentario := dto.comentario);
            && r == Ok(OK, MSG_MODIFICADA)
            && db.incidencias == Save(old(db.incidencias), IncidenciaKeyOf, nueva)
            && |db.incidencias| == |old(db.incidencias)|
            && (forall k :: Find(db.incidencias, IncidenciaKeyOf, k) ==
                  if k == IncidenciaKeyOf(found.value) then Some(nueva) else Find(old(db.incidencias), IncidenciaKeyOf, k)))
    ensures r.Ok? <==> !NullOrBlank(dto.estadoIncidencia) && !NullOrBlank(dto.comentario)
                       && Encontrar(old(db.incidencias), dto.numeroAula, dto.correoDocente, dto.fechaIncidencia).Some?
  {
    if dto.estadoIncidencia.None? || IsBlank(dto.estadoIncidencia.value) {
      r := BadRequest(4, MSG_ESTADO_OBLIGATORIO);
      return;
    }
    if dto.comentario.None? || IsBlank(dto.comentario.value) {
      r := BadRequest(5, MSG_COMENTARIO_OBLIGATORIO);
      return;
    }
    var incidencia := Encontrar(db.incidencias, dto.numeroAula, dto.correoDocente, dto.fechaIncidencia);
    if incidencia.None? {
      r := BadRequest(6, IncidenciaController.MSG_NO_EXISTE);
      return;
    }
    var e := incidencia.value;
    e := e.(estadoIncidencia := dto.estadoIncidencia.value);
    e := e.(comentario := dto.comentario);
    ghost var before := db.incidencias;
    FindSpec(before, IncidenciaKeyOf, IncidenciaKeyOf(e));
    db.SaveIncidencia(e);
    forall k
      ensures Find(db.incidencias, IncidenciaKeyOf, k) ==
              if k == IncidenciaKeyOf(e) then Some(e) else Find(before, IncidenciaKeyOf, k)
    {
      FindAfterSave(before, IncidenciaKeyOf, e, k);
    }
    r := Ok(OK, MSG_MODIFICADA);
  }

  /** The four fields creation demands, tested with `isEmpty` only. */
  predicate Completa(dto: CrearIncidenciaDto)
  {
    && !NullOrEmpty(dto.numeroAula) && !NullOrEmpty(dto.correoDocente)
    && !NullOrEmpty(dto.descripcionIncidencia) && !NullOrEmpty(dto.correoDestinatario)
  }

  /** `POST /incidencias/crear_incidencia`. `now` is the clock's reading and
      `fechaFormateada` its `dd-MM-yyyy` rendering; the returned `Correo` is
      the message handed to the mail sender after the row is stored. */
  method CrearIncidencia(db: Database, dto: CrearIncidenciaDto, now: int, fechaFormateada: string)
    returns (r: Reply<()>, correo: Option<Correo>)
    requires db.Valid()
    modifies db
    ensures db.Valid()
    ensures NullOrEmpty(dto.numeroAula) ==>
              r == Fail(BAD_REQUEST, ErrorBody(1, IncidenciaController.MSG_AULA_OBLIGATORIA, None))
    ensures !NullOrEmpty(dto.numeroAula) && NullOrEmpty(dto.correoDocente) ==>
              r == Fail(BAD_REQUEST, ErrorBody(2, MSG_DOCENTE_OBLIGATORIO, None))
    ensures !NullOrEmpty(dto.numeroAula) && !NullOrEmpty(dto.correoDocente) && NullOrEmpty(dto.descripcionIncidencia) ==>
              r == Fail(BAD_REQUEST, ErrorBody(3, IncidenciaController.MSG_DESCRIPCION_OBLIGATORIA, None))
    ensures !NullOrEmpty(dto.numeroAula) && !NullOrEmpty(dto.correoDocente) && !NullOrEmpty(dto.descripcionIncidencia)
            && NullOrEmpty(dto.correoDestinatario) ==>
              r == Fail(BAD_REQUEST, ErrorBody(3, MSG_DESTINATARIO_OBLIGATORIO, None))
    ensures !Completa(dto) ==> correo.None? && unchanged(db)
    ensures r.Ok? <==> Completa(dto)
    ensures Completa(dto) ==>
      var e := IncidenciaEntity(dto.numeroAula.value, dto.correoDocente.value, now, dto.descripcionIncidencia.value,
                                dto.correoDestinatario.value, ESTADO_PENDIENTE, None);
      && r == Ok(OK, ())
      && db.incidencias == Save(old(db.incidencias), IncidenciaKeyOf, e)
      && Find(db.incidencias, IncidenciaKeyOf, IncidenciaKeyOf(e)) == Some(e)
      && (forall k :: k != IncidenciaKeyOf(e) ==>
            Find(db.incidencias, IncidenciaKeyOf, k) == Find(old(db.incidencias), IncidenciaKeyOf, k))
      && correo == Some(Correo(e.correoDestinatario, REMITENTE, Asunto(e.numeroAula),
                               Cuerpo(e.numeroAula, e.descripcionIncidencia, fechaFormateada), e.correoDocente))
  {
    correo := None;
    if dto.numeroAula.None? || dto.numeroAula.value == [] {
      r := BadRequest(1, IncidenciaController.MSG_AULA_OBLIGATORIA);
      return;
    }
    if dto.correoDocente.None? || dto.correoDocente.value == [] {
      r := BadRequest(2, MSG_DOCENTE_OBLIGATORIO);
      return;
    }
    if dto.descripcionIncidencia.None? || dto.descripcionIncidencia.value == [] {
      r := BadRequest(3, IncidenciaController.MSG_DESCRIPCION_OBLIGATORIA);
      return;
    }
    if dto.correoDestinatario.None? || dto.correoDestinatario.value == [] {
      r := BadRequest(3, MSG_DESTINATARIO_OBLIGATORIO);
      return;
    }
    var nueva := IncidenciaEntity(dto.numeroAula.value, dto.correoDocente.value, now,
                                  dto.descripcionIncidencia.value, dto.correoDestinatario.value,
                                  ESTADO_PENDIENTE, None);
    ghost var before := db.incidencias;
    db.SaveIncidencia(nueva);
    forall k
      ensures Find(db.incidencias, IncidenciaKeyOf, k) ==
              if k == IncidenciaKeyOf(nueva) then Some(nueva) else Find(before, IncidenciaKeyOf, k)
    {
      FindAfterSave(before, IncidenciaKeyOf, nueva, k);
    }
    var asunto := Asunto(dto.numeroAula.value);
    var cuerpo := Cuerpo(dto.numeroAula.value, dto.descripcionIncidencia.value, fechaFormateada);
    correo := Some(Correo(dto.correoDestinatario.value, REMITENTE, asunto, cuerpo, dto.correoDocente.value));
    r := Ok(OK, ());
  }

  /** `DELETE /incidencias/borrarIncidencia` */
  method BorraIncidencia(db: Database, dto: IncidenciaDto) returns (r: Reply<string>)
    requires db.Valid()
    modifies db
    ensures db.Valid()
    ensures
      var found := Encontrar(old(db.incidencias), dto.numeroAula, dto.correoDocente, dto.fechaIncidencia);
      && (found.None? ==> r == Fail(BAD_REQUEST, ErrorBody(6, IncidenciaController.MSG_NO_EXISTE, None)) && unchanged(db))
      && (found.Some? ==>
            && r == Ok(NO_CONTENT, IncidenciaController.MSG_ELIMINADA)
            && db.incidencias == Delete(old(db.incidencias), IncidenciaKeyOf, IncidenciaKeyOf(found.value))
            && |db.incidencias| == |old(db.incidencias)| - 1
            && (forall x :: x in db.incidencias <==> x in old(db.incidencias) && x != found.value))
  {
    var incidencia := Encontrar(db.incidencias, dto.numeroAula, dto.correoDocente, dto.fechaIncidencia);
    if incidencia.None? {
      r := BadRequest(6, IncidenciaController.MSG_NO_EXISTE);
      return;
    }
    var k := IncidenciaKeyOf(incidencia.value);
    ghost var before := db.incidencias;
    FindSpec(before, IncidenciaKeyOf, k);
    FindAfterDelete(before, IncidenciaKeyOf, k, k);
    db.DeleteIncidencia(k);
    forall x | x in before && IncidenciaKeyOf(x) == k
      ensures x == incidencia.value
    {
      FindUnique(before, IncidenciaKeyOf, x);
    }
    r := Ok(NO_CONTENT, IncidenciaController.MSG_ELIMINADA);
  }
}
