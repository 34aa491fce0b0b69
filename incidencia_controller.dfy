/**
 * `IncidenciaController` of the current revision (`/issues`): report an
 * incident, let an administrator modify its state, comment and responsible
 * person, delete it, and list the states and the incidents.
 */
module IncidenciaController {
  import opened Wrappers
  import opened Text
  import opened Constants
  import opened IssuesServerErrors
  import opened Tables
  import opened Sorting
  import opened IssuesDb

  /** The fields of the creation request that `crearIncidencia` reads. */
  datatype CrearIncidenciaDto = CrearIncidenciaDto(
    ubicacion: Option<string>,
    descripcionIncidencia: Option<string>,
    nombreCategoria: Option<string>)

  /** `ModificarIncidenciaDto`: the key of the incident and the new values;
      a null value means "leave as it is". */
  datatype ModificarIncidenciaDto = ModificarIncidenciaDto(
    ubicacion: Option<string>,
    correoDocente: Option<string>,
    fechaIncidencia: Option<int>,
    estadoIncidencia: Option<string>,
    correoResponsable: Option<string>,
    comentario: Option<string>)

  /** The key fields of the `IncidenciaDto` a deletion sends. */
  datatype IncidenciaDto = IncidenciaDto(
    ubicacion: Option<string>,
    correoDocente: Option<string>,
    fechaIncidencia: Option<int>)

  const MSG_NO_EXISTE: string := "La incidencia no existe."
  const MSG_AULA_OBLIGATORIA: string := "El número de aula es obligatorio."
  const MSG_DESCRIPCION_OBLIGATORIA: string := "La descripción de la incidencia es obligatoria."
  const MSG_CATEGORIA_OBLIGATORIA: string := "La categoría es obligatoria."
  const MSG_CATEGORIA_NO_EXISTE: string := "La categoría especificada no existe."
  const MSG_MODIFICADA: string := "Incidencia modificada con éxito"
  const MSG_ELIMINADA: string := "INFO:Incidencia eliminada con exito."

  /** The responsible person a new incident of `categoria` gets: the e-mail of
      the first stored assignment of that category, or null when it has none. */
  function ResponsablePorDefecto(responsables: seq<UsuarioCategoriaEntity>, categoria: string): (r: Option<string>)
    ensures r.None? <==> forall u :: u in responsables ==> u.nombreCategoria != categoria
    ensures r.Some? ==> exists i :: 0 <= i < |responsables| && responsables[i].nombreCategoria == categoria
                          && responsables[i].correoResponsable == r.value
                          && forall j :: 0 <= j < i ==> responsables[j].nombreCategoria != categoria
  {
    var lista := FindByNombreCategoria(responsables, categoria);
    if lista == [] then None
    else
      var i := IndexOf(responsables, AsignacionCategoriaOf, categoria).value;
      assert responsables[i] == lista[0];
      Some(lista[0].correoResponsable)
  }

  /** The incident after a modification: the key, the description and the
      category stay; each of state, comment and responsible is replaced when
      the request carries a value for it and kept otherwise. The state is not
      checked against the known states. */
  function Modificada(e: IncidenciaEntity, dto: ModificarIncidenciaDto): (r: IncidenciaEntity)
    ensures IncidenciaKeyOf(r) == IncidenciaKeyOf(e)
    ensures r.descripcionIncidencia == e.descripcionIncidencia && r.categoria == e.categoria
    ensures dto.estadoIncidencia.Some? ==> r.estadoIncidencia == dto.estadoIncidencia.value
    ensures dto.estadoIncidencia.None? ==> r.estadoIncidencia == e.estadoIncidencia
    ensures dto.comentario.Some? ==> r.comentario == dto.comentario
    ensures dto.comentario.None? ==> r.comentario == e.comentario
    ensures dto.correoResponsable.Some? ==> r.correoResponsable == dto.correoResponsable
    ensures dto.correoResponsable.None? ==> r.correoResponsable == e.correoResponsable
  {
    var e1 := if dto.estadoIncidencia.Some? then e.(estadoIncidencia := dto.estadoIncidencia.value) else e;
    var e2 := if dto.comentario.Some? then e1.(comentario := dto.comentario) else e1;
    if dto.correoResponsable.Some? then e2.(correoResponsable := dto.correoResponsable) else e2
  }

  /** Applying the same modification twice has the effect of applying it once. */
  lemma ModificadaIdempotent(e: IncidenciaEntity, dto: ModificarIncidenciaDto)
    ensures Modificada(Modificada(e, dto), dto) == Modificada(e, dto)
  {
  }

  /** `PUT /issues/modificar_incidencia` */
  method ModificarIncidencia(db: Database, dto: ModificarIncidenciaDto) returns (r: Reply<string>)
    requires db.Valid()
    modifies db
    ensures db.Valid()
    ensures
      var found := EncontrarByUbicacionAndCorreoDocenteAndFechaIncidencia(
                     old(db.incidencias), dto.ubicacion, dto.correoDocente, dto.fechaIncidencia);
      && (found.None? ==> r == Fail(BAD_REQUEST, ErrorBody(6, MSG_NO_EXISTE, None)) && unchanged(db))
      && (found.Some? ==>
            && r == Ok(OK, MSG_MODIFICADA)
            && db.incidencias == Save(old(db.incidencias), IncidenciaKeyOf, Modificada(found.value, dto))
            && |db.incidencias| == |old(db.incidencias)|
            && (forall k :: Find(db.incidencias, IncidenciaKeyOf, k) ==
                  if k == IncidenciaKeyOf(found.value) then Some(Modificada(found.value, dto))
                  else Find(old(db.incidencias), IncidenciaKeyOf, k))
            && db.categorias == old(db.categorias) && db.responsables == old(db.responsables)
            && db.ubicaciones == old(db.ubicaciones) && db.nextUbicacionId == old(db.nextUbicacionId))
  {
    var incidencia := EncontrarByUbicacionAndCorreoDocenteAndFechaIncidencia(
                        db.incidencias, dto.ubicacion, dto.correoDocente, dto.fechaIncidencia);
    if incidencia.None? {
      r := BadRequest(6, MSG_NO_EXISTE);
      return;
    }
    var e := incidencia.value;
    if dto.estadoIncidencia.Some? {
      e := e.(estadoIncidencia := dto.estadoIncidencia.value);
    }
    if dto.comentario.Some? {
      e := e.(comentario := dto.comentario);
    }
    if dto.correoResponsable.Some? {
      e := e.(correoResponsable := dto.correoResponsable);
    }
    assert e == Modificada(incidencia.value, dto);
    ghost var before := db.incidencias;
    FindSpec(before, IncidenciaKeyOf, IncidenciaKeyOf(e));
    FindUnique(before, IncidenciaKeyOf, incidencia.value);
    db.SaveIncidencia(e);
    forall k
      ensures Find(db.incidencias, IncidenciaKeyOf, k) ==
              if k == IncidenciaKeyOf(e) then Some(e) else Find(before, IncidenciaKeyOf, k)
    {
      FindAfterSave(before, IncidenciaKeyOf, e, k);
    }
    r := Ok(OK, MSG_MODIFICADA);
  }

  /** The request carries every field creation needs. */
  predicate Completa(dto: CrearIncidenciaDto)
  {
    !NullOrEmpty(dto.ubicacion) && !NullOrEmpty(dto.descripcionIncidencia) && !NullOrEmpty(dto.nombreCategoria)
  }

  /** `POST /issues/crear_incidencia` by the authenticated user whose e-mail is
      `email`, at instant `now`. */
  method CrearIncidencia(db: Database, email: string, dto: CrearIncidenciaDto, now: int) returns (r: Reply<()>)
    requires db.Valid()
    modifies db
    ensures db.Valid()
    ensures NullOrEmpty(dto.ubicacion) ==>
              r == Fail(BAD_REQUEST, ErrorBody(1, MSG_AULA_OBLIGATORIA, None)) && unchanged(db)
    ensures !NullOrEmpty(dto.ubicacion) && NullOrEmpty(dto.descripcionIncidencia) ==>
              r == Fail(BAD_REQUEST, ErrorBody(3, MSG_DESCRIPCION_OBLIGATORIA, None)) && unchanged(db)
    ensures !NullOrEmpty(dto.ubicacion) && !NullOrEmpty(dto.descripcionIncidencia) && NullOrEmpty(dto.nombreCategoria) ==>
              r == Fail(BAD_REQUEST, ErrorBody(4, MSG_CATEGORIA_OBLIGATORIA, None)) && unchanged(db)
    ensures Completa(dto) && !HasKey(old(db.categorias), NombreCategoriaOf, dto.nombreCategoria.value) ==>
              r == Fail(BAD_REQUEST, ErrorBody(5, MSG_CATEGORIA_NO_EXISTE, None)) && unchanged(db)
    ensures r.Ok? <==> Completa(dto) && HasKey(old(db.categorias), NombreCategoriaOf, dto.nombreCategoria.value)
    ensures r.Ok? ==>
      var e := IncidenciaEntity(dto.ubicacion.value, email, now, dto.descripcionIncidencia.value,
                                ESTADO_PENDIENTE, None,
                                ResponsablePorDefecto(old(db.responsables), dto.nombreCategoria.value),
                                dto.nombreCategoria.value);
      && r == Ok(OK, ())
      && db.incidencias == Save(old(db.incidencias), IncidenciaKeyOf, e)
      && Find(db.incidencias, IncidenciaKeyOf, IncidenciaKeyOf(e)) == Some(e)
      && (forall k :: k != IncidenciaKeyOf(e) ==>
            Find(db.incidencias, IncidenciaKeyOf, k) == Find(old(db.incidencias), IncidenciaKeyOf, k))
      && db.categorias == old(db.categorias) && db.responsables == old(db.responsables)
      && db.ubicaciones == old(db.ubicaciones) && db.nextUbicacionId == old(db.nextUbicacionId)
  {
    if dto.ubicacion.None? || dto.ubicacion.value == [] {
      r := BadRequest(1, MSG_AULA_OBLIGATORIA);
      return;
    }
    if dto.descripcionIncidencia.None? || dto.descripcionIncidencia.value == [] {
      r := BadRequest(3, MSG_DESCRIPCION_OBLIGATORIA);
      return;
    }
    if dto.nombreCategoria.None? || dto.nombreCategoria.value == [] {
      r := BadRequest(4, MSG_CATEGORIA_OBLIGATORIA);
      return;
    }
    var nombre := dto.nombreCategoria.value;
    var categoria := Find(db.categorias, NombreCategoriaOf, nombre);
    if categoria.None? {
      r := BadRequest(5, MSG_CATEGORIA_NO_EXISTE);
      return;
    }

    var responsables := FindByNombreCategoria(db.responsables, nombre);
    var correoResponsable: Option<string> := None;
    if responsables != [] {
      correoResponsable := Some(responsables[0].correoResponsable);
    }
    assert correoResponsable == ResponsablePorDefecto(db.responsables, nombre);

    var e := IncidenciaEntity(dto.ubicacion.value, email, now, dto.descripcionIncidencia.value,
                              ESTADO_PENDIENTE, None, correoResponsable, nombre);
    ghost var before := db.incidencias;
    db.SaveIncidencia(e);
    forall k
      ensures Find(db.incidencias, IncidenciaKeyOf, k) ==
              if k == IncidenciaKeyOf(e) then Some(e) else Find(before, IncidenciaKeyOf, k)
    {
      FindAfterSave(before, IncidenciaKeyOf, e, k);
    }
    r := Ok(OK, ());
  }

  /** `GET /issues/listadoEstado`: the five states, in the order they are added. */
  method ListadoEstadoIncidencias() returns (r: Reply<seq<string>>)
    ensures r == Ok(OK, [ESTADO_PENDIENTE, ESTADO_RESUELTA, ESTADO_CANCELADA, ESTADO_DUPLICADA, ESTADO_EN_PROGRESO])
    ensures forall i, j :: 0 <= i < j < |r.value| ==> r.value[i] != r.value[j]
  {
    var lista: seq<string> := [];
    lista := lista + [ESTADO_PENDIENTE];
    lista := lista + [ESTADO_RESUELTA];
    lista := lista + [ESTADO_CANCELADA];
    lista := lista + [ESTADO_DUPLICADA];
    lista := lista + [ESTADO_EN_PROGRESO];
    assert lista == [ESTADO_PENDIENTE, ESTADO_RESUELTA, ESTADO_CANCELADA, ESTADO_DUPLICADA, ESTADO_EN_PROGRESO];
    assert forall i, j :: 0 <= i < j < |lista| ==> lista[i][0] != lista[j][0];
    r := Ok(OK, lista);
  }

  /** `GET /issues/listarIncidenciasOrdenadas` with `PageRequest.of(pagina,
      tamano)`: the repository's page, answered as it comes. */
  method ListarIncidenciasOrdenadasPorFecha(db: Database, pagina: nat, tamano: nat) returns (r: seq<IncidenciaEntity>)
    requires tamano > 0
    ensures r == BuscarIncidenciaOrdenadaFecha(db.incidencias, pagina, tamano)
    ensures pagina == 0 && |db.incidencias| <= tamano ==> r == IncidenciasOrdenadasPorFecha(db.incidencias)
  {
    r := BuscarIncidenciaOrdenadaFecha(db.incidencias, pagina, tamano);
    if pagina == 0 && |db.incidencias| <= tamano {
      PrimeraPaginaCompleta(db.incidencias, tamano);
    }
  }

  /** `DELETE /issues/borrarIncidencia` */
  method BorraIncidencia(db: Database, dto: IncidenciaDto) returns (r: Reply<string>)
    requires db.Valid()
    modifies db
    ensures db.Valid()
    ensures
      var found := EncontrarByUbicacionAndCorreoDocenteAndFechaIncidencia(
                     old(db.incidencias), dto.ubicacion, dto.correoDocente, dto.fechaIncidencia);
      && (found.None? ==> r == Fail(BAD_REQUEST, ErrorBody(6, MSG_NO_EXISTE, None)) && unchanged(db))
      && (found.Some? ==>
            && r == Ok(NO_CONTENT, MSG_ELIMINADA)
            && db.incidencias == Delete(old(db.incidencias), IncidenciaKeyOf, IncidenciaKeyOf(found.value))
            && |db.incidencias| == |old(db.incidencias)| - 1
            && (forall x :: x in db.incidencias <==> x in old(db.incidencias) && x != found.value)
            && db.categorias == old(db.categorias) && db.responsables == old(db.responsables)
            && db.ubicaciones == old(db.ubicaciones) && db.nextUbicacionId == old(db.nextUbicacionId))
  {
    var incidencia := EncontrarByUbicacionAndCorreoDocenteAndFechaIncidencia(
                        db.incidencias, dto.ubicacion, dto.correoDocente, dto.fechaIncidencia);
    if incidencia.None? {
      r := BadRequest(6, MSG_NO_EXISTE);
      return;
    }
    var k := IncidenciaKeyOf(incidencia.value);
    ghost var before := db.incidencias;
    FindSpec(before, IncidenciaKeyOf, k);
    FindAfterDelete(before, IncidenciaKeyOf, k, k);
    db.DeleteIncidencia(k);
    forall x | x in before && IncidenciaKeyOf(x) == k
      ensures x == incidencia.value
    {
      FindUnique(before, IncidenciaKeyOf, x);
    }
    r := Ok(NO_CONTENT, MSG_ELIMINADA);
  }
}
