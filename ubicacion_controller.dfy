/**
 * `UbicacionController` (`/issues/ubicaciones`): the locations an incident
 * can be filed at. Names are stored trimmed and are unique ignoring case;
 * ids come from the database's identity column.
 */
module UbicacionController {
  import opened Wrappers
  import opened Text
  import opened Sorting
  import opened IssuesServerErrors
  import opened IssuesDb

  /** `UbicacionDTO`: request and response body. */
  datatype UbicacionDto = UbicacionDto(id: Option<int>, nombre: Option<string>)

  const MSG_NOMBRE_OBLIGATORIO: string := "El nombre de la ubicación es obligatorio."
  const MSG_YA_EXISTE: string := "Ya existe una ubicación con ese nombre."

  function ADto(u: UbicacionEntity): UbicacionDto
  {
    UbicacionDto(Some(u.id), Some(u.nombre))
  }

  /** `GET /issues/ubicaciones`: one (id, nombre) pair per stored location,
      ordered by name. */
  function ListarUbicaciones(rows: seq<UbicacionEntity>): (r: Reply<seq<UbicacionDto>>)
    ensures r.Ok? && r.status == OK
    ensures multiset(r.value) == multiset(Map(ADto, rows))
    ensures forall i :: 0 <= i < |r.value| ==> r.value[i].id.Some? && r.value[i].nombre.Some?
    ensures forall i, j :: 0 <= i < j < |r.value| ==> StrLe(r.value[i].nombre.value, r.value[j].nombre.value)
  {
    var ordenadas := FindAllByOrderByNombreAsc(rows);
    MapPermutation(ADto, ordenadas, rows);
    Ok(OK, Map(ADto, ordenadas))
  }

  /** `POST /issues/ubicaciones` */
  method CrearUbicacion(db: Database, dto: UbicacionDto) returns (r: Reply<UbicacionDto>)
    requires db.Valid()
    modifies db
    ensures db.Valid()
    ensures NullOrBlank(dto.nombre) ==>
              r == Fail(BAD_REQUEST, ErrorBody(10, MSG_NOMBRE_OBLIGATORIO, None)) && unchanged(db)
    ensures !NullOrBlank(dto.nombre) && FindByNombreIgnoreCase(old(db.ubicaciones), Trim(dto.nombre.value)).Some? ==>
              r == Fail(BAD_REQUEST, ErrorBody(11, MSG_YA_EXISTE, None)) && unchanged(db)
    ensures r.Ok? <==> !NullOrBlank(dto.nombre) && FindByNombreIgnoreCase(old(db.ubicaciones), Trim(dto.nombre.value)).None?
    ensures r.Ok? ==>
              && r == Ok(CREATED, dto.(id := Some(old(db.nextUbicacionId))))
              && db.ubicaciones == old(db.ubicaciones) + [UbicacionEntity(old(db.nextUbicacionId), Trim(dto.nombre.value))]
              && (forall u :: u in old(db.ubicaciones) ==> u.id != old(db.nextUbicacionId))
              && db.nextUbicacionId == old(db.nextUbicacionId) + 1
              && db.incidencias == old(db.incidencias) && db.categorias == old(db.categorias)
              && db.responsables == old(db.responsables)
    ensures forall i, j :: 0 <= i < j < |db.ubicaciones| ==>
              !EqualsIgnoreCase(db.ubicaciones[i].nombre, db.ubicaciones[j].nombre)
  {
    if dto.nombre.None? || IsBlank(dto.nombre.value) {
      r := BadRequest(10, MSG_NOMBRE_OBLIGATORIO);
      return;
    }
    var nombreNormalizado := Trim(dto.nombre.value);
    if FindByNombreIgnoreCase(db.ubicaciones, nombreNormalizado).Some? {
      r := BadRequest(11, MSG_YA_EXISTE);
      return;
    }
    var id := db.SaveUbicacion(nombreNormalizado);
    r := Ok(CREATED, dto.(id := Some(id)));
  }
}
