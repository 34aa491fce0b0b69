/**
 * `UsuarioCategoriaController` (`/issues/usuarios-categoria`): the directory of
 * people responsible for each category, keyed by the triple (category, name,
 * e-mail).
 */
module UsuarioCategoriaController {
  import opened Wrappers
  import opened Tables
  import opened IssuesDb

  /** The request and response body: one assignment. */
  datatype UsuarioCategoriaDto = UsuarioCategoriaDto(nombreCategoria: string, nombreResponsable: string, correoResponsable: string)

  function ClaveDe(dto: UsuarioCategoriaDto): UsuarioCategoriaKey
  {
    UsuarioCategoriaKey(dto.nombreCategoria, dto.nombreResponsable, dto.correoResponsable)
  }

  const PREFIJO_NO_EXISTE: string := "La categoría '"
  const SUFIJO_NO_EXISTE: string := "' no existe"

  /** The reason of the `NOT_FOUND` answer for an unknown category; it names
      the category between fixed words. */
  function MensajeCategoriaNoExiste(nombre: string): (m: string)
    ensures |m| == |PREFIJO_NO_EXISTE| + |nombre| + |SUFIJO_NO_EXISTE|
    ensures m[..|PREFIJO_NO_EXISTE|] == PREFIJO_NO_EXISTE
    ensures m[|PREFIJO_NO_EXISTE|..|PREFIJO_NO_EXISTE| + |nombre|] == nombre
    ensures m[|PREFIJO_NO_EXISTE| + |nombre|..] == SUFIJO_NO_EXISTE
  {
    PREFIJO_NO_EXISTE + nombre + SUFIJO_NO_EXISTE
  }

  /** Different categories get different texts. */
  lemma MensajeCategoriaNoExisteInjective(a: string, b: string)
    requires MensajeCategoriaNoExiste(a) == MensajeCategoriaNoExiste(b)
    ensures a == b
  {
    var m := MensajeCategoriaNoExiste(a);
    assert |a| == |b|;
    assert a == m[|PREFIJO_NO_EXISTE|..|PREFIJO_NO_EXISTE| + |a|];
  }

  /** `GET /issues/usuarios-categoria`: `findAll`, every row in store order. */
  method ListarTodos(db: Database) returns (r: seq<UsuarioCategoriaEntity>)
    ensures r == db.responsables
    ensures forall k :: HasKey(db.responsables, UsuarioCategoriaKeyOf, k) <==>
                        exists u :: u in r && UsuarioCategoriaKeyOf(u) == k
  {
    r := db.responsables;
    forall k
      ensures HasKey(db.responsables, UsuarioCategoriaKeyOf, k) <==> exists u :: u in r && UsuarioCategoriaKeyOf(u) == k
    {
      FindSpec(db.responsables, UsuarioCategoriaKeyOf, k);
    }
  }

  /** `POST /issues/usuarios-categoria`: the category must exist; the
      assignment is saved (an upsert by its triple) and the request echoed. */
  method Crear(db: Database, dto: UsuarioCategoriaDto) returns (r: Reply<UsuarioCategoriaDto>)
    requires db.Valid()
    modifies db
    ensures db.Valid()
    ensures !HasKey(old(db.categorias), NombreCategoriaOf, dto.nombreCategoria) ==>
              r == Plain(NOT_FOUND, MensajeCategoriaNoExiste(dto.nombreCategoria)) && unchanged(db)
    ensures r.Ok? <==> HasKey(old(db.categorias), NombreCategoriaOf, dto.nombreCategoria)
    ensures r.Ok? ==>
              var u := UsuarioCategoriaEntity(dto.nombreCategoria, dto.nombreResponsable, dto.correoResponsable);
              && r == Ok(OK, dto)
              && db.responsables == Save(old(db.responsables), UsuarioCategoriaKeyOf, u)
              && Find(db.responsables, UsuarioCategoriaKeyOf, ClaveDe(dto)) == Some(u)
              && (forall k :: k != ClaveDe(dto) ==>
                    Find(db.responsables, UsuarioCategoriaKeyOf, k) == Find(old(db.responsables), UsuarioCategoriaKeyOf, k))
              && db.incidencias == old(db.incidencias) && db.categorias == old(db.categorias)
              && db.ubicaciones == old(db.ubicaciones) && db.nextUbicacionId == old(db.nextUbicacionId)
  {
    var categoria := Find(db.categorias, NombreCategoriaOf, dto.nombreCategoria);
    if categoria.None? {
      r := Plain(NOT_FOUND, MensajeCategoriaNoExiste(dto.nombreCategoria));
      return;
    }
    var usuario := UsuarioCategoriaEntity(dto.nombreCategoria, dto.nombreResponsable, dto.correoResponsable);
    ghost var before := db.responsables;
    db.SaveUsuarioCategoria(usuario);
    forall k
      ensures Find(db.responsables, UsuarioCategoriaKeyOf, k) ==
              if k == ClaveDe(dto) then Some(usuario) else Find(before, UsuarioCategoriaKeyOf, k)
    {
      FindAfterSave(before, UsuarioCategoriaKeyOf, usuario, k);
    }
    r := Ok(OK, dto);
  }

  /** `DELETE /issues/usuarios-categoria`: removes the one row with the
      request's triple; other people of the same category stay. */
  method Borrar(db: Database, dto: UsuarioCategoriaDto) returns (r: Reply<()>)
    requires db.Valid()
    modifies db
    ensures db.Valid()
    ensures !HasKey(old(db.responsables), UsuarioCategoriaKeyOf, ClaveDe(dto)) ==>
              r == Plain(NOT_FOUND, "") && unchanged(db)
    ensures r.Ok? <==> HasKey(old(db.responsables), UsuarioCategoriaKeyOf, ClaveDe(dto))
    ensures r.Ok? ==>
              && r == Ok(NO_CONTENT, ())
              && db.responsables == Delete(old(db.responsables), UsuarioCategoriaKeyOf, ClaveDe(dto))
              && |db.responsables| == |old(db.responsables)| - 1
              && (forall u :: u in db.responsables <==>
                    u in old(db.responsables) && UsuarioCategoriaKeyOf(u) != ClaveDe(dto))
              && db.incidencias == old(db.incidencias) && db.categorias == old(db.categorias)
              && db.ubicaciones == old(db.ubicaciones) && db.nextUbicacionId == old(db.nextUbicacionId)
  {
    var id := ClaveDe(dto);
    if !HasKey(db.responsables, UsuarioCategoriaKeyOf, id) {
      r := Plain(NOT_FOUND, "");
      return;
    }
    FindAfterDelete(db.responsables, UsuarioCategoriaKeyOf, id, id);
    db.DeleteUsuarioCategoria(id);
    r := Ok(NO_CONTENT, ());
  }
}
