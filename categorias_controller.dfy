/**
 * `CategoriasController` (`/issues/categorias` on the `Categoria` table):
 * list, create and delete categories; refusals are 400 answers carrying an
 * `IssuesServerError` body with codes 201 (unknown) and 202 (still used).
 */
module CategoriasController {
  import opened Wrappers
  import opened Text
  import opened Tables
  import opened Sorting
  import opened Constants
  import opened IssuesServerErrors
  import opened CatalogDb
  import CategoriaIncidenciaController

  const PREFIJO_NO_ENCONTRADA: string := "No se encontró la categoría '"
  const SUFIJO_NO_ENCONTRADA: string := "' para borrar"

  /** The message of error 201; it names the category between fixed words. */
  function MensajeNoEncontrada(nombre: string): (m: string)
    ensures |m| == |PREFIJO_NO_ENCONTRADA| + |nombre| + |SUFIJO_NO_ENCONTRADA|
    ensures m[..|PREFIJO_NO_ENCONTRADA|] == PREFIJO_NO_ENCONTRADA
    ensures m[|PREFIJO_NO_ENCONTRADA|..|PREFIJO_NO_ENCONTRADA| + |nombre|] == nombre
    ensures m[|PREFIJO_NO_ENCONTRADA| + |nombre|..] == SUFIJO_NO_ENCONTRADA
  {
    PREFIJO_NO_ENCONTRADA + nombre + SUFIJO_NO_ENCONTRADA
  }

  /** `GET`: the listing query's projection, as it comes. */
  method Listar(db: Database) returns (r: Reply<seq<CategoriaDto>>)
    ensures r.Ok? && r.status == OK
    ensures r.value == BuscarTodasLasCategorias(db.categorias)
    ensures multiset(r.value) == multiset(Map(CategoriaADto, db.categorias))
    ensures forall i, j :: 0 <= i < j < |r.value| ==> StrLe(r.value[i].nombre, r.value[j].nombre)
  {
    var categoriasDto := BuscarTodasLasCategorias(db.categorias);
    r := Ok(OK, categoriasDto);
  }

  /** `POST` with header `nombre`: a new `Categoria` holding only its name is
      saved, so an existing row of that name is overwritten (its
      `imprimirInforme` becomes null). */
  method Crear(db: Database, nombre: string) returns (r: Reply<()>)
    requires db.Valid()
    modifies db
    ensures db.Valid()
    ensures r == Ok(OK, ())
    ensures db.categorias == Save(old(db.categorias), NombreCategoria, Categoria(nombre, None))
    ensures Find(db.categorias, NombreCategoria, nombre) == Some(Categoria(nombre, None))
    ensures forall n :: n != nombre ==> Find(db.categorias, NombreCategoria, n) == Find(old(db.categorias), NombreCategoria, n)
    ensures db.incidencias == old(db.incidencias) && db.ubicaciones == old(db.ubicaciones)
  {
    var categoria := Categoria(nombre, None);
    ghost var before := db.categorias;
    db.SaveCategoria(categoria);
    forall n
      ensures Find(db.categorias, NombreCategoria, n) == if n == nombre then Some(categoria) else Find(before, NombreCategoria, n)
    {
      FindAfterSave(before, NombreCategoria, categoria, n);
    }
    r := Ok(OK, ());
  }

  /** `DELETE` with header `nombre`: the existence check comes first, then the
      check for incidents still filed under the category. */
  method Borrar(db: Database, nombre: string) returns (r: Reply<()>)
    requires db.Valid()
    modifies db
    ensures db.Valid()
    ensures !HasKey(old(db.categorias), NombreCategoria, nombre) ==>
              && r == Fail(BAD_REQUEST, ErrorBody(ERR_CATEGORIA_NO_ENCONTRADA_CODE, MensajeNoEncontrada(nombre), None))
              && unchanged(db)
    ensures HasKey(old(db.categorias), NombreCategoria, nombre)
            && ValidarSiExistenIncidenciasAsociadasACategoria(old(db.incidencias), nombre) ==>
              && r == Fail(BAD_REQUEST, ErrorBody(ERR_CATEGORIA_NO_BORRABLE_CODE,
                                                 CategoriaIncidenciaController.MensajeNoBorrable(nombre), None))
              && unchanged(db)
    ensures r.Ok? <==> HasKey(old(db.categorias), NombreCategoria, nombre)
                       && !ValidarSiExistenIncidenciasAsociadasACategoria(old(db.incidencias), nombre)
    ensures r.Ok? ==>
              && r == Ok(NO_CONTENT, ())
              && db.categorias == Delete(old(db.categorias), NombreCategoria, nombre)
              && |db.categorias| == |old(db.categorias)| - 1
              && (forall c :: c in db.categorias <==> c in old(db.categorias) && c.nombre != nombre)
              && db.incidencias == old(db.incidencias) && db.ubicaciones == old(db.ubicaciones)
  {
    if !HasKey(db.categorias, NombreCategoria, nombre) {
      r := BadRequest(ERR_CATEGORIA_NO_ENCONTRADA_CODE, MensajeNoEncontrada(nombre));
      return;
    }
    if ValidarSiExistenIncidenciasAsociadasACategoria(db.incidencias, nombre) {
      r := BadRequest(ERR_CATEGORIA_NO_BORRABLE_CODE, CategoriaIncidenciaController.MensajeNoBorrable(nombre));
      return;
    }
    FindAfterDelete(db.categorias, NombreCategoria, nombre, nombre);
    db.DeleteCategoria(nombre);
    r := Ok(NO_CONTENT, ());
  }

  /** Under the table rules a category that is not stored has no incidents,
      so the answer 202 is only ever given for a stored category. */
  lemma NoBorrableImplicaExiste(categorias: seq<Categoria>, incidencias: seq<Incidencia>, nombre: string)
    requires forall i :: i in incidencias ==> HasKey(categorias, NombreCategoria, i.categoria)
    requires ValidarSiExistenIncidenciasAsociadasACategoria(incidencias, nombre)
    ensures HasKey(categorias, NombreCategoria, nombre)
  {
    var i :| i in incidencias && i.categoria == nombre;
  }
}
