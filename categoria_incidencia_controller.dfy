/**
 * `CategoriaIncidenciaController` (`/issues/categorias`, current tables):
 * list, create and delete incident categories. Deletion answers 404 for an
 * unknown name and 409 while some incident is filed under the category.
 */
module CategoriaIncidenciaController {
  import opened Wrappers
  import opened Tables
  import opened IssuesDb

  const PREFIJO_NO_BORRABLE: string := "No se puede borrar la categoría '"
  const SUFIJO_NO_BORRABLE: string := "' porque existen incidencias asociadas."

  /** The text given when category `nombre` still has incidents; it names the
      category between fixed words. */
  function MensajeNoBorrable(nombre: string): (m: string)
    ensures |m| == |PREFIJO_NO_BORRABLE| + |nombre| + |SUFIJO_NO_BORRABLE|
    ensures m[..|PREFIJO_NO_BORRABLE|] == PREFIJO_NO_BORRABLE
    ensures m[|PREFIJO_NO_BORRABLE|..|PREFIJO_NO_BORRABLE| + |nombre|] == nombre
    ensures m[|PREFIJO_NO_BORRABLE| + |nombre|..] == SUFIJO_NO_BORRABLE
  {
    PREFIJO_NO_BORRABLE + nombre + SUFIJO_NO_BORRABLE
  }

  /** Different categories get different texts: the client can read back
      which category could not be deleted. */
  lemma MensajeNoBorrableInjective(a: string, b: string)
    requires MensajeNoBorrable(a) == MensajeNoBorrable(b)
    ensures a == b
  {
    var m := MensajeNoBorrable(a);
    assert |a| == |b|;
    assert a == m[|PREFIJO_NO_BORRABLE|..|PREFIJO_NO_BORRABLE| + |a|];
  }

  /** `GET /issues/categorias`: `findAll`, every row in store order. */
  method Listar(db: Database) returns (r: seq<CategoriaIncidenciaEntity>)
    ensures r == db.categorias
    ensures forall n :: HasKey(db.categorias, NombreCategoriaOf, n) <==> exists c :: c in r && c.nombreCategoria == n
  {
    r := db.categorias;
    forall n
      ensures HasKey(db.categorias, NombreCategoriaOf, n) <==> exists c :: c in r && c.nombreCategoria == n
    {
      FindSpec(db.categorias, NombreCategoriaOf, n);
    }
  }

  /** `POST /issues/categorias`: `save`, an insert or an overwrite of the row
      with the same name; the saved entity is returned. */
  method Crear(db: Database, categoria: CategoriaIncidenciaEntity) returns (r: CategoriaIncidenciaEntity)
    requires db.Valid()
    modifies db
    ensures db.Valid()
    ensures r == categoria
    ensures db.categorias == Save(old(db.categorias), NombreCategoriaOf, categoria)
    ensures Find(db.categorias, NombreCategoriaOf, categoria.nombreCategoria) == Some(categoria)
    ensures forall n :: n != categoria.nombreCategoria ==>
              Find(db.categorias, NombreCategoriaOf, n) == Find(old(db.categorias), NombreCategoriaOf, n)
    ensures db.incidencias == old(db.incidencias) && db.responsables == old(db.responsables)
    ensures db.ubicaciones == old(db.ubicaciones) && db.nextUbicacionId == old(db.nextUbicacionId)
  {
    ghost var before := db.categorias;
    db.SaveCategoria(categoria);
    forall n
      ensures Find(db.categorias, NombreCategoriaOf, n) ==
              if n == categoria.nombreCategoria then Some(categoria) else Find(before, NombreCategoriaOf, n)
    {
      FindAfterSave(before, NombreCategoriaOf, categoria, n);
    }
    r := categoria;
  }

  /** `DELETE /issues/categorias/{nombreCategoria}`; the delete cascades to
      the category's assignments. */
  method Borrar(db: Database, nombreCategoria: string) returns (r: Reply<()>)
    requires db.Valid()
    modifies db
    ensures db.Valid()
    ensures !HasKey(old(db.categorias), NombreCategoriaOf, nombreCategoria) ==>
              r == Plain(NOT_FOUND, "") && unchanged(db)
    ensures HasKey(old(db.categorias), NombreCategoriaOf, nombreCategoria)
            && ExistsByCategoriaNombreCategoria(old(db.incidencias), nombreCategoria) ==>
              r == Plain(CONFLICT, MensajeNoBorrable(nombreCategoria)) && unchanged(db)
    ensures r.Ok? <==> HasKey(old(db.categorias), NombreCategoriaOf, nombreCategoria)
                       && !ExistsByCategoriaNombreCategoria(old(db.incidencias), nombreCategoria)
    ensures r.Ok? ==>
              && r == Ok(NO_CONTENT, ())
              && db.categorias == Delete(old(db.categorias), NombreCategoriaOf, nombreCategoria)
              && |db.categorias| == |old(db.categorias)| - 1
              && (forall c :: c in db.categorias <==> c in old(db.categorias) && c.nombreCategoria != nombreCategoria)
              && db.responsables == Reject(old(db.responsables), AsignacionCategoriaOf, nombreCategoria)
              && (forall u :: u in db.responsables <==> u in old(db.responsables) && u.nombreCategoria != nombreCategoria)
              && db.incidencias == old(db.incidencias)
              && db.ubicaciones == old(db.ubicaciones) && db.nextUbicacionId == old(db.nextUbicacionId)
  {
    if !HasKey(db.categorias, NombreCategoriaOf, nombreCategoria) {
      r := Plain(NOT_FOUND, "");
      return;
    }
    var tieneIncidencias := ExistsByCategoriaNombreCategoria(db.incidencias, nombreCategoria);
    if tieneIncidencias {
      var msg := MensajeNoBorrable(nombreCategoria);
      r := Plain(CONFLICT, msg);
      return;
    }
    FindAfterDelete(db.categorias, NombreCategoriaOf, nombreCategoria, nombreCategoria);
    db.DeleteCategoria(nombreCategoria);
    r := Ok(NO_CONTENT, ());
  }
}
