/**
 * The second table layout of the current server (`Categoria`, `Incidencia`,
 * `Ubicacion`), the one `CategoriasController` works on, and the queries of
 * `IIncidenciaRepository`, `ICategoriaRepository` and `IUbicacionRepository`.
 * Queries are functions of a table's rows; writes are methods of `Database`.
 */
module CatalogDb {
  import opened Wrappers
  import opened Text
  import opened Tables
  import opened Sorting

  // ---------------------------------------------------------------------
  // Entities and projections

  /** `IncidenciaId`: the composite primary key of an incident. */
  datatype IncidenciaId = IncidenciaId(ubicacion: string, email: string, fecha: int)

  /** `Incidencia`; `fecha` is the creation instant, `categoria` the name
      that the foreign key points at. */
  datatype Incidencia = Incidencia(
    ubicacion: string,
    email: string,
    fecha: int,
    descripcion: string,
    estado: string,
    comentario: Option<string>,
    emailResponsable: Option<string>,
    categoria: string)

  /** `Categoria`: keyed by its name; `imprimirInforme` is the column the
      listing query projects. */
  datatype Categoria = Categoria(nombre: string, imprimirInforme: Option<bool>)

  /** `Ubicacion`: keyed by its name. */
  datatype Ubicacion = Ubicacion(nombre: string)

  /** The projections built by the listing queries. */
  datatype CategoriaDto = CategoriaDto(nombre: string, imprimirInforme: Option<bool>)
  datatype UbicacionDto = UbicacionDto(nombre: string)

  function IncidenciaIdOf(i: Incidencia): IncidenciaId { IncidenciaId(i.ubicacion, i.email, i.fecha) }
  function FechaDe(i: Incidencia): int { i.fecha }
  function CategoriaDe(i: Incidencia): string { i.categoria }
  function NombreCategoria(c: Categoria): string { c.nombre }
  function NombreUbicacion(u: Ubicacion): string { u.nombre }
  function CategoriaADto(c: Categoria): CategoriaDto { CategoriaDto(c.nombre, c.imprimirInforme) }
  function UbicacionADto(u: Ubicacion): UbicacionDto { UbicacionDto(u.nombre) }

  // ---------------------------------------------------------------------
  // IIncidenciaRepository

  /** Every incident, newest first (`ORDER BY i.fecha DESC`). */
  function IncidenciasPorFechaDesc(rows: seq<Incidencia>): (r: seq<Incidencia>)
    ensures multiset(r) == multiset(rows)
    ensures |r| == |rows|
    ensures forall i, j {:trigger r[i].fecha, r[j].fecha} :: 0 <= i < j < |r| ==> r[i].fecha >= r[j].fecha
  {
    ByIntDescPreorder(FechaDe);
    var r := SortBy(rows, ByIntDesc(FechaDe));
    SortBySorted(rows, ByIntDesc(FechaDe));
    SortedByIntDesc(r, FechaDe);
    assert |r| == |multiset(r)| == |multiset(rows)| == |rows|;
    r
  }

  /** A stretch of a newest-first listing is newest first. */
  lemma TramoOrdenado(todas: seq<Incidencia>, desde: nat, tamano: nat)
    requires forall i, j {:trigger todas[i].fecha, todas[j].fecha} :: 0 <= i < j < |todas| ==> todas[i].fecha >= todas[j].fecha
    ensures var w := Window(todas, desde, tamano);
            forall i, j {:trigger w[i].fecha, w[j].fecha} :: 0 <= i < j < |w| ==> w[i].fecha >= w[j].fecha
  {
    var w := Window(todas, desde, tamano);
    forall i, j | 0 <= i < j < |w|
      ensures w[i].fecha >= w[j].fecha
    {
      assert w[i] == todas[desde + i] && w[j] == todas[desde + j];
    }
  }

  /** `buscarIncidenciaOrdenadaFecha(PageRequest.of(pagina, tamano))`: page
      `pagina` (from 0) of `tamano` incidents of the newest-first listing,
      starting at `PageStart(pagina, tamano)`, the offset `pagina * tamano`. */
  function BuscarIncidenciaOrdenadaFecha(rows: seq<Incidencia>, pagina: nat, tamano: nat): (r: seq<Incidencia>)
    requires tamano > 0
    ensures var desde := PageStart(pagina, tamano);
      |r| == if |rows| <= desde then 0 else if |rows| - desde < tamano then |rows| - desde else tamano
    ensures multiset(r) <= multiset(rows)
    ensures forall i, j {:trigger r[i].fecha, r[j].fecha} :: 0 <= i < j < |r| ==> r[i].fecha >= r[j].fecha
    ensures forall k :: 0 <= k < |r| ==>
              PageStart(pagina, tamano) + k < |rows| && r[k] == IncidenciasPorFechaDesc(rows)[PageStart(pagina, tamano) + k]
  {
    var todas := IncidenciasPorFechaDesc(rows);
    TramoOrdenado(todas, PageStart(pagina, tamano), tamano);
    Window(todas, PageStart(pagina, tamano), tamano)
  }

  /** Where an incident on page `pagina` sits in the newest-first listing:
      at `PageStart(pagina, tamano) + i` for some `i` below `tamano`. */
  lemma PosicionEnPagina(rows: seq<Incidencia>, pagina: nat, tamano: nat, x: Incidencia) returns (i: nat)
    requires tamano > 0
    requires x in BuscarIncidenciaOrdenadaFecha(rows, pagina, tamano)
    ensures i < tamano && PageStart(pagina, tamano) + i < |rows|
    ensures IncidenciasPorFechaDesc(rows)[PageStart(pagina, tamano) + i] == x
  {
    i := PositionInWindow(IncidenciasPorFechaDesc(rows), PageStart(pagina, tamano), tamano, x);
  }

  /** Pages follow one another: every incident on a page is at least as
      recent as every incident on the next page. */
  lemma PaginasConsecutivas(rows: seq<Incidencia>, pagina: nat, tamano: nat, x: Incidencia, y: Incidencia)
    requires tamano > 0
    requires x in BuscarIncidenciaOrdenadaFecha(rows, pagina, tamano)
    requires y in BuscarIncidenciaOrdenadaFecha(rows, pagina + 1, tamano)
    ensures x.fecha >= y.fecha
  {
    var i := PosicionEnPagina(rows, pagina, tamano, x);
    var j := PosicionEnPagina(rows, pagina + 1, tamano, y);
    var todas := IncidenciasPorFechaDesc(rows);
    assert PageStart(pagina + 1, tamano) == PageStart(pagina, tamano) + tamano;
    assert todas[PageStart(pagina, tamano) + i].fecha >= todas[PageStart(pagina + 1, tamano) + j].fecha;
  }

  /** `existsByCompositeId`: `existsById` of the key built from the three
      arguments. */
  function ExistsByCompositeId(rows: seq<Incidencia>, ubicacion: string, correoDocente: string, fecha: int): (r: bool)
    ensures r <==> exists i :: i in rows && i.ubicacion == ubicacion && i.email == correoDocente && i.fecha == fecha
  {
    FindSpec(rows, IncidenciaIdOf, IncidenciaId(ubicacion, correoDocente, fecha));
    HasKey(rows, IncidenciaIdOf, IncidenciaId(ubicacion, correoDocente, fecha))
  }

  /** `EncontrarByUbicacionAndEmailAndFecha`: the incident with the three
      key fields, or `null`. */
  function EncontrarByUbicacionAndEmailAndFecha(rows: seq<Incidencia>, ubicacion: string, email: string, fecha: int): (r: Option<Incidencia>)
    ensures r.Some? ==> r.value in rows && r.value.ubicacion == ubicacion && r.value.email == email && r.value.fecha == fecha
    ensures r.None? <==> ! ExistsByCompositeId(rows, ubicacion, email, fecha)
  {
    FindSpec(rows, IncidenciaIdOf, IncidenciaId(ubicacion, email, fecha));
    Find(rows, IncidenciaIdOf, IncidenciaId(ubicacion, email, fecha))
  }

  /** With unique keys the lookup returns the stored incident itself. */
  lemma EncontrarStored(rows: seq<Incidencia>, x: Incidencia)
    requires UniqueKeys(rows, IncidenciaIdOf)
    requires x in rows
    ensures EncontrarByUbicacionAndEmailAndFecha(rows, x.ubicacion, x.email, x.fecha) == Some(x)
  {
    FindUnique(rows, IncidenciaIdOf, x);
  }

  /** `validarSiExistenIncidenciasAsociadasACategoria`: `COUNT(i) > 0` over the
      incidents of the category. */
  function ValidarSiExistenIncidenciasAsociadasACategoria(rows: seq<Incidencia>, nombreCategoria: string): (r: bool)
    ensures r <==> exists i :: i in rows && i.categoria == nombreCategoria
  {
    var asociadas := Select(rows, CategoriaDe, nombreCategoria);
    assert |asociadas| > 0 ==> asociadas[0] in asociadas;
    |asociadas| > 0
  }

  // ---------------------------------------------------------------------
  // ICategoriaRepository and IUbicacionRepository

  /** `buscarTodasLasCategorias`: one (nombre, imprimirInforme) pair per
      category, by name. */
  function BuscarTodasLasCategorias(rows: seq<Categoria>): (r: seq<CategoriaDto>)
    ensures multiset(r) == multiset(Map(CategoriaADto, rows))
    ensures forall i, j :: 0 <= i < j < |r| ==> StrLe(r[i].nombre, r[j].nombre)
  {
    ByKeyPreorder(NombreCategoria);
    var ordenadas := SortBy(rows, ByKey(NombreCategoria));
    SortBySorted(rows, ByKey(NombreCategoria));
    SortedByKey(ordenadas, NombreCategoria);
    MapPermutation(CategoriaADto, ordenadas, rows);
    Map(CategoriaADto, ordenadas)
  }

  /** `buscarTodasLasUbicaciones`: one name per location, in order. */
  function BuscarTodasLasUbicaciones(rows: seq<Ubicacion>): (r: seq<UbicacionDto>)
    ensures multiset(r) == multiset(Map(UbicacionADto, rows))
    ensures forall i, j :: 0 <= i < j < |r| ==> StrLe(r[i].nombre, r[j].nombre)
  {
    ByKeyPreorder(NombreUbicacion);
    var ordenadas := SortBy(rows, ByKey(NombreUbicacion));
    SortBySorted(rows, ByKey(NombreUbicacion));
    SortedByKey(ordenadas, NombreUbicacion);
    MapPermutation(UbicacionADto, ordenadas, rows);
    Map(UbicacionADto, ordenadas)
  }

  /** Any arrangement of the categories' pairs names exactly the stored
      categories. */
  lemma NombresListados(r: seq<CategoriaDto>, rows: seq<Categoria>, nombre: string)
    requires multiset(r) == multiset(Map(CategoriaADto, rows))
    ensures (exists d :: d in r && d.nombre == nombre) <==> HasKey(rows, NombreCategoria, nombre)
  {
    var m := Map(CategoriaADto, rows);
    FindSpec(rows, NombreCategoria, nombre);
    if HasKey(rows, NombreCategoria, nombre) {
      var k :| 0 <= k < |rows| && rows[k].nombre == nombre;
      SameMultisetSameMember(r, m, m[k]);
      assert m[k] in r && m[k].nombre == nombre;
    }
    if exists d :: d in r && d.nombre == nombre {
      var d :| d in r && d.nombre == nombre;
      SameMultisetSameMember(r, m, d);
      var k :| 0 <= k < |m| && m[k] == d;
      assert rows[k].nombre == nombre;
    }
  }

  /** A name is listed exactly when a category of that name is stored. */
  lemma CategoriaListada(rows: seq<Categoria>, nombre: string)
    ensures (exists d :: d in BuscarTodasLasCategorias(rows) && d.nombre == nombre)
            <==> HasKey(rows, NombreCategoria, nombre)
  {
    NombresListados(BuscarTodasLasCategorias(rows), rows, nombre);
  }

  // ---------------------------------------------------------------------
  // The tables

  class Database {
    var categorias: seq<Categoria>
    var incidencias: seq<Incidencia>
    var ubicaciones: seq<Ubicacion>

    /** Unique primary keys, and every incident's category exists. */
    ghost predicate Valid()
      reads this
    {
      && UniqueKeys(categorias, NombreCategoria)
      && UniqueKeys(incidencias, IncidenciaIdOf)
      && UniqueKeys(ubicaciones, NombreUbicacion)
      && (forall i :: i in incidencias ==> HasKey(categorias, NombreCategoria, i.categoria))
    }

    constructor ()
      ensures Valid()
      ensures categorias == [] && incidencias == [] && ubicaciones == []
    {
      categorias := [];
      incidencias := [];
      ubicaciones := [];
    }

    /** `ICategoriaRepository.saveAndFlush(c)`: insert, or overwrite the row
        with the same name. */
    method SaveCategoria(c: Categoria)
      requires Valid()
      modifies this
      ensures Valid()
      ensures categorias == Save(old(categorias), NombreCategoria, c)
      ensures incidencias == old(incidencias) && ubicaciones == old(ubicaciones)
    {
      FindAfterSave(categorias, NombreCategoria, c, c.nombre);
      forall i | i in incidencias
        ensures HasKey(Save(categorias, NombreCategoria, c), NombreCategoria, i.categoria)
      {
        FindSpec(categorias, NombreCategoria, i.categoria);
        FindAfterSave(categorias, NombreCategoria, c, i.categoria);
        FindSpec(Save(categorias, NombreCategoria, c), NombreCategoria, i.categoria);
      }
      categorias := Save(categorias, NombreCategoria, c);
    }

    /** `ICategoriaRepository.deleteById(n)`; the foreign key forbids it while
        an incident refers to `n`. */
    method DeleteCategoria(n: string)
      requires Valid()
      requires !ValidarSiExistenIncidenciasAsociadasACategoria(incidencias, n)
      modifies this
      ensures Valid()
      ensures categorias == Delete(old(categorias), NombreCategoria, n)
      ensures incidencias == old(incidencias) && ubicaciones == old(ubicaciones)
    {
      FindAfterDelete(categorias, NombreCategoria, n, n);
      forall i | i in incidencias
        ensures HasKey(Delete(categorias, NombreCategoria, n), NombreCategoria, i.categoria)
      {
        FindSpec(categorias, NombreCategoria, i.categoria);
        FindAfterDelete(categorias, NombreCategoria, n, i.categoria);
        FindSpec(Delete(categorias, NombreCategoria, n), NombreCategoria, i.categoria);
      }
      categorias := Delete(categorias, NombreCategoria, n);
    }
  }
}
