/**
 * The tables behind the current controllers (package `reaktor.issues_server`,
 * the `models` entities whose names end in `Entity`): incidents keyed by (location, reporting teacher,
 * instant), categories keyed by name, the responsibility assignments keyed by
 * the triple (category, name, e-mail), and locations with a generated id.
 *
 * The queries the controllers issue are functions of a table's rows; the
 * writes are methods of `Database`, which keeps the integrity rules of the
 * schema (unique keys, every incident's category exists, distinct location
 * names ignoring case) as its invariant `Valid()`.
 */
module IssuesDb {
  import opened Wrappers
  import opened Text
  import opened Tables
  import opened Sorting

  // ---------------------------------------------------------------------
  // Entities

  /** Primary key of `incidencias`. The instant is `LocalDateTime`, kept as
      an integer count of clock ticks. */
  datatype IncidenciaKey = IncidenciaKey(ubicacion: string, correoDocente: string, fechaIncidencia: int)

  /** A row of `incidencias`; `categoria` is the `nombreCategoria` the
      `@ManyToOne` join column holds. */
  datatype IncidenciaEntity = IncidenciaEntity(
    ubicacion: string,
    correoDocente: string,
    fechaIncidencia: int,
    descripcionIncidencia: string,
    estadoIncidencia: string,
    comentario: Option<string>,
    correoResponsable: Option<string>,
    categoria: string)

  /** A row of `categorias`. */
  datatype CategoriaIncidenciaEntity = CategoriaIncidenciaEntity(nombreCategoria: string)

  /** Primary key of `usuario_categoria`. */
  datatype UsuarioCategoriaKey = UsuarioCategoriaKey(nombreCategoria: string, nombreResponsable: string, correoResponsable: string)

  /** A row of `usuario_categoria`: a person responsible for a category. */
  datatype UsuarioCategoriaEntity = UsuarioCategoriaEntity(nombreCategoria: string, nombreResponsable: string, correoResponsable: string)

  /** A row of `ubicaciones`; `id` is generated by the database. */
  datatype UbicacionEntity = UbicacionEntity(id: int, nombre: string)

  function IncidenciaKeyOf(e: IncidenciaEntity): IncidenciaKey
  {
    IncidenciaKey(e.ubicacion, e.correoDocente, e.fechaIncidencia)
  }

  function CategoriaOf(e: IncidenciaEntity): string { e.categoria }

  function FechaOf(e: IncidenciaEntity): int { e.fechaIncidencia }

  function NombreCategoriaOf(c: CategoriaIncidenciaEntity): string { c.nombreCategoria }

  function UsuarioCategoriaKeyOf(u: UsuarioCategoriaEntity): UsuarioCategoriaKey
  {
    UsuarioCategoriaKey(u.nombreCategoria, u.nombreResponsable, u.correoResponsable)
  }

  function AsignacionCategoriaOf(u: UsuarioCategoriaEntity): string { u.nombreCategoria }

  function UbicacionIdOf(u: UbicacionEntity): int { u.id }

  function UbicacionNombreOf(u: UbicacionEntity): string { u.nombre }

  /** The name as an `IgnoreCase` comparison sees it. */
  function UbicacionNombreFolded(u: UbicacionEntity): string { Upper(u.nombre) }

  // ---------------------------------------------------------------------
  // Queries

  /** The lookup of an incident by its three key fields. A null field
      matches no row, since no key column is null. */
  function EncontrarByUbicacionAndCorreoDocenteAndFechaIncidencia(
    rows: seq<IncidenciaEntity>, ubicacion: Option<string>, correoDocente: Option<string>, fecha: Option<int>)
    : (r: Option<IncidenciaEntity>)
    ensures r.Some? ==> r.value in rows
    ensures r.Some? ==> Some(r.value.ubicacion) == ubicacion && Some(r.value.correoDocente) == correoDocente
                        && Some(r.value.fechaIncidencia) == fecha
    ensures r.None? <==> !(exists e :: e in rows && Some(e.ubicacion) == ubicacion
                             && Some(e.correoDocente) == correoDocente && Some(e.fechaIncidencia) == fecha)
  {
    if ubicacion.None? || correoDocente.None? || fecha.None? then None
    else
      var k := IncidenciaKey(ubicacion.value, correoDocente.value, fecha.value);
      FindSpec(rows, IncidenciaKeyOf, k);
      Find(rows, IncidenciaKeyOf, k)
  }

  /** `existsByCategoria_NombreCategoria`: some incident is in category `n`. */
  function ExistsByCategoriaNombreCategoria(rows: seq<IncidenciaEntity>, n: string): (r: bool)
    ensures r <==> exists e :: e in rows && e.categoria == n
  {
    var hits := Select(rows, CategoriaOf, n);
    assert hits != [] ==> hits[0] in hits;
    hits != []
  }

  /** `IUsuarioCategoriaRepository.findByNombreCategoria`: the assignments of
      category `n`, all of them and nothing else, in store order. */
  function FindByNombreCategoria(rows: seq<UsuarioCategoriaEntity>, n: string): (r: seq<UsuarioCategoriaEntity>)
    ensures forall u :: u in r <==> u in rows && u.nombreCategoria == n
    ensures InStoreOrder(r, rows)
    ensures r != [] ==> Find(rows, AsignacionCategoriaOf, n) == Some(r[0])
    ensures r == [] <==> forall u :: u in rows ==> u.nombreCategoria != n
  {
    SelectFirst(rows, AsignacionCategoriaOf, n);
    var r := Select(rows, AsignacionCategoriaOf, n);
    assert r != [] ==> r[0] in r;
    r
  }

  /** `findByNombreIgnoreCase`: a location whose name equals `n` ignoring case. */
  function FindByNombreIgnoreCase(rows: seq<UbicacionEntity>, n: string): (r: Option<UbicacionEntity>)
    ensures r.Some? ==> r.value in rows && EqualsIgnoreCase(r.value.nombre, n)
    ensures r.None? <==> forall u :: u in rows ==> !EqualsIgnoreCase(u.nombre, n)
  {
    FindSpec(rows, UbicacionNombreFolded, Upper(n));
    Find(rows, UbicacionNombreFolded, Upper(n))
  }

  /** `findAllByOrderByNombreAsc`: every location, by name. */
  function FindAllByOrderByNombreAsc(rows: seq<UbicacionEntity>): (r: seq<UbicacionEntity>)
    ensures multiset(r) == multiset(rows)
    ensures forall i, j :: 0 <= i < j < |r| ==> StrLe(r[i].nombre, r[j].nombre)
  {
    ByKeyPreorder(UbicacionNombreOf);
    var r := SortBy(rows, ByKey(UbicacionNombreOf));
    SortBySorted(rows, ByKey(UbicacionNombreOf));
    SortedByKey(r, UbicacionNombreOf);
    r
  }

  /** The incidents newest first, as `ORDER BY fecha DESC` delivers them. */
  function IncidenciasOrdenadasPorFecha(rows: seq<IncidenciaEntity>): (r: seq<IncidenciaEntity>)
    ensures multiset(r) == multiset(rows)
    ensures |r| == |rows|
    ensures forall i, j {:trigger r[i].fechaIncidencia, r[j].fechaIncidencia} :: 0 <= i < j < |r| ==> r[i].fechaIncidencia >= r[j].fechaIncidencia
  {
    ByIntDescPreorder(FechaOf);
    var r := SortBy(rows, ByIntDesc(FechaOf));
    SortBySorted(rows, ByIntDesc(FechaOf));
    SortedByIntDesc(r, FechaOf);
    assert |r| == |multiset(r)| == |multiset(rows)| == |rows|;
    r
  }

  /** A stretch of a newest-first listing is newest first. */
  lemma TramoOrdenado(todas: seq<IncidenciaEntity>, desde: nat, tamano: nat)
    requires forall i, j {:trigger todas[i].fechaIncidencia, todas[j].fechaIncidencia} :: 0 <= i < j < |todas| ==> todas[i].fechaIncidencia >= todas[j].fechaIncidencia
    ensures var w := Window(todas, desde, tamano);
            forall i, j {:trigger w[i].fechaIncidencia, w[j].fechaIncidencia} :: 0 <= i < j < |w| ==> w[i].fechaIncidencia >= w[j].fechaIncidencia
  {
    var w := Window(todas, desde, tamano);
    forall i, j | 0 <= i < j < |w|
      ensures w[i].fechaIncidencia >= w[j].fechaIncidencia
    {
      assert w[i] == todas[desde + i] && w[j] == todas[desde + j];
    }
  }

  /** `buscarIncidenciaOrdenadaFecha(PageRequest.of(pagina, tamano))`: the
      rows of the newest-first listing from position `PageStart(pagina, tamano)`
      on, at most `tamano` of them; that position is the offset
      `pagina * tamano` (`PageStartIsOffset`). */
  function BuscarIncidenciaOrdenadaFecha(rows: seq<IncidenciaEntity>, pagina: nat, tamano: nat): (r: seq<IncidenciaEntity>)
    requires tamano > 0
    ensures var desde := PageStart(pagina, tamano);
      |r| == if |rows| <= desde then 0 else if |rows| - desde < tamano then |rows| - desde else tamano
    ensures multiset(r) <= multiset(rows)
    ensures forall i, j {:trigger r[i].fechaIncidencia, r[j].fechaIncidencia} :: 0 <= i < j < |r| ==> r[i].fechaIncidencia >= r[j].fechaIncidencia
    ensures forall k :: 0 <= k < |r| ==>
              PageStart(pagina, tamano) + k < |rows| && r[k] == IncidenciasOrdenadasPorFecha(rows)[PageStart(pagina, tamano) + k]
  {
    var todas := IncidenciasOrdenadasPorFecha(rows);
    TramoOrdenado(todas, PageStart(pagina, tamano), tamano);
    Window(todas, PageStart(pagina, tamano), tamano)
  }

  /** A first page at least as large as the table holds every incident. */
  lemma PrimeraPaginaCompleta(rows: seq<IncidenciaEntity>, tamano: nat)
    requires 0 < tamano && |rows| <= tamano
    ensures BuscarIncidenciaOrdenadaFecha(rows, 0, tamano) == IncidenciasOrdenadasPorFecha(rows)
  {
    var r := BuscarIncidenciaOrdenadaFecha(rows, 0, tamano);
    var todas := IncidenciasOrdenadasPorFecha(rows);
    assert |r| == |todas|;
    assert forall k :: 0 <= k < |r| ==> r[k] == todas[k];
  }

  // ---------------------------------------------------------------------
  /** Appending a row with an id above every stored one keeps ids unique. */
  lemma AppendUbicacionId(rows: seq<UbicacionEntity>, next: int, nombre: string)
    requires UniqueKeys(rows, UbicacionIdOf)
    requires forall u :: u in rows ==> u.id < next
    ensures UniqueKeys(rows + [UbicacionEntity(next, nombre)], UbicacionIdOf)
  {
    var row := UbicacionEntity(next, nombre);
    assert forall x :: x in rows ==> UbicacionIdOf(x) != UbicacionIdOf(row);
    AppendKeepsUniqueKeys(rows, UbicacionIdOf, row);
  }

  /** Appending a name no stored name equals ignoring case keeps names
      unique ignoring case. */
  lemma AppendUbicacionNombre(rows: seq<UbicacionEntity>, next: int, nombre: string)
    requires UniqueKeys(rows, UbicacionNombreFolded)
    requires FindByNombreIgnoreCase(rows, nombre).None?
    ensures UniqueKeys(rows + [UbicacionEntity(next, nombre)], UbicacionNombreFolded)
  {
    var row := UbicacionEntity(next, nombre);
    assert forall x :: x in rows ==> UbicacionNombreFolded(x) != UbicacionNombreFolded(row);
    AppendKeepsUniqueKeys(rows, UbicacionNombreFolded, row);
  }

  // The tables

  class Database {
    var incidencias: seq<IncidenciaEntity>
    var categorias: seq<CategoriaIncidenciaEntity>
    var responsables: seq<UsuarioCategoriaEntity>
    var ubicaciones: seq<UbicacionEntity>
    /** The next value of the `IDENTITY` column of `ubicaciones`. */
    var nextUbicacionId: int

    /** Unique primary keys; the category of every incident and of every
        assignment exists; every location
        id was generated before; location names are trimmed and pairwise
        different ignoring case. */
    ghost predicate Valid()
      reads this
    {
      && UniqueKeys(incidencias, IncidenciaKeyOf)
      && UniqueKeys(categorias, NombreCategoriaOf)
      && UniqueKeys(responsables, UsuarioCategoriaKeyOf)
      && UniqueKeys(ubicaciones, UbicacionIdOf)
      && UniqueKeys(ubicaciones, UbicacionNombreFolded)
      && (forall e :: e in incidencias ==> HasKey(categorias, NombreCategoriaOf, e.categoria))
      && (forall u :: u in responsables ==> HasKey(categorias, NombreCategoriaOf, u.nombreCategoria))
      && 1 <= nextUbicacionId
      && (forall u :: u in ubicaciones ==> 1 <= u.id < nextUbicacionId)
      && (forall u :: u in ubicaciones ==> IsTrimmed(u.nombre))
    }

    /** Empty tables; the identity column starts at 1. */
    constructor ()
      ensures Valid()
      ensures incidencias == [] && categorias == [] && responsables == [] && ubicaciones == []
      ensures nextUbicacionId == 1
    {
      incidencias := [];
      categorias := [];
      responsables := [];
      ubicaciones := [];
      nextUbicacionId := 1;
    }

    /** `IIncidenciaRepository.saveAndFlush(e)`; the foreign key demands that
        `e`'s category exists. */
    method SaveIncidencia(e: IncidenciaEntity)
      requires Valid()
      requires HasKey(categorias, NombreCategoriaOf, e.categoria)
      modifies this
      ensures Valid()
      ensures incidencias == Save(old(incidencias), IncidenciaKeyOf, e)
      ensures categorias == old(categorias) && responsables == old(responsables)
      ensures ubicaciones == old(ubicaciones) && nextUbicacionId == old(nextUbicacionId)
    {
      FindAfterSave(incidencias, IncidenciaKeyOf, e, IncidenciaKeyOf(e));
      incidencias := Save(incidencias, IncidenciaKeyOf, e);
    }

    /** `IIncidenciaRepository.delete(e)`, which deletes by `e`'s key. */
    method DeleteIncidencia(k: IncidenciaKey)
      requires Valid()
      modifies this
      ensures Valid()
      ensures incidencias == Delete(old(incidencias), IncidenciaKeyOf, k)
      ensures categorias == old(categorias) && responsables == old(responsables)
      ensures ubicaciones == old(ubicaciones) && nextUbicacionId == old(nextUbicacionId)
    {
      FindAfterDelete(incidencias, IncidenciaKeyOf, k, k);
      incidencias := Delete(incidencias, IncidenciaKeyOf, k);
    }

    /** `ICategoriaIncidenciaRepository.save(c)` */
    method SaveCategoria(c: CategoriaIncidenciaEntity)
      requires Valid()
      modifies this
      ensures Valid()
      ensures categorias == Save(old(categorias), NombreCategoriaOf, c)
      ensures incidencias == old(incidencias) && responsables == old(responsables)
      ensures ubicaciones == old(ubicaciones) && nextUbicacionId == old(nextUbicacionId)
    {
      var before := categorias;
      FindAfterSave(before, NombreCategoriaOf, c, c.nombreCategoria);
      categorias := Save(categorias, NombreCategoriaOf, c);
      forall n | HasKey(before, NombreCategoriaOf, n)
        ensures HasKey(categorias, NombreCategoriaOf, n)
      {
        FindSpec(before, NombreCategoriaOf, n);
        FindAfterSave(before, NombreCategoriaOf, c, n);
        FindSpec(categorias, NombreCategoriaOf, n);
      }
    }

    /** `ICategoriaIncidenciaRepository.deleteById(n)`; the foreign key of
        `incidencias` demands that no incident is in category `n`. The
        `CascadeType.ALL` on the category's `responsables` removes its
        assignments with it. */
    method DeleteCategoria(n: string)
      requires Valid()
      requires !ExistsByCategoriaNombreCategoria(incidencias, n)
      modifies this
      ensures Valid()
      ensures categorias == Delete(old(categorias), NombreCategoriaOf, n)
      ensures responsables == Reject(old(responsables), AsignacionCategoriaOf, n)
      ensures forall u :: u in responsables <==> u in old(responsables) && u.nombreCategoria != n
      ensures incidencias == old(incidencias)
      ensures ubicaciones == old(ubicaciones) && nextUbicacionId == old(nextUbicacionId)
    {
      var before := categorias;
      FindAfterDelete(before, NombreCategoriaOf, n, n);
      RejectKeepsUniqueKeys(responsables, UsuarioCategoriaKeyOf, AsignacionCategoriaOf, n);
      categorias := Delete(categorias, NombreCategoriaOf, n);
      responsables := Reject(responsables, AsignacionCategoriaOf, n);
      forall m | HasKey(before, NombreCategoriaOf, m) && m != n
        ensures HasKey(categorias, NombreCategoriaOf, m)
      {
        FindSpec(before, NombreCategoriaOf, m);
        FindAfterDelete(before, NombreCategoriaOf, n, m);
        FindSpec(categorias, NombreCategoriaOf, m);
      }
    }

    /** `IUsuarioCategoriaRepository.save(u)`; the foreign key demands that
        `u`'s category exists. */
    method SaveUsuarioCategoria(u: UsuarioCategoriaEntity)
      requires Valid()
      requires HasKey(categorias, NombreCategoriaOf, u.nombreCategoria)
      modifies this
      ensures Valid()
      ensures responsables == Save(old(responsables), UsuarioCategoriaKeyOf, u)
      ensures incidencias == old(incidencias) && categorias == old(categorias)
      ensures ubicaciones == old(ubicaciones) && nextUbicacionId == old(nextUbicacionId)
    {
      FindAfterSave(responsables, UsuarioCategoriaKeyOf, u, UsuarioCategoriaKeyOf(u));
      responsables := Save(responsables, UsuarioCategoriaKeyOf, u);
    }

    /** `IUsuarioCategoriaRepository.deleteById(k)` */
    method DeleteUsuarioCategoria(k: UsuarioCategoriaKey)
      requires Valid()
      modifies this
      ensures Valid()
      ensures responsables == Delete(old(responsables), UsuarioCategoriaKeyOf, k)
      ensures incidencias == old(incidencias) && categorias == old(categorias)
      ensures ubicaciones == old(ubicaciones) && nextUbicacionId == old(nextUbicacionId)
    {
      FindAfterDelete(responsables, UsuarioCategoriaKeyOf, k, k);
      responsables := Delete(responsables, UsuarioCategoriaKeyOf, k);
    }

    /** `IUsuarioCategoriaRepository.deleteByNombreCategoria(n)`: afterwards no
        assignment of `n` is left, and every assignment of another category
        is still there, in the same order. */
    method DeleteByNombreCategoria(n: string)
      requires Valid()
      modifies this
      ensures Valid()
      ensures responsables == Reject(old(responsables), AsignacionCategoriaOf, n)
      ensures forall u :: u in responsables <==> u in old(responsables) && u.nombreCategoria != n
      ensures InStoreOrder(responsables, old(responsables))
      ensures incidencias == old(incidencias) && categorias == old(categorias)
      ensures ubicaciones == old(ubicaciones) && nextUbicacionId == old(nextUbicacionId)
    {
      RejectKeepsUniqueKeys(responsables, UsuarioCategoriaKeyOf, AsignacionCategoriaOf, n);
      responsables := Reject(responsables, AsignacionCategoriaOf, n);
    }

    /** `IUbicacionRepository.saveAndFlush` of a new entity (null id): the
        database draws the next identity value and inserts the row. The
        unique column demands a name not already stored. */
    method SaveUbicacion(nombre: string) returns (id: int)
      requires Valid()
      requires IsTrimmed(nombre)
      requires FindByNombreIgnoreCase(ubicaciones, nombre).None?
      modifies this
      ensures Valid()
      ensures id == old(nextUbicacionId) && nextUbicacionId == id + 1
      ensures ubicaciones == old(ubicaciones) + [UbicacionEntity(id, nombre)]
      ensures forall u :: u in old(ubicaciones) ==> u.id != id
      ensures incidencias == old(incidencias) && categorias == old(categorias)
      ensures responsables == old(responsables)
    {
      id := nextUbicacionId;
      var row := UbicacionEntity(id, nombre);
      AppendUbicacionId(ubicaciones, id, nombre);
      AppendUbicacionNombre(ubicaciones, id, nombre);
      assert forall u :: u in ubicaciones + [row] ==> u in ubicaciones || u == row;
      ubicaciones := ubicaciones + [row];
      nextUbicacionId := nextUbicacionId + 1;
    }
  }
}
