# Reaktor Issues Server — a Dafny model of its request handlers

Reaktor Issues Server is the Spring service a school uses to track building and
equipment incidents. A teacher reports an incident for a location and a
category. An administrator then moves it through the states `PENDIENTE`,
`EN PROGRESO`, `RESUELTA`, `CANCELADA` and `DUPLICADA`, comments on it, assigns
a responsible person, or deletes it. Besides incidents, the service keeps three
registries:

- the incident categories;
- the people responsible for each category, keyed by (category, name, e-mail);
- the locations, which have a generated id and a name that is unique ignoring case.

This project models the REST controllers, the repository queries they rely on
and the error body they return. The model covers two revisions of the
incident controller, and each controller is modelled against its own tables:

- `issues_db.dfy` holds the tables of the current revision (`IncidenciaEntity`,
  `CategoriaIncidenciaEntity`, `UsuarioCategoriaEntity`, `UbicacionEntity`).
  They are used by `incidencia_controller.dfy`,
  `categoria_incidencia_controller.dfy`, `usuario_categoria_controller.dfy`
  and `ubicacion_controller.dfy`.
- `catalog_db.dfy` holds the second table layout (`Categoria`, `Incidencia`,
  `Ubicacion`) and the queries of `IIncidenciaRepository`,
  `ICategoriaRepository` and `IUbicacionRepository`. `categorias_controller.dfy`
  works on it.
- `legacy_incidencia_controller.dfy` is the older controller (package
  `ReaktorIssuesServer`), with its own incident table and the notification
  e-mail it composes.

Shared pieces:

- `tables.dfy`: repository semantics over a table kept as a sequence in store
  order.
  - `save` inserts or overwrites the row with the same primary key.
  - `deleteById` removes it.
  - A derived `findBy` filters, keeping the rows in store order. Spring gives
    no order for a query without `ORDER BY`, and the model fixes this one.
  - The table's `Valid()` keeps primary keys unique.
- `sorting.dfy`: `ORDER BY` as an insertion sort over a total preorder, the
  projections of a listing, and the window `PageRequest` selects.
- `text.dfy`: the `java.lang.String` operations the controllers use,
  written out:
  - `isEmpty` and `isBlank`, where `isBlank` follows `Character.isWhitespace`;
  - `trim`, which removes every character up to U+0020;
  - ASCII upper-case folding for the `IgnoreCase` queries;
  - the character order of `ORDER BY`;
  - the `"" + int` conversion.
- `issues_server_error.dfy`: `IssuesServerError` and the `code`/`message`/`exception`
  body it builds. A request that fails validation gets status 400 with that body.
- `wrappers.dfy`: `Option` and `Reply`. `Reply` is the model of `ResponseEntity`:
  `Ok` has a status and a value, `Fail` has a status and the error map, and
  `Plain` has a status and a text body.
- `constants.dfy`: the state names and error codes of `Constants`.

In the model a Java `null` is `None`. The clock's reading (`LocalDateTime.now()`)
is an integer parameter `now`. The old revision's `dd-MM-yyyy` rendering of it
is a string parameter.

Some behaviour of the source that the proofs make explicit:

1. The current `crearUbicacion` rejects a name that `isBlank` accepts as blank.
   It then stores the name trimmed. `isBlank` and `trim` disagree on what white
   space is. A name made of a control character such as U+0001 passes the blank
   test and is stored as the empty string (`Text.NonBlankMayTrimToEmpty`).
2. Creating a category in `CategoriasController` saves a new `Categoria` that
   holds only its name. So it overwrites an existing row with the same name and
   resets its `imprimirInforme` to null.
3. The old revision's `listadoEstadoIncidencias` adds the same five states in
   the same order as the current one. `IncidenciaController.ListadoEstadoIncidencias`
   models both.
4. The old `modificarIncidencia` answers with the text
   `Incidencia modificada con éxito"}`, trailing characters included. The model
   keeps that text.

The revisions shown do not line up perfectly. Where they differ, the model
follows what each controller's code calls:

- The current `IncidenciaController` calls
  `EncontrarByUbicacionAndCorreoDocenteAndFechaIncidencia`, and
  `CategoriaIncidenciaController` calls `existsByCategoria_NombreCategoria`.
  Neither is declared in the `IIncidenciaRepository` shown. Their meaning is
  taken from the method names, over the current tables.
- The old `IncidenciaController` calls
  `EncontrarByNumeroAulaAndCorreoDocenteAndFechaIncidencia`. Its repository is
  not part of this model, and `Encontrar` is not a Spring Data query prefix.
  `LegacyIncidenciaController.Encontrar` reads it as a lookup by the three key
  fields, a null argument matching nothing because the fields are `@Id`.
- The controllers call `getMapError()`. `IssuesServerError.java` declares only
  `getBodyErrorMessage()`, and both are modelled by the same body.
- The creation DTO the current controller reads has fields `ubicacion` and
  `nombreCategoria`; `dto/CrearIncidenciaDTO.java` declares others.
- The old `ModificarIncidenciaDto` declares `estado`, while the controller
  reads `estadoIncidencia`. The model uses the names the controllers read.
- `ICategoriaRepository`'s query projects `c.imprimirInforme`, a column that
  `models/Categoria.java` does not declare. `CatalogDb.Categoria` carries it as
  an optional flag.
- `UsuarioCategoriaController.borrar` builds a `UsuarioCategoriaId` from three
  values. `models/ids/UsuarioCategoriaId.java` declares only two fields,
  `nombreCategoria` and `emailResponsable`. The model keys an assignment by the
  triple that the entity's three `@Id` fields form.
- `UsuarioCategoriaController` reads `getCorreoResponsable()` from its DTO, but
  `dto/UsuarioCategoriaDTO.java` declares a field `emailResponsable`.
- `UbicacionController` imports `dto.UbicacionDTO` and `entity.UbicacionEntity`.
  It calls `findAllByOrderByNombreAsc` and `findByNombreIgnoreCase`. The
  `IUbicacionRepository` shown is typed on `models.Ubicacion` and declares
  neither. The model reads both queries from their derived-query names, over
  `models/UbicacionEntity.java`.
- `CategoriasController` imports `dto.CategoriaDto`, while
  `ICategoriaRepository.buscarTodasLasCategorias` returns `dtos.CategoriaDto`.
  The model has one `CategoriaDto`.
- The old `ModificarIncidenciaDto` carries its date as a `java.sql.Date`. The
  entity key it is matched against holds a `LocalDateTime`. The model gives
  both the same integer instant.

## Model

| member | source | states |
|---|---|---|
| Tables.IndexOf | src/main/java/es/iesjandula/reaktor/issues_server/rest/CategoriaIncidenciaController.java:64 | the position found is the first one whose primary key matches; none is found exactly when no row has the key |
| Tables.FindSpec | src/main/java/es/iesjandula/reaktor/issues_server/rest/UsuarioCategoriaController.java:57-63 | `findById` finds a row exactly when `existsById` holds, and what it finds is a stored row with that key |
| Tables.FindUnique | src/main/java/es/iesjandula/reaktor/issues_server/repository/IIncidenciaRepository.java:48-52 | with unique keys, looking up a stored row's key returns that very row |
| Tables.Save | src/main/java/es/iesjandula/reaktor/issues_server/rest/CategoriaIncidenciaController.java:52 | `save` keeps the row count when the key is present and adds one otherwise; the new row is stored and no row other than it and the old ones appears |
| Tables.FindAfterSave | src/main/java/es/iesjandula/reaktor/issues_server/rest/CategoriaIncidenciaController.java:52 | after `save(e)` keys stay unique, `e`'s key finds `e` and every other key finds what it found before |
| Tables.SaveIdempotent | src/main/java/es/iesjandula/reaktor/issues_server/rest/CategoriasController.java:95-105 | saving the same entity twice leaves the table as saving it once |
| Tables.Delete | src/main/java/es/iesjandula/reaktor/issues_server/rest/CategoriaIncidenciaController.java:79 | `deleteById` removes one row when the key is present and none otherwise |
| Tables.FindAfterDelete | src/main/java/es/iesjandula/reaktor/issues_server/rest/UsuarioCategoriaController.java:113 | after `deleteById(k)` keys stay unique, `k` finds nothing, other keys find what they found before, and the rows left are exactly the old rows without key `k` |
| Tables.Select | src/main/java/es/iesjandula/reaktor/issues_server/repository/IUsuarioCategoriaRepository.java:13 | a derived `findBy` returns exactly the rows with the field value, as a subsequence of the table |
| Tables.Reject | src/main/java/es/iesjandula/reaktor/issues_server/repository/IUsuarioCategoriaRepository.java:15 | a derived `deleteBy` leaves exactly the rows without the field value, in their order |
| Tables.SelectFirst | src/main/java/es/iesjandula/reaktor/issues_server/rest/IncidenciaController.java:233-239 | a derived `findBy` is empty exactly when no row matches, and otherwise starts with the first matching row |
| Tables.SelectRejectPartition | src/main/java/es/iesjandula/reaktor/issues_server/repository/IUsuarioCategoriaRepository.java:13-15 | the rows a `findBy` returns and the rows a `deleteBy` of the same value keeps make up the table, as a multiset |
| Tables.RejectKeepsUniqueKeys | src/main/java/es/iesjandula/reaktor/issues_server/repository/IUsuarioCategoriaRepository.java:15 | a `deleteBy` keeps primary keys unique |
| Sorting.SortBy | src/main/java/es/iesjandula/reaktor/issues_server/repository/ICategoriaRepository.java:22-23 | an `ORDER BY` listing holds the same rows as the table, as a multiset |
| Sorting.InsertSorted | src/main/java/es/iesjandula/reaktor/issues_server/repository/ICategoriaRepository.java:22-23 | inserting a row into an ordered listing keeps it ordered |
| Sorting.SortBySorted | src/main/java/es/iesjandula/reaktor/issues_server/repository/ICategoriaRepository.java:22-23 | an `ORDER BY` listing is ordered by the comparison |
| Sorting.SortByKeepsRows | src/main/java/es/iesjandula/reaktor/issues_server/repository/ICategoriaRepository.java:22-23 | an ordered listing has as many rows as the table and holds exactly its rows |
| Sorting.ByKeyPreorder | src/main/java/es/iesjandula/reaktor/issues_server/repository/ICategoriaRepository.java:22-23 | `ORDER BY name ASC` compares rows by a total preorder |
| Sorting.SortedByKey | src/main/java/es/iesjandula/reaktor/issues_server/repository/IUbicacionRepository.java:23-24 | a listing sorted by name has every earlier name no greater than every later one |
| Sorting.ByIntDescPreorder | src/main/java/es/iesjandula/reaktor/issues_server/repository/IIncidenciaRepository.java:33-34 | `ORDER BY fecha DESC` compares rows by a total preorder |
| Sorting.SortedByIntDesc | src/main/java/es/iesjandula/reaktor/issues_server/repository/IIncidenciaRepository.java:33-34 | a listing sorted by date descending has every earlier date no smaller than every later one |
| Sorting.Map | src/main/java/es/iesjandula/reaktor/issues_server/rest/UbicacionController.java:34-38 | a stream `map` has one result per element, the image of the element at the same position |
| Sorting.MapPermutation | src/main/java/es/iesjandula/reaktor/issues_server/rest/UbicacionController.java:34-38 | projecting two listings with the same rows gives the same projections, as a multiset |
| Sorting.PositionInWindow | src/main/java/es/iesjandula/reaktor/issues_server/repository/IIncidenciaRepository.java:33-34 | a row shown on a page is the listing's row at the page start plus a position below the page size |
| Sorting.PageStartIsOffset | src/main/java/es/iesjandula/reaktor/issues_server/repository/IIncidenciaRepository.java:33-34 | page `pagina` of `tamano` rows starts at offset `pagina * tamano` |
| Sorting.Window | src/main/java/es/iesjandula/reaktor/issues_server/repository/IIncidenciaRepository.java:33-34 | a page holds at most the page size, as many rows as are left from its start, each the listing's row at its offset |
| Text.EmptyIsStricterThanBlank | src/main/java/es/iesjandula/ReaktorIssuesServer/rest/IncidenciaController.java:231-237 | every null or empty string is null or blank |
| Text.BlankNotEmpty | src/main/java/es/iesjandula/ReaktorIssuesServer/rest/IncidenciaController.java:231-237 | some string is blank but not empty, so the old creation check lets blank fields through |
| Text.TrimStart | src/main/java/es/iesjandula/reaktor/issues_server/rest/UbicacionController.java:65 | the leading removable characters are dropped: the result is a suffix that does not start with one |
| Text.TrimEnd | src/main/java/es/iesjandula/reaktor/issues_server/rest/UbicacionController.java:65 | the trailing removable characters are dropped: the result is a prefix that does not end with one |
| Text.Trim | src/main/java/es/iesjandula/reaktor/issues_server/rest/UbicacionController.java:65 | `trim` never lengthens a string and leaves no character up to U+0020 at either end |
| Text.TrimSlice | src/main/java/es/iesjandula/reaktor/issues_server/rest/UbicacionController.java:65 | `trim` gives the stretch of the name between its leading and trailing characters up to U+0020, with only such characters removed |
| Text.TrimIdempotent | src/main/java/es/iesjandula/reaktor/issues_server/rest/UbicacionController.java:65 | trimming a trimmed name changes nothing |
| Text.IsTrimmedIffFixpoint | src/main/java/es/iesjandula/reaktor/issues_server/rest/UbicacionController.java:65-75 | a name has no removable character at its ends exactly when `trim` leaves it alone, and every trimmed name is of that shape |
| Text.NonBlankMayTrimToEmpty | src/main/java/es/iesjandula/reaktor/issues_server/rest/UbicacionController.java:58-65 | U+0001 is not blank for `isBlank` and yet trims to the empty string |
| Text.Upper | src/main/java/es/iesjandula/reaktor/issues_server/rest/UbicacionController.java:67 | folding keeps the length and folds character by character |
| Text.EqualsIgnoreCaseCharwise | src/main/java/es/iesjandula/reaktor/issues_server/rest/UbicacionController.java:67 | two names are equal ignoring case exactly when they have the same length and agree position by position after folding |
| Text.EqualsIgnoreCaseUpper | src/main/java/es/iesjandula/reaktor/issues_server/rest/UbicacionController.java:67 | every name is equal ignoring case to its upper-case form, so a location cannot be added again in other letter case |
| Text.StrLeTotal | src/main/java/es/iesjandula/reaktor/issues_server/repository/ICategoriaRepository.java:22-23 | any two names are comparable in the listing order |
| Text.StrLeTransitive | src/main/java/es/iesjandula/reaktor/issues_server/repository/ICategoriaRepository.java:22-23 | the listing order is transitive |
| Text.StrLeAntisymmetric | src/main/java/es/iesjandula/reaktor/issues_server/repository/ICategoriaRepository.java:22-23 | two names each no greater than the other are equal |
| Text.ParseNatDigits | src/main/java/es/iesjandula/reaktor/issues_server/utils/IssuesServerError.java:53 | reading back the decimal digits of a natural number gives the number |
| Text.DecimalRoundTrip | src/main/java/es/iesjandula/reaktor/issues_server/utils/IssuesServerError.java:53 | the `"" + code` text of any integer reads back as that integer |
| Text.DecimalStringInjective | src/main/java/es/iesjandula/reaktor/issues_server/utils/IssuesServerError.java:53 | different codes give different texts |
| Text.DecimalString | src/main/java/es/iesjandula/reaktor/issues_server/utils/IssuesServerError.java:53 | the decimal text of a code is never empty and starts with a minus sign exactly for a negative code |
| IssuesServerErrors.ErrorBodyShape | src/main/java/es/iesjandula/reaktor/issues_server/utils/IssuesServerError.java:49-63 | the body has keys `code` and `message`, plus `exception` exactly when there is a cause; `code` reads back as the number and `message` is the message |
| IssuesServerErrors.ErrorBodyDetermines | src/main/java/es/iesjandula/reaktor/issues_server/utils/IssuesServerError.java:49-63 | equal bodies come from the same code, message and cause |
| IssuesServerErrors.IssuesServerError.constructor | src/main/java/es/iesjandula/reaktor/issues_server/utils/IssuesServerError.java:25-30 | the error keeps its code and message and has no cause |
| IssuesServerErrors.IssuesServerError.WithCause | src/main/java/es/iesjandula/reaktor/issues_server/utils/IssuesServerError.java:38-43 | the error keeps its code, message and cause |
| IssuesServerErrors.IssuesServerError.GetBodyErrorMessage | src/main/java/es/iesjandula/reaktor/issues_server/utils/IssuesServerError.java:49-63 | the map filled entry by entry is the error body: the code reads back, the message is stored, `exception` is there exactly with a cause, and no other key appears |
| IssuesServerErrors.BadRequest | src/main/java/es/iesjandula/reaktor/issues_server/rest/UbicacionController.java:83-86 | a caught `IssuesServerError` becomes status 400 with the body of its code and message |
| IssuesDb.EncontrarByUbicacionAndCorreoDocenteAndFechaIncidencia | src/main/java/es/iesjandula/reaktor/issues_server/rest/IncidenciaController.java:133-138 | the incident found is stored and matches all three key fields; nothing is found exactly when no incident matches them, a null argument matching nothing |
| IssuesDb.ExistsByCategoriaNombreCategoria | src/main/java/es/iesjandula/reaktor/issues_server/rest/CategoriaIncidenciaController.java:69-70 | true exactly when some incident is filed under the category |
| IssuesDb.FindByNombreCategoria | src/main/java/es/iesjandula/reaktor/issues_server/repository/IUsuarioCategoriaRepository.java:13 | exactly the assignments of the category, in store order; the first is the one a key lookup by category finds; empty exactly when the category has none |
| IssuesDb.FindByNombreIgnoreCase | src/main/java/es/iesjandula/reaktor/issues_server/rest/UbicacionController.java:67 | a location found is stored and equals the name ignoring case; none is found exactly when no stored name does |
| IssuesDb.FindAllByOrderByNombreAsc | src/main/java/es/iesjandula/reaktor/issues_server/rest/UbicacionController.java:34-35 | every location once, ordered by name |
| IssuesDb.IncidenciasOrdenadasPorFecha | src/main/java/es/iesjandula/reaktor/issues_server/rest/IncidenciaController.java:309-314 | every incident once, newest first |
| IssuesDb.BuscarIncidenciaOrdenadaFecha | src/main/java/es/iesjandula/reaktor/issues_server/rest/IncidenciaController.java:309-314 | page `pagina` holds, in order, the rows of the newest-first listing at positions `PageStart(pagina, tamano)` (which is `pagina * tamano`) onwards, at most `tamano` of them and as many as are left, newest first |
| IssuesDb.TramoOrdenado | src/main/java/es/iesjandula/reaktor/issues_server/rest/IncidenciaController.java:309-314 | a stretch of a newest-first listing is newest first |
| IssuesDb.PrimeraPaginaCompleta | src/main/java/es/iesjandula/reaktor/issues_server/rest/IncidenciaController.java:309-314 | page 0 of a size at least the table's is the whole newest-first listing |
| IssuesDb.AppendUbicacionId | src/main/java/es/iesjandula/reaktor/issues_server/models/UbicacionEntity.java:14-16 | adding a row whose id is above every stored id keeps ids unique |
| IssuesDb.AppendUbicacionNombre | src/main/java/es/iesjandula/reaktor/issues_server/models/UbicacionEntity.java:18-19 | adding a name that no stored name equals ignoring case keeps names unique ignoring case |
| IssuesDb.Database.constructor | src/main/java/es/iesjandula/reaktor/issues_server/models/UbicacionEntity.java:14-16 | an empty database satisfies the table rules and its location ids start at 1 |
| IssuesDb.Database.SaveIncidencia | src/main/java/es/iesjandula/reaktor/issues_server/models/IncidenciaEntity.java:91-97 | saving an incident whose category exists upserts it and keeps the rules, including that every incident's category exists |
| IssuesDb.Database.DeleteIncidencia | src/main/java/es/iesjandula/reaktor/issues_server/rest/IncidenciaController.java:354 | deleting an incident touches only the incident table |
| IssuesDb.Database.SaveCategoria | src/main/java/es/iesjandula/reaktor/issues_server/rest/CategoriaIncidenciaController.java:52 | saving a category upserts it, and the category of every incident and assignment still exists |
| IssuesDb.Database.DeleteCategoria | src/main/java/es/iesjandula/reaktor/issues_server/models/CategoriaIncidenciaEntity.java:31 | deleting a category no incident uses removes it and, through the cascade, exactly its assignments; every incident's and assignment's category is still present |
| IssuesDb.Database.SaveUsuarioCategoria | src/main/java/es/iesjandula/reaktor/issues_server/rest/UsuarioCategoriaController.java:73 | saving an assignment of a stored category upserts it by its triple key and keeps every assignment's category present |
| IssuesDb.Database.DeleteUsuarioCategoria | src/main/java/es/iesjandula/reaktor/issues_server/rest/UsuarioCategoriaController.java:113 | deleting an assignment removes the row with that triple |
| IssuesDb.Database.DeleteByNombreCategoria | src/main/java/es/iesjandula/reaktor/issues_server/repository/IUsuarioCategoriaRepository.java:15 | exactly the other categories' assignments remain, in their order, and keys stay unique |
| IssuesDb.Database.SaveUbicacion | src/main/java/es/iesjandula/reaktor/issues_server/rest/UbicacionController.java:74-78 | the new location gets the next identity value, different from every stored id, is appended, and the rules on ids and names are kept |
| IncidenciaController.ResponsablePorDefecto | src/main/java/es/iesjandula/reaktor/issues_server/rest/IncidenciaController.java:233-239 | a new incident's responsible person is the e-mail of the first assignment of its category, and null exactly when the category has none |
| IncidenciaController.Modificada | src/main/java/es/iesjandula/reaktor/issues_server/rest/IncidenciaController.java:147-160 | a modification keeps key, description and category, and replaces each of state, comment and responsible person only when the request carries it |
| IncidenciaController.ModificadaIdempotent | src/main/java/es/iesjandula/reaktor/issues_server/rest/IncidenciaController.java:147-160 | applying the same modification twice equals applying it once |
| IncidenciaController.ModificarIncidencia | src/main/java/es/iesjandula/reaktor/issues_server/rest/IncidenciaController.java:126-170 | an unknown key gives code 6 and changes nothing; otherwise exactly that incident is replaced by its modified version, the count is kept and 200 is returned |
| IncidenciaController.CrearIncidencia | src/main/java/es/iesjandula/reaktor/issues_server/rest/IncidenciaController.java:206-264 | missing location, description or category give codes 1, 3 and 4 in that order, an unknown category code 5, all without change; otherwise the new `PENDIENTE` incident with the caller's e-mail, the clock's instant and the category's default responsible person is stored and 200 returned |
| IncidenciaController.ListadoEstadoIncidencias | src/main/java/es/iesjandula/reaktor/issues_server/rest/IncidenciaController.java:275-307 | the five states, in the order the code adds them, pairwise different |
| IncidenciaController.ListarIncidenciasOrdenadasPorFecha | src/main/java/es/iesjandula/reaktor/issues_server/rest/IncidenciaController.java:309-314 | the controller answers the repository's page unchanged; a first page as large as the table is the whole newest-first listing |
| IncidenciaController.BorraIncidencia | src/main/java/es/iesjandula/reaktor/issues_server/rest/IncidenciaController.java:333-364 | an unknown key gives code 6 and changes nothing; otherwise exactly that incident is removed and 204 returned |
| CategoriaIncidenciaController.MensajeNoBorrable | src/main/java/es/iesjandula/reaktor/issues_server/rest/CategoriaIncidenciaController.java:73-74 | the refusal text is a fixed prefix, the category name and a fixed suffix |
| CategoriaIncidenciaController.MensajeNoBorrableInjective | src/main/java/es/iesjandula/reaktor/issues_server/rest/CategoriaIncidenciaController.java:73-74 | different categories give different refusal texts |
| CategoriaIncidenciaController.Listar | src/main/java/es/iesjandula/reaktor/issues_server/rest/CategoriaIncidenciaController.java:36-43 | the listing is the table, and a name appears in it exactly when the category exists |
| CategoriaIncidenciaController.Crear | src/main/java/es/iesjandula/reaktor/issues_server/rest/CategoriaIncidenciaController.java:48-56 | the category is upserted and returned: its name now finds it, other names are unaffected, other tables unchanged |
| CategoriaIncidenciaController.Borrar | src/main/java/es/iesjandula/reaktor/issues_server/rest/CategoriaIncidenciaController.java:61-83 | an unknown name gives 404 and a name with incidents 409, both without change; otherwise exactly that category and, through the cascade, exactly its assignments are removed and 204 returned |
| UsuarioCategoriaController.MensajeCategoriaNoExiste | src/main/java/es/iesjandula/reaktor/issues_server/rest/UsuarioCategoriaController.java:60 | the reason names the category between fixed words |
| UsuarioCategoriaController.MensajeCategoriaNoExisteInjective | src/main/java/es/iesjandula/reaktor/issues_server/rest/UsuarioCategoriaController.java:60 | different categories give different reasons |
| UsuarioCategoriaController.ListarTodos | src/main/java/es/iesjandula/reaktor/issues_server/rest/UsuarioCategoriaController.java:36-43 | the listing is the table, and a triple appears in it exactly when it is stored |
| UsuarioCategoriaController.Crear | src/main/java/es/iesjandula/reaktor/issues_server/rest/UsuarioCategoriaController.java:48-84 | an unknown category gives 404 and changes nothing; otherwise the assignment is upserted, its triple finds it, other triples are unaffected and the request is echoed with 200 |
| UsuarioCategoriaController.Borrar | src/main/java/es/iesjandula/reaktor/issues_server/rest/UsuarioCategoriaController.java:89-123 | an unknown triple gives 404 and changes nothing; otherwise exactly the row of that triple goes, other assignments of the category stay, and 204 is returned |
| UbicacionController.ListarUbicaciones | src/main/java/es/iesjandula/reaktor/issues_server/rest/UbicacionController.java:30-41 | 200 with one (id, name) pair per stored location, none null, ordered by name |
| UbicacionController.CrearUbicacion | src/main/java/es/iesjandula/reaktor/issues_server/rest/UbicacionController.java:54-86 | a null or blank name gives code 10 and a name equal ignoring case to a stored one after trimming gives code 11, both without change; otherwise the trimmed name is stored under the next id, the request is echoed with that id and 201, and stored names stay pairwise different ignoring case |
| CatalogDb.IncidenciasPorFechaDesc | src/main/java/es/iesjandula/reaktor/issues_server/repository/IIncidenciaRepository.java:33 | every incident once, newest first |
| CatalogDb.BuscarIncidenciaOrdenadaFecha | src/main/java/es/iesjandula/reaktor/issues_server/repository/IIncidenciaRepository.java:33-34 | page `pagina` holds, in order, the rows of the newest-first listing at positions `PageStart(pagina, tamano)` (which is `pagina * tamano`) onwards, at most `tamano` of them and as many as are left, newest first |
| CatalogDb.TramoOrdenado | src/main/java/es/iesjandula/reaktor/issues_server/repository/IIncidenciaRepository.java:33-34 | a stretch of a newest-first listing is newest first |
| CatalogDb.PosicionEnPagina | src/main/java/es/iesjandula/reaktor/issues_server/repository/IIncidenciaRepository.java:33-34 | an incident on page `pagina` is the listing's incident at `PageStart(pagina, tamano)` plus a position below `tamano` |
| CatalogDb.PaginasConsecutivas | src/main/java/es/iesjandula/reaktor/issues_server/repository/IIncidenciaRepository.java:33-34 | every incident on a page is at least as recent as every incident on the next page |
| CatalogDb.ExistsByCompositeId | src/main/java/es/iesjandula/reaktor/issues_server/repository/IIncidenciaRepository.java:48-52 | true exactly when an incident with the three key fields is stored |
| CatalogDb.EncontrarByUbicacionAndEmailAndFecha | src/main/java/es/iesjandula/reaktor/issues_server/repository/IIncidenciaRepository.java:72-75 | the incident found is stored and matches the three fields; nothing is found exactly when `existsByCompositeId` is false |
| CatalogDb.EncontrarStored | src/main/java/es/iesjandula/reaktor/issues_server/repository/IIncidenciaRepository.java:72-75 | with unique keys the lookup by a stored incident's fields returns that incident |
| CatalogDb.ValidarSiExistenIncidenciasAsociadasACategoria | src/main/java/es/iesjandula/reaktor/issues_server/repository/IIncidenciaRepository.java:85-86 | the count is positive exactly when some incident is filed under the category |
| CatalogDb.BuscarTodasLasCategorias | src/main/java/es/iesjandula/reaktor/issues_server/repository/ICategoriaRepository.java:22-23 | one (nombre, imprimirInforme) projection per category, as a multiset, ordered by name |
| CatalogDb.NombresListados | src/main/java/es/iesjandula/reaktor/issues_server/repository/ICategoriaRepository.java:22-23 | a projection of the stored categories lists a name exactly when a category of that name is stored |
| CatalogDb.CategoriaListada | src/main/java/es/iesjandula/reaktor/issues_server/repository/ICategoriaRepository.java:22-23 | a name is listed exactly when a category of that name is stored |
| CatalogDb.BuscarTodasLasUbicaciones | src/main/java/es/iesjandula/reaktor/issues_server/repository/IUbicacionRepository.java:23-24 | one name projection per location, as a multiset, ordered by name |
| CatalogDb.Database.constructor | src/main/java/es/iesjandula/reaktor/issues_server/models/Incidencia.java:97-101 | an empty database satisfies the table rules |
| CatalogDb.Database.SaveCategoria | src/main/java/es/iesjandula/reaktor/issues_server/rest/CategoriasController.java:95-99 | saving a category upserts it and every incident's category still exists |
| CatalogDb.Database.DeleteCategoria | src/main/java/es/iesjandula/reaktor/issues_server/rest/CategoriasController.java:152 | deleting a category no incident uses keeps every incident's category present |
| CategoriasController.MensajeNoEncontrada | src/main/java/es/iesjandula/reaktor/issues_server/rest/CategoriasController.java:137 | the message of error 201 names the category between fixed words |
| CategoriasController.Listar | src/main/java/es/iesjandula/reaktor/issues_server/rest/CategoriasController.java:58-64 | 200 with the repository's projection unchanged: every category once, ordered by name |
| CategoriasController.Crear | src/main/java/es/iesjandula/reaktor/issues_server/rest/CategoriasController.java:95-105 | with no duplicate check, the name is upserted as a category with a null flag, other names are unaffected, and 200 is returned |
| CategoriasController.Borrar | src/main/java/es/iesjandula/reaktor/issues_server/rest/CategoriasController.java:135-163 | an unknown name gives 400 with code 201, then a name still used by incidents gives code 202, both without change; otherwise exactly that category is removed and 204 returned |
| CategoriasController.NoBorrableImplicaExiste | src/main/java/es/iesjandula/reaktor/issues_server/rest/CategoriasController.java:135-149 | under the foreign key a category with incidents is stored, so code 202 is never given for a missing category |
| LegacyIncidenciaController.Asunto | src/main/java/es/iesjandula/ReaktorIssuesServer/rest/IncidenciaController.java:284 | the subject is the fixed text followed by the classroom |
| LegacyIncidenciaController.AsuntoInjective | src/main/java/es/iesjandula/ReaktorIssuesServer/rest/IncidenciaController.java:284 | different classrooms give different subjects |
| LegacyIncidenciaController.SietePiezas | src/main/java/es/iesjandula/ReaktorIssuesServer/rest/IncidenciaController.java:285-291 | each of seven concatenated pieces occurs in the result at the sum of the lengths before it |
| LegacyIncidenciaController.Cuerpo | src/main/java/es/iesjandula/ReaktorIssuesServer/rest/IncidenciaController.java:285-291 | the body is the heading, the classroom line, the description line and the date line in that order, then the fixed footer |
| LegacyIncidenciaController.AvisoNombraAula | src/main/java/es/iesjandula/ReaktorIssuesServer/rest/IncidenciaController.java:284-293 | subject and body of a notice name the same classroom |
| LegacyIncidenciaController.Encontrar | src/main/java/es/iesjandula/ReaktorIssuesServer/rest/IncidenciaController.java:159 | the incident found is stored and matches classroom, teacher and date; nothing is found exactly when none matches, a null argument matching nothing |
| LegacyIncidenciaController.Database.SaveIncidencia | src/main/java/es/iesjandula/ReaktorIssuesServer/rest/IncidenciaController.java:178 | `saveAndFlush` upserts by key and keeps keys unique |
| LegacyIncidenciaController.Database.DeleteIncidencia | src/main/java/es/iesjandula/ReaktorIssuesServer/rest/IncidenciaController.java:392 | `delete` removes the row with the key and keeps keys unique |
| LegacyIncidenciaController.ModificarIncidencia | src/main/java/es/iesjandula/ReaktorIssuesServer/rest/IncidenciaController.java:136-187 | a null or blank state gives code 4, then a null or blank comment code 5, before any lookup; an unknown key gives code 6; all three change nothing; otherwise exactly state and comment are replaced, any state text accepted, and 200 returned |
| LegacyIncidenciaController.CrearIncidencia | src/main/java/es/iesjandula/ReaktorIssuesServer/rest/IncidenciaController.java:225-302 | empty classroom, teacher, description and addressee give codes 1, 2, 3 and 3 in that order, changing nothing and sending nothing; otherwise the `PENDIENTE` incident is stored and the notice goes to the addressee, answerable to the teacher, with the subject and body above |
| LegacyIncidenciaController.BorraIncidencia | src/main/java/es/iesjandula/ReaktorIssuesServer/rest/IncidenciaController.java:372-402 | an unknown key gives code 6 and changes nothing; otherwise exactly that incident is removed and 204 returned |

## Left out

- Authentication and roles (`@PreAuthorize`), logging, and the HTTP framework
  itself: request parsing, JSON rendering and routing.
- Every `catch (Exception …)` branch that answers 500. A `null` value in a
  request field that the model types as a plain string is one such case, for
  example the current `UsuarioCategoriaDto`. Storage failures are another.
- Transactions and the order of side effects when something fails.
  - In the old `crearIncidencia`, a failure to send the e-mail after the row is
    saved answers 500, but the row stays.
  - The model returns the e-mail as a value and does not send it.
- The mail transport (`JavaMailSender.send`) and the stack-trace text of
  `ExceptionUtils.getStackTrace`. The stack trace appears only as an opaque
  optional string.
- The system clock and its `dd-MM-yyyy` formatting. Both are parameters.
- Cascades other than the delete of a `CategoriaIncidenciaEntity`. For that
  entity the model removes the category's assignments together with the
  category. A `save` of a category leaves its stored assignments alone: the
  assignments hold the foreign key, and the category's `responsables` list is
  the inverse side.
- CatalogDb.Database.DeleteCategoria and CategoriasController.Borrar: the
  cascade from `models.Categoria` to its `models.UsuarioCategoria` rows
  (`CascadeType.ALL` on `responsables`) is not modelled. That layout's
  database has no assignment table, because no modelled controller reads that
  entity, so these members remove only the category.
- Sorting.SortBy: rows that tie under `ORDER BY` (equal `fecha` or `nombre`)
  come out in one fixed order, the one the insertion sort gives. A database may
  order ties differently on each query, so in the source consecutive pages can
  repeat or skip tied rows. The model's pages are stretches of one listing.
  Being sorted, holding the table's rows and `PaginasConsecutivas` hold for any
  order of ties.
- Database collation. `ORDER BY` compares character codes, and `IgnoreCase`
  folds ASCII letters only.
- The unique constraint on `UbicacionEntity.nombre` is enforced in the model
  only in the case-insensitive form the controller checks.
- Querying an empty `Page` past the end is modelled as an empty page. The page
  metadata (total count and number of pages) is left out.
- The old revision's `listarIncidenciasOrdenadasPorFecha`: its repository
  (`ReaktorIssuesServer/repository/IIncidenciaRepository`) is not part of this
  model.
- The old revision's `IssuesServerError` and `Constants` are not part of this
  model. Its 400 bodies are modelled with the current `IssuesServerError`, and
  its state names with the current `Constants`.
- IssuesDb.FindByNombreCategoria and IncidenciaController.ResponsablePorDefecto:
  `findByNombreCategoria` has no `ORDER BY`, so the database may return a
  category's assignments in any order. The model returns them in store order,
  so the default responsible person is the first assignment stored. The source
  takes whichever row the database returns first.
- The PDF report service, Firebase lookups, users (`Profesor`) and the pieces of
  the old controller that are commented out.
- UsuarioCategoriaController.Crear: the 404 is a `ResponseStatusException`. The
  model carries its reason text as a plain body and not Spring's error JSON.
