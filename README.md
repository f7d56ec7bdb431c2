# Articulo catalogue: a Dafny model

A model of the core of a small Spring Boot service that keeps a catalogue of
articles (`Articulo`: id, nombre, precio, optional imagen) and answers
filtered searches over it. Modules follow the Java packages:

- `Model` (`model/Articulo.java`): the entity as a class with four nullable
  fields, its two constructors and its setters; `Row` is the value an
  article is persisted as, and `SatisfiesColumns` states the declared column
  constraints (nombre non-null, at most 200 characters; precio non-null;
  imagen at most 500 characters).
- `Text`: the meaning of `Containing` + `IgnoreCase` in a derived query
  name: both sides upper-cased, then a contiguous-substring test.
- `Repository` (`repository/ArticuloRepository.java`): the store as a class
  holding an id -> row table and the next IDENTITY value, with the inherited
  `findAll`, `findById`, `save`, `deleteById` and the five derived queries.
- `Service` (`service/ArticuloServiceImpl.java`): the pass-through service; the
  update forces the path id onto the entity before saving it.
- `Controller` (`controller/ArticuloController.java`): the handlers, with the
  HTTP outcome reduced to `Response` (`Ok(row)`, `NotFound`, `NoContent`),
  and the search dispatch `Dispatch`, which maps the three optional filters to
  the one service call (`Busqueda`) that the handler makes.

Query results are sets of rows: `findAll` promises no order, and stored rows
are distinct since each carries its own id. A NULL column never satisfies a
WHERE clause, as in SQL. Prices are `real`, ids unbounded `int`.

The search handler's cascade is kept exactly as written: a name given with
exactly one price bound (name + min, or name + max) matches none of its five
guards and returns the whole catalogue (`Controller.NombreWithOneBoundListsEverything`).

What `save` does with an entity whose id is set but not stored is not written in
the repository, and it depends on the version of the JPA provider, which is not
part of this model. The model follows Hibernate before 6.6: merging such a
detached entity with a generated id inserts the row under the next IDENTITY
value, and the argument keeps its own id. From Hibernate 6.6 on, the same merge
fails with an optimistic-lock exception instead (see "## Left out"). With the
controller's existence check, this case only arises through the create handler
when the request body carries an id that is not stored, or through the service's
update called directly on an id that is not stored.

## Model

| member | source | states |
|---|---|---|
| Model.SatisfiesColumns | proyecto_crud_articulos_con_filtros/src/main/java/com/ejemplo/articulos/model/Articulo.java:24-31 | a row meeting the constraints has a non-null nombre of at most 200 characters, a non-null precio, and an imagen that is absent or at most 500 characters |
| Model.ColumnsIgnoreId | proyecto_crud_articulos_con_filtros/src/main/java/com/ejemplo/articulos/model/Articulo.java:19-31 | setting the id of a row never changes whether it meets the column constraints, since only nombre, precio and imagen are constrained |
| Model.Articulo.Empty | proyecto_crud_articulos_con_filtros/src/main/java/com/ejemplo/articulos/model/Articulo.java:37-39 | the no-argument constructor leaves id, nombre, precio and imagen all null, so the id is left for the store to assign |
| Model.Articulo.constructor | proyecto_crud_articulos_con_filtros/src/main/java/com/ejemplo/articulos/model/Articulo.java:45-50 | the full constructor stores each argument in its own field |
| Model.Articulo.SetId | proyecto_crud_articulos_con_filtros/src/main/java/com/ejemplo/articulos/model/Articulo.java:62-64 | only id changes, to the given value; nombre, precio and imagen are kept |
| Model.Articulo.SetNombre | proyecto_crud_articulos_con_filtros/src/main/java/com/ejemplo/articulos/model/Articulo.java:72-74 | only nombre changes, to the given value |
| Model.Articulo.SetPrecio | proyecto_crud_articulos_con_filtros/src/main/java/com/ejemplo/articulos/model/Articulo.java:82-84 | only precio changes, to the given value |
| Model.Articulo.SetImagen | proyecto_crud_articulos_con_filtros/src/main/java/com/ejemplo/articulos/model/Articulo.java:92-94 | only imagen changes, to the given value |
| Text.IsSubstringIff | proyecto_crud_articulos_con_filtros/src/main/java/com/ejemplo/articulos/repository/ArticuloRepository.java:14 | the recursive substring test used for Containing holds exactly when the pattern occurs at some position of the text |
| Text.PatternCaseIrrelevant | proyecto_crud_articulos_con_filtros/src/main/java/com/ejemplo/articulos/repository/ArticuloRepository.java:14 | upper- or lower-casing the search text never changes whether a name matches it |
| Text.TextCaseIrrelevant | proyecto_crud_articulos_con_filtros/src/main/java/com/ejemplo/articulos/repository/ArticuloRepository.java:14 | upper- or lower-casing the stored name never changes whether it matches |
| Text.EmptyPatternMatches | proyecto_crud_articulos_con_filtros/src/main/java/com/ejemplo/articulos/repository/ArticuloRepository.java:14 | the empty search text matches every name |
| Text.MouseMatchesMou | proyecto_crud_articulos_con_filtros/src/main/java/com/ejemplo/articulos/repository/ArticuloRepository.java:14 | the name "Mouse" matches the search text "mou" |
| Repository.ArticuloRepository.FindAll | proyecto_crud_articulos_con_filtros/src/main/java/com/ejemplo/articulos/repository/ArticuloRepository.java:12 | the result is exactly the stored rows, each stored under its own id |
| Repository.ArticuloRepository.FindById | proyecto_crud_articulos_con_filtros/src/main/java/com/ejemplo/articulos/repository/ArticuloRepository.java:12 | present exactly when the id is stored, and then the row stored under that id, whose id is that id |
| Repository.ArticuloRepository.Save | proyecto_crud_articulos_con_filtros/src/main/java/com/ejemplo/articulos/repository/ArticuloRepository.java:12 | a stored id is replaced in place; any other entity is inserted under a fresh IDENTITY value that no stored row uses (and a null-id entity receives it); the saved row carries the entity's fields; no other row changes; column constraints are preserved when the entity meets them |
| Repository.ArticuloRepository.DeleteById | proyecto_crud_articulos_con_filtros/src/main/java/com/ejemplo/articulos/repository/ArticuloRepository.java:12 | the id is no longer stored and every other row is kept; an absent id changes nothing |
| Repository.ArticuloRepository.FindByNombreContainingIgnoreCase | proyecto_crud_articulos_con_filtros/src/main/java/com/ejemplo/articulos/repository/ArticuloRepository.java:14 | a subset of findAll holding a stored row exactly when its nombre contains the argument, case ignored |
| Repository.ArticuloRepository.FindByPrecioGreaterThanEqual | proyecto_crud_articulos_con_filtros/src/main/java/com/ejemplo/articulos/repository/ArticuloRepository.java:15 | a subset of findAll holding a stored row exactly when its precio is at least the minimum |
| Repository.ArticuloRepository.FindByPrecioLessThanEqual | proyecto_crud_articulos_con_filtros/src/main/java/com/ejemplo/articulos/repository/ArticuloRepository.java:16 | a subset of findAll holding a stored row exactly when its precio is at most the maximum |
| Repository.ArticuloRepository.FindByPrecioBetween | proyecto_crud_articulos_con_filtros/src/main/java/com/ejemplo/articulos/repository/ArticuloRepository.java:17 | a subset of findAll holding a stored row exactly when its precio lies between the bounds, both inclusive |
| Repository.ArticuloRepository.FindByNombreContainingIgnoreCaseAndPrecioBetween | proyecto_crud_articulos_con_filtros/src/main/java/com/ejemplo/articulos/repository/ArticuloRepository.java:19-23 | a subset of findAll holding a stored row exactly when both the name and the between conditions hold |
| Repository.BetweenIsIntersection | proyecto_crud_articulos_con_filtros/src/main/java/com/ejemplo/articulos/repository/ArticuloRepository.java:15-17 | the between query equals the intersection of the at-least and at-most queries |
| Repository.CombinedIsIntersection | proyecto_crud_articulos_con_filtros/src/main/java/com/ejemplo/articulos/repository/ArticuloRepository.java:14-23 | the combined query equals the intersection of the name query and the between query |
| Repository.InvertedRangeFindsNothing | proyecto_crud_articulos_con_filtros/src/main/java/com/ejemplo/articulos/repository/ArticuloRepository.java:17 | a range whose minimum exceeds its maximum finds nothing |
| Repository.EmptyNombreFindsEveryNamedRow | proyecto_crud_articulos_con_filtros/src/main/java/com/ejemplo/articulos/repository/ArticuloRepository.java:14 | the empty search text finds every stored row whose nombre is not null |
| Service.ArticuloServiceImpl.constructor | proyecto_crud_articulos_con_filtros/src/main/java/com/ejemplo/articulos/service/ArticuloServiceImpl.java:15-17 | the service delegates to the repository it is given |
| Service.ArticuloServiceImpl.ListarArticulos | proyecto_crud_articulos_con_filtros/src/main/java/com/ejemplo/articulos/service/ArticuloServiceImpl.java:19-22 | exactly the stored rows, as findAll gives them |
| Service.ArticuloServiceImpl.ObtenerArticuloPorId | proyecto_crud_articulos_con_filtros/src/main/java/com/ejemplo/articulos/service/ArticuloServiceImpl.java:24-27 | present exactly when the id is stored, and then the row stored under it |
| Service.ArticuloServiceImpl.GuardarArticulo | proyecto_crud_articulos_con_filtros/src/main/java/com/ejemplo/articulos/service/ArticuloServiceImpl.java:29-32 | the returned row carries the entity's fields and is fetched back by its returned id; the new table is the old one with only that entry set; a stored id is overwritten and the entity left as it is, any other entity gets a fresh id (which a null-id entity receives in place); the IDENTITY counter advances by one exactly when a row is inserted, so no id is ever handed out twice |
| Service.ArticuloServiceImpl.ActualizarArticulo | proyecto_crud_articulos_con_filtros/src/main/java/com/ejemplo/articulos/service/ArticuloServiceImpl.java:34-38 | the entity's id becomes the given id whatever it was, and its other fields stay; for a stored id, the row under it is replaced in full by the entity's fields with that id and nothing else changes, the IDENTITY counter included; for an unstored id the row is inserted under the counter, which advances by one |
| Service.ArticuloServiceImpl.EliminarArticulo | proyecto_crud_articulos_con_filtros/src/main/java/com/ejemplo/articulos/service/ArticuloServiceImpl.java:40-43 | afterwards the id is not found and every other row is unchanged; the IDENTITY counter is kept, so a deleted id is never reused |
| Service.ArticuloServiceImpl.BuscarPorNombre | proyecto_crud_articulos_con_filtros/src/main/java/com/ejemplo/articulos/service/ArticuloServiceImpl.java:45-48 | exactly the listed rows whose nombre contains the text, case ignored |
| Service.ArticuloServiceImpl.BuscarPorPrecioMinimo | proyecto_crud_articulos_con_filtros/src/main/java/com/ejemplo/articulos/service/ArticuloServiceImpl.java:50-53 | exactly the listed rows whose precio is at least the minimum |
| Service.ArticuloServiceImpl.BuscarPorPrecioMaximo | proyecto_crud_articulos_con_filtros/src/main/java/com/ejemplo/articulos/service/ArticuloServiceImpl.java:55-58 | exactly the listed rows whose precio is at most the maximum |
| Service.ArticuloServiceImpl.BuscarPorPrecioEntre | proyecto_crud_articulos_con_filtros/src/main/java/com/ejemplo/articulos/service/ArticuloServiceImpl.java:60-63 | exactly the listed rows whose precio lies in the inclusive range |
| Service.ArticuloServiceImpl.BuscarPorNombreYPrecioEntre | proyecto_crud_articulos_con_filtros/src/main/java/com/ejemplo/articulos/service/ArticuloServiceImpl.java:65-68 | exactly the listed rows meeting both the name and the inclusive range condition |
| Controller.Dispatch | proyecto_crud_articulos_con_filtros/src/main/java/com/ejemplo/articulos/controller/ArticuloController.java:63-83 | for each combination of present filters, which single search is chosen (both directions), including the fall-through to listing all for a name with one bound; the arguments reach it unchanged |
| Controller.GuardsDisjoint | proyecto_crud_articulos_con_filtros/src/main/java/com/ejemplo/articulos/controller/ArticuloController.java:63-81 | no two of the five guards hold together |
| Controller.DispatchTakesHoldingGuard | proyecto_crud_articulos_con_filtros/src/main/java/com/ejemplo/articulos/controller/ArticuloController.java:63-81 | whichever guard holds, its call is the one made |
| Controller.FirstMatchAgrees | proyecto_crud_articulos_con_filtros/src/main/java/com/ejemplo/articulos/controller/ArticuloController.java:63-83 | testing the guards in any order that includes the holding guard yields the same call |
| Controller.OrderIrrelevant | proyecto_crud_articulos_con_filtros/src/main/java/com/ejemplo/articulos/controller/ArticuloController.java:63-83 | testing the five guards in any order yields the same call |
| Controller.NombreWithOneBoundListsEverything | proyecto_crud_articulos_con_filtros/src/main/java/com/ejemplo/articulos/controller/ArticuloController.java:83 | a name with only a minimum, or only a maximum, returns every article |
| Controller.ArticuloController.constructor | proyecto_crud_articulos_con_filtros/src/main/java/com/ejemplo/articulos/controller/ArticuloController.java:17-19 | the controller delegates to the service it is given |
| Controller.ArticuloController.Listar | proyecto_crud_articulos_con_filtros/src/main/java/com/ejemplo/articulos/controller/ArticuloController.java:21-24 | exactly the stored rows |
| Controller.ArticuloController.ObtenerPorId | proyecto_crud_articulos_con_filtros/src/main/java/com/ejemplo/articulos/controller/ArticuloController.java:26-31 | Ok with the row stored under the id when it is stored, NotFound otherwise |
| Controller.ArticuloController.Crear | proyecto_crud_articulos_con_filtros/src/main/java/com/ejemplo/articulos/controller/ArticuloController.java:33-36 | the saved row carries the body's fields and is fetched back (Ok) by its id; a body whose id is stored overwrites that row, any other body is stored under a fresh id; the new table is the old one with only that entry set; the IDENTITY counter advances by one exactly when a row is inserted |
| Controller.ArticuloController.Actualizar | proyecto_crud_articulos_con_filtros/src/main/java/com/ejemplo/articulos/controller/ArticuloController.java:38-45 | NotFound and nothing changed for an unstored id; otherwise Ok with the payload's fields under that id, which replace the stored row, and the payload keeps its fields with only its id set to that id; the IDENTITY counter is kept |
| Controller.ArticuloController.Eliminar | proyecto_crud_articulos_con_filtros/src/main/java/com/ejemplo/articulos/controller/ArticuloController.java:47-54 | NotFound and nothing changed for an unstored id; otherwise NoContent and the row is removed, the rest kept; the IDENTITY counter is kept, so a deleted id is never reused |
| Controller.ArticuloController.Buscar | proyecto_crud_articulos_con_filtros/src/main/java/com/ejemplo/articulos/controller/ArticuloController.java:56-84 | exactly the stored rows that the dispatched search's WHERE clause selects |

## Left out

- Repository.ArticuloRepository.Save: for an entity whose id is set but not stored it inserts under a fresh id, as Hibernate before 6.6 does; the optimistic-lock exception that Hibernate 6.6 and later raise there instead is not modelled, since the provider version is not part of this model.
- Getters of `Articulo` (`model/Articulo.java`:57-89): plain field reads; the model reads the fields, or `State()`.
- HTTP transport (routing, CORS, JSON binding, `ResponseEntity`): each outcome is a `Response` value.
- JPA itself: SQL generation, transactions, flushing, persistence-context identity of managed entities (a saved entity is not kept aliased to its row), storage failures and concurrent access. The store is a sequential in-memory table.
- The column constraints are not enforced by any operation (the database enforces them); `SatisfiesColumns` only states them, and `Save` keeps them when its argument meets them.
- `Double` semantics (NaN, rounding) and the 64-bit width of `Long` ids: prices are `real`, ids unbounded `int`.
- Unicode case mapping and database collations: IgnoreCase is ASCII upper-casing.
- Result order of every query: results are sets.
- The application bootstrap and the service interface, which holds only signatures that `ArticuloServiceImpl` implements.
