# Province service and REST status mapping — Dafny model

This project models the decision-making core of a Spring CRUD application
that manages provinces (`Provincia`), each belonging to a country (`Pais`).
The core is `ProvinciaService` together with `ProvinciaRestController`.

- `ProvinciaService` validates names and provinces and runs the seven
  operations over the province table: find by id, save, modify, delete,
  list all, search by exact name, and search by country name.
- `ProvinciaRestController` rejects requests with a missing id. It calls the
  service, projects entities into the two DTO shapes (`ProvinciaDTO`,
  `ProvinciaPaisDTO`), and maps outcomes to 200, 201, 400 and 404.

Everything is a pure function over immutable values:

- `wrappers.dfy` (`Wrappers`): `Option` stands for a nullable Java
  reference. `Result` stands for a call that returns or throws. `Outcome`
  stands for a void call that may throw.
- `domain.dfy` (`Domain`): the entities and DTOs. Each nullable
  `Long`/`String`/reference field becomes an `Option`. It also holds the
  two exceptions the core can raise: `IllegalArgument` and `NullPointer`.
- `repository.dfy` (`Repository`): the JPA repository as a value `Store`.
  It holds the rows by primary key, the order in which the table lists them,
  and the IDENTITY counter that hands out fresh keys. `Valid` is the table
  invariant. The two derived queries are order-preserving filters over the
  listing.
- `service.dfy` (`Service`): the validators and the service operations.
  Each writing operation returns an `Effect`: the result or the thrown
  exception, plus the table afterwards. A thrown exception always leaves
  the table unchanged.
- `rest_controller.dfy` (`RestController`): the six handlers. Each returns
  `Effect<Response<B>>`, the triple (status, body, new table), or the
  exception that escaped the handler.

Behaviour of the code that the model reproduces:

- Saving does not check the country. A stored province may therefore have
  no country. Every handler that reads `p.getPais().getNombre()` then throws
  a `NullPointerException`. The model returns `Failure(NullPointer)` there.
  A country whose name is null gives a null `pais` field in the DTO, not an
  exception.
- The country-name query is plain JPQL equality (`p.pais.nombre =
  :nombrePais`). It is modelled as exact string equality, not as a
  case-insensitive match.
- The exact-name query asks for a case-insensitive match: Spring Data
  derives the condition `upper(nombre) = upper(argument)` for the
  `IgnoreCase` keyword. That comparison is kept abstract as a parameter
  `ignoreCase: (string, string) -> bool` of the lookup.
  `Service.BuscarPorNombreIgnoresCase` shows that for any such comparison
  that is an equivalence relation, two names it equates give the same
  results. The country-name query is modelled as case-sensitive, which is
  what `=` does under a case-sensitive database collation.
- The only 400 branch of "get by id" is the explicit `id == null` test. An
  id that cannot be parsed is rejected by Spring before the handler runs.
- Name lengths are counted as Java's `String.length()` counts them, in
  UTF-16 code units (`Domain.Utf16Length`). A character outside the Basic
  Multilingual Plane counts twice, so an emoji followed by one letter is a
  valid three-unit name.

## Model

| member | source | states |
|---|---|---|
| Service.ValidarNombre | src/main/java/com/dosideas/service/ProvinciaService.java:67-72 | throws only IllegalArgument, and passes exactly when the name is non-null with a UTF-16 length of at least 3 |
| Service.ValidarNombreCountsRawLength | src/main/java/com/dosideas/service/ProvinciaService.java:67-72 | no trimming, UTF-16 units: three blanks, "  a" and an emoji plus a letter pass; "ab", a lone emoji, "" and null fail with IllegalArgument |
| Service.ValidarProvincia | src/main/java/com/dosideas/service/ProvinciaService.java:74-80 | a null province fails with IllegalArgument; otherwise the verdict is that of ValidarNombre on its name, so id and country are never looked at |
| Service.ValidarProvinciaChecksOnlyNombre | src/main/java/com/dosideas/service/ProvinciaService.java:74-80 | validating a province equals validating its name; changing its id or country never changes the verdict |
| Service.BuscarPorId | src/main/java/com/dosideas/service/ProvinciaService.java:24-27 | present exactly when the key is stored, and then it is the row stored under that key, carrying that key |
| Service.GuardarProvincia | src/main/java/com/dosideas/service/ProvinciaService.java:29-35 | an invalid province gives IllegalArgument with the table unchanged; a valid one is stored under a fresh key not in the table, keeping name and country, with every other row unchanged, the key appended to the listing, and the key counter never moving back |
| Service.GuardarDiscardsClientId | src/main/java/com/dosideas/service/ProvinciaService.java:32-34 | the outcome of saving does not depend on the client-supplied id |
| Service.GuardarThenBuscar | src/main/java/com/dosideas/service/ProvinciaService.java:24-35 | after a save, the new key finds the saved province and every other key answers as before |
| Service.GuardarAppendsToListing | src/main/java/com/dosideas/service/ProvinciaService.java:29-35 | after a save the full listing is the old listing followed by the saved province |
| Service.ModificarProvincia | src/main/java/com/dosideas/service/ProvinciaService.java:49-54 | validates first (IllegalArgument, table unchanged); a valid province with an id is stored at that id and returned with id, name and country as given; the key counter never moves back |
| Service.ModificarThenBuscar | src/main/java/com/dosideas/service/ProvinciaService.java:49-54 | after a modification the id finds exactly the submitted province; other keys are unaffected |
| Service.ModificarReplacesInPlace | src/main/java/com/dosideas/service/ProvinciaService.java:49-54 | modifying a stored id keeps the listing's length and order and changes only that entry |
| Service.EliminarProvincia | src/main/java/com/dosideas/service/ProvinciaService.java:56-59 | removes exactly the given key; a stored province survives exactly when its id is a different key; the key counter is unchanged |
| Service.EliminarThenBuscar | src/main/java/com/dosideas/service/ProvinciaService.java:56-59 | after deletion the key finds nothing and every other key answers as before |
| Service.EliminarIsIdempotent | src/main/java/com/dosideas/service/ProvinciaService.java:56-59 | deleting twice equals deleting once, so deleting a missing key is a silent no-op |
| Service.EliminarShrinksListing | src/main/java/com/dosideas/service/ProvinciaService.java:56-59 | the listing after deletion holds exactly the earlier provinces with another id, in their earlier order |
| Service.BuscarTodasLasProvincias | src/main/java/com/dosideas/service/ProvinciaService.java:61-64 | one entry per listed key in listing order, and it contains exactly the stored provinces |
| Service.BuscarProvinciasPorNombreExacto | src/main/java/com/dosideas/service/ProvinciaService.java:43-47 | null name or one under 3 UTF-16 units gives IllegalArgument whatever the table holds; otherwise exactly the stored provinces whose name matches up to case, in listing order |
| Service.BuscarPorNombreIgnoresCase | src/main/java/com/dosideas/service/ProvinciaService.java:43-47 | two names of at least 3 UTF-16 units that the case-insensitive comparison equates give identical results |
| Service.ObtenerProvinciasPorNombrePais | src/main/java/com/dosideas/service/ProvinciaService.java:37-41 | null country name or one under 3 UTF-16 units gives IllegalArgument whatever the table holds; otherwise exactly the stored provinces whose country's name equals it, in listing order |
| Repository.FindById | src/main/java/com/dosideas/repository/ProvinciaRepository.java:19 | present exactly when the key is stored, and then it is the stored row |
| Repository.Save | src/main/java/com/dosideas/repository/ProvinciaRepository.java:19 | keeps the table invariant and never moves the key counter back; without id inserts under the IDENTITY counter's unused value; with id replaces or adds that key only, keeping every listed row in place |
| Repository.DeleteById | src/main/java/com/dosideas/repository/ProvinciaRepository.java:19 | keeps the table invariant, removes exactly that key, keeps the other keys in order and leaves the key counter unchanged |
| Repository.FindAll | src/main/java/com/dosideas/repository/ProvinciaRepository.java:19 | contains every stored province exactly once and nothing else, in listing order |
| Repository.FindByNombrePais | src/main/java/com/dosideas/repository/ProvinciaRepository.java:35-36 | exactly the stored provinces with a country whose name equals the argument, as a subsequence of the listing |
| Repository.FindByNombreIgnoreCase | src/main/java/com/dosideas/repository/ProvinciaRepository.java:27 | exactly the stored provinces with a non-null name that `upper(nombre) = upper(argument)` equates with the argument, as a subsequence of the listing |
| Service.WritesKeepNamesValid | src/main/java/com/dosideas/service/ProvinciaService.java:29-59 | if every stored name is valid, it stays so after any save, modification or deletion, whatever the argument |
| Service.KeysNeverReused | src/main/java/com/dosideas/service/ProvinciaService.java:29-35 | after deleting a stored key, the next successful save gets a key that is neither the deleted one nor any key the table held before |
| RestController.ToProvinciaDTO | src/main/java/com/dosideas/controller/rest/ProvinciaRestController.java:55-59 | the DTO carries the province's id, name and country name; a province without country throws NullPointer |
| RestController.ToProvinciaDTOs | src/main/java/com/dosideas/controller/rest/ProvinciaRestController.java:75-80 | succeeds exactly when every province has a country; then same length and element i is the projection of province i |
| RestController.ToProvinciaPaisDTOs | src/main/java/com/dosideas/controller/rest/ProvinciaRestController.java:99-104 | same length, and element i carries only province i's id and name |
| RestController.ListResponse | src/main/java/com/dosideas/controller/rest/ProvinciaRestController.java:82-83 | the body is always the list; 404 exactly when it is empty, 200 otherwise |
| RestController.BuscarProvinciaPorId | src/main/java/com/dosideas/controller/rest/ProvinciaRestController.java:45-61 | null id gives 400; unknown id gives 404; stored id gives 200 with {id, nombre, pais.nombre} (NullPointer without country); the table is never changed |
| RestController.BuscarProvinciasPorNombre | src/main/java/com/dosideas/controller/rest/ProvinciaRestController.java:69-84 | a name under 3 UTF-16 units throws IllegalArgument; otherwise one flattened DTO per match in order, 404 exactly when there is no match; the table is unchanged |
| RestController.ObtenerProvinciasPorPais | src/main/java/com/dosideas/controller/rest/ProvinciaRestController.java:92-108 | a name under 3 UTF-16 units throws IllegalArgument; otherwise one {id, nombre} DTO per province of that country in order, 404 exactly when there is none; the table is unchanged |
| RestController.GuardarProvincia | src/main/java/com/dosideas/controller/rest/ProvinciaRestController.java:118-124 | invalid body throws IllegalArgument with the table unchanged; otherwise 201 with exactly the entity the service saved, and the service's new table |
| RestController.ActualizarProvincia | src/main/java/com/dosideas/controller/rest/ProvinciaRestController.java:132-153 | null body or id gives 400 and unknown id gives 404, both with the table unchanged; otherwise only the payload name is copied onto the stored row, which is written in place and returned with 200 (IllegalArgument, table unchanged, if that name is invalid) |
| RestController.ActualizarNeverCreates | src/main/java/com/dosideas/controller/rest/ProvinciaRestController.java:132-153 | an update never adds or removes a key, and never reorders the listing |
| RestController.ActualizarKeepsIdAndPais | src/main/java/com/dosideas/controller/rest/ProvinciaRestController.java:146-152 | after a 200 the id finds the stored row with its own id and country and the payload's name; other keys are unaffected |
| RestController.ActualizarKeepsNamesValid | src/main/java/com/dosideas/controller/rest/ProvinciaRestController.java:132-153 | if every stored name is valid, it stays so after any update request |
| RestController.ActualizarIgnoresPayloadPais | src/main/java/com/dosideas/controller/rest/ProvinciaRestController.java:146-147 | the country in the update payload never affects the outcome |
| RestController.GuardarThenBuscarProvinciaPorId | src/main/java/com/dosideas/controller/rest/ProvinciaRestController.java:118-124 | a valid create answers 201, and fetching the generated id answers 200 with the created province's projection |
| RestController.ListarLasProvincias | src/main/java/com/dosideas/controller/rest/ProvinciaRestController.java:174-187 | always 200 (never 404), one flattened DTO per stored province in listing order; NullPointer exactly when some province has no country; the table is unchanged |
| RestController.ListarAfterGuardar | src/main/java/com/dosideas/controller/rest/ProvinciaRestController.java:174-187 | after a create the listing is the old listing followed by the new province's DTO |
| RestController.EmptyTableAsymmetry | src/main/java/com/dosideas/controller/rest/ProvinciaRestController.java:174-187 | on an empty table the listing answers 200 with [] while both searches answer 404 with [] |
| RestController.ProjectionsAgree | src/main/java/com/dosideas/controller/rest/ProvinciaRestController.java:99-104 | the two DTO shapes agree on id and name element by element |
| RestController.ScenarioBuscarPorId | src/test/java/com/dosideas/controller/ProvinciaControllerTest.java:53-96 | with Cordoba stored under 1, GET /1 answers 200 {1, Cordoba, Argentina} and GET /2 answers 404 |
| RestController.ScenarioGuardarYActualizar | src/test/java/com/dosideas/controller/ProvinciaControllerTest.java:200-287 | POST of a new province answers 201 with generated id 2; PUT with a null id answers 400 and leaves the table unchanged |

## Left out

- `ProvinciaController` (the HTML/MVC controller) is not part of this model.
  It consists of view names, redirects and model attributes.
- `buscarProvinciasPorNombreILike`, the `ILIKE` query, is never called by
  the core and is not modelled.
- The DELETE endpoint is commented out in the controller, so no handler
  models it. The service's `eliminarProvincia` is modelled.
- Spring routing, Jackson (de)serialisation, Lombok builders and request
  binding are not modelled. Consequences: the search handlers take a
  non-null `string`, because a missing required `@RequestParam` is rejected
  by Spring. The 400 for a non-numeric path id comes from the framework.
- Exceptions are not mapped to HTTP statuses. An `IllegalArgument` or
  `NullPointer` that escapes a handler is returned as `Failure`. The status
  Spring's default error handling would give it is not modelled.
- `@Transactional` is modelled only as "a thrown exception leaves the table
  unchanged". Concurrency, last-write-wins, flushing and JPA managed-entity
  semantics are not modelled. The entity fetched during an update is a copy
  that reaches the table only through `ModificarProvincia`.
- The countries table is not modelled. A province stores the `Pais` value
  it was saved with. A real database would re-read the country's current
  name through the foreign key.
- Repository.Save: merging an entity whose id is not in the table is
  modelled as an insert at that id (upsert by id). The JPA provider's
  actual behaviour for a stale detached entity is not modelled. Through
  the REST API, `modificarProvincia` is only reached with a stored id.
- Repository.FindAll: the table's listing order is modelled as insertion
  order. An existing row keeps its place when it is updated. The database's
  order without `ORDER BY` is not otherwise modelled.
- Repository.FindByNombreIgnoreCase: the database's `UPPER` function is
  not modelled. The comparison `upper(nombre) = upper(argument)` is a
  parameter of the lookup.
- Service.GuardarProvincia: the model never fails after validation. With
  a real database, saving a province whose country has no id (a transient
  entity) or an id that is not in the countries table throws from the
  persistence layer; the countries table is not part of this model.
- Repository.FindByNombrePais: JPQL `=` is modelled as exact, case-sensitive
  string equality. Under a case-insensitive database collation the query
  would also match names differing only in case.
- Service.ValidarNombre: a Java `String` may hold an unpaired surrogate,
  which `length()` counts as one unit. A Dafny `string` cannot hold one, so
  names containing unpaired surrogates cannot be represented.
- Java `long` ids and the IDENTITY column are unbounded integers here.
  64-bit overflow is not modelled.
