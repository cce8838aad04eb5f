/** `ProvinciaRestController`: gates on missing input, calls the service,
    projects entities into the two response shapes and maps outcomes to HTTP
    status codes. Every handler yields the service `Effect` of a response:
    either a response or the exception that escaped it, plus the table after
    the request. */
module RestController {
  import opened Wrappers
  import opened Domain
  import opened Repository
  import opened Service

  /** The HTTP statuses the handlers answer with: 200, 201, 400 and 404. */
  datatype Status = Ok | Created | BadRequest | NotFound

  /** A response entity: status and optional body. */
  datatype Response<B> = Response(status: Status, body: Option<B>)

  /** The flattened projection `{id, nombre, pais.nombre}`; dereferencing a
      null country throws. */
  function ToProvinciaDTO(p: Provincia): (r: Result<ProvinciaDTO, Exception>)
    ensures r.Success? <==> p.pais.Some?
    ensures r.Failure? ==> r.error == NullPointer
    ensures r.Success? ==>
      r.value.id == p.id && r.value.nombre == p.nombre && r.value.pais == p.pais.value.nombre
  {
    match p.pais
    case None => Failure(NullPointer)
    case Some(pais) => Success(ProvinciaDTO(p.id, p.nombre, pais.nombre))
  }

  /** Every province of a country-free listing has its country set. */
  ghost predicate AllHavePais(ps: seq<Provincia>) {
    forall i :: 0 <= i < |ps| ==> ps[i].pais.Some?
  }

  /** Projects a list element by element, order and length preserved; the
      first province without country makes the whole projection throw. */
  function ToProvinciaDTOs(ps: seq<Provincia>): (r: Result<seq<ProvinciaDTO>, Exception>)
    ensures r.Success? <==> AllHavePais(ps)
    ensures r.Failure? ==> r.error == NullPointer
    ensures r.Success? ==> |r.value| == |ps|
    ensures r.Success? ==> forall i :: 0 <= i < |ps| ==>
      r.value[i] == ProvinciaDTO(ps[i].id, ps[i].nombre, ps[i].pais.value.nombre)
  {
    if ps == [] then Success([])
    else
      match ToProvinciaDTO(ps[0])
      case Failure(e) => Failure(e)
      case Success(d) =>
        match ToProvinciaDTOs(ps[1..])
        case Failure(e) =>
          assert !AllHavePais(ps) by {
            var j :| 0 <= j < |ps[1..]| && ps[1..][j].pais.None?;
            assert ps[j + 1].pais.None?;
          }
          Failure(e)
        case Success(ds) => Success([d] + ds)
  }

  /** The country-scoped projection `{id, nombre}`, element by element. */
  function ToProvinciaPaisDTOs(ps: seq<Provincia>): (r: seq<ProvinciaPaisDTO>)
    ensures |r| == |ps|
    ensures forall i :: 0 <= i < |ps| ==> r[i] == ProvinciaPaisDTO(ps[i].id, ps[i].nombre)
  {
    if ps == [] then [] else [ProvinciaPaisDTO(ps[0].id, ps[0].nombre)] + ToProvinciaPaisDTOs(ps[1..])
  }

  /** The response for a search: 404 when nothing matched, 200 otherwise,
      with the (possibly empty) list as body either way. */
  function ListResponse<D>(ds: seq<D>): (r: Response<seq<D>>)
    ensures r.body == Some(ds)
    ensures r.status == NotFound <==> |ds| == 0
    ensures r.status == Ok <==> |ds| > 0
  {
    Response(if |ds| == 0 then NotFound else Ok, Some(ds))
  }

  /** GET /{id}: 400 for a missing id, 404 for an unknown one, otherwise 200
      with the flattened projection of the stored province. */
  function BuscarProvinciaPorId(s: Store, id: Option<int>): (r: Effect<Response<ProvinciaDTO>>)
    requires Valid(s)
    ensures r.store == s
    ensures id.None? ==> r.result == Success(Response(BadRequest, None))
    ensures id.Some? && id.value !in s.rows ==> r.result == Success(Response(NotFound, None))
    ensures id.Some? && id.value in s.rows && s.rows[id.value].pais.None? ==>
      r.result == Failure(NullPointer)
    ensures id.Some? && id.value in s.rows && s.rows[id.value].pais.Some? ==>
      var p := s.rows[id.value];
      r.result == Success(Response(Ok, Some(ProvinciaDTO(id, p.nombre, p.pais.value.nombre))))
  {
    if id.None? then Effect(Success(Response(BadRequest, None)), s)
    else
      match BuscarPorId(s, id.value)
      case None => Effect(Success(Response(NotFound, None)), s)
      case Some(p) =>
        match ToProvinciaDTO(p)
        case Failure(e) => Effect(Failure(e), s)
        case Success(dto) => Effect(Success(Response(Ok, Some(dto))), s)
  }

  /** GET ?nombre=: exact, case-insensitive name search, projected to the
      flattened shape; a name shorter than three UTF-16 code
      units throws. */
  function BuscarProvinciasPorNombre(s: Store, ignoreCase: (string, string) -> bool, nombre: string)
    : (r: Effect<Response<seq<ProvinciaDTO>>>)
    requires Valid(s)
    ensures r.store == s
    ensures Utf16Length(nombre) < MinNombre ==> r.result == Failure(IllegalArgument)
    ensures Utf16Length(nombre) >= MinNombre ==>
      var found := FindByNombreIgnoreCase(s, ignoreCase, nombre);
      && (r.result.Failure? <==> !AllHavePais(found))
      && (r.result.Failure? ==> r.result.error == NullPointer)
      && (r.result.Success? ==>
            && r.result.value.body.Some?
            && |r.result.value.body.value| == |found|
            && (forall i :: 0 <= i < |found| ==>
                  r.result.value.body.value[i] == ProvinciaDTO(found[i].id, found[i].nombre, found[i].pais.value.nombre))
            && (r.result.value.status == NotFound <==> |found| == 0)
            && (r.result.value.status == Ok <==> |found| > 0))
  {
    match BuscarProvinciasPorNombreExacto(s, ignoreCase, Some(nombre))
    case Failure(e) => Effect(Failure(e), s)
    case Success(ps) =>
      match ToProvinciaDTOs(ps)
      case Failure(e) => Effect(Failure(e), s)
      case Success(ds) => Effect(Success(ListResponse(ds)), s)
  }

  /** GET /pais?nombre=: provinces of the named country, projected to the
      country-scoped shape; a name shorter than three UTF-16 code
      units throws. */
  function ObtenerProvinciasPorPais(s: Store, nombre: string): (r: Effect<Response<seq<ProvinciaPaisDTO>>>)
    requires Valid(s)
    ensures r.store == s
    ensures Utf16Length(nombre) < MinNombre ==> r.result == Failure(IllegalArgument)
    ensures Utf16Length(nombre) >= MinNombre ==>
      var found := FindByNombrePais(s, nombre);
      && r.result.Success?
      && r.result.value.body.Some?
      && |r.result.value.body.value| == |found|
      && (forall i :: 0 <= i < |found| ==>
            r.result.value.body.value[i] == ProvinciaPaisDTO(found[i].id, found[i].nombre))
      && (r.result.value.status == NotFound <==> |found| == 0)
      && (r.result.value.status == Ok <==> |found| > 0)
  {
    match ObtenerProvinciasPorNombrePais(s, Some(nombre))
    case Failure(e) => Effect(Failure(e), s)
    case Success(ps) => Effect(Success(ListResponse(ToProvinciaPaisDTOs(ps))), s)
  }

  /** POST /guardar: 201 with the entity the service saved; an invalid
      province throws and nothing is saved. */
  function GuardarProvincia(s: Store, body: Option<Provincia>): (r: Effect<Response<Provincia>>)
    requires Valid(s)
    ensures Valid(r.store)
    ensures ValidarProvincia(body).Fail? ==> r == Effect(Failure(IllegalArgument), s)
    ensures ValidarProvincia(body).Pass? ==>
      var saved := Service.GuardarProvincia(s, body);
      && r.store == saved.store
      && r.result == Success(Response(Created, Some(saved.result.value)))
  {
    var saved := Service.GuardarProvincia(s, body);
    match saved.result
    case Failure(e) => Effect(Failure(e), saved.store)
    case Success(p) => Effect(Success(Response(Created, Some(p))), saved.store)
  }

  /** PUT: 400 without body or id, 404 for an unknown id; otherwise only the
      submitted name is copied onto the stored province, which is then
      modified through the service and returned with 200. */
  function ActualizarProvincia(s: Store, body: Option<Provincia>): (r: Effect<Response<Provincia>>)
    requires Valid(s)
    ensures Valid(r.store)
    ensures body.None? || body.value.id.None? ==> r == Effect(Success(Response(BadRequest, None)), s)
    ensures body.Some? && body.value.id.Some? && body.value.id.value !in s.rows ==>
      r == Effect(Success(Response(NotFound, None)), s)
    ensures body.Some? && body.value.id.Some? && body.value.id.value in s.rows ==>
      var k := body.value.id.value;
      var updated := s.rows[k].(nombre := body.value.nombre);
      && (ValidarNombre(body.value.nombre).Fail? ==> r == Effect(Failure(IllegalArgument), s))
      && (ValidarNombre(body.value.nombre).Pass? ==>
            && r.result == Success(Response(Ok, Some(updated)))
            && r.store.rows == s.rows[k := updated]
            && r.store.ids == s.ids
            && r.store.nextId == s.nextId)
  {
    if body.None? || body.value.id.None? then Effect(Success(Response(BadRequest, None)), s)
    else
      match BuscarPorId(s, body.value.id.value)
      case None => Effect(Success(Response(NotFound, None)), s)
      case Some(existente) =>
        var modified := ModificarProvincia(s, Some(existente.(nombre := body.value.nombre)));
        match modified.result
        case Failure(e) => Effect(Failure(e), modified.store)
        case Success(p) => Effect(Success(Response(Ok, Some(p))), modified.store)
  }

  /** GET /todos: every stored province in listing order, projected to the
      flattened shape; always 200, even for an empty table. */
  function ListarLasProvincias(s: Store): (r: Effect<Response<seq<ProvinciaDTO>>>)
    requires Valid(s)
    ensures r.store == s
    ensures r.result.Failure? <==> !AllHavePais(FindAll(s))
    ensures r.result.Failure? ==> r.result.error == NullPointer
    ensures r.result.Success? ==>
      && r.result.value.status == Ok
      && r.result.value.body.Some?
      && |r.result.value.body.value| == |s.ids|
      && forall i :: 0 <= i < |s.ids| ==>
           var p := s.rows[s.ids[i]];
           r.result.value.body.value[i] == ProvinciaDTO(p.id, p.nombre, p.pais.value.nombre)
  {
    match ToProvinciaDTOs(BuscarTodasLasProvincias(s))
    case Failure(e) => Effect(Failure(e), s)
    case Success(ds) => Effect(Success(Response(Ok, Some(ds))), s)
  }

  /** An update never adds or removes a key, whatever it answers. */
  lemma ActualizarNeverCreates(s: Store, body: Option<Provincia>, k: int)
    requires Valid(s)
    ensures k in ActualizarProvincia(s, body).store.rows <==> k in s.rows
    ensures ActualizarProvincia(s, body).store.ids == s.ids
  {
  }

  /** A successful update keeps the stored key and country and takes only
      the name from the payload; every other key answers as before. */
  lemma ActualizarKeepsIdAndPais(s: Store, body: Provincia, k: int)
    requires Valid(s)
    requires ActualizarProvincia(s, Some(body)).result.Success?
    requires ActualizarProvincia(s, Some(body)).result.value.status == Ok
    ensures body.id.Some? && body.id.value in s.rows
    ensures var id := body.id.value;
      BuscarPorId(ActualizarProvincia(s, Some(body)).store, id)
        == Some(Provincia(Some(id), body.nombre, s.rows[id].pais))
    ensures k != body.id.value ==>
      BuscarPorId(ActualizarProvincia(s, Some(body)).store, k) == BuscarPorId(s, k)
  {
  }

  /** The country in an update payload is never read. */
  lemma ActualizarIgnoresPayloadPais(s: Store, body: Provincia, pais: Option<Pais>)
    requires Valid(s)
    ensures ActualizarProvincia(s, Some(body)) == ActualizarProvincia(s, Some(body.(pais := pais)))
  {
  }

  /** An update keeps every stored name valid, whatever it answers. */
  lemma ActualizarKeepsNamesValid(s: Store, body: Option<Provincia>)
    requires Valid(s) && NamesValid(s)
    ensures NamesValid(ActualizarProvincia(s, body).store)
  {
  }

  /** Creating a province and then fetching it by the generated id answers
      200 with its flattened projection. */
  lemma GuardarThenBuscarProvinciaPorId(s: Store, body: Provincia)
    requires Valid(s)
    requires ValidarProvincia(Some(body)).Pass? && body.pais.Some?
    ensures var created := GuardarProvincia(s, Some(body));
      && created.result.Success?
      && created.result.value.status == Created
      && BuscarProvinciaPorId(created.store, Some(s.nextId)).result
           == Success(Response(Ok, Some(ProvinciaDTO(Some(s.nextId), body.nombre, body.pais.value.nombre))))
  {
  }

  /** Creating a province appends its flattened projection to the full
      listing and leaves the earlier entries as they were. */
  lemma ListarAfterGuardar(s: Store, body: Provincia)
    requires Valid(s)
    requires ValidarProvincia(Some(body)).Pass? && body.pais.Some?
    requires ListarLasProvincias(s).result.Success?
    ensures var after := ListarLasProvincias(GuardarProvincia(s, Some(body)).store).result;
      && after.Success?
      && after.value.body.value
           == ListarLasProvincias(s).result.value.body.value
              + [ProvinciaDTO(Some(s.nextId), body.nombre, body.pais.value.nombre)]
  {
  }

  /** On an empty table the full listing answers 200 while a name search
      answers 404, both with an empty list. */
  lemma EmptyTableAsymmetry(s: Store, ignoreCase: (string, string) -> bool, nombre: string)
    requires Valid(s) && s.ids == []
    requires Utf16Length(nombre) >= MinNombre
    ensures ListarLasProvincias(s).result == Success(Response(Ok, Some([])))
    ensures BuscarProvinciasPorNombre(s, ignoreCase, nombre).result == Success(Response(NotFound, Some([])))
    ensures ObtenerProvinciasPorPais(s, nombre).result == Success(Response(NotFound, Some([])))
  {
  }

  /** The two projections agree on key and name, element by element. */
  lemma ProjectionsAgree(ps: seq<Provincia>)
    requires AllHavePais(ps)
    ensures var full := ToProvinciaDTOs(ps).value;
      var scoped := ToProvinciaPaisDTOs(ps);
      && |full| == |scoped|
      && forall i :: 0 <= i < |full| ==> full[i].id == scoped[i].id && full[i].nombre == scoped[i].nombre
  {
  }

  /** A table holding Cordoba (key 1) in Argentina. */
  function CordobaStore(): (s: Store)
    ensures Valid(s)
  {
    Store(map[1 := Provincia(Some(1), Some("Cordoba"), Some(Pais(Some(1), Some("Argentina"))))], [1], 2)
  }

  /** GET /1 on that table answers 200 with `{1, Cordoba, Argentina}`; GET /2
      answers 404. */
  lemma ScenarioBuscarPorId()
    ensures BuscarProvinciaPorId(CordobaStore(), Some(1)).result
      == Success(Response(Ok, Some(ProvinciaDTO(Some(1), Some("Cordoba"), Some("Argentina")))))
    ensures BuscarProvinciaPorId(CordobaStore(), Some(2)).result == Success(Response(NotFound, None))
  {
  }

  /** POST of `{nombre: "Nueva Provincia", pais: {id: 1}}` answers 201 with
      the generated id 2; PUT with a null id answers 400. */
  lemma ScenarioGuardarYActualizar()
    ensures GuardarProvincia(CordobaStore(), Some(Provincia(None, Some("Nueva Provincia"), Some(Pais(Some(1), None))))).result
      == Success(Response(Created, Some(Provincia(Some(2), Some("Nueva Provincia"), Some(Pais(Some(1), None))))))
    ensures ActualizarProvincia(CordobaStore(), Some(Provincia(None, Some("X"), None)))
      == Effect(Success(Response(BadRequest, None)), CordobaStore())
  {
  }
}
