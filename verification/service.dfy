/** `ProvinciaService`: the validation rules and the seven operations over the
    province table. A call that throws leaves the table as it was. */
module Service {
  import opened Wrappers
  import opened Domain
  import opened Repository

  /** What a service call yields (a value, or the exception it threw) together
      with the table after the call. */
  datatype Effect<T> = Effect(result: Result<T, Exception>, store: Store)

  /** Shortest acceptable name, counted in raw UTF-16 code units as Java's
      `String.length()` counts them (no trimming). */
  const MinNombre: nat := 3

  /** `validarNombre`: rejects a null name or one shorter than `MinNombre`. */
  function ValidarNombre(nombre: Option<string>): (r: Outcome<Exception>)
    ensures r == Pass || r == Fail(IllegalArgument)
    ensures r.Pass? <==> nombre.Some? && Utf16Length(nombre.value) >= MinNombre
  {
    if nombre.None? || Utf16Length(nombre.value) < MinNombre then Fail(IllegalArgument) else Pass
  }

  /** `validarProvincia`: rejects a null province, or one whose name is null
      or shorter than `MinNombre`; the key and the country are not looked at. */
  function ValidarProvincia(p: Option<Provincia>): (r: Outcome<Exception>)
    ensures p.None? ==> r == Fail(IllegalArgument)
    ensures p.Some? ==> r == ValidarNombre(p.value.nombre)
  {
    if p.None? || p.value.nombre.None? || Utf16Length(p.value.nombre.value) < MinNombre then Fail(IllegalArgument)
    else Pass
  }

  /** `buscarPorId`: the stored province, or none (null) when the key is absent. */
  function BuscarPorId(s: Store, id: int): (r: Option<Provincia>)
    ensures r.Some? <==> id in s.rows
    ensures r.Some? ==> r.value == s.rows[id]
    ensures Valid(s) && r.Some? ==> r.value.id == Some(id) && Stored(s, r.value)
  {
    FindById(s, id)
  }

  /** `guardarProvincia`: validates, forgets any client-supplied key and
      inserts under a fresh one. */
  function GuardarProvincia(s: Store, p: Option<Provincia>): (r: Effect<Provincia>)
    requires Valid(s)
    ensures Valid(r.store)
    ensures r.result.Failure? <==> ValidarProvincia(p).Fail?
    ensures r.result.Failure? ==> r.result.error == IllegalArgument && r.store == s
    ensures r.result.Success? ==>
      var e := r.result.value;
      && e == p.value.(id := Some(s.nextId))
      && s.nextId !in s.rows
      && r.store.rows == s.rows[s.nextId := e]
      && r.store.ids == s.ids + [s.nextId]
    ensures s.nextId <= r.store.nextId
  {
    match ValidarProvincia(p)
    case Fail(err) => Effect(Failure(err), s)
    case Pass =>
      var saved := Save(s, p.value.(id := None));
      Effect(Success(saved.entity), saved.store)
  }

  /** `modificarProvincia`: validates, then writes the province at its own
      key (a province without key is inserted like a new one). */
  function ModificarProvincia(s: Store, p: Option<Provincia>): (r: Effect<Provincia>)
    requires Valid(s)
    ensures Valid(r.store)
    ensures r.result.Failure? <==> ValidarProvincia(p).Fail?
    ensures r.result.Failure? ==> r.result.error == IllegalArgument && r.store == s
    ensures r.result.Success? && p.value.id.Some? ==>
      var k := p.value.id.value;
      && r.result.value == p.value
      && r.store.rows == s.rows[k := p.value]
      && r.store.ids == (if k in s.rows then s.ids else s.ids + [k])
    ensures r.result.Success? && p.value.id.None? ==>
      && r.result.value == p.value.(id := Some(s.nextId))
      && s.nextId !in s.rows
      && r.store.rows == s.rows[s.nextId := r.result.value]
    ensures s.nextId <= r.store.nextId
  {
    match ValidarProvincia(p)
    case Fail(err) => Effect(Failure(err), s)
    case Pass =>
      var saved := Save(s, p.value);
      Effect(Success(saved.entity), saved.store)
  }

  /** `eliminarProvincia`: removes the province under `id`, if there is one. */
  function EliminarProvincia(s: Store, id: int): (r: Store)
    requires Valid(s)
    ensures Valid(r)
    ensures r.rows == s.rows - {id}
    ensures forall p :: Stored(r, p) <==> Stored(s, p) && p.id != Some(id)
    ensures r.nextId == s.nextId
  {
    DeleteById(s, id)
  }

  /** `buscarTodasLasProvincias`: the table's listing, passed through. */
  function BuscarTodasLasProvincias(s: Store): (r: seq<Provincia>)
    requires Valid(s)
    ensures |r| == |s.ids|
    ensures forall i :: 0 <= i < |r| ==> r[i] == s.rows[s.ids[i]]
    ensures forall p :: p in r <==> Stored(s, p)
  {
    FindAll(s)
  }

  /** `buscarProvinciasPorNombreExacto`: validates the name, then returns the
      stored provinces whose name equals it up to case, in listing order. */
  function BuscarProvinciasPorNombreExacto(s: Store, ignoreCase: (string, string) -> bool, nombre: Option<string>)
    : (r: Result<seq<Provincia>, Exception>)
    requires Valid(s)
    ensures r.Failure? <==> nombre.None? || Utf16Length(nombre.value) < MinNombre
    ensures r.Failure? ==> r.error == IllegalArgument
    ensures r.Success? ==> forall p :: p in r.value <==> Stored(s, p) && NombreMatches(ignoreCase, p, nombre.value)
    ensures r.Success? ==> Subsequence(r.value, FindAll(s))
  {
    match ValidarNombre(nombre)
    case Fail(err) => Failure(err)
    case Pass => Success(FindByNombreIgnoreCase(s, ignoreCase, nombre.value))
  }

  /** `obtenerProvinciasPorNombrePais`: validates the country name, then
      returns the stored provinces of the country with exactly that name. */
  function ObtenerProvinciasPorNombrePais(s: Store, nombrePais: Option<string>): (r: Result<seq<Provincia>, Exception>)
    requires Valid(s)
    ensures r.Failure? <==> nombrePais.None? || Utf16Length(nombrePais.value) < MinNombre
    ensures r.Failure? ==> r.error == IllegalArgument
    ensures r.Success? ==> forall p :: p in r.value <==> Stored(s, p) && PaisNombreIs(p, nombrePais.value)
    ensures r.Success? ==> Subsequence(r.value, FindAll(s))
  {
    match ValidarNombre(nombrePais)
    case Fail(err) => Failure(err)
    case Pass => Success(FindByNombrePais(s, nombrePais.value))
  }

  /** A case-insensitive equality behaves as an equivalence relation. */
  ghost predicate IsEquivalence(ignoreCase: (string, string) -> bool) {
    && (forall a :: ignoreCase(a, a))
    && (forall a, b :: ignoreCase(a, b) ==> ignoreCase(b, a))
    && (forall a, b, c :: ignoreCase(a, b) && ignoreCase(b, c) ==> ignoreCase(a, c))
  }

  /** Validating a province is validating its name: its key and its country
      never influence the verdict. */
  lemma ValidarProvinciaChecksOnlyNombre(p: Provincia, id: Option<int>, pais: Option<Pais>)
    ensures ValidarProvincia(Some(p)) == ValidarNombre(p.nombre)
    ensures ValidarProvincia(Some(p)) == ValidarProvincia(Some(p.(id := id, pais := pais)))
  {
  }

  /** The length rule counts raw UTF-16 code units: blanks are not trimmed,
      so a name of three blanks passes and a two-letter name does not, while
      one emoji plus one letter is three units long and passes. */
  lemma ValidarNombreCountsRawLength()
    ensures ValidarNombre(Some("   ")) == Pass
    ensures ValidarNombre(Some("  a")) == Pass
    ensures ValidarNombre(Some("\U{1F600}a")) == Pass
    ensures ValidarNombre(Some("\U{1F600}")) == Fail(IllegalArgument)
    ensures ValidarNombre(Some("ab")) == Fail(IllegalArgument)
    ensures ValidarNombre(Some("")) == Fail(IllegalArgument)
    ensures ValidarNombre(None) == Fail(IllegalArgument)
  {
  }

  /** Whatever key the client sends with a new province, the outcome is the
      same: the key is discarded before insertion. */
  lemma GuardarDiscardsClientId(s: Store, p: Provincia, id: Option<int>)
    requires Valid(s)
    ensures GuardarProvincia(s, Some(p)) == GuardarProvincia(s, Some(p.(id := id)))
  {
  }

  /** A saved province is found again under its generated key; every other
      key answers as before. */
  lemma GuardarThenBuscar(s: Store, p: Option<Provincia>, k: int)
    requires Valid(s)
    requires GuardarProvincia(s, p).result.Success?
    ensures var r := GuardarProvincia(s, p);
      && BuscarPorId(r.store, s.nextId) == Some(r.result.value)
      && (k != s.nextId ==> BuscarPorId(r.store, k) == BuscarPorId(s, k))
  {
  }

  /** Saving appends the new province to the end of the listing and leaves
      the rest of the listing as it was. */
  lemma GuardarAppendsToListing(s: Store, p: Option<Provincia>)
    requires Valid(s)
    requires GuardarProvincia(s, p).result.Success?
    ensures var r := GuardarProvincia(s, p);
      BuscarTodasLasProvincias(r.store) == BuscarTodasLasProvincias(s) + [r.result.value]
  {
  }

  /** A province modified under an existing key is found again with exactly
      the submitted fields; every other key answers as before. */
  lemma ModificarThenBuscar(s: Store, p: Provincia, k: int)
    requires Valid(s)
    requires p.id.Some?
    requires ModificarProvincia(s, Some(p)).result.Success?
    ensures var r := ModificarProvincia(s, Some(p));
      && BuscarPorId(r.store, p.id.value) == Some(p)
      && (k != p.id.value ==> BuscarPorId(r.store, k) == BuscarPorId(s, k))
  {
  }

  /** Modifying a province that is already stored replaces it in place: the
      listing keeps its length and order, only that entry changes. */
  lemma ModificarReplacesInPlace(s: Store, p: Provincia)
    requires Valid(s)
    requires p.id.Some? && p.id.value in s.rows
    requires ModificarProvincia(s, Some(p)).result.Success?
    ensures var before := BuscarTodasLasProvincias(s);
      var after := BuscarTodasLasProvincias(ModificarProvincia(s, Some(p)).store);
      && |after| == |before|
      && forall i :: 0 <= i < |before| ==> after[i] == if s.ids[i] == p.id.value then p else before[i]
  {
  }

  /** After deleting a key nothing is found under it; every other key
      answers as before. */
  lemma EliminarThenBuscar(s: Store, id: int, k: int)
    requires Valid(s)
    ensures BuscarPorId(EliminarProvincia(s, id), id).None?
    ensures k != id ==> BuscarPorId(EliminarProvincia(s, id), k) == BuscarPorId(s, k)
  {
  }

  /** Deleting the same key twice is the same as deleting it once, so a
      missing key is silently accepted. */
  lemma EliminarIsIdempotent(s: Store, id: int)
    requires Valid(s)
    ensures EliminarProvincia(EliminarProvincia(s, id), id) == EliminarProvincia(s, id)
  {
    FilterIdempotent(s.ids, k => k != id);
  }

  /** Deleting removes exactly the province under that key from the listing
      and keeps the order of the others. */
  lemma EliminarShrinksListing(s: Store, id: int)
    requires Valid(s)
    ensures var after := BuscarTodasLasProvincias(EliminarProvincia(s, id));
      && (forall p :: p in after <==> p in BuscarTodasLasProvincias(s) && p.id != Some(id))
      && Subsequence(EliminarProvincia(s, id).ids, s.ids)
  {
  }

  /** The exact-name lookup is case-insensitive: two names that the
      comparison `upper(a) = upper(b)` equates select the same provinces, in the same order. */
  lemma BuscarPorNombreIgnoresCase(s: Store, ignoreCase: (string, string) -> bool, a: string, b: string)
    requires Valid(s)
    requires IsEquivalence(ignoreCase) && ignoreCase(a, b)
    requires Utf16Length(a) >= MinNombre && Utf16Length(b) >= MinNombre
    ensures BuscarProvinciasPorNombreExacto(s, ignoreCase, Some(a)) == BuscarProvinciasPorNombreExacto(s, ignoreCase, Some(b))
  {
    FilterCongruent(FindAll(s), p => NombreMatches(ignoreCase, p, a), p => NombreMatches(ignoreCase, p, b));
  }

  /** Every stored province has a non-null name at least `MinNombre` long:
      the invariant the two validators exist to protect. */
  ghost predicate NamesValid(s: Store) {
    forall k :: k in s.rows ==> ValidarNombre(s.rows[k].nombre).Pass?
  }

  /** Saving, modifying and deleting keep every stored name valid. */
  lemma WritesKeepNamesValid(s: Store, p: Option<Provincia>, id: int)
    requires Valid(s) && NamesValid(s)
    ensures NamesValid(GuardarProvincia(s, p).store)
    ensures NamesValid(ModificarProvincia(s, p).store)
    ensures NamesValid(EliminarProvincia(s, id))
  {
  }

  /** Keys are never reused: after a deletion, the next save is given a key
      different from the deleted one, and from every key still stored. */
  lemma KeysNeverReused(s: Store, id: int, p: Option<Provincia>)
    requires Valid(s) && id in s.rows
    requires GuardarProvincia(EliminarProvincia(s, id), p).result.Success?
    ensures var e := GuardarProvincia(EliminarProvincia(s, id), p).result.value;
      e.id.value != id && e.id.value !in s.rows
  {
  }
}
