/** The persistent entities and the two response shapes of the province API.
    Every Java reference field is nullable, so each becomes an `Option`. */
module Domain {
  import opened Wrappers

  /** A country: surrogate key (unset until persisted) and a name. */
  datatype Pais = Pais(id: Option<int>, nombre: Option<string>)

  /** A province: surrogate key (unset until persisted), a name and a
      many-to-one reference to its country. */
  datatype Provincia = Provincia(id: Option<int>, nombre: Option<string>, pais: Option<Pais>)

  /** Flattened response shape: the country is reduced to its name. */
  datatype ProvinciaDTO = ProvinciaDTO(id: Option<int>, nombre: Option<string>, pais: Option<string>)

  /** Country-scoped response shape: no country field at all. */
  datatype ProvinciaPaisDTO = ProvinciaPaisDTO(id: Option<int>, nombre: Option<string>)

  /** The length Java's `String.length()` reports: UTF-16 code units, so a
      character outside the Basic Multilingual Plane counts twice. */
  function Utf16Length(s: string): (n: nat)
    ensures |s| <= n <= 2 * |s|
    ensures (forall i :: 0 <= i < |s| ==> (s[i] as int) < 0x1_0000) ==> n == |s|
  {
    if s == [] then 0
    else (if s[0] as int >= 0x1_0000 then 2 else 1) + Utf16Length(s[1..])
  }

  /** The unchecked Java exceptions the core can raise. */
  datatype Exception = IllegalArgument | NullPointer
}
