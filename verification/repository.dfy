/** The province table behind the JPA repository, as a value: rows by primary
    key, the order in which the table lists them, and the IDENTITY counter
    that hands out fresh keys. Derived queries are filters over that listing. */
module Repository {
  import opened Wrappers
  import opened Domain

  datatype Store = Store(rows: map<int, Provincia>, ids: seq<int>, nextId: int)

  /** No element occurs twice. */
  ghost predicate Distinct<T>(xs: seq<T>) {
    forall i, j :: 0 <= i < j < |xs| ==> xs[i] != xs[j]
  }

  /** `xs` is `ys` with some elements left out, the rest in their order. */
  ghost predicate Subsequence<T>(xs: seq<T>, ys: seq<T>)
    decreases |ys|
  {
    if xs == [] then true
    else if ys == [] then false
    else if xs[0] == ys[0] then Subsequence(xs[1..], ys[1..])
    else Subsequence(xs, ys[1..])
  }

  /** The table's invariant: `ids` lists every key exactly once, each row
      carries its own key, and every key lies below the IDENTITY counter. */
  ghost predicate Valid(s: Store) {
    && Distinct(s.ids)
    && (forall i :: 0 <= i < |s.ids| ==> s.ids[i] in s.rows)
    && (forall k :: k in s.rows ==> k in s.ids)
    && (forall k :: k in s.rows ==> k < s.nextId && s.rows[k].id == Some(k))
  }

  /** The elements of `xs` that satisfy `keep`, in their original order. */
  function Filter<T(!new)>(xs: seq<T>, keep: T -> bool): (r: seq<T>)
    ensures forall x :: x in r <==> x in xs && keep(x)
    ensures |r| <= |xs|
  {
    if xs == [] then []
    else if keep(xs[0]) then [xs[0]] + Filter(xs[1..], keep)
    else Filter(xs[1..], keep)
  }

  lemma {:induction false} FilterIsSubsequence<T(!new)>(xs: seq<T>, keep: T -> bool)
    ensures Subsequence(Filter(xs, keep), xs)
    decreases |xs|
  {
    if xs != [] {
      FilterIsSubsequence(xs[1..], keep);
      var rest := Filter(xs[1..], keep);
      if !keep(xs[0]) && rest != [] {
        assert rest[0] in rest;
      }
    }
  }

  lemma {:induction false} FilterKeepsDistinct<T(!new)>(xs: seq<T>, keep: T -> bool)
    requires Distinct(xs)
    ensures Distinct(Filter(xs, keep))
    decreases |xs|
  {
    if xs != [] {
      assert Distinct(xs[1..]) by {
        forall i, j | 0 <= i < j < |xs[1..]| ensures xs[1..][i] != xs[1..][j] {
          assert xs[1..][i] == xs[i + 1] && xs[1..][j] == xs[j + 1];
        }
      }
      FilterKeepsDistinct(xs[1..], keep);
      if keep(xs[0]) {
        var rest := Filter(xs[1..], keep);
        assert xs[0] !in xs[1..] by {
          forall j | 0 <= j < |xs[1..]| ensures xs[1..][j] != xs[0] {
            assert xs[1..][j] == xs[j + 1];
          }
        }
        var r := [xs[0]] + rest;
        forall i, j | 0 <= i < j < |r| ensures r[i] != r[j] {
          if i == 0 { assert r[j] == rest[j - 1] && rest[j - 1] in rest; }
          else { assert r[i] == rest[i - 1] && r[j] == rest[j - 1]; }
        }
      }
    }
  }

  /** Filtering twice with the same condition filters once. */
  lemma {:induction false} FilterIdempotent<T(!new)>(xs: seq<T>, keep: T -> bool)
    ensures Filter(Filter(xs, keep), keep) == Filter(xs, keep)
    decreases |xs|
  {
    if xs != [] {
      FilterIdempotent(xs[1..], keep);
      if keep(xs[0]) {
        var rest := Filter(xs[1..], keep);
        assert ([xs[0]] + rest)[1..] == rest;
      }
    }
  }

  /** Two conditions that agree on every element select the same elements. */
  lemma {:induction false} FilterCongruent<T(!new)>(xs: seq<T>, f: T -> bool, g: T -> bool)
    requires forall x :: x in xs ==> f(x) == g(x)
    ensures Filter(xs, f) == Filter(xs, g)
    decreases |xs|
  {
    if xs != [] {
      assert xs[0] in xs;
      forall x | x in xs[1..] ensures f(x) == g(x) {
        var j :| 0 <= j < |xs[1..]| && xs[1..][j] == x;
        assert xs[j + 1] == x;
      }
      FilterCongruent(xs[1..], f, g);
    }
  }

  /** `findById`: the row stored under `id`, or none. */
  function FindById(s: Store, id: int): (r: Option<Provincia>)
    ensures r.Some? <==> id in s.rows
    ensures r.Some? ==> r.value == s.rows[id]
  {
    if id in s.rows then Some(s.rows[id]) else None
  }

  datatype Saved = Saved(entity: Provincia, store: Store)

  /** `save`: an entity without a key is inserted under the next IDENTITY
      value; an entity with a key is written at that key, replacing any row
      there (JPA merge). Rows already listed keep their place. */
  function Save(s: Store, p: Provincia): (r: Saved)
    requires Valid(s)
    ensures Valid(r.store)
    ensures r.entity.nombre == p.nombre && r.entity.pais == p.pais
    ensures p.id.Some? ==> r.entity.id == p.id
    ensures p.id.None? ==> r.entity.id == Some(s.nextId) && s.nextId !in s.rows
    ensures r.entity.id.Some? && r.store.rows == s.rows[r.entity.id.value := r.entity]
    ensures r.store.ids == if r.entity.id.value in s.rows then s.ids else s.ids + [r.entity.id.value]
    ensures s.nextId <= r.store.nextId
  {
    var k := if p.id.Some? then p.id.value else s.nextId;
    var e := p.(id := Some(k));
    var ids := if k in s.rows then s.ids else s.ids + [k];
    Saved(e, Store(s.rows[k := e], ids, if k < s.nextId then s.nextId else k + 1))
  }

  /** `deleteById`: removes the row under `id`; a missing key is a no-op. */
  function DeleteById(s: Store, id: int): (r: Store)
    requires Valid(s)
    ensures Valid(r)
    ensures r.rows == s.rows - {id}
    ensures Subsequence(r.ids, s.ids)
    ensures r.nextId == s.nextId
  {
    var ids := Filter(s.ids, k => k != id);
    FilterIsSubsequence(s.ids, k => k != id);
    FilterKeepsDistinct(s.ids, k => k != id);
    forall i | 0 <= i < |ids| ensures ids[i] in s.rows - {id} {
      assert ids[i] in ids;
      var j :| 0 <= j < |s.ids| && s.ids[j] == ids[i];
    }
    Store(s.rows - {id}, ids, s.nextId)
  }

  /** `p` is the row the table holds under `p`'s own key. */
  ghost predicate Stored(s: Store, p: Provincia) {
    p.id.Some? && p.id.value in s.rows && s.rows[p.id.value] == p
  }

  /** `findAll`: every stored row, exactly once, in the table's listing order. */
  function FindAll(s: Store): (r: seq<Provincia>)
    requires Valid(s)
    ensures |r| == |s.ids|
    ensures forall i :: 0 <= i < |r| ==> r[i] == s.rows[s.ids[i]]
    ensures forall p :: p in r <==> Stored(s, p)
    ensures Distinct(r)
  {
    var r := seq(|s.ids|, i requires 0 <= i < |s.ids| => s.rows[s.ids[i]]);
    forall p | Stored(s, p) ensures p in r {
      var i :| 0 <= i < |s.ids| && s.ids[i] == p.id.value;
      assert r[i] == p;
    }
    forall i | 0 <= i < |r| ensures Stored(s, r[i]) && r[i].id == Some(s.ids[i]) {
      var k := s.ids[i];
      assert k in s.rows;
      assert r[i] == s.rows[k];
      assert s.rows[k].id == Some(k);
    }
    forall i, j | 0 <= i < j < |r| ensures r[i] != r[j] {
      assert r[i].id == Some(s.ids[i]) && r[j].id == Some(s.ids[j]);
    }
    r
  }

  /** The JPQL condition `p.pais.nombre = :nombrePais` (an inner join, so a
      province without country never matches). */
  predicate PaisNombreIs(p: Provincia, nombrePais: string) {
    p.pais.Some? && p.pais.value.nombre == Some(nombrePais)
  }

  /** The derived condition of `findByNombreIgnoreCase`: Spring Data turns
      the `IgnoreCase` keyword into `upper(nombre) = upper(argument)`, kept
      abstract here as the comparison `ignoreCase`; a null name never
      matches. */
  predicate NombreMatches(ignoreCase: (string, string) -> bool, p: Provincia, nombre: string) {
    p.nombre.Some? && ignoreCase(p.nombre.value, nombre)
  }

  /** `findByNombrePais`: the listed rows whose country is named `nombrePais`. */
  function FindByNombrePais(s: Store, nombrePais: string): (r: seq<Provincia>)
    requires Valid(s)
    ensures forall p :: p in r <==> Stored(s, p) && PaisNombreIs(p, nombrePais)
    ensures Subsequence(r, FindAll(s))
  {
    FilterIsSubsequence(FindAll(s), p => PaisNombreIs(p, nombrePais));
    Filter(FindAll(s), p => PaisNombreIs(p, nombrePais))
  }

  /** `findByNombreIgnoreCase`: the listed rows whose name equals `nombre`
      up to case. */
  function FindByNombreIgnoreCase(s: Store, ignoreCase: (string, string) -> bool, nombre: string): (r: seq<Provincia>)
    requires Valid(s)
    ensures forall p :: p in r <==> Stored(s, p) && NombreMatches(ignoreCase, p, nombre)
    ensures Subsequence(r, FindAll(s))
  {
    FilterIsSubsequence(FindAll(s), p => NombreMatches(ignoreCase, p, nombre));
    Filter(FindAll(s), p => NombreMatches(ignoreCase, p, nombre))
  }
}
