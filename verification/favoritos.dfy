/** The `favorito` table and the `Favorito` constructor.

    Unlike the declared mapping, a row here carries its owner in `usuario`.
    The class declares no such column, yet both controller queries filter on
    it (controller/favorito.py:82 and :110) and the creation path hands the
    new row to its owner through `usuario.adiciona_favorito` (line 40), a
    method model/usuario.py does not define. The model follows that evident
    intent: every favorite records the id of the account that created it. */
module Favoritos {
  import opened Common

  /** `Column(Integer, default=0)`: the like count a new favorite starts at. */
  const CURTIDAS_DEFAULT: int := 0

  /** A row of `favorito`. */
  datatype Favorito = Favorito(
    id: int,
    usuario: int,
    url: string,
    titulo: string,
    descricao: string,
    curtidas: int,
    dataInsercao: Instant)

  /** A `Favorito` object after its constructor ran and before it is flushed:
      it has no id and no owner yet. */
  datatype Draft = Draft(url: string, titulo: string, descricao: string, curtidas: int, dataInsercao: Instant)

  /** The constructor. A given `data_insercao` is stored; otherwise the
      column default applies. That default is `datetime.now()` evaluated
      ONCE, when the module is imported, so it is the fixed instant
      `importedAt`, not the instant of the call. (A `datetime` is always
      truthy, so "truthy" and "given" coincide.) */
  function NovoFavorito(url: string, titulo: string, descricao: string, curtidas: int,
                        dataInsercao: Option<Instant>, importedAt: Instant): (d: Draft)
    ensures d.url == url && d.titulo == titulo && d.descricao == descricao && d.curtidas == curtidas
    ensures dataInsercao.Some? ==> d.dataInsercao == dataInsercao.value
    ensures dataInsercao.None? ==> d.dataInsercao == importedAt
  {
    Draft(url, titulo, descricao, curtidas,
          match dataInsercao case Some(t) => t case None => importedAt)
  }

  /** Every favorite constructed without a timestamp gets the same instant,
      however far apart the constructions are: a corollary of
      `NovoFavorito`'s contract, stated for the import-time default. */
  lemma DefaultInstantIsShared(a: Draft, b: Draft, importedAt: Instant,
                               u1: string, t1: string, d1: string, c1: int,
                               u2: string, t2: string, d2: string, c2: int)
    requires a == NovoFavorito(u1, t1, d1, c1, None, importedAt)
    requires b == NovoFavorito(u2, t2, d2, c2, None, importedAt)
    ensures a.dataInsercao == b.dataInsercao
  {
  }

  /** Column `id` is the primary key. */
  ghost predicate UniqueIds(fs: seq<Favorito>) {
    forall i, j :: 0 <= i < j < |fs| ==> fs[i].id != fs[j].id
  }

  /** The result of an insert: the new table and the row as stored. */
  datatype Inserted = Inserted(store: seq<Favorito>, row: Favorito)

  /** `session.add(favorito); session.commit()` for a favorite owned by
      `usuario`: the draft's fields are stored unchanged under a fresh id. */
  function Insert(fs: seq<Favorito>, d: Draft, usuario: int): (r: Inserted)
    ensures r.store == fs + [r.row]
    ensures r.row.url == d.url && r.row.titulo == d.titulo && r.row.descricao == d.descricao
    ensures r.row.curtidas == d.curtidas && r.row.dataInsercao == d.dataInsercao
    ensures r.row.usuario == usuario
    ensures forall i :: 0 <= i < |fs| ==> fs[i].id < r.row.id
    ensures UniqueIds(fs) ==> UniqueIds(r.store)
  {
    var row := Favorito(NextRowId(Column(fs, (f: Favorito) => f.id)), usuario, d.url, d.titulo, d.descricao, d.curtidas, d.dataInsercao);
    Inserted(fs + [row], row)
  }

  /** `WHERE usuario = usuario`: the favorites of one account. */
  function Owned(fs: seq<Favorito>, usuario: int): (r: seq<Favorito>)
    ensures forall f :: f in r ==> f.usuario == usuario
    ensures forall f :: f in fs && f.usuario == usuario ==> f in r
    ensures forall f :: f in r ==> f in fs
    ensures forall x :: multiset(r)[x] == if x.usuario == usuario then multiset(fs)[x] else 0
  {
    var r := Filter(fs, (f: Favorito) => f.usuario == usuario);
    assert forall f :: f in fs ==> f in multiset(fs);
    r
  }

  /** Keeping only some rows keeps the ids unique. */
  lemma {:induction false} FilterKeepsIdsUnique(fs: seq<Favorito>, keep: Favorito -> bool)
    requires UniqueIds(fs)
    ensures UniqueIds(Filter(fs, keep))
    decreases |fs|
  {
    if |fs| > 0 {
      var rest := Filter(fs[1..], keep);
      FilterKeepsIdsUnique(fs[1..], keep);
      if keep(fs[0]) {
        forall g | g in rest ensures g.id != fs[0].id {
          var j :| 0 <= j < |fs[1..]| && fs[1..][j] == g;
          assert fs[j + 1] == g;
        }
        ConsKeepsIdsUnique(fs[0], rest);
        assert Filter(fs, keep) == [fs[0]] + rest;
      } else {
        assert Filter(fs, keep) == rest;
      }
    }
  }

  lemma ConsKeepsIdsUnique(f: Favorito, rest: seq<Favorito>)
    requires UniqueIds(rest)
    requires forall g :: g in rest ==> g.id != f.id
    ensures UniqueIds([f] + rest)
  {
    var r := [f] + rest;
    forall i, j | 0 <= i < j < |r| ensures r[i].id != r[j].id {
      if i == 0 { assert r[j] == rest[j - 1]; }
      else { assert r[i] == rest[i - 1] && r[j] == rest[j - 1]; }
    }
  }

  /** `WHERE id = id AND usuario = usuario`. */
  predicate Selected(f: Favorito, id: int, usuario: int) {
    f.id == id && f.usuario == usuario
  }

  /** The table after `DELETE ... WHERE id = id AND usuario = usuario`:
      the selected rows are gone and every other row stays, in order. */
  function Remaining(fs: seq<Favorito>, id: int, usuario: int): (r: seq<Favorito>)
    ensures |r| <= |fs|
    ensures forall x :: multiset(r)[x] == if Selected(x, id, usuario) then 0 else multiset(fs)[x]
  {
    Filter(fs, (f: Favorito) => !Selected(f, id, usuario))
  }

  /** The result of a delete: the new table and the number of rows deleted. */
  datatype Deleted = Deleted(store: seq<Favorito>, count: nat)

  /** `query.filter_by(id=id, usuario=usuario).delete()`: the selected rows
      leave the table and the count of deleted rows is returned. */
  function Delete(fs: seq<Favorito>, id: int, usuario: int): (r: Deleted)
    ensures r.store == Remaining(fs, id, usuario)
    ensures r.count == |fs| - |r.store|
    ensures r.count == 0 <==> forall f :: f in fs ==> !Selected(f, id, usuario)
    ensures r.count == 0 ==> r.store == fs
    ensures UniqueIds(fs) ==> r.count <= 1 && UniqueIds(r.store)
  {
    var r := Remaining(fs, id, usuario);
    NoneSelected(fs, id, usuario);
    SomeSelected(fs, id, usuario);
    AtMostOneSelected(fs, id, usuario);
    RemainingKeepsIdsUnique(fs, id, usuario);
    Deleted(r, |fs| - |r|)
  }

  /** A table with unique ids holds at most one row of a given id, so a
      delete by id removes at most one row. */
  lemma {:induction false} AtMostOneSelected(fs: seq<Favorito>, id: int, usuario: int)
    ensures UniqueIds(fs) ==> |fs| - |Remaining(fs, id, usuario)| <= 1
    decreases |fs|
  {
    if |fs| > 0 && UniqueIds(fs) {
      assert fs == [fs[0]] + fs[1..];
      AtMostOneSelected(fs[1..], id, usuario);
      if Selected(fs[0], id, usuario) {
        NoneSelected(fs[1..], id, usuario);
      }
    }
  }

  /** Deleting when no row is selected changes nothing. */
  lemma {:induction false} NoneSelected(fs: seq<Favorito>, id: int, usuario: int)
    ensures (forall f :: f in fs ==> !Selected(f, id, usuario)) ==> Remaining(fs, id, usuario) == fs
    decreases |fs|
  {
    if |fs| > 0 && forall f :: f in fs ==> !Selected(f, id, usuario) {
      NoneSelected(fs[1..], id, usuario);
      assert !Selected(fs[0], id, usuario);
      assert fs == [fs[0]] + fs[1..];
    }
  }

  /** Deleting when some row is selected removes at least one row. */
  lemma SomeSelected(fs: seq<Favorito>, id: int, usuario: int)
    ensures (exists f :: f in fs && Selected(f, id, usuario)) ==> |Remaining(fs, id, usuario)| < |fs|
  {
    if f :| f in fs && Selected(f, id, usuario) {
      var r := Remaining(fs, id, usuario);
      var gone := multiset(fs) - multiset(r);
      assert f in gone;
      assert multiset(fs) == multiset(r) + gone;
      assert |gone| >= 1;
    }
  }

  /** Deleting keeps the ids unique. */
  lemma RemainingKeepsIdsUnique(fs: seq<Favorito>, id: int, usuario: int)
    ensures UniqueIds(fs) ==> UniqueIds(Remaining(fs, id, usuario))
  {
    if UniqueIds(fs) {
      FilterKeepsIdsUnique(fs, (f: Favorito) => !Selected(f, id, usuario));
    }
  }
}
