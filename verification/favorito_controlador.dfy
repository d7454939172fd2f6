/** `FavoritoControlador`: create, list and delete favorites.

    Each handler is a function from the request (token header, form, the
    current instant) and the `favorito` table to the response and the table
    as the handler leaves it. Three handlers cannot succeed as the code is
    written; the functions without a suffix model the evident intent and the
    `...AsWritten` ones model the code as it stands:
    - creation builds `Favorito(...)` without `curtidas`, a required
      constructor argument, so it always raises and answers 400;
    - "my favorites" and delete filter on `Favorito.usuario`, a column the
      mapping does not declare, so they always raise and answer 400. */
module FavoritoControlador {
  import opened Common
  import opened Auth
  import Usuarios
  import opened Favoritos
  import opened Query
  import opened Schemas

  /** `.limit(10)` of both listings. */
  const LIMITE: nat := 10

  const TOKEN_INVALIDO: string := "Token não fornecido ou inválido."
  const FALHA_CADASTRO: string := "Não foi possível adicionar o favorito."
  const FALHA_BUSCA: string := "Não foi possível obter os favoritos."
  const FALHA_REMOCAO: string := "Não foi possível encontrar o favorito."

  /** `FavoritoSchema`. Its `id` (default 1) is never read. */
  datatype FavoritoForm = FavoritoForm(id: int, url: string, titulo: string, descricao: string)

  /** The answer to every token failure: missing header, undecodable token,
      bad signature or algorithm, and expiry alike. */
  function NaoAutorizado(): Response {
    Response(Message(TOKEN_INVALIDO), 401)
  }

  /** `vs` is what an `ORDER BY data_insercao DESC LIMIT n` over `fs` shows:
      min(n, |fs|) views of rows of `fs`, no view more often than the rows
      of `fs` yield it, newest first, and every row of `fs` strictly newer
      than the last one shown is shown. */
  ghost predicate NewestListing(vs: seq<FavoritoView>, fs: seq<Favorito>, n: nat) {
    && |vs| == (if |fs| < n then |fs| else n)
    && multiset(vs) <= multiset(Views(fs))
    && (forall i, j :: 0 <= i < j < |vs| ==> vs[j].dataInsercao <= vs[i].dataInsercao)
    && (forall v :: v in vs ==> exists f :: f in fs && ViewOf(f) == v)
    && (forall g :: g in fs && |vs| > 0 && vs[|vs| - 1].dataInsercao < g.dataInsercao ==> ViewOf(g) in vs)
  }

  lemma NewestIsListing(fs: seq<Favorito>, n: nat)
    ensures NewestListing(Views(Newest(fs, n)), fs, n)
  {
    ListedAreRows(fs, n);
    NewerAreListed(fs, n);
    ViewsKeepSubMultiset(Newest(fs, n), fs);
  }

  /** A listing never repeats a row beyond its multiplicity in the table:
      showing the newer of two favorites twice is not a listing of them. */
  lemma RepeatedRowIsNotAListing()
    ensures var a := Favorito(1, 7, "u", "t", "d", 0, 5);
            var b := Favorito(2, 7, "v", "s", "e", 0, 1);
            !NewestListing([ViewOf(a), ViewOf(a)], [a, b], 2)
  {
    var a := Favorito(1, 7, "u", "t", "d", 0, 5);
    var b := Favorito(2, 7, "v", "s", "e", 0, 1);
    assert Views([a, b]) == [ViewOf(a), ViewOf(b)];
    assert ViewOf(a) != ViewOf(b);
    assert multiset([ViewOf(a), ViewOf(a)])[ViewOf(a)] == 2;
    assert multiset([ViewOf(a), ViewOf(b)])[ViewOf(a)] == 1;
  }

  lemma ListedAreRows(fs: seq<Favorito>, n: nat)
    ensures forall v :: v in Views(Newest(fs, n)) ==> exists f :: f in fs && ViewOf(f) == v
  {
    var rows := Newest(fs, n);
    var vs := Views(rows);
    forall v | v in vs ensures exists f :: f in fs && ViewOf(f) == v {
      var i :| 0 <= i < |vs| && vs[i] == v;
      assert rows[i] in multiset(rows);
      assert rows[i] in fs;
    }
  }

  lemma NewerAreListed(fs: seq<Favorito>, n: nat)
    ensures var vs := Views(Newest(fs, n));
            forall g :: g in fs && |vs| > 0 && vs[|vs| - 1].dataInsercao < g.dataInsercao ==> ViewOf(g) in vs
  {
    var rows := Newest(fs, n);
    var vs := Views(rows);
    forall g | g in fs && |vs| > 0 && vs[|vs| - 1].dataInsercao < g.dataInsercao ensures ViewOf(g) in vs {
      assert vs[|vs| - 1] == ViewOf(rows[|rows| - 1]);
      NewerRowIsListed(rows, fs, g);
    }
  }

  lemma NewerRowIsListed(rows: seq<Favorito>, fs: seq<Favorito>, g: Favorito)
    requires NewestSlice(rows, fs)
    requires g in fs && |rows| > 0 && rows[|rows| - 1].dataInsercao < g.dataInsercao
    ensures ViewOf(g) in Views(rows)
  {
    assert multiset(rows)[g] == multiset(fs)[g];
    var i :| 0 <= i < |rows| && rows[i] == g;
    assert Views(rows)[i] == ViewOf(g);
  }

  /** `cadastrar_favorito`, as intended: the caller's token is checked, the
      caller's account is looked up, and a favorite with the form's url,
      titulo and descricao, `curtidas` 0 and `data_insercao` = now is stored
      under the caller's id and returned. An account id the table does not
      hold makes `usuario` None, the call on it raises, and the answer is
      400 with nothing stored. */
  function CadastrarFavorito(usuarios: seq<Usuarios.Usuario>, store: seq<Favorito>, header: Option<Token>,
                             form: FavoritoForm, now: Instant): (r: Handled<seq<Favorito>>)
    ensures r.response.status == 200 || r.response.status == 400 || r.response.status == 401
    ensures r.response.status == 401 <==> !ValidarToken(header, now).Valid?
    ensures r.response.status == 401 ==> r.response == NaoAutorizado()
    ensures r.response.status == 200 <==>
              ValidarToken(header, now).Valid? &&
              exists i :: 0 <= i < |usuarios| && usuarios[i].id == ValidarToken(header, now).payload.id
    ensures r.response.status != 200 ==> r.state == store
    ensures r.response.status == 200 ==>
              && |r.state| == |store| + 1 && r.state[..|store|] == store
              && r.state[|store|].url == form.url
              && r.state[|store|].titulo == form.titulo
              && r.state[|store|].descricao == form.descricao
              && r.state[|store|].curtidas == 0
              && r.state[|store|].dataInsercao == now
              && r.state[|store|].usuario == ValidarToken(header, now).payload.id
              && (forall i :: 0 <= i < |store| ==> store[i].id < r.state[|store|].id)
              && r.response.body == FavoritoBody(ViewOf(r.state[|store|]))
    ensures UniqueIds(store) ==> UniqueIds(r.state)
  {
    var v := ValidarToken(header, now);
    if !v.Valid? then Handled(NaoAutorizado(), store)
    else
      match Usuarios.FindById(usuarios, v.payload.id)
      case None => Handled(Response(Message(FALHA_CADASTRO), 400), store)
      case Some(u) =>
        // The source omits `curtidas` here; the intended value is the column
        // default. The timestamp is given, so the import-time default is
        // never consulted.
        var draft := NovoFavorito(form.url, form.titulo, form.descricao, CURTIDAS_DEFAULT, Some(now), now);
        // `usuario.adiciona_favorito(favorito)`: the new row belongs to `u`.
        var ins := Insert(store, draft, u.id);
        Handled(ApresentaFavorito(ins.row), ins.store)
  }

  /** `cadastrar_favorito` as written: past the token check the constructor
      call raises `TypeError` for the missing `curtidas`, and the handler
      answers 400 without storing anything. */
  function CadastrarFavoritoAsWritten(usuarios: seq<Usuarios.Usuario>, store: seq<Favorito>, header: Option<Token>,
                                      form: FavoritoForm, now: Instant): (r: Handled<seq<Favorito>>)
    ensures r.state == store
    ensures r.response.status == 401 <==> !ValidarToken(header, now).Valid?
    ensures r.response.status != 401 ==> r.response == Response(Message(FALHA_CADASTRO), 400)
  {
    if !ValidarToken(header, now).Valid? then Handled(NaoAutorizado(), store)
    else Handled(Response(Message(FALHA_CADASTRO), 400), store)
  }

  /** For a caller with a valid token and an account, the intended handler
      stores the favorite and the written one refuses. */
  lemma CadastrarAsWrittenNeverStores(usuarios: seq<Usuarios.Usuario>, store: seq<Favorito>, u: Usuarios.Usuario,
                                      form: FavoritoForm, issued: Instant, now: Instant)
    requires u in usuarios
    requires now < issued + TOKEN_LIFETIME
    ensures CadastrarFavorito(usuarios, store, Some(GerarToken(u, issued)), form, now).response.status == 200
    ensures CadastrarFavoritoAsWritten(usuarios, store, Some(GerarToken(u, issued)), form, now).response.status == 400
    ensures CadastrarFavoritoAsWritten(usuarios, store, Some(GerarToken(u, issued)), form, now).state == store
  {
    TokenRoundTrip(u, issued, now);
    var i :| 0 <= i < |usuarios| && usuarios[i] == u;
  }

  /** `obter_favoritos`: no token is asked for. The ten newest favorites of
      the whole table, newest first; 204 when the table is empty. */
  function ObterFavoritos(store: seq<Favorito>): (r: Response)
    ensures r.status == 204 <==> |store| == 0
    ensures r.status == 200 <==> |store| > 0
    ensures r.body.FavoritosBody? && NewestListing(r.body.favoritos, store, LIMITE)
  {
    NewestIsListing(store, LIMITE);
    ApresentaFavoritos(Newest(store, LIMITE))
  }

  /** `obter_meus_favoritos`, as intended: the ten newest favorites OWNED BY
      THE CALLER, newest first; 204 when the caller owns none. No favorite of
      another account is ever shown. */
  function ObterMeusFavoritos(store: seq<Favorito>, header: Option<Token>, now: Instant): (r: Response)
    ensures r.status == 200 || r.status == 204 || r.status == 401
    ensures r.status == 401 <==> !ValidarToken(header, now).Valid?
    ensures r.status == 401 ==> r == NaoAutorizado()
    ensures ValidarToken(header, now).Valid? ==>
              var caller := ValidarToken(header, now).payload.id;
              && r.body.FavoritosBody?
              && NewestListing(r.body.favoritos, Owned(store, caller), LIMITE)
              && (forall v :: v in r.body.favoritos ==> exists f :: f in store && f.usuario == caller && ViewOf(f) == v)
              && (r.status == 204 <==> forall f :: f in store ==> f.usuario != caller)
  {
    var v := ValidarToken(header, now);
    if !v.Valid? then NaoAutorizado()
    else
      var mine := Owned(store, v.payload.id);
      NewestIsListing(mine, LIMITE);
      ApresentaFavoritos(Newest(mine, LIMITE))
  }

  /** `obter_meus_favoritos` as written: past the token check the query
      reads `Favorito.usuario`, which raises `AttributeError`, and the
      handler answers 400. */
  function ObterMeusFavoritosAsWritten(store: seq<Favorito>, header: Option<Token>, now: Instant): (r: Response)
    ensures r.status == 401 <==> !ValidarToken(header, now).Valid?
    ensures r.status != 401 ==> r == Response(Message(FALHA_BUSCA), 400)
  {
    if !ValidarToken(header, now).Valid? then NaoAutorizado()
    else Response(Message(FALHA_BUSCA), 400)
  }

  /** The caller's own favorite is listed by the intended handler and the
      written one answers 400 instead. */
  lemma MeusFavoritosAsWrittenNeverLists(store: seq<Favorito>, u: Usuarios.Usuario, issued: Instant, now: Instant)
    requires now < issued + TOKEN_LIFETIME
    requires exists f :: f in store && f.usuario == u.id
    ensures ObterMeusFavoritos(store, Some(GerarToken(u, issued)), now).status == 200
    ensures ObterMeusFavoritosAsWritten(store, Some(GerarToken(u, issued)), now).status == 400
  {
    TokenRoundTrip(u, issued, now);
  }

  /** `remover_favorito`, as intended: deletes the rows whose id is `id` AND
      whose owner is the caller. No such row: 400, nothing changes, so a
      second delete of the same id and a delete of another account's
      favorite both answer 400. Otherwise 200 with the number removed, and
      every other row stays. */
  function RemoverFavorito(store: seq<Favorito>, header: Option<Token>, id: int, now: Instant): (r: Handled<seq<Favorito>>)
    ensures r.response.status == 200 || r.response.status == 400 || r.response.status == 401
    ensures r.response.status == 401 <==> !ValidarToken(header, now).Valid?
    ensures r.response.status == 401 ==> r.response == NaoAutorizado()
    ensures r.response.status != 200 ==> r.state == store
    ensures ValidarToken(header, now).Valid? ==>
              var caller := ValidarToken(header, now).payload.id;
              && (r.response.status == 400 <==> forall f :: f in store ==> !Selected(f, id, caller))
              && r.state == Remaining(store, id, caller)
    ensures r.response.status == 200 ==>
              r.response.body == RemovidoBody(|store| - |r.state|) && |store| - |r.state| >= 1
    ensures r.response.status == 200 && UniqueIds(store) ==> r.response.body == RemovidoBody(1)
    ensures UniqueIds(store) ==> UniqueIds(r.state)
  {
    match ValidarToken(header, now)
    case Rejected(_) => Handled(NaoAutorizado(), store)
    case Valid(p) =>
      var d := Delete(store, id, p.id);
      if d.count == 0 then Handled(Response(Message(FALHA_REMOCAO), 400), store)
      else Handled(Response(RemovidoBody(d.count), 200), d.store)
  }

  /** `remover_favorito` as written: past the token check `filter_by` names
      the undeclared `usuario` property, which raises, and the handler
      answers 400 without deleting. */
  function RemoverFavoritoAsWritten(store: seq<Favorito>, header: Option<Token>, id: int, now: Instant): (r: Handled<seq<Favorito>>)
    ensures r.state == store
    ensures r.response.status == 401 <==> !ValidarToken(header, now).Valid?
    ensures r.response.status != 401 ==> r.response == Response(Message(FALHA_REMOCAO), 400)
  {
    if !ValidarToken(header, now).Valid? then Handled(NaoAutorizado(), store)
    else Handled(Response(Message(FALHA_REMOCAO), 400), store)
  }

  /** The owner's delete of their own favorite succeeds under the intended
      handler and is refused by the written one. */
  lemma RemoverAsWrittenNeverDeletes(store: seq<Favorito>, u: Usuarios.Usuario, f: Favorito, issued: Instant, now: Instant)
    requires now < issued + TOKEN_LIFETIME
    requires f in store && f.usuario == u.id
    ensures RemoverFavorito(store, Some(GerarToken(u, issued)), f.id, now).response.status == 200
    ensures RemoverFavoritoAsWritten(store, Some(GerarToken(u, issued)), f.id, now).response.status == 400
  {
    TokenRoundTrip(u, issued, now);
  }

  /** Deleting the same id twice: the second attempt answers 400 and
      changes nothing, at any instant the token is still valid. */
  lemma SecondRemovalFails(store: seq<Favorito>, header: Option<Token>, id: int, now: Instant, later: Instant)
    requires RemoverFavorito(store, header, id, now).response.status == 200
    requires ValidarToken(header, later).Valid?
    ensures var after := RemoverFavorito(store, header, id, now).state;
            RemoverFavorito(after, header, id, later).response.status == 400 &&
            RemoverFavorito(after, header, id, later).state == after
  {
    var after := RemoverFavorito(store, header, id, now).state;
    var caller := ValidarToken(header, now).payload.id;
    assert ValidarToken(header, later).payload.id == caller;
    forall f | f in after ensures !Selected(f, id, caller) {
      assert f in multiset(after);
    }
  }
}
