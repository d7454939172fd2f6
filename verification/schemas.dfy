/** Response shaping: the representations the handlers return and the
    `(body, status)` pair every handler produces. */
module Schemas {
  import opened Auth
  import opened Favoritos
  import opened Usuarios

  /** The fields `apresenta_favorito` exposes. `curtidas` and the owner have
      no place here. */
  datatype FavoritoView = FavoritoView(id: int, url: string, titulo: string, descricao: string, dataInsercao: int)

  /** The fields `apresenta_usuario` exposes. There is no password field. */
  datatype UsuarioView = UsuarioView(id: int, nome: string, email: string)

  /** The JSON bodies the handlers return. `ServerError` is the framework's
      own answer to an exception no handler catches. */
  datatype Body =
    | Message(message: string)
    | UsuarioBody(usuario: UsuarioView)
    | TokenBody(token: Token)
    | FavoritoBody(favorito: FavoritoView)
    | FavoritosBody(favoritos: seq<FavoritoView>)
    | RemovidoBody(removido: int)
    | ServerError

  datatype Response = Response(body: Body, status: int)

  /** A handler's response together with the table as the handler leaves it. */
  datatype Handled<S> = Handled(response: Response, state: S)

  function ViewOf(f: Favorito): FavoritoView {
    FavoritoView(f.id, f.url, f.titulo, f.descricao, f.dataInsercao)
  }

  /** Two favorites look the same exactly when they agree on the five exposed
      fields: the view reveals neither `curtidas` nor the owner. */
  lemma ViewHidesLikesAndOwner(f: Favorito, g: Favorito)
    ensures ViewOf(f) == ViewOf(g) <==>
              f.id == g.id && f.url == g.url && f.titulo == g.titulo &&
              f.descricao == g.descricao && f.dataInsercao == g.dataInsercao
    ensures ViewOf(f) == ViewOf(f.(curtidas := g.curtidas, usuario := g.usuario))
  {
  }

  /** `apresenta_favorito`. */
  function ApresentaFavorito(f: Favorito): (r: Response)
    ensures r.status == 200 && r.body.FavoritoBody?
    ensures r.body.favorito.id == f.id && r.body.favorito.url == f.url && r.body.favorito.titulo == f.titulo
    ensures r.body.favorito.descricao == f.descricao && r.body.favorito.dataInsercao == f.dataInsercao
  {
    Response(FavoritoBody(ViewOf(f)), 200)
  }

  /** The loop of `apresenta_favoritos`: one view per record, in order. */
  function Views(fs: seq<Favorito>): (vs: seq<FavoritoView>)
    ensures |vs| == |fs|
    ensures forall i :: 0 <= i < |fs| ==> vs[i] == ViewOf(fs[i])
  {
    seq(|fs|, i requires 0 <= i < |fs| => ViewOf(fs[i]))
  }

  /** The views of a concatenation are the concatenated views. */
  lemma ViewsAppend(p: seq<Favorito>, q: seq<Favorito>)
    ensures Views(p + q) == Views(p) + Views(q)
  {
    var l := Views(p + q);
    var rr := Views(p) + Views(q);
    forall i | 0 <= i < |l| ensures l[i] == rr[i] {
      if i < |p| { assert (p + q)[i] == p[i]; }
      else { assert (p + q)[i] == q[i - |p|]; }
    }
  }

  /** Taking views keeps multiplicities in check: views of rows drawn from
      a table (each at most as often as the table holds it) are views of
      the table, each at most as often as the table's views hold it. */
  lemma {:induction false} ViewsKeepSubMultiset(a: seq<Favorito>, b: seq<Favorito>)
    requires multiset(a) <= multiset(b)
    ensures multiset(Views(a)) <= multiset(Views(b))
    decreases |a|
  {
    if |a| > 0 {
      assert a[0] in multiset(a);
      assert a[0] in b;
      var j :| 0 <= j < |b| && b[j] == a[0];
      PeelSubMultiset(a, b, j);
      ViewsKeepSubMultiset(a[1..], b[..j] + b[j + 1..]);
      ViewsWithout(b, j);
      ViewsCons(a);
    }
  }

  /** Matching the first element of `a` with an occurrence in `b` leaves the
      rest of `a` inside the rest of `b`. */
  lemma PeelSubMultiset<T>(a: seq<T>, b: seq<T>, j: int)
    requires |a| > 0 && 0 <= j < |b| && b[j] == a[0]
    requires multiset(a) <= multiset(b)
    ensures multiset(a[1..]) <= multiset(b[..j] + b[j + 1..])
  {
    assert a == [a[0]] + a[1..];
    assert b == (b[..j] + [b[j]]) + b[j + 1..];
    SpliceMultiset(b[..j], b[j], b[j + 1..]);
    forall e ensures multiset(a[1..])[e] <= multiset(b[..j] + b[j + 1..])[e] {
      assert multiset(a)[e] <= multiset(b)[e];
    }
  }

  /** The views of a non-empty sequence: the first view and the rest. */
  lemma ViewsCons(a: seq<Favorito>)
    requires |a| > 0
    ensures multiset(Views(a)) == multiset{ViewOf(a[0])} + multiset(Views(a[1..]))
  {
    assert a == [a[0]] + a[1..];
    ViewsAppend([a[0]], a[1..]);
    assert Views([a[0]]) == [ViewOf(a[0])];
  }

  /** Removing the row at `j` removes exactly its view. */
  lemma ViewsWithout(b: seq<Favorito>, j: int)
    requires 0 <= j < |b|
    ensures multiset(Views(b)) == multiset(Views(b[..j] + b[j + 1..])) + multiset{ViewOf(b[j])}
  {
    ViewsAround(b, j);
    SpliceMultiset(Views(b[..j]), ViewOf(b[j]), Views(b[j + 1..]));
  }

  /** The views of `b` split around position `j`. */
  lemma ViewsAround(b: seq<Favorito>, j: int)
    requires 0 <= j < |b|
    ensures Views(b) == (Views(b[..j]) + [ViewOf(b[j])]) + Views(b[j + 1..])
    ensures Views(b[..j] + b[j + 1..]) == Views(b[..j]) + Views(b[j + 1..])
  {
    assert b == (b[..j] + [b[j]]) + b[j + 1..];
    ViewsAppend(b[..j], [b[j]]);
    ViewsAppend(b[..j] + [b[j]], b[j + 1..]);
    ViewsAppend(b[..j], b[j + 1..]);
    assert Views([b[j]]) == [ViewOf(b[j])];
  }

  /** One element spliced between two sequences adds one occurrence. */
  lemma SpliceMultiset<T>(p: seq<T>, y: T, q: seq<T>)
    ensures multiset((p + [y]) + q) == multiset(p + q) + multiset{y}
  {
  }

  /** `apresenta_favoritos`: status 204 exactly when the list is empty,
      200 otherwise, and the same records in the same order. */
  function ApresentaFavoritos(fs: seq<Favorito>): (r: Response)
    ensures r.status == 204 <==> |fs| == 0
    ensures r.status == 200 <==> |fs| > 0
    ensures r.body.FavoritosBody? && |r.body.favoritos| == |fs|
    ensures forall i :: 0 <= i < |fs| ==> r.body.favoritos[i] == ViewOf(fs[i])
  {
    Response(FavoritosBody(Views(fs)), if |fs| == 0 then 204 else 200)
  }

  /** `apresenta_usuario`: id, nome and email, whatever the stored hash. */
  function ApresentaUsuario(u: Usuario): (v: UsuarioView)
    ensures v.id == u.id && v.nome == u.nome && v.email == u.email
  {
    UsuarioView(u.id, u.nome, u.email)
  }

  /** The user representation does not depend on the password in any way. */
  lemma UsuarioViewHidesPassword(u: Usuario, h: PasswordHash)
    ensures ApresentaUsuario(u) == ApresentaUsuario(u.(senha := h))
  {
  }
}
