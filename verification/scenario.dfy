/** The handlers composed: an account registers, logs in, creates a favorite
    and lists its own favorites, while every other account sees none. */
module Scenario {
  import opened Common
  import opened Auth
  import opened Usuarios
  import opened Schemas
  import Favoritos
  import FavoritoControlador
  import UsuarioControlador

  /** Logging in with the data just registered yields a token for the new
      account. */
  lemma RegisterThenLogin(usuarios: seq<Usuario>, form: UsuarioControlador.UsuarioForm, salt: nat, now: Instant)
    requires UniqueEmails(usuarios)
    requires UsuarioControlador.AddUsuario(usuarios, form, salt).response.status == 201
    ensures var us := UsuarioControlador.AddUsuario(usuarios, form, salt).state;
            UsuarioControlador.Login(us, UsuarioControlador.LoginForm(form.email, form.senha), now)
              == Response(TokenBody(GerarToken(us[|usuarios|], now)), 200)
  {
    var us := UsuarioControlador.AddUsuario(usuarios, form, salt).state;
    FindByEmailIsTheOwner(us, |usuarios|);
  }

  /** A single favorite listed by its owner: exactly its view, 200. */
  lemma OwnerListsSingle(f: Favoritos.Favorito, header: Option<Token>, now: Instant)
    requires ValidarToken(header, now).Valid? && ValidarToken(header, now).payload.id == f.usuario
    ensures FavoritoControlador.ObterMeusFavoritos([f], header, now) == Response(FavoritosBody([ViewOf(f)]), 200)
  {
    var mine := FavoritoControlador.ObterMeusFavoritos([f], header, now);
    assert mine.body.FavoritosBody? && |mine.body.favoritos| == 1;
    assert mine.body.favoritos[0] in mine.body.favoritos;
  }

  lemma RegisterLoginCreateList(usuarios: seq<Usuario>, form: UsuarioControlador.UsuarioForm, salt: nat,
                                fav: FavoritoControlador.FavoritoForm,
                                loggedIn: Instant, created: Instant, listed: Instant,
                                other: Option<Token>)
    requires UniqueEmails(usuarios) && UniqueIds(usuarios)
    requires UsuarioControlador.AddUsuario(usuarios, form, salt).response.status == 201
    requires created < loggedIn + TOKEN_LIFETIME && listed < loggedIn + TOKEN_LIFETIME
    requires ValidarToken(other, listed).Valid?
    requires ValidarToken(other, listed).payload.id != UsuarioControlador.AddUsuario(usuarios, form, salt).response.body.usuario.id
    ensures var us := UsuarioControlador.AddUsuario(usuarios, form, salt).state;
            var login := UsuarioControlador.Login(us, UsuarioControlador.LoginForm(form.email, form.senha), loggedIn);
            && login.status == 200
            && var post := FavoritoControlador.CadastrarFavorito(us, [], Some(login.body.token), fav, created);
            && post.response.status == 200
            && |post.state| == 1
            && FavoritoControlador.ObterMeusFavoritos(post.state, Some(login.body.token), listed)
                 == Response(FavoritosBody([ViewOf(post.state[0])]), 200)
            && FavoritoControlador.ObterMeusFavoritos(post.state, other, listed).status == 204
  {
    var us := UsuarioControlador.AddUsuario(usuarios, form, salt).state;
    var a := us[|usuarios|];
    RegisterThenLogin(usuarios, form, salt, loggedIn);
    var token := Some(GerarToken(a, loggedIn));
    TokenRoundTrip(a, loggedIn, created);
    TokenRoundTrip(a, loggedIn, listed);
    assert us[|usuarios|].id == a.id;
    var post := FavoritoControlador.CadastrarFavorito(us, [], token, fav, created);
    assert post.response.status == 200;
    OwnerListsSingle(post.state[0], token, listed);
    assert post.state == [post.state[0]];
  }
}
