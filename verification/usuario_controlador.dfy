/** `UsuarioControlador`: registration, login and lookup of accounts.

    Two handlers break as written; the functions without a suffix model the
    evident intent and the `...AsWritten` ones the code as it stands:
    - `login` calls `gerar_token(usuario.nome, usuario.email)` while
      `gerar_token` takes the account itself, so every login with the right
      password raises `TypeError`, which nothing catches (500);
    - `get_usuario` answers a missing account with `error_msg`, a name bound
      only on the token-failure path, so it raises `UnboundLocalError` (500). */
module UsuarioControlador {
  import opened Common
  import opened Auth
  import opened Usuarios
  import opened Schemas
  import EmailRegex

  const DADOS_INVALIDOS: string := "Dados inválidos"
  const EMAIL_DUPLICADO: string := "Usuário com o mesmo e-mail já existente."
  const EMAIL_NAO_ENCONTRADO: string := "E-mail não encontrado na base :/"
  const SENHA_INVALIDA: string := "Senha inválida."
  const NAO_AUTORIZADO: string := "Usuário não autorizado."
  /** The source names no message for a missing account (its `error_msg` is
      unbound there); this text is the model's. */
  const USUARIO_NAO_ENCONTRADO: string := "Usuário não encontrado."

  /** `UsuarioSchema`. */
  datatype UsuarioForm = UsuarioForm(nome: string, email: string, senha: string)

  /** The login form: an email and a password. */
  datatype LoginForm = LoginForm(email: string, senha: string)

  /** What registration accepts: an email of the pattern's shape (prefix
      semantics), a non-empty name and a non-empty password. */
  ghost predicate DadosValidos(form: UsuarioForm) {
    EmailRegex.PrefixMatch(form.email) && form.nome != "" && form.senha != ""
  }

  /** `add_usuario` with the random salt as a parameter. Invalid data: 403
      and nothing stored. An email already registered: the insert violates
      the unique constraint, 409 and nothing stored. Otherwise the account
      is stored with the HASH of the password and 201 returns its id, nome
      and email. */
  function AddUsuario(usuarios: seq<Usuario>, form: UsuarioForm, salt: nat): (r: Handled<seq<Usuario>>)
    ensures r.response.status == 201 || r.response.status == 403 || r.response.status == 409
    ensures r.response.status == 403 <==> !DadosValidos(form)
    ensures r.response.status == 403 ==> r.response.body == Message(DADOS_INVALIDOS)
    ensures r.response.status == 409 <==> DadosValidos(form) && EmailTaken(usuarios, form.email)
    ensures r.response.status == 409 ==> r.response.body == Message(EMAIL_DUPLICADO)
    ensures r.response.status != 201 ==> r.state == usuarios
    ensures r.response.status == 201 ==>
              && |r.state| == |usuarios| + 1 && r.state[..|usuarios|] == usuarios
              && r.state[|usuarios|].nome == form.nome
              && r.state[|usuarios|].email == form.email
              && r.state[|usuarios|].senha == GeneratePasswordHash(form.senha, salt)
              && (forall i :: 0 <= i < |usuarios| ==> usuarios[i].id < r.state[|usuarios|].id)
              && r.response.body == UsuarioBody(UsuarioView(r.state[|usuarios|].id, form.nome, form.email))
    ensures UniqueEmails(usuarios) ==> UniqueEmails(r.state)
    ensures UniqueIds(usuarios) ==> UniqueIds(r.state)
  {
    EmailRegex.MatchIsPrefixMatch(form.email);
    if !EmailRegex.Match(form.email) || form.nome == "" || form.senha == "" then
      Handled(Response(Message(DADOS_INVALIDOS), 403), usuarios)
    else
      var senha := GeneratePasswordHash(form.senha, salt);
      if EmailTaken(usuarios, form.email) then
        Handled(Response(Message(EMAIL_DUPLICADO), 409), usuarios)
      else
        var stored := Insert(usuarios, form.nome, form.email, senha);
        Handled(Response(UsuarioBody(ApresentaUsuario(stored[|usuarios|])), 201), stored)
  }

  /** Registering the same email twice: the second attempt answers 409 and
      leaves the table as the first left it, whatever the other fields. */
  lemma SecondRegistrationConflicts(usuarios: seq<Usuario>, first: UsuarioForm, second: UsuarioForm,
                                    salt1: nat, salt2: nat)
    requires AddUsuario(usuarios, first, salt1).response.status == 201
    requires DadosValidos(second) && second.email == first.email
    ensures var after := AddUsuario(usuarios, first, salt1).state;
            AddUsuario(after, second, salt2).response.status == 409 &&
            AddUsuario(after, second, salt2).state == after
  {
    var after := AddUsuario(usuarios, first, salt1).state;
    assert after[|usuarios|].email == second.email;
  }

  /** `login`, as intended. Unknown email: 404. Known email, wrong password:
      409. Otherwise 200 with a token for the account of that email. */
  function Login(usuarios: seq<Usuario>, form: LoginForm, now: Instant): (r: Response)
    ensures r.status == 200 || r.status == 404 || r.status == 409
    ensures r.status == 404 <==> !EmailTaken(usuarios, form.email)
    ensures r.status == 404 ==> r.body == Message(EMAIL_NAO_ENCONTRADO)
    ensures r.status == 409 ==>
              r.body == Message(SENHA_INVALIDA) &&
              exists u :: u in usuarios && u.email == form.email && !CheckPasswordHash(u.senha, form.senha)
    ensures r.status == 200 ==>
              exists u :: u in usuarios && u.email == form.email && CheckPasswordHash(u.senha, form.senha) &&
                          r.body == TokenBody(GerarToken(u, now))
    ensures UniqueEmails(usuarios) ==>
              (r.status == 200 <==> exists u :: u in usuarios && u.email == form.email && CheckPasswordHash(u.senha, form.senha))
  {
    match FindByEmail(usuarios, form.email)
    case None => Response(Message(EMAIL_NAO_ENCONTRADO), 404)
    case Some(u) =>
      assert u.email == form.email;
      assert UniqueEmails(usuarios) ==> forall w :: w in usuarios && w.email == form.email ==> w == u by {
        if UniqueEmails(usuarios) {
          forall w | w in usuarios && w.email == form.email ensures w == u {
            var i :| 0 <= i < |usuarios| && usuarios[i] == w;
            FindByEmailIsTheOwner(usuarios, i);
          }
        }
      }
      if !CheckPasswordHash(u.senha, form.senha) then Response(Message(SENHA_INVALIDA), 409)
      // The source passes `usuario.nome, usuario.email`; `gerar_token` takes the account.
      else Response(TokenBody(GerarToken(u, now)), 200)
  }

  /** The token a successful login returns validates, until thirty days after
      the login, to the id, nome and email of the account that logged in. */
  lemma LoginTokenIdentifiesAccount(usuarios: seq<Usuario>, form: LoginForm, now: Instant, later: Instant)
    requires Login(usuarios, form, now).status == 200
    requires later < now + TOKEN_LIFETIME
    ensures exists u :: u in usuarios && u.email == form.email &&
              ValidarToken(Some(Login(usuarios, form, now).body.token), later)
                == Valid(Payload(u.id, u.nome, u.email, now + TOKEN_LIFETIME))
  {
    var u :| u in usuarios && u.email == form.email && CheckPasswordHash(u.senha, form.senha) &&
             Login(usuarios, form, now).body == TokenBody(GerarToken(u, now));
    TokenRoundTrip(u, now, later);
  }

  /** `login` as written: the token call raises once the password checks,
      and the framework answers 500. Every other path answers as the
      intended handler does. */
  function LoginAsWritten(usuarios: seq<Usuario>, form: LoginForm, now: Instant): (r: Response)
    ensures r.status == 404 || r.status == 409 || r.status == 500
    ensures r.status == 404 <==> !EmailTaken(usuarios, form.email)
    ensures r.status == 404 ==> r.body == Message(EMAIL_NAO_ENCONTRADO)
    ensures r.status == 409 <==>
              EmailTaken(usuarios, form.email) &&
              !CheckPasswordHash(FindByEmail(usuarios, form.email).value.senha, form.senha)
    ensures r.status == 409 ==> r.body == Message(SENHA_INVALIDA)
    ensures r.status == 500 <==>
              EmailTaken(usuarios, form.email) &&
              CheckPasswordHash(FindByEmail(usuarios, form.email).value.senha, form.senha)
    ensures r.status == 500 ==> r.body == ServerError
    ensures r.status == 500 <==> Login(usuarios, form, now).status == 200
    ensures r.status != 500 ==> r == Login(usuarios, form, now)
  {
    match FindByEmail(usuarios, form.email)
    case None => Response(Message(EMAIL_NAO_ENCONTRADO), 404)
    case Some(u) =>
      if !CheckPasswordHash(u.senha, form.senha) then Response(Message(SENHA_INVALIDA), 409)
      else Response(ServerError, 500)
  }

  /** The right password of a registered account: the intended handler
      answers 200 with a token, the written one 500. */
  lemma LoginAsWrittenNeverIssues(usuarios: seq<Usuario>, i: int, now: Instant)
    requires UniqueEmails(usuarios) && 0 <= i < |usuarios|
    ensures Login(usuarios, LoginForm(usuarios[i].email, usuarios[i].senha.preimage), now).status == 200
    ensures LoginAsWritten(usuarios, LoginForm(usuarios[i].email, usuarios[i].senha.preimage), now).status == 500
  {
    FindByEmailIsTheOwner(usuarios, i);
  }

  /** `get_usuario`, as intended. A missing header or any token failure:
      401. Otherwise the account of the REQUESTED id, which need not be the
      caller's: 200 with its id, nome and email, or 404. */
  function GetUsuario(usuarios: seq<Usuario>, header: Option<Token>, id: int, now: Instant): (r: Response)
    ensures r.status == 200 || r.status == 401 || r.status == 404
    ensures r.status == 401 <==> !ValidarToken(header, now).Valid?
    ensures r.status == 401 ==> r.body == Message(NAO_AUTORIZADO)
    ensures r.status == 200 <==>
              ValidarToken(header, now).Valid? && exists i :: 0 <= i < |usuarios| && usuarios[i].id == id
    ensures r.status == 200 ==>
              exists u :: u in usuarios && u.id == id && r.body == UsuarioBody(ApresentaUsuario(u))
  {
    if !ValidarToken(header, now).Valid? then Response(Message(NAO_AUTORIZADO), 401)
    else
      match FindById(usuarios, id)
      case Some(u) => Response(UsuarioBody(ApresentaUsuario(u)), 200)
      case None => Response(Message(USUARIO_NAO_ENCONTRADO), 404)
  }

  /** The lookup checks that the caller holds a valid token and nothing
      else: any two valid tokens, of any accounts, read the same answer. */
  lemma GetUsuarioIgnoresCaller(usuarios: seq<Usuario>, h1: Option<Token>, h2: Option<Token>, id: int, now: Instant)
    requires ValidarToken(h1, now).Valid? && ValidarToken(h2, now).Valid?
    ensures GetUsuario(usuarios, h1, id, now) == GetUsuario(usuarios, h2, id, now)
  {
  }

  /** `get_usuario` as written: a missing account raises and the framework
      answers 500. Every other path answers as the intended handler does. */
  function GetUsuarioAsWritten(usuarios: seq<Usuario>, header: Option<Token>, id: int, now: Instant): (r: Response)
    ensures r.status == 200 || r.status == 401 || r.status == 500
    ensures r.status == 401 <==> !ValidarToken(header, now).Valid?
    ensures r.status == 401 ==> r.body == Message(NAO_AUTORIZADO)
    ensures r.status == 200 <==>
              ValidarToken(header, now).Valid? && exists i :: 0 <= i < |usuarios| && usuarios[i].id == id
    ensures r.status == 200 ==>
              exists u :: u in usuarios && u.id == id && r.body == UsuarioBody(ApresentaUsuario(u))
    ensures ValidarToken(header, now).Valid? && (forall i :: 0 <= i < |usuarios| ==> usuarios[i].id != id) ==>
              r == Response(ServerError, 500)
    ensures r.status != 500 ==> r == GetUsuario(usuarios, header, id, now)
  {
    if !ValidarToken(header, now).Valid? then Response(Message(NAO_AUTORIZADO), 401)
    else
      match FindById(usuarios, id)
      case Some(u) => Response(UsuarioBody(ApresentaUsuario(u)), 200)
      case None => Response(ServerError, 500)
  }

  /** A valid token asking for an id no account has: 404 as intended, 500
      as written. */
  lemma GetUsuarioAsWrittenFailsOnMissing(usuarios: seq<Usuario>, header: Option<Token>, id: int, now: Instant)
    requires ValidarToken(header, now).Valid?
    requires forall i :: 0 <= i < |usuarios| ==> usuarios[i].id != id
    ensures GetUsuario(usuarios, header, id, now).status == 404
    ensures GetUsuarioAsWritten(usuarios, header, id, now).status == 500
  {
  }
}
