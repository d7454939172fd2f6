# Clicaki API: favorites, accounts and session tokens in Dafny

A model of the decision logic of the Clicaki bookmarking service.

- Accounts register and log in. The login issues a JSON Web Token that expires after thirty days.
- Favorites (a URL with a title and a description) can be listed by anyone as "most recent".
- Creating a favorite, listing one's own favorites and deleting one all need a valid token.

The database is a sequence of rows: `seq<Usuario>` for `usuario` and `seq<Favorito>` for `favorito`.
Each handler is a pure function of the request and the tables. A handler that writes returns the response together with the table it leaves behind (`Schemas.Handled`); a handler that only reads returns the response.
The clock is an integer instant passed in as a parameter.
Password hashing is a symbolic term, `Usuarios.Hashed(salt, preimage)`; no handler reads it, only `CheckPasswordHash` does.
Token signing is a symbolic term too: `Auth.Signed(payload, key, algorithm)`, and `Malformed` stands for undecodable input.

Modules, in dependency order:

- `Common`: the option type, instants, the next row id, `Filter` (a `WHERE`) and `First` (`.first()`).
- `EmailRegex`: the registration email check.
- `Usuarios`: model/usuario.py.
- `Favoritos`: model/favorito.py.
- `Query`: `ORDER BY data_insercao DESC LIMIT n`.
- `Auth`: utils/auth.py.
- `Schemas`: the response shapes from schemas/favorito.py and schemas/usuario.py.
- `FavoritoControlador` and `UsuarioControlador`: the two controllers.
- `Scenario`: the handlers composed end to end.

The email check `EMAIL_REGEX.match(email)` uses `match`, not `fullmatch`.
So it accepts every string that has a prefix of the shape x@y.z, where x, y and z are non-empty and contain no '@'.
Anything may follow that prefix.
`EmailRegex.PrefixMatch` states this meaning with explicit split points.
`EmailRegex.Match` is a left-to-right scan, and `EmailRegex.MatchIsPrefixMatch` proves the two agree on every string.

Where the code cannot do what it evidently means, the plain-named function models the intent.
A function with the suffix `AsWritten` models the code as it stands, and "## Findings" lists each case.
Some things a reader might expect of such a service are not in the code, and the model has none of them either:

- The recent listing has no page parameter and no page count. It is a fixed `limit(10)`.
- A delete that matches nothing answers 400, not 404.
- Creation does not validate the URL or the title.
- There is no like-increment operation.

## Model

| member | source | states |
|---|---|---|
| EmailRegex.MatchIsPrefixMatch | controller/usuario.py:13 | the scan accepts a string iff some prefix of it is x + "@" + y + "." + z with x, y, z non-empty and free of '@' |
| EmailRegex.TrailingTextAccepted | controller/usuario.py:26 | `match` ignores what follows the matching prefix: "a@b.c@" is accepted although it is not a full match |
| EmailRegex.MalformedRejected | controller/usuario.py:13 | an empty local part, an empty domain before the dot, nothing after the dot, a second '@', or no '@' each make the check fail |
| Common.NextRowId | model/favorito.py:11 | a new primary key is one more than the largest existing id (1 on an empty table), so it differs from every existing id |
| Common.First | controller/usuario.py:67-68 | `.first()` returns None iff no row satisfies the filter, and otherwise the earliest row that does |
| Usuarios.HashAcceptsOnlyItsPassword | controller/usuario.py:76 | a stored hash passes the check for the password it was made from and for no other, whatever the salt |
| Usuarios.FindByEmail | controller/usuario.py:67-68 | the lookup by email is None iff no account has that email, and otherwise is an account with that email |
| Usuarios.FindById | controller/usuario.py:108-109 | the lookup by id is None iff no account has that id, and otherwise is an account with that id |
| Usuarios.FindByEmailIsTheOwner | model/usuario.py:13 | with the unique email constraint, the lookup by an account's email returns that very account |
| Usuarios.FindByIdIsTheOwner | model/usuario.py:11 | with the primary key unique, the lookup by an account's id returns that very account |
| Usuarios.Insert | controller/usuario.py:30-38 | registration appends one account with the given nome, email and password hash under a fresh id; unique emails and unique ids are preserved |
| Favoritos.NovoFavorito | model/favorito.py:18-37 | the constructor stores url, titulo, descricao and curtidas unchanged; a given timestamp is stored, otherwise the column default |
| Favoritos.DefaultInstantIsShared | model/favorito.py:16 | the default `datetime.now()` is fixed at import, so all favorites built without a timestamp share one instant |
| Favoritos.Insert | controller/favorito.py:42-43 | the insert appends exactly one row carrying the draft's fields and the owner under an id larger than every existing id; unique ids are preserved |
| Favoritos.Owned | controller/favorito.py:80-82 | the owner filter keeps exactly the rows of the given account, each as often as the table holds it, and no other row |
| Favoritos.Remaining | controller/favorito.py:109-110 | the delete removes every row whose id and owner both match, and keeps every other row with its multiplicity |
| Favoritos.AtMostOneSelected | model/favorito.py:11 | because id is the primary key, a delete by id removes at most one row |
| Favoritos.NoneSelected | controller/favorito.py:109-113 | a delete that matches no row leaves the table as it was |
| Favoritos.SomeSelected | controller/favorito.py:109-116 | a delete that matches some row removes at least one row |
| Favoritos.RemainingKeepsIdsUnique | model/favorito.py:11 | deleting keeps the primary key unique |
| Favoritos.Delete | controller/favorito.py:109-110 | the delete leaves the remaining rows and reports how many went: zero exactly when no row has that id and owner, in which case the table is unchanged; with unique ids at most one, and ids stay unique |
| Query.SortNewestFirst | controller/favorito.py:58-59 | ordering by `data_insercao` descending yields a non-increasing sequence that is a permutation of the table |
| Query.Newest | controller/favorito.py:58-59 | `ORDER BY data_insercao DESC LIMIT n` returns min(n, size) rows of the table (never more copies of a row than the table holds), newest first, and every row strictly newer than the last one returned is returned as often as the table holds it |
| Query.NewerRowsAreReturned | controller/favorito.py:58-59 | every row strictly newer than the oldest row returned is itself returned |
| Auth.GerarToken | utils/auth.py:19-24 | the token is signed with `PRIVATE_KEY` under HS256 and carries the account's id, nome and email with `exp` thirty days after issue |
| Auth.ValidarToken | utils/auth.py:27-43 | validation succeeds only for a token signed with `PRIVATE_KEY` under HS256, returns exactly the signed payload, and only before `exp`; an expiry error means a genuine token whose `exp` has passed |
| Auth.TokenRoundTrip | utils/auth.py:19-41 | a token issued at instant t validates, at any instant before t + 30 days, to exactly the account's id, nome and email with exp = t + 30 days |
| Auth.IssuedTokenExpires | utils/auth.py:19-43 | from t + 30 days on, an issued token is rejected as expired although its signature is good |
| Auth.ValidityIsMonotone | utils/auth.py:39-43 | a token valid at some instant was valid, with the same payload, at every earlier instant; an expired token stays expired |
| Auth.ForeignTokensAreInvalid | utils/auth.py:40 | a missing header, an undecodable token, or a token with another key or another algorithm fails with a non-expiry error at every instant |
| Schemas.ViewHidesLikesAndOwner | schemas/favorito.py:40-46 | two favorites have the same representation iff they agree on id, url, titulo, descricao and data_insercao; curtidas and the owner never show |
| Schemas.ApresentaFavorito | schemas/favorito.py:36-46 | a favorite is shown with exactly its id, url, titulo, descricao and data_insercao, with status 200 |
| Schemas.ViewsKeepSubMultiset | schemas/favorito.py:61-63 | the representations of rows drawn from a table (none more often than the table holds it) show no representation more often than the table's rows yield it |
| Schemas.ApresentaFavoritos | schemas/favorito.py:49-68 | the status is 204 iff the list is empty and 200 otherwise; the entries are the records' representations in order |
| Schemas.ApresentaUsuario | schemas/usuario.py:33-41 | an account is shown as its id, nome and email |
| Schemas.UsuarioViewHidesPassword | schemas/usuario.py:37-41 | the account representation does not depend on the stored password hash |
| FavoritoControlador.NewestIsListing | controller/favorito.py:58-61 | the representation of the newest rows is a newest-first listing of the table: min(10, size) entries, each the view of a row of the table and no view more often than the table's rows yield it, and every row strictly newer than the last entry shown is shown |
| FavoritoControlador.RepeatedRowIsNotAListing | controller/favorito.py:58-59 | a listing that shows the newer of two favorites twice is not a listing of those two |
| FavoritoControlador.CadastrarFavorito | controller/favorito.py:12-49 | a token failure gives 401 and an unknown account id gives 400, both storing nothing; otherwise exactly one row with the form's url, titulo and descricao, curtidas 0, timestamp now, the caller as owner and a fresh id is appended and returned with 200 |
| FavoritoControlador.CadastrarFavoritoAsWritten | controller/favorito.py:31-49 | as written, the handler answers 401 on a token failure and 400 otherwise, and never stores anything |
| FavoritoControlador.CadastrarAsWrittenNeverStores | controller/favorito.py:35-45 | for a registered caller with a valid token, the intended handler answers 200 and the written one 400 |
| FavoritoControlador.ObterFavoritos | controller/favorito.py:51-61 | without any token: 204 iff the table is empty, otherwise 200 with a newest-first listing of min(10, size) favorites of the table, no row shown more often than the table holds it, and every favorite newer than the last one shown is shown |
| FavoritoControlador.ObterMeusFavoritos | controller/favorito.py:63-88 | a token failure gives 401; otherwise a newest-first listing of min(10, n) of the caller's n favorites, no row shown more often than the table holds it, every favorite of the caller newer than the last one shown is shown, 204 iff the caller owns none, and another account's favorite never appears |
| FavoritoControlador.ObterMeusFavoritosAsWritten | controller/favorito.py:79-88 | as written, the handler answers 401 on a token failure and 400 otherwise |
| FavoritoControlador.MeusFavoritosAsWrittenNeverLists | controller/favorito.py:80-88 | a caller who owns a favorite gets 200 from the intended handler and 400 from the written one |
| FavoritoControlador.RemoverFavorito | controller/favorito.py:90-121 | a token failure gives 401; no row with that id and the caller as owner gives 400 and no change; otherwise exactly those rows go, every other row stays, and 200 reports the count removed, which is 1 when ids are unique |
| FavoritoControlador.RemoverFavoritoAsWritten | controller/favorito.py:108-121 | as written, the handler answers 401 on a token failure and 400 otherwise, and never deletes |
| FavoritoControlador.RemoverAsWrittenNeverDeletes | controller/favorito.py:109-121 | an owner deleting their own favorite gets 200 from the intended handler and 400 from the written one |
| FavoritoControlador.SecondRemovalFails | controller/favorito.py:109-121 | after a successful delete, the same delete with the same token answers 400 and changes nothing |
| UsuarioControlador.AddUsuario | controller/usuario.py:17-46 | 403 iff the email fails the check or nome or senha is empty; otherwise 409 iff the email is taken; both leave the table unchanged; otherwise 201 appends one account that stores the hash of senha, and returns its id, nome and email; unique emails and ids are preserved |
| UsuarioControlador.SecondRegistrationConflicts | controller/usuario.py:42-46 | registering an email that a successful registration just stored answers 409 and changes nothing |
| UsuarioControlador.Login | controller/usuario.py:54-84 | 404 iff no account has the email; 409 only when an account with the email fails the password check; 200 only with a token for an account with the email whose password checks, and always so when emails are unique |
| UsuarioControlador.LoginTokenIdentifiesAccount | controller/usuario.py:81-83 | the token a login returns validates, for thirty days, to the id, nome and email of an account with the login email |
| UsuarioControlador.LoginAsWritten | controller/usuario.py:63-84 | as written, 404 iff the email is unknown, 409 iff the account found fails the password check, and 500 iff it passes, exactly where the intended handler answers 200; on every other path the answer is the intended one |
| UsuarioControlador.LoginAsWrittenNeverIssues | controller/usuario.py:76-84 | the right password of a registered account gets 200 from the intended handler and 500 from the written one |
| UsuarioControlador.GetUsuario | controller/usuario.py:86-118 | 401 iff the token fails; otherwise 200 iff some account has the requested id, with that account's id, nome and email, and 404 if none has |
| UsuarioControlador.GetUsuarioIgnoresCaller | controller/usuario.py:98-114 | the lookup answers the same to any two valid tokens, so any account can read any other |
| UsuarioControlador.GetUsuarioAsWritten | controller/usuario.py:95-118 | as written, 401 iff the token fails; for a valid token, 200 iff some account has the id, with that account's id, nome and email, and 500 when none has; on every path but the 500 the answer is the intended one |
| UsuarioControlador.GetUsuarioAsWrittenFailsOnMissing | controller/usuario.py:115-118 | for a missing id and a valid token, the intended handler answers 404 and the written one 500 |
| Scenario.RegisterThenLogin | controller/usuario.py:30-84 | logging in with the data just registered returns 200 and a token for the new account |
| Scenario.OwnerListsSingle | controller/favorito.py:79-83 | the owner of the only favorite gets exactly that favorite's representation, with 200 |
| Scenario.RegisterLoginCreateList | controller/favorito.py:12-88 | register, log in, create a favorite: the owner's listing is exactly that favorite, and any other valid token gets 204 |

## Left out

- The HTTP layer is not modelled: Flask routing, reading headers and forms, CORS and logging. A request is its parameters. A missing `Token` header is `None`.
- app.py is not modelled. Its routes call `adicionar_usuario` and `obter_usuario`, which the controllers do not define.
- seed.py and schemas/__init__.py are not part of this model.
- HS256 and HMAC are not computed. A token is a symbolic term, so only the key holder can produce a valid one.
- PyJWT skips the expiry check for a payload without `exp`. That case is not modelled, because every token signed with the key carries `exp`.
- Password hashing is not computed. The salt that werkzeug draws at random is a parameter.
- Constant-time comparison is not modelled.
- The clock is an integer instant in seconds. Time zones and fractions of a second are not modelled. PyJWT also truncates `exp` to whole seconds.
- Database failures other than the unique-email violation are not modelled. In the source, `add_usuario` answers 400 for them, and the favorite handlers' `except` clauses answer 400.
- Sessions, transactions and rollback are not modelled. No concurrency is modelled either.
- Column length limits (`String(250)`, `String(320)`, `String(162)`) are not modelled. SQLite does not enforce them.
- The non-null constraints on `url`, `titulo`, `nome`, `email` and `senha` hold by construction: the model has no null strings.
- New ids follow SQLite's rule: the largest id plus one. Other engines allocate ids differently.
- Query.Newest: rows with equal timestamps come out in one fixed order, while SQL leaves that order open. The contract states only what holds for every order.
- Auth.ValidarToken: validation is pure by construction, because a Dafny function has no state. No lemma states this separately.
- Pagination, `totalPages` and a like-increment are not modelled. The code has none of them.

## Findings

| source | as written | input that shows it | evidently intended | confidence | as-written member | corrected member |
|---|---|---|---|---|---|---|
| controller/favorito.py:35-40 | `Favorito(...)` omits the required `curtidas` argument and raises `TypeError`, caught as 400. The next line calls `usuario.adiciona_favorito`, which `Usuario` does not define. | any valid token of a registered account (`CadastrarAsWrittenNeverStores`) | store the favorite with `curtidas` 0, owned by the caller, and answer 200 | high; not executed | FavoritoControlador.CadastrarFavoritoAsWritten | FavoritoControlador.CadastrarFavorito |
| controller/favorito.py:82 | `Favorito.usuario` is not a mapped attribute, so building the query raises and the handler answers 400 | any valid token whose account owns a favorite (`MeusFavoritosAsWrittenNeverLists`) | list the caller's ten newest favorites | high; not executed | FavoritoControlador.ObterMeusFavoritosAsWritten | FavoritoControlador.ObterMeusFavoritos |
| controller/favorito.py:110 | `filter_by(usuario=...)` names a property the mapping lacks, so it raises and the handler answers 400 | an owner deleting their own favorite (`RemoverAsWrittenNeverDeletes`) | delete the caller's favorite with that id and answer 200 with the count | high; not executed | FavoritoControlador.RemoverFavoritoAsWritten | FavoritoControlador.RemoverFavorito |
| controller/usuario.py:82 | `gerar_token(usuario.nome, usuario.email)` passes two arguments to a one-parameter function. The `TypeError` is uncaught, so the answer is 500. | a registered email with its correct password (`LoginAsWrittenNeverIssues`) | issue the token for the account and answer 200 | high; not executed | UsuarioControlador.LoginAsWritten | UsuarioControlador.Login |
| controller/usuario.py:118 | `error_msg` is bound only in the `except` branch. The not-found branch raises `UnboundLocalError`, so the answer is 500. | a valid token and an id no account has (`GetUsuarioAsWrittenFailsOnMissing`) | answer 404 with a message | high; not executed | UsuarioControlador.GetUsuarioAsWritten | UsuarioControlador.GetUsuario |
