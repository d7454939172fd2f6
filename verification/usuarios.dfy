/** The `usuario` table: one row per registered account, with a unique email
    and the salted hash of the password in place of the password. */
module Usuarios {
  import opened Common

  /** The value `generate_password_hash` returns, as a symbolic term: a salt
      and the password it was computed from. The hash algorithm is not
      modelled; no handler reads `preimage`: only `CheckPasswordHash`,
      which stands for werkzeug's comparison, looks at it. */
  datatype PasswordHash = Hashed(salt: nat, preimage: string)

  /** A row of `usuario`. `senha` holds the hash, never the password. */
  datatype Usuario = Usuario(id: int, nome: string, email: string, senha: PasswordHash)

  /** `generate_password_hash(senha)`; the random salt is a parameter. */
  function GeneratePasswordHash(senha: string, salt: nat): PasswordHash {
    Hashed(salt, senha)
  }

  /** `check_password_hash(hash, senha)`. */
  predicate CheckPasswordHash(hash: PasswordHash, senha: string) {
    hash.preimage == senha
  }

  /** A stored hash accepts the password it was made from and nothing else,
      whatever the salt. */
  lemma HashAcceptsOnlyItsPassword(senha: string, attempt: string, salt: nat)
    ensures CheckPasswordHash(GeneratePasswordHash(senha, salt), attempt) <==> attempt == senha
  {
  }

  /** Column `email` is declared `unique=True`. */
  ghost predicate UniqueEmails(us: seq<Usuario>) {
    forall i, j :: 0 <= i < j < |us| ==> us[i].email != us[j].email
  }

  /** Column `id` is the primary key. */
  ghost predicate UniqueIds(us: seq<Usuario>) {
    forall i, j :: 0 <= i < j < |us| ==> us[i].id != us[j].id
  }

  predicate EmailTaken(us: seq<Usuario>, email: string) {
    exists i :: 0 <= i < |us| && us[i].email == email
  }

  /** `session.query(Usuario).filter(Usuario.email == email).first()`. */
  function FindByEmail(us: seq<Usuario>, email: string): (r: Option<Usuario>)
    ensures r.None? <==> !EmailTaken(us, email)
    ensures r.Some? ==> r.value in us && r.value.email == email
  {
    First(us, (u: Usuario) => u.email == email)
  }

  /** `session.query(Usuario).filter(Usuario.id == id).first()`. */
  function FindById(us: seq<Usuario>, id: int): (r: Option<Usuario>)
    ensures r.None? <==> forall i :: 0 <= i < |us| ==> us[i].id != id
    ensures r.Some? ==> r.value in us && r.value.id == id
  {
    First(us, (u: Usuario) => u.id == id)
  }

  /** With unique emails, the lookup by email finds THE account of that email. */
  lemma FindByEmailIsTheOwner(us: seq<Usuario>, i: int)
    requires UniqueEmails(us) && 0 <= i < |us|
    ensures FindByEmail(us, us[i].email) == Some(us[i])
  {
    var r := FindByEmail(us, us[i].email);
    var j :| 0 <= j < |us| && us[j] == r.value;
    assert i == j;
  }

  /** With unique ids, the lookup by id finds THE account of that id. */
  lemma FindByIdIsTheOwner(us: seq<Usuario>, i: int)
    requires UniqueIds(us) && 0 <= i < |us|
    ensures FindById(us, us[i].id) == Some(us[i])
  {
    var r := FindById(us, us[i].id);
    var j :| 0 <= j < |us| && us[j] == r.value;
    assert i == j;
  }

  /** `session.add(usuario); session.commit()` when no row has that email:
      the new row receives the next id and both keys stay unique. */
  function Insert(us: seq<Usuario>, nome: string, email: string, senha: PasswordHash): (r: seq<Usuario>)
    requires !EmailTaken(us, email)
    ensures |r| == |us| + 1 && r[..|us|] == us
    ensures r[|us|].nome == nome && r[|us|].email == email && r[|us|].senha == senha
    ensures forall i :: 0 <= i < |us| ==> us[i].id < r[|us|].id
    ensures UniqueEmails(us) ==> UniqueEmails(r)
    ensures UniqueIds(us) ==> UniqueIds(r)
  {
    us + [Usuario(NextRowId(Column(us, (u: Usuario) => u.id)), nome, email, senha)]
  }
}
