/**
 * UsuarioController (GridHub.API/Controllers/UsuarioController.cs): CRUD over the user
 * store, without GetAll. BCrypt is a function the controller is given, and the random salt
 * it draws on each call is a parameter.
 *
 * Usuario's only constructor hashes the password it is given and Senha has no public
 * setter, so every Usuario object holds a hash: the request body, which model binding
 * builds through that constructor from the JSON payload, and every row Entity Framework
 * reads back, which it builds through the same constructor from the stored column. The
 * actions below take the JSON payload and perform both of these hashings explicitly.
 */
module Usuarios {
  import opened Wrappers
  import opened Entities
  import opened Envelope
  import opened Actions
  import opened Store

  const NotFoundMessage := "Usuário não encontrado."
  const MismatchMessage := "Dados inválidos ou ID não corresponde ao usuário."
  const CreatedMessage := "Usuário criado com sucesso."
  const UpdatedMessage := "Usuário atualizado com sucesso."

  /** The salt BCrypt.HashPassword draws at random on every call. */
  type Salt = nat

  class UsuarioController {
    const usuarios: Repository<Usuario>
    /** BCrypt.HashPassword(senha, 13) for a given salt. */
    const hashPassword: (string, Salt) -> string

    /** BCrypt.HashPassword always returns a 60-character string, so never an empty one. */
    ghost predicate HashesAreNonEmpty()
    {
      forall senha, salt :: |hashPassword(senha, salt)| > 0
    }

    /** The user table takes its keys from the max + 1 rule of the database context; every complete row fits it. */
    ghost predicate Valid()
    {
      usuarios.policy == MaxPlusOne && (forall x :: usuarios.admits(x)) && HashesAreNonEmpty()
    }

    constructor (usuarios: Repository<Usuario>, hashPassword: (string, Salt) -> string)
      requires usuarios.policy == MaxPlusOne && forall x :: usuarios.admits(x)
      requires forall senha, salt :: |hashPassword(senha, salt)| > 0
      ensures Valid() && this.usuarios == usuarios && this.hashPassword == hashPassword
    {
      this.usuarios := usuarios;
      this.hashPassword := hashPassword;
    }

    /**
     * `u.DefinirSenha(senha)` with `senha` the string in `u.senha`: Senha replaced by the hash
     * of what it held, nothing else changed. The constructor `Usuario(email, senha)` does the
     * same to the `senha` it is passed, so this is also the object model binding builds from a
     * JSON payload and the object Entity Framework builds from a stored row.
     */
    function WithHashedPassword(u: Usuario, salt: Salt): (h: Usuario)
      ensures h.senha == hashPassword(u.senha, salt)
      ensures h.(senha := u.senha) == u
    {
      u.(senha := hashPassword(u.senha, salt))
    }

    /**
     * The row Put writes: name, e-mail, phone and photo from the body; the creation date
     * kept; the stored hash replaced only when the body carries a non-empty password.
     */
    function ApplyPut(existing: Usuario, body: Usuario, salt: Salt): (u: Usuario)
      ensures u.nome == body.nome && u.email == body.email
      ensures u.telefone == body.telefone && u.fotoPerfil == body.fotoPerfil
      ensures u.dataCriacao == existing.dataCriacao
      ensures |body.senha| == 0 ==> u.senha == existing.senha
      ensures |body.senha| != 0 ==> u.senha == hashPassword(body.senha, salt)
    {
      var u := existing.(nome := body.nome, email := body.email, telefone := body.telefone, fotoPerfil := body.fotoPerfil);
      if |body.senha| != 0 then WithHashedPassword(u.(senha := body.senha), salt) else u
    }

    /**
     * A bound body's Senha is a hash, never empty, so the keep-the-password branch of Put is
     * never taken: the row gets the hash of the hash of the password the request sent.
     */
    lemma PutNeverKeepsThePassword(existing: Usuario, payload: Usuario, bindSalt: Salt, salt: Salt)
      requires HashesAreNonEmpty()
      ensures ApplyPut(existing, WithHashedPassword(payload, bindSalt), salt).senha
           == hashPassword(hashPassword(payload.senha, bindSalt), salt)
    {
    }

    /**
     * Sending the same payload twice leaves the row a single Put with the second request's
     * salts leaves: the first Put, and the rehash of the row on reading it back, are overwritten.
     */
    lemma RepeatedPutIsOnePut(existing: Usuario, payload: Usuario, bind1: Salt, salt1: Salt,
                              load: Salt, bind2: Salt, salt2: Salt)
      requires HashesAreNonEmpty()
      ensures
        var first := ApplyPut(existing, WithHashedPassword(payload, bind1), salt1);
        ApplyPut(WithHashedPassword(first, load), WithHashedPassword(payload, bind2), salt2)
        == ApplyPut(existing, WithHashedPassword(payload, bind2), salt2)
    {
    }

    /** GET api/usuario/{id}: the stored row as Entity Framework builds it, its hash hashed again. */
    method Get(id: Int32, loadSalt: Salt) returns (r: ActionResult<Keyed<Usuario>>)
      ensures id !in usuarios.rows ==> r == NotFound(ErrorResponse(Some(NotFoundMessage), None))
      ensures id in usuarios.rows ==>
        r == Ok(SuccessResponse(Keyed(id, WithHashedPassword(usuarios.rows[id], loadSalt)), None))
    {
      var found := usuarios.GetById(Some(id));
      match found
      case Success(Some(usuario)) =>
        r := Ok(SuccessResponse(Keyed(id, WithHashedPassword(usuario.value, loadSalt)), None));
      case _ =>
        r := NotFound(ErrorResponse(Some(NotFoundMessage), None));
    }

    /**
     * POST api/usuario: no reference or uniqueness check. Binding hashes the payload's
     * password, the action hashes that hash again, and the body, with its own UsuarioId, is
     * added. A zero UsuarioId is given max + 1.
     */
    method Post(body: Option<Keyed<Usuario>>, bindSalt: Salt, salt: Salt) returns (r: ActionResult<Keyed<Usuario>>)
      requires Valid()
      modifies usuarios
      ensures body.None? ==>
        r == BadRequest(ErrorResponse(Some(InvalidData), None)) && usuarios.rows == old(usuarios.rows)
      ensures body.Some? ==>
        var hashed := WithHashedPassword(WithHashedPassword(body.value.value, bindSalt), salt);
        match old(usuarios.KeyFor(Keyed(body.value.id, hashed)))
        case Success(k) =>
          r == Created(k, SuccessResponse(Keyed(k, hashed), Some(CreatedMessage)))
          && usuarios.rows == old(usuarios.rows)[k := hashed]
        case Failure(err) =>
          r == Fault(err) && usuarios.rows == old(usuarios.rows)
      ensures r.Created? ==>
        r.response.data.Some?
        && r.response.data.value.value.senha == hashPassword(hashPassword(body.value.value.senha, bindSalt), salt)
      ensures r.Created? ==> r.routeId !in old(usuarios.rows)
      ensures r.Created? && body.value.id == 0 ==> forall p :: p in old(usuarios.rows) ==> p < r.routeId
      ensures r.Created? && body.value.id == 0 && old(usuarios.rows) == map[] ==> r.routeId == 1
      ensures r.Created? && body.value.id != 0 ==> r.routeId == body.value.id
      ensures r.Created? ==> r.routeId != 0
      ensures usuarios.nextIdentity ==
        if r.Created? && old(usuarios.DrawsIdentity(Keyed(body.value.id, body.value.value)))
        then old(usuarios.nextIdentity) + 1 else old(usuarios.nextIdentity)
    {
      if body.None? {
        return BadRequest(ErrorResponse(Some(InvalidData), None));
      }
      var bound := WithHashedPassword(body.value.value, bindSalt);
      var usuario := Keyed(body.value.id, WithHashedPassword(bound, salt));
      var added := usuarios.Add(Some(usuario));
      match added
      case Success(saved) =>
        r := Created(saved.id, SuccessResponse(saved, Some(CreatedMessage)));
      case Failure(err) =>
        r := Fault(err);
    }

    /**
     * PUT api/usuario/{id}: overwrite the profile of an existing user, read back through the
     * constructor, with the bound body, whose password is the hash binding made.
     */
    method Put(id: Int32, body: Option<Keyed<Usuario>>, bindSalt: Salt, loadSalt: Salt, salt: Salt)
      returns (r: ActionResult<Keyed<Usuario>>)
      requires Valid()
      modifies usuarios`rows
      ensures body.None? || body.value.id != id ==>
        r == BadRequest(ErrorResponse(Some(MismatchMessage), None)) && usuarios.rows == old(usuarios.rows)
      ensures body.Some? && body.value.id == id && id !in old(usuarios.rows) ==>
        r == NotFound(ErrorResponse(Some(NotFoundMessage), None)) && usuarios.rows == old(usuarios.rows)
      ensures body.Some? && body.value.id == id && id in old(usuarios.rows) ==>
        var updated := ApplyPut(WithHashedPassword(old(usuarios.rows[id]), loadSalt),
                                WithHashedPassword(body.value.value, bindSalt), salt);
        r == Ok(SuccessResponse(Keyed(id, updated), Some(UpdatedMessage)))
        && usuarios.rows == old(usuarios.rows)[id := updated]
    {
      if body.None? || id != body.value.id {
        return BadRequest(ErrorResponse(Some(MismatchMessage), None));
      }
      var found := usuarios.GetById(Some(id));
      match found
      case Success(Some(existing)) =>
        var updated := ApplyPut(WithHashedPassword(existing.value, loadSalt),
                                WithHashedPassword(body.value.value, bindSalt), salt);
        var saved := usuarios.Update(Some(Keyed(id, updated)));
        match saved {
          case Success(row) =>
            r := Ok(SuccessResponse(row, Some(UpdatedMessage)));
          case Failure(err) =>
            r := Fault(err);
        }
      case _ =>
        r := NotFound(ErrorResponse(Some(NotFoundMessage), None));
    }

    /** DELETE api/usuario/{id}. */
    method Delete(id: Int32) returns (r: ActionResult<()>)
      modifies usuarios`rows
      ensures id !in old(usuarios.rows) ==>
        r == NotFound(ErrorResponse(Some(NotFoundMessage), None)) && usuarios.rows == old(usuarios.rows)
      ensures id in old(usuarios.rows) ==> r == NoContent && usuarios.rows == old(usuarios.rows) - {id}
    {
      var found := usuarios.GetById(Some(id));
      match found
      case Success(Some(usuario)) =>
        var deleted := usuarios.Delete(Some(usuario));
        match deleted {
          case Success(_) =>
            r := NoContent;
          case Failure(err) =>
            r := Fault(err);
        }
      case _ =>
        r := NotFound(ErrorResponse(Some(NotFoundMessage), None));
    }
  }
}
