/** EspacoController (GridHub.API/Controllers/EspacoController.cs): CRUD over the space store. */
module Espacos {
  import opened Wrappers
  import opened Entities
  import opened Envelope
  import opened Actions
  import opened Store

  const NotFoundMessage := "Espaço não encontrado."
  const NoneFoundMessage := "Nenhum espaço encontrado."
  const OwnerNotFoundMessage := "Usuário não encontrado."
  const MismatchMessage := "Dados inválidos ou ID não corresponde ao espaço."
  const CreatedMessage := "Espaço criado com sucesso."
  const UpdatedMessage := "Espaço atualizado com sucesso."
  const DefaultFoto := "foto_espaco_padrao.jpg"
  const DefaultDirecaoVento := "Vento predominante do norte"

  /**
   * The record Post builds: the body's owner and descriptive fields, with a null photo or
   * wind direction replaced by its default. The body's EspacoId is not an argument.
   */
  function NewEspaco(body: Espaco): (e: Espaco)
    ensures e.fotoEspaco.Some? && e.direcaoVento.Some?
    ensures body.fotoEspaco.Some? ==> e.fotoEspaco == body.fotoEspaco
    ensures body.fotoEspaco.None? ==> e.fotoEspaco == Some(DefaultFoto)
    ensures body.direcaoVento.Some? ==> e.direcaoVento == body.direcaoVento
    ensures body.direcaoVento.None? ==> e.direcaoVento == Some(DefaultDirecaoVento)
    ensures e.(fotoEspaco := body.fotoEspaco, direcaoVento := body.direcaoVento) == body
  {
    Espaco(
      usuarioId := body.usuarioId,
      endereco := body.endereco,
      nomeEspaco := body.nomeEspaco,
      fotoEspaco := Some(body.fotoEspaco.GetOr(DefaultFoto)),
      fonteEnergia := body.fonteEnergia,
      orientacaoSolar := body.orientacaoSolar,
      mediaSolar := body.mediaSolar,
      topografia := body.topografia,
      areaTotal := body.areaTotal,
      direcaoVento := Some(body.direcaoVento.GetOr(DefaultDirecaoVento)),
      velocidadeVento := body.velocidadeVento)
  }

  /** The row Put writes: the body's ten descriptive fields verbatim, the stored owner kept. */
  function ApplyPut(existing: Espaco, body: Espaco): (e: Espaco)
    ensures e.usuarioId == existing.usuarioId
    ensures e.(usuarioId := body.usuarioId) == body
  {
    existing.(
      endereco := body.endereco,
      nomeEspaco := body.nomeEspaco,
      fotoEspaco := body.fotoEspaco,
      fonteEnergia := body.fonteEnergia,
      orientacaoSolar := body.orientacaoSolar,
      mediaSolar := body.mediaSolar,
      topografia := body.topografia,
      areaTotal := body.areaTotal,
      direcaoVento := body.direcaoVento,
      velocidadeVento := body.velocidadeVento)
  }

  /** Repeating a Put with the same body leaves the row as the first Put left it. */
  lemma PutIsIdempotent(existing: Espaco, body: Espaco)
    ensures ApplyPut(ApplyPut(existing, body), body) == ApplyPut(existing, body)
  {
  }

  class EspacoController {
    const espacos: Repository<Espaco>
    const usuarios: Repository<Usuario>

    /** The space table takes its keys from an identity column and rejects a null photo or wind direction. */
    ghost predicate Valid()
    {
      espacos.policy == Identity && forall x :: espacos.admits(x) == FitsEspacoTable(x)
    }

    constructor (espacos: Repository<Espaco>, usuarios: Repository<Usuario>)
      requires espacos.policy == Identity && forall x :: espacos.admits(x) == FitsEspacoTable(x)
      ensures Valid() && this.espacos == espacos && this.usuarios == usuarios
    {
      this.espacos := espacos;
      this.usuarios := usuarios;
    }

    /** GET api/espaco/{id}. */
    method Get(id: Int32) returns (r: ActionResult<Keyed<Espaco>>)
      ensures id !in espacos.rows ==> r == NotFound(ErrorResponse(Some(NotFoundMessage), None))
      ensures id in espacos.rows ==> r == Ok(SuccessResponse(Keyed(id, espacos.rows[id]), None))
    {
      var found := espacos.GetById(Some(id));
      match found
      case Success(Some(espaco)) =>
        r := Ok(SuccessResponse(espaco, None));
      case _ =>
        r := NotFound(ErrorResponse(Some(NotFoundMessage), None));
    }

    /** GET api/espaco: an empty store is reported as NotFound. */
    method GetAll() returns (r: ActionResult<seq<Keyed<Espaco>>>)
      ensures r.NotFound? <==> espacos.rows == map[]
      ensures espacos.rows == map[] ==> r == NotFound(ErrorResponse(Some(NoneFoundMessage), None))
      ensures espacos.rows != map[] ==>
        r.Ok? && r.response.data.Some? && r.response == SuccessResponse(r.response.data.value, None)
        && ListsTable(r.response.data.value, espacos.rows)
    {
      var all := espacos.GetAll();
      ListsTableEmpty(all, espacos.rows);
      if |all| == 0 {
        r := NotFound(ErrorResponse(Some(NoneFoundMessage), None));
      } else {
        r := Ok(SuccessResponse(all, None));
      }
    }

    /** POST api/espaco: the owner must exist; the new record gets the next identity key. */
    method Post(body: Option<Keyed<Espaco>>) returns (r: ActionResult<Keyed<Espaco>>)
      requires Valid()
      modifies espacos
      ensures body.None? ==> r == BadRequest(ErrorResponse(Some(InvalidData), None))
      ensures body.Some? && body.value.value.usuarioId !in old(usuarios.rows) ==>
        r == BadRequest(ErrorResponse(Some(OwnerNotFoundMessage), None))
      ensures r.BadRequest? ==> espacos.rows == old(espacos.rows) && espacos.nextIdentity == old(espacos.nextIdentity)
      ensures body.Some? && body.value.value.usuarioId in old(usuarios.rows) ==>
        var created := NewEspaco(body.value.value);
        match old(espacos.KeyFor(Keyed(0, created)))
        case Success(k) =>
          && r == Created(k, SuccessResponse(Keyed(k, created), Some(CreatedMessage)))
          && espacos.rows == old(espacos.rows)[k := created]
          && k == old(espacos.nextIdentity) && espacos.nextIdentity == k + 1
        case Failure(err) =>
          r == Fault(err) && espacos.rows == old(espacos.rows) && espacos.nextIdentity == old(espacos.nextIdentity)
    {
      if body.None? {
        return BadRequest(ErrorResponse(Some(InvalidData), None));
      }
      var espaco := body.value.value;
      var owner := usuarios.GetById(Some(espaco.usuarioId));
      if !owner.Success? || owner.value.None? {
        return BadRequest(ErrorResponse(Some(OwnerNotFoundMessage), None));
      }
      var novoEspaco := NewEspaco(espaco);
      var added := espacos.Add(Some(Keyed(0, novoEspaco)));
      match added
      case Success(saved) =>
        r := Created(saved.id, SuccessResponse(saved, Some(CreatedMessage)));
      case Failure(err) =>
        r := Fault(err);
    }

    /** PUT api/espaco/{id}: overwrite the descriptive fields of an existing space. */
    method Put(id: Int32, body: Option<Keyed<Espaco>>) returns (r: ActionResult<Keyed<Espaco>>)
      requires Valid()
      modifies espacos`rows
      ensures body.None? || body.value.id != id ==>
        r == BadRequest(ErrorResponse(Some(MismatchMessage), None)) && espacos.rows == old(espacos.rows)
      ensures body.Some? && body.value.id == id && id !in old(espacos.rows) ==>
        r == NotFound(ErrorResponse(Some(NotFoundMessage), None)) && espacos.rows == old(espacos.rows)
      ensures body.Some? && body.value.id == id && id in old(espacos.rows) ==>
        var updated := ApplyPut(old(espacos.rows[id]), body.value.value);
        if body.value.value.fotoEspaco.Some? && body.value.value.direcaoVento.Some? then
          r == Ok(SuccessResponse(Keyed(id, updated), Some(UpdatedMessage)))
          && espacos.rows == old(espacos.rows)[id := updated]
        else
          // the NOT NULL columns reject a null the body brings in
          r == Fault(NotNullViolation) && espacos.rows == old(espacos.rows)
    {
      if body.None? || id != body.value.id {
        return BadRequest(ErrorResponse(Some(MismatchMessage), None));
      }
      var found := espacos.GetById(Some(id));
      match found
      case Success(Some(existing)) =>
        var updated := ApplyPut(existing.value, body.value.value);
        var saved := espacos.Update(Some(Keyed(id, updated)));
        match saved {
          case Success(row) =>
            r := Ok(SuccessResponse(row, Some(UpdatedMessage)));
          case Failure(err) =>
            r := Fault(err);
        }
      case _ =>
        r := NotFound(ErrorResponse(Some(NotFoundMessage), None));
    }

    /** DELETE api/espaco/{id}. */
    method Delete(id: Int32) returns (r: ActionResult<()>)
      modifies espacos`rows
      ensures id !in old(espacos.rows) ==>
        r == NotFound(ErrorResponse(Some(NotFoundMessage), None)) && espacos.rows == old(espacos.rows)
      ensures id in old(espacos.rows) ==> r == NoContent && espacos.rows == old(espacos.rows) - {id}
    {
      var found := espacos.GetById(Some(id));
      match found
      case Success(Some(espaco)) =>
        var deleted := espacos.Delete(Some(espaco));
        match deleted {
          case Success(_) =>
            r := NoContent;
          case Failure(err) =>
            r := Fault(err);
        }
      case _ =>
        r := NotFound(ErrorResponse(Some(NotFoundMessage), None));
    }
  }
}
