/** MicrogridController (GridHub.API/Controllers/MicrogridController.cs): CRUD over the microgrid store. */
module Microgrids {
  import opened Wrappers
  import opened Entities
  import opened Envelope
  import opened Actions
  import opened Store

  const NotFoundMessage := "Microgrid não encontrada."
  const NoneFoundMessage := "Nenhuma microgrid encontrada."
  const OwnerNotFoundMessage := "Usuário não encontrado."
  const SpaceNotFoundMessage := "Espaço não encontrado."
  const MismatchMessage := "Dados inválidos ou ID não corresponde à microgrid."
  const CreatedMessage := "Microgrid criada com sucesso."
  const UpdatedMessage := "Microgrid atualizada com sucesso."
  const DefaultFoto := "foto_microgrid_padrao.jpg"

  /**
   * The record Post builds: the body's references and descriptive fields, with a null
   * photo replaced by the default. The body's MicrogridId is not an argument.
   */
  function NewMicrogrid(body: Microgrid): (m: Microgrid)
    ensures m.fotoMicrogrid.Some?
    ensures body.fotoMicrogrid.Some? ==> m.fotoMicrogrid == body.fotoMicrogrid
    ensures body.fotoMicrogrid.None? ==> m.fotoMicrogrid == Some(DefaultFoto)
    ensures m.(fotoMicrogrid := body.fotoMicrogrid) == body
  {
    Microgrid(
      usuarioId := body.usuarioId,
      espacoId := body.espacoId,
      nomeMicrogrid := body.nomeMicrogrid,
      fotoMicrogrid := Some(body.fotoMicrogrid.GetOr(DefaultFoto)),
      radiacaoSolarNecessaria := body.radiacaoSolarNecessaria,
      topografiaNecessaria := body.topografiaNecessaria,
      areaTotalNecessaria := body.areaTotalNecessaria,
      velocidadeVentoNecessaria := body.velocidadeVentoNecessaria,
      fonteEnergia := body.fonteEnergia,
      metaFinanciamento := body.metaFinanciamento)
  }

  /** The row Put writes: the body's eight descriptive fields verbatim, the stored owner and space kept. */
  function ApplyPut(existing: Microgrid, body: Microgrid): (m: Microgrid)
    ensures m.usuarioId == existing.usuarioId && m.espacoId == existing.espacoId
    ensures m.(usuarioId := body.usuarioId, espacoId := body.espacoId) == body
  {
    existing.(
      nomeMicrogrid := body.nomeMicrogrid,
      fotoMicrogrid := body.fotoMicrogrid,
      radiacaoSolarNecessaria := body.radiacaoSolarNecessaria,
      topografiaNecessaria := body.topografiaNecessaria,
      areaTotalNecessaria := body.areaTotalNecessaria,
      velocidadeVentoNecessaria := body.velocidadeVentoNecessaria,
      fonteEnergia := body.fonteEnergia,
      metaFinanciamento := body.metaFinanciamento)
  }

  /** Repeating a Put with the same body leaves the row as the first Put left it. */
  lemma PutIsIdempotent(existing: Microgrid, body: Microgrid)
    ensures ApplyPut(ApplyPut(existing, body), body) == ApplyPut(existing, body)
  {
  }

  class MicrogridController {
    const microgrids: Repository<Microgrid>
    const usuarios: Repository<Usuario>
    const espacos: Repository<Espaco>

    /** The microgrid table takes its keys from an identity column and rejects a null photo. */
    ghost predicate Valid()
    {
      microgrids.policy == Identity && forall x :: microgrids.admits(x) == FitsMicrogridTable(x)
    }

    constructor (microgrids: Repository<Microgrid>, usuarios: Repository<Usuario>, espacos: Repository<Espaco>)
      requires microgrids.policy == Identity && forall x :: microgrids.admits(x) == FitsMicrogridTable(x)
      ensures Valid() && this.microgrids == microgrids && this.usuarios == usuarios && this.espacos == espacos
    {
      this.microgrids := microgrids;
      this.usuarios := usuarios;
      this.espacos := espacos;
    }

    /** GET api/microgrid/{id}. */
    method Get(id: Int32) returns (r: ActionResult<Keyed<Microgrid>>)
      ensures id !in microgrids.rows ==> r == NotFound(ErrorResponse(Some(NotFoundMessage), None))
      ensures id in microgrids.rows ==> r == Ok(SuccessResponse(Keyed(id, microgrids.rows[id]), None))
    {
      var found := microgrids.GetById(Some(id));
      match found
      case Success(Some(microgrid)) =>
        r := Ok(SuccessResponse(microgrid, None));
      case _ =>
        r := NotFound(ErrorResponse(Some(NotFoundMessage), None));
    }

    /** GET api/microgrid: an empty store is reported as NotFound. */
    method GetAll() returns (r: ActionResult<seq<Keyed<Microgrid>>>)
      ensures r.NotFound? <==> microgrids.rows == map[]
      ensures microgrids.rows == map[] ==> r == NotFound(ErrorResponse(Some(NoneFoundMessage), None))
      ensures microgrids.rows != map[] ==>
        r.Ok? && r.response.data.Some? && r.response == SuccessResponse(r.response.data.value, None)
        && ListsTable(r.response.data.value, microgrids.rows)
    {
      var all := microgrids.GetAll();
      ListsTableEmpty(all, microgrids.rows);
      if |all| == 0 {
        r := NotFound(ErrorResponse(Some(NoneFoundMessage), None));
      } else {
        r := Ok(SuccessResponse(all, None));
      }
    }

    /** POST api/microgrid: the owner is checked first, then the space; the new record gets the next identity key. */
    method Post(body: Option<Keyed<Microgrid>>) returns (r: ActionResult<Keyed<Microgrid>>)
      requires Valid()
      modifies microgrids
      ensures body.None? ==> r == BadRequest(ErrorResponse(Some(InvalidData), None))
      ensures body.Some? && body.value.value.usuarioId !in old(usuarios.rows) ==>
        r == BadRequest(ErrorResponse(Some(OwnerNotFoundMessage), None))
      ensures body.Some? && body.value.value.usuarioId in old(usuarios.rows)
              && body.value.value.espacoId !in old(espacos.rows) ==>
        r == BadRequest(ErrorResponse(Some(SpaceNotFoundMessage), None))
      ensures r.BadRequest? ==>
        microgrids.rows == old(microgrids.rows) && microgrids.nextIdentity == old(microgrids.nextIdentity)
      ensures body.Some? && body.value.value.usuarioId in old(usuarios.rows)
              && body.value.value.espacoId in old(espacos.rows) ==>
        var created := NewMicrogrid(body.value.value);
        match old(microgrids.KeyFor(Keyed(0, created)))
        case Success(k) =>
          && r == Created(k, SuccessResponse(Keyed(k, created), Some(CreatedMessage)))
          && microgrids.rows == old(microgrids.rows)[k := created]
          && k == old(microgrids.nextIdentity) && microgrids.nextIdentity == k + 1
        case Failure(err) =>
          r == Fault(err) && microgrids.rows == old(microgrids.rows) && microgrids.nextIdentity == old(microgrids.nextIdentity)
    {
      if body.None? {
        return BadRequest(ErrorResponse(Some(InvalidData), None));
      }
      var microgrid := body.value.value;
      var owner := usuarios.GetById(Some(microgrid.usuarioId));
      if !owner.Success? || owner.value.None? {
        return BadRequest(ErrorResponse(Some(OwnerNotFoundMessage), None));
      }
      var space := espacos.GetById(Some(microgrid.espacoId));
      if !space.Success? || space.value.None? {
        return BadRequest(ErrorResponse(Some(SpaceNotFoundMessage), None));
      }
      var novaMicrogrid := NewMicrogrid(microgrid);
      var added := microgrids.Add(Some(Keyed(0, novaMicrogrid)));
      match added
      case Success(saved) =>
        r := Created(saved.id, SuccessResponse(saved, Some(CreatedMessage)));
      case Failure(err) =>
        r := Fault(err);
    }

    /** PUT api/microgrid/{id}: overwrite the descriptive fields of an existing microgrid. */
    method Put(id: Int32, body: Option<Keyed<Microgrid>>) returns (r: ActionResult<Keyed<Microgrid>>)
      requires Valid()
      modifies microgrids`rows
      ensures body.None? || body.value.id != id ==>
        r == BadRequest(ErrorResponse(Some(MismatchMessage), None)) && microgrids.rows == old(microgrids.rows)
      ensures body.Some? && body.value.id == id && id !in old(microgrids.rows) ==>
        r == NotFound(ErrorResponse(Some(NotFoundMessage), None)) && microgrids.rows == old(microgrids.rows)
      ensures body.Some? && body.value.id == id && id in old(microgrids.rows) ==>
        var updated := ApplyPut(old(microgrids.rows[id]), body.value.value);
        if body.value.value.fotoMicrogrid.Some? then
          r == Ok(SuccessResponse(Keyed(id, updated), Some(UpdatedMessage)))
          && microgrids.rows == old(microgrids.rows)[id := updated]
        else
          // the NOT NULL columns reject a null the body brings in
          r == Fault(NotNullViolation) && microgrids.rows == old(microgrids.rows)
    {
      if body.None? || id != body.value.id {
        return BadRequest(ErrorResponse(Some(MismatchMessage), None));
      }
      var found := microgrids.GetById(Some(id));
      match found
      case Success(Some(existing)) =>
        var updated := ApplyPut(existing.value, body.value.value);
        var saved := microgrids.Update(Some(Keyed(id, updated)));
        match saved {
          case Success(row) =>
            r := Ok(SuccessResponse(row, Some(UpdatedMessage)));
          case Failure(err) =>
            r := Fault(err);
        }
      case _ =>
        r := NotFound(ErrorResponse(Some(NotFoundMessage), None));
    }

    /** DELETE api/microgrid/{id}. */
    method Delete(id: Int32) returns (r: ActionResult<()>)
      modifies microgrids`rows
      ensures id !in old(microgrids.rows) ==>
        r == NotFound(ErrorResponse(Some(NotFoundMessage), None)) && microgrids.rows == old(microgrids.rows)
      ensures id in old(microgrids.rows) ==> r == NoContent && microgrids.rows == old(microgrids.rows) - {id}
    {
      var found := microgrids.GetById(Some(id));
      match found
      case Success(Some(microgrid)) =>
        var deleted := microgrids.Delete(Some(microgrid));
        match deleted {
          case Success(_) =>
            r := NoContent;
          case Failure(err) =>
            r := Fault(err);
        }
      case _ =>
        r := NotFound(ErrorResponse(Some(NotFoundMessage), None));
    }
  }
}
