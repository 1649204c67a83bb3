/** RelatorioController (GridHub.API/Controllers/RelatorioController.cs): CRUD over the report store, without GetAll. */
module Relatorios {
  import opened Wrappers
  import opened Entities
  import opened Envelope
  import opened Actions
  import opened Store

  const NotFoundMessage := "Relatório não encontrado."
  const MicrogridNotFoundMessage := "Microgrid não encontrada."
  const MismatchMessage := "Dados inválidos ou ID não corresponde ao relatório."
  const CreatedMessage := "Relatório criado com sucesso."
  const UpdatedMessage := "Relatório atualizado com sucesso."

  /** The row Put writes: the three measurements from the body, the stored microgrid kept. */
  function ApplyPut(existing: Relatorio, body: Relatorio): (rel: Relatorio)
    ensures rel.microgridId == existing.microgridId
    ensures rel.(microgridId := body.microgridId) == body
  {
    existing.(
      energiaGerada := body.energiaGerada,
      tempPainelSolar := body.tempPainelSolar,
      lucroGerado := body.lucroGerado)
  }

  /** Repeating a Put with the same body leaves the row as the first Put left it. */
  lemma PutIsIdempotent(existing: Relatorio, body: Relatorio)
    ensures ApplyPut(ApplyPut(existing, body), body) == ApplyPut(existing, body)
  {
  }

  class RelatorioController {
    const relatorios: Repository<Relatorio>
    const microgrids: Repository<Microgrid>

    /** The report table takes its keys from an identity column; every complete row fits it. */
    ghost predicate Valid()
    {
      relatorios.policy == Identity && forall x :: relatorios.admits(x)
    }

    constructor (relatorios: Repository<Relatorio>, microgrids: Repository<Microgrid>)
      requires relatorios.policy == Identity && forall x :: relatorios.admits(x)
      ensures Valid() && this.relatorios == relatorios && this.microgrids == microgrids
    {
      this.relatorios := relatorios;
      this.microgrids := microgrids;
    }

    /** GET api/relatorio/{id}. */
    method Get(id: Int32) returns (r: ActionResult<Keyed<Relatorio>>)
      ensures id !in relatorios.rows ==> r == NotFound(ErrorResponse(Some(NotFoundMessage), None))
      ensures id in relatorios.rows ==> r == Ok(SuccessResponse(Keyed(id, relatorios.rows[id]), None))
    {
      var found := relatorios.GetById(Some(id));
      match found
      case Success(Some(relatorio)) =>
        r := Ok(SuccessResponse(relatorio, None));
      case _ =>
        r := NotFound(ErrorResponse(Some(NotFoundMessage), None));
    }

    /** POST api/relatorio: the microgrid must exist; the new record copies the microgrid and the three measurements. */
    method Post(body: Option<Keyed<Relatorio>>) returns (r: ActionResult<Keyed<Relatorio>>)
      requires Valid()
      modifies relatorios
      ensures body.None? ==> r == BadRequest(ErrorResponse(Some(InvalidData), None))
      ensures body.Some? && body.value.value.microgridId !in old(microgrids.rows) ==>
        r == BadRequest(ErrorResponse(Some(MicrogridNotFoundMessage), None))
      ensures r.BadRequest? ==>
        relatorios.rows == old(relatorios.rows) && relatorios.nextIdentity == old(relatorios.nextIdentity)
      ensures body.Some? && body.value.value.microgridId in old(microgrids.rows) ==>
        var created := body.value.value;
        match old(relatorios.KeyFor(Keyed(0, created)))
        case Success(k) =>
          && r == Created(k, SuccessResponse(Keyed(k, created), Some(CreatedMessage)))
          && relatorios.rows == old(relatorios.rows)[k := created]
          && k == old(relatorios.nextIdentity) && relatorios.nextIdentity == k + 1
        case Failure(err) =>
          r == Fault(err) && relatorios.rows == old(relatorios.rows) && relatorios.nextIdentity == old(relatorios.nextIdentity)
    {
      if body.None? {
        return BadRequest(ErrorResponse(Some(InvalidData), None));
      }
      var relatorio := body.value.value;
      var microgrid := microgrids.GetById(Some(relatorio.microgridId));
      if !microgrid.Success? || microgrid.value.None? {
        return BadRequest(ErrorResponse(Some(MicrogridNotFoundMessage), None));
      }
      var novoRelatorio := Relatorio(
        microgridId := relatorio.microgridId,
        energiaGerada := relatorio.energiaGerada,
        tempPainelSolar := relatorio.tempPainelSolar,
        lucroGerado := relatorio.lucroGerado);
      var added := relatorios.Add(Some(Keyed(0, novoRelatorio)));
      match added
      case Success(saved) =>
        r := Created(saved.id, SuccessResponse(saved, Some(CreatedMessage)));
      case Failure(err) =>
        r := Fault(err);
    }

    /** PUT api/relatorio/{id}: overwrite the measurements of an existing report. */
    method Put(id: Int32, body: Option<Keyed<Relatorio>>) returns (r: ActionResult<Keyed<Relatorio>>)
      requires Valid()
      modifies relatorios`rows
      ensures body.None? || body.value.id != id ==>
        r == BadRequest(ErrorResponse(Some(MismatchMessage), None)) && relatorios.rows == old(relatorios.rows)
      ensures body.Some? && body.value.id == id && id !in old(relatorios.rows) ==>
        r == NotFound(ErrorResponse(Some(NotFoundMessage), None)) && relatorios.rows == old(relatorios.rows)
      ensures body.Some? && body.value.id == id && id in old(relatorios.rows) ==>
        var updated := ApplyPut(old(relatorios.rows[id]), body.value.value);
        r == Ok(SuccessResponse(Keyed(id, updated), Some(UpdatedMessage)))
        && relatorios.rows == old(relatorios.rows)[id := updated]
    {
      if body.None? || id != body.value.id {
        return BadRequest(ErrorResponse(Some(MismatchMessage), None));
      }
      var found := relatorios.GetById(Some(id));
      match found
      case Success(Some(existing)) =>
        var updated := ApplyPut(existing.value, body.value.value);
        var saved := relatorios.Update(Some(Keyed(id, updated)));
        match saved {
          case Success(row) =>
            r := Ok(SuccessResponse(row, Some(UpdatedMessage)));
          case Failure(err) =>
            r := Fault(err);
        }
      case _ =>
        r := NotFound(ErrorResponse(Some(NotFoundMessage), None));
    }

    /** DELETE api/relatorio/{id}. */
    method Delete(id: Int32) returns (r: ActionResult<()>)
      modifies relatorios`rows
      ensures id !in old(relatorios.rows) ==>
        r == NotFound(ErrorResponse(Some(NotFoundMessage), None)) && relatorios.rows == old(relatorios.rows)
      ensures id in old(relatorios.rows) ==> r == NoContent && relatorios.rows == old(relatorios.rows) - {id}
    {
      var found := relatorios.GetById(Some(id));
      match found
      case Success(Some(relatorio)) =>
        var deleted := relatorios.Delete(Some(relatorio));
        match deleted {
          case Success(_) =>
            r := NoContent;
          case Failure(err) =>
            r := Fault(err);
        }
      case _ =>
        r := NotFound(ErrorResponse(Some(NotFoundMessage), None));
    }
  }
}
