/** InvestimentoController (GridHub.API/Controllers/InvestimentoController.cs): CRUD over the investment store. */
module Investimentos {
  import opened Wrappers
  import opened Entities
  import opened Envelope
  import opened Actions
  import opened Store

  const NotFoundMessage := "Investimento não encontrado."
  const NoneFoundMessage := "Nenhum investimento encontrado."
  const InvestorNotFoundMessage := "Usuário não encontrado."
  const MicrogridNotFoundMessage := "Microgrid não encontrada."
  const MismatchMessage := "Dados inválidos ou ID não corresponde ao investimento."
  const CreatedMessage := "Investimento criado com sucesso."
  const UpdatedMessage := "Investimento atualizado com sucesso."

  /** The row Put writes: only the proposal changes; the investor and the microgrid are kept. */
  function ApplyPut(existing: Investimento, body: Investimento): (i: Investimento)
    ensures i.descricaoProposta == body.descricaoProposta
    ensures i.usuarioId == existing.usuarioId && i.microgridId == existing.microgridId
  {
    existing.(descricaoProposta := body.descricaoProposta)
  }

  /** Repeating a Put with the same body leaves the row as the first Put left it. */
  lemma PutIsIdempotent(existing: Investimento, body: Investimento)
    ensures ApplyPut(ApplyPut(existing, body), body) == ApplyPut(existing, body)
  {
  }

  class InvestimentoController {
    const investimentos: Repository<Investimento>
    const usuarios: Repository<Usuario>
    const microgrids: Repository<Microgrid>

    /** The investment table takes its keys from an identity column; every complete row fits it. */
    ghost predicate Valid()
    {
      investimentos.policy == Identity && forall x :: investimentos.admits(x)
    }

    constructor (investimentos: Repository<Investimento>, usuarios: Repository<Usuario>, microgrids: Repository<Microgrid>)
      requires investimentos.policy == Identity && forall x :: investimentos.admits(x)
      ensures Valid() && this.investimentos == investimentos && this.usuarios == usuarios && this.microgrids == microgrids
    {
      this.investimentos := investimentos;
      this.usuarios := usuarios;
      this.microgrids := microgrids;
    }

    /** GET api/investimento/{id}. */
    method Get(id: Int32) returns (r: ActionResult<Keyed<Investimento>>)
      ensures id !in investimentos.rows ==> r == NotFound(ErrorResponse(Some(NotFoundMessage), None))
      ensures id in investimentos.rows ==> r == Ok(SuccessResponse(Keyed(id, investimentos.rows[id]), None))
    {
      var found := investimentos.GetById(Some(id));
      match found
      case Success(Some(investimento)) =>
        r := Ok(SuccessResponse(investimento, None));
      case _ =>
        r := NotFound(ErrorResponse(Some(NotFoundMessage), None));
    }

    /** GET api/investimento: an empty store is reported as NotFound. */
    method GetAll() returns (r: ActionResult<seq<Keyed<Investimento>>>)
      ensures r.NotFound? <==> investimentos.rows == map[]
      ensures investimentos.rows == map[] ==> r == NotFound(ErrorResponse(Some(NoneFoundMessage), None))
      ensures investimentos.rows != map[] ==>
        r.Ok? && r.response.data.Some? && r.response == SuccessResponse(r.response.data.value, None)
        && ListsTable(r.response.data.value, investimentos.rows)
    {
      var all := investimentos.GetAll();
      ListsTableEmpty(all, investimentos.rows);
      if |all| == 0 {
        r := NotFound(ErrorResponse(Some(NoneFoundMessage), None));
      } else {
        r := Ok(SuccessResponse(all, None));
      }
    }

    /**
     * POST api/investimento: the investor is checked first, then the microgrid; the new
     * record copies exactly the investor, the microgrid and the proposal.
     */
    method Post(body: Option<Keyed<Investimento>>) returns (r: ActionResult<Keyed<Investimento>>)
      requires Valid()
      modifies investimentos
      ensures body.None? ==> r == BadRequest(ErrorResponse(Some(InvalidData), None))
      ensures body.Some? && body.value.value.usuarioId !in old(usuarios.rows) ==>
        r == BadRequest(ErrorResponse(Some(InvestorNotFoundMessage), None))
      ensures body.Some? && body.value.value.usuarioId in old(usuarios.rows)
              && body.value.value.microgridId !in old(microgrids.rows) ==>
        r == BadRequest(ErrorResponse(Some(MicrogridNotFoundMessage), None))
      ensures r.BadRequest? ==>
        investimentos.rows == old(investimentos.rows) && investimentos.nextIdentity == old(investimentos.nextIdentity)
      ensures body.Some? && body.value.value.usuarioId in old(usuarios.rows)
              && body.value.value.microgridId in old(microgrids.rows) ==>
        var created := body.value.value;
        match old(investimentos.KeyFor(Keyed(0, created)))
        case Success(k) =>
          && r == Created(k, SuccessResponse(Keyed(k, created), Some(CreatedMessage)))
          && investimentos.rows == old(investimentos.rows)[k := created]
          && k == old(investimentos.nextIdentity) && investimentos.nextIdentity == k + 1
        case Failure(err) =>
          r == Fault(err) && investimentos.rows == old(investimentos.rows) && investimentos.nextIdentity == old(investimentos.nextIdentity)
    {
      if body.None? {
        return BadRequest(ErrorResponse(Some(InvalidData), None));
      }
      var investimento := body.value.value;
      var investor := usuarios.GetById(Some(investimento.usuarioId));
      if !investor.Success? || investor.value.None? {
        return BadRequest(ErrorResponse(Some(InvestorNotFoundMessage), None));
      }
      var microgrid := microgrids.GetById(Some(investimento.microgridId));
      if !microgrid.Success? || microgrid.value.None? {
        return BadRequest(ErrorResponse(Some(MicrogridNotFoundMessage), None));
      }
      var novoInvestimento := Investimento(
        usuarioId := investimento.usuarioId,
        microgridId := investimento.microgridId,
        descricaoProposta := investimento.descricaoProposta);
      var added := investimentos.Add(Some(Keyed(0, novoInvestimento)));
      match added
      case Success(saved) =>
        r := Created(saved.id, SuccessResponse(saved, Some(CreatedMessage)));
      case Failure(err) =>
        r := Fault(err);
    }

    /** PUT api/investimento/{id}: change the proposal of an existing investment. */
    method Put(id: Int32, body: Option<Keyed<Investimento>>) returns (r: ActionResult<Keyed<Investimento>>)
      requires Valid()
      modifies investimentos`rows
      ensures body.None? || body.value.id != id ==>
        r == BadRequest(ErrorResponse(Some(MismatchMessage), None)) && investimentos.rows == old(investimentos.rows)
      ensures body.Some? && body.value.id == id && id !in old(investimentos.rows) ==>
        r == NotFound(ErrorResponse(Some(NotFoundMessage), None)) && investimentos.rows == old(investimentos.rows)
      ensures body.Some? && body.value.id == id && id in old(investimentos.rows) ==>
        var updated := ApplyPut(old(investimentos.rows[id]), body.value.value);
        r == Ok(SuccessResponse(Keyed(id, updated), Some(UpdatedMessage)))
        && investimentos.rows == old(investimentos.rows)[id := updated]
    {
      if body.None? || id != body.value.id {
        return BadRequest(ErrorResponse(Some(MismatchMessage), None));
      }
      var found := investimentos.GetById(Some(id));
      match found
      case Success(Some(existing)) =>
        var updated := ApplyPut(existing.value, body.value.value);
        var saved := investimentos.Update(Some(Keyed(id, updated)));
        match saved {
          case Success(row) =>
            r := Ok(SuccessResponse(row, Some(UpdatedMessage)));
          case Failure(err) =>
            r := Fault(err);
        }
      case _ =>
        r := NotFound(ErrorResponse(Some(NotFoundMessage), None));
    }

    /** DELETE api/investimento/{id}. */
    method Delete(id: Int32) returns (r: ActionResult<()>)
      modifies investimentos`rows
      ensures id !in old(investimentos.rows) ==>
        r == NotFound(ErrorResponse(Some(NotFoundMessage), None)) && investimentos.rows == old(investimentos.rows)
      ensures id in old(investimentos.rows) ==> r == NoContent && investimentos.rows == old(investimentos.rows) - {id}
    {
      var found := investimentos.GetById(Some(id));
      match found
      case Success(Some(investimento)) =>
        var deleted := investimentos.Delete(Some(investimento));
        match deleted {
          case Success(_) =>
            r := NoContent;
          case Failure(err) =>
            r := Fault(err);
        }
      case _ =>
        r := NotFound(ErrorResponse(Some(NotFoundMessage), None));
    }
  }
}
