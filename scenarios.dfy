/**
 * Sequences of requests, as the system tests under GridHub.Test/tests/system issue them,
 * proved from the controllers' contracts alone.
 */
module Scenarios {
  import opened Wrappers
  import opened Entities
  import opened Envelope
  import opened Actions
  import opened Store
  import Usuarios
  import Espacos
  import Microgrids
  import Relatorios

  /** A space that Post reports as created is read back by Get, field for field, under the returned id. */
  method CreatedSpaceIsReadBack(c: Espacos.EspacoController, body: Keyed<Espaco>)
    returns (created: ActionResult<Keyed<Espaco>>, fetched: ActionResult<Keyed<Espaco>>)
    requires c.Valid()
    modifies c.espacos
    ensures created.Created? ==>
      fetched == Ok(SuccessResponse(Keyed(created.routeId, Espacos.NewEspaco(body.value)), None))
  {
    created := c.Post(Some(body));
    fetched := c.Get(if created.Created? then created.routeId else 0);
  }

  /** A report that Delete removed is NotFound on the next Get, and a second Delete is NotFound too. */
  method DeletedReportIsGone(c: Relatorios.RelatorioController, id: Int32)
    returns (deleted: ActionResult<()>, fetched: ActionResult<Keyed<Relatorio>>, again: ActionResult<()>)
    modifies c.relatorios
    ensures deleted == NoContent <==> id in old(c.relatorios.rows)
    ensures fetched == NotFound(ErrorResponse(Some(Relatorios.NotFoundMessage), None))
    ensures again == NotFound(ErrorResponse(Some(Relatorios.NotFoundMessage), None))
    ensures c.relatorios.rows == old(c.relatorios.rows) - {id}
  {
    deleted := c.Delete(id);
    fetched := c.Get(id);
    again := c.Delete(id);
  }

  /** Two identical Puts leave the microgrid row as the first one left it. */
  method RepeatedPutIsIdempotent(c: Microgrids.MicrogridController, id: Int32, body: Keyed<Microgrid>)
    returns (first: ActionResult<Keyed<Microgrid>>, second: ActionResult<Keyed<Microgrid>>)
    requires c.Valid()
    modifies c.microgrids
    ensures first.Ok? ==> second == first
    ensures first.Ok? ==> first.response.data.Some? && c.microgrids.rows == old(c.microgrids.rows)[id := first.response.data.value.value]
  {
    first := c.Put(id, Some(body));
    second := c.Put(id, Some(body));
    if first.Ok? {
      Microgrids.PutIsIdempotent(old(c.microgrids.rows)[id], body.value);
    }
  }

  /** The unique index on Email: no two stored users share an address. */
  ghost predicate EmailsUnique(users: map<Int32, Usuario>)
  {
    forall i, j :: i in users && j in users && i != j ==> users[i].email != users[j].email
  }

  /** Four users with four different addresses satisfy the index. */
  lemma EmailsUniqueOfFour(users: map<Int32, Usuario>, k1: Int32, k2: Int32, k3: Int32, k4: Int32)
    requires users.Keys == {k1, k2, k3, k4}
    requires users[k1].email != users[k2].email && users[k1].email != users[k3].email
    requires users[k1].email != users[k4].email && users[k2].email != users[k3].email
    requires users[k2].email != users[k4].email && users[k3].email != users[k4].email
    ensures EmailsUnique(users)
  {
  }

  /**
   * Users posted without an id are numbered 1, 2, ...; after a user posted with the
   * explicit id 10, the next one gets 11.
   */
  method UserIdsFollowTheLargest() returns (a: ActionResult<Keyed<Usuario>>, b: ActionResult<Keyed<Usuario>>,
                                            c: ActionResult<Keyed<Usuario>>, d: ActionResult<Keyed<Usuario>>,
                                            stored: map<Int32, Usuario>)
    ensures a.Created? && a.routeId == 1
    ensures b.Created? && b.routeId == 2
    ensures c.Created? && c.routeId == 10
    ensures d.Created? && d.routeId == 11
    ensures stored.Keys == {1, 2, 10, 11} && EmailsUnique(stored)
  {
    var usuarios := new Repository<Usuario>(MaxPlusOne, _ => true);
    var controller := new Usuarios.UsuarioController(usuarios, (senha: string, salt: Usuarios.Salt) => senha + "#");
    var user := Usuario("", "segredo", "Ana", "000000000", "foto_padrao.png", 0);
    a := controller.Post(Some(Keyed(0, user.(email := "ana@example.com"))), 0, 1);
    assert usuarios.rows.Keys == {1} && usuarios.rows[1].email == "ana@example.com";
    b := controller.Post(Some(Keyed(0, user.(email := "bia@example.com"))), 0, 2);
    assert usuarios.rows.Keys == {1, 2} && usuarios.rows[2].email == "bia@example.com";
    c := controller.Post(Some(Keyed(10, user.(email := "caio@example.com"))), 0, 3);
    assert usuarios.rows.Keys == {1, 2, 10} && usuarios.rows[10].email == "caio@example.com";
    assert DbContext.MaxPersistedId(usuarios.rows.Keys) == 10;
    d := controller.Post(Some(Keyed(0, user.(email := "davi@example.com"))), 0, 4);
    stored := usuarios.rows;
    assert stored[11].email == "davi@example.com";
    EmailsUniqueOfFour(stored, 1, 2, 10, 11);
  }

  /**
   * The usuario key is recomputed from the rows present, not drawn from a sequence: once
   * the user with the largest id is deleted, the next user created gets that id again.
   */
  method DeletedTopUserIdIsReused() returns (second: ActionResult<Keyed<Usuario>>, third: ActionResult<Keyed<Usuario>>,
                                             stored: map<Int32, Usuario>)
    ensures second.Created? && third.Created? && second.routeId == third.routeId == 2
    ensures stored.Keys == {1, 2} && stored[2].email == "caio@example.com" && EmailsUnique(stored)
  {
    var usuarios := new Repository<Usuario>(MaxPlusOne, _ => true);
    var controller := new Usuarios.UsuarioController(usuarios, (senha: string, salt: Usuarios.Salt) => senha + "#");
    var user := Usuario("", "segredo", "Ana", "000000000", "foto_padrao.png", 0);
    var first := controller.Post(Some(Keyed(0, user.(email := "ana@example.com"))), 0, 1);
    second := controller.Post(Some(Keyed(0, user.(email := "bia@example.com"))), 0, 2);
    var deleted := controller.Delete(2);
    assert usuarios.rows.Keys == {1};
    third := controller.Post(Some(Keyed(0, user.(email := "caio@example.com"))), 0, 3);
    stored := usuarios.rows;
  }

  /**
   * With a stand-in hash that appends "#", the password a request sends is hashed twice on
   * the way in, once more on every read, and a Put whose payload has an empty password still
   * replaces the stored hash.
   */
  method PasswordIsHashedAtEveryStep() returns (created: ActionResult<Keyed<Usuario>>,
                                                 fetched: ActionResult<Keyed<Usuario>>,
                                                 updated: ActionResult<Keyed<Usuario>>,
                                                 stored: map<Int32, Usuario>)
    ensures created.Created? && created.response.data.Some? && created.response.data.value.value.senha == "senha123##"
    ensures fetched.Ok? && fetched.response.data.Some? && fetched.response.data.value.value.senha == "senha123###"
    ensures updated.Ok? && 1 in stored && stored[1].senha == "##" && stored[1].nome == "Ana Maria"
  {
    var usuarios := new Repository<Usuario>(MaxPlusOne, _ => true);
    var controller := new Usuarios.UsuarioController(usuarios, (senha: string, salt: Usuarios.Salt) => senha + "#");
    var ana := Usuario("ana@example.com", "senha123", "Ana", "000000000", "foto_padrao.png", 0);
    created := controller.Post(Some(Keyed(0, ana)), 0, 1);
    fetched := controller.Get(1, 2);
    updated := controller.Put(1, Some(Keyed(1, ana.(senha := "", nome := "Ana Maria"))), 3, 4, 5);
    stored := usuarios.rows;
  }

  /**
   * A user posted with UsuarioId -1 makes max + 1 come out as 0, which Entity Framework
   * takes for an unset key: the next user gets its id from the identity column instead,
   * and no row is ever stored under 0.
   */
  method ZeroFromMaxPlusOneFallsToIdentity() returns (a: ActionResult<Keyed<Usuario>>, b: ActionResult<Keyed<Usuario>>,
                                                      stored: map<Int32, Usuario>)
    ensures a.Created? && a.routeId == -1
    ensures b.Created? && b.routeId == 1
    ensures stored.Keys == {-1, 1} && 0 !in stored && EmailsUnique(stored)
  {
    var usuarios := new Repository<Usuario>(MaxPlusOne, _ => true);
    var controller := new Usuarios.UsuarioController(usuarios, (senha: string, salt: Usuarios.Salt) => senha + "#");
    var user := Usuario("", "segredo", "Ana", "000000000", "foto_padrao.png", 0);
    a := controller.Post(Some(Keyed(-1, user.(email := "ana@example.com"))), 0, 1);
    assert usuarios.rows.Keys == {-1};
    assert DbContext.MaxPersistedId(usuarios.rows.Keys) == -1;
    b := controller.Post(Some(Keyed(0, user.(email := "bia@example.com"))), 0, 2);
    stored := usuarios.rows;
  }

  /**
   * The walk of EspacoSystemTest: a user and a space facing north are created; the space
   * is read back, a Put of the fetched record renames it and turns it to the south, a Get
   * shows both changes, and after Delete a Get answers NotFound.
   */
  method SpaceLifecycle() returns (created: ActionResult<Keyed<Espaco>>, fetched: ActionResult<Keyed<Espaco>>,
                                   renamed: ActionResult<Keyed<Espaco>>, refetched: ActionResult<Keyed<Espaco>>,
                                   deleted: ActionResult<()>, afterDelete: ActionResult<Keyed<Espaco>>)
    ensures created.Created? && created.routeId != 0
    ensures created.response.data.Some? && created.response.data.value.value.nomeEspaco == "Espaço Solar"
    ensures created.response.data.value.value.orientacaoSolar == "Norte"
    ensures created.response.data.value.value.fotoEspaco == Some("foto_espaco.jpg")
    ensures fetched == Ok(SuccessResponse(created.response.data.value, None))
    ensures renamed.Ok?
    ensures refetched.Ok? && refetched.response.data.Some?
    ensures refetched.response.data.value.value.nomeEspaco == "Espaço Solar Atualizado"
    ensures refetched.response.data.value.value.orientacaoSolar == "Sul"
    ensures refetched.response.data.value.value.direcaoVento == Some("Sudeste")
    ensures deleted == NoContent
    ensures afterDelete == NotFound(ErrorResponse(Some(Espacos.NotFoundMessage), None))
  {
    var usuarios := new Repository<Usuario>(MaxPlusOne, _ => true);
    var espacos := new Repository<Espaco>(Identity, FitsEspacoTable);
    var users := new Usuarios.UsuarioController(usuarios, (senha: string, salt: Usuarios.Salt) => senha + "#");
    var carlos := Usuario("carlos@example.com", "senha123", "Carlos", "11999999999", "foto_padrao.png", 0);
    var user := users.Post(Some(Keyed(0, carlos)), 0, 13);
    assert user.Created? && user.routeId == 1;
    var spaces := new Espacos.EspacoController(espacos, usuarios);
    var body := Espaco(1, "Rua das Flores, 123", "Espaço Solar", Some("foto_espaco.jpg"), "Solar", "Norte", 4.5,
                       "Plano", 250.0, Some("Sudeste"), 2.3);
    created := spaces.Post(Some(Keyed(0, body)));
    assert created.Created? && created.routeId == 1;
    fetched := spaces.Get(created.routeId);
    var row := created.response.data.value;
    var edited := row.value.(nomeEspaco := "Espaço Solar Atualizado", orientacaoSolar := "Sul");
    renamed := spaces.Put(row.id, Some(Keyed(row.id, edited)));
    refetched := spaces.Get(row.id);
    deleted := spaces.Delete(created.routeId);
    afterDelete := spaces.Get(created.routeId);
  }

  /** A report whose microgrid does not exist is refused and nothing is stored. */
  method ReportForMissingMicrogridIsRefused() returns (r: ActionResult<Keyed<Relatorio>>, stored: map<Int32, Relatorio>)
    ensures r == BadRequest(ErrorResponse(Some(Relatorios.MicrogridNotFoundMessage), None))
    ensures stored == map[]
  {
    var relatorios := new Repository<Relatorio>(Identity, _ => true);
    var microgrids := new Repository<Microgrid>(Identity, FitsMicrogridTable);
    var reports := new Relatorios.RelatorioController(relatorios, microgrids);
    r := reports.Post(Some(Keyed(0, Relatorio(42, 1000.0, 25.0, 500.0))));
    stored := relatorios.rows;
  }
}
