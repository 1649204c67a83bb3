# GridHub request handling, modelled in Dafny

GridHub is the CRUD backend of a crowdfunding platform for renewable microgrids. Users
(Usuario) register spaces (Espaco), attach microgrids (Microgrid) to them, receive
investments (Investimento) and record performance reports (Relatorio). This project models
the request-handling rules of the five controllers over their tables. It also models the
three pieces they rest on: the `ApiResponse<T>` envelope, the generic `Repository<T>`, and
the database context's rule for numbering new users.

Layout, one module per source component:

- `wrappers.dfy` (`Wrappers`): `Option` stands for a nullable C# reference and `GetOr` for `??`. `Result` stands for a call that can throw.
- `entities.dfy` (`Entities`): the five entity records. `Int32` is C#'s `int`, and `Keyed<T>` pairs a record with its key column.
- `envelope.dfy` (`Envelope`): `ApiResponse<T>` and its two factories.
- `actions.dfy` (`Actions`): the tagged action results Ok, Created, BadRequest, NotFound and NoContent. `Fault` stands for an exception the controller does not catch.
- `dbcontext.dfy` (`DbContext`): the Usuario id rule of `SaveChangesAsync`. It holds the rule as written, the corrected rule, and the loop over tracked entries.
- `repository.dfy` (`Store`): `Repository<T>` as a class over a `map<Int32, T>` table.
- `usuario_controller.dfy`, `espaco_controller.dfy`, `microgrid_controller.dfy`, `investimento_controller.dfy`, `relatorio_controller.dfy`: one class per controller. Each action is a method whose `ensures` gives the action result and the new table for every branch.
- `scenarios.dfy` (`Scenarios`): sequences of requests modelled on the system tests, proved from the contracts alone.

How the model reads the source:

- Every mutating repository call ends in `SaveChanges`, so `rows` is always the committed table. A failed insert, update or delete leaves it unchanged.
- A key of 0 is filled in at save time. Usuario takes the largest persisted `UsuarioId` plus one, or 1 on an empty table. The other four tables use an identity column that starts at 1 and counts up by 1, held in `nextIdentity`. An explicit non-zero key is kept. A key that is already present fails as a primary-key violation.
- When the Usuario rule itself yields 0 (the largest persisted id is -1), the key is still at the CLR default. Entity Framework treats such a key as unset for a `ValueGeneratedOnAdd` property (`UsuarioMapping.cs:16-18`), so the identity column (`20241121140814_vAdicionando_Tb_Usuario_Espaco.cs:18-19`) supplies it. No row is ever stored under key 0.
- Each table carries its NOT NULL constraints as `admits`. `FotoEspaco`, `DirecaoVento` and `FotoMicrogrid` have no `[Required]`, so a request body may leave them null, but their columns are NOT NULL (`EspacoMapping.cs:29-31` and `53-55` with lines 41 and 47 of the Usuario/Espaco migration, and line 22 of `20241121193938_vAdicionando_Tb_Microgrid.cs`). Post always fills them with defaults. A Put that carries a null there is rejected by the save and surfaces as `Fault(NotNullViolation)`.
- Put fetches the tracked row, assigns some of its fields in place, then calls Update. The model computes the assigned row as a value (`ApplyPut`) and writes it back with `Update`.
- Post reads the new id off the record it passed to `Add`. In the model, `Add` returns that record with its key filled in.
- `Usuario` has a single constructor, `Usuario(email, senha)`, which hashes `senha` with BCrypt, and `Senha` has a private setter (`GridHub.Database/Models/Usuario.cs:9-13`, `:24`, `:41-44`). So every `Usuario` object holds a hash. Model binding builds the request body through that constructor from the JSON payload, and Entity Framework builds each row it reads through it from the stored column. The user actions therefore take the JSON payload, and `WithHashedPassword` is applied once for binding and once for each read. As written, Post stores a hash of the hash of the password sent, and Get returns a fresh hash of the stored hash. Put's keep-the-password branch (`UsuarioController.cs:100`) is never taken, because a bound body's password is a hash and never empty (`Scenarios.PasswordIsHashedAtEveryStep`).
- Report creation checks that its microgrid exists (`RelatorioController.cs:63-67`). Usuario Post keeps a non-zero `UsuarioId` from the body instead of always letting the store choose. Put overwrites only the listed fields, not every mutable one: Investimento changes only its proposal. User ids are not monotonic over time: deleting the user with the largest id makes that id the next one handed out (`Scenarios.DeletedTopUserIdIsReused`).

## Model

| member | source | states |
|---|---|---|
| `Envelope.Empty` | GridHub.API/Configuration/APIResponse.cs:11-14 | The parameterless constructor: not a success, no message, no data, and an empty (never null) error list. |
| `Envelope.SuccessResponse` | GridHub.API/Configuration/APIResponse.cs:16-24 | A success that carries exactly the given data and no errors. The message is the given one, or "Operação realizada com sucesso." when null. |
| `Envelope.ErrorResponse` | GridHub.API/Configuration/APIResponse.cs:26-34 | A failure with no data. The message is the given one, or "Operação mal sucedida." when null. The errors are the given list, or empty when null. |
| `DbContext.MaxPersistedId` | GridHub.Database/FIAPDBContext.cs:37-40 | The descending-order FirstOrDefault query gives the largest persisted id, or 0 on an empty table. |
| `DbContext.Wrap32` | GridHub.Database/FIAPDBContext.cs:42 | C# unchecked `int` addition: in-range values are kept, and int.MaxValue + 1 becomes int.MinValue. |
| `DbContext.NewUsuarioIdAsWritten` | GridHub.Database/FIAPDBContext.cs:42 | The assignment as written is max + 1, and it wraps to int.MinValue once int.MaxValue is persisted. |
| `DbContext.AsWrittenWrapsAround` | GridHub.Database/FIAPDBContext.cs:35-42 | Counterexample: with ids {5, int.MaxValue} persisted, the next new user gets int.MinValue, which is below a persisted id. |
| `DbContext.NewUsuarioId` | GridHub.Database/FIAPDBContext.cs:35-42 | Corrected rule: an id exists iff int.MaxValue is not taken. When it exists it is strictly greater than every persisted id, is therefore fresh, is 1 on an empty table, and agrees with the rule as written. |
| `DbContext.AssignedEntryTouchesOnlyNewIds` | GridHub.Database/FIAPDBContext.cs:32-35 | Entries that are not Added, or that already have a non-zero id, pass through unchanged. No entry changes state. A filled-in id is not a persisted one. |
| `DbContext.PendingUsersInOneSaveShareTheirId` | GridHub.Database/FIAPDBContext.cs:37-42 | The maximum comes from persisted rows only, so every zero-id user pending in one save gets the same id, max + 1. |
| `DbContext.AssignUsuarioIds` | GridHub.Database/FIAPDBContext.cs:32-44 | The loop over tracked Usuario entries. Entry by entry, the result is the entry with its id filled in by the rule. The save fails iff some entry needs an id and none is left. The rule is the corrected one (`NewUsuarioId`): where the program as written wraps to int.MinValue, this loop fails with KeysExhausted (see "## Findings"). |
| `Store.ListsTableSize` | GridHub.Repository/Repository.cs:60-68 | A listing that holds every row once, with its key, has exactly as many entries as the table has rows. |
| `Store.ListsTableEmpty` | GridHub.Repository/Repository.cs:60-68 | Such a listing is empty iff the table is empty. |
| `Store.Repository.constructor` | GridHub.Repository/Repository.cs:15-19 | The repository wraps the context's existing table. The model fixes that table's initial state to a freshly migrated database: an empty table whose identity sequence is at 1. The start value comes from `START WITH 1 INCREMENT BY 1` in GridHub.Database/Migrations/20241121140814_vAdicionando_Tb_Usuario_Espaco.cs:19 and :37, 20241121193938_vAdicionando_Tb_Microgrid.cs:18, and the Investimento and Relatorio migrations. The table's NOT NULL constraints are the given `admits`. |
| `Store.Repository.IdentityKey` | GridHub.Database/Migrations/20241121140814_vAdicionando_Tb_Usuario_Espaco.cs:18-19 | The identity column supplies the sequence's next value. The insert fails when that value is past int.MaxValue, or when an explicitly keyed row already holds it. |
| `Store.Repository.KeyFor` | GridHub.Database/FIAPDBContext.cs:29-46 | The key a save inserts under is never already present and never 0. A non-zero key is kept unless taken, which is the primary-key constraint (`PK_GRIDHUB_USUARIOS`, Usuario migration line 29). A zero Usuario key is max + 1 when that is not 0. It exceeds every persisted key, is 1 on an empty table, and fails once int.MaxValue is taken. When max + 1 is 0, and on the identity tables, a zero key is the identity column's next value (`UsuarioMapping.cs:16-18`, Usuario migration lines 18-19). The only failures are a duplicate key and exhausted keys. The Usuario rule is the corrected `NewUsuarioId` of "## Findings", which fails with KeysExhausted where the program as written wraps to int.MinValue. |
| `Store.Repository.Add` | GridHub.Repository/Repository.cs:22-32 | A null entity throws. A row the NOT NULL constraints reject fails. Otherwise the entity is inserted under its save-time key and returned with that key. A failed insert leaves the table unchanged. The identity sequence advances only when it supplied the key. A zero Usuario key follows the corrected rule of "## Findings", so taking int.MaxValue makes it fail with KeysExhausted instead of wrapping. |
| `Store.Repository.Update` | GridHub.Repository/Repository.cs:47-57 | A null entity throws. A key with no row fails and writes nothing. So does a row the NOT NULL constraints reject. Otherwise the whole row under the entity's key is replaced and the entity is returned. |
| `Store.Repository.Delete` | GridHub.Repository/Repository.cs:35-44 | A null entity throws. Otherwise exactly the row with the entity's key is removed. A key with no row fails and writes nothing. |
| `Store.Repository.GetById` | GridHub.Repository/Repository.cs:71-79 | A null id throws. Otherwise the result is present iff a row has that key, and it is that row. |
| `Store.Repository.GetAll` | GridHub.Repository/Repository.cs:60-68 | Every row of the table, each exactly once with its own key, and nothing else. |
| `Usuarios.UsuarioController.constructor` | GridHub.API/Controllers/UsuarioController.cs:19-22 | The controller holds the user repository. Its keys follow the max + 1 rule, and every row it is given is complete. The BCrypt function it is given never returns an empty string. |
| `Usuarios.UsuarioController.WithHashedPassword` | GridHub.Database/Models/Usuario.cs:9-13 | `DefinirSenha` (Usuario.cs:41-44), as called by the constructor and at UsuarioController.cs:64, replaces Senha by the hash of the string it held and changes nothing else. |
| `Usuarios.UsuarioController.ApplyPut` | GridHub.API/Controllers/UsuarioController.cs:95-103 | Put takes Nome, Email, Telefone and FotoPerfil from the body and keeps DataCriacao. The stored hash is kept when the body's password is empty and is the hash of the body's password otherwise. |
| `Usuarios.UsuarioController.PutNeverKeepsThePassword` | GridHub.API/Controllers/UsuarioController.cs:100-103 | For a body bound from any payload, the new password is the hash of the hash of the payload's password: the keep branch is never taken. |
| `Usuarios.UsuarioController.RepeatedPutIsOnePut` | GridHub.API/Controllers/UsuarioController.cs:88-105 | Sending the same payload twice, with the row read back in between, gives the row one Put with the second request's salts gives. |
| `Usuarios.UsuarioController.Get` | GridHub.API/Controllers/UsuarioController.cs:32-42 | NotFound "Usuário não encontrado." exactly when no row has the id. Otherwise Ok with a success envelope wrapping the row as Entity Framework builds it: the stored row with its hash hashed again. |
| `Usuarios.UsuarioController.Post` | GridHub.API/Controllers/UsuarioController.cs:57-69 | A null body is BadRequest "Dados inválidos." with no write. Otherwise there is no reference or uniqueness check. Exactly one row, the payload with its password hashed by binding and hashed again at line 64, is added under a fresh key, and the result is Created with "Usuário criado com sucesso.". A zero id becomes max + 1, which exceeds every stored id and is 1 on an empty table. A non-zero id is kept. The key is never 0, and the identity sequence advances only when it supplied the key (max + 1 = 0). Once int.MaxValue is stored, a zero id gives Fault(KeysExhausted) under the corrected rule of "## Findings", where the program as written stores int.MinValue. |
| `Usuarios.UsuarioController.Put` | GridHub.API/Controllers/UsuarioController.cs:81-108 | A null body or an id mismatch is BadRequest whatever the store holds, with no write. An absent id is NotFound with no write. Otherwise the row becomes `ApplyPut` of the row as read back (its hash hashed again) and the bound body, and nothing else changes. |
| `Usuarios.UsuarioController.Delete` | GridHub.API/Controllers/UsuarioController.cs:118-129 | An absent id is NotFound with the store unchanged. Otherwise exactly that row is removed and the result is NoContent. |
| `Espacos.NewEspaco` | GridHub.API/Controllers/EspacoController.cs:89-102 | The created space is the body's record with the photo and wind direction never null. A null photo becomes "foto_espaco_padrao.jpg", a null wind direction becomes "Vento predominante do norte", and every other field is copied. |
| `Espacos.ApplyPut` | GridHub.API/Controllers/EspacoController.cs:132-141 | Put makes the row equal to the body in all ten descriptive fields, without defaulting, and keeps the owner. |
| `Espacos.PutIsIdempotent` | GridHub.API/Controllers/EspacoController.cs:132-143 | A repeated identical Put leaves the row as the first one left it. |
| `Espacos.EspacoController.constructor` | GridHub.API/Controllers/EspacoController.cs:21-25 | The controller holds the space and user repositories. The space table takes identity keys and admits exactly the rows with a photo and a wind direction. |
| `Espacos.EspacoController.Get` | GridHub.API/Controllers/EspacoController.cs:35-45 | NotFound "Espaço não encontrado." exactly when no row has the id. Otherwise Ok wrapping the row. |
| `Espacos.EspacoController.GetAll` | GridHub.API/Controllers/EspacoController.cs:53-65 | NotFound "Nenhum espaço encontrado." exactly when the store is empty. Otherwise Ok listing every row once. |
| `Espacos.EspacoController.Post` | GridHub.API/Controllers/EspacoController.cs:76-107 | A null body is BadRequest "Dados inválidos.". A missing owner is BadRequest "Usuário não encontrado." with the store unchanged. Otherwise exactly one row, `NewEspaco` of the body, is added under the next identity key, never the body's EspacoId, and the result is Created with "Espaço criado com sucesso.". |
| `Espacos.EspacoController.Put` | GridHub.API/Controllers/EspacoController.cs:119-146 | A mismatch or null body is BadRequest with no write. An absent id is NotFound with no write. A body with a null photo or wind direction reaches the save and fails on the NOT NULL columns, with no write. Otherwise the row becomes `ApplyPut` of itself and the body, and the result is Ok. |
| `Espacos.EspacoController.Delete` | GridHub.API/Controllers/EspacoController.cs:156-167 | An absent id is NotFound with the store unchanged. Otherwise exactly that row is removed and the result is NoContent. |
| `Microgrids.NewMicrogrid` | GridHub.API/Controllers/MicrogridController.cs:97-109 | The created microgrid is the body's record with a never-null photo. A null photo becomes "foto_microgrid_padrao.jpg", and every other field is copied. |
| `Microgrids.ApplyPut` | GridHub.API/Controllers/MicrogridController.cs:139-146 | Put makes the row equal to the body in the eight descriptive fields and keeps the owner and the space. |
| `Microgrids.PutIsIdempotent` | GridHub.API/Controllers/MicrogridController.cs:139-148 | A repeated identical Put leaves the row as the first one left it. |
| `Microgrids.MicrogridController.constructor` | GridHub.API/Controllers/MicrogridController.cs:22-27 | The controller holds the microgrid, user and space repositories. The microgrid table takes identity keys and admits exactly the rows with a photo. |
| `Microgrids.MicrogridController.Get` | GridHub.API/Controllers/MicrogridController.cs:37-47 | NotFound "Microgrid não encontrada." exactly when no row has the id. Otherwise Ok wrapping the row. |
| `Microgrids.MicrogridController.GetAll` | GridHub.API/Controllers/MicrogridController.cs:55-67 | NotFound "Nenhuma microgrid encontrada." exactly when the store is empty. Otherwise Ok listing every row once. |
| `Microgrids.MicrogridController.Post` | GridHub.API/Controllers/MicrogridController.cs:78-114 | The user is checked before the space. A missing user is "Usuário não encontrado." even when the space is also missing. A missing space is "Espaço não encontrado.". Neither writes. Otherwise exactly one row, `NewMicrogrid` of the body, is added under the next identity key. |
| `Microgrids.MicrogridController.Put` | GridHub.API/Controllers/MicrogridController.cs:126-151 | A mismatch or null body is BadRequest. An absent id is NotFound. Neither writes. A body with a null photo fails at the save on the NOT NULL column, with no write. Otherwise the row becomes `ApplyPut` of itself and the body. |
| `Microgrids.MicrogridController.Delete` | GridHub.API/Controllers/MicrogridController.cs:161-172 | An absent id is NotFound with no write. Otherwise exactly that row is removed and the result is NoContent. |
| `Investimentos.ApplyPut` | GridHub.API/Controllers/InvestimentoController.cs:134 | Put changes only DescricaoProposta. The investor and the microgrid are kept. |
| `Investimentos.PutIsIdempotent` | GridHub.API/Controllers/InvestimentoController.cs:134-136 | A repeated identical Put leaves the row as the first one left it. |
| `Investimentos.InvestimentoController.constructor` | GridHub.API/Controllers/InvestimentoController.cs:22-29 | The controller holds the investment, user and microgrid repositories, and the investment table takes identity keys. |
| `Investimentos.InvestimentoController.Get` | GridHub.API/Controllers/InvestimentoController.cs:39-49 | NotFound "Investimento não encontrado." exactly when no row has the id. Otherwise Ok wrapping the row. |
| `Investimentos.InvestimentoController.GetAll` | GridHub.API/Controllers/InvestimentoController.cs:57-69 | NotFound "Nenhum investimento encontrado." exactly when the store is empty. Otherwise Ok listing every row once. |
| `Investimentos.InvestimentoController.Post` | GridHub.API/Controllers/InvestimentoController.cs:80-109 | A null body is BadRequest "Dados inválidos.". The user is checked first, then the microgrid, and each miss is BadRequest with its own message and no write. Otherwise a record of exactly UsuarioId, MicrogridId and DescricaoProposta is added under the next identity key, and the result is Created with "Investimento criado com sucesso.". |
| `Investimentos.InvestimentoController.Put` | GridHub.API/Controllers/InvestimentoController.cs:121-139 | A mismatch or null body is BadRequest. An absent id is NotFound. Neither writes. Otherwise only the proposal of that row changes. |
| `Investimentos.InvestimentoController.Delete` | GridHub.API/Controllers/InvestimentoController.cs:149-160 | An absent id is NotFound with no write. Otherwise exactly that row is removed and the result is NoContent. |
| `Relatorios.ApplyPut` | GridHub.API/Controllers/RelatorioController.cs:105-107 | Put takes the three measurements from the body and keeps the microgrid. |
| `Relatorios.PutIsIdempotent` | GridHub.API/Controllers/RelatorioController.cs:105-109 | A repeated identical Put leaves the row as the first one left it. |
| `Relatorios.RelatorioController.constructor` | GridHub.API/Controllers/RelatorioController.cs:21-25 | The controller holds the report and microgrid repositories, and the report table takes identity keys. |
| `Relatorios.RelatorioController.Get` | GridHub.API/Controllers/RelatorioController.cs:35-45 | NotFound "Relatório não encontrado." exactly when no row has the id. Otherwise Ok wrapping the row. |
| `Relatorios.RelatorioController.Post` | GridHub.API/Controllers/RelatorioController.cs:56-80 | A null body is BadRequest "Dados inválidos.". A missing microgrid is BadRequest "Microgrid não encontrada." with the store unchanged. Otherwise a record of exactly MicrogridId and the three measurements is added under the next identity key, and the result is Created with "Relatório criado com sucesso.". |
| `Relatorios.RelatorioController.Put` | GridHub.API/Controllers/RelatorioController.cs:92-112 | A mismatch or null body is BadRequest "Dados inválidos ou ID não corresponde ao relatório." whatever the store holds. An absent id is NotFound. Neither writes. Otherwise the row becomes `ApplyPut` of itself and the body. |
| `Relatorios.RelatorioController.Delete` | GridHub.API/Controllers/RelatorioController.cs:122-133 | An absent id is NotFound with no write. Otherwise exactly that row is removed and the result is NoContent. |
| `Scenarios.CreatedSpaceIsReadBack` | GridHub.API/Controllers/EspacoController.cs:35-106 | After a Post reports Created with id i, Get(i) returns the created record field for field. |
| `Scenarios.DeletedReportIsGone` | GridHub.Test/tests/system/RelatorioSystemTest.cs:153-158 | After Delete, Get and a second Delete of the same id both answer NotFound, and only that row is gone. |
| `Scenarios.RepeatedPutIsIdempotent` | GridHub.API/Controllers/MicrogridController.cs:128-150 | Two identical Puts give the same result, and the store holds what the first one wrote. |
| `Scenarios.UserIdsFollowTheLargest` | GridHub.Database/FIAPDBContext.cs:32-43 | Four users with four different e-mails, as the unique e-mail index requires, are posted. The first two, without an id, are numbered 1 and 2. One posted with id 10 keeps it, and the next one gets 11. The stored e-mails are pairwise distinct. |
| `Scenarios.DeletedTopUserIdIsReused` | GridHub.Database/FIAPDBContext.cs:37-42 | Users with different e-mails get 1 and 2. After user 2 is deleted, the next new user, with a third e-mail, gets 2 again: the stored table is {1, 2} with that user under 2, and the e-mails stay unique. |
| `Scenarios.SpaceLifecycle` | GridHub.Test/tests/system/EspacoSystemTest.cs:57-117 | Create a user, then the test's space "Espaço Solar", facing "Norte", with photo "foto_espaco.jpg". It gets a non-zero id. Get returns it unchanged. A Put of the fetched record renames it and turns it to "Sul". A second Get shows both changes and the kept wind direction. Delete is NoContent, and a later Get is NotFound. |
| `Scenarios.PasswordIsHashedAtEveryStep` | GridHub.API/Controllers/UsuarioController.cs:57-108 | With a stand-in hash that appends "#", a user posted with "senha123" is stored and returned with "senha123##". Get returns "senha123###". A Put whose payload has an empty password stores "##", so the password changes anyway. |
| `Scenarios.ZeroFromMaxPlusOneFallsToIdentity` | GridHub.Database/FIAPDBContext.cs:37-42 | On an empty user table, a user posted with id -1 keeps it. The next user, with another e-mail and id 0, gets 1 from the identity column, not max + 1 = 0. The stored keys are {-1, 1}, and the e-mails are unique. |
| `Scenarios.ReportForMissingMicrogridIsRefused` | GridHub.API/Controllers/RelatorioController.cs:63-67 | A report for a microgrid that does not exist is BadRequest "Microgrid não encontrada." and the report store stays empty. |

## Left out

- Hosting: `Program.cs`, dependency-injection registration, Swagger, CORS, logging and health checks are configuration outside the request-handling rules.
- `async`/`Task.Run`: every action is a sequential method. Concurrent requests, and the race between a reference check and the write that follows it, are not modelled.
- Null repositories passed to the controller constructors throw `ArgumentNullException`. Dafny references here are non-null, so that path does not arise.
- BCrypt: `HashPassword` is a function the user controller is given. Of its behaviour, only that its result is never empty is used. Its random salts, one for binding, one for each read and one for each `DefinirSenha` in an action, are parameters of Get, Post and Put. `VerificarSenha` is not used by the controllers.
- The address-lookup, energy-prediction and Stripe payment controllers and services are thin calls to external services.
- Schema facts the model uses: the identity columns' `START WITH 1 INCREMENT BY 1`, the primary keys (`DuplicateKey`), the NOT NULL columns FotoEspaco, DirecaoVento and FotoMicrogrid (`admits`), and a zero `ValueGeneratedOnAdd` key being taken as unset (`DrawsIdentity`). The schema facts it leaves out are the next two lines and the length limits below.
- Usuarios.UsuarioController.Post, Usuarios.UsuarioController.Put: the unique index `IX_GRIDHUB_USUARIOS_Email` (Usuario migration lines 66-69, `UsuarioMapping.cs:42-43`) is not modelled. The program's save fails for a second user with a stored e-mail, and for a Put that changes a user's e-mail to another user's, but the model stores both. Every scenario posts distinct e-mails, so none of them depends on this gap.
- Store.Repository.Delete: the cascade foreign key from GRIDHUB_ESPACOS to GRIDHUB_USUARIOS (Usuario migration line 58) is not modelled. Deleting a user removes only the user row, not that user's spaces.
- Validation attributes (`[Required]`, `[Range]`, `[StringLength]`) are enforced by model binding before an action runs. Required strings are modelled as never null. The properties without `[Required]` (FotoEspaco, DirecaoVento, FotoMicrogrid) are `Option<string>` in a request body. Their NOT NULL columns are modelled as the table's `admits`. Column length limits (`HasMaxLength`) and numeric precision are not modelled: the model has no string that is too long and no rounding.
- `double` measurement fields are `real` and `DateTime` is an integer tick count. They are only copied, never computed with.
- Usuarios.UsuarioController.Put: no idempotence is promised for a Put that keeps the stored password. A bound body always carries a hash, so that case never arises. `RepeatedPutIsOnePut` states what repeating a Put does instead.
- Store.Repository.GetAll: the `InvalidOperationException` for a null `DbSet` is not modelled. The constructor always initialises the set, so the branch cannot be taken.
- Store.Repository.Add: an identity value drawn by a failed insert is not consumed, although a database sequence would skip it. Running out of identity values past int.MaxValue is modelled as a failed insert. The real column would accept the value, and the failure would come when it is read back into an `int`.
- Store.Repository.Update, Store.Repository.Delete: Entity Framework's change tracking (attached entities, entry states other than the Added Usuario entries of `SaveChangesAsync`) is reduced to its effect on the committed table.
- The tests under `GridHub.Test` serve as evidence for properties and are not modelled themselves.

## Findings

| source | as written | input that shows it | evidently intended | confidence | as-written member | corrected member |
|---|---|---|---|---|---|---|
| GridHub.Database/FIAPDBContext.cs:42 | `entry.Entity.UsuarioId = maxId + 1` in unchecked `int` arithmetic | POST a user with UsuarioId 2147483647 (a non-zero id in the body is kept), then POST a user with UsuarioId 0. The second user gets id -2147483648, below the persisted ids. | A new id exceeds every persisted id. When int.MaxValue is taken there is no such id, so the save should fail. | medium, not executed | `DbContext.AsWrittenWrapsAround` | `DbContext.NewUsuarioId` |
