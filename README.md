# Meeting-room reservations, modelled in Dafny

This project models the core of a meeting-room booking web application (ASP.NET
Core, Entity Framework Core, SignalR). It covers these parts:

- **Reservation engine** (`AgendamentoService`):
  - the checks a new reservation goes through, in their fixed order: start
    before end, not in the past, at most four hours, inside business hours on
    the Brasília clock, no overlap with another reservation of the same room;
  - the insert and the "technical error" outcome;
  - cancelling a reservation;
  - adding and deleting rooms;
  - the four reservation listings.
- **Room service** (`SalaService`): the day agenda of every room, and room
  writes.
- **Configuration service** (`ConfiguracaoService`): the business-hours row,
  read with a fallback and written as an upsert.
- **Usage report** (`RelatorioService`): for the last 30 days, the meeting
  count, the mean length, the five busiest rooms, and each user's favourite
  colour.
- **Database rules** (`AppDbContext`): the store's tables, their key and
  foreign-key constraints, cascade deletion from a room to its reservations,
  and the six seeded rooms.
- **Sign-in e-mail rule** (`Program.cs`): a Microsoft sign-in is refused
  unless the first e-mail claim ends in "@rioave.com.br", ignoring case.

How the model represents the system:

- **Instants** are .NET ticks held as integers. The current instant is a
  parameter.
- **Brasília time** is a fixed UTC−3 offset. The server clock used by
  `SalaService` (`DateTime.Today`, `ToUniversalTime`) is a separate offset
  parameter.
- **The database** is one class, `AppDbContext.Store`, whose `seq` fields
  are the tables. The service methods change those fields.
- **SignalR broadcasts** are a ghost counter, `notificacoes`.
- **The reservation invariant** (`InvarianteDeReservas`) says that no two
  reservations of one room overlap, and that every reservation has the shape
  the checks accept. It is proved to be kept by every write that changes the
  reservation table: `Reservar`, `CancelarAgendamento` and both `ExcluirSala`.
  The other writes leave that table as it was.
- **The business-hours check** is modelled exactly as written. It reads only
  the start hour and the end hour and minute on the Brasília clock, so a
  22:00 → 01:00 reservation passes it (`ReservaNoturnaPassaNoHorario`).
- **Business hours** are the constants 08:00 and 19:00 of `AgendamentoService`.
  The stored configuration is not read by the reservation checks.
- **The past check** compares the start with the clock directly.
- **There is no edit path**: reservations are only inserted and deleted, and
  the conflict check compares the new reservation with every stored one.
- **The conflict check and the insert** run one after the other, without a
  transaction.
- **The period listing** selects by start inside `[inicio, fim]`, both ends
  included.
- **Generated keys**: `Add` on a row whose Guid key is still `Guid.Empty` stores
  it under a key EF Core generates. That key is a parameter (`idGerado`) of
  every insert.

## Model

| member | source | states |
|---|---|---|
| Time.Hour | Infrastructure/Services/AgendamentoService.cs:84-87 | the local hour h of an instant in 0..23, with the local time of day inside [h hours, h+1 hours) |
| Time.Minute | Infrastructure/Services/AgendamentoService.cs:84-87 | the local minute m in 0..59, with the time of day inside the hour plus [m, m+1) minutes |
| Time.StartOfLocalDay | Infrastructure/Services/AgendamentoService.cs:28-29 | the UTC instant of the local midnight at or before t, less than a day before t and itself at local time 00:00 |
| Collections.Filter | Infrastructure/Services/AgendamentoService.cs:55 | `Where`: the kept elements are exactly those satisfying the predicate, each as many times as in the input |
| Collections.SortBy | Infrastructure/Services/AgendamentoService.cs:43 | `OrderBy`: a permutation of the input (same multiset) in non-decreasing key order |
| Collections.SortByDescending | Infrastructure/Services/AgendamentoService.cs:164 | `OrderByDescending`: a permutation of the input in non-increasing key order, duplicate-free when the input is |
| Collections.SortByName | Infrastructure/Services/AgendamentoService.cs:33 | `OrderBy(s => s.Nome)`: a permutation in ordinal name order |
| Collections.Distinct | Infrastructure/Services/RelatorioService.cs:53 | the `GroupBy` keys: duplicate-free, holding exactly the input's elements |
| Collections.DistinctFirstOccurrence | Infrastructure/Services/RelatorioService.cs:53 | the keys come in first-occurrence order: every occurrence of a later key is preceded by an occurrence of each earlier key |
| Collections.Tally | Infrastructure/Services/RelatorioService.cs:42-45 | `GroupBy(..).Count()`: one pair per distinct key with that key's true count, at least 1, and every input element has its pair |
| Collections.TallySums | Infrastructure/Services/RelatorioService.cs:42-45 | there are as many groups as distinct keys, and the group counts add up to the input length |
| AppDbContext.SementeDeSalas | Infrastructure/Data/AppDbContext.cs:31-39 | the seed loop builds exactly the six migration rows, with distinct ids 1..6 and capacity 12 for rooms 1-3, 8 for rooms 4-6 |
| AppDbContext.LinhaDaMigracao | Migrations/20260129190329_SeedSalas.cs:21-26 | row i of the migration is the room the seed loop builds for i, named "Sala i" |
| AppDbContext.SemSala | Infrastructure/Services/AgendamentoService.cs:153 | the rooms left after deleting room id are the others, and the key set loses exactly id |
| AppDbContext.SemAgendamentosDaSala | Infrastructure/Data/AppDbContext.cs:23-27 | the cascade keeps exactly the reservations of other rooms, each as many times as before |
| AppDbContext.SemAgendamento | Infrastructure/Services/AgendamentoService.cs:124 | the reservations left are the ones with another key, and the key set loses exactly id |
| AppDbContext.SemAgendamentoTamanho | Infrastructure/Services/AgendamentoService.cs:121-124 | with unique keys, deleting a present key removes exactly one row and an absent key changes nothing |
| AppDbContext.CascataPreservaReferencias | Infrastructure/Data/AppDbContext.cs:23-27 | deleting a room with its reservations keeps every remaining reservation pointing at an existing room |
| AppDbContext.CascataRemoveSoAsDaSala | Infrastructure/Data/AppDbContext.cs:23-27 | a stored reservation survives the cascade exactly when it belongs to another room |
| AppDbContext.IniciaEntre | Infrastructure/Services/AgendamentoService.cs:55 | the `Where` lambda of the period and day listings: the start lies in the closed window |
| AppDbContext.IniciaDesde | Infrastructure/Services/AgendamentoService.cs:32 | the `Where` lambda of the since-midnight listing: the start is at or after the limit |
| AppDbContext.SalasComAgendamentos | Infrastructure/Services/AgendamentoService.cs:31-34 | every room exactly once, in name order, each carrying exactly its own reservations that the filter accepts |
| AppDbContext.Store.constructor | Infrastructure/Data/AppDbContext.cs:31-39 | a fresh database holds the six seeded rooms and no reservations or configuration rows, and meets its constraints |
| AppDbContext.SalaGravada | Infrastructure/Services/AgendamentoService.cs:138 | the room `Add` stores: a `Guid.Empty` key is replaced by the generated key, any other key is kept, and nothing else changes |
| AppDbContext.AgendamentoGravado | Infrastructure/Services/AgendamentoService.cs:101 | the reservation `Add` stores: a `Guid.Empty` key is replaced by the generated key, any other key is kept, and nothing else changes |
| AppDbContext.AceitaAgendamento | Infrastructure/Data/AppDbContext.cs:23-27 | the database takes a reservation row exactly when its key is fresh, its room exists and its colour fits the 7-character column |
| AppDbContext.ChaveVaziaRecebeChaveGerada | Infrastructure/Services/AgendamentoService.cs:101-102 | a reservation keyed `Guid.Empty` never collides with a stored `Guid.Empty` key: with a fresh generated key it is taken exactly when its room exists and its colour fits |
| AppDbContext.Store.InserirSala | Infrastructure/Services/AgendamentoService.cs:138-139 | the insert succeeds exactly when the stored key (the generated one for `Guid.Empty`) is fresh, and then appends that row; otherwise nothing changes; constraints are kept |
| AppDbContext.Store.InserirAgendamento | Infrastructure/Services/AgendamentoService.cs:101-102 | the insert succeeds exactly when the row as stored has a fresh key, an existing room and a colour of at most 7 characters, and then appends that row |
| AppDbContext.Store.RemoverAgendamento | Infrastructure/Services/AgendamentoService.cs:124-125 | the table loses the row with that key and nothing else changes |
| AppDbContext.Store.RemoverSalaEmCascata | Infrastructure/Data/AppDbContext.cs:23-27 | the room and exactly its reservations are deleted, keeping the key and foreign-key constraints |
| AgendamentoService.Mensagem | Infrastructure/Services/AgendamentoService.cs:74-113 | the six texts returned beside the success flag, one per outcome |
| AgendamentoService.DuracaoPermitida | Infrastructure/Services/AgendamentoService.cs:80-82 | the duration check: a length of at most four hours passes |
| AgendamentoService.DentroDoHorarioComercial | Infrastructure/Services/AgendamentoService.cs:84-88 | the business-hours check as written: start hour at least 8, end hour at most 19, and in hour 19 minute 0 |
| AgendamentoService.Conflita | Infrastructure/Services/AgendamentoService.cs:92-94 | a stored reservation clashes with the new one when it is in the same room and the intervals overlap |
| AgendamentoService.DoisDigitos | Infrastructure/Services/AgendamentoService.cs:88 | the `:D2` format: two decimal digits whose value is n |
| AgendamentoService.MensagensInterpoladas | Infrastructure/Services/AgendamentoService.cs:82-88 | the interpolated messages read "...exceder 4 horas." and "...entre 08:00 e 19:00." |
| AgendamentoService.HorarioPeloRelogio | Infrastructure/Services/AgendamentoService.cs:84-88 | the hour test passes exactly when the local start is at or after 08:00 and the local end is before 19:01 |
| AgendamentoService.ExisteConflito | Infrastructure/Services/AgendamentoService.cs:91-94 | `AnyAsync`: true exactly when some stored reservation of the same room overlaps the new interval |
| AgendamentoService.ConflitaSimetrico | Infrastructure/Services/AgendamentoService.cs:92-94 | the overlap relation is symmetric |
| AgendamentoService.SemConflitoEncostadoOuOutraSala | Infrastructure/Services/AgendamentoService.cs:92-94 | back-to-back slots and slots in different rooms never clash |
| AgendamentoService.Decidir | Infrastructure/Services/AgendamentoService.cs:73-114 | each outcome holds exactly when every earlier check passed and its own failed, in the order: order, past, duration, hours, conflict; success also needs the store to accept the row as stored, with its generated key |
| AgendamentoService.LimitesInclusivos | Infrastructure/Services/AgendamentoService.cs:77-82 | a start exactly at now and a length of exactly four hours are accepted |
| AgendamentoService.UmTickAlemDoLimite | Infrastructure/Services/AgendamentoService.cs:80-82 | one tick over four hours is rejected for its duration |
| AgendamentoService.FronteirasDoHorario | Infrastructure/Services/AgendamentoService.cs:87-88 | 08:00-19:00 Brasília passes the hours check and an end at 19:01 fails it |
| AgendamentoService.ReservaNoturnaPassaNoHorario | Infrastructure/Services/AgendamentoService.cs:84-88 | a 22:00 → 01:00 reservation passes the hours and duration checks, since only hours and the end minute are read |
| AgendamentoService.SegundosNaoContam | Infrastructure/Services/AgendamentoService.cs:87 | an end at 19:00:30 passes, since seconds are not read |
| AgendamentoService.MesmaSalaEmSequencia | Infrastructure/Services/AgendamentoService.cs:91-97 | without overlaps, any two reservations of one room lie one after the other |
| AgendamentoService.ReservaPreservaInvariante | Infrastructure/Services/AgendamentoService.cs:73-102 | appending a reservation that the checks accept keeps the no-overlap and accepted-shape invariant |
| AgendamentoService.FiltroPreservaInvariante | Infrastructure/Services/AgendamentoService.cs:117-158 | deleting any reservations keeps the invariant |
| AgendamentoService.Reservar | Infrastructure/Services/AgendamentoService.cs:64-115 | the outcome is the decision above; on success exactly the new row, as stored with its generated key, is appended and one broadcast sent; any failure changes nothing; rooms and configuration untouched; invariant kept |
| AgendamentoService.CancelarAgendamento | Infrastructure/Services/AgendamentoService.cs:117-129 | true exactly for a stored key; then exactly that row goes and one broadcast is sent; otherwise nothing changes |
| AgendamentoService.CancelarDuasVezes | Infrastructure/Services/AgendamentoService.cs:117-129 | after a cancel the key is absent, so cancelling again finds nothing and changes nothing |
| AgendamentoService.AdicionarSala | Infrastructure/Services/AgendamentoService.cs:135-141 | the room, as stored with its generated key, is appended and one broadcast sent exactly when that key is fresh; otherwise nothing changes |
| AgendamentoService.ExcluirSala | Infrastructure/Services/AgendamentoService.cs:143-158 | false and no change for an absent room; otherwise the room and exactly its reservations go, with one broadcast; invariant kept |
| AgendamentoService.ObterAgendamentosPorPeriodo | Infrastructure/Services/AgendamentoService.cs:47-58 | exactly the reservations with start in [inicio, fim], as many times as stored, in ascending start order |
| AgendamentoService.ListarAgendamentosCalendario | Infrastructure/Services/AgendamentoService.cs:37-45 | every reservation, as many times as stored, by ascending start |
| AgendamentoService.ListarTodosAgendamentosAdmin | Infrastructure/Services/AgendamentoService.cs:160-166 | every reservation, as many times as stored, by descending start |
| AgendamentoService.PeriodoAbrangenteEOCalendario | Infrastructure/Services/AgendamentoService.cs:37-58 | a period that contains every start returns the calendar listing |
| AgendamentoService.ListarSalasComAgendamentos | Infrastructure/Services/AgendamentoService.cs:23-35 | every room once, in name order, each with exactly its reservations starting at or after the latest Brasília midnight |
| AgendamentoService.PainelDesdeMeiaNoite | Infrastructure/Services/AgendamentoService.cs:28-32 | a reservation of today that has ended is still listed; one that began yesterday and is still running is not |
| SalaService.InicioDoDia | Infrastructure/Services/SalaService.cs:23 | the server's midnight at or before the given instant, less than a day before it |
| SalaService.FimDoDia | Infrastructure/Services/SalaService.cs:24 | the day's last tick: on the same server-clock day, with the next tick the following midnight |
| SalaService.JanelaEODiaDoInicio | Infrastructure/Services/SalaService.cs:22-28 | a reservation is in the day window exactly when it starts on that server-clock day |
| SalaService.ListarAgendaDoDia | Infrastructure/Services/SalaService.cs:18-32 | every room once, in name order, each with exactly its reservations starting in [start of day, start of day + 1 day - 1 tick] |
| SalaService.BordasDoDia | Infrastructure/Services/SalaService.cs:23-28 | a reservation from the previous day that runs into the day is excluded, and one starting in the day's last tick is included |
| SalaService.ListarSalasComAgendamentos | Infrastructure/Services/SalaService.cs:12-15 | every room once, in name order, each with exactly its reservations starting on the server's current day |
| SalaService.SalasComAgendamentosEAgendaDeHoje | Infrastructure/Services/SalaService.cs:12-15 | the shortcut equals the agenda of the current instant's day |
| SalaService.AdicionarSala | Infrastructure/Services/SalaService.cs:34-40 | exactly one room, as stored with its generated key, is appended, with one broadcast, when that key is fresh; otherwise nothing changes |
| SalaService.ExcluirSala | Infrastructure/Services/SalaService.cs:42-52 | an unknown key changes nothing and sends nothing; otherwise the room goes with its reservations, with one broadcast; the reservation invariant is kept |
| ConfiguracaoService.ObterConfiguracao | Infrastructure/Services/ConfiguracaoService.cs:11-16 | the default 8-18 object with an empty key on an empty table, else the first row |
| ConfiguracaoService.LinhaInserida | Infrastructure/Services/ConfiguracaoService.cs:23 | the row `Add` stores: a `Guid.Empty` key is replaced by the generated key, any other key is kept |
| ConfiguracaoService.Atualizada | Infrastructure/Services/ConfiguracaoService.cs:18-29 | one new row on an empty table; otherwise the first row takes c's two hours and keeps its key, and the row count and the other rows are unchanged |
| ConfiguracaoService.ObterAposAtualizar | Infrastructure/Services/ConfiguracaoService.cs:11-29 | on a table of at most one row, the read after an update returns c's opening and closing hours |
| ConfiguracaoService.AtualizarIdempotente | Infrastructure/Services/ConfiguracaoService.cs:18-29 | repeating the same update leaves the table unchanged |
| ConfiguracaoService.UmaLinhaAposAtualizacoes | Infrastructure/Services/ConfiguracaoService.cs:18-29 | from a table of at most one row, any run of updates leaves exactly one row, keyed by the first update when the table was empty, with the last update's hours |
| ConfiguracaoService.AtualizarConfiguracao | Infrastructure/Services/ConfiguracaoService.cs:18-32 | the configuration table becomes the upserted one, the other tables are unchanged, the constraints (with the configuration key among them) are kept, and one broadcast is sent |
| RelatorioService.NomeDaCor | Infrastructure/Services/RelatorioService.cs:63-65 | the dictionary's name for a known colour tag; "Outro / Personalizado" exactly for an unknown one |
| RelatorioService.NomesDasCores | Infrastructure/Services/RelatorioService.cs:10-17 | the map has five entries and the lookup is case-sensitive ("#007acc" is unknown) |
| RelatorioService.UltimosTrintaDias | Infrastructure/Services/RelatorioService.cs:24-30 | exactly the reservations starting at or after now minus 30 days, as many times as stored |
| RelatorioService.TruncDiv | Infrastructure/Services/RelatorioService.cs:38 | the `(int)` cast of a quotient: truncation toward zero for either sign |
| RelatorioService.TempoMedioMinutos | Infrastructure/Services/RelatorioService.cs:37-38 | for a non-negative total, m whole minutes times the count is at most the total length and m+1 is over it |
| RelatorioService.MediaLimitada | Infrastructure/Services/RelatorioService.cs:37-38 | lengths between 0 and four hours give a mean between 0 and 240 minutes |
| RelatorioService.SalaDe | Infrastructure/Services/RelatorioService.cs:27 | `Include(a => a.Sala)`: the room with that key if the table holds one, else none |
| RelatorioService.NomeDaSala | Infrastructure/Services/RelatorioService.cs:42 | "Sem Sala" for a missing room; with unique room keys, the room's own name otherwise |
| RelatorioService.GruposPorUso | Infrastructure/Services/RelatorioService.cs:41-47 | the room groups with their true counts, distinct names, counts at least 1 and non-increasing, every room present |
| RelatorioService.Barras | Infrastructure/Services/RelatorioService.cs:43-48 | the `Select` into `DadoGrafico` of the first k groups: bar i carries group i's name and count |
| RelatorioService.SalasMaisUsadas | Infrastructure/Services/RelatorioService.cs:48 | `Take(5)`: at most five bars |
| RelatorioService.FormaDasSalasMaisUsadas | Infrastructure/Services/RelatorioService.cs:41-49 | the bars have distinct names and non-increasing values, each the room's true count of at least one |
| RelatorioService.SalasMaisUsadasSaoAsMaisUsadas | Infrastructure/Services/RelatorioService.cs:41-49 | a room not shown is used no more often than any room shown, and with fewer than five bars every room is shown |
| RelatorioService.CoresDe | Infrastructure/Services/RelatorioService.cs:56-57 | exactly the colours of that user's reservations |
| RelatorioService.CorFavorita | Infrastructure/Services/RelatorioService.cs:56-59 | a colour of the user's that is used at least as often as any other |
| RelatorioService.UsuarioCorDe | Infrastructure/Services/RelatorioService.cs:69 | the row built for user u is named u, the group key |
| RelatorioService.LinhaDoUsuarioCorreta | Infrastructure/Services/RelatorioService.cs:54-73 | the user's row holds their reservation count, a colour of theirs of maximal count, and its readable name |
| RelatorioService.LinhasPorUsuario | Infrastructure/Services/RelatorioService.cs:52-74 | one row per distinct user, the row at position i built for the i-th distinct user |
| RelatorioService.LinhasNaOrdemDosUsuarios | Infrastructure/Services/RelatorioService.cs:53 | the rows follow the users' first reservations: a reservation of a later row's user is preceded by one of every earlier row's user |
| RelatorioService.PreferenciaCores | Infrastructure/Services/RelatorioService.cs:52-76 | a permutation of the user rows with non-increasing totals |
| RelatorioService.LinhasCorretas | Infrastructure/Services/RelatorioService.cs:52-76 | every row of the colour table is correct for its user |
| RelatorioService.LinhasSemRepeticao | Infrastructure/Services/RelatorioService.cs:53 | the grouped rows are distinct and have distinct user names |
| RelatorioService.LinhasCobremUsuarios | Infrastructure/Services/RelatorioService.cs:52-53 | a user has a row exactly when they have a selected reservation |
| RelatorioService.PreferenciaReordenaLinhas | Infrastructure/Services/RelatorioService.cs:75 | sorting keeps the same rows, still without repetition |
| RelatorioService.UmaLinhaPorUsuario | Infrastructure/Services/RelatorioService.cs:52-76 | the table has distinct user names, and a user appears exactly when they have a selected reservation |
| RelatorioService.SomaDasLinhas | Infrastructure/Services/RelatorioService.cs:72 | the users' totals add up to the number of selected reservations |
| RelatorioService.TotaisSomamReunioes | Infrastructure/Services/RelatorioService.cs:52-79 | the sorted table's totals add up to the number of selected reservations |
| RelatorioService.GerarRelatorio | Infrastructure/Services/RelatorioService.cs:19-82 | the total is the selection's size; an empty selection gives the empty report; otherwise the mean, the bars and the user table are those of the selection; at most five bars; user totals non-increasing |
| RelatorioService.RelatorioConsistente | Infrastructure/Services/RelatorioService.cs:41-79 | the report's user totals add up to its meeting count, and its bars are distinct rooms by non-increasing count, each at least 1 |
| RelatorioService.MediaDoRelatorioLimitada | Infrastructure/Services/RelatorioService.cs:37-38 | on a store that keeps the reservation invariant, the mean lies between 0 and 240 minutes |
| RelatorioService.SemSalaSoSemReferencia | Infrastructure/Services/RelatorioService.cs:42 | with valid foreign keys, and no room named "Sem Sala", no reservation is grouped under "Sem Sala" |
| Login.UpperAscii | Program.cs:62 | ordinal ignore-case folding on ASCII: letters map to upper-case letters, other characters to themselves |
| Login.LoginPermitido | Program.cs:62 | only a present claim at least as long as the domain can be accepted |
| Login.PermitidoSeTerminaNoDominio | Program.cs:62 | accepted exactly when the address ends in a spelling of "@rioave.com.br" that differs only in ASCII letter case |
| Login.DominioEmQualquerCaixa | Program.cs:62 | any local part followed by the domain in any ASCII letter case is accepted |
| Login.SemEmailRecusado | Program.cs:60-64 | a missing claim and an empty claim are refused |
| Login.SoODominioAceito | Program.cs:62 | the bare string "@rioave.com.br" is accepted |
| Login.CaixaMistaAceita | Program.cs:62 | a mixed-case address in the domain is accepted |
| Login.SufixosParecidos | Program.cs:62-64 | "x@rioave.com.br.evil", "x.rioave.com.br" and "rioave.com.br" are refused |
| Login.Maiusculas | Program.cs:62 | a string with every ASCII letter upper-cased, position by position |
| Login.IgualIgnorandoCaixa | Program.cs:60-62 | `StringComparison.OrdinalIgnoreCase` equality: the two strings agree once their ASCII letters are upper-cased |
| Login.TerminaComIgnorandoCaixa | Program.cs:62 | `EndsWith(.., OrdinalIgnoreCase)`: the suffix fits and equals the string's tail ignoring ASCII case |
| Login.PrimeiroValor | Program.cs:60 | `FindFirst`: none exactly when no claim has the type up to letter case, else the value of a claim whose type equals it ignoring case |
| Login.PrimeiroValorEOPrimeiro | Program.cs:60 | the value found belongs to the first claim whose type equals the given one ignoring case |
| Login.EmailDoPrincipal | Program.cs:60 | no claim without a principal; otherwise the first claim whose type is the e-mail type up to letter case |
| Login.FalhaDoTicket | Program.cs:58-65 | the handler fails the ticket, with the fixed message, exactly when the e-mail is not permitted |
| Login.SoOEmailDecide | Program.cs:60-62 | principals with the same e-mail claim get the same outcome |
| Login.SoOPrimeiroEmailConta | Program.cs:60-64 | a later in-domain e-mail claim does not rescue a first claim from elsewhere |
| Login.OutrosClaimsIgnorados | Program.cs:60 | claims whose type differs from the e-mail type even ignoring case are passed over |
| Login.TipoEmOutraCaixaConta | Program.cs:60-64 | a first claim whose type is the e-mail type in another letter case is the e-mail claim, and a later in-domain claim does not rescue it |

## Left out

- Concurrency and transactions: every operation runs alone and in full. The conflict check and the insert are not atomic in the code, and no claim about races is made.
- Reservar: a `SendAsync` failure after `SaveChanges` lands in the same `catch`: the caller gets the technical error while the row stays stored. Broadcasts are a ghost counter that cannot fail, so this case is not modelled.
- SignalR transport, the hub, and OAuth, cookie and Identity wiring: outside the core. Broadcasts are counted, not delivered.
- Floating point: `TotalHours`, `TotalMinutes` and the `double` chart values are exact integers here. The duration check compares ticks, and the mean is an integer quotient truncated toward zero.
- RelatorioService.SalasMaisUsadas and RelatorioService.PreferenciaCores: the order among equal counts (`OrderByDescending`'s stability) is not stated. Only non-increasing order is.
- RelatorioService.CorFavorita: which of several equally frequent colours `First()` picks is not stated. Only maximality is.
- Collections.SortByName: ordinal character order stands in for the database collation that PostgreSQL applies to `OrderBy(s => s.Nome)`.
- 32-bit `int` overflow in capacities, hours and counts: integers are unbounded. No operation here comes near the limit.
- Login.UpperAscii: folds ASCII letters only, for the domain suffix and for the claim types. .NET's ordinal ignore-case comparison also folds other Unicode letters.
- Column types other than the colour: only the 7-character limit of the `AdicionarCorAgendamento` migration is enforced on insert. The colour's `#RRGGBB` form is not checked.
- GUID text parsing: ids are their 128-bit values, and the seeded ids are the values 1 to 6.
- Time zones: Brasília is a fixed UTC−3, since Brazil has had no daylight saving time since 2019. The server clock is a fixed offset parameter. `DateTime.Kind` handling is not modelled: neither `SpecifyKind`, nor `data.Date.ToUniversalTime()` in SalaService.cs:23, which leaves a Utc-kind `data` unshifted, while SalaService.InicioDoDia always shifts by the server offset.
- `Include(a => a.Sala)` in the calendar listing: navigation loading has no effect on which rows are returned or on their order.
- Reservar: the technical error stands only for a failed insert (`falhaAoGravar` or a row the database refuses). A failure of the `AnyAsync` conflict query, which runs outside the `try` and so goes uncaught, is not modelled. The broadcast failure inside the `try` is the `SendAsync` case above.
- The `Configuracoes` table: AppDbContext.cs declares no `DbSet` for it, but the `AdicionarConfiguracoes` migration creates it. The model has the table in the store.
- ConfiguracaoService.AtualizarConfiguracao: a key collision on insert is not modelled, since the row is only inserted into an empty table.
- ConfiguracaoService.ObterConfiguracao and ConfiguracaoService.Atualizada: `FirstOrDefaultAsync()` without `OrderBy` fixes no row when the table holds several, so the read and the update may meet different rows. The model takes the first row in both, and ObterAposAtualizar and UmaLinhaAposAtualizacoes are stated only for a table of at most one row, which is what the migration and the updates produce.
- Instants: the model keeps .NET's 100-nanosecond ticks, while PostgreSQL's `timestamp` columns keep microseconds, so a stored instant may lose its last digit on a round trip through the database.
- Generated keys: `idGerado` is any key. EF Core's generator makes it fresh in practice, and a collision is the technical-error path.
- DbInitializer.cs (admin account seeding), CustomCalendarItem.cs and the DTO classes: outside the core. The DTOs appear only as datatypes.
