/** The reservation engine (`AgendamentoService`): the checks a new reservation
    goes through, in their fixed order, the same-room overlap rule, the writes
    on the store, and the reservation listings. */
module AgendamentoService {
  import opened Time
  import opened Entities
  import opened Collections
  import opened AppDbContext

  const DuracaoMaximaHoras: int := 4
  const HoraInicioComercial: int := 8
  const HoraFimComercial: int := 19

  // ------------------------------------------------------------ outcomes

  /** Why `ReservarAsync` turned a reservation down, one constructor per message. */
  datatype Rejeicao =
    | InicioNaoAnteriorAoFim
    | NoPassado
    | DuracaoExcedida
    | ForaDoHorarioComercial
    | HorarioOcupado
    | ErroTecnico

  /** The `(bool Sucesso, string Mensagem)` pair, before it is rendered as text. */
  datatype Resultado = Sucesso | Falha(motivo: Rejeicao)

  /** A number below 100 written with two digits (the `:D2` format). */
  function DoisDigitos(n: int): (s: string)
    requires 0 <= n < 100
    ensures |s| == 2
    ensures '0' <= s[0] <= '9' && '0' <= s[1] <= '9'
    ensures (s[0] as int - '0' as int) * 10 + (s[1] as int - '0' as int) == n
  {
    [DigitChar(n / 10), DigitChar(n % 10)]
  }

  /** The message returned beside the success flag. */
  function Mensagem(r: Resultado): string {
    match r
    case Sucesso => "Agendamento realizado com sucesso!"
    case Falha(InicioNaoAnteriorAoFim) => "A hora de início deve ser anterior à hora de fim."
    case Falha(NoPassado) => "Não é possível agendar reuniões no passado."
    case Falha(DuracaoExcedida) => "A reserva não pode exceder " + [DigitChar(DuracaoMaximaHoras)] + " horas."
    case Falha(ForaDoHorarioComercial) =>
      "As reservas devem ser feitas entre " + DoisDigitos(HoraInicioComercial) + ":00 e "
      + DoisDigitos(HoraFimComercial) + ":00."
    case Falha(HorarioOcupado) => "Já existe uma reunião agendada para este horário nesta sala."
    case Falha(ErroTecnico) => "Erro técnico ao salvar no banco de dados."
  }

  /** The interpolated messages read as the constants make them. */
  lemma MensagensInterpoladas()
    ensures Mensagem(Falha(DuracaoExcedida)) == "A reserva não pode exceder 4 horas."
    ensures Mensagem(Falha(ForaDoHorarioComercial)) == "As reservas devem ser feitas entre 08:00 e 19:00."
  {
    assert DoisDigitos(HoraInicioComercial) == "08";
    assert DoisDigitos(HoraFimComercial) == "19";
  }

  // ---------------------------------------------------------- the checks

  /** The duration check: `(Fim - Inicio).TotalHours > 4` rejects. */
  predicate DuracaoPermitida(novo: Agendamento) {
    novo.fim - novo.inicio <= DuracaoMaximaHoras * TicksPerHour
  }

  /** The business-hours check, as written: on the Brasília clock the start hour
      must be at least 8, and the end must not be past 19:00 by its hour or,
      in hour 19, by its minute. Seconds and the dates are not inspected. */
  predicate DentroDoHorarioComercial(novo: Agendamento) {
    var horaInicio := Hour(novo.inicio, BrasiliaOffset);
    var horaFim := Hour(novo.fim, BrasiliaOffset);
    var minutoFim := Minute(novo.fim, BrasiliaOffset);
    !(horaInicio < HoraInicioComercial || horaFim > HoraFimComercial
      || (horaFim == HoraFimComercial && minutoFim > 0))
  }

  /** The business-hours check read off the clock: the start is at or after
      08:00 and the end is before 19:01, on the Brasília clock of their own days. */
  lemma {:induction false} HorarioPeloRelogio(novo: Agendamento)
    ensures DentroDoHorarioComercial(novo) <==>
              TimeOfDay(novo.inicio, BrasiliaOffset) >= HoraInicioComercial * TicksPerHour
              && TimeOfDay(novo.fim, BrasiliaOffset) < HoraFimComercial * TicksPerHour + TicksPerMinute
  {
    var hi := Hour(novo.inicio, BrasiliaOffset);
    var hf := Hour(novo.fim, BrasiliaOffset);
    var mf := Minute(novo.fim, BrasiliaOffset);
    var ti := TimeOfDay(novo.inicio, BrasiliaOffset);
    var tf := TimeOfDay(novo.fim, BrasiliaOffset);
    assert hi < HoraInicioComercial <==> ti < HoraInicioComercial * TicksPerHour;
    assert hf * TicksPerHour <= tf < (hf + 1) * TicksPerHour;
    assert hf * TicksPerHour + mf * TicksPerMinute <= tf < hf * TicksPerHour + (mf + 1) * TicksPerMinute;
    if hf > HoraFimComercial {
      assert tf >= 20 * TicksPerHour;
    } else if hf == HoraFimComercial {
      assert mf > 0 <==> tf >= HoraFimComercial * TicksPerHour + TicksPerMinute;
    } else {
      assert tf < HoraFimComercial * TicksPerHour;
    }
  }

  /** A clash with a stored reservation: the same room and intervals that overlap. */
  predicate Conflita(a: Agendamento, novo: Agendamento) {
    a.salaId == novo.salaId && a.inicio < novo.fim && a.fim > novo.inicio
  }

  /** `Agendamentos.AnyAsync(a => Conflita(a, novo))`. */
  function ExisteConflito(rs: seq<Agendamento>, novo: Agendamento): (b: bool)
    ensures b <==> exists i :: 0 <= i < |rs| && Conflita(rs[i], novo)
  {
    if rs == [] then false
    else if Conflita(rs[|rs| - 1], novo) then true
    else ExisteConflito(rs[..|rs| - 1], novo)
  }

  /** Clashing is symmetric. */
  lemma ConflitaSimetrico(a: Agendamento, b: Agendamento)
    ensures Conflita(a, b) <==> Conflita(b, a)
  {
  }

  /** Back-to-back slots and slots in other rooms never clash. */
  lemma SemConflitoEncostadoOuOutraSala(a: Agendamento, novo: Agendamento)
    requires a.fim <= novo.inicio || novo.fim <= a.inicio || a.salaId != novo.salaId
    ensures !Conflita(a, novo)
  {
  }

  // ---------------------------------------------------------- the decision

  /** The outcome of `ReservarAsync` for `novo` against the stored tables at instant
      `agora`; `idGerado` is the key EF Core would generate for a `Guid.Empty` key,
      and `falhaAoGravar` stands for a storage failure the code cannot foresee
      (a lost connection, say), which lands in the same `catch`. */
  function Decidir(rs: seq<Agendamento>, salas: seq<Sala>, novo: Agendamento, agora: Instant,
                   idGerado: Guid, falhaAoGravar: bool)
    : (r: Resultado)
    // the checks run in a fixed order and the first that fails decides
    ensures r == Falha(InicioNaoAnteriorAoFim) <==> novo.inicio >= novo.fim
    ensures r == Falha(NoPassado) <==> novo.inicio < novo.fim && novo.inicio < agora
    ensures r == Falha(DuracaoExcedida) <==>
              novo.inicio < novo.fim && novo.inicio >= agora
              && novo.fim - novo.inicio > DuracaoMaximaHoras * TicksPerHour
    ensures r == Falha(ForaDoHorarioComercial) <==>
              novo.inicio < novo.fim && novo.inicio >= agora && DuracaoPermitida(novo)
              && !DentroDoHorarioComercial(novo)
    ensures r == Falha(HorarioOcupado) <==>
              novo.inicio < novo.fim && novo.inicio >= agora && DuracaoPermitida(novo)
              && DentroDoHorarioComercial(novo)
              && exists i :: 0 <= i < |rs| && Conflita(rs[i], novo)
    ensures r == Sucesso <==>
              novo.inicio < novo.fim && novo.inicio >= agora && DuracaoPermitida(novo)
              && DentroDoHorarioComercial(novo)
              && (forall a :: a in rs ==> !Conflita(a, novo))
              && AceitaAgendamento(rs, salas, AgendamentoGravado(novo, idGerado)) && !falhaAoGravar
  {
    if novo.inicio >= novo.fim then Falha(InicioNaoAnteriorAoFim)
    else if novo.inicio < agora then Falha(NoPassado)
    else if !DuracaoPermitida(novo) then Falha(DuracaoExcedida)
    else if !DentroDoHorarioComercial(novo) then Falha(ForaDoHorarioComercial)
    else if ExisteConflito(rs, novo) then Falha(HorarioOcupado)
    else if falhaAoGravar || !AceitaAgendamento(rs, salas, AgendamentoGravado(novo, idGerado)) then Falha(ErroTecnico)
    else Sucesso
  }

  /** A start exactly at `agora` is not in the past, and exactly four hours is
      not too long: with the other checks met, such a reservation goes through. */
  lemma LimitesInclusivos(rs: seq<Agendamento>, salas: seq<Sala>, novo: Agendamento, agora: Instant, idGerado: Guid)
    requires novo.inicio == agora && novo.fim == agora + DuracaoMaximaHoras * TicksPerHour
    requires DentroDoHorarioComercial(novo) && !ExisteConflito(rs, novo)
    requires AceitaAgendamento(rs, salas, AgendamentoGravado(novo, idGerado))
    ensures Decidir(rs, salas, novo, agora, idGerado, false) == Sucesso
  {
  }

  /** One tick longer than four hours is rejected for its duration. */
  lemma UmTickAlemDoLimite(rs: seq<Agendamento>, salas: seq<Sala>, novo: Agendamento, agora: Instant,
                           idGerado: Guid, falhaAoGravar: bool)
    requires agora <= novo.inicio && novo.fim == novo.inicio + DuracaoMaximaHoras * TicksPerHour + 1
    ensures Decidir(rs, salas, novo, agora, idGerado, falhaAoGravar) == Falha(DuracaoExcedida)
  {
  }

  /** A reservation starting at 08:00 and ending at exactly 19:00 in Brasília
      passes the business-hours check; one ending at 19:01 does not. */
  lemma FronteirasDoHorario(dia: int, novo: Agendamento)
    requires novo.inicio == dia * TicksPerDay + HoraInicioComercial * TicksPerHour - BrasiliaOffset
    ensures novo.fim == dia * TicksPerDay + HoraFimComercial * TicksPerHour - BrasiliaOffset ==> DentroDoHorarioComercial(novo)
    ensures novo.fim == dia * TicksPerDay + HoraFimComercial * TicksPerHour + TicksPerMinute - BrasiliaOffset ==> !DentroDoHorarioComercial(novo)
  {
    TimeOfDayOnDay(dia, HoraInicioComercial * TicksPerHour, BrasiliaOffset);
    TimeOfDayOnDay(dia, HoraFimComercial * TicksPerHour, BrasiliaOffset);
    TimeOfDayOnDay(dia, HoraFimComercial * TicksPerHour + TicksPerMinute, BrasiliaOffset);
    HorarioPeloRelogio(novo);
  }

  /** Since only the start hour and the end hour are inspected, a three-hour
      reservation from 22:00 to 01:00 the next day, Brasília time, passes the
      business-hours check. */
  lemma ReservaNoturnaPassaNoHorario(dia: int, novo: Agendamento)
    requires novo.inicio == dia * TicksPerDay + 22 * TicksPerHour - BrasiliaOffset
    requires novo.fim == novo.inicio + 3 * TicksPerHour
    ensures DentroDoHorarioComercial(novo) && DuracaoPermitida(novo)
  {
    TimeOfDayOnDay(dia, 22 * TicksPerHour, BrasiliaOffset);
    TimeOfDayOnDay(dia + 1, 1 * TicksPerHour, BrasiliaOffset);
    HorarioPeloRelogio(novo);
  }

  /** Seconds are not inspected: an end at 19:00:30 passes the check. */
  lemma SegundosNaoContam(dia: int, novo: Agendamento)
    requires novo.inicio == dia * TicksPerDay + 17 * TicksPerHour - BrasiliaOffset
    requires novo.fim == dia * TicksPerDay + HoraFimComercial * TicksPerHour + 30 * TicksPerSecond - BrasiliaOffset
    ensures DentroDoHorarioComercial(novo)
  {
    TimeOfDayOnDay(dia, 17 * TicksPerHour, BrasiliaOffset);
    TimeOfDayOnDay(dia, HoraFimComercial * TicksPerHour + 30 * TicksPerSecond, BrasiliaOffset);
    HorarioPeloRelogio(novo);
  }

  // ------------------------------------------------------ the invariant

  function NaoConflitam(a: Agendamento, b: Agendamento): bool {
    !Conflita(a, b)
  }

  /** No two stored reservations of one room overlap. */
  ghost predicate SemSobreposicao(rs: seq<Agendamento>) {
    Pairwise(rs, NaoConflitam)
  }

  /** What every reservation written through `ReservarAsync` satisfies apart from
      the time it was made: a positive length of at most four hours, within the
      business hours as checked. */
  predicate FormaAceita(a: Agendamento) {
    a.inicio < a.fim && DuracaoPermitida(a) && DentroDoHorarioComercial(a)
  }

  /** The state the reservation writes keep. */
  ghost predicate InvarianteDeReservas(rs: seq<Agendamento>) {
    SemSobreposicao(rs) && forall a :: a in rs ==> FormaAceita(a)
  }

  /** Without overlaps, any two reservations of one room, at different positions,
      lie one after the other. */
  lemma {:induction false} MesmaSalaEmSequencia(rs: seq<Agendamento>, i: int, j: int)
    requires SemSobreposicao(rs)
    requires 0 <= i < |rs| && 0 <= j < |rs| && i != j
    requires rs[i].salaId == rs[j].salaId
    ensures rs[i].fim <= rs[j].inicio || rs[j].fim <= rs[i].inicio
  {
    if i < j {
      assert NaoConflitam(rs[i], rs[j]);
    } else {
      assert NaoConflitam(rs[j], rs[i]);
    }
  }

  /** A successful reservation keeps the stored reservations free of overlaps
      and of reservations the checks would turn down. */
  lemma {:induction false} ReservaPreservaInvariante(
    rs: seq<Agendamento>, salas: seq<Sala>, novo: Agendamento, agora: Instant, idGerado: Guid, falhaAoGravar: bool)
    requires InvarianteDeReservas(rs)
    requires Decidir(rs, salas, novo, agora, idGerado, falhaAoGravar) == Sucesso
    ensures InvarianteDeReservas(rs + [AgendamentoGravado(novo, idGerado)])
  {
    var g := AgendamentoGravado(novo, idGerado);
    var t := rs + [g];
    forall i, j | 0 <= i < j < |t| ensures NaoConflitam(t[i], t[j]) {
      assert t[i] == rs[i];
      if j == |rs| {
        assert t[i] in rs;
      } else {
        assert t[j] == rs[j];
      }
    }
    forall a | a in t ensures FormaAceita(a) {
      if a != g {
        assert a in rs;
      }
    }
  }

  /** Deleting reservations, whichever, keeps the invariant. */
  lemma FiltroPreservaInvariante(rs: seq<Agendamento>, p: Agendamento -> bool)
    requires InvarianteDeReservas(rs)
    ensures InvarianteDeReservas(Filter(rs, p))
  {
    FilterKeepsPairwise(rs, p, NaoConflitam);
  }

  // ------------------------------------------------------------ the writes

  /** `ReservarAsync`: the checks in order, then the insert and the broadcast.
      A rejection, a technical one included, leaves the store as it was. */
  method Reservar(db: Store, novo: Agendamento, agora: Instant, idGerado: Guid, falhaAoGravar: bool)
    returns (r: Resultado)
    requires db.Valid()
    modifies db
    ensures db.Valid()
    ensures r == Decidir(old(db.agendamentos), old(db.salas), novo, agora, idGerado, falhaAoGravar)
    ensures r == Sucesso ==> db.agendamentos == old(db.agendamentos) + [AgendamentoGravado(novo, idGerado)]
                             && db.notificacoes == old(db.notificacoes) + 1
    ensures r != Sucesso ==> db.agendamentos == old(db.agendamentos) && db.notificacoes == old(db.notificacoes)
    ensures db.salas == old(db.salas) && db.configuracoes == old(db.configuracoes)
    ensures InvarianteDeReservas(old(db.agendamentos)) ==> InvarianteDeReservas(db.agendamentos)
  {
    if novo.inicio >= novo.fim {
      return Falha(InicioNaoAnteriorAoFim);
    }
    if novo.inicio < agora {
      return Falha(NoPassado);
    }
    if novo.fim - novo.inicio > DuracaoMaximaHoras * TicksPerHour {
      return Falha(DuracaoExcedida);
    }
    var horaInicio := Hour(novo.inicio, BrasiliaOffset);
    var horaFim := Hour(novo.fim, BrasiliaOffset);
    var minutoFim := Minute(novo.fim, BrasiliaOffset);
    if horaInicio < HoraInicioComercial || horaFim > HoraFimComercial
       || (horaFim == HoraFimComercial && minutoFim > 0) {
      return Falha(ForaDoHorarioComercial);
    }
    if ExisteConflito(db.agendamentos, novo) {
      return Falha(HorarioOcupado);
    }
    if falhaAoGravar {
      return Falha(ErroTecnico);
    }
    ghost var antes := db.agendamentos;
    var gravado := db.InserirAgendamento(novo, idGerado);
    if !gravado {
      return Falha(ErroTecnico);
    }
    db.notificacoes := db.notificacoes + 1;
    if InvarianteDeReservas(antes) {
      ReservaPreservaInvariante(antes, db.salas, novo, agora, idGerado, falhaAoGravar);
    }
    r := Sucesso;
  }

  /** `CancelarAgendamentoAsync`: removes the reservation with that key, if any. */
  method CancelarAgendamento(db: Store, id: Guid) returns (removido: bool)
    requires db.Valid()
    modifies db
    ensures db.Valid()
    ensures removido <==> id in AgendamentoIds(old(db.agendamentos))
    ensures db.agendamentos == SemAgendamento(old(db.agendamentos), id)
    ensures |db.agendamentos| == |old(db.agendamentos)| - (if removido then 1 else 0)
    ensures !removido ==> db.agendamentos == old(db.agendamentos)
    ensures db.notificacoes == old(db.notificacoes) + (if removido then 1 else 0)
    ensures db.salas == old(db.salas) && db.configuracoes == old(db.configuracoes)
    ensures InvarianteDeReservas(old(db.agendamentos)) ==> InvarianteDeReservas(db.agendamentos)
  {
    SemAgendamentoTamanho(db.agendamentos, id);
    removido := id in AgendamentoIds(db.agendamentos);
    if !removido {
      return;
    }
    if InvarianteDeReservas(db.agendamentos) {
      FiltroPreservaInvariante(db.agendamentos, NaoEAgendamento(id));
    }
    db.RemoverAgendamento(id);
    db.notificacoes := db.notificacoes + 1;
  }

  /** Cancelling a reservation removes its key, so cancelling it again finds nothing. */
  lemma CancelarDuasVezes(rs: seq<Agendamento>, id: Guid)
    requires DistinctBy(rs, IdOfAgendamento)
    ensures id !in AgendamentoIds(SemAgendamento(rs, id))
    ensures SemAgendamento(SemAgendamento(rs, id), id) == SemAgendamento(rs, id)
  {
    FilterKeepsDistinctBy(rs, NaoEAgendamento(id), IdOfAgendamento);
    SemAgendamentoTamanho(SemAgendamento(rs, id), id);
  }

  /** `AdicionarSalaAsync`: the insert, then the broadcast. A duplicate key makes
      `SaveChanges` throw: `ok` is false and nothing changes. */
  method AdicionarSala(db: Store, sala: Sala, idGerado: Guid) returns (ok: bool)
    requires db.Valid()
    modifies db
    ensures db.Valid()
    ensures ok <==> SalaGravada(sala, idGerado).id !in SalaIds(old(db.salas))
    ensures db.salas == if ok then old(db.salas) + [SalaGravada(sala, idGerado)] else old(db.salas)
    ensures db.notificacoes == old(db.notificacoes) + (if ok then 1 else 0)
    ensures db.agendamentos == old(db.agendamentos) && db.configuracoes == old(db.configuracoes)
  {
    ok := db.InserirSala(sala, idGerado);
    if ok {
      db.notificacoes := db.notificacoes + 1;
    }
  }

  /** `ExcluirSalaAsync`: false for an unknown room; otherwise the room goes, and
      with it every reservation of that room and no other. */
  method ExcluirSala(db: Store, salaId: Guid) returns (excluida: bool)
    requires db.Valid()
    modifies db
    ensures db.Valid()
    ensures excluida <==> salaId in SalaIds(old(db.salas))
    ensures excluida ==> db.salas == SemSala(old(db.salas), salaId)
                         && db.agendamentos == SemAgendamentosDaSala(old(db.agendamentos), salaId)
                         && db.notificacoes == old(db.notificacoes) + 1
    ensures !excluida ==> db.salas == old(db.salas) && db.agendamentos == old(db.agendamentos)
                          && db.notificacoes == old(db.notificacoes)
    ensures db.configuracoes == old(db.configuracoes)
    ensures InvarianteDeReservas(old(db.agendamentos)) ==> InvarianteDeReservas(db.agendamentos)
  {
    excluida := salaId in SalaIds(db.salas);
    if !excluida {
      return;
    }
    if InvarianteDeReservas(db.agendamentos) {
      FiltroPreservaInvariante(db.agendamentos, NaoEDaSala(salaId));
    }
    db.RemoverSalaEmCascata(salaId);
    db.notificacoes := db.notificacoes + 1;
  }

  // ------------------------------------------------------------ the reads

  /** The reservations starting within [inicio, fim], by count and by membership. */
  lemma FiltroDoPeriodo(rs: seq<Agendamento>, inicio: Instant, fim: Instant)
    ensures var f := Filter(rs, IniciaEntre(inicio, fim));
      && (forall a :: multiset(f)[a] == if inicio <= a.inicio <= fim then multiset(rs)[a] else 0)
      && (forall a :: a in f <==> a in rs && inicio <= a.inicio <= fim)
  {
    var p := IniciaEntre(inicio, fim);
    forall a ensures p(a) == (inicio <= a.inicio <= fim) {
    }
  }

  /** `ObterAgendamentosPorPeriodoAsync`: the reservations starting within
      [inicio, fim], both ends included, by ascending start. */
  function ObterAgendamentosPorPeriodo(rs: seq<Agendamento>, inicio: Instant, fim: Instant): (r: seq<Agendamento>)
    ensures forall a :: multiset(r)[a] == if inicio <= a.inicio <= fim then multiset(rs)[a] else 0
    ensures forall a :: a in r <==> a in rs && inicio <= a.inicio <= fim
    ensures forall i, j :: 0 <= i < j < |r| ==> r[i].inicio <= r[j].inicio
  {
    FiltroDoPeriodo(rs, inicio, fim);
    SortBy(Filter(rs, IniciaEntre(inicio, fim)), InicioOf)
  }

  /** `ListarAgendamentosCalendarioAsync`: every reservation, by ascending start. */
  function ListarAgendamentosCalendario(rs: seq<Agendamento>): (r: seq<Agendamento>)
    ensures multiset(r) == multiset(rs)
    ensures forall i, j :: 0 <= i < j < |r| ==> r[i].inicio <= r[j].inicio
  {
    SortBy(rs, InicioOf)
  }

  /** `ListarTodosAgendamentosAdminAsync`: every reservation, latest start first. */
  function ListarTodosAgendamentosAdmin(rs: seq<Agendamento>): (r: seq<Agendamento>)
    ensures multiset(r) == multiset(rs)
    ensures forall i, j :: 0 <= i < j < |r| ==> r[i].inicio >= r[j].inicio
  {
    SortByDescending(rs, InicioOf)
  }

  /** A period that holds every start returns the calendar listing. */
  lemma {:induction false} PeriodoAbrangenteEOCalendario(rs: seq<Agendamento>, inicio: Instant, fim: Instant)
    requires forall a :: a in rs ==> inicio <= a.inicio <= fim
    ensures ObterAgendamentosPorPeriodo(rs, inicio, fim) == ListarAgendamentosCalendario(rs)
  {
    FilterAll(rs, IniciaEntre(inicio, fim));
  }

  /** `ListarSalasComAgendamentosAsync`: every room by name, each with its
      reservations starting at or after the latest Brasília midnight. */
  function ListarSalasComAgendamentos(salas: seq<Sala>, rs: seq<Agendamento>, agora: Instant)
    : (r: seq<SalaComAgenda>)
    ensures |r| == |salas|
    ensures multiset(SalasDe(r)) == multiset(salas)
    ensures forall i, j :: 0 <= i < j < |r| ==> LexLe(r[i].sala.nome, r[j].sala.nome)
    ensures forall i :: 0 <= i < |r| ==>
              forall a :: a in r[i].agendamentos <==>
                a in rs && a.salaId == r[i].sala.id && a.inicio >= StartOfLocalDay(agora, BrasiliaOffset)
  {
    SalasComAgendamentos(salas, rs, IniciaDesde(StartOfLocalDay(agora, BrasiliaOffset)))
  }

  /** The dashboard keeps a reservation of today even when it has ended, and
      drops one that started yesterday, even when it is still running. */
  lemma PainelDesdeMeiaNoite(agora: Instant, a: Agendamento)
    ensures a.inicio >= StartOfLocalDay(agora, BrasiliaOffset) && a.inicio <= a.fim < agora ==>
              IniciaDesde(StartOfLocalDay(agora, BrasiliaOffset))(a)
    ensures a.inicio < StartOfLocalDay(agora, BrasiliaOffset) <= agora < a.fim ==>
              !IniciaDesde(StartOfLocalDay(agora, BrasiliaOffset))(a)
  {
  }
}
