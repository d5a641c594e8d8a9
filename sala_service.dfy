/** The room service (`SalaService`): the day agenda of every room, and the room
    writes. Its day is the calendar day of the server's clock, an offset given
    as a parameter. */
module SalaService {
  import opened Time
  import opened Entities
  import opened Collections
  import opened AppDbContext
  import AgendamentoService

  /** First tick of the day of `data`: `data.Date.ToUniversalTime()`, the
      server's midnight at or before `data`. */
  function InicioDoDia(data: Instant, offsetServidor: int): (inicio: Instant)
    ensures inicio <= data < inicio + TicksPerDay
    ensures TimeOfDay(inicio, offsetServidor) == 0
  {
    StartOfLocalDay(data, offsetServidor)
  }

  /** Last tick of that day: `inicioDia.AddDays(1).AddTicks(-1)`, still on the
      day of `data`, with the next tick the following midnight. */
  function FimDoDia(data: Instant, offsetServidor: int): (fim: Instant)
    ensures data <= fim
    ensures StartOfLocalDay(fim, offsetServidor) == StartOfLocalDay(data, offsetServidor)
    ensures TimeOfDay(fim + 1, offsetServidor) == 0
  {
    var inicio := InicioDoDia(data, offsetServidor);
    StartOfLocalDayWithin(inicio, inicio + TicksPerDay - 1, offsetServidor);
    inicio + TicksPerDay - 1
  }

  /** A reservation lies in the day's window exactly when it starts on that
      day of the server's clock; when it ends plays no part. */
  lemma {:induction false} JanelaEODiaDoInicio(data: Instant, offsetServidor: int, a: Agendamento)
    ensures IniciaEntre(InicioDoDia(data, offsetServidor), FimDoDia(data, offsetServidor))(a)
            <==> StartOfLocalDay(a.inicio, offsetServidor) == StartOfLocalDay(data, offsetServidor)
  {
    var d := StartOfLocalDay(data, offsetServidor);
    if d <= a.inicio <= d + TicksPerDay - 1 {
      StartOfLocalDayWithin(d, a.inicio, offsetServidor);
    }
  }

  /** `ListarAgendaDoDiaAsync(data)`: every room by name, with the reservations
      of that room that start on the day of `data`. */
  function ListarAgendaDoDia(salas: seq<Sala>, rs: seq<Agendamento>, data: Instant, offsetServidor: int)
    : (r: seq<SalaComAgenda>)
    ensures |r| == |salas|
    ensures multiset(SalasDe(r)) == multiset(salas)
    ensures forall i, j :: 0 <= i < j < |r| ==> LexLe(r[i].sala.nome, r[j].sala.nome)
    ensures forall i :: 0 <= i < |r| ==>
              forall a :: a in r[i].agendamentos <==>
                a in rs && a.salaId == r[i].sala.id
                && InicioDoDia(data, offsetServidor) <= a.inicio <= FimDoDia(data, offsetServidor)
  {
    SalasComAgendamentos(salas, rs, IniciaEntre(InicioDoDia(data, offsetServidor), FimDoDia(data, offsetServidor)))
  }

  /** A reservation that started the day before and runs into the requested day
      is left out, and one that starts in the day's last tick is kept. */
  lemma BordasDoDia(data: Instant, offsetServidor: int, a: Agendamento, b: Agendamento)
    requires a.inicio < InicioDoDia(data, offsetServidor) < a.fim
    requires b.inicio == FimDoDia(data, offsetServidor)
    ensures !IniciaEntre(InicioDoDia(data, offsetServidor), FimDoDia(data, offsetServidor))(a)
    ensures IniciaEntre(InicioDoDia(data, offsetServidor), FimDoDia(data, offsetServidor))(b)
  {
  }

  /** `ListarSalasComAgendamentosAsync`: the agenda of `DateTime.Today`, the
      server's midnight before `agora`: every room by name, with the reservations
      of that room that start on the server's current day. */
  function ListarSalasComAgendamentos(salas: seq<Sala>, rs: seq<Agendamento>, agora: Instant, offsetServidor: int)
    : (r: seq<SalaComAgenda>)
    ensures |r| == |salas|
    ensures multiset(SalasDe(r)) == multiset(salas)
    ensures forall i, j :: 0 <= i < j < |r| ==> LexLe(r[i].sala.nome, r[j].sala.nome)
    ensures forall i :: 0 <= i < |r| ==>
              forall a :: a in r[i].agendamentos <==>
                a in rs && a.salaId == r[i].sala.id
                && StartOfLocalDay(agora, offsetServidor) <= a.inicio < StartOfLocalDay(agora, offsetServidor) + TicksPerDay
  {
    StartOfLocalDayIdempotent(agora, offsetServidor);
    ListarAgendaDoDia(salas, rs, StartOfLocalDay(agora, offsetServidor), offsetServidor)
  }

  /** The shortcut lists the same as the agenda of the current instant. */
  lemma {:induction false} SalasComAgendamentosEAgendaDeHoje(
    salas: seq<Sala>, rs: seq<Agendamento>, agora: Instant, offsetServidor: int)
    ensures ListarSalasComAgendamentos(salas, rs, agora, offsetServidor)
            == ListarAgendaDoDia(salas, rs, agora, offsetServidor)
  {
    var hoje := StartOfLocalDay(agora, offsetServidor);
    StartOfLocalDayIdempotent(agora, offsetServidor);
    assert InicioDoDia(hoje, offsetServidor) == InicioDoDia(agora, offsetServidor);
    assert IniciaEntre(InicioDoDia(hoje, offsetServidor), FimDoDia(hoje, offsetServidor))
        == IniciaEntre(InicioDoDia(agora, offsetServidor), FimDoDia(agora, offsetServidor));
  }

  /** `AdicionarSalaAsync`: the insert, then the broadcast; a duplicate key makes
      `SaveChanges` throw, reported as `ok == false`, with nothing changed. */
  method AdicionarSala(db: Store, sala: Sala, idGerado: Guid) returns (ok: bool)
    requires db.Valid()
    modifies db
    ensures db.Valid()
    ensures ok <==> SalaGravada(sala, idGerado).id !in SalaIds(old(db.salas))
    ensures db.salas == if ok then old(db.salas) + [SalaGravada(sala, idGerado)] else old(db.salas)
    ensures ok ==> |db.salas| == |old(db.salas)| + 1
    ensures db.notificacoes == old(db.notificacoes) + (if ok then 1 else 0)
    ensures db.agendamentos == old(db.agendamentos) && db.configuracoes == old(db.configuracoes)
  {
    ok := db.InserirSala(sala, idGerado);
    if ok {
      db.notificacoes := db.notificacoes + 1;
    }
  }

  /** `ExcluirSalaAsync`: nothing for an unknown key; otherwise the room goes,
      the database cascading to its reservations. */
  method ExcluirSala(db: Store, id: Guid)
    requires db.Valid()
    modifies db
    ensures db.Valid()
    ensures db.salas == SemSala(old(db.salas), id)
    ensures db.agendamentos == SemAgendamentosDaSala(old(db.agendamentos), id)
    ensures id !in SalaIds(old(db.salas)) ==> db.salas == old(db.salas) && db.agendamentos == old(db.agendamentos)
    ensures db.notificacoes == old(db.notificacoes) + (if id in SalaIds(old(db.salas)) then 1 else 0)
    ensures db.configuracoes == old(db.configuracoes)
    ensures AgendamentoService.InvarianteDeReservas(old(db.agendamentos))
            ==> AgendamentoService.InvarianteDeReservas(db.agendamentos)
  {
    if id in SalaIds(db.salas) {
      if AgendamentoService.InvarianteDeReservas(db.agendamentos) {
        AgendamentoService.FiltroPreservaInvariante(db.agendamentos, NaoEDaSala(id));
      }
      db.RemoverSalaEmCascata(id);
      db.notificacoes := db.notificacoes + 1;
    } else {
      FilterAll(db.salas, NaoESala(id));
      assert forall a :: a in db.agendamentos ==> a.salaId != id;
      FilterAll(db.agendamentos, NaoEDaSala(id));
    }
  }
}
