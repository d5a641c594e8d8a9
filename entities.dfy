/** The entities of the reservation system, as values. */
module Entities {
  import opened Time

  /** A 128-bit GUID, kept as its unsigned integer value. */
  type Guid = x: int | 0 <= x < 0x1_0000_0000_0000_0000_0000_0000_0000_0000

  /** `Guid.Empty`, the value of an unset Id. */
  const GuidEmpty: Guid := 0

  datatype Option<T> = None | Some(value: T)

  /** A meeting room (`Sala`). */
  datatype Sala = Sala(id: Guid, nome: string, capacidade: int)

  /** A reservation (`Agendamento`): its room by id, start and end as UTC instants,
      and its colour tag (`Cor`, a "#RRGGBB" string). */
  datatype Agendamento = Agendamento(
    id: Guid,
    salaId: Guid,
    titulo: string,
    responsavel: string,
    inicio: Instant,
    fim: Instant,
    cor: string)

  /** The business-hours row (`ConfiguracaoSistema`). */
  datatype ConfiguracaoSistema = ConfiguracaoSistema(id: Guid, horaAbertura: int, horaFechamento: int)

  /** A room as a listing returns it, with the reservations the listing included. */
  datatype SalaComAgenda = SalaComAgenda(sala: Sala, agendamentos: seq<Agendamento>)

  function IdOfSala(s: Sala): Guid { s.id }
  function NomeOfSala(s: Sala): string { s.nome }
  function IdOfAgendamento(a: Agendamento): Guid { a.id }
  function IdOfConfiguracao(c: ConfiguracaoSistema): Guid { c.id }
  function InicioOf(a: Agendamento): int { a.inicio }
}
