/** The database (`AppDbContext`) as an in-memory store: the room, reservation and
    configuration tables, the constraints the database enforces on them, the
    cascade from a room to its reservations, and the six seeded rooms. */
module AppDbContext {
  import opened Time
  import opened Entities
  import opened Collections

  function SalaIds(salas: seq<Sala>): set<Guid> {
    set s | s in salas :: s.id
  }

  function AgendamentoIds(rs: seq<Agendamento>): set<Guid> {
    set a | a in rs :: a.id
  }

  /** Longest colour the `Cor` column (character varying(7)) holds. */
  const CorMaxLength: int := 7

  // ------------------------------------------------------------- seed data

  function DigitChar(i: int): char
    requires 0 <= i <= 9
  {
    ('0' as int + i) as char
  }

  /** The rows of the SeedSalas migration, written out. */
  function SalasDaMigracao(): seq<Sala> {
    [ Sala(1, "Sala 1", 12), Sala(2, "Sala 2", 12), Sala(3, "Sala 3", 12),
      Sala(4, "Sala 4", 8), Sala(5, "Sala 5", 8), Sala(6, "Sala 6", 8) ]
  }

  /** Row i of the migration is what the seed loop builds for i. */
  lemma LinhaDaMigracao(i: int)
    requires 1 <= i <= 6
    ensures SalasDaMigracao()[i - 1] == Sala(i, "Sala " + [DigitChar(i)], if i <= 3 then 12 else 8)
  {
    var built := "Sala " + [DigitChar(i)];
    if i == 1 { assert built == "Sala 1"; }
    else if i == 2 { assert built == "Sala 2"; }
    else if i == 3 { assert built == "Sala 3"; }
    else if i == 4 { assert built == "Sala 4"; }
    else if i == 5 { assert built == "Sala 5"; }
    else { assert built == "Sala 6"; }
  }

  /** The seed loop of OnModelCreating: room i has the GUID whose value is i
      ("00000000-0000-0000-0000-00000000000i"), the name "Sala i", and
      capacity 12 for i <= 3, 8 otherwise. */
  method SementeDeSalas() returns (salas: seq<Sala>)
    ensures salas == SalasDaMigracao()
    ensures |salas| == 6
    ensures DistinctBy(salas, IdOfSala)
    ensures forall i :: 0 <= i < 6 ==> salas[i].id == i + 1 && salas[i].capacidade == (if i < 3 then 12 else 8)
  {
    salas := [];
    for i := 1 to 7
      invariant salas == SalasDaMigracao()[..i - 1]
    {
      var nome := "Sala " + [DigitChar(i)];
      LinhaDaMigracao(i);
      assert SalasDaMigracao()[..i] == SalasDaMigracao()[..i - 1] + [SalasDaMigracao()[i - 1]];
      salas := salas + [Sala(i, nome, if i <= 3 then 12 else 8)];
    }
    assert salas == SalasDaMigracao();
  }

  // --------------------------------------------------------- table updates

  function NaoESala(id: Guid): Sala -> bool { (s: Sala) => s.id != id }
  function NaoEDaSala(salaId: Guid): Agendamento -> bool { (a: Agendamento) => a.salaId != salaId }
  function NaoEAgendamento(id: Guid): Agendamento -> bool { (a: Agendamento) => a.id != id }

  /** The rooms left after deleting room `id`. */
  function SemSala(salas: seq<Sala>, id: Guid): (r: seq<Sala>)
    ensures forall s :: s in r <==> s in salas && s.id != id
    ensures SalaIds(r) == SalaIds(salas) - {id}
  {
    Filter(salas, NaoESala(id))
  }

  /** The reservations left after the cascade from deleting room `salaId`. */
  function SemAgendamentosDaSala(rs: seq<Agendamento>, salaId: Guid): (r: seq<Agendamento>)
    ensures forall a :: a in r <==> a in rs && a.salaId != salaId
    ensures forall a :: multiset(r)[a] == if a.salaId != salaId then multiset(rs)[a] else 0
  {
    Filter(rs, NaoEDaSala(salaId))
  }

  /** The reservations left after deleting reservation `id`. */
  function SemAgendamento(rs: seq<Agendamento>, id: Guid): (r: seq<Agendamento>)
    ensures forall a :: a in r <==> a in rs && a.id != id
    ensures AgendamentoIds(r) == AgendamentoIds(rs) - {id}
  {
    Filter(rs, NaoEAgendamento(id))
  }

  /** With unique keys, deleting reservation `id` removes exactly one row when
      the key is present and none otherwise. */
  lemma SemAgendamentoTamanho(rs: seq<Agendamento>, id: Guid)
    requires DistinctBy(rs, IdOfAgendamento)
    ensures |SemAgendamento(rs, id)| == |rs| - (if id in AgendamentoIds(rs) then 1 else 0)
    ensures id !in AgendamentoIds(rs) ==> SemAgendamento(rs, id) == rs
  {
    if id in AgendamentoIds(rs) {
      var a :| a in rs && a.id == id;
      var i :| 0 <= i < |rs| && rs[i] == a;
      FilterRemovesOne(rs, IdOfAgendamento, id, NaoEAgendamento(id));
    } else {
      FilterAll(rs, NaoEAgendamento(id));
    }
  }

  /** Every reservation references a room of the table (the foreign key). */
  ghost predicate ReferenciasValidas(rs: seq<Agendamento>, salas: seq<Sala>) {
    forall a :: a in rs ==> a.salaId in SalaIds(salas)
  }

  /** Deleting room `id` and its reservations keeps every remaining reservation's room. */
  lemma {:induction false} CascataPreservaReferencias(rs: seq<Agendamento>, salas: seq<Sala>, id: Guid)
    requires ReferenciasValidas(rs, salas)
    ensures ReferenciasValidas(SemAgendamentosDaSala(rs, id), SemSala(salas, id))
  {
    var rs', salas' := SemAgendamentosDaSala(rs, id), SemSala(salas, id);
    forall a | a in rs' ensures a.salaId in SalaIds(salas') {
      assert a in rs && a.salaId != id;
    }
  }

  /** Deleting a room removes exactly the reservations of that room: every other
      reservation stays. */
  lemma CascataRemoveSoAsDaSala(rs: seq<Agendamento>, id: Guid, a: Agendamento)
    requires a in rs
    ensures a in SemAgendamentosDaSala(rs, id) <==> a.salaId != id
  {
  }

  /** The room `Salas.Add(sala)` stores: EF Core generates the key `idGerado`
      for a Guid key that is still `Guid.Empty`, and keeps any other key. */
  function SalaGravada(sala: Sala, idGerado: Guid): (s: Sala)
    ensures sala.id != GuidEmpty ==> s == sala
    ensures sala.id == GuidEmpty ==> s.id == idGerado
    ensures s.(id := sala.id) == sala
  {
    if sala.id == GuidEmpty then sala.(id := idGerado) else sala
  }

  /** The reservation `Agendamentos.Add(a)` stores, keyed as `SalaGravada` is. */
  function AgendamentoGravado(a: Agendamento, idGerado: Guid): (g: Agendamento)
    ensures a.id != GuidEmpty ==> g == a
    ensures a.id == GuidEmpty ==> g.id == idGerado
    ensures g.(id := a.id) == a
  {
    if a.id == GuidEmpty then a.(id := idGerado) else a
  }

  /** Whether the database accepts a new reservation row: a fresh key, an existing
      room (the foreign key) and a colour that fits its column. */
  predicate AceitaAgendamento(rs: seq<Agendamento>, salas: seq<Sala>, a: Agendamento) {
    a.id !in AgendamentoIds(rs) && a.salaId in SalaIds(salas) && |a.cor| <= CorMaxLength
  }

  /** A reservation still keyed `Guid.Empty` does not collide with a stored one
      keyed `Guid.Empty`: it is stored under the generated key. */
  lemma ChaveVaziaRecebeChaveGerada(rs: seq<Agendamento>, salas: seq<Sala>, a: Agendamento, idGerado: Guid)
    requires a.id == GuidEmpty && idGerado !in AgendamentoIds(rs)
    ensures AceitaAgendamento(rs, salas, AgendamentoGravado(a, idGerado)) <==>
              a.salaId in SalaIds(salas) && |a.cor| <= CorMaxLength
  {
  }

  // ------------------------------------------------------- room listings

  function IniciaEntre(inicio: Instant, fim: Instant): Agendamento -> bool {
    (a: Agendamento) => inicio <= a.inicio <= fim
  }

  function IniciaDesde(limite: Instant): Agendamento -> bool {
    (a: Agendamento) => a.inicio >= limite
  }

  function DaSalaE(salaId: Guid, incluir: Agendamento -> bool): Agendamento -> bool {
    (a: Agendamento) => a.salaId == salaId && incluir(a)
  }

  function SalasDe(r: seq<SalaComAgenda>): (salas: seq<Sala>)
    ensures |salas| == |r|
    ensures forall i :: 0 <= i < |r| ==> salas[i] == r[i].sala
  {
    seq(|r|, i requires 0 <= i < |r| => r[i].sala)
  }

  /** The shape of `Salas.Include(s => s.Agendamentos.Where(incluir)).OrderBy(s => s.Nome)`:
      every room, in ordinal name order, each with exactly those of its
      reservations that `incluir` accepts, in table order. */
  function SalasComAgendamentos(salas: seq<Sala>, rs: seq<Agendamento>, incluir: Agendamento -> bool)
    : (r: seq<SalaComAgenda>)
    ensures |r| == |salas|
    ensures multiset(SalasDe(r)) == multiset(salas)
    ensures forall s :: s in salas <==> exists i :: 0 <= i < |r| && r[i].sala == s
    ensures forall i, j :: 0 <= i < j < |r| ==> LexLe(r[i].sala.nome, r[j].sala.nome)
    ensures forall i :: 0 <= i < |r| ==>
              forall a :: a in r[i].agendamentos <==> a in rs && a.salaId == r[i].sala.id && incluir(a)
  {
    var ordenadas := SortByName(salas, NomeOfSala);
    var r := seq(|ordenadas|, i requires 0 <= i < |ordenadas| =>
                   SalaComAgenda(ordenadas[i], Filter(rs, DaSalaE(ordenadas[i].id, incluir))));
    assert SalasDe(r) == ordenadas;
    assert forall s :: s in salas ==> exists i :: 0 <= i < |ordenadas| && ordenadas[i] == s;
    r
  }

  // ------------------------------------------------------------ the store

  class Store {
    var salas: seq<Sala>
    var agendamentos: seq<Agendamento>
    var configuracoes: seq<ConfiguracaoSistema>
    /** Count of "ReceberAtualizacao" broadcasts sent to connected clients. */
    ghost var notificacoes: nat

    /** The constraints the database enforces: unique primary keys and the
        reservation-to-room foreign key. */
    ghost predicate Valid()
      reads this
    {
      && DistinctBy(salas, IdOfSala)
      && DistinctBy(agendamentos, IdOfAgendamento)
      && DistinctBy(configuracoes, IdOfConfiguracao)
      && ReferenciasValidas(agendamentos, salas)
    }

    /** The database after its migrations: the six seeded rooms and nothing else. */
    constructor ()
      ensures Valid()
      ensures salas == SalasDaMigracao() && agendamentos == [] && configuracoes == []
      ensures notificacoes == 0
    {
      var semente := SementeDeSalas();
      salas := semente;
      agendamentos := [];
      configuracoes := [];
      notificacoes := 0;
    }

    /** `Salas.Add` and `SaveChanges`, with `idGerado` the key EF Core would
        generate: fails, changing nothing, on a duplicate key. */
    method InserirSala(sala: Sala, idGerado: Guid) returns (ok: bool)
      requires Valid()
      modifies this
      ensures Valid()
      ensures ok <==> SalaGravada(sala, idGerado).id !in SalaIds(old(salas))
      ensures salas == if ok then old(salas) + [SalaGravada(sala, idGerado)] else old(salas)
      ensures agendamentos == old(agendamentos) && configuracoes == old(configuracoes)
      ensures notificacoes == old(notificacoes)
    {
      var linha := SalaGravada(sala, idGerado);
      ok := linha.id !in SalaIds(salas);
      if ok {
        ghost var before := salas;
        salas := salas + [linha];
        forall i, j | 0 <= i < j < |salas| ensures salas[i].id != salas[j].id {
          if j == |salas| - 1 {
            assert salas[i] in before;
          } else {
            assert salas[i] == before[i] && salas[j] == before[j];
          }
        }
        assert ReferenciasValidas(agendamentos, salas) by {
          forall a | a in agendamentos ensures a.salaId in SalaIds(salas) {
            var s :| s in before && s.id == a.salaId;
            assert s in salas;
          }
        }
      }
    }

    /** `Agendamentos.Add` and `SaveChanges`, with `idGerado` the key EF Core
        would generate: fails, changing nothing, on a duplicate key, an unknown
        room or a colour longer than the column. */
    method InserirAgendamento(a: Agendamento, idGerado: Guid) returns (ok: bool)
      requires Valid()
      modifies this
      ensures Valid()
      ensures ok <==> AceitaAgendamento(old(agendamentos), old(salas), AgendamentoGravado(a, idGerado))
      ensures agendamentos == if ok then old(agendamentos) + [AgendamentoGravado(a, idGerado)] else old(agendamentos)
      ensures salas == old(salas) && configuracoes == old(configuracoes)
      ensures notificacoes == old(notificacoes)
    {
      var linha := AgendamentoGravado(a, idGerado);
      ok := AceitaAgendamento(agendamentos, salas, linha);
      if ok {
        ghost var before := agendamentos;
        agendamentos := agendamentos + [linha];
        forall i, j | 0 <= i < j < |agendamentos| ensures agendamentos[i].id != agendamentos[j].id {
          if j == |agendamentos| - 1 {
            assert agendamentos[i] in before;
          } else {
            assert agendamentos[i] == before[i] && agendamentos[j] == before[j];
          }
        }
      }
    }

    /** `Agendamentos.Remove` and `SaveChanges` for the row with key `id`. */
    method RemoverAgendamento(id: Guid)
      requires Valid()
      modifies this
      ensures Valid()
      ensures agendamentos == SemAgendamento(old(agendamentos), id)
      ensures salas == old(salas) && configuracoes == old(configuracoes)
      ensures notificacoes == old(notificacoes)
    {
      FilterKeepsDistinctBy(agendamentos, NaoEAgendamento(id), IdOfAgendamento);
      agendamentos := SemAgendamento(agendamentos, id);
    }

    /** `Salas.Remove` and `SaveChanges`: the cascade rule deletes the room's
        reservations with it, and nothing else. */
    method RemoverSalaEmCascata(id: Guid)
      requires Valid()
      modifies this
      ensures Valid()
      ensures salas == SemSala(old(salas), id)
      ensures agendamentos == SemAgendamentosDaSala(old(agendamentos), id)
      ensures configuracoes == old(configuracoes)
      ensures notificacoes == old(notificacoes)
    {
      FilterKeepsDistinctBy(salas, NaoESala(id), IdOfSala);
      FilterKeepsDistinctBy(agendamentos, NaoEDaSala(id), IdOfAgendamento);
      CascataPreservaReferencias(agendamentos, salas, id);
      salas := SemSala(salas, id);
      agendamentos := SemAgendamentosDaSala(agendamentos, id);
    }
  }
}
