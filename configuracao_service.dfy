/** The business-hours configuration (`ConfiguracaoService`): a table meant to
    hold a single row, read with a fallback and written as an upsert. */
module ConfiguracaoService {
  import opened Entities
  import opened AppDbContext

  const HoraAberturaPadrao: int := 8
  const HoraFechamentoPadrao: int := 18

  /** The object `new ConfiguracaoSistema()` builds: an empty key and the default hours. */
  const Padrao: ConfiguracaoSistema := ConfiguracaoSistema(GuidEmpty, HoraAberturaPadrao, HoraFechamentoPadrao)

  /** `ObterConfiguracaoAsync`: the first stored row, or the default object,
      which is not written (the function changes no table). */
  function ObterConfiguracao(t: seq<ConfiguracaoSistema>): (c: ConfiguracaoSistema)
    ensures t == [] ==> c.horaAbertura == 8 && c.horaFechamento == 18 && c.id == GuidEmpty
    ensures t != [] ==> c == t[0]
    ensures c in t || t == []
  {
    if t == [] then Padrao else t[0]
  }

  /** The row `Configuracoes.Add(config)` stores: EF Core generates the key
      `idGerado` when the object's key is still `Guid.Empty`, and keeps any other key. */
  function LinhaInserida(c: ConfiguracaoSistema, idGerado: Guid): (linha: ConfiguracaoSistema)
    ensures c.id != GuidEmpty ==> linha == c
    ensures c.id == GuidEmpty ==> linha.id == idGerado
    ensures linha.(id := c.id) == c
  {
    if c.id == GuidEmpty then c.(id := idGerado) else c
  }

  /** The table after `AtualizarConfiguracaoAsync(c)`: on an empty table one new
      row with c's hours; otherwise the first row gets c's two hours and keeps
      its key, and every other row stays. No range or order check is made. */
  function Atualizada(t: seq<ConfiguracaoSistema>, c: ConfiguracaoSistema, idGerado: Guid)
    : (t': seq<ConfiguracaoSistema>)
    ensures |t'| == if t == [] then 1 else |t|
    ensures t' != []
    ensures t'[0].horaAbertura == c.horaAbertura && t'[0].horaFechamento == c.horaFechamento
    ensures t'[0].id == if t == [] then LinhaInserida(c, idGerado).id else t[0].id
    ensures t'[1..] == if t == [] then [] else t[1..]
  {
    if t == [] then [LinhaInserida(c, idGerado)]
    else [t[0].(horaAbertura := c.horaAbertura, horaFechamento := c.horaFechamento)] + t[1..]
  }

  /** What `Obter` returns after `Atualizar(c)`: c's opening and closing hours.
      `FirstOrDefault` without an order fixes no row among several, so the two
      calls are known to meet the same row only while the table holds at most one. */
  lemma ObterAposAtualizar(t: seq<ConfiguracaoSistema>, c: ConfiguracaoSistema, idGerado: Guid)
    requires |t| <= 1
    ensures ObterConfiguracao(Atualizada(t, c, idGerado)).horaAbertura == c.horaAbertura
    ensures ObterConfiguracao(Atualizada(t, c, idGerado)).horaFechamento == c.horaFechamento
  {
  }

  /** Repeating an update changes nothing, whatever key the second would generate. */
  lemma AtualizarIdempotente(t: seq<ConfiguracaoSistema>, c: ConfiguracaoSistema, id1: Guid, id2: Guid)
    ensures Atualizada(Atualizada(t, c, id1), c, id2) == Atualizada(t, c, id1)
  {
    var t1 := Atualizada(t, c, id1);
    assert t1 == [t1[0]] + t1[1..];
  }

  /** A run of updates, oldest first, each generating the key given beside it. */
  function AtualizadaPorTodas(t: seq<ConfiguracaoSistema>, cs: seq<ConfiguracaoSistema>, ids: seq<Guid>)
    : seq<ConfiguracaoSistema>
    requires |ids| == |cs|
    decreases |cs|
  {
    if cs == [] then t
    else AtualizadaPorTodas(Atualizada(t, cs[0], ids[0]), cs[1..], ids[1..])
  }

  /** After any non-empty run of updates on a table of at most one row (the
      migration creates it empty) there is exactly one row, keyed by the first
      update when the table was empty, holding the hours of the last update. */
  lemma {:induction false} UmaLinhaAposAtualizacoes(
    t: seq<ConfiguracaoSistema>, cs: seq<ConfiguracaoSistema>, ids: seq<Guid>)
    requires |t| <= 1
    requires |ids| == |cs| && |cs| > 0
    decreases |cs|
    ensures var r := AtualizadaPorTodas(t, cs, ids);
      && |r| == 1
      && r[0].id == (if t == [] then LinhaInserida(cs[0], ids[0]).id else t[0].id)
      && ObterConfiguracao(r).horaAbertura == cs[|cs| - 1].horaAbertura
      && ObterConfiguracao(r).horaFechamento == cs[|cs| - 1].horaFechamento
  {
    var t1 := Atualizada(t, cs[0], ids[0]);
    if |cs| > 1 {
      UmaLinhaAposAtualizacoes(t1, cs[1..], ids[1..]);
      assert cs[1..][|cs[1..]| - 1] == cs[|cs| - 1];
    }
  }

  /** `AtualizarConfiguracaoAsync`: the upsert, saved, then the broadcast. */
  method AtualizarConfiguracao(db: Store, c: ConfiguracaoSistema, idGerado: Guid)
    requires db.Valid()
    modifies db
    ensures db.Valid()
    ensures db.configuracoes == Atualizada(old(db.configuracoes), c, idGerado)
    ensures db.salas == old(db.salas) && db.agendamentos == old(db.agendamentos)
    ensures db.notificacoes == old(db.notificacoes) + 1
  {
    if db.configuracoes == [] {
      db.configuracoes := [LinhaInserida(c, idGerado)];
    } else {
      var existente := db.configuracoes[0];
      existente := existente.(horaAbertura := c.horaAbertura);
      existente := existente.(horaFechamento := c.horaFechamento);
      db.configuracoes := db.configuracoes[0 := existente];
      assert db.configuracoes == [existente] + old(db.configuracoes)[1..];
      assert forall i :: 0 <= i < |db.configuracoes| ==> db.configuracoes[i].id == old(db.configuracoes)[i].id;
    }
    db.notificacoes := db.notificacoes + 1;
  }
}
