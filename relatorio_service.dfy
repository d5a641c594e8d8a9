/** The usage report (`RelatorioService.GerarRelatorioAsync`) once its rows are
    loaded: the reservations of the last 30 days, their count, their mean
    length, the five busiest rooms and each user's favourite colour. */
module RelatorioService {
  import opened Time
  import opened Entities
  import opened Collections
  import opened AppDbContext
  import opened AgendamentoService

  /** A bar of the room chart (`DadoGrafico`); `Valor` is a whole count. */
  datatype DadoGrafico = DadoGrafico(nome: string, valor: int)

  /** A row of the colour table (`UsuarioCorDto`). */
  datatype UsuarioCor = UsuarioCor(nomeUsuario: string, corFavorita: string, nomeCorFavorita: string, totalAgendamentos: int)

  /** `RelatorioDto`. */
  datatype Relatorio = Relatorio(
    totalReunioes: int,
    tempoMedioMinutos: int,
    salasMaisUsadas: seq<DadoGrafico>,
    preferenciaCores: seq<UsuarioCor>)

  /** The report of an empty selection: `new RelatorioDto()`. */
  const RelatorioVazio: Relatorio := Relatorio(0, 0, [], [])

  const DiasDoPeriodo: int := 30
  const MaximoDeSalas: int := 5
  const SemSala: string := "Sem Sala"
  const CorDesconhecida: string := "Outro / Personalizado"

  /** `_mapaCores`: the colour tags of the booking dialog and their names. */
  const MapaCores: map<string, string> := map[
    "#007ACC" := "Alinhamento",
    "#C62828" := "Urgente",
    "#2E7D32" := "Cliente",
    "#F57C00" := "Planejamento",
    "#7B1FA2" := "Treinamento"]

  /** The readable name of a colour tag (an ordinal, case-sensitive lookup). */
  function NomeDaCor(cor: string): (nome: string)
    ensures cor in MapaCores ==> nome == MapaCores[cor]
    ensures nome == CorDesconhecida <==> cor !in MapaCores
  {
    if cor in MapaCores then MapaCores[cor] else CorDesconhecida
  }

  /** The lookup is exact: a lower-case spelling of a known tag is not known. */
  lemma NomesDasCores()
    ensures NomeDaCor("#C62828") == "Urgente"
    ensures NomeDaCor("#007acc") == CorDesconhecida
    ensures |MapaCores| == 5
  {
    assert "#007acc" != "#007ACC" by {
      assert "#007acc"[5] != "#007ACC"[5];
    }
    var chaves := {"#007ACC", "#C62828", "#2E7D32", "#F57C00", "#7B1FA2"};
    assert MapaCores.Keys == chaves;
    assert |chaves| == 5 by {
    }
  }

  // ----------------------------------------------------------- selection

  /** `Where(a => a.Inicio >= DateTime.UtcNow.AddDays(-30))`. */
  function UltimosTrintaDias(rs: seq<Agendamento>, agora: Instant): (dados: seq<Agendamento>)
    ensures forall a :: a in dados <==> a in rs && a.inicio >= agora - DiasDoPeriodo * TicksPerDay
    ensures forall a :: multiset(dados)[a] == if a.inicio >= agora - DiasDoPeriodo * TicksPerDay then multiset(rs)[a] else 0
  {
    Filter(rs, IniciaDesde(agora - DiasDoPeriodo * TicksPerDay))
  }

  // ---------------------------------------------------------- mean length

  /** The quotient of Euclidean division of a natural number brackets it. */
  lemma DivisaoDeNatural(a: int, b: int)
    requires a >= 0 && b > 0
    ensures 0 <= a / b && (a / b) * b <= a < (a / b + 1) * b
  {
    var q, r := a / b, a % b;
    assert a == q * b + r;
    assert (q + 1) * b == q * b + b;
  }

  /** Integer division truncating toward zero, as the `(int)` cast of a quotient does. */
  function TruncDiv(a: int, b: int): (q: int)
    requires b > 0
    ensures a >= 0 ==> 0 <= q && q * b <= a < (q + 1) * b
    ensures a < 0 ==> q <= 0 && (q - 1) * b < a <= q * b
  {
    if a >= 0 then
      DivisaoDeNatural(a, b);
      a / b
    else
      DivisaoDeNatural(-a, b);
      var q' := (-a) / b;
      assert (-q' - 1) * b == -((q' + 1) * b);
      assert (-q') * b == -(q' * b);
      -q'
  }

  function DuracaoOf(a: Agendamento): int { a.fim - a.inicio }

  /** `TempoMedioMinutos`: the total length in minutes over the count, truncated. */
  function TempoMedioMinutos(dados: seq<Agendamento>): (m: int)
    requires |dados| > 0
    ensures SumBy(dados, DuracaoOf) >= 0 ==>
              m * TicksPerMinute * |dados| <= SumBy(dados, DuracaoOf) < (m + 1) * TicksPerMinute * |dados|
  {
    TruncDiv(SumBy(dados, DuracaoOf), TicksPerMinute * |dados|)
  }

  /** Lengths between 0 and four hours give a mean between 0 and 240 minutes. */
  lemma {:induction false} MediaLimitada(dados: seq<Agendamento>)
    requires |dados| > 0
    requires forall a :: a in dados ==> 0 <= a.fim - a.inicio <= DuracaoMaximaHoras * TicksPerHour
    ensures 0 <= TempoMedioMinutos(dados) <= DuracaoMaximaHoras * 60
  {
    var n := |dados|;
    SumByBounds(dados, DuracaoOf, 0, DuracaoMaximaHoras * TicksPerHour);
    var total := SumBy(dados, DuracaoOf);
    var b := TicksPerMinute * n;
    assert n * (DuracaoMaximaHoras * TicksPerHour) == (DuracaoMaximaHoras * 60) * b;
    var m := TempoMedioMinutos(dados);
    FatorComum(m, DuracaoMaximaHoras * 60, b);
  }

  /** A positive common factor can be cancelled from an inequality. */
  lemma FatorComum(m: int, c: int, b: int)
    requires b > 0 && m * b <= c * b
    ensures m <= c
  {
  }

  // ---------------------------------------------------------- room chart

  /** The room of a reservation, as `Include(a => a.Sala)` loads it. */
  function SalaDe(salas: seq<Sala>, id: Guid): (r: Option<Sala>)
    ensures r.None? <==> id !in SalaIds(salas)
    ensures r.Some? ==> r.value in salas && r.value.id == id
  {
    if salas == [] then None
    else if salas[0].id == id then Some(salas[0])
    else SalaDe(salas[1..], id)
  }

  /** `x.Sala?.Nome ?? "Sem Sala"`. */
  function NomeDaSala(salas: seq<Sala>, id: Guid): (nome: string)
    ensures id !in SalaIds(salas) ==> nome == SemSala
    ensures forall s :: s in salas && s.id == id && DistinctBy(salas, IdOfSala) ==> nome == s.nome
  {
    var r := SalaDe(salas, id);
    if r.None? then SemSala else r.value.nome
  }

  /** The grouping key of each selected reservation. */
  function NomesDeSala(dados: seq<Agendamento>, salas: seq<Sala>): (ns: seq<string>)
    ensures |ns| == |dados|
    ensures forall i :: 0 <= i < |dados| ==> ns[i] == NomeDaSala(salas, dados[i].salaId)
  {
    seq(|dados|, i requires 0 <= i < |dados| => NomeDaSala(salas, dados[i].salaId))
  }

  function Min(a: int, b: int): int { if a <= b then a else b }

  /** A tally whose pairs are distinct has distinct keys, as each count is fixed by its key. */
  lemma ChavesDistintas<T(!new)>(s: seq<T>, g: seq<(T, int)>)
    requires NoDups(g)
    requires forall e :: e in g ==> e.1 == Count(s, e.0)
    ensures forall i, j :: 0 <= i < j < |g| ==> g[i].0 != g[j].0
  {
    forall i, j | 0 <= i < j < |g| ensures g[i].0 != g[j].0 {
      assert g[i] in g && g[j] in g;
    }
  }

  /** The keys among the first k groups. */
  function ChavesAte(o: seq<(string, int)>, k: int): set<string>
    requires 0 <= k <= |o|
  {
    set i | 0 <= i < k :: o[i].0
  }

  /** A tally holds every key among its groups. */
  lemma TodasAsChaves(s: seq<string>, o: seq<(string, int)>)
    requires forall x :: x in s ==> (x, Count(s, x)) in o
    ensures forall x :: x in s ==> x in ChavesAte(o, |o|)
  {
    forall x | x in s ensures x in ChavesAte(o, |o|) {
      var p :| 0 <= p < |o| && o[p] == (x, Count(s, x));
      assert o[p].0 == x;
    }
  }

  /** The first k groups of a tally sorted by count, descending: any key left out
      is no more frequent than any kept. */
  lemma {:induction false} MaisFrequentesPrimeiro(s: seq<string>, o: seq<(string, int)>, k: int)
    requires 0 <= k <= |o|
    requires forall x :: x in s ==> (x, Count(s, x)) in o
    requires forall i, j :: 0 <= i < j < |o| ==> o[i].1 >= o[j].1
    ensures forall x, i :: x in s && x !in ChavesAte(o, k) && 0 <= i < k ==> Count(s, x) <= o[i].1
  {
    forall x, i | x in s && x !in ChavesAte(o, k) && 0 <= i < k ensures Count(s, x) <= o[i].1 {
      var p :| 0 <= p < |o| && o[p] == (x, Count(s, x));
    }
  }

  /** The bars of the first k groups. */
  function Barras(o: seq<(string, int)>, k: int): (r: seq<DadoGrafico>)
    requires 0 <= k <= |o|
    ensures |r| == k
    ensures forall i :: 0 <= i < k ==> r[i] == DadoGrafico(o[i].0, o[i].1)
  {
    seq(k, i requires 0 <= i < k => DadoGrafico(o[i].0, o[i].1))
  }

  /** The facts a reordering of a tally keeps. */
  lemma GruposOrdenados(nomes: seq<string>, grupos: seq<(string, int)>, o: seq<(string, int)>)
    requires NoDups(o)
    requires forall e :: e in o <==> e in grupos
    requires forall e :: e in grupos ==> e.0 in nomes && e.1 == Count(nomes, e.0) && e.1 >= 1
    ensures forall i, j :: 0 <= i < j < |o| ==> o[i].0 != o[j].0
    ensures forall i :: 0 <= i < |o| ==> o[i].0 in nomes && o[i].1 == Count(nomes, o[i].0) && o[i].1 >= 1
  {
    forall i | 0 <= i < |o| ensures o[i].0 in nomes && o[i].1 == Count(nomes, o[i].0) && o[i].1 >= 1 {
      assert o[i] in o;
    }
    ChavesDistintas(nomes, o);
  }

  /** The room groups, by descending count. */
  function GruposPorUso(nomes: seq<string>): (o: seq<(string, int)>)
    ensures forall i, j :: 0 <= i < j < |o| ==> o[i].1 >= o[j].1
    ensures forall i, j :: 0 <= i < j < |o| ==> o[i].0 != o[j].0
    ensures forall i :: 0 <= i < |o| ==> o[i].0 in nomes && o[i].1 == Count(nomes, o[i].0) && o[i].1 >= 1
    ensures forall x :: x in nomes ==> (x, Count(nomes, x)) in o
  {
    var grupos := Tally(nomes);
    var o := SortByDescending(grupos, Snd);
    GruposOrdenados(nomes, grupos, o);
    o
  }

  function NomesDasBarras(r: seq<DadoGrafico>): set<string> {
    set e | e in r :: e.nome
  }

  /** `GroupBy(nome).Select(count).OrderByDescending(count).Take(5)`. */
  function SalasMaisUsadas(nomes: seq<string>): (r: seq<DadoGrafico>)
    ensures |r| <= MaximoDeSalas
  {
    var o := GruposPorUso(nomes);
    Barras(o, Min(MaximoDeSalas, |o|))
  }

  /** The chart holds distinct rooms by non-increasing count, each with its true
      count of at least one. */
  lemma {:induction false} FormaDasSalasMaisUsadas(nomes: seq<string>)
    ensures var r := SalasMaisUsadas(nomes);
      && (forall i, j :: 0 <= i < j < |r| ==> r[i].nome != r[j].nome && r[i].valor >= r[j].valor)
      && (forall i :: 0 <= i < |r| ==> r[i].nome in nomes && r[i].valor == Count(nomes, r[i].nome) && r[i].valor >= 1)
  {
    var o := GruposPorUso(nomes);
    var r := SalasMaisUsadas(nomes);
    assert forall i :: 0 <= i < |r| ==> r[i].nome == o[i].0 && r[i].valor == o[i].1;
  }

  /** The bars of the first k groups are named by those groups' keys. */
  lemma NomesDasBarrasSaoChaves(o: seq<(string, int)>, k: int)
    requires 0 <= k <= |o|
    ensures NomesDasBarras(Barras(o, k)) == ChavesAte(o, k)
  {
    var r := Barras(o, k);
    forall x | x in ChavesAte(o, k) ensures x in NomesDasBarras(r) {
      var i :| 0 <= i < k && o[i].0 == x;
      assert r[i] in r && r[i].nome == x;
    }
    forall x | x in NomesDasBarras(r) ensures x in ChavesAte(o, k) {
      var e :| e in r && e.nome == x;
      var i :| 0 <= i < |r| && r[i] == e;
      assert o[i].0 == x;
    }
  }

  /** The chart keeps the busiest rooms: a room left out was used no more often
      than any room shown, and with fewer than five bars no room is left out. */
  lemma {:induction false} SalasMaisUsadasSaoAsMaisUsadas(nomes: seq<string>)
    ensures var r := SalasMaisUsadas(nomes);
      && (forall x, i :: x in nomes && x !in NomesDasBarras(r) && 0 <= i < |r| ==> Count(nomes, x) <= r[i].valor)
      && (|r| < MaximoDeSalas ==> forall x :: x in nomes ==> x in NomesDasBarras(r))
  {
    var o := GruposPorUso(nomes);
    var k := Min(MaximoDeSalas, |o|);
    NomesDasBarrasSaoChaves(o, k);
    MaisFrequentesPrimeiro(nomes, o, k);
    TodasAsChaves(nomes, o);
  }

  // --------------------------------------------------------- colour table

  function ResponsavelOf(a: Agendamento): string { a.responsavel }
  function CorOf(a: Agendamento): string { a.cor }

  function Responsaveis(dados: seq<Agendamento>): (us: seq<string>)
    ensures |us| == |dados|
    ensures forall i :: 0 <= i < |dados| ==> us[i] == dados[i].responsavel
  {
    MapSeq(dados, ResponsavelOf)
  }

  function DoResponsavel(u: string): Agendamento -> bool {
    (a: Agendamento) => a.responsavel == u
  }

  /** The colour tags of u's reservations among `dados`, in their order. */
  function CoresDe(dados: seq<Agendamento>, u: string): (cs: seq<string>)
    ensures forall c :: c in cs <==> exists a :: a in dados && a.responsavel == u && a.cor == c
  {
    MapSeq(Filter(dados, DoResponsavel(u)), CorOf)
  }

  /** `GroupBy(cor).OrderByDescending(count).First().Key`: a colour used at least
      as often as any other. */
  function CorFavorita(cores: seq<string>): (c: string)
    requires |cores| > 0
    ensures c in cores
    ensures forall x :: Count(cores, x) <= Count(cores, c)
  {
    var o := GruposPorUso(cores);
    assert (cores[0], Count(cores, cores[0])) in o;
    forall x | x in cores ensures Count(cores, x) <= Count(cores, o[0].0) {
      var p :| 0 <= p < |o| && o[p] == (x, Count(cores, x));
      assert p == 0 || o[0].1 >= o[p].1;
    }
    o[0].0
  }

  function TotalOf(u: UsuarioCor): int { u.totalAgendamentos }

  /** What the row of a user holds: the user's number of reservations, a colour
      of theirs used at least as often as any other, and its readable name. */
  ghost predicate LinhaDoUsuario(dados: seq<Agendamento>, e: UsuarioCor) {
    var cores := CoresDe(dados, e.nomeUsuario);
    && e.totalAgendamentos == Count(Responsaveis(dados), e.nomeUsuario)
    && e.corFavorita in cores
    && (forall x :: Count(cores, x) <= Count(cores, e.corFavorita))
    && e.nomeCorFavorita == NomeDaCor(e.corFavorita)
  }

  /** The row of user u (`gUsuario`). */
  function UsuarioCorDe(dados: seq<Agendamento>, u: string): (e: UsuarioCor)
    requires u in Responsaveis(dados)
    ensures e.nomeUsuario == u
  {
    var i :| 0 <= i < |dados| && Responsaveis(dados)[i] == u;
    assert dados[i].cor in CoresDe(dados, u);
    var cor := CorFavorita(CoresDe(dados, u));
    UsuarioCor(u, cor, NomeDaCor(cor), Count(Responsaveis(dados), u))
  }

  /** The row of user u holds what a row must. */
  lemma LinhaDoUsuarioCorreta(dados: seq<Agendamento>, u: string)
    requires u in Responsaveis(dados)
    ensures LinhaDoUsuario(dados, UsuarioCorDe(dados, u))
  {
    var i :| 0 <= i < |dados| && Responsaveis(dados)[i] == u;
    assert dados[i].cor in CoresDe(dados, u);
  }

  function NomeUsuarioOf(e: UsuarioCor): string { e.nomeUsuario }

  /** The user rows in first-occurrence order of the users, before sorting. */
  function LinhasPorUsuario(dados: seq<Agendamento>): (linhas: seq<UsuarioCor>)
    ensures |linhas| == |Distinct(Responsaveis(dados))|
    ensures forall i :: 0 <= i < |linhas| ==> linhas[i] == UsuarioCorDe(dados, Distinct(Responsaveis(dados))[i])
  {
    var d := Distinct(Responsaveis(dados));
    assert forall i :: 0 <= i < |d| ==> d[i] in d;
    seq(|d|, i requires 0 <= i < |d| => UsuarioCorDe(dados, d[i]))
  }

  /** The unsorted rows follow the users' first reservations: a reservation of
      a later row's user is preceded by one of every earlier row's user. */
  lemma {:induction false} LinhasNaOrdemDosUsuarios(dados: seq<Agendamento>, i: int, j: int, q: int)
    requires 0 <= i < j < |LinhasPorUsuario(dados)| && 0 <= q < |dados|
    requires dados[q].responsavel == LinhasPorUsuario(dados)[j].nomeUsuario
    ensures exists p :: 0 <= p < q && dados[p].responsavel == LinhasPorUsuario(dados)[i].nomeUsuario
  {
    var us := Responsaveis(dados);
    var d := Distinct(us);
    var linhas := LinhasPorUsuario(dados);
    assert linhas[i].nomeUsuario == d[i] && linhas[j].nomeUsuario == d[j];
    DistinctFirstOccurrence(us, i, j, q);
    var p :| 0 <= p < q && us[p] == d[i];
    assert dados[p].responsavel == us[p];
  }

  /** `PreferenciaCores`: the user rows, the busiest user first. */
  function PreferenciaCores(dados: seq<Agendamento>): (r: seq<UsuarioCor>)
    ensures multiset(r) == multiset(LinhasPorUsuario(dados))
    ensures forall i, j :: 0 <= i < j < |r| ==> r[i].totalAgendamentos >= r[j].totalAgendamentos
  {
    SortByDescending(LinhasPorUsuario(dados), TotalOf)
  }

  /** Every row of the colour table is right for its user: their number of
      reservations, a colour of theirs used at least as often as any other, and
      that colour's readable name. */
  lemma {:induction false} LinhasCorretas(dados: seq<Agendamento>)
    ensures forall e :: e in PreferenciaCores(dados) ==> LinhaDoUsuario(dados, e)
  {
    var linhas := LinhasPorUsuario(dados);
    forall e | e in PreferenciaCores(dados) ensures LinhaDoUsuario(dados, e) {
      assert e in multiset(linhas);
      var p :| 0 <= p < |linhas| && linhas[p] == e;
      var d := Distinct(Responsaveis(dados));
      assert d[p] in d;
      LinhaDoUsuarioCorreta(dados, d[p]);
    }
  }

  /** The unsorted rows are those of distinct users. */
  lemma {:induction false} LinhasSemRepeticao(dados: seq<Agendamento>)
    ensures NoDups(LinhasPorUsuario(dados))
    ensures DistinctBy(LinhasPorUsuario(dados), NomeUsuarioOf)
  {
    var d := Distinct(Responsaveis(dados));
    var linhas := LinhasPorUsuario(dados);
    forall i, j | 0 <= i < j < |linhas| ensures NomeUsuarioOf(linhas[i]) != NomeUsuarioOf(linhas[j]) {
      assert linhas[i].nomeUsuario == d[i] && linhas[j].nomeUsuario == d[j];
    }
  }

  /** The unsorted rows cover exactly the users with a selected reservation. */
  lemma {:induction false} LinhasCobremUsuarios(dados: seq<Agendamento>)
    ensures forall u :: u in Responsaveis(dados) <==> exists e :: e in LinhasPorUsuario(dados) && e.nomeUsuario == u
  {
    var us := Responsaveis(dados);
    var d := Distinct(us);
    var linhas := LinhasPorUsuario(dados);
    assert forall i :: 0 <= i < |linhas| ==> linhas[i].nomeUsuario == d[i];
    forall u | u in us ensures exists e :: e in linhas && e.nomeUsuario == u {
      var p :| 0 <= p < |d| && d[p] == u;
      assert linhas[p] in linhas;
    }
    forall e | e in linhas ensures e.nomeUsuario in us {
      var p :| 0 <= p < |linhas| && linhas[p] == e;
      assert d[p] in d;
    }
  }

  /** Sorting keeps the rows: the same ones, still without repetition. */
  lemma {:induction false} PreferenciaReordenaLinhas(dados: seq<Agendamento>)
    ensures forall y :: y in PreferenciaCores(dados) <==> y in LinhasPorUsuario(dados)
    ensures NoDups(PreferenciaCores(dados))
  {
    LinhasSemRepeticao(dados);
    assert PreferenciaCores(dados) == SortByDescending(LinhasPorUsuario(dados), TotalOf);
  }

  /** The colour table has exactly one row for each user with a selected reservation. */
  lemma {:induction false} UmaLinhaPorUsuario(dados: seq<Agendamento>)
    ensures var r := PreferenciaCores(dados);
      && (forall i, j :: 0 <= i < j < |r| ==> r[i].nomeUsuario != r[j].nomeUsuario)
      && (forall u :: u in Responsaveis(dados) <==> exists i :: 0 <= i < |r| && r[i].nomeUsuario == u)
  {
    var linhas := LinhasPorUsuario(dados);
    var r := PreferenciaCores(dados);
    LinhasSemRepeticao(dados);
    LinhasCobremUsuarios(dados);
    PreferenciaReordenaLinhas(dados);
    DrawnKeepsDistinctBy(r, linhas, NomeUsuarioOf);
    forall i, j | 0 <= i < j < |r| ensures r[i].nomeUsuario != r[j].nomeUsuario {
      assert NomeUsuarioOf(r[i]) != NomeUsuarioOf(r[j]);
    }
    forall u | u in Responsaveis(dados) ensures exists i :: 0 <= i < |r| && r[i].nomeUsuario == u {
      var e :| e in linhas && e.nomeUsuario == u;
      assert e in r;
    }
    forall i | 0 <= i < |r| ensures r[i].nomeUsuario in Responsaveis(dados) {
      assert r[i] in r;
    }
  }

  /** The unsorted rows' totals add up to the number of selected reservations. */
  lemma {:induction false} SomaDasLinhas(dados: seq<Agendamento>)
    ensures SumBy(LinhasPorUsuario(dados), TotalOf) == |dados|
  {
    var us := Responsaveis(dados);
    var d := Distinct(us);
    var linhas := LinhasPorUsuario(dados);
    var g := TallyOver(d, us);
    forall i | 0 <= i < |linhas| ensures TotalOf(linhas[i]) == Snd(g[i]) {
      assert linhas[i] == UsuarioCorDe(dados, d[i]);
    }
    SumByPointwise(linhas, TotalOf, g, Snd);
    TallyCountsSum(us);
  }

  /** The totals of the colour table add up to the number of selected reservations. */
  lemma {:induction false} TotaisSomamReunioes(dados: seq<Agendamento>)
    ensures SumBy(PreferenciaCores(dados), TotalOf) == |dados|
  {
    SomaDasLinhas(dados);
    SumByPermutation(PreferenciaCores(dados), LinhasPorUsuario(dados), TotalOf);
  }

  // -------------------------------------------------------------- report

  /** `GerarRelatorioAsync` on the reservation and room tables at instant `agora`. */
  function GerarRelatorio(rs: seq<Agendamento>, salas: seq<Sala>, agora: Instant): (r: Relatorio)
    ensures r.totalReunioes == |UltimosTrintaDias(rs, agora)|
    ensures UltimosTrintaDias(rs, agora) == [] ==> r == RelatorioVazio
    ensures UltimosTrintaDias(rs, agora) != [] ==>
              && r.tempoMedioMinutos == TempoMedioMinutos(UltimosTrintaDias(rs, agora))
              && r.salasMaisUsadas == SalasMaisUsadas(NomesDeSala(UltimosTrintaDias(rs, agora), salas))
              && r.preferenciaCores == PreferenciaCores(UltimosTrintaDias(rs, agora))
    ensures |r.salasMaisUsadas| <= MaximoDeSalas
    ensures forall i, j :: 0 <= i < j < |r.preferenciaCores| ==>
              r.preferenciaCores[i].totalAgendamentos >= r.preferenciaCores[j].totalAgendamentos
  {
    var dados := UltimosTrintaDias(rs, agora);
    if |dados| == 0 then RelatorioVazio
    else
      Relatorio(
        |dados|,
        TempoMedioMinutos(dados),
        SalasMaisUsadas(NomesDeSala(dados, salas)),
        PreferenciaCores(dados))
  }

  /** The report's charts come from the selected reservations: bars of distinct
      rooms, most used first, and user totals adding up to the meeting count. */
  lemma {:induction false} RelatorioConsistente(rs: seq<Agendamento>, salas: seq<Sala>, agora: Instant)
    ensures var r := GerarRelatorio(rs, salas, agora);
      && SumBy(r.preferenciaCores, TotalOf) == r.totalReunioes
      && (forall i, j :: 0 <= i < j < |r.salasMaisUsadas| ==>
            r.salasMaisUsadas[i].nome != r.salasMaisUsadas[j].nome
            && r.salasMaisUsadas[i].valor >= r.salasMaisUsadas[j].valor)
      && (forall i :: 0 <= i < |r.salasMaisUsadas| ==> r.salasMaisUsadas[i].valor >= 1)
  {
    var dados := UltimosTrintaDias(rs, agora);
    if |dados| > 0 {
      TotaisSomamReunioes(dados);
      FormaDasSalasMaisUsadas(NomesDeSala(dados, salas));
    }
  }

  /** On a store that keeps the reservation invariant the mean length lies
      between 0 and 240 minutes. */
  lemma {:induction false} MediaDoRelatorioLimitada(rs: seq<Agendamento>, salas: seq<Sala>, agora: Instant)
    requires InvarianteDeReservas(rs)
    ensures 0 <= GerarRelatorio(rs, salas, agora).tempoMedioMinutos <= DuracaoMaximaHoras * 60
  {
    var dados := UltimosTrintaDias(rs, agora);
    if |dados| > 0 {
      forall a | a in dados ensures 0 <= a.fim - a.inicio <= DuracaoMaximaHoras * TicksPerHour {
        assert FormaAceita(a);
      }
      MediaLimitada(dados);
    }
  }

  /** With the foreign key in place no reservation falls under "Sem Sala" unless
      a room carries that very name. */
  lemma {:induction false} SemSalaSoSemReferencia(dados: seq<Agendamento>, salas: seq<Sala>)
    requires ReferenciasValidas(dados, salas)
    requires forall s :: s in salas ==> s.nome != SemSala
    ensures SemSala !in NomesDeSala(dados, salas)
  {
    var ns := NomesDeSala(dados, salas);
    forall i | 0 <= i < |ns| ensures ns[i] != SemSala {
      assert dados[i] in dados;
      var r := SalaDe(salas, dados[i].salaId);
      assert r.Some?;
    }
  }
}
