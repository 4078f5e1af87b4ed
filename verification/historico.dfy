/** The movement history panel (src/components/HistoricoMovimentacoes.tsx):
    the ten most recent entries, newest first, and the icon and colour each
    action is drawn with. */
module HistoricoMovimentacoes {
  import opened Types
  import opened Ordenacao
  import opened Texto

  /** The comparator `b.timestamp - a.timestamp`, as "a may come before b". */
  predicate MaisNovaPrimeiro(a: Movimentacao, b: Movimentacao) {
    b.timestamp - a.timestamp <= 0
  }

  lemma MaisNovaPrimeiroOrdena()
    ensures PreOrdemTotal(MaisNovaPrimeiro)
  {
  }

  /** The panel's list: the movements sorted newest first, cut to ten. */
  function Recentes(movimentacoes: seq<Movimentacao>): (r: seq<Movimentacao>)
    ensures |r| == Min(10, |movimentacoes|)
    ensures forall i, j :: 0 <= i < j < |r| ==> r[i].timestamp >= r[j].timestamp
    ensures multiset(r) <= multiset(movimentacoes)
    ensures |movimentacoes| <= 10 ==> multiset(r) == multiset(movimentacoes)
  {
    MaisNovaPrimeiroOrdena();
    var ordenadas := Ordenar(movimentacoes, MaisNovaPrimeiro);
    var n := Min(10, |ordenadas|);
    PrefixoOrdenado(ordenadas, n);
    PrefixoContido(ordenadas, n);
    ordenadas[..n]
  }

  lemma PrefixoOrdenado(s: seq<Movimentacao>, n: int)
    requires Ordenada(s, MaisNovaPrimeiro) && 0 <= n <= |s|
    ensures forall i, j :: 0 <= i < j < n ==> s[..n][i].timestamp >= s[..n][j].timestamp
  {
    forall i, j | 0 <= i < j < n ensures s[..n][i].timestamp >= s[..n][j].timestamp {
      assert MaisNovaPrimeiro(s[i], s[j]);
    }
  }

  lemma PrefixoContido<T>(s: seq<T>, n: int)
    requires 0 <= n <= |s|
    ensures multiset(s[..n]) <= multiset(s)
    ensures n == |s| ==> s[..n] == s
  {
    assert s == s[..n] + s[n..];
  }

  lemma PrefixoMaisNovo(s: seq<Movimentacao>, n: int)
    requires Ordenada(s, MaisNovaPrimeiro) && 0 <= n <= |s|
    ensures forall x, y :: x in s[..n] && y in s[n..] ==> x.timestamp >= y.timestamp
  {
    forall x, y | x in s[..n] && y in s[n..] ensures x.timestamp >= y.timestamp {
      var i :| 0 <= i < n && s[..n][i] == x;
      var j :| 0 <= j < |s| - n && s[n..][j] == y;
      assert MaisNovaPrimeiro(s[i], s[n + j]);
    }
  }

  /** Nothing left out of the recent list is newer than anything in it. */
  lemma RecentesSaoAsMaisNovas(movimentacoes: seq<Movimentacao>)
    ensures forall x, y :: x in Recentes(movimentacoes) && y in multiset(movimentacoes) - multiset(Recentes(movimentacoes))
              ==> x.timestamp >= y.timestamp
  {
    MaisNovaPrimeiroOrdena();
    var ordenadas := Ordenar(movimentacoes, MaisNovaPrimeiro);
    var n := Min(10, |ordenadas|);
    assert Recentes(movimentacoes) == ordenadas[..n];
    DiferencaDoPrefixo(ordenadas, n);
    PrefixoMaisNovo(ordenadas, n);
  }

  lemma DiferencaDoPrefixo<T>(s: seq<T>, n: int)
    requires 0 <= n <= |s|
    ensures multiset(s) - multiset(s[..n]) == multiset(s[n..])
  {
    assert s == s[..n] + s[n..];
  }

  // ---------------------------------------------------------------------------
  // Icons and colours

  const IconePadrao: string := "\U{1F4DD}"

  /** `getIconeAcao`: a `switch` on the action text with a default. */
  function IconeAcao(acao: string): string {
    match acao
    case "criada" => "\U{1F195}"
    case "alocada" => "\U{1F4CD}"
    case "removida" => "\U{21A9}\U{FE0F}"
    case "carregada" => "\U{1F4E6}"
    case "despachada" => "\U{1F69B}"
    case "bloqueio" => "\U{1F512}"
    case "desbloqueio" => "\U{1F513}"
    case _ => IconePadrao
  }

  /** `getCorAcao`: the text colour of each action, slate for any other text. */
  function CorAcao(acao: string): string {
    match acao
    case "criada" => "text-blue-600"
    case "alocada" => "text-orange-600"
    case "removida" => "text-yellow-600"
    case "carregada" => "text-purple-600"
    case "despachada" => "text-green-600"
    case "bloqueio" => "text-red-600"
    case "desbloqueio" => "text-green-600"
    case _ => "text-slate-600"
  }

  /** Each of the seven actions has its own icon, none of them the default;
      any other text gets the default. */
  lemma IconesDistintos()
    ensures forall a, b :: IconeAcao(AcaoNome(a)) == IconeAcao(AcaoNome(b)) ==> a == b
    ensures forall a :: IconeAcao(AcaoNome(a)) != IconePadrao
    ensures forall t :: AcaoDe(t).None? ==> IconeAcao(t) == IconePadrao
  {
  }

  /** The colours do not tell all actions apart: dispatch and unblock share one. */
  lemma CoresNaoDistinguem()
    ensures CorAcao(AcaoNome(Despachou)) == CorAcao(AcaoNome(Desbloqueio))
    ensures forall a, b :: a != b && CorAcao(AcaoNome(a)) == CorAcao(AcaoNome(b)) ==>
              {a, b} == {Despachou, Desbloqueio}
  {
  }
}
