/** The yard list (src/components/FrotasPatio.tsx): the queue order, the
    overdue flag, the ramps offered for allocation and the `"r-g"` option
    value that carries a (ramp, bay) choice through the `<select>`.
    The current time is the parameter `agora`; the occupancy and blocking
    callbacks the component receives as props are function parameters. */
module FrotasPatio {
  import opened Types
  import opened Texto
  import opened Ordenacao

  // ---------------------------------------------------------------------------
  // Queue order

  /** The weight table of the comparator: alta 3, normal 2, baixa 1. */
  function Peso(p: Prioridade): int {
    match p
    case Alta => 3
    case Normal => 2
    case Baixa => 1
  }

  /** The comparator handed to `sort`: a negative result puts `a` first. */
  function Comparar(a: Frota, b: Frota): int {
    var diferenca := Peso(b.prioridade) - Peso(a.prioridade);
    if diferenca != 0 then diferenca
    else a.ultimaMovimentacao - b.ultimaMovimentacao
  }

  /** Higher priority strictly first; within one priority, the vehicle that
      moved longest ago first. */
  predicate AntesNaFila(a: Frota, b: Frota) {
    || Peso(a.prioridade) > Peso(b.prioridade)
    || (Peso(a.prioridade) == Peso(b.prioridade) && a.ultimaMovimentacao <= b.ultimaMovimentacao)
  }

  /** The comparator says "a before b or tied" exactly when `AntesNaFila`
      holds, and that relation is a total preorder, so sorting by it is
      well defined. */
  lemma ComparadorConsistente()
    ensures forall a, b :: Comparar(a, b) <= 0 <==> AntesNaFila(a, b)
    ensures PreOrdemTotal((a: Frota, b: Frota) => Comparar(a, b) <= 0)
  {
  }

  /** `[...frotas].sort(...)`: the copy is sorted, the input is left alone
      (the model is a pure function of its input). */
  function OrdenarFila(frotas: seq<Frota>): (r: seq<Frota>)
    ensures multiset(r) == multiset(frotas)
    ensures forall i, j :: 0 <= i < j < |r| ==> Peso(r[i].prioridade) >= Peso(r[j].prioridade)
    ensures forall i, j :: 0 <= i < j < |r| && r[i].prioridade == r[j].prioridade
              ==> r[i].ultimaMovimentacao <= r[j].ultimaMovimentacao
  {
    ComparadorConsistente();
    var leq := (a: Frota, b: Frota) => Comparar(a, b) <= 0;
    var r := Ordenar(frotas, leq);
    assert forall i, j :: 0 <= i < j < |r| ==> AntesNaFila(r[i], r[j]) by {
      forall i, j | 0 <= i < j < |r| ensures AntesNaFila(r[i], r[j]) {
        assert leq(r[i], r[j]);
      }
    }
    r
  }

  // ---------------------------------------------------------------------------
  // Overdue flag

  /** `isAlerta`: minutes elapsed since the last move, as a real quotient,
      strictly above the alert threshold. */
  predicate IsAlerta(agora: int, frota: Frota, tempoAlerta: int) {
    var tempoDecorrido := (agora - frota.ultimaMovimentacao) as real / 60000.0;
    tempoDecorrido > tempoAlerta as real
  }

  /** The same test in whole milliseconds. */
  lemma AlertaEmMilissegundos(agora: int, frota: Frota, tempoAlerta: int)
    ensures IsAlerta(agora, frota, tempoAlerta) <==> agora - frota.ultimaMovimentacao > tempoAlerta * 60000
  {
    var d := (agora - frota.ultimaMovimentacao) as real;
    var t := tempoAlerta as real;
    assert d / 60000.0 > t <==> d > t * 60000.0;
  }

  // ---------------------------------------------------------------------------
  // Ramps offered for allocation

  /** `Math.ceil(a / b)` for a positive divisor: the least `q` with `a <= q * b`. */
  function Teto(a: int, b: int): (q: int)
    requires b > 0
    ensures (q - 1) * b < a <= q * b
  {
    (a + b - 1) / b
  }

  lemma TetoUnico(a: int, b: int, q: int)
    requires b > 0 && (q - 1) * b < a <= q * b
    ensures q == Teto(a, b)
  {
    var t := Teto(a, b);
    assert (q - 1 - t) * b == (q - 1) * b - t * b;
    assert (t - 1 - q) * b == (t - 1) * b - q * b;
    ProdutoNegativo(q - 1 - t, b);
    ProdutoNegativo(t - 1 - q, b);
  }

  lemma ProdutoNegativo(x: int, b: int)
    requires b > 0 && x * b < 0
    ensures x < 0
  {
  }

  /** The options from ramp `de` to `total`: `(rampa, galpao)` with the bay
      derived as `Math.ceil(rampa / rampasPorVao)`, skipping ramps that are
      occupied or blocked. */
  function OpcoesDesde(de: int, total: int, rampasPorVao: int,
                       ocupada: (int, int) -> bool, bloqueada: (int, int) -> bool): (r: seq<(int, int)>)
    requires rampasPorVao > 0
    ensures forall k :: 0 <= k < |r| ==>
              && de <= r[k].0 <= total
              && r[k].1 == Teto(r[k].0, rampasPorVao)
              && !ocupada(r[k].0, r[k].1) && !bloqueada(r[k].0, r[k].1)
    ensures forall x :: de <= x <= total && !ocupada(x, Teto(x, rampasPorVao)) && !bloqueada(x, Teto(x, rampasPorVao))
              ==> (x, Teto(x, rampasPorVao)) in r
    ensures forall k, l :: 0 <= k < l < |r| ==> r[k].0 < r[l].0
    decreases total - de
  {
    if de > total then []
    else
      var g := Teto(de, rampasPorVao);
      var resto := OpcoesDesde(de + 1, total, rampasPorVao, ocupada, bloqueada);
      if ocupada(de, g) || bloqueada(de, g) then resto else [(de, g)] + resto
  }

  /** The `<option>` list for `totalRampas` ramps: ramp `r` in `1..totalRampas`
      is offered, with its bay, exactly when it is neither occupied nor
      blocked; options come in ramp order, each ramp once. */
  function OpcoesLivres(totalRampas: int, rampasPorVao: int,
                        ocupada: (int, int) -> bool, bloqueada: (int, int) -> bool): (r: seq<(int, int)>)
    requires rampasPorVao > 0
    ensures forall x, g :: (x, g) in r <==>
              && 1 <= x <= totalRampas && g == Teto(x, rampasPorVao)
              && !ocupada(x, g) && !bloqueada(x, g)
    ensures forall k, l :: 0 <= k < l < |r| ==> r[k].0 < r[l].0
  {
    OpcoesDesde(1, totalRampas, rampasPorVao, ocupada, bloqueada)
  }

  // ---------------------------------------------------------------------------
  // The option value "r-g" and its decoding

  /** An option's value: the ramp and the bay joined by a hyphen. */
  function CodificarOpcao(rampa: int, galpao: int): string {
    IntToString(rampa) + "-" + IntToString(galpao)
  }

  /** `Number(s)` for the strings the model covers: the empty string is 0, a
      decimal numeral is its value, anything else is `NaN` (`None`). */
  function NumeroDe(s: string): (r: Option<int>)
    ensures AllDigits(s) ==> r.Some? && r.value >= 0
    ensures !AllDigits(s) ==> r.None?
  {
    if AllDigits(s) then Some(DigitsValue(s)) else None
  }

  /** Reading an option value back: split at every hyphen and take the first
      two pieces as numbers; `None` when a piece is missing or not a number. */
  function DecodificarOpcao(valor: string): Option<(int, int)> {
    var partes := Split(valor, '-');
    if |partes| < 2 then None
    else match (NumeroDe(partes[0]), NumeroDe(partes[1]))
      case (Some(r), Some(g)) => Some((r, g))
      case _ => None
  }

  /** The `onChange` handler: the placeholder option (value `""`) allocates nothing. */
  function AoSelecionar(valor: string): Option<(int, int)> {
    if valor == "" then None else DecodificarOpcao(valor)
  }

  /** Decoding the value of an option gives back its ramp and bay. */
  lemma {:induction false} OpcaoIdaEVolta(rampa: int, galpao: int)
    requires rampa >= 0 && galpao >= 0
    ensures DecodificarOpcao(CodificarOpcao(rampa, galpao)) == Some((rampa, galpao))
    ensures AoSelecionar(CodificarOpcao(rampa, galpao)) == Some((rampa, galpao))
  {
    var a := IntToString(rampa);
    var b := IntToString(galpao);
    assert a + "-" + b == a + ['-'] + b;
    SplitConcat(a, b, '-');
    SplitNoSeparator(b, '-');
    DigitsRoundTrip(rampa);
    DigitsRoundTrip(galpao);
  }

  /** A negative ramp does not survive the trip: its minus sign is taken for
      the separator. */
  lemma RampaNegativaNaoVolta()
    ensures DecodificarOpcao(CodificarOpcao(-1, 1)) == Some((0, 1))
  {
    assert CodificarOpcao(-1, 1) == "" + ['-'] + ("1" + ['-'] + "1");
    SplitConcat("1", "1", '-');
    SplitNoSeparator("1", '-');
    SplitConcat("", "1" + ['-'] + "1", '-');
    DigitsRoundTrip(1);
  }
}
