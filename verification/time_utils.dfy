/** Elapsed-time and duration text (src/utils/timeUtils.ts). The clock read
    `new Date()` is replaced by the elapsed milliseconds, passed in. */
module TimeUtils {
  import opened Types
  import opened Texto

  const MsPorMinuto: int := 60_000
  const MsPorHora: int := 3_600_000
  const MsPorDia: int := 86_400_000

  /** JavaScript's `%`: the remainder takes the sign of the dividend. */
  function JsRem(a: int, b: int): (r: int)
    requires b > 0
    ensures a >= 0 ==> r == a % b
    ensures a < 0 ==> -b < r <= 0
    ensures (a - r) % b == 0
  {
    RestoMultiplo(a, b);
    if a >= 0 then a % b else -((-a) % b)
  }

  /** What either remainder leaves behind is a multiple of `b`. */
  lemma RestoMultiplo(a: int, b: int)
    requires b > 0
    ensures (a - a % b) % b == 0
    ensures a < 0 ==> (a - -((-a) % b)) % b == 0
  {
    var q := a / b;
    assert a == b * q + a % b;
    RestoUnico(b * q, b, q, 0);
    if a < 0 {
      var q' := (-a) / b;
      assert -a == b * q' + (-a) % b;
      assert a - -((-a) % b) == b * -q';
      RestoUnico(b * -q', b, -q', 0);
    }
  }

  /** The remainder is the only `m` in `[0, b)` with `x == b * q + m`. */
  lemma RestoUnico(x: int, b: int, q: int, m: int)
    requires b > 0 && 0 <= m < b && x == b * q + m
    ensures x % b == m
  {
    var q', m' := x / b, x % b;
    assert x == b * q' + m';
    if q > q' {
      AoMenosUmaVez(q - q', b);
    } else if q < q' {
      AoMenosUmaVez(q' - q, b);
    }
  }

  lemma AoMenosUmaVez(d: int, b: int)
    requires d >= 1 && b > 0
    ensures b * d >= b
  {
  }

  /** `Math.floor` of whole minutes, then of hours, is whole hours; and of
      hours, then of days, is whole days. */
  lemma HorasInteiras(a: int)
    ensures a / MsPorMinuto / 60 == a / MsPorHora
    ensures a / MsPorHora / 24 == a / MsPorDia
  {
  }

  // ---------------------------------------------------------------------------
  // Reading the text back: pieces `<digits><unit>` separated by one space.

  function LerParte(p: string): Option<(int, char)> {
    if |p| >= 2 && AllDigits(p[..|p| - 1]) then Some((DigitsValue(p[..|p| - 1]), p[|p| - 1])) else None
  }

  function LerPartes(partes: seq<string>): Option<seq<(int, char)>>
    decreases |partes|
  {
    if |partes| == 0 then Some([])
    else
      var primeira := LerParte(partes[0]);
      var resto := LerPartes(partes[1..]);
      if primeira.Some? && resto.Some? then Some([primeira.value] + resto.value) else None
  }

  function Ler(s: string): Option<seq<(int, char)>> {
    LerPartes(Split(s, ' '))
  }

  /** Minutes per unit: `d`, `h`, `m`. */
  function Fator(u: char): int {
    if u == 'd' then 1440 else if u == 'h' then 60 else 1
  }

  /** The number of minutes a reading stands for. */
  function Minutos(partes: seq<(int, char)>): int
    decreases |partes|
  {
    if |partes| == 0 then 0 else partes[0].0 * Fator(partes[0].1) + Minutos(partes[1..])
  }

  predicate Unidade(u: char) { !IsDigit(u) && u != '-' && u != ' ' }

  lemma ParteIdaEVolta(n: nat, u: char)
    requires Unidade(u)
    ensures LerParte(NatToString(n) + [u]) == Some((n, u))
    ensures ' ' !in NatToString(n) + [u]
  {
    var s := NatToString(n) + [u];
    assert s[..|s| - 1] == NatToString(n);
    DigitsRoundTrip(n);
  }

  lemma UmaParte(a: nat, u: char)
    requires Unidade(u)
    ensures Ler(NatToString(a) + [u]) == Some([(a, u)])
  {
    var x := NatToString(a) + [u];
    ParteIdaEVolta(a, u);
    SplitNoSeparator(x, ' ');
    assert [x][1..] == [];
    assert LerPartes([x][1..]) == Some([]);
    assert [(a, u)] + [] == [(a, u)];
  }

  lemma DuasPartes(a: nat, u: char, b: nat, v: char)
    requires Unidade(u) && Unidade(v)
    ensures Ler(NatToString(a) + [u, ' '] + NatToString(b) + [v]) == Some([(a, u), (b, v)])
  {
    var x := NatToString(a) + [u];
    var y := NatToString(b) + [v];
    assert NatToString(a) + [u, ' '] + NatToString(b) + [v] == x + [' '] + y;
    ParteIdaEVolta(a, u);
    ParteIdaEVolta(b, v);
    SplitConcat(x, y, ' ');
    SplitNoSeparator(y, ' ');
    assert Split(x + [' '] + y, ' ') == [x, y];
    LerDuas(x, y);
  }

  lemma LerDuas(x: string, y: string)
    requires LerParte(x).Some? && LerParte(y).Some?
    ensures LerPartes([x, y]) == Some([LerParte(x).value, LerParte(y).value])
  {
    assert [x, y][1..] == [y];
    assert [y][1..] == [];
    assert LerPartes([y][1..]) == Some([]);
    assert [LerParte(y).value] + [] == [LerParte(y).value];
    assert LerPartes([y]) == Some([LerParte(y).value]);
    assert [LerParte(x).value] + [LerParte(y).value] == [LerParte(x).value, LerParte(y).value];
  }

  lemma MinutosDuas(a: int, u: char, b: int, v: char)
    ensures Minutos([(a, u), (b, v)]) == a * Fator(u) + b * Fator(v)
  {
    assert [(a, u), (b, v)][1..] == [(b, v)];
    MinutosUma(b, v);
  }

  lemma MinutosUma(a: int, u: char)
    ensures Minutos([(a, u)]) == a * Fator(u)
  {
    assert [(a, u)][1..] == [];
  }

  // ---------------------------------------------------------------------------
  // calcularTempoDecorrido

  /** `calcularTempoDecorrido` given `agora - inicio` in milliseconds: whole
      days and the hours beyond them from one day on, whole hours and the
      minutes beyond them from one hour on, else whole minutes. */
  function CalcularTempoDecorrido(diferenca: int): (r: string)
    ensures 'd' in r <==> diferenca >= MsPorDia
    ensures 'h' in r <==> diferenca >= MsPorHora
    ensures 0 <= diferenca < MsPorMinuto ==> r == "0m"
  {
    var minutos := diferenca / MsPorMinuto;
    var horas := minutos / 60;
    var dias := horas / 24;
    HorasInteiras(diferenca);
    NoSeparatorInNumber(minutos, 'd');
    NoSeparatorInNumber(minutos, 'h');
    NoSeparatorInNumber(horas, 'd');
    NoSeparatorInNumber(JsRem(minutos, 60), 'd');
    NoSeparatorInNumber(JsRem(minutos, 60), 'h');
    NoSeparatorInNumber(dias, 'h');
    NoSeparatorInNumber(JsRem(horas, 24), 'h');
    if dias > 0 then IntToString(dias) + "d " + IntToString(JsRem(horas, 24)) + "h"
    else if horas > 0 then IntToString(horas) + "h " + IntToString(JsRem(minutos, 60)) + "m"
    else IntToString(minutos) + "m"
  }

  /** Reading the elapsed text back, for a non-negative elapsed time: the
      pieces are the whole days and remaining hours, or the whole hours and
      remaining minutes, or the whole minutes. */
  lemma DecorridoIdaEVolta(diferenca: int)
    requires diferenca >= 0
    ensures diferenca >= MsPorDia ==>
              Ler(CalcularTempoDecorrido(diferenca)) == Some([(diferenca / MsPorDia, 'd'), ((diferenca / MsPorHora) % 24, 'h')])
    ensures MsPorHora <= diferenca < MsPorDia ==>
              Ler(CalcularTempoDecorrido(diferenca)) == Some([(diferenca / MsPorHora, 'h'), ((diferenca / MsPorMinuto) % 60, 'm')])
    ensures diferenca < MsPorHora ==>
              Ler(CalcularTempoDecorrido(diferenca)) == Some([(diferenca / MsPorMinuto, 'm')])
  {
    var minutos := diferenca / MsPorMinuto;
    var horas := minutos / 60;
    HorasInteiras(diferenca);
    if horas / 24 > 0 {
      DuasPartes(horas / 24, 'd', horas % 24, 'h');
    } else if horas > 0 {
      DuasPartes(horas, 'h', minutos % 60, 'm');
    } else {
      UmaParte(minutos, 'm');
    }
  }

  /** The text shows the elapsed whole minutes truncated to its smallest
      unit: to the hour from one day on, to the minute below. */
  lemma DecorridoTrunca(diferenca: int)
    requires diferenca >= 0
    ensures var p := Ler(CalcularTempoDecorrido(diferenca));
            var precisao := if diferenca >= MsPorDia then 60 else 1;
            && p.Some?
            && Minutos(p.value) <= diferenca / MsPorMinuto < Minutos(p.value) + precisao
  {
    DecorridoIdaEVolta(diferenca);
    HorasInteiras(diferenca);
    var minutos := diferenca / MsPorMinuto;
    var horas := minutos / 60;
    if diferenca >= MsPorDia {
      MinutosDuas(horas / 24, 'd', horas % 24, 'h');
    } else if diferenca >= MsPorHora {
      MinutosDuas(minutos / 60, 'h', minutos % 60, 'm');
    } else {
      MinutosUma(minutos, 'm');
    }
  }

  // ---------------------------------------------------------------------------
  // formatarDuracao

  /** `formatarDuracao`: the hours part is present exactly from 60 minutes on. */
  function FormatarDuracao(minutos: int): (r: string)
    ensures 'h' in r <==> minutos >= 60
  {
    var horas := minutos / 60;
    var mins := JsRem(minutos, 60);
    NoSeparatorInNumber(mins, 'h');
    if horas > 0 then IntToString(horas) + "h " + IntToString(mins) + "m"
    else IntToString(mins) + "m"
  }

  /** For a non-negative count the text reads back as hours and minutes
      below 60 that add up to the count. */
  lemma DuracaoIdaEVolta(minutos: int)
    requires minutos >= 0
    ensures minutos >= 60 ==> Ler(FormatarDuracao(minutos)) == Some([(minutos / 60, 'h'), (minutos % 60, 'm')])
    ensures minutos < 60 ==> Ler(FormatarDuracao(minutos)) == Some([(minutos, 'm')])
    ensures Ler(FormatarDuracao(minutos)).Some? && Minutos(Ler(FormatarDuracao(minutos)).value) == minutos
  {
    var h, m := minutos / 60, minutos % 60;
    assert JsRem(minutos, 60) == m;
    if minutos >= 60 {
      assert FormatarDuracao(minutos) == NatToString(h) + ['h', ' '] + NatToString(m) + ['m'];
      DuasPartes(h, 'h', m, 'm');
      MinutosDuas(h, 'h', m, 'm');
      assert h * 60 + m == minutos;
    } else {
      assert FormatarDuracao(minutos) == NatToString(minutos) + ['m'];
      UmaParte(minutos, 'm');
      MinutosUma(minutos, 'm');
    }
  }

  /** Below one hour a negative count keeps JavaScript's remainder, which
      takes the dividend's sign: -90 minutes shows as -30 minutes. */
  lemma DuracaoNegativa()
    ensures FormatarDuracao(-90) == "-30m"
    ensures FormatarDuracao(-30) == "-30m"
  {
    assert NatToString(30) == "30" by {
      assert NatToString(3) == "3";
    }
  }
}
