/** The text of the CSV report (src/utils/exportUtils.ts): a header line and
    one comma-separated line per vehicle, joined by newlines. The clock is the
    parameter `agora` and the locale rendering of the creation time is the
    function parameter `formatarData`. */
module ExportUtils {
  import opened Types
  import opened Texto
  import opened TimeUtils

  /** The header's column names, in order. */
  const Colunas: seq<string> := [
    "N\U{FA}mero", "Status", "Prioridade", "Tempo Decorrido",
    "Rampa", "V\U{E3}o", "Carregada", "Criado Em"
  ]

  const Cabecalho: string := Join(Colunas, ',')

  // ---------------------------------------------------------------------------
  // The export's own elapsed-time text

  /** The module-local `calcularTempoDecorrido`: hours and minutes from one
      hour on, whole minutes below; there is no day form. */
  function TempoExportacao(diferenca: int): (r: string)
    ensures 'd' !in r
    ensures 'h' in r <==> diferenca >= MsPorHora
    ensures ',' !in r && '\n' !in r
  {
    var minutos := diferenca / MsPorMinuto;
    var horas := minutos / 60;
    HorasInteiras(diferenca);
    NoSeparatorInNumber(minutos, 'd');
    NoSeparatorInNumber(minutos, 'h');
    NoSeparatorInNumber(minutos, ',');
    NoSeparatorInNumber(minutos, '\n');
    NoSeparatorInNumber(horas, 'd');
    NoSeparatorInNumber(horas, ',');
    NoSeparatorInNumber(horas, '\n');
    NoSeparatorInNumber(JsRem(minutos, 60), 'd');
    NoSeparatorInNumber(JsRem(minutos, 60), 'h');
    NoSeparatorInNumber(JsRem(minutos, 60), ',');
    NoSeparatorInNumber(JsRem(minutos, 60), '\n');
    if horas > 0 then IntToString(horas) + "h " + IntToString(JsRem(minutos, 60)) + "m"
    else IntToString(minutos) + "m"
  }

  /** For a non-negative elapsed time the export's text is the duration text
      of the elapsed whole minutes. */
  lemma ExportacaoEhDuracao(diferenca: int)
    requires diferenca >= 0
    ensures TempoExportacao(diferenca) == FormatarDuracao(diferenca / MsPorMinuto)
  {
  }

  /** Below one day the export and the dashboard show the same text. */
  lemma ExportacaoConcordaAbaixoDeUmDia(diferenca: int)
    requires diferenca < MsPorDia
    ensures TempoExportacao(diferenca) == CalcularTempoDecorrido(diferenca)
  {
    HorasInteiras(diferenca);
  }

  /** From one day on they differ: 25 hours is `25h 0m` in the report and
      `1d 1h` on screen. */
  lemma VinteECincoHoras()
    ensures TempoExportacao(25 * MsPorHora) == "25h 0m"
    ensures CalcularTempoDecorrido(25 * MsPorHora) == "1d 1h"
  {
    VinteECincoHorasNoRelatorio();
    VinteECincoHorasNaTela();
  }

  lemma VinteECincoHorasNoRelatorio()
    ensures TempoExportacao(25 * MsPorHora) == "25h 0m"
  {
    var minutos := 25 * MsPorHora / MsPorMinuto;
    assert minutos == 1500 && minutos / 60 == 25;
    assert JsRem(minutos, 60) == 0;
    assert IntToString(0) == "0";
    assert IntToString(25) == "25" by {
      assert NatToString(2) == "2";
    }
  }

  lemma VinteECincoHorasNaTela()
    ensures CalcularTempoDecorrido(25 * MsPorHora) == "1d 1h"
  {
    var minutos := 25 * MsPorHora / MsPorMinuto;
    assert minutos == 1500 && minutos / 60 == 25 && 25 / 24 == 1;
    assert JsRem(25, 24) == 1;
    assert IntToString(1) == "1";
  }

  // ---------------------------------------------------------------------------
  // Fields, rows and the report

  /** `valor || ''` for an optional number: absent and 0 both give an empty field. */
  function CampoNumerico(valor: Option<int>): (r: string)
    ensures r == "" <==> valor.None? || valor == Some(0)
    ensures r != "" ==> r == IntToString(valor.value)
    ensures ',' !in r && '\n' !in r
  {
    match valor
    case Some(n) =>
      NoSeparatorInNumber(n, ',');
      NoSeparatorInNumber(n, '\n');
      if n == 0 then "" else IntToString(n)
    case None => ""
  }

  /** The loaded column: yes for a truthy flag, no otherwise. */
  function CampoCarregada(carregada: Option<bool>): (r: string)
    ensures r == "Sim" <==> Truthy(carregada)
    ensures r != "Sim" ==> r == "N\U{E3}o"
  {
    if Truthy(carregada) then "Sim" else "N\U{E3}o"
  }

  /** The eight fields of a vehicle's row, in the header's column order. */
  function Campos(frota: Frota, agora: int, formatarData: int -> string): (r: seq<string>)
    ensures |r| == |Colunas|
  {
    [ frota.numero,
      StatusNome(frota.status),
      PrioridadeNome(frota.prioridade),
      TempoExportacao(agora - frota.ultimaMovimentacao),
      CampoNumerico(frota.rampa),
      CampoNumerico(frota.galpao),
      CampoCarregada(frota.carregada),
      formatarData(frota.criadoEm) ]
  }

  function Linha(frota: Frota, agora: int, formatarData: int -> string): string {
    Join(Campos(frota, agora, formatarData), ',')
  }

  function Linhas(frotas: seq<Frota>, agora: int, formatarData: int -> string): (r: seq<string>)
    ensures |r| == |frotas|
    ensures forall i :: 0 <= i < |frotas| ==> r[i] == Linha(frotas[i], agora, formatarData)
  {
    seq(|frotas|, i requires 0 <= i < |frotas| => Linha(frotas[i], agora, formatarData))
  }

  /** The CSV text: the header, then one row per vehicle in input order. */
  function RelatorioCSV(frotas: seq<Frota>, agora: int, formatarData: int -> string): string {
    Join([Cabecalho] + Linhas(frotas, agora, formatarData), '\n')
  }

  // ---------------------------------------------------------------------------
  // Reading the report back

  /** The fields the model does not control: the plate number and the
      rendered creation time. */
  predicate SemCaractere(frota: Frota, formatarData: int -> string, c: char) {
    c !in frota.numero && c !in formatarData(frota.criadoEm)
  }

  lemma CamposSemCaractere(frota: Frota, agora: int, formatarData: int -> string, c: char)
    requires c == ',' || c == '\n'
    requires SemCaractere(frota, formatarData, c)
    ensures forall i :: 0 <= i < |Campos(frota, agora, formatarData)| ==> c !in Campos(frota, agora, formatarData)[i]
  {
    var campos := Campos(frota, agora, formatarData);
    NomesSemSeparador(frota.status, frota.prioridade, frota.carregada, c);
    forall i | 0 <= i < |campos| ensures c !in campos[i] {
    }
  }

  /** The status, priority and loaded texts hold neither separator. */
  lemma NomesSemSeparador(s: Status, p: Prioridade, carregada: Option<bool>, c: char)
    requires c == ',' || c == '\n'
    ensures c !in StatusNome(s) && c !in PrioridadeNome(p) && c !in CampoCarregada(carregada)
  {
    match s
    case Patio => assert c !in "patio";
    case Rampa => assert c !in "rampa";
    case Despachada => assert c !in "despachada";
    match p
    case Alta => assert c !in "alta";
    case Normal => assert c !in "normal";
    case Baixa => assert c !in "baixa";
    assert c !in "Sim" && c !in "N\U{E3}o";
  }

  /** Splitting a row at commas gives back its eight fields, provided the
      number and the date text hold no comma (the row is not quoted). */
  lemma LinhaIdaEVolta(frota: Frota, agora: int, formatarData: int -> string)
    requires SemCaractere(frota, formatarData, ',')
    ensures Split(Linha(frota, agora, formatarData), ',') == Campos(frota, agora, formatarData)
    ensures |Split(Linha(frota, agora, formatarData), ',')| == |Split(Cabecalho, ',')|
  {
    CamposSemCaractere(frota, agora, formatarData, ',');
    SplitJoin(Campos(frota, agora, formatarData), ',');
    CabecalhoIdaEVolta();
  }

  lemma CabecalhoIdaEVolta()
    ensures Split(Cabecalho, ',') == Colunas
    ensures '\n' !in Cabecalho
  {
    assert forall i :: 0 <= i < |Colunas| ==> ',' !in Colunas[i] && '\n' !in Colunas[i];
    SplitJoin(Colunas, ',');
    NotInJoin(Colunas, ',', '\n');
  }

  /** Splitting the report at newlines gives the header and then each
      vehicle's row in input order, provided no number or date text holds a
      newline; each row splits back into that vehicle's fields when it also
      holds no comma. */
  lemma RelatorioIdaEVolta(frotas: seq<Frota>, agora: int, formatarData: int -> string)
    requires forall i :: 0 <= i < |frotas| ==> SemCaractere(frotas[i], formatarData, '\n')
    ensures var linhas := Split(RelatorioCSV(frotas, agora, formatarData), '\n');
            && |linhas| == |frotas| + 1
            && linhas[0] == Cabecalho
            && forall i :: 0 <= i < |frotas| ==> linhas[i + 1] == Linha(frotas[i], agora, formatarData)
  {
    var todas := [Cabecalho] + Linhas(frotas, agora, formatarData);
    CabecalhoIdaEVolta();
    forall i | 0 <= i < |todas| ensures '\n' !in todas[i] {
      if i > 0 {
        var f := frotas[i - 1];
        CamposSemCaractere(f, agora, formatarData, '\n');
        NotInJoin(Campos(f, agora, formatarData), ',', '\n');
      }
    }
    SplitJoin(todas, '\n');
  }
}
