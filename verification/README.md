# Ramp control for car-carrier fleets, modelled in Dafny

This project models the core of a React dashboard that manages car-carrier trucks ("frotas") in a yard ("pátio"), at the loading ramps ("rampas") of four bays ("vãos", `galpao` in the code), and after dispatch. The pieces modelled are:

- **The vehicle list and its transitions** (`Dashboard`, `FrotasPatio`, `RampaCard`). These cover:
  - allocating a yard vehicle to a ramp;
  - sending it back to the yard;
  - dispatching it;
  - toggling its loaded flag;
  - adding a vehicle;
  - the occupancy query and the counters;
  - the 16-ramp grid numbering and the allocation `<select>`, with its `"r-g"` option values;
  - the yard queue order and the overdue flag;
  - the four display states of a ramp card and the buttons each state offers.

  The handlers check nothing themselves; the page guards them through what it offers. The model states this guard layer as `Dashboard.Oferecido`, with one addition: the page always offers the add button, and the model also requires the new id to differ from every existing one, which the page expects of the clock (`Date.now()`). It proves that every offered action keeps the list valid, and so does any session of offered actions from the initial list: ids stay unique (given fresh clock ids), ramp and bay are set exactly for vehicles at a ramp, they lie on the grid, and no two vehicles share a ramp.
- **Brazilian plates** (`Validation`). The validator accepts the legacy `ABC-1234` form, with the hyphen optional, and the Mercosul `ABC1D23` form. It removes whitespace and upper-cases before matching, so lower-case input such as `abc1234` is accepted. The display formatter is modelled too.
- **Time and report text** (`TimeUtils`, `ExportUtils`, `HistoricoMovimentacoes`). These cover:
  - elapsed-time text with day, hour and minute forms;
  - the `Xh Ym` duration text;
  - the CSV report lines;
  - the ten most recent movements;
  - the icon and colour of each movement action.

Modules: `Types` holds the record types and enumerations. `Texto` holds the string helpers that the JavaScript built-ins become: ASCII upper-casing, the whitespace class, decimal rendering, `split` and `join`. `Ordenacao` holds a stable insertion sort over a total preorder. Each remaining module follows one source file.

Every clock reading (`new Date()`) becomes a parameter: the current time `agora` or the elapsed milliseconds. The new vehicle id `Date.now().toString()` becomes the parameter `novoId`. The locale rendering of a date (`toLocaleString()`) becomes the function parameter `formatarData`.

## Model

| member | source | states |
|---|---|---|
| Types.StatusDe | src/types/index.ts:5 | A status is one of `patio`, `rampa`, `despachada`; reading a status's text gives it back, and a text is read only if it is some status's text |
| Types.PrioridadeDe | src/types/index.ts:11 | A priority is one of `alta`, `normal`, `baixa`, with the same two-way correspondence to its text |
| Types.AcaoDe | src/types/index.ts:27 | A movement action is one of seven values, with the same two-way correspondence to its text |
| Types.NomesInjetivos | src/types/index.ts:5-27 | Distinct statuses, priorities and actions have distinct texts |
| Dashboard.IniciaisValidas | src/components/Dashboard.tsx:21-26 | The four initial vehicles form a valid list: unique ids, ramp and bay set exactly at a ramp, on the grid, no shared ramp |
| Dashboard.AlocarFrota | src/components/Dashboard.tsx:31-36 | The vehicle with the id gets status `rampa`, the ramp and bay, and loaded = false; its id and number are kept; every other record and the length are unchanged |
| Dashboard.RemoverFrota | src/components/Dashboard.tsx:46-51 | The vehicle with the id gets status `patio` with ramp, bay and loaded cleared; everything else is unchanged |
| Dashboard.FinalizarCarregamento | src/components/Dashboard.tsx:61-66 | The vehicle with the id gets status `despachada`, ramp and bay cleared, loaded = true; everything else is unchanged |
| Dashboard.ToggleCarregada | src/components/Dashboard.tsx:76-81 | Only the loaded flag of the vehicle with the id changes, to the negation of its truthiness; status, ramp and bay are untouched |
| Dashboard.ToggleDuasVezes | src/components/Dashboard.tsx:76-81 | Toggling twice restores every vehicle's loaded truthiness and changes nothing else |
| Dashboard.AdicionarFrota | src/components/Dashboard.tsx:93-102 | An empty or all-whitespace input leaves the list unchanged; otherwise exactly one yard vehicle with the upper-cased number is appended at the end |
| Dashboard.RampaOcupada | src/components/Dashboard.tsx:112-114 | Nothing is found exactly when no vehicle has that ramp and bay; otherwise the result is the first vehicle that has them |
| Dashboard.OcupanteEstaNaRampa | src/components/Dashboard.tsx:112-114 | When ramp and bay are set only at a ramp, whatever occupies a ramp has status `rampa`: a yard or dispatched vehicle never does |
| Dashboard.ContarSe | src/components/Dashboard.tsx:117-185 | The count of `filter(p).length` is the number of positions whose vehicle satisfies `p` |
| Dashboard.Contar | src/components/Dashboard.tsx:117-169 | A status count is the number of positions whose vehicle has that status |
| Dashboard.ContarCarregadas | src/components/Dashboard.tsx:185 | The "Carregadas" card is the number of positions whose loaded flag is truthy, whatever the status, dispatched vehicles included |
| Dashboard.ContagensSomam | src/components/Dashboard.tsx:117-169 | The yard, ramp and dispatched counts add up to the number of vehicles |
| Dashboard.RampasLivresNaoNegativas | src/components/Dashboard.tsx:197-199 | In a valid list the free-ramp count `16 - at ramps` lies between 0 and 16 |
| Dashboard.GradeConcordaComSelect | src/components/Dashboard.tsx:220-227 | Grid cell `(g-1)*4+i+1` for bay g in 1..4 and i in 0..3 is a ramp in 1..16 whose bay, by the select's `ceil(r/4)`, is g |
| Dashboard.CadaRampaNumaCelula | src/components/Dashboard.tsx:357-359 | Each ramp 1..16 sits in exactly one grid cell, in the bay `ceil(r/4)` |
| Dashboard.OpcoesAlocacao | src/components/Dashboard.tsx:357-369 | A (ramp, bay) pair is offered exactly when it is a grid cell that no vehicle occupies; options come in ramp order |
| Dashboard.BotoesGrade | src/components/Dashboard.tsx:247-293 | A free cell offers no action; an occupied cell offers the loaded toggle, dispatch exactly when loaded, remove exactly when not loaded |
| Dashboard.AlocarOferecido | src/components/Dashboard.tsx:346-353 | Choosing an offered option for a yard vehicle keeps the list valid and its length; statuses change only by permitted steps, and dispatched vehicles are untouched |
| Dashboard.ClicarOferecido | src/components/Dashboard.tsx:258-283 | Pressing an offered grid button keeps the list valid and its length; statuses change only by permitted steps, and dispatched vehicles are untouched |
| Dashboard.AdicionarOferecido | src/components/Dashboard.tsx:93-102 | Adding with a fresh id keeps the list valid and the existing records unchanged |
| Dashboard.PassoOferecidoPreservaValido | src/components/Dashboard.tsx:31-102 | Every offered action keeps the list valid, never shrinks it, changes statuses only yard→ramp, ramp→yard or ramp→dispatched, and never touches a dispatched vehicle |
| Dashboard.SessaoPreservaValido | src/components/Dashboard.tsx:31-102 | Any sequence of offered actions from a valid list ends in a valid list whose free-ramp count lies in 0..16 |
| Dashboard.SessaoDesdeOInicio | src/components/Dashboard.tsx:21-26 | The same holds for every session that starts from the initial list |
| FrotasPatio.ComparadorConsistente | src/components/FrotasPatio.tsx:41-48 | The comparator is non-positive exactly when a has higher priority, or equal priority and a last move no later than b's; that relation is a total preorder |
| FrotasPatio.OrdenarFila | src/components/FrotasPatio.tsx:41-48 | The sorted copy is a permutation of the input, priorities are non-increasing, and within a priority the last-move times are non-decreasing |
| FrotasPatio.AlertaEmMilissegundos | src/components/FrotasPatio.tsx:35-38 | A vehicle is overdue exactly when the elapsed milliseconds exceed the threshold minutes times 60000 |
| FrotasPatio.Teto | src/components/FrotasPatio.tsx:100 | The bay `ceil(r / porVao)` is the q with (q-1)*porVao < r <= q*porVao |
| FrotasPatio.TetoUnico | src/components/FrotasPatio.tsx:100 | That q is unique |
| FrotasPatio.OpcoesLivres | src/components/FrotasPatio.tsx:98-111 | Ramp r is offered, with bay `ceil(r / porVao)`, exactly when 1 <= r <= totalRampas and it is neither occupied nor blocked; options come in ramp order |
| FrotasPatio.NumeroDe | src/components/FrotasPatio.tsx:91 | A string of decimal digits converts to a non-negative number; any other string is not a number |
| FrotasPatio.OpcaoIdaEVolta | src/components/FrotasPatio.tsx:89-107 | Decoding the option value `"r-g"` of non-negative r and g, as the change handler does, gives back (r, g) |
| FrotasPatio.RampaNegativaNaoVolta | src/components/FrotasPatio.tsx:91 | A negative ramp does not come back: the value of (-1, 1) decodes to (0, 1) |
| RampaCard.Estado | src/components/RampaCard.tsx:37-50 | Exactly four states: blocked whenever blocked; otherwise loaded or unloaded when a vehicle occupies the ramp, by the vehicle's loaded flag; free when none does |
| RampaCard.Botoes | src/components/RampaCard.tsx:56-131 | Blocked offers only unblock; occupied offers the toggle and block, dispatch exactly when loaded, remove exactly when not; free offers only block |
| RampaCard.CartaoEstendeGrade | src/components/RampaCard.tsx:69-115 | An unblocked card offers the inline grid's actions plus block |
| RampaCard.DespacharOuRemover | src/components/RampaCard.tsx:88-106 | Dispatch and remove are never both offered; an unblocked occupied card offers one of them |
| HistoricoMovimentacoes.MaisNovaPrimeiroOrdena | src/components/HistoricoMovimentacoes.tsx:14 | The newest-first comparator is a total preorder |
| HistoricoMovimentacoes.Recentes | src/components/HistoricoMovimentacoes.tsx:13-15 | At most ten entries, min(10, n) of them, newest first, drawn from the input; with ten or fewer it is a permutation of the input |
| HistoricoMovimentacoes.RecentesSaoAsMaisNovas | src/components/HistoricoMovimentacoes.tsx:13-15 | No entry left out is newer than an entry kept |
| HistoricoMovimentacoes.IconesDistintos | src/components/HistoricoMovimentacoes.tsx:17-28 | The seven actions have seven different icons, none of them the default; any other text gets the default |
| HistoricoMovimentacoes.CoresNaoDistinguem | src/components/HistoricoMovimentacoes.tsx:30-41 | Dispatch and unblock share green, and that is the only pair of actions sharing a colour |
| Validation.PadroesSaoFormas | src/utils/validation.ts:7-10 | A string matches the legacy or the Mercosul pattern exactly when its letter/digit/hyphen shape is `LLLDDDD`, `LLL-DDDD` or `LLLDLDD` |
| Validation.ValidarPlacaBrasileira | src/utils/validation.ts:2-21 | An error is present exactly when invalid; the empty-plate error comes exactly for all-whitespace input; valid exactly when the normalised shape is accepted; any other failure is the format error |
| Validation.NormalizarIdempotente | src/utils/validation.ts:4 | Removing whitespace and upper-casing twice is doing it once |
| Validation.ValidarNormalizada | src/utils/validation.ts:4 | Validating the normalised input gives the same result as validating the raw input |
| Validation.CaixaNaoImporta | src/utils/validation.ts:4 | Writing any letters of a plate in lower case does not change the validator's answer |
| Validation.ValidarPorPadrao | src/utils/validation.ts:7-18 | Over letters, digits and hyphens a plate is valid exactly when it matches the legacy or the Mercosul pattern, and otherwise gets the format error |
| Validation.ExemploMinusculas | src/utils/validation.ts:4-7 | `abc1234` is accepted |
| Validation.ExemploHifen | src/utils/validation.ts:7 | `ABC-1234` is accepted |
| Validation.ExemploVazia | src/utils/validation.ts:12-14 | Whitespace only gives the empty-plate error |
| Validation.ExemploHifenDuplo | src/utils/validation.ts:16-18 | `ABC--1234` gives the format error |
| Validation.FormatarPlaca | src/utils/validation.ts:23-37 | After the `[A-Z0-9]` filter, upper-casing changes nothing; exactly seven kept characters in the Mercosul pattern come back unchanged; any other six or more kept characters come back cut to seven with a hyphen after the third (length `min(7, n) + 1`, `-` at index 3); in both cases the letters and digits are the first seven kept characters in order; fewer than six give the input upper-cased |
| Validation.MontarConteudo | src/utils/validation.ts:27-34 | The branch taken: a seven-character Mercosul string is returned as it is; any other string of six or more gets a hyphen after the third character and is cut to seven (length `min(7, n) + 1`, `-` at index 3); from six on, the result's letters and digits are the first seven kept characters |
| Validation.FormatarPlacaCanonica | src/utils/validation.ts:24-34 | A legacy plate with hyphen or a Mercosul plate is returned unchanged |
| Validation.FormatarPlacaPerdeMinusculas | src/utils/validation.ts:24-34 | For every legacy plate without hyphen, writing its first letter in lower case gives an input that validates, formats to the other six characters hyphenated after the third, and that text does not validate |
| Validation.ExemploDoAchado | src/utils/validation.ts:24-34 | `aBC1234` validates, formats to `BC1-234`, and that text does not validate |
| Validation.FormatarPlacaCorrigida | src/utils/validation.ts:23-37 | Upper-casing before the filter keeps at least as many characters; a seven-character Mercosul result of that filter comes back unchanged, any other of six or more is cut to seven with a hyphen after the third; its letters and digits are the first seven of the upper-cased input's; fewer than six give the input upper-cased |
| Validation.CorrigidaConcordaSemMinusculas | src/utils/validation.ts:24-36 | Without lower-case letters in the input the corrected and the as-written formatters agree |
| Validation.FormatarCorrigidaPreservaValidade | src/utils/validation.ts:23-37 | Upper-casing first, every valid plate formats to a canonical plate that validates, that formatting leaves unchanged, and whose letters and digits are those of the normalised input |
| TimeUtils.JsRem | src/utils/timeUtils.ts:21 | The remainder of a non-negative dividend is the mathematical one; of a negative dividend it lies in (-b, 0]; in both cases the dividend minus the remainder is a multiple of b, which fixes the value |
| TimeUtils.HorasInteiras | src/utils/timeUtils.ts:6-8 | Flooring to minutes and then to hours is flooring to hours; likewise hours then days |
| TimeUtils.CalcularTempoDecorrido | src/utils/timeUtils.ts:2-17 | The day form appears exactly from 24 hours on, an hours part exactly from one hour on, and under one minute the text is `0m` |
| TimeUtils.DecorridoIdaEVolta | src/utils/timeUtils.ts:6-16 | Reading the text back gives whole days and the hours beyond them, or whole hours and the minutes beyond them, or whole minutes |
| TimeUtils.DecorridoTrunca | src/utils/timeUtils.ts:6-16 | The minutes read back are the elapsed whole minutes truncated to the hour from one day on, and exact below |
| TimeUtils.FormatarDuracao | src/utils/timeUtils.ts:19-28 | The hours part is present exactly from 60 minutes on |
| TimeUtils.DuracaoIdaEVolta | src/utils/timeUtils.ts:19-27 | For m >= 0 the text reads back as m div 60 hours and m mod 60 minutes, or m minutes below 60, and these add back up to m |
| TimeUtils.DuracaoNegativa | src/utils/timeUtils.ts:21 | A negative count keeps the sign of the remainder: -90 and -30 both show as `-30m` |
| ExportUtils.TempoExportacao | src/utils/exportUtils.ts:32-43 | The export's elapsed text has no day form; the hours part appears exactly from one hour on; it holds no comma or newline |
| ExportUtils.ExportacaoEhDuracao | src/utils/exportUtils.ts:35-42 | For a non-negative elapsed time it equals the duration text of the elapsed whole minutes |
| ExportUtils.ExportacaoConcordaAbaixoDeUmDia | src/utils/exportUtils.ts:32-43 | Below one day it equals the dashboard's elapsed text |
| ExportUtils.VinteECincoHoras | src/utils/exportUtils.ts:35-42 | 25 hours is `25h 0m` in the report but `1d 1h` on screen |
| ExportUtils.CampoNumerico | src/utils/exportUtils.ts:14-15 | The field is empty exactly when the ramp or bay is absent or 0, and is the number otherwise |
| ExportUtils.CampoCarregada | src/utils/exportUtils.ts:16 | The field is `Sim` exactly when loaded is truthy, `Não` otherwise |
| ExportUtils.Campos | src/utils/exportUtils.ts:9-18 | A row has as many fields as the header has columns |
| ExportUtils.CabecalhoIdaEVolta | src/utils/exportUtils.ts:7 | The header splits at commas into its eight column names and holds no newline |
| ExportUtils.LinhaIdaEVolta | src/utils/exportUtils.ts:9-18 | A row splits at commas back into its eight fields, as many as the header has, when the number and date text hold no comma |
| ExportUtils.RelatorioIdaEVolta | src/utils/exportUtils.ts:5-19 | The report splits at newlines into the header and then one row per vehicle in input order, when no number or date text holds a newline |

## Left out

- Local storage, the keyboard-shortcut hook, the stats card, the advanced-filter form and the advanced statistics are not part of this model. They are I/O, event wiring or presentation.
- Toast messages, CSS class strings (including the priority colour of a yard row), React state and the CSV download are left out: they are side effects or styling. The download covers the blob, the link and the click.
- The ramp blocking handler (`onToggleBloqueio`) is a prop whose implementation is not part of this model. The card's block and unblock buttons are modelled as offered. The session model (`Dashboard.Passo`) covers the inline grid, which has no block button, so blocking never appears in it.
- Dashboard.Oferecido: the add button is always offered, and `adicionarFrota` rejects only blank text (src/components/Dashboard.tsx:93-97). Requiring the new id `Date.now().toString()` to be unused is an assumption about the clock, not a check the page makes. Two adds within one millisecond would repeat an id: the session model (`Dashboard.Executar`) skips such an add, whereas the page would perform it. The results on unique ids and unshared ramps do not cover that case.
- FrotasPatio.OpcoesLivres (and FrotasPatio.OpcoesDesde): requires at least one ramp per bay. With `rampasPorVao` equal to 0, the source's `Math.ceil(rampa / 0)` yields `Infinity`, which an unbounded integer cannot hold. A negative value is excluded with it.
- FrotasPatio.DecodificarOpcao (and FrotasPatio.AoSelecionar): a value without `-`, or with a piece that is not a decimal numeral, decodes to nothing and allocates nothing. The source would instead call the allocation handler with `NaN` or `undefined` for that piece. No value the option list produces reaches this case (`FrotasPatio.OpcaoIdaEVolta`); only a hand-made value would.
- FrotasPatio.NumeroDe: models `Number` only for strings of decimal digits and the empty string (0). Every other string is taken as not a number, including signs, spaces, exponents and fractions.
- FrotasPatio.IsAlerta: uses exact real division, not IEEE doubles, so rounding at extreme magnitudes is not modelled.
- TimeUtils.CalcularTempoDecorrido: takes whole elapsed milliseconds as an unbounded integer. `Math.floor` of a double is exact integer flooring here.
- TimeUtils.FormatarDuracao: takes whole minutes only; a fractional minute count is not modelled.
- Texto.ToUpper: upper-cases ASCII letters only. Texto.IsSpace is the full JavaScript `\s` set, but no other Unicode case mapping is modelled.
- HistoricoMovimentacoes.Recentes: the source sorts the array it receives in place; the model is a pure function, so that mutation is not modelled. Stability of the sort is not stated.
- FrotasPatio.OrdenarFila: the order among vehicles with equal priority and equal last-move time is not stated. The insertion sort is stable, but no lemma says so.
- ExportUtils.LinhaIdaEVolta: the report does not quote fields. Its round trip therefore needs the plate number and the date text to be free of commas (and, for the report, of newlines).
- The dashboard keeps its own six-field vehicle record (`Dashboard.FrotaPainel`), the shape the page and the ramp card declare. The yard queue and the report use the full record of the shared types.

## Findings

| source | as written | input that shows it | evidently intended | confidence | as-written member | corrected member |
|---|---|---|---|---|---|---|
| src/utils/validation.ts:24 | the formatter drops every character outside `A-Z0-9` and only then upper-cases, so lower-case letters are dropped and the upper-casing does nothing | `aBC1234`: the validator accepts it, the formatter gives `BC1-234`, and the validator rejects that | upper-case first, then drop what is not a letter or digit, as the validator normalises | medium; not executed | Validation.FormatarPlacaPerdeMinusculas | Validation.FormatarPlacaCorrigida |
