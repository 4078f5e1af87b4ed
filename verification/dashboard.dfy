/** The ramp dashboard (src/components/Dashboard.tsx): the five operations on
    the vehicle list, the occupancy query, the derived counts, the numbering
    of the 4 x 4 ramp grid and of the allocation `<select>`, and the guard
    layer the page forms by deciding which actions to show.

    None of the five operations checks anything: each rewrites every record
    whose `id` matches. What keeps the list sensible is the page, which only
    offers an action where it makes sense. `Oferecido` states that guard,
    `Aplicar` runs the handler an offered action calls, and
    `PassoOferecidoPreservaValido` proves that the guard keeps the list in a
    valid state: ramp and bay set exactly for vehicles at a ramp, at most one
    vehicle per ramp, every occupied ramp a cell of the grid. */
module Dashboard {
  import opened Types
  import opened Texto
  import FrotasPatio

  /** The six-field vehicle record the dashboard declares for itself. */
  datatype FrotaPainel = FrotaPainel(
    id: string,
    numero: string,
    status: Status,
    rampa: Option<int>,
    galpao: Option<int>,
    carregada: Option<bool>)

  /** The list the page starts with. */
  const FrotasIniciais: seq<FrotaPainel> := [
    FrotaPainel("1", "CEG-001", Patio, None, None, None),
    FrotaPainel("2", "CEG-002", Patio, None, None, None),
    FrotaPainel("3", "CEG-003", Rampa, Some(1), Some(1), Some(false)),
    FrotaPainel("4", "CEG-004", Rampa, Some(5), Some(2), Some(true))
  ]

  /** The list with every vehicle carrying the given id rewritten by `novo`,
      in place; the common shape of the four status handlers. */
  function Reescrever(frotas: seq<FrotaPainel>, frotaId: string,
                      novo: FrotaPainel -> FrotaPainel): (r: seq<FrotaPainel>)
    ensures |r| == |frotas|
  {
    seq(|frotas|, i requires 0 <= i < |frotas| =>
      if frotas[i].id == frotaId then novo(frotas[i]) else frotas[i])
  }

  // ---------------------------------------------------------------------------
  // The five operations

  /** `alocarFrota`: the matching vehicle goes to the ramp, unloaded. */
  function AlocarFrota(frotas: seq<FrotaPainel>, frotaId: string, rampa: int, galpao: int): (r: seq<FrotaPainel>)
    ensures |r| == |frotas|
    ensures forall i :: 0 <= i < |r| && frotas[i].id == frotaId ==>
              && r[i].id == frotas[i].id && r[i].numero == frotas[i].numero
              && r[i].status == Rampa && r[i].rampa == Some(rampa) && r[i].galpao == Some(galpao)
              && r[i].carregada == Some(false)
    ensures forall i :: 0 <= i < |r| && frotas[i].id != frotaId ==> r[i] == frotas[i]
  {
    Reescrever(frotas, frotaId,
      (f: FrotaPainel) => f.(status := Rampa, rampa := Some(rampa), galpao := Some(galpao), carregada := Some(false)))
  }

  /** `removerFrota`: the matching vehicle returns to the yard; ramp, bay and
      loaded flag are cleared. */
  function RemoverFrota(frotas: seq<FrotaPainel>, frotaId: string): (r: seq<FrotaPainel>)
    ensures |r| == |frotas|
    ensures forall i :: 0 <= i < |r| && frotas[i].id == frotaId ==>
              && r[i].id == frotas[i].id && r[i].numero == frotas[i].numero
              && r[i].status == Patio && r[i].rampa.None? && r[i].galpao.None? && r[i].carregada.None?
    ensures forall i :: 0 <= i < |r| && frotas[i].id != frotaId ==> r[i] == frotas[i]
  {
    Reescrever(frotas, frotaId,
      (f: FrotaPainel) => f.(status := Patio, rampa := None, galpao := None, carregada := None))
  }

  /** `finalizarCarregamento`: the matching vehicle is dispatched loaded and
      frees its ramp. */
  function FinalizarCarregamento(frotas: seq<FrotaPainel>, frotaId: string): (r: seq<FrotaPainel>)
    ensures |r| == |frotas|
    ensures forall i :: 0 <= i < |r| && frotas[i].id == frotaId ==>
              && r[i].id == frotas[i].id && r[i].numero == frotas[i].numero
              && r[i].status == Despachada && r[i].rampa.None? && r[i].galpao.None?
              && r[i].carregada == Some(true)
    ensures forall i :: 0 <= i < |r| && frotas[i].id != frotaId ==> r[i] == frotas[i]
  {
    Reescrever(frotas, frotaId,
      (f: FrotaPainel) => f.(status := Despachada, rampa := None, galpao := None, carregada := Some(true)))
  }

  /** `toggleCarregada`: only the loaded flag of the matching vehicle flips
      (an absent flag counts as false, so it becomes true). */
  function ToggleCarregada(frotas: seq<FrotaPainel>, frotaId: string): (r: seq<FrotaPainel>)
    ensures |r| == |frotas|
    ensures forall i :: 0 <= i < |r| && frotas[i].id == frotaId ==>
              && r[i].id == frotas[i].id && r[i].numero == frotas[i].numero
              && r[i].status == frotas[i].status && r[i].rampa == frotas[i].rampa
              && r[i].galpao == frotas[i].galpao
              && r[i].carregada.Some? && (Truthy(r[i].carregada) <==> !Truthy(frotas[i].carregada))
    ensures forall i :: 0 <= i < |r| && frotas[i].id != frotaId ==> r[i] == frotas[i]
  {
    Reescrever(frotas, frotaId, (f: FrotaPainel) => f.(carregada := Some(!Truthy(f.carregada))))
  }

  /** Toggling twice gives every vehicle back its loaded truthiness and
      changes nothing else about it. */
  lemma ToggleDuasVezes(frotas: seq<FrotaPainel>, frotaId: string)
    ensures var r := ToggleCarregada(ToggleCarregada(frotas, frotaId), frotaId);
            && |r| == |frotas|
            && forall i :: 0 <= i < |r| ==>
                 && r[i].(carregada := frotas[i].carregada) == frotas[i]
                 && (Truthy(r[i].carregada) <==> Truthy(frotas[i].carregada))
  {
  }

  /** `!novaFrota.trim()`: the input is empty once surrounding whitespace is
      removed, that is, every character is whitespace. */
  predicate EmBranco(texto: string) {
    forall i :: 0 <= i < |texto| ==> IsSpace(texto[i])
  }

  /** `adicionarFrota`: a blank input changes nothing; otherwise one yard
      vehicle, its number upper-cased (not trimmed), is appended. The new id
      (`Date.now().toString()`) is a parameter. */
  function AdicionarFrota(frotas: seq<FrotaPainel>, texto: string, novoId: string): (r: seq<FrotaPainel>)
    ensures EmBranco(texto) ==> r == frotas
    ensures !EmBranco(texto) ==>
              && |r| == |frotas| + 1 && r[..|frotas|] == frotas
              && r[|frotas|] == FrotaPainel(novoId, ToUpper(texto), Patio, None, None, None)
  {
    if EmBranco(texto) then frotas
    else frotas + [FrotaPainel(novoId, ToUpper(texto), Patio, None, None, None)]
  }

  // ---------------------------------------------------------------------------
  // Occupancy

  predicate Ocupa(f: FrotaPainel, rampa: int, galpao: int) {
    f.rampa == Some(rampa) && f.galpao == Some(galpao)
  }

  /** `rampaOcupada`: the first vehicle whose ramp and bay are the given ones. */
  function RampaOcupada(frotas: seq<FrotaPainel>, rampa: int, galpao: int): (r: Option<FrotaPainel>)
    ensures r.None? <==> forall i :: 0 <= i < |frotas| ==> !Ocupa(frotas[i], rampa, galpao)
    ensures r.Some? ==> exists k :: 0 <= k < |frotas| && frotas[k] == r.value && Ocupa(frotas[k], rampa, galpao)
                                 && forall j :: 0 <= j < k ==> !Ocupa(frotas[j], rampa, galpao)
  {
    if |frotas| == 0 then None
    else if Ocupa(frotas[0], rampa, galpao) then Some(frotas[0])
    else
      var r := RampaOcupada(frotas[1..], rampa, galpao);
      assert r.Some? ==> exists k :: 0 <= k < |frotas| && frotas[k] == r.value && Ocupa(frotas[k], rampa, galpao)
                                   && forall j :: 0 <= j < k ==> !Ocupa(frotas[j], rampa, galpao) by {
        if r.Some? {
          var k :| 0 <= k < |frotas[1..]| && frotas[1..][k] == r.value && Ocupa(frotas[1..][k], rampa, galpao)
                   && forall j :: 0 <= j < k ==> !Ocupa(frotas[1..][j], rampa, galpao);
          assert frotas[k + 1] == r.value;
          assert forall j :: 0 <= j < k + 1 ==> !Ocupa(frotas[j], rampa, galpao) by {
            forall j | 0 <= j < k + 1 ensures !Ocupa(frotas[j], rampa, galpao) {
              if j > 0 { assert frotas[j] == frotas[1..][j - 1]; }
            }
          }
        }
      }
      r
  }

  // ---------------------------------------------------------------------------
  // Validity of the list

  /** Ramp and bay are set exactly when the vehicle is at a ramp. */
  predicate Coerente(f: FrotaPainel) {
    && (f.rampa.Some? <==> f.status == Rampa)
    && (f.galpao.Some? <==> f.status == Rampa)
  }

  predicate IdsUnicos(frotas: seq<FrotaPainel>) {
    forall i, j :: 0 <= i < j < |frotas| ==> frotas[i].id != frotas[j].id
  }

  /** Ramp `rampa` with the bay the page derives for it: a cell of the grid. */
  predicate NaGrade(rampa: int, galpao: int) {
    1 <= rampa <= 16 && galpao == GalpaoDaRampa(rampa)
  }

  predicate Valido(frotas: seq<FrotaPainel>) {
    && IdsUnicos(frotas)
    && (forall i :: 0 <= i < |frotas| ==> Coerente(frotas[i]))
    && (forall i :: 0 <= i < |frotas| && frotas[i].status == Rampa ==>
          NaGrade(frotas[i].rampa.value, frotas[i].galpao.value))
    && (forall i, j :: 0 <= i < j < |frotas| && frotas[i].status == Rampa && frotas[j].status == Rampa ==>
          frotas[i].rampa != frotas[j].rampa || frotas[i].galpao != frotas[j].galpao)
  }

  lemma IniciaisValidas()
    ensures Valido(FrotasIniciais)
  {
    assert GalpaoDaRampa(1) == 1 && GalpaoDaRampa(5) == 2;
  }

  /** With ramp and bay set only for vehicles at a ramp, whatever occupies a
      ramp is at a ramp: a yard or dispatched vehicle never does. */
  lemma OcupanteEstaNaRampa(frotas: seq<FrotaPainel>, rampa: int, galpao: int)
    requires forall i :: 0 <= i < |frotas| ==> Coerente(frotas[i])
    ensures RampaOcupada(frotas, rampa, galpao).Some? ==> RampaOcupada(frotas, rampa, galpao).value.status == Rampa
  {
  }

  // ---------------------------------------------------------------------------
  // Derived counts

  /** The positions of the vehicles that satisfy `p`. */
  ghost function Onde(frotas: seq<FrotaPainel>, p: FrotaPainel -> bool): set<int> {
    set i | 0 <= i < |frotas| && p(frotas[i])
  }

  /** `frotas.filter(p).length`: the number of positions holding a vehicle
      that satisfies `p`. */
  function ContarSe(frotas: seq<FrotaPainel>, p: FrotaPainel -> bool): (n: nat)
    ensures n == |Onde(frotas, p)|
    ensures n <= |frotas|
    decreases |frotas|
  {
    if |frotas| == 0 then 0
    else
      var m := |frotas| - 1;
      OndeUltimo(frotas, p);
      ContarSe(frotas[..m], p) + (if p(frotas[m]) then 1 else 0)
  }

  /** The positions of a non-empty list are those of the list without its
      last vehicle, plus the last position when that vehicle satisfies `p`. */
  lemma OndeUltimo(frotas: seq<FrotaPainel>, p: FrotaPainel -> bool)
    requires |frotas| > 0
    ensures var m := |frotas| - 1;
            |Onde(frotas, p)| == |Onde(frotas[..m], p)| + (if p(frotas[m]) then 1 else 0)
  {
    var m := |frotas| - 1;
    var prefixo := Onde(frotas[..m], p);
    assert forall i :: 0 <= i < m ==> frotas[..m][i] == frotas[i];
    if p(frotas[m]) {
      assert Onde(frotas, p) == prefixo + {m};
      assert m !in prefixo;
    } else {
      assert Onde(frotas, p) == prefixo;
    }
  }

  /** The status cards: the number of vehicles with status `s`. */
  function Contar(frotas: seq<FrotaPainel>, s: Status): (n: nat)
    ensures n == |set i | 0 <= i < |frotas| && frotas[i].status == s|
    ensures n <= |frotas|
  {
    assert Onde(frotas, (f: FrotaPainel) => f.status == s) == set i | 0 <= i < |frotas| && frotas[i].status == s;
    ContarSe(frotas, (f: FrotaPainel) => f.status == s)
  }

  /** The "Carregadas" card: vehicles whose loaded flag is truthy, whatever
      their status, dispatched ones included. */
  function ContarCarregadas(frotas: seq<FrotaPainel>): (n: nat)
    ensures n == |set i | 0 <= i < |frotas| && Truthy(frotas[i].carregada)|
    ensures n <= |frotas|
  {
    assert Onde(frotas, (f: FrotaPainel) => Truthy(f.carregada)) == set i | 0 <= i < |frotas| && Truthy(frotas[i].carregada);
    ContarSe(frotas, (f: FrotaPainel) => Truthy(f.carregada))
  }

  /** Yard, ramp and dispatched vehicles together are all the vehicles. */
  lemma {:induction false} ContagensSomam(frotas: seq<FrotaPainel>)
    ensures Contar(frotas, Patio) + Contar(frotas, Rampa) + Contar(frotas, Despachada) == |frotas|
  {
    if |frotas| > 0 {
      ContagensSomam(frotas[..|frotas| - 1]);
    }
  }

  /** The "Rampas Livres" card. */
  function RampasLivres(frotas: seq<FrotaPainel>): int {
    16 - Contar(frotas, Rampa)
  }

  /** The ramp numbers 1..n. */
  function Intervalo(n: nat): (r: set<int>)
    ensures |r| == n
    ensures forall x :: x in r <==> 1 <= x <= n
  {
    if n == 0 then {} else Intervalo(n - 1) + {n}
  }

  /** Vehicles at pairwise distinct ramps drawn from `g` number at most `|g|`. */
  lemma {:induction false} ContarRampaLimitado(frotas: seq<FrotaPainel>, g: set<int>)
    requires forall i :: 0 <= i < |frotas| && frotas[i].status == Rampa ==>
               frotas[i].rampa.Some? && frotas[i].rampa.value in g
    requires forall i, j :: 0 <= i < j < |frotas| && frotas[i].status == Rampa && frotas[j].status == Rampa ==>
               frotas[i].rampa != frotas[j].rampa
    ensures Contar(frotas, Rampa) <= |g|
  {
    if |frotas| > 0 {
      var m := |frotas| - 1;
      var resto := frotas[..m];
      if frotas[m].status == Rampa {
        var p := frotas[m].rampa.value;
        assert forall i :: 0 <= i < |resto| && resto[i].status == Rampa ==>
                 resto[i].rampa.Some? && resto[i].rampa.value in g - {p} by {
          forall i | 0 <= i < |resto| && resto[i].status == Rampa
            ensures resto[i].rampa.Some? && resto[i].rampa.value in g - {p}
          {
            assert resto[i] == frotas[i];
          }
        }
        ContarRampaLimitado(resto, g - {p});
      } else {
        ContarRampaLimitado(resto, g);
      }
    }
  }

  /** In a valid list the "Rampas Livres" card never shows a negative number. */
  lemma RampasLivresNaoNegativas(frotas: seq<FrotaPainel>)
    requires Valido(frotas)
    ensures 0 <= RampasLivres(frotas) <= 16
  {
    ContarRampaLimitado(frotas, Intervalo(16));
  }

  // ---------------------------------------------------------------------------
  // Grid and select numbering

  /** The ramp shown in cell `i` (0..3) of bay `galpao` (1..4). */
  function RampaDaGrade(galpao: int, i: int): int {
    (galpao - 1) * 4 + i + 1
  }

  /** The bay the `<select>` derives for a ramp: `Math.ceil(rampa / 4)`. */
  function GalpaoDaRampa(rampa: int): int {
    FrotasPatio.Teto(rampa, 4)
  }

  /** The grid and the select agree: cell `i` of bay `galpao` shows a ramp
      in 1..16 whose derived bay is `galpao`. */
  lemma GradeConcordaComSelect(galpao: int, i: int)
    requires 1 <= galpao <= 4 && 0 <= i < 4
    ensures 1 <= RampaDaGrade(galpao, i) <= 16
    ensures GalpaoDaRampa(RampaDaGrade(galpao, i)) == galpao
  {
    FrotasPatio.TetoUnico(RampaDaGrade(galpao, i), 4, galpao);
  }

  /** Every ramp 1..16 sits in exactly one cell of the grid. */
  lemma CadaRampaNumaCelula(rampa: int)
    requires 1 <= rampa <= 16
    ensures var g := GalpaoDaRampa(rampa);
            && 1 <= g <= 4 && 0 <= rampa - 1 - (g - 1) * 4 < 4
            && RampaDaGrade(g, rampa - 1 - (g - 1) * 4) == rampa
    ensures forall g, i :: 1 <= g <= 4 && 0 <= i < 4 && RampaDaGrade(g, i) == rampa ==>
              g == GalpaoDaRampa(rampa) && i == rampa - 1 - (g - 1) * 4
  {
    forall g, i | 1 <= g <= 4 && 0 <= i < 4 && RampaDaGrade(g, i) == rampa
      ensures g == GalpaoDaRampa(rampa)
    {
      GradeConcordaComSelect(g, i);
    }
  }

  /** The dashboard's allocation `<select>`: ramps 1..16 with bay
      `Math.ceil(rampa / 4)`, skipping occupied ones (this page does not
      consult blocking). */
  function OpcoesAlocacao(frotas: seq<FrotaPainel>): (r: seq<(int, int)>)
    ensures forall x, g :: (x, g) in r <==> NaGrade(x, g) && RampaOcupada(frotas, x, g).None?
    ensures forall k, l :: 0 <= k < l < |r| ==> r[k].0 < r[l].0
  {
    FrotasPatio.OpcoesLivres(16, 4, (x, g) => RampaOcupada(frotas, x, g).Some?, (x, g) => false)
  }

  // ---------------------------------------------------------------------------
  // The guard layer

  /** The action buttons a cell of the inline grid shows. */
  datatype Botao = AlternarCarregada | Despachar | Remover | Bloquear | Desbloquear

  /** The inline grid: a free cell shows no action; an occupied one the
      loaded checkbox and then dispatch when loaded, remove otherwise. */
  function BotoesGrade(ocupante: Option<FrotaPainel>): (r: set<Botao>)
    ensures ocupante.None? ==> r == {}
    ensures ocupante.Some? ==>
              && AlternarCarregada in r
              && (Despachar in r <==> Truthy(ocupante.value.carregada))
              && (Remover in r <==> !Truthy(ocupante.value.carregada))
              && Bloquear !in r && Desbloquear !in r
  {
    match ocupante
    case None => {}
    case Some(f) => {AlternarCarregada} + (if Truthy(f.carregada) then {Despachar} else {Remover})
  }

  /** A user action on the page. */
  datatype Passo =
    | Alocar(frotaId: string, valor: string)   // the select of a yard row changes to `valor`
    | Clicar(botao: Botao, rampa: int, galpao: int)   // a button of a grid cell
    | Adicionar(texto: string, novoId: string)   // the add button

  /** Whether the page offers the action. */
  predicate Oferecido(frotas: seq<FrotaPainel>, p: Passo) {
    match p
    case Alocar(frotaId, valor) =>
      && (exists i :: 0 <= i < |frotas| && frotas[i].id == frotaId && frotas[i].status == Patio)
      && (exists k :: 0 <= k < |OpcoesAlocacao(frotas)|
            && valor == FrotasPatio.CodificarOpcao(OpcoesAlocacao(frotas)[k].0, OpcoesAlocacao(frotas)[k].1))
    case Clicar(botao, rampa, galpao) =>
      NaGrade(rampa, galpao) && botao in BotoesGrade(RampaOcupada(frotas, rampa, galpao))
    case Adicionar(_, novoId) =>
      forall i :: 0 <= i < |frotas| ==> frotas[i].id != novoId
  }

  /** The handler the action calls. */
  function Aplicar(frotas: seq<FrotaPainel>, p: Passo): seq<FrotaPainel> {
    match p
    case Alocar(frotaId, valor) =>
      (match FrotasPatio.AoSelecionar(valor)
       case Some((rampa, galpao)) => AlocarFrota(frotas, frotaId, rampa, galpao)
       case None => frotas)
    case Clicar(botao, rampa, galpao) =>
      (match RampaOcupada(frotas, rampa, galpao)
       case None => frotas
       case Some(f) =>
         match botao
         case AlternarCarregada => ToggleCarregada(frotas, f.id)
         case Despachar => FinalizarCarregamento(frotas, f.id)
         case Remover => RemoverFrota(frotas, f.id)
         case _ => frotas)
    case Adicionar(texto, novoId) => AdicionarFrota(frotas, texto, novoId)
  }

  /** The status change an offered action may make: none, yard to ramp,
      ramp to yard, ramp to dispatched. */
  predicate TransicaoPermitida(antes: Status, depois: Status) {
    || antes == depois
    || (antes == Patio && depois == Rampa)
    || (antes == Rampa && depois == Patio)
    || (antes == Rampa && depois == Despachada)
  }

  /** Replacing the record at index `a` by one with the same id, coherent,
      and, if at a ramp, at a grid cell nobody else holds, keeps the list valid. */
  lemma TrocarUmPreservaValido(frotas: seq<FrotaPainel>, r: seq<FrotaPainel>, a: int)
    requires Valido(frotas) && 0 <= a < |frotas| && |r| == |frotas|
    requires forall i :: 0 <= i < |frotas| && i != a ==> r[i] == frotas[i]
    requires r[a].id == frotas[a].id && Coerente(r[a])
    requires r[a].status == Rampa ==>
               && NaGrade(r[a].rampa.value, r[a].galpao.value)
               && forall j :: 0 <= j < |frotas| && j != a ==> !Ocupa(frotas[j], r[a].rampa.value, r[a].galpao.value)
    ensures Valido(r)
  {
    forall i, j | 0 <= i < j < |r| && r[i].status == Rampa && r[j].status == Rampa
      ensures r[i].rampa != r[j].rampa || r[i].galpao != r[j].galpao
    {
      if i == a {
        assert !Ocupa(frotas[j], r[a].rampa.value, r[a].galpao.value);
      } else if j == a {
        assert !Ocupa(frotas[i], r[a].rampa.value, r[a].galpao.value);
      }
    }
  }

  /** In a list with unique ids, the record with a given id is the only one
      a rewrite by that id touches. */
  lemma UnicoComId(frotas: seq<FrotaPainel>, a: int)
    requires IdsUnicos(frotas) && 0 <= a < |frotas|
    ensures forall i :: 0 <= i < |frotas| && frotas[i].id == frotas[a].id ==> i == a
  {
  }

  lemma AlocarOferecido(frotas: seq<FrotaPainel>, frotaId: string, valor: string)
    requires Valido(frotas) && Oferecido(frotas, Alocar(frotaId, valor))
    ensures var r := Aplicar(frotas, Alocar(frotaId, valor));
            && Valido(r) && |r| == |frotas|
            && forall i :: 0 <= i < |frotas| ==>
                 TransicaoPermitida(frotas[i].status, r[i].status)
                 && (frotas[i].status == Despachada ==> r[i] == frotas[i])
  {
    var rampa, galpao := OpcaoEscolhida(frotas, frotaId, valor);
    var a :| 0 <= a < |frotas| && frotas[a].id == frotaId && frotas[a].status == Patio;
    AlocarNumaLivre(frotas, a, rampa, galpao);
  }

  /** An offered option value decodes to a free grid cell, and the select
      allocates the vehicle there. */
  lemma OpcaoEscolhida(frotas: seq<FrotaPainel>, frotaId: string, valor: string) returns (rampa: int, galpao: int)
    requires Oferecido(frotas, Alocar(frotaId, valor))
    ensures NaGrade(rampa, galpao) && RampaOcupada(frotas, rampa, galpao).None?
    ensures Aplicar(frotas, Alocar(frotaId, valor)) == AlocarFrota(frotas, frotaId, rampa, galpao)
  {
    var ops := OpcoesAlocacao(frotas);
    var k :| 0 <= k < |ops| && valor == FrotasPatio.CodificarOpcao(ops[k].0, ops[k].1);
    rampa, galpao := ops[k].0, ops[k].1;
    assert (rampa, galpao) in ops;
    FrotasPatio.OpcaoIdaEVolta(rampa, galpao);
  }

  /** Allocating a yard vehicle to a free grid cell keeps the list valid and
      changes only that vehicle, from yard to ramp. */
  lemma AlocarNumaLivre(frotas: seq<FrotaPainel>, a: int, rampa: int, galpao: int)
    requires Valido(frotas) && 0 <= a < |frotas| && frotas[a].status == Patio
    requires NaGrade(rampa, galpao) && RampaOcupada(frotas, rampa, galpao).None?
    ensures var r := AlocarFrota(frotas, frotas[a].id, rampa, galpao);
            && Valido(r) && |r| == |frotas|
            && forall i :: 0 <= i < |frotas| ==>
                 TransicaoPermitida(frotas[i].status, r[i].status)
                 && (frotas[i].status == Despachada ==> r[i] == frotas[i])
  {
    var r := AlocarFrota(frotas, frotas[a].id, rampa, galpao);
    UnicoComId(frotas, a);
    TrocarUmPreservaValido(frotas, r, a);
  }

  /** The statuses before and after differ at most at index `a`, by a
      permitted transition out of `Rampa`. */
  predicate SoMudouNaRampa(frotas: seq<FrotaPainel>, r: seq<FrotaPainel>, a: int)
    requires |r| == |frotas| && 0 <= a < |frotas|
  {
    && frotas[a].status == Rampa
    && TransicaoPermitida(Rampa, r[a].status)
    && forall i :: 0 <= i < |frotas| && i != a ==> r[i] == frotas[i]
  }

  lemma ToggleNaRampa(frotas: seq<FrotaPainel>, a: int)
    requires Valido(frotas) && 0 <= a < |frotas| && frotas[a].status == Rampa
    ensures var r := ToggleCarregada(frotas, frotas[a].id); Valido(r) && SoMudouNaRampa(frotas, r, a)
  {
    UnicoComId(frotas, a);
    TrocarUmPreservaValido(frotas, ToggleCarregada(frotas, frotas[a].id), a);
  }

  lemma RemoverNaRampa(frotas: seq<FrotaPainel>, a: int)
    requires Valido(frotas) && 0 <= a < |frotas| && frotas[a].status == Rampa
    ensures var r := RemoverFrota(frotas, frotas[a].id); Valido(r) && SoMudouNaRampa(frotas, r, a)
  {
    UnicoComId(frotas, a);
    TrocarUmPreservaValido(frotas, RemoverFrota(frotas, frotas[a].id), a);
  }

  lemma FinalizarNaRampa(frotas: seq<FrotaPainel>, a: int)
    requires Valido(frotas) && 0 <= a < |frotas| && frotas[a].status == Rampa
    ensures var r := FinalizarCarregamento(frotas, frotas[a].id); Valido(r) && SoMudouNaRampa(frotas, r, a)
  {
    UnicoComId(frotas, a);
    TrocarUmPreservaValido(frotas, FinalizarCarregamento(frotas, frotas[a].id), a);
  }

  lemma ClicarOferecido(frotas: seq<FrotaPainel>, botao: Botao, rampa: int, galpao: int)
    requires Valido(frotas) && Oferecido(frotas, Clicar(botao, rampa, galpao))
    ensures var r := Aplicar(frotas, Clicar(botao, rampa, galpao));
            && Valido(r) && |r| == |frotas|
            && forall i :: 0 <= i < |frotas| ==>
                 TransicaoPermitida(frotas[i].status, r[i].status)
                 && (frotas[i].status == Despachada ==> r[i] == frotas[i])
  {
    var a := Ocupante(frotas, rampa, galpao);
    var r := Aplicar(frotas, Clicar(botao, rampa, galpao));
    match botao
    case AlternarCarregada =>
      assert r == ToggleCarregada(frotas, frotas[a].id);
      ToggleNaRampa(frotas, a);
    case Despachar =>
      assert r == FinalizarCarregamento(frotas, frotas[a].id);
      FinalizarNaRampa(frotas, a);
    case Remover =>
      assert r == RemoverFrota(frotas, frotas[a].id);
      RemoverNaRampa(frotas, a);
    MudancaNaRampaPermitida(frotas, r, a);
  }

  /** The index of the vehicle a grid cell shows, which is at a ramp. */
  lemma Ocupante(frotas: seq<FrotaPainel>, rampa: int, galpao: int) returns (a: int)
    requires Valido(frotas) && RampaOcupada(frotas, rampa, galpao).Some?
    ensures 0 <= a < |frotas| && frotas[a].status == Rampa
    ensures RampaOcupada(frotas, rampa, galpao) == Some(frotas[a])
  {
    var f := RampaOcupada(frotas, rampa, galpao).value;
    a :| 0 <= a < |frotas| && frotas[a] == f && Ocupa(frotas[a], rampa, galpao);
  }

  /** A change confined to one vehicle at a ramp moves every status along a
      permitted transition and leaves dispatched vehicles alone. */
  lemma MudancaNaRampaPermitida(frotas: seq<FrotaPainel>, r: seq<FrotaPainel>, a: int)
    requires |r| == |frotas| && 0 <= a < |frotas| && SoMudouNaRampa(frotas, r, a)
    ensures forall i :: 0 <= i < |frotas| ==>
              TransicaoPermitida(frotas[i].status, r[i].status)
              && (frotas[i].status == Despachada ==> r[i] == frotas[i])
  {
  }

  lemma AdicionarOferecido(frotas: seq<FrotaPainel>, texto: string, novoId: string)
    requires Valido(frotas) && Oferecido(frotas, Adicionar(texto, novoId))
    ensures var r := Aplicar(frotas, Adicionar(texto, novoId));
            && Valido(r) && |r| >= |frotas|
            && forall i :: 0 <= i < |frotas| ==> r[i] == frotas[i]
  {
  }

  /** Every action the page offers keeps the list valid, changes statuses
      only along the permitted transitions, and never touches a dispatched
      vehicle. */
  lemma PassoOferecidoPreservaValido(frotas: seq<FrotaPainel>, p: Passo)
    requires Valido(frotas) && Oferecido(frotas, p)
    ensures var r := Aplicar(frotas, p);
            && Valido(r) && |r| >= |frotas|
            && forall i :: 0 <= i < |frotas| ==>
                 TransicaoPermitida(frotas[i].status, r[i].status)
                 && (frotas[i].status == Despachada ==> r[i] == frotas[i])
  {
    match p
    case Alocar(frotaId, valor) => AlocarOferecido(frotas, frotaId, valor);
    case Clicar(botao, rampa, galpao) => ClicarOferecido(frotas, botao, rampa, galpao);
    case Adicionar(texto, novoId) => AdicionarOferecido(frotas, texto, novoId);
  }

  /** A session: each action runs only if the page offers it at that moment. */
  function Executar(frotas: seq<FrotaPainel>, passos: seq<Passo>): seq<FrotaPainel>
    decreases |passos|
  {
    if |passos| == 0 then frotas
    else
      var proximo := if Oferecido(frotas, passos[0]) then Aplicar(frotas, passos[0]) else frotas;
      Executar(proximo, passos[1..])
  }

  /** Every list a session reaches from the initial one is valid, so no two
      vehicles ever share a ramp and "Rampas Livres" stays within 0..16. */
  lemma {:induction false} SessaoPreservaValido(frotas: seq<FrotaPainel>, passos: seq<Passo>)
    requires Valido(frotas)
    ensures Valido(Executar(frotas, passos))
    ensures 0 <= RampasLivres(Executar(frotas, passos)) <= 16
    decreases |passos|
  {
    if |passos| == 0 {
      RampasLivresNaoNegativas(frotas);
    } else {
      if Oferecido(frotas, passos[0]) {
        PassoOferecidoPreservaValido(frotas, passos[0]);
      }
      var proximo := if Oferecido(frotas, passos[0]) then Aplicar(frotas, passos[0]) else frotas;
      SessaoPreservaValido(proximo, passos[1..]);
    }
  }

  lemma SessaoDesdeOInicio(passos: seq<Passo>)
    ensures Valido(Executar(FrotasIniciais, passos))
    ensures 0 <= RampasLivres(Executar(FrotasIniciais, passos)) <= 16
  {
    IniciaisValidas();
    SessaoPreservaValido(FrotasIniciais, passos);
  }
}
