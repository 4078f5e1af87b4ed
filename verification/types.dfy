/** The shared records of the fleet dashboard (src/types/index.ts).
    JavaScript dates become integers (milliseconds since the epoch) and
    optional fields (`x?: T`) become `Option<T>`. */
module Types {

  /** An optional field: `None` is `undefined`. */
  datatype Option<+T> = None | Some(value: T)

  /** Where a vehicle is: in the yard, at a loading ramp, or gone. */
  datatype Status = Patio | Rampa | Despachada

  datatype Prioridade = Alta | Normal | Baixa

  /** The kinds of entry in the movement log. */
  datatype Acao =
    | Criada | Alocada | Removida | Carregada | Despachou | Bloqueio | Desbloqueio

  /** A vehicle ("frota"). */
  datatype Frota = Frota(
    id: string,
    numero: string,
    status: Status,
    rampa: Option<int>,
    galpao: Option<int>,
    carregada: Option<bool>,
    rampaDespacho: Option<int>,
    galpaoDespacho: Option<int>,
    prioridade: Prioridade,
    criadoEm: int,
    ultimaMovimentacao: int,
    tempoCarregamento: Option<int>)

  /** A ramp that has been blocked, identified by ramp and bay number. */
  datatype RampaBloqueada = RampaBloqueada(rampa: int, galpao: int, bloqueada: bool)

  /** One entry of the movement log. */
  datatype Movimentacao = Movimentacao(
    id: string,
    frotaId: string,
    frotaNumero: string,
    acao: Acao,
    detalhes: string,
    timestamp: int,
    rampa: Option<int>,
    galpao: Option<int>)

  datatype Configuracao = Configuracao(
    totalVaos: int,
    rampasPorVao: int,
    tempoAlertaMinutos: int,
    modoEscuro: bool)

  /** JavaScript truthiness of an optional boolean: only `true` is truthy. */
  predicate Truthy(b: Option<bool>) { b == Some(true) }

  // ---------------------------------------------------------------------------
  // The string literals the source uses for each enumeration.

  function StatusNome(s: Status): string {
    match s
    case Patio => "patio"
    case Rampa => "rampa"
    case Despachada => "despachada"
  }

  function PrioridadeNome(p: Prioridade): string {
    match p
    case Alta => "alta"
    case Normal => "normal"
    case Baixa => "baixa"
  }

  function AcaoNome(a: Acao): string {
    match a
    case Criada => "criada"
    case Alocada => "alocada"
    case Removida => "removida"
    case Carregada => "carregada"
    case Despachou => "despachada"
    case Bloqueio => "bloqueio"
    case Desbloqueio => "desbloqueio"
  }

  /** Reading a status literal back: exactly the three literals are statuses. */
  function StatusDe(t: string): (r: Option<Status>)
    ensures r.Some? ==> StatusNome(r.value) == t
    ensures forall s :: StatusNome(s) == t ==> r == Some(s)
  {
    if t == "patio" then Some(Patio)
    else if t == "rampa" then Some(Rampa)
    else if t == "despachada" then Some(Despachada)
    else None
  }

  function PrioridadeDe(t: string): (r: Option<Prioridade>)
    ensures r.Some? ==> PrioridadeNome(r.value) == t
    ensures forall p :: PrioridadeNome(p) == t ==> r == Some(p)
  {
    if t == "alta" then Some(Alta)
    else if t == "normal" then Some(Normal)
    else if t == "baixa" then Some(Baixa)
    else None
  }

  function AcaoDe(t: string): (r: Option<Acao>)
    ensures r.Some? ==> AcaoNome(r.value) == t
    ensures forall a :: AcaoNome(a) == t ==> r == Some(a)
  {
    if t == "criada" then Some(Criada)
    else if t == "alocada" then Some(Alocada)
    else if t == "removida" then Some(Removida)
    else if t == "carregada" then Some(Carregada)
    else if t == "despachada" then Some(Despachou)
    else if t == "bloqueio" then Some(Bloqueio)
    else if t == "desbloqueio" then Some(Desbloqueio)
    else None
  }

  /** Each enumeration literal names one value, so the literals are pairwise distinct. */
  lemma NomesInjetivos()
    ensures forall s, t :: StatusNome(s) == StatusNome(t) ==> s == t
    ensures forall p, q :: PrioridadeNome(p) == PrioridadeNome(q) ==> p == q
    ensures forall a, b :: AcaoNome(a) == AcaoNome(b) ==> a == b
  {
    forall s, t | StatusNome(s) == StatusNome(t) ensures s == t {
      assert StatusDe(StatusNome(s)) == Some(s);
    }
    forall p, q | PrioridadeNome(p) == PrioridadeNome(q) ensures p == q {
      assert PrioridadeDe(PrioridadeNome(p)) == Some(p);
    }
    forall a, b | AcaoNome(a) == AcaoNome(b) ensures a == b {
      assert AcaoDe(AcaoNome(a)) == Some(a);
    }
  }
}
