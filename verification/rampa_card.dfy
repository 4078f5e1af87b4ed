/** One ramp cell with blocking (src/components/RampaCard.tsx): which of four
    display states it is in and which action buttons it offers. The card
    declares the same six-field vehicle record as the dashboard. */
module RampaCard {
  import opened Types
  import opened Dashboard

  datatype EstadoCartao = Bloqueada | OcupadaCarregada | OcupadaVazia | Livre

  /** The display state: blocking wins over occupancy; an occupied ramp is
      loaded when its vehicle's flag is truthy. */
  function Estado(isBloqueada: bool, frotaOcupando: Option<FrotaPainel>): (e: EstadoCartao)
    ensures e == Bloqueada <==> isBloqueada
    ensures e == Livre <==> !isBloqueada && frotaOcupando.None?
    ensures e == OcupadaCarregada <==> !isBloqueada && frotaOcupando.Some? && Truthy(frotaOcupando.value.carregada)
    ensures e == OcupadaVazia <==> !isBloqueada && frotaOcupando.Some? && !Truthy(frotaOcupando.value.carregada)
  {
    if isBloqueada then Bloqueada
    else if frotaOcupando.Some? then
      (if Truthy(frotaOcupando.value.carregada) then OcupadaCarregada else OcupadaVazia)
    else Livre
  }

  /** The buttons of each state. */
  function Botoes(isBloqueada: bool, frotaOcupando: Option<FrotaPainel>): (r: set<Botao>)
    ensures isBloqueada ==> r == {Desbloquear}
    ensures !isBloqueada && frotaOcupando.Some? ==>
              && AlternarCarregada in r && Bloquear in r && Desbloquear !in r
              && (Despachar in r <==> Truthy(frotaOcupando.value.carregada))
              && (Remover in r <==> !Truthy(frotaOcupando.value.carregada))
    ensures !isBloqueada && frotaOcupando.None? ==> r == {Bloquear}
  {
    match Estado(isBloqueada, frotaOcupando)
    case Bloqueada => {Desbloquear}
    case OcupadaCarregada => {AlternarCarregada, Despachar, Bloquear}
    case OcupadaVazia => {AlternarCarregada, Remover, Bloquear}
    case Livre => {Bloquear}
  }

  /** An unblocked card offers what the dashboard's inline cell offers, plus
      the block button. */
  lemma CartaoEstendeGrade(frotaOcupando: Option<FrotaPainel>)
    ensures Botoes(false, frotaOcupando) == BotoesGrade(frotaOcupando) + {Bloquear}
  {
  }

  /** Dispatch and remove are never offered together, and an unblocked
      occupied card always offers exactly one of them. */
  lemma DespacharOuRemover(isBloqueada: bool, frotaOcupando: Option<FrotaPainel>)
    ensures !(Despachar in Botoes(isBloqueada, frotaOcupando) && Remover in Botoes(isBloqueada, frotaOcupando))
    ensures !isBloqueada && frotaOcupando.Some? ==>
              (Despachar in Botoes(isBloqueada, frotaOcupando) || Remover in Botoes(isBloqueada, frotaOcupando))
  {
  }
}
