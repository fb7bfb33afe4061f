/** The `balancerConfig` reducer of reducers/nodeBalancer/balancerConfig.ts: whether the
    user pinned a node (manual mode) and whether the balancer is offline. */
module BalancerConfigReducer {
  import opened ActionTypes

  datatype State = State(manual: bool, offline: bool)

  /** `INITIAL_STATE` */
  function InitialState(): (r: State)
    ensures !r.manual && !r.offline
  {
    State(false, false)
  }

  function HandleBalancerAuto(state: State): State {
    state.(manual := false)
  }

  function HandleBalancerManual(state: State): State {
    state.(manual := true)
  }

  function BalancerConfig(state: State, a: Action): State {
    match a
    case BalancerAuto => HandleBalancerAuto(state)
    case BalancerManual => HandleBalancerManual(state)
    case _ => state
  }

  /** Each mode switch sets `manual` and leaves `offline` alone. */
  lemma ModeSwitchSetsManualOnly(state: State)
    ensures BalancerConfig(state, BalancerAuto) == State(false, state.offline)
    ensures BalancerConfig(state, BalancerManual) == State(true, state.offline)
  {
  }

  /** Applying a mode switch twice equals applying it once. */
  lemma ModeSwitchIdempotent(state: State, a: Action)
    requires a.BalancerAuto? || a.BalancerManual?
    ensures BalancerConfig(BalancerConfig(state, a), a) == BalancerConfig(state, a)
  {
  }

  lemma UnhandledIsIdentity(state: State, a: Action)
    requires !a.BalancerAuto? && !a.BalancerManual?
    ensures BalancerConfig(state, a) == state
  {
  }
}
