/** The `meta` reducer of reducers/config/meta/meta.ts: language, offline flag, automatic
    gas limit estimation and the latest block. */
module MetaReducer {
  import opened ActionTypes

  datatype State = State(languageSelection: string, offline: bool, autoGasLimit: bool, latestBlock: string)

  /** `INITIAL_STATE` */
  function InitialState(): (r: State)
    ensures r.languageSelection == "en" && !r.offline && r.autoGasLimit && r.latestBlock == "???"
  {
    State("en", false, true, "???")
  }

  function HandleNetworkSwitchRequested(state: State): State {
    state.(offline := true)
  }

  function ChangeLanguage(state: State, language: string): State {
    state.(languageSelection := language)
  }

  function ToggleOffline(state: State): State {
    state.(offline := !state.offline)
  }

  function ToggleAutoGasLimitEstimation(state: State): State {
    state.(autoGasLimit := !state.autoGasLimit)
  }

  function SetLatestBlock(state: State, block: string): State {
    state.(latestBlock := block)
  }

  function Meta(state: State, a: Action): State {
    match a
    case ConfigLanguageChange(language) => ChangeLanguage(state, language)
    case ConfigToggleOffline => ToggleOffline(state)
    case ConfigToggleAutoGasLimit => ToggleAutoGasLimitEstimation(state)
    case ConfigSetLatestBlock(block) => SetLatestBlock(state, block)
    case BalancerNetworkSwitchRequested => HandleNetworkSwitchRequested(state)
    case _ => state
  }

  predicate Handles(a: Action) {
    a.ConfigLanguageChange? || a.ConfigToggleOffline? || a.ConfigToggleAutoGasLimit?
    || a.ConfigSetLatestBlock? || a.BalancerNetworkSwitchRequested?
  }

  /** Toggling offline flips that flag only, and toggling twice restores the state. */
  lemma ToggleOfflineInvolution(state: State)
    ensures Meta(state, ConfigToggleOffline) == State(state.languageSelection, !state.offline, state.autoGasLimit, state.latestBlock)
    ensures Meta(Meta(state, ConfigToggleOffline), ConfigToggleOffline) == state
  {
  }

  /** Toggling automatic gas limit estimation flips that flag only, twice is the identity. */
  lemma ToggleAutoGasLimitInvolution(state: State)
    ensures Meta(state, ConfigToggleAutoGasLimit) == State(state.languageSelection, state.offline, !state.autoGasLimit, state.latestBlock)
    ensures Meta(Meta(state, ConfigToggleAutoGasLimit), ConfigToggleAutoGasLimit) == state
  {
  }

  /** Each setter changes its own field to the payload and nothing else. */
  lemma SettersChangeOneField(state: State, language: string, block: string)
    ensures Meta(state, ConfigLanguageChange(language)) == State(language, state.offline, state.autoGasLimit, state.latestBlock)
    ensures Meta(state, ConfigSetLatestBlock(block)) == State(state.languageSelection, state.offline, state.autoGasLimit, block)
  {
  }

  /** A network switch request always leaves the client offline, whatever it was. */
  lemma NetworkSwitchForcesOffline(state: State)
    ensures Meta(state, BalancerNetworkSwitchRequested) == State(state.languageSelection, true, state.autoGasLimit, state.latestBlock)
  {
  }

  lemma UnhandledIsIdentity(state: State, a: Action)
    requires !Handles(a)
    ensures Meta(state, a) == state
  {
  }
}
