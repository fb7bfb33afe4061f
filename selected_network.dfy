/** The `selectedNetwork` reducer of reducers/config/networks/selectedNetwork.ts: the id of
    the network in use. */
module SelectedNetworkReducer {
  import opened ActionTypes

  type State = string

  function InitialState(): (r: State)
    ensures r == "ETH"
  {
    "ETH"
  }

  function SelectedNetwork(state: State, a: Action): State {
    match a
    case ConfigNetworkChange(networkId) => networkId
    case _ => state
  }

  /** A change selects the requested network, whatever was selected before. */
  lemma NetworkChangeIgnoresState(s1: State, s2: State, networkId: string)
    ensures SelectedNetwork(s1, ConfigNetworkChange(networkId)) == networkId
    ensures SelectedNetwork(s1, ConfigNetworkChange(networkId)) == SelectedNetwork(s2, ConfigNetworkChange(networkId))
  {
  }

  lemma UnhandledIsIdentity(state: State, a: Action)
    requires !a.ConfigNetworkChange?
    ensures SelectedNetwork(state, a) == state
  {
  }
}
