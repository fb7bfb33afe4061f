/** The actions the reducers receive. Redux hands every action to every reducer,
    so there is one closed type; `Unrelated` stands for the actions of the other
    slices of the store. The plain action creators of actions/nodeBalancer are these
    constructors: each carries its payload unchanged, and BALANCER_FLUSH has none. */
module ActionTypes {
  import opened StateTypes

  datatype Action =
    // node balancer
    | BalancerFlush
    | BalancerAuto
    | BalancerManual
    | BalancerNetworkSwitchRequested
    | NodeOnline(nodeName: string)
    | NodeOffline(nodeName: string)
    | NodeAdded(nodeName: string, stats: NodeStats)
    | NodeRemoved(nodeName: string)
    | WorkerSpawned(nodeName: string, workerId: string, task: Task)
    | WorkerProcessing(workerId: string, currentPayload: NodeCall)
    | WorkerKilled(nodeName: string, workerId: string)
    | NodeCallRequested(call: NodeCall)
    | NodeCallTimeout(call: NodeCall, nodeName: string)
    | NodeCallFailed(call: NodeCall)
    | NodeCallSucceeded(call: NodeCall)
    // configuration
    | ConfigLanguageChange(language: string)
    | ConfigToggleOffline
    | ConfigToggleAutoGasLimit
    | ConfigSetLatestBlock(block: string)
    | ConfigNetworkChange(networkId: string)
    | ConfigNodeWeb3Set(id: string, config: NodeConfig)
    | ConfigNodeWeb3Unset
    // any other slice's action
    | Unrelated(actionType: string)
}
