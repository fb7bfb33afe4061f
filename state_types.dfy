/** The records the node balancer and the node configuration keep. */
module StateTypes {
  import opened Wrappers

  /** `INodeStats` of reducers/nodeBalancer/nodes.ts. `supportedMethods` is declared as an
      array of method names but the selectors index it by method name, so it is modelled
      as the object they read: method name to "is supported". Numbers are integers. */
  datatype NodeStats = NodeStats(
    maxWorkers: int,
    currWorkersById: seq<string>,
    timeoutThreshold: int,
    isOffline: bool,
    requestFailures: int,
    requestFailureThreshold: int,
    avgResponseTime: int,
    supportedMethods: map<string, bool>)

  /** A redux-saga `Task`: an opaque handle. */
  datatype Task = Task(id: nat)

  /** `NodeCall` of actions/nodeBalancer/actionTypes.ts. `nodeWhiteList` is declared as a
      single name but used as a list (`includes`), and `minPriorityNodeList`, read by the
      router, is missing from the declaration; both are modelled as lists of node names.
      `None` is an absent white list. */
  datatype NodeCall = NodeCall(
    callId: nat,
    rpcMethod: string,
    rpcArgs: seq<string>,
    numOfTimeouts: int,
    nodeWhiteList: Option<seq<string>>,
    minPriorityNodeList: seq<string>)

  /** `IWorker` of reducers/nodeBalancer/workers.ts. `task` and `assignedNode` are `None`
      only in the record that WORKER_PROCESSING creates for an unknown worker id. */
  datatype Worker = Worker(task: Option<Task>, assignedNode: Option<string>, currentPayload: Option<NodeCall>)

  /** Which node library a static node uses, and its endpoint. */
  datatype LibKind = RpcNode | EtherscanNode | InfuraNode | OtherLib(name: string)
  datatype NodeLib = NodeLib(kind: LibKind, endpoint: string)

  /** A node configuration of reducers/config/nodes/staticNodes.ts (`lib` and `pLib` are
      the two client objects built for the endpoint). */
  datatype NodeConfig = NodeConfig(
    network: string,
    isCustom: bool,
    service: string,
    lib: NodeLib,
    pLib: NodeLib,
    estimateGas: bool)

  /** What a reducer throws. */
  datatype Fault =
    | UndefinedNode(nodeName: string)   // a TypeError: a field of `state[nodeName]` read while it is undefined
    | WorkerNotFound(callId: nat)       // "Worker not found for a successful request"
}
