/** The `nodeBalancer` slice of reducers/nodeBalancer/index.ts: the nodes, workers and
    balancer-config slices side by side, each updated by its own reducer. Across the
    slices the model keeps one invariant: every worker a node lists exists and is
    assigned to that node, so the busy counts the router takes are always defined. */
module NodeBalancer {
  import opened Wrappers
  import opened Seqs
  import opened JsObject
  import opened StateTypes
  import opened ActionTypes
  import NodesReducer
  import WorkersReducer
  import BalancerConfigReducer
  import NodeSelectors

  datatype State = State(
    nodes: NodesReducer.State,
    workers: WorkersReducer.State,
    balancerConfig: BalancerConfigReducer.State)

  ghost predicate WellFormed(s: State) {
    Valid(s.nodes) && Valid(s.workers)
  }

  function InitialState(): (r: State)
    ensures WellFormed(r)
  {
    State(NodesReducer.InitialState(), WorkersReducer.InitialState(), BalancerConfigReducer.InitialState())
  }

  /** `combineReducers({ nodes, workers, balancerConfig })`: every slice's reducer sees the
      action, in that order, and a throw in one of them is a throw of the whole. */
  function NodeBalancerReducer(s: State, a: Action): (r: Result<State, Fault>)
    requires WellFormed(s)
    ensures r.Ok? ==> WellFormed(r.value)
  {
    NodesReducer.NodesValid(s.nodes, a);
    WorkersReducer.WorkersValid(s.workers, a);
    match NodesReducer.Nodes(s.nodes, a)
    case Err(e) => Err(e)
    case Ok(nodes) =>
      match WorkersReducer.Workers(s.workers, a)
      case Err(e) => Err(e)
      case Ok(workers) => Ok(State(nodes, workers, BalancerConfigReducer.BalancerConfig(s.balancerConfig, a)))
  }

  /** Every id in a node's `currWorkersById` is a worker assigned to that node. */
  ghost predicate WorkersAccounted(nodes: NodesReducer.State, workers: WorkersReducer.State) {
    forall n, id :: n in nodes.vals && id in nodes.vals[n].currWorkersById ==>
      id in workers.vals && workers.vals[id].assignedNode == Some(n)
  }

  /** What the spawning and killing sagas guarantee about the actions they dispatch: a
      spawned worker has a fresh id, a killed worker is killed on its own node, and an
      added node lists only workers assigned to it. */
  ghost predicate Sensible(s: State, a: Action) {
    match a
    case WorkerSpawned(n, id, _) => id !in s.workers.vals
    case WorkerKilled(n, id) => id in s.workers.vals ==> s.workers.vals[id].assignedNode == Some(n)
    case NodeAdded(n, stats) =>
      forall id :: id in stats.currWorkersById ==> id in s.workers.vals && s.workers.vals[id].assignedNode == Some(n)
    case _ => true
  }

  /** The worker lists of the nodes and the assigned nodes of the workers stay as they were. */
  ghost predicate SameAssignment(s: State, r: State) {
    && r.nodes.vals.Keys == s.nodes.vals.Keys
    && (forall n :: n in s.nodes.vals ==> r.nodes.vals[n].currWorkersById == s.nodes.vals[n].currWorkersById)
    && (forall id :: id in s.workers.vals ==> id in r.workers.vals && r.workers.vals[id].assignedNode == s.workers.vals[id].assignedNode)
  }

  lemma SameAssignmentKeepsAccounted(s: State, r: State)
    requires WorkersAccounted(s.nodes, s.workers) && SameAssignment(s, r)
    ensures WorkersAccounted(r.nodes, r.workers)
  {
    forall n, id | n in r.nodes.vals && id in r.nodes.vals[n].currWorkersById
      ensures id in r.workers.vals && r.workers.vals[id].assignedNode == Some(n)
    {
      assert id in s.nodes.vals[n].currWorkersById;
    }
  }

  /** Appending a fresh worker to one node's list and registering it on that node keeps
      the invariant. */
  lemma SpawnedTablesAccounted(nodes: NodesReducer.State, nodes': NodesReducer.State, workers: WorkersReducer.State,
                               workers': WorkersReducer.State, n: string, id: string, w: Worker)
    requires WorkersAccounted(nodes, workers) && id !in workers.vals && w.assignedNode == Some(n)
    requires NodesReducer.OnlyNodeChanged(nodes, nodes', n) && n in nodes.vals
    requires nodes'.vals[n].currWorkersById == nodes.vals[n].currWorkersById + [id]
    requires workers'.vals == workers.vals[id := w]
    ensures WorkersAccounted(nodes', workers')
  {
    forall m, id' | m in nodes'.vals && id' in nodes'.vals[m].currWorkersById
      ensures id' in workers'.vals && workers'.vals[id'].assignedNode == Some(m)
    {
      if m != n || id' != id {
        assert id' in nodes.vals[m].currWorkersById;
      }
    }
  }

  lemma {:induction false} SpawnKeepsAccounted(s: State, n: string, id: string, task: Task)
    requires WellFormed(s) && WorkersAccounted(s.nodes, s.workers) && id !in s.workers.vals
    requires NodeBalancerReducer(s, WorkerSpawned(n, id, task)).Ok?
    ensures var r := NodeBalancerReducer(s, WorkerSpawned(n, id, task)).value;
      WorkersAccounted(r.nodes, r.workers)
  {
    assert n in s.nodes.vals;
    NodesReducer.WorkerSpawnedAppends(s.nodes, n, id, task);
    WorkersReducer.WorkerSpawnedRegisters(s.workers, n, id, task);
    var nodes := NodesReducer.Nodes(s.nodes, WorkerSpawned(n, id, task)).value;
    var workers := WorkersReducer.Workers(s.workers, WorkerSpawned(n, id, task)).value;
    SpawnedTablesAccounted(s.nodes, nodes, s.workers, workers, n, id, Worker(Some(task), Some(n), None));
  }

  /** Removing a worker from the table and from the list of its own node keeps the
      invariant. */
  lemma KilledTablesAccounted(nodes: NodesReducer.State, nodes': NodesReducer.State, workers: WorkersReducer.State,
                              workers': WorkersReducer.State, n: string, id: string)
    requires WorkersAccounted(nodes, workers)
    requires id in workers.vals ==> workers.vals[id].assignedNode == Some(n)
    requires NodesReducer.OnlyNodeChanged(nodes, nodes', n) && n in nodes.vals
    requires forall w :: w in nodes'.vals[n].currWorkersById <==> w in nodes.vals[n].currWorkersById && w != id
    requires workers'.vals.Keys == workers.vals.Keys - {id}
    requires forall k :: k in workers'.vals ==> workers'.vals[k] == workers.vals[k]
    ensures WorkersAccounted(nodes', workers')
  {
    forall m, id' | m in nodes'.vals && id' in nodes'.vals[m].currWorkersById
      ensures id' in workers'.vals && workers'.vals[id'].assignedNode == Some(m)
    {
      assert id' in nodes.vals[m].currWorkersById;
      assert id' != id;
    }
  }

  lemma {:induction false} KillKeepsAccounted(s: State, n: string, id: string)
    requires WellFormed(s) && WorkersAccounted(s.nodes, s.workers)
    requires id in s.workers.vals ==> s.workers.vals[id].assignedNode == Some(n)
    requires NodeBalancerReducer(s, WorkerKilled(n, id)).Ok?
    ensures var r := NodeBalancerReducer(s, WorkerKilled(n, id)).value;
      WorkersAccounted(r.nodes, r.workers)
  {
    assert n in s.nodes.vals;
    NodesReducer.WorkerKilledRemovesAll(s.nodes, n, id);
    WorkersReducer.WorkerKilledDeletes(s.workers, n, id);
    var nodes := NodesReducer.Nodes(s.nodes, WorkerKilled(n, id)).value;
    var workers := WorkersReducer.Workers(s.workers, WorkerKilled(n, id)).value;
    KilledTablesAccounted(s.nodes, nodes, s.workers, workers, n, id);
  }

  lemma {:induction false} NodeAddedKeepsAccounted(s: State, n: string, stats: NodeStats)
    requires WellFormed(s) && WorkersAccounted(s.nodes, s.workers) && Sensible(s, NodeAdded(n, stats))
    ensures var r := NodeBalancerReducer(s, NodeAdded(n, stats));
      r.Ok? && WorkersAccounted(r.value.nodes, r.value.workers)
  {
    NodesReducer.NodeAddedStores(s.nodes, n, stats);
  }

  lemma {:induction false} ProcessingKeepsAccounted(s: State, id: string, call: NodeCall)
    requires WellFormed(s) && WorkersAccounted(s.nodes, s.workers)
    ensures var r := NodeBalancerReducer(s, WorkerProcessing(id, call));
      r.Ok? && WorkersAccounted(r.value.nodes, r.value.workers)
  {
    NodesReducer.UnhandledIsIdentity(s.nodes, WorkerProcessing(id, call));
    WorkersReducer.WorkerProcessingSetsPayload(s.workers, id, call);
    var workers := WorkersReducer.Workers(s.workers, WorkerProcessing(id, call)).value;
    SameWorkersKeepAccounted(s.nodes, s.workers, workers);
  }

  /** Workers that keep their assigned nodes keep the invariant. */
  lemma SameWorkersKeepAccounted(nodes: NodesReducer.State, workers: WorkersReducer.State, workers': WorkersReducer.State)
    requires WorkersAccounted(nodes, workers)
    requires forall id :: id in workers.vals ==>
      id in workers'.vals && workers'.vals[id].assignedNode == workers.vals[id].assignedNode
    ensures WorkersAccounted(nodes, workers')
  {
  }

  lemma {:induction false} CallSucceededKeepsAccounted(s: State, call: NodeCall)
    requires WellFormed(s) && WorkersAccounted(s.nodes, s.workers)
    requires NodeBalancerReducer(s, NodeCallSucceeded(call)).Ok?
    ensures var r := NodeBalancerReducer(s, NodeCallSucceeded(call)).value;
      WorkersAccounted(r.nodes, r.workers)
  {
    WorkersReducer.CallFinishedKeepsAssignment(s.workers, NodeCallSucceeded(call));
    NodesReducer.UnhandledIsIdentity(s.nodes, NodeCallSucceeded(call));
    SameWorkersKeepAccounted(s.nodes, s.workers, WorkersReducer.Workers(s.workers, NodeCallSucceeded(call)).value);
  }

  lemma {:induction false} CallTimeoutKeepsAccounted(s: State, call: NodeCall, n: string)
    requires WellFormed(s) && WorkersAccounted(s.nodes, s.workers)
    requires NodeBalancerReducer(s, NodeCallTimeout(call, n)).Ok?
    ensures var r := NodeBalancerReducer(s, NodeCallTimeout(call, n)).value;
      WorkersAccounted(r.nodes, r.workers)
  {
    var a := NodeCallTimeout(call, n);
    assert n in s.nodes.vals;
    WorkersReducer.CallFinishedKeepsAssignment(s.workers, a);
    var workers := WorkersReducer.Workers(s.workers, a).value;
    SameWorkersKeepAccounted(s.nodes, s.workers, workers);
    NodesReducer.NodeCallTimeoutCountsFailure(s.nodes, call, n);
    SameListsKeepAccounted(s.nodes, NodesReducer.Nodes(s.nodes, a).value, workers);
  }

  /** Nodes that keep their worker lists keep the invariant. */
  lemma SameListsKeepAccounted(nodes: NodesReducer.State, nodes': NodesReducer.State, workers: WorkersReducer.State)
    requires WorkersAccounted(nodes, workers)
    requires nodes'.vals.Keys == nodes.vals.Keys
    requires forall n :: n in nodes.vals ==> nodes'.vals[n].currWorkersById == nodes.vals[n].currWorkersById
    ensures WorkersAccounted(nodes', workers)
  {
    forall n, id | n in nodes'.vals && id in nodes'.vals[n].currWorkersById
      ensures id in workers.vals && workers.vals[id].assignedNode == Some(n)
    {
      assert id in nodes.vals[n].currWorkersById;
    }
  }

  lemma {:induction false} NodeStatusKeepsAccounted(s: State, a: Action)
    requires WellFormed(s) && WorkersAccounted(s.nodes, s.workers)
    requires a.NodeOnline? || a.NodeOffline? || a.BalancerFlush?
    requires NodeBalancerReducer(s, a).Ok?
    ensures var r := NodeBalancerReducer(s, a).value;
      WorkersAccounted(r.nodes, r.workers)
  {
    var r := NodeBalancerReducer(s, a).value;
    match a
    case NodeOnline(n) => NodesReducer.NodeOnlineKeepsFailures(s.nodes, n);
    case NodeOffline(n) => NodesReducer.NodeOfflineResetsFailures(s.nodes, n);
    case BalancerFlush => NodesReducer.BalancerFlushResetsAll(s.nodes);
    SameAssignmentKeepsAccounted(s, r);
  }

  /** Dropping nodes keeps the invariant for the nodes that remain. */
  lemma FewerNodesKeepAccounted(nodes: NodesReducer.State, fewer: NodesReducer.State, workers: WorkersReducer.State)
    requires WorkersAccounted(nodes, workers)
    requires forall m :: m in fewer.vals ==> m in nodes.vals && fewer.vals[m] == nodes.vals[m]
    ensures WorkersAccounted(fewer, workers)
  {
    forall m, id | m in fewer.vals && id in fewer.vals[m].currWorkersById
      ensures id in workers.vals && workers.vals[id].assignedNode == Some(m)
    {
      assert id in nodes.vals[m].currWorkersById;
    }
  }

  lemma {:induction false} NodeRemovedKeepsAccounted(s: State, n: string)
    requires WellFormed(s) && WorkersAccounted(s.nodes, s.workers)
    ensures var r := NodeBalancerReducer(s, NodeRemoved(n));
      r.Ok? && WorkersAccounted(r.value.nodes, r.value.workers)
  {
    NodesReducer.NodeRemovedDeletes(s.nodes, n);
    WorkersReducer.UnhandledIsIdentity(s.workers, NodeRemoved(n));
    var nodes := NodesReducer.Nodes(s.nodes, NodeRemoved(n)).value;
    FewerNodesKeepAccounted(s.nodes, nodes, s.workers);
  }

  /** The invariant holds initially and every successful step of sensible actions keeps it. */
  lemma {:induction false} NodeBalancerKeepsAccounted(s: State, a: Action)
    requires WellFormed(s) && WorkersAccounted(s.nodes, s.workers) && Sensible(s, a)
    ensures WorkersAccounted(InitialState().nodes, InitialState().workers)
    ensures var r := NodeBalancerReducer(s, a);
      r.Ok? ==> WorkersAccounted(r.value.nodes, r.value.workers)
  {
    if NodeBalancerReducer(s, a).Ok? {
      match a
      case WorkerSpawned(n, id, task) => SpawnKeepsAccounted(s, n, id, task);
      case WorkerKilled(n, id) => KillKeepsAccounted(s, n, id);
      case NodeAdded(n, stats) => NodeAddedKeepsAccounted(s, n, stats);
      case WorkerProcessing(id, call) => ProcessingKeepsAccounted(s, id, call);
      case NodeCallSucceeded(call) => CallSucceededKeepsAccounted(s, call);
      case NodeCallTimeout(call, n) => CallTimeoutKeepsAccounted(s, call, n);
      case NodeOnline(_) => NodeStatusKeepsAccounted(s, a);
      case NodeOffline(_) => NodeStatusKeepsAccounted(s, a);
      case BalancerFlush => NodeStatusKeepsAccounted(s, a);
      case NodeRemoved(n) => NodeRemovedKeepsAccounted(s, n);
      case _ =>
        NodesReducer.UnhandledIsIdentity(s.nodes, a);
        WorkersReducer.UnhandledIsIdentity(s.workers, a);
    }
  }

  /** With the invariant every node's busy count is defined. */
  lemma {:induction false} AccountedBusyDefined(nodes: NodesReducer.State, workers: WorkersReducer.State, k: string)
    requires WorkersAccounted(nodes, workers) && k in nodes.vals
    ensures NodeSelectors.Busy(nodes, workers, k).Some?
  {
    NodeSelectors.BusyCountSpec(nodes.vals[k].currWorkersById, workers);
  }

  /** `getAvailableNodeId` on a state that keeps the invariant: a node when some node is
      eligible, and never a missing worker. */
  method Route(s: State, call: NodeCall) returns (r: Result<string, NodeSelectors.SelectError>)
    requires WellFormed(s) && WorkersAccounted(s.nodes, s.workers)
    ensures r.Ok? <==> NodeSelectors.Candidates(s.nodes, call) != []
    ensures r.Err? ==> r.error == NodeSelectors.NoCandidate
    ensures r.Ok? ==> NodeSelectors.Eligible(s.nodes, call, r.value)
  {
    r := NodeSelectors.GetAvailableNodeId(s.nodes, s.workers, call);
    var list := NodeSelectors.Prioritized(s.nodes, call);
    forall j | 0 <= j < |list| ensures NodeSelectors.Busy(s.nodes, s.workers, list[j]).Some? {
      AccountedBusyDefined(s.nodes, s.workers, list[j]);
    }
    NodeSelectors.PrioritizedSpec(s.nodes, call);
  }
}
