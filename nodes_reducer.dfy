/** The `nodes` reducer of reducers/nodeBalancer/nodes.ts: per node id, its statistics. */
module NodesReducer {
  import opened Wrappers
  import opened Seqs
  import opened JsObject
  import opened StateTypes
  import opened ActionTypes

  type State = Obj<NodeStats>

  /** `INITIAL_STATE = {}` */
  function InitialState(): (r: State)
    ensures Valid(r) && r.keys == [] && r.vals == map[]
  {
    Empty()
  }

  function HandleWorkerKilled(state: State, nodeName: string, workerId: string): Result<State, Fault>
    requires Valid(state)
  {
    if nodeName !in state.vals then Err(UndefinedNode(nodeName))
    else
      var node := state.vals[nodeName];
      Ok(Put(state, nodeName, node.(currWorkersById := Filter(node.currWorkersById, NotEqual(workerId)))))
  }

  function HandleWorkerSpawned(state: State, nodeName: string, workerId: string): Result<State, Fault>
    requires Valid(state)
  {
    if nodeName !in state.vals then Err(UndefinedNode(nodeName))
    else
      var node := state.vals[nodeName];
      Ok(Put(state, nodeName, node.(currWorkersById := node.currWorkersById + [workerId])))
  }

  function HandleNodeOnline(state: State, nodeName: string): Result<State, Fault>
    requires Valid(state)
  {
    if nodeName !in state.vals then Err(UndefinedNode(nodeName))
    else Ok(Put(state, nodeName, state.vals[nodeName].(isOffline := false)))
  }

  function HandleNodeOffline(state: State, nodeName: string): Result<State, Fault>
    requires Valid(state)
  {
    if nodeName !in state.vals then Err(UndefinedNode(nodeName))
    else Ok(Put(state, nodeName, state.vals[nodeName].(isOffline := true, requestFailures := 0)))
  }

  function HandleNodeAdded(state: State, nodeName: string, stats: NodeStats): State
    requires Valid(state)
  {
    Put(state, nodeName, stats)
  }

  /** `handleNodeRemoved` as written: it returns the copy taken before the delete, and the
      delete is applied to the input object instead (see `InputAfterAsWritten`). */
  function HandleNodeRemovedAsWritten(state: State, nodeName: string): State {
    state
  }

  /** What the object passed in as `state` holds once `handleNodeRemoved` as written
      returns: the node is gone from it. */
  function InputAfterAsWritten(state: State, nodeName: string): (r: State)
    requires Valid(state)
    ensures Valid(r)
  {
    Delete(state, nodeName)
  }

  /** `handleNodeRemoved` with the delete applied to the copy, as intended: the node goes
      from the result and the input is left alone. */
  function HandleNodeRemoved(state: State, nodeName: string): State
    requires Valid(state)
  {
    Delete(state, nodeName)
  }

  function HandleNodeCallTimeout(state: State, nodeName: string): Result<State, Fault>
    requires Valid(state)
  {
    if nodeName !in state.vals then Err(UndefinedNode(nodeName))
    else
      var node := state.vals[nodeName];
      Ok(Put(state, nodeName, node.(requestFailures := node.requestFailures + 1)))
  }

  /** The per-entry step of the flush's `reduce`: keep the node, failures reset. */
  function ResetFailures(nodeName: string, stats: NodeStats): Option<NodeStats> {
    Some(stats.(requestFailures := 0))
  }

  function HandleBalancerFlush(state: State): State
    requires Valid(state)
  {
    Rebuild(state, ResetFailures)
  }

  /** The actions this reducer has a case for. */
  predicate Handles(a: Action) {
    a.WorkerKilled? || a.WorkerSpawned? || a.NodeOnline? || a.NodeOffline? || a.NodeAdded?
    || a.NodeRemoved? || a.NodeCallTimeout? || a.BalancerFlush?
  }

  /** `nodes(state, action)`; `Err` where the source throws. */
  function Nodes(state: State, a: Action): Result<State, Fault>
    requires Valid(state)
  {
    match a
    case WorkerKilled(nodeName, workerId) => HandleWorkerKilled(state, nodeName, workerId)
    case WorkerSpawned(nodeName, workerId, _) => HandleWorkerSpawned(state, nodeName, workerId)
    case NodeOnline(nodeName) => HandleNodeOnline(state, nodeName)
    case NodeOffline(nodeName) => HandleNodeOffline(state, nodeName)
    case NodeAdded(nodeName, stats) => Ok(HandleNodeAdded(state, nodeName, stats))
    case NodeRemoved(nodeName) => Ok(HandleNodeRemoved(state, nodeName))
    case NodeCallTimeout(_, nodeName) => HandleNodeCallTimeout(state, nodeName)
    case BalancerFlush => Ok(HandleBalancerFlush(state))
    case _ => Ok(state)
  }

  /** Every successful step keeps the object well formed. */
  lemma NodesValid(state: State, a: Action)
    requires Valid(state)
    ensures Nodes(state, a).Ok? ==> Valid(Nodes(state, a).value)
  {
    if a.BalancerFlush? {
      RebuildSpec(state, ResetFailures);
    }
  }

  /** The handlers that read a field of `state[nodeName]` throw for an unknown node;
      the others never throw. */
  lemma NodesFailsExactlyOnUnknownNode(state: State, a: Action)
    requires Valid(state)
    ensures Nodes(state, a).Err? <==>
      (a.WorkerKilled? || a.WorkerSpawned? || a.NodeOnline? || a.NodeOffline? || a.NodeCallTimeout?)
      && a.nodeName !in state.vals
    ensures Nodes(state, a).Err? ==> Nodes(state, a).error == UndefinedNode(a.nodeName)
  {
  }

  /** Only `nodeName` changes, and no key is added, removed or moved. */
  ghost predicate OnlyNodeChanged(state: State, r: State, nodeName: string) {
    && r.keys == state.keys
    && r.vals.Keys == state.vals.Keys
    && forall k :: k in state.vals && k != nodeName ==> r.vals[k] == state.vals[k]
  }

  lemma WorkerSpawnedAppends(state: State, nodeName: string, workerId: string, task: Task)
    requires Valid(state) && nodeName in state.vals
    ensures var r := Nodes(state, WorkerSpawned(nodeName, workerId, task));
      && r.Ok?
      && OnlyNodeChanged(state, r.value, nodeName)
      && r.value.vals[nodeName] ==
         state.vals[nodeName].(currWorkersById := state.vals[nodeName].currWorkersById + [workerId])
  {
  }

  /** Every occurrence of `workerId` goes, the other ids keep their order, and no field
      but `currWorkersById` changes. */
  lemma WorkerKilledRemovesAll(state: State, nodeName: string, workerId: string)
    requires Valid(state) && nodeName in state.vals
    ensures var r := Nodes(state, WorkerKilled(nodeName, workerId));
      && r.Ok?
      && OnlyNodeChanged(state, r.value, nodeName)
      && var before, after := state.vals[nodeName].currWorkersById, r.value.vals[nodeName].currWorkersById;
      && r.value.vals[nodeName] == state.vals[nodeName].(currWorkersById := after)
      && workerId !in after
      && (forall w :: w in after <==> w in before && w != workerId)
      && (forall i :: 0 <= i <= |before| ==>
            after == Filter(before[..i], NotEqual(workerId)) + Filter(before[i..], NotEqual(workerId)))
  {
    var before := state.vals[nodeName].currWorkersById;
    forall i | 0 <= i <= |before|
      ensures Filter(before, NotEqual(workerId))
           == Filter(before[..i], NotEqual(workerId)) + Filter(before[i..], NotEqual(workerId))
    {
      assert before == before[..i] + before[i..];
      FilterConcat(before[..i], before[i..], NotEqual(workerId));
    }
  }

  lemma NodeOnlineKeepsFailures(state: State, nodeName: string)
    requires Valid(state) && nodeName in state.vals
    ensures var r := Nodes(state, NodeOnline(nodeName));
      && r.Ok?
      && OnlyNodeChanged(state, r.value, nodeName)
      && !r.value.vals[nodeName].isOffline
      && r.value.vals[nodeName].requestFailures == state.vals[nodeName].requestFailures
      && r.value.vals[nodeName] == state.vals[nodeName].(isOffline := false)
  {
  }

  lemma NodeOfflineResetsFailures(state: State, nodeName: string)
    requires Valid(state) && nodeName in state.vals
    ensures var r := Nodes(state, NodeOffline(nodeName));
      && r.Ok?
      && OnlyNodeChanged(state, r.value, nodeName)
      && r.value.vals[nodeName].isOffline
      && r.value.vals[nodeName].requestFailures == 0
      && r.value.vals[nodeName] == state.vals[nodeName].(isOffline := true, requestFailures := 0)
  {
  }

  lemma NodeCallTimeoutCountsFailure(state: State, call: NodeCall, nodeName: string)
    requires Valid(state) && nodeName in state.vals
    ensures var r := Nodes(state, NodeCallTimeout(call, nodeName));
      && r.Ok?
      && OnlyNodeChanged(state, r.value, nodeName)
      && r.value.vals[nodeName].requestFailures == state.vals[nodeName].requestFailures + 1
      && r.value.vals[nodeName] ==
         state.vals[nodeName].(requestFailures := state.vals[nodeName].requestFailures + 1)
  {
  }

  /** The flush keeps every node in its place and zeroes only its failure counter. */
  lemma {:induction false} BalancerFlushResetsAll(state: State)
    requires Valid(state)
    ensures var r := Nodes(state, BalancerFlush);
      && r.Ok?
      && r.value.keys == state.keys
      && r.value.vals.Keys == state.vals.Keys
      && forall k :: k in state.vals ==>
           r.value.vals[k].requestFailures == 0
           && r.value.vals[k] == state.vals[k].(requestFailures := 0)
  {
    FlushRebuilds(state);
    var r := HandleBalancerFlush(state);
    assert Nodes(state, BalancerFlush) == Ok(r);
    assert r.vals.Keys == state.vals.Keys;
  }

  /** The rebuild behind the flush keeps every entry, with its failures reset. */
  lemma FlushRebuilds(state: State)
    requires Valid(state)
    ensures var r := HandleBalancerFlush(state);
      && r.keys == state.keys
      && (forall k :: k in r.vals <==> k in state.vals)
      && (forall k :: k in r.vals ==> r.vals[k] == state.vals[k].(requestFailures := 0))
  {
    var f := ResetFailures;
    RebuildSpec(state, f);
    assert forall k :: k in state.vals ==> Kept(state, f)(k);
    FilterAll(state.keys, Kept(state, f));
  }

  /** Flushing twice is flushing once. */
  lemma {:induction false} BalancerFlushIdempotent(state: State)
    requires Valid(state)
    ensures var once := HandleBalancerFlush(state);
      Valid(once) && HandleBalancerFlush(once) == once
  {
    BalancerFlushResetsAll(state);
    var once := HandleBalancerFlush(state);
    BalancerFlushResetsAll(once);
    var twice := HandleBalancerFlush(once);
    assert twice.vals == once.vals;
  }

  lemma NodeAddedStores(state: State, nodeName: string, stats: NodeStats)
    requires Valid(state)
    ensures var r := Nodes(state, NodeAdded(nodeName, stats));
      && r.Ok?
      && r.value.vals == state.vals[nodeName := stats]
      && r.value.keys == (if nodeName in state.vals then state.keys else state.keys + [nodeName])
  {
  }

  /** As written, NODE_REMOVED hands back its input's old contents, the removed node
      included, and deletes the node from the input object itself. */
  lemma NodeRemovedAsWrittenKeepsNode(state: State, nodeName: string)
    requires Valid(state) && nodeName in state.vals
    ensures var r := HandleNodeRemovedAsWritten(state, nodeName);
      && nodeName in r.vals
      && r.vals[nodeName] == state.vals[nodeName]
    ensures var input := InputAfterAsWritten(state, nodeName);
      && nodeName !in input.vals
      && input.vals == state.vals - {nodeName}
  {
  }

  /** NODE_REMOVED removes exactly that node; the others keep their statistics and order. */
  lemma NodeRemovedDeletes(state: State, nodeName: string)
    requires Valid(state)
    ensures var r := Nodes(state, NodeRemoved(nodeName));
      && r.Ok?
      && Valid(r.value)
      && Get(r.value, nodeName) == None
      && r.value.vals == state.vals - {nodeName}
      && r.value.keys == Filter(state.keys, NotEqual(nodeName))
  {
  }

  lemma UnhandledIsIdentity(state: State, a: Action)
    requires Valid(state) && !Handles(a)
    ensures Nodes(state, a) == Ok(state)
  {
  }
}
