/** The `workers` reducer of reducers/nodeBalancer/workers.ts: per worker id, its task,
    its node and the call it is processing. */
module WorkersReducer {
  import opened Wrappers
  import opened JsObject
  import opened StateTypes
  import opened ActionTypes

  type State = Obj<Worker>

  /** `INITIAL_STATE = {}` */
  function InitialState(): (r: State)
    ensures Valid(r) && r.keys == [] && r.vals == map[]
  {
    Empty()
  }

  /** The `find` predicate: the worker's payload is the call with this id. */
  predicate HoldsCall(w: Worker, callId: nat) {
    w.currentPayload.Some? && w.currentPayload.value.callId == callId
  }

  /** `Object.entries(state).find(...)` from entry `i` on: the first worker, in key order,
      that is processing `callId`. */
  function FindWorkerFrom(state: State, callId: nat, i: nat): (r: Option<string>)
    requires Valid(state) && i <= |state.keys|
    ensures r.Some? ==> exists j ::
      && i <= j < |state.keys| && state.keys[j] == r.value
      && (forall m :: i <= m < j ==> !HoldsCall(state.vals[state.keys[m]], callId))
    ensures r.Some? ==> r.value in state.vals && HoldsCall(state.vals[r.value], callId)
    ensures r.None? <==> forall m :: i <= m < |state.keys| ==> !HoldsCall(state.vals[state.keys[m]], callId)
    decreases |state.keys| - i
  {
    if i == |state.keys| then None
    else if HoldsCall(state.vals[state.keys[i]], callId) then Some(state.keys[i])
    else FindWorkerFrom(state, callId, i + 1)
  }

  function FindWorker(state: State, callId: nat): (r: Option<string>)
    requires Valid(state)
  {
    FindWorkerFrom(state, callId, 0)
  }

  function HandleWorkerKilled(state: State, workerId: string): State
    requires Valid(state)
  {
    Delete(state, workerId)
  }

  /** `{ ...state[workerId], currentPayload }`: spreading an unknown worker's `undefined`
      gives a record with `currentPayload` alone. */
  function HandleWorkerProcessing(state: State, workerId: string, currentPayload: NodeCall): State
    requires Valid(state)
  {
    var base := if workerId in state.vals then state.vals[workerId] else Worker(None, None, None);
    Put(state, workerId, base.(currentPayload := Some(currentPayload)))
  }

  function HandleWorkerSpawned(state: State, nodeName: string, workerId: string, task: Task): State
    requires Valid(state)
  {
    Put(state, workerId, Worker(Some(task), Some(nodeName), None))
  }

  /** NODE_CALL_SUCCEEDED and NODE_CALL_TIMEOUT: the worker that holds the call is done
      with it; there must be one. */
  function HandleCallFinished(state: State, callId: nat): Result<State, Fault>
    requires Valid(state)
  {
    match FindWorker(state, callId)
    case None => Err(WorkerNotFound(callId))
    case Some(workerId) => Ok(Put(state, workerId, state.vals[workerId].(currentPayload := None)))
  }

  predicate Handles(a: Action) {
    a.WorkerSpawned? || a.WorkerKilled? || a.WorkerProcessing? || a.NodeCallSucceeded? || a.NodeCallTimeout?
  }

  /** `workers(state, action)`. The source reads the node as `payload.nodeId` and the
      succeeded call's id as `payload.nodeCall.callId`, fields the declared payloads lack;
      the model uses the declared `nodeName` and `callId`. */
  function Workers(state: State, a: Action): Result<State, Fault>
    requires Valid(state)
  {
    match a
    case WorkerSpawned(nodeName, workerId, task) => Ok(HandleWorkerSpawned(state, nodeName, workerId, task))
    case WorkerKilled(_, workerId) => Ok(HandleWorkerKilled(state, workerId))
    case WorkerProcessing(workerId, currentPayload) => Ok(HandleWorkerProcessing(state, workerId, currentPayload))
    case NodeCallSucceeded(call) => HandleCallFinished(state, call.callId)
    case NodeCallTimeout(call, _) => HandleCallFinished(state, call.callId)
    case _ => Ok(state)
  }

  lemma WorkersValid(state: State, a: Action)
    requires Valid(state)
    ensures Workers(state, a).Ok? ==> Valid(Workers(state, a).value)
  {
  }

  lemma WorkerSpawnedRegisters(state: State, nodeName: string, workerId: string, task: Task)
    requires Valid(state)
    ensures var r := Workers(state, WorkerSpawned(nodeName, workerId, task));
      && r.Ok?
      && r.value.vals == state.vals[workerId := Worker(Some(task), Some(nodeName), None)]
      && r.value.vals[workerId].currentPayload.None?
  {
  }

  lemma WorkerKilledDeletes(state: State, nodeName: string, workerId: string)
    requires Valid(state)
    ensures var r := Workers(state, WorkerKilled(nodeName, workerId));
      && r.Ok?
      && r.value.vals.Keys == state.vals.Keys - {workerId}
      && (forall k :: k in r.value.vals ==> r.value.vals[k] == state.vals[k])
      && (forall k :: k in r.value.keys <==> k in state.keys && k != workerId)
  {
  }

  /** Only that worker's `currentPayload` changes; for a known worker the key set and
      order stay. */
  lemma WorkerProcessingSetsPayload(state: State, workerId: string, call: NodeCall)
    requires Valid(state)
    ensures var r := Workers(state, WorkerProcessing(workerId, call));
      && r.Ok?
      && r.value.vals[workerId].currentPayload == Some(call)
      && (forall k :: k in state.vals && k != workerId ==> r.value.vals[k] == state.vals[k])
      && (workerId in state.vals ==>
            r.value.keys == state.keys && r.value.vals.Keys == state.vals.Keys
            && r.value.vals[workerId] == state.vals[workerId].(currentPayload := Some(call)))
      && (workerId !in state.vals ==> r.value.vals[workerId] == Worker(None, None, Some(call)))
  {
  }

  /** A finished call throws exactly when no worker holds it; otherwise the first
      worker (in key order) that holds it is cleared and nothing else changes. */
  lemma {:induction false} CallFinishedClearsFirstHolder(state: State, a: Action)
    requires Valid(state) && (a.NodeCallSucceeded? || a.NodeCallTimeout?)
    ensures var r := Workers(state, a);
      && (r.Err? <==> forall k :: k in state.vals ==> !HoldsCall(state.vals[k], a.call.callId))
      && (r.Err? ==> r.error == WorkerNotFound(a.call.callId))
      && (r.Ok? ==> exists j ::
            && 0 <= j < |state.keys|
            && HoldsCall(state.vals[state.keys[j]], a.call.callId)
            && (forall m :: 0 <= m < j ==> !HoldsCall(state.vals[state.keys[m]], a.call.callId))
            && r.value.keys == state.keys
            && r.value.vals == state.vals[state.keys[j] := state.vals[state.keys[j]].(currentPayload := None)])
  {
    var callId := a.call.callId;
    var found := FindWorker(state, callId);
    if found.None? {
      forall k | k in state.vals ensures !HoldsCall(state.vals[k], callId) {
        var m :| 0 <= m < |state.keys| && state.keys[m] == k;
      }
    } else {
      var j :| 0 <= j < |state.keys| && state.keys[j] == found.value
        && (forall m :: 0 <= m < j ==> !HoldsCall(state.vals[state.keys[m]], callId));
    }
  }

  /** A finished call changes no worker's task or assigned node. */
  lemma CallFinishedKeepsAssignment(state: State, a: Action)
    requires Valid(state) && (a.NodeCallSucceeded? || a.NodeCallTimeout?)
    ensures var r := Workers(state, a);
      r.Ok? ==> forall id :: id in state.vals ==>
        id in r.value.vals && r.value.vals[id].assignedNode == state.vals[id].assignedNode
  {
    CallFinishedClearsFirstHolder(state, a);
  }

  lemma UnhandledIsIdentity(state: State, a: Action)
    requires Valid(state) && !Handles(a)
    ensures Workers(state, a) == Ok(state)
  {
  }
}
