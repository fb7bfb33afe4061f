/** The routing selectors of selectors/nodeBalancer/index.ts: which nodes are online,
    whether they cover every RPC method, and which node a call goes to. */
module NodeSelectors {
  import opened Wrappers
  import opened Seqs
  import opened JsObject
  import opened StateTypes

  type Nodes = Obj<NodeStats>
  type Workers = Obj<Worker>

  /** `allMethods`: the RPC methods the balanced nodes must cover between them. */
  const AllMethods: seq<string> := [
    "client", "requests", "ping", "sendCallRequest", "getBalance", "estimateGas",
    "getTokenBalance", "getTokenBalances", "getTransactionCount", "getCurrentBlock", "sendRawTx"
  ]

  /** `stats.supportedMethods[method]` is truthy. */
  predicate Supports(stats: NodeStats, rpcMethod: string) {
    rpcMethod in stats.supportedMethods && stats.supportedMethods[rpcMethod]
  }

  function IsOnlineIn(nodes: Nodes): string -> bool {
    k => k in nodes.vals && !nodes.vals[k].isOffline
  }

  /** `isAvailable` as a step of the `reduce` that rebuilds the object. */
  function KeepOnline(nodeId: string, stats: NodeStats): Option<NodeStats> {
    if stats.isOffline then None else Some(stats)
  }

  /** `getAvailableNodes`: exactly the online nodes, their statistics untouched, in the
      order of the nodes state. */
  function GetAvailableNodes(nodes: Nodes): (r: Nodes)
    requires Valid(nodes)
    ensures Valid(r)
    ensures forall k :: k in r.vals <==> k in nodes.vals && !nodes.vals[k].isOffline
    ensures forall k :: k in r.vals ==> r.vals[k] == nodes.vals[k]
    ensures r.keys == Filter(nodes.keys, IsOnlineIn(nodes))
  {
    RebuildSpec(nodes, KeepOnline);
    FilterCongruent(nodes.keys, Kept(nodes, KeepOnline), IsOnlineIn(nodes));
    Rebuild(nodes, KeepOnline)
  }

  // ---- getAllMethodsAvailable ----

  /** The methods one node marks as supported. */
  function SupportedSet(stats: NodeStats): set<string> {
    set m | m in stats.supportedMethods && stats.supportedMethods[m]
  }

  /** The outer `reduce`: merges the supported-method objects of the nodes into `acc`. */
  function UnionFrom(vs: seq<NodeStats>, acc: set<string>): set<string> {
    if vs == [] then acc else UnionFrom(vs[1..], acc + SupportedSet(vs[0]))
  }

  /** `methods.reduce((all, m) => all && available[m], acc)` */
  function AndFrom(methods: seq<string>, available: set<string>, acc: bool): bool {
    if methods == [] then acc else AndFrom(methods[1..], available, acc && methods[0] in available)
  }

  function GetAllMethodsAvailable(nodes: Nodes): bool
    requires Valid(nodes)
  {
    var available := UnionFrom(Values(GetAvailableNodes(nodes)), {});
    AndFrom(AllMethods, available, true)
  }

  lemma {:induction false} UnionFromSpec(vs: seq<NodeStats>, acc: set<string>, m: string)
    ensures m in UnionFrom(vs, acc) <==> m in acc || exists i :: 0 <= i < |vs| && Supports(vs[i], m)
  {
    if vs != [] {
      UnionFromSpec(vs[1..], acc + SupportedSet(vs[0]), m);
      assert forall i :: 1 <= i < |vs| ==> vs[i] == vs[1..][i - 1];
    }
  }

  lemma {:induction false} AndFromSpec(methods: seq<string>, available: set<string>, acc: bool)
    ensures AndFrom(methods, available, acc) <==> acc && forall m :: m in methods ==> m in available
  {
    if methods != [] {
      AndFromSpec(methods[1..], available, acc && methods[0] in available);
      assert methods == [methods[0]] + methods[1..];
    }
  }

  /** Some online node supports `m`. */
  ghost predicate OnlineSupport(nodes: Nodes, m: string) {
    exists k :: k in nodes.vals && !nodes.vals[k].isOffline && Supports(nodes.vals[k], m)
  }

  /** True exactly when every method of `AllMethods` is supported by some online node. */
  lemma GetAllMethodsAvailableIff(nodes: Nodes)
    requires Valid(nodes)
    ensures GetAllMethodsAvailable(nodes) <==> forall m :: m in AllMethods ==> OnlineSupport(nodes, m)
  {
    var av := GetAvailableNodes(nodes);
    var vs := Values(av);
    var available := UnionFrom(vs, {});
    AndFromSpec(AllMethods, available, true);
    forall m | m in AllMethods
      ensures m in available <==> OnlineSupport(nodes, m)
    {
      UnionFromSpec(vs, {}, m);
      if OnlineSupport(nodes, m) {
        var k :| k in nodes.vals && !nodes.vals[k].isOffline && Supports(nodes.vals[k], m);
        var i :| 0 <= i < |av.keys| && av.keys[i] == k;
        assert Supports(vs[i], m);
      }
      if m in available {
        var i :| 0 <= i < |vs| && Supports(vs[i], m);
        assert av.keys[i] in av.vals;
      }
    }
  }

  // ---- getAvailableNodeId ----

  /** The inner `reduce` counting busy workers, from `acc`; `None` where a listed worker
      is not in the workers state (reading `currentPayload` of `undefined` throws). */
  function BusyFrom(ids: seq<string>, workers: Workers, acc: nat): Option<nat> {
    if ids == [] then Some(acc)
    else if ids[0] !in workers.vals then None
    else BusyFrom(ids[1..], workers, if workers.vals[ids[0]].currentPayload.Some? then acc + 1 else acc)
  }

  function BusyCount(ids: seq<string>, workers: Workers): Option<nat> {
    BusyFrom(ids, workers, 0)
  }

  function IsBusyIn(workers: Workers): string -> bool {
    id => id in workers.vals && workers.vals[id].currentPayload.Some?
  }

  lemma {:induction false} BusyFromSpec(ids: seq<string>, workers: Workers, acc: nat)
    ensures BusyFrom(ids, workers, acc).Some? <==> forall id :: id in ids ==> id in workers.vals
    ensures BusyFrom(ids, workers, acc).Some? ==>
      BusyFrom(ids, workers, acc).value == acc + |Filter(ids, IsBusyIn(workers))|
  {
    if ids != [] {
      BusyFromSpec(ids[1..], workers, if ids[0] in workers.vals && workers.vals[ids[0]].currentPayload.Some? then acc + 1 else acc);
      assert ids == [ids[0]] + ids[1..];
    }
  }

  /** A node's busy count is the number of its listed workers holding a payload, and
      is defined exactly when every listed worker is known. */
  lemma BusyCountSpec(ids: seq<string>, workers: Workers)
    ensures BusyCount(ids, workers).Some? <==> forall id :: id in ids ==> id in workers.vals
    ensures BusyCount(ids, workers).Some? ==> BusyCount(ids, workers).value == |Filter(ids, IsBusyIn(workers))|
    ensures BusyCount(ids, workers).Some? ==> BusyCount(ids, workers).value <= |ids|
  {
    BusyFromSpec(ids, workers, 0);
  }

  /** The busy count of a node by id. */
  function Busy(nodes: Nodes, workers: Workers, nodeId: string): Option<nat> {
    if nodeId in nodes.vals then BusyCount(nodes.vals[nodeId].currWorkersById, workers) else None
  }

  function SupportsIn(nodes: Nodes, rpcMethod: string): string -> bool {
    k => k in nodes.vals && Supports(nodes.vals[k], rpcMethod)
  }

  /** Online and supports the method: the first two stages together. */
  function OnlineSupportsIn(nodes: Nodes, rpcMethod: string): string -> bool {
    k => k in nodes.vals && !nodes.vals[k].isOffline && Supports(nodes.vals[k], rpcMethod)
  }

  /** Online, supports the method, and is white-listed when the call has a white list. */
  predicate Eligible(nodes: Nodes, call: NodeCall, k: string) {
    && k in nodes.vals
    && !nodes.vals[k].isOffline
    && Supports(nodes.vals[k], call.rpcMethod)
    && (call.nodeWhiteList.Some? ==> k in call.nodeWhiteList.value)
  }

  function EligibleIn(nodes: Nodes, call: NodeCall): string -> bool {
    k => Eligible(nodes, call, k)
  }

  /** The first two stages: the available nodes that support the method. */
  function SupportingNodes(nodes: Nodes, rpcMethod: string): seq<string>
    requires Valid(nodes)
  {
    var available := GetAvailableNodes(nodes);
    Filter(available.keys, SupportsIn(available, rpcMethod))
  }

  /** The third stage on top: white-listed, when the call has a white list. */
  function Candidates(nodes: Nodes, call: NodeCall): seq<string>
    requires Valid(nodes)
  {
    var supportsMethod := SupportingNodes(nodes, call.rpcMethod);
    match call.nodeWhiteList
    case None => supportsMethod
    case Some(whiteList) => Filter(supportsMethod, InList(whiteList))
  }

  lemma SupportingNodesSpec(nodes: Nodes, rpcMethod: string)
    requires Valid(nodes)
    ensures SupportingNodes(nodes, rpcMethod) == Filter(nodes.keys, OnlineSupportsIn(nodes, rpcMethod))
  {
    var available := GetAvailableNodes(nodes);
    FilterFilter(nodes.keys, IsOnlineIn(nodes), SupportsIn(available, rpcMethod), OnlineSupportsIn(nodes, rpcMethod));
  }

  /** The candidates are exactly the eligible nodes, in the order of the nodes state. */
  lemma CandidatesOrder(nodes: Nodes, call: NodeCall)
    requires Valid(nodes)
    ensures Candidates(nodes, call) == Filter(nodes.keys, EligibleIn(nodes, call))
  {
    var m := call.rpcMethod;
    SupportingNodesSpec(nodes, m);
    match call.nodeWhiteList
    case None =>
      FilterCongruent(nodes.keys, OnlineSupportsIn(nodes, m), EligibleIn(nodes, call));
    case Some(whiteList) =>
      FilterFilter(nodes.keys, OnlineSupportsIn(nodes, m), InList(whiteList), EligibleIn(nodes, call));
  }

  /** Each eligible node is a candidate, once. */
  lemma CandidatesSpec(nodes: Nodes, call: NodeCall)
    requires Valid(nodes)
    ensures forall k :: k in Candidates(nodes, call) <==> Eligible(nodes, call, k)
    ensures NoDuplicates(Candidates(nodes, call))
  {
    CandidatesOrder(nodes, call);
    FilterMembers(nodes.keys, EligibleIn(nodes, call));
    FilterNoDuplicates(nodes.keys, EligibleIn(nodes, call));
  }

  /** The fourth stage: the candidates outside `minPriorityNodeList`, or, when there are
      none, those inside it. */
  function Prioritized(nodes: Nodes, call: NodeCall): (r: seq<string>)
    requires Valid(nodes)
    ensures forall k :: k in r ==> Eligible(nodes, call, k)
  {
    CandidatesSpec(nodes, call);
    var candidates := Candidates(nodes, call);
    var prioritized1 := Filter(candidates, NotInList(call.minPriorityNodeList));
    var prioritized2 := Filter(candidates, InList(call.minPriorityNodeList));
    if |prioritized1| > 0 then prioritized1 else prioritized2
  }

  /** Nodes in `minPriorityNodeList` are used only when no candidate is outside it. */
  lemma PrioritizedAvoidsLowPriority(nodes: Nodes, call: NodeCall)
    requires Valid(nodes)
    requires exists k :: k in Candidates(nodes, call) && k !in call.minPriorityNodeList
    ensures Prioritized(nodes, call) == Filter(Candidates(nodes, call), NotInList(call.minPriorityNodeList))
    ensures Prioritized(nodes, call) != []
    ensures forall k :: k in Prioritized(nodes, call) <==>
      k in Candidates(nodes, call) && k !in call.minPriorityNodeList
  {
    var c, low := Candidates(nodes, call), call.minPriorityNodeList;
    FilterMembers(c, NotInList(low));
    var k :| k in c && k !in low;
    assert k in Filter(c, NotInList(low));
  }

  /** When every candidate is of low priority, they are all kept. */
  lemma PrioritizedKeepsAllLowPriority(nodes: Nodes, call: NodeCall)
    requires Valid(nodes)
    requires forall k :: k in Candidates(nodes, call) ==> k in call.minPriorityNodeList
    ensures Prioritized(nodes, call) == Candidates(nodes, call)
  {
    var c, low := Candidates(nodes, call), call.minPriorityNodeList;
    FilterAll(c, InList(low));
    FilterNone(c, NotInList(low));
  }

  /** The prioritized list is a duplicate-free sub-list of the candidates, and it is
      empty only when there are no candidates. */
  lemma PrioritizedSpec(nodes: Nodes, call: NodeCall)
    requires Valid(nodes)
    ensures forall k :: k in Prioritized(nodes, call) ==> k in Candidates(nodes, call)
    ensures NoDuplicates(Prioritized(nodes, call))
    ensures Prioritized(nodes, call) == [] <==> Candidates(nodes, call) == []
  {
    var c, low := Candidates(nodes, call), call.minPriorityNodeList;
    CandidatesSpec(nodes, call);
    FilterMembers(c, NotInList(low));
    FilterMembers(c, InList(low));
    FilterNoDuplicates(c, NotInList(low));
    FilterNoDuplicates(c, InList(low));
    if exists k :: k in c && k !in low {
      PrioritizedAvoidsLowPriority(nodes, call);
    } else {
      PrioritizedKeepsAllLowPriority(nodes, call);
    }
  }

  /** Entry `i` of `list` has a defined busy count that no entry beats, and every earlier
      entry is strictly busier: the first least busy node. */
  ghost predicate IsFirstLeastBusy(nodes: Nodes, workers: Workers, list: seq<string>, i: nat) {
    && i < |list|
    && (forall j :: 0 <= j < |list| ==> Busy(nodes, workers, list[j]).Some?)
    && (forall j :: 0 <= j < |list| ==> Busy(nodes, workers, list[i]).value <= Busy(nodes, workers, list[j]).value)
    && (forall j :: 0 <= j < i ==> Busy(nodes, workers, list[i]).value < Busy(nodes, workers, list[j]).value)
  }

  datatype SelectError =
    | NoCandidate                  // `selectedNode` stays undefined and `.nodeId` throws
    | UnknownWorker(nodeId: string) // a listed worker of this node is not in the workers state

  /** The loop of `getAvailableNodeId` over a list of known nodes: the busy count of each
      node is taken in turn and a strictly smaller one replaces the current choice. */
  method SelectLeastBusy(nodes: Nodes, workers: Workers, list: seq<string>) returns (r: Result<string, SelectError>)
    requires forall k :: k in list ==> k in nodes.vals
    ensures r == Err(NoCandidate) <==> list == []
    ensures r.Err? && r.error.UnknownWorker? <==>
      exists j :: 0 <= j < |list| && Busy(nodes, workers, list[j]).None?
    ensures r.Ok? ==> exists i: nat :: IsFirstLeastBusy(nodes, workers, list, i) && list[i] == r.value
  {
    var selected: Option<string> := None;
    var selectedCount: nat := 0;
    ghost var si: nat := 0;
    for i := 0 to |list|
      invariant selected.None? <==> i == 0
      invariant forall j :: 0 <= j < i ==> Busy(nodes, workers, list[j]).Some?
      invariant selected.Some? ==> si < i && list[si] == selected.value && Busy(nodes, workers, list[si]) == Some(selectedCount)
      invariant selected.Some? ==> forall j :: 0 <= j < i ==> selectedCount <= Busy(nodes, workers, list[j]).value
      invariant selected.Some? ==> forall j :: 0 <= j < si ==> selectedCount < Busy(nodes, workers, list[j]).value
    {
      var nodeId := list[i];
      var busy := BusyCount(nodes.vals[nodeId].currWorkersById, workers);
      assert busy == Busy(nodes, workers, list[i]);
      if busy.None? {
        return Err(UnknownWorker(nodeId));
      }
      if selected.None? || selectedCount > busy.value {
        selected, selectedCount, si := Some(nodeId), busy.value, i;
      }
    }
    if selected.None? {
      return Err(NoCandidate);
    }
    assert IsFirstLeastBusy(nodes, workers, list, si);
    r := Ok(selected.value);
  }

  /** `getAvailableNodeId(state, payload)`: the first least busy node of the prioritized
      list, which is online, supports the method and is white-listed. */
  method GetAvailableNodeId(nodes: Nodes, workers: Workers, call: NodeCall) returns (r: Result<string, SelectError>)
    requires Valid(nodes)
    ensures r == Err(NoCandidate) <==> Prioritized(nodes, call) == []
    ensures r.Err? && r.error.UnknownWorker? <==>
      exists j :: 0 <= j < |Prioritized(nodes, call)| && Busy(nodes, workers, Prioritized(nodes, call)[j]).None?
    ensures r.Ok? ==> exists i: nat ::
      IsFirstLeastBusy(nodes, workers, Prioritized(nodes, call), i) && Prioritized(nodes, call)[i] == r.value
    ensures r.Ok? ==> Eligible(nodes, call, r.value)
  {
    r := SelectLeastBusy(nodes, workers, Prioritized(nodes, call));
  }

  /** A selected node is of low priority only when every candidate is. */
  lemma SelectedAvoidsLowPriority(nodes: Nodes, call: NodeCall, k: string)
    requires Valid(nodes)
    requires k in Prioritized(nodes, call)
    requires exists c :: c in Candidates(nodes, call) && c !in call.minPriorityNodeList
    ensures k !in call.minPriorityNodeList
  {
    PrioritizedAvoidsLowPriority(nodes, call);
  }
}
