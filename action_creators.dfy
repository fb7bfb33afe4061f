/** `nodeCallRequested` of actions/nodeBalancer/actionCreators.ts: an action creator that
    closes over a counter and stamps each request with the next call id. */
module ActionCreators {
  import opened StateTypes
  import opened ActionTypes

  class CallIdCounter {
    /** The closed-over `i`: the id the next request gets. */
    var i: nat
    /** The ids handed out so far, oldest first. */
    ghost var issued: seq<nat>

    ghost predicate Valid()
      reads this
    {
      |issued| == i && forall k :: 0 <= k < |issued| ==> issued[k] == k
    }

    constructor ()
      ensures Valid() && i == 0 && issued == []
    {
      i := 0;
      issued := [];
    }

    /** `{ type: NODE_CALL_REQUESTED, payload: { ...payload, callId: i++ } }`: every other
        field is copied and `callId`, written last, replaces whatever the caller gave. */
    method NodeCallRequested(payload: NodeCall) returns (a: Action)
      requires Valid()
      modifies this
      ensures Valid()
      ensures a == Action.NodeCallRequested(payload.(callId := old(i)))
      ensures i == old(i) + 1 && issued == old(issued) + [old(i)]
      ensures old(i) !in old(issued)
      ensures forall j, k :: 0 <= j < k < |issued| ==> issued[j] < issued[k]
    {
      a := Action.NodeCallRequested(payload.(callId := i));
      issued := issued + [i];
      i := i + 1;
    }
  }

  /** Three requests in a row get the ids 0, 1 and 2. */
  method FirstRequests(p: NodeCall) returns (a0: Action, a1: Action, a2: Action)
    ensures a0.NodeCallRequested? && a1.NodeCallRequested? && a2.NodeCallRequested?
    ensures a0.call.callId == 0 && a1.call.callId == 1 && a2.call.callId == 2
    ensures a0.call.rpcMethod == a1.call.rpcMethod == a2.call.rpcMethod == p.rpcMethod
  {
    var c := new CallIdCounter();
    a0 := c.NodeCallRequested(p);
    a1 := c.NodeCallRequested(p);
    a2 := c.NodeCallRequested(p);
  }
}
