/** The request-status selectors of selectors/transaction/network.ts. The network slice
    is a plain object from request names to their statuses. */
module TransactionNetworkSelectors {
  import opened Wrappers
  import opened JsObject

  /** `RequestStatus`; the values not compared by name are `OtherStatus`. */
  datatype RequestStatus = Requested | Failed | TimedOut | OtherStatus(name: string)

  /** Each request's status, or null. */
  type NetworkState = Obj<Option<RequestStatus>>

  const GetNonceStatus := "getNonceStatus"
  const GasEstimationStatus := "gasEstimationStatus"

  /** `network[key] === status` */
  predicate StatusIs(network: NetworkState, key: string, status: RequestStatus) {
    Get(network, key) == Some(Some(status))
  }

  function NonceRequestFailed(network: NetworkState): bool {
    StatusIs(network, GetNonceStatus, Failed)
  }

  function GetGasEstimationPending(network: NetworkState): bool {
    StatusIs(network, GasEstimationStatus, Requested)
  }

  function GetGasLimitEstimationTimedOut(network: NetworkState): bool {
    StatusIs(network, GasEstimationStatus, TimedOut)
  }

  /** The `reduce` over `Object.values(network)`, from `anyPending`. */
  function AnyPendingFrom(states: seq<Option<RequestStatus>>, anyPending: bool): bool {
    if states == [] then anyPending else AnyPendingFrom(states[1..], anyPending || states[0] == Some(Requested))
  }

  function IsNetworkRequestPending(network: NetworkState): bool
    requires Valid(network)
  {
    AnyPendingFrom(Values(network), false)
  }

  lemma {:induction false} AnyPendingFromSpec(states: seq<Option<RequestStatus>>, anyPending: bool)
    ensures AnyPendingFrom(states, anyPending) <==> anyPending || Some(Requested) in states
  {
    if states != [] {
      AnyPendingFromSpec(states[1..], anyPending || states[0] == Some(Requested));
      assert states == [states[0]] + states[1..];
    }
  }

  /** A status among the values belongs to some key. */
  lemma ValueHasKey(network: NetworkState, status: RequestStatus)
    requires Valid(network) && Some(status) in Values(network)
    ensures exists k :: StatusIs(network, k, status)
  {
    var vs := Values(network);
    var i :| 0 <= i < |vs| && vs[i] == Some(status);
    assert StatusIs(network, network.keys[i], status);
  }

  /** The status of a key is among the values. */
  lemma KeyHasValue(network: NetworkState, k: string, status: RequestStatus)
    requires Valid(network) && StatusIs(network, k, status)
    ensures Some(status) in Values(network)
  {
    var vs := Values(network);
    var i :| 0 <= i < |network.keys| && network.keys[i] == k;
    assert vs[i] == Some(status);
  }

  /** Some request is pending exactly when some key of the slice has status REQUESTED. */
  lemma IsNetworkRequestPendingIff(network: NetworkState)
    requires Valid(network)
    ensures IsNetworkRequestPending(network) <==> exists k :: StatusIs(network, k, Requested)
  {
    AnyPendingFromSpec(Values(network), false);
    if Some(Requested) in Values(network) {
      ValueHasKey(network, Requested);
    }
    if exists k :: StatusIs(network, k, Requested) {
      var k :| StatusIs(network, k, Requested);
      KeyHasValue(network, k, Requested);
    }
  }

  /** Gas estimation is never both pending and timed out, and a pending estimation makes
      the network busy. */
  lemma GasEstimationFlags(network: NetworkState)
    requires Valid(network)
    ensures !(GetGasEstimationPending(network) && GetGasLimitEstimationTimedOut(network))
    ensures GetGasEstimationPending(network) ==> IsNetworkRequestPending(network)
  {
    IsNetworkRequestPendingIff(network);
  }

  /** A failed nonce request is not a pending one: with the nonce request failed, the
      network is pending exactly when some other request is REQUESTED. */
  lemma NonceFailureNotPending(network: NetworkState)
    requires Valid(network) && NonceRequestFailed(network)
    ensures IsNetworkRequestPending(network) <==> exists k :: k != GetNonceStatus && StatusIs(network, k, Requested)
  {
    IsNetworkRequestPendingIff(network);
  }
}
