/** The broadcast selectors of selectors/transaction/broadcast.ts: the status of the
    transaction being signed, found by its indexing hash. The selectors return `false`,
    `undefined` or a boolean; the model gives their truthiness. */
module BroadcastSelectors {
  import opened Wrappers

  datatype BroadcastEntry = BroadcastEntry(isBroadcasting: bool, broadcastSuccessful: bool)

  /** `state.transaction.broadcast`, by indexing hash. */
  type BroadcastState = map<string, BroadcastEntry>

  /** What `getCurrentTransactionStatus` returns: `false` when the sign state has no
      indexing hash (the empty string), otherwise the entry for it, possibly `undefined`. */
  datatype CurrentStatus = NoIndexingHash | Status(entry: Option<BroadcastEntry>)

  function GetTransactionStatus(broadcast: BroadcastState, indexingHash: string): (r: Option<BroadcastEntry>)
    ensures r.Some? <==> indexingHash in broadcast
    ensures r.Some? ==> r.value == broadcast[indexingHash]
  {
    if indexingHash in broadcast then Some(broadcast[indexingHash]) else None
  }

  function GetCurrentTransactionStatus(broadcast: BroadcastState, indexingHash: string): (r: CurrentStatus)
    ensures r == NoIndexingHash <==> indexingHash == ""
    ensures r.Status? ==> r.entry == GetTransactionStatus(broadcast, indexingHash)
  {
    if indexingHash == "" then NoIndexingHash else Status(GetTransactionStatus(broadcast, indexingHash))
  }

  /** The entry, when there is one. */
  function Current(broadcast: BroadcastState, indexingHash: string): Option<BroadcastEntry> {
    match GetCurrentTransactionStatus(broadcast, indexingHash)
    case NoIndexingHash => None
    case Status(entry) => entry
  }

  function CurrentTransactionFailed(broadcast: BroadcastState, indexingHash: string): bool {
    var tx := Current(broadcast, indexingHash);
    tx.Some? && !tx.value.broadcastSuccessful
  }

  function CurrentTransactionBroadcasting(broadcast: BroadcastState, indexingHash: string): bool {
    var tx := Current(broadcast, indexingHash);
    tx.Some? && tx.value.isBroadcasting
  }

  function CurrentTransactionBroadcasted(broadcast: BroadcastState, indexingHash: string): bool {
    var tx := Current(broadcast, indexingHash);
    tx.Some? && !tx.value.isBroadcasting
  }

  /** Each flag holds exactly when the sign state has an indexing hash with an entry whose
      field says so; broadcasting and broadcasted never hold together, and with an entry
      one of them does. */
  lemma BroadcastFlagsSpec(broadcast: BroadcastState, h: string)
    ensures CurrentTransactionFailed(broadcast, h) <==> h != "" && h in broadcast && !broadcast[h].broadcastSuccessful
    ensures CurrentTransactionBroadcasting(broadcast, h) <==> h != "" && h in broadcast && broadcast[h].isBroadcasting
    ensures CurrentTransactionBroadcasted(broadcast, h) <==> h != "" && h in broadcast && !broadcast[h].isBroadcasting
    ensures !(CurrentTransactionBroadcasting(broadcast, h) && CurrentTransactionBroadcasted(broadcast, h))
    ensures h != "" && h in broadcast ==> CurrentTransactionBroadcasting(broadcast, h) || CurrentTransactionBroadcasted(broadcast, h)
  {
  }
}
