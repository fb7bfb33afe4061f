/** The ENS selectors of selectors/ens.ts: the data of the domain being looked up, its
    resolved address, and whether it is still resolving. An empty string stands for a
    missing (falsy) name or address. */
module EnsSelectors {
  import opened Wrappers

  /** `REQUEST_STATES`: only `pending` is compared by name. */
  datatype RequestState = Pending | OtherState(name: string)

  /** A domain's data; `ownerAddress` is empty for a domain nobody owns. */
  datatype DomainData = DomainData(ownerAddress: string, resolvedAddress: string)

  datatype DomainRequest = DomainRequest(data: Option<DomainData>, error: bool, state: RequestState)

  datatype EnsState = EnsState(currentDomain: string, domainRequests: map<string, DomainRequest>)

  /** `getCurrentDomainData` */
  function GetCurrentDomainData(ens: EnsState): (r: Option<DomainData>)
    ensures r.Some? <==>
      && ens.currentDomain != ""
      && ens.currentDomain in ens.domainRequests
      && !ens.domainRequests[ens.currentDomain].error
      && ens.domainRequests[ens.currentDomain].data.Some?
    ensures r.Some? ==> r == ens.domainRequests[ens.currentDomain].data
  {
    var currentDomain := ens.currentDomain;
    if currentDomain == "" || currentDomain !in ens.domainRequests || ens.domainRequests[currentDomain].error then None
    else ens.domainRequests[currentDomain].data
  }

  /** `isOwned` */
  predicate IsOwned(data: DomainData) {
    data.ownerAddress != ""
  }

  /** `getResolvedAddress(state, noGenesisAddress)`, with `isCreationAddress` given. */
  function GetResolvedAddress(ens: EnsState, noGenesisAddress: bool, isCreationAddress: string -> bool): Option<string> {
    match GetCurrentDomainData(ens)
    case None => None
    case Some(data) =>
      if !IsOwned(data) then None
      else if noGenesisAddress then (if !isCreationAddress(data.resolvedAddress) then Some(data.resolvedAddress) else None)
      else Some(data.resolvedAddress)
  }

  /** A resolved address exists exactly for owned current-domain data, it is that data's
      address, and with `noGenesisAddress` it is never a creation address. */
  lemma GetResolvedAddressSpec(ens: EnsState, noGenesisAddress: bool, isCreationAddress: string -> bool)
    ensures var r, data := GetResolvedAddress(ens, noGenesisAddress, isCreationAddress), GetCurrentDomainData(ens);
      && (r.Some? <==> data.Some? && IsOwned(data.value)
                       && (noGenesisAddress ==> !isCreationAddress(data.value.resolvedAddress)))
      && (r.Some? ==> r.value == data.value.resolvedAddress)
      && (r.Some? && noGenesisAddress ==> !isCreationAddress(r.value))
  {
  }

  /** Without `noGenesisAddress` the address is returned as it is. */
  lemma ResolvedAddressWithoutFilter(ens: EnsState, isCreationAddress: string -> bool, other: string -> bool)
    ensures GetResolvedAddress(ens, false, isCreationAddress) == GetResolvedAddress(ens, false, other)
  {
  }

  /** `getResolvingDomain` */
  function GetResolvingDomain(ens: EnsState): (r: Option<bool>)
    ensures r.None? <==> ens.currentDomain == "" || ens.currentDomain !in ens.domainRequests
    ensures r.Some? ==> (r.value <==> ens.domainRequests[ens.currentDomain].state == Pending)
  {
    var currentDomain := ens.currentDomain;
    if currentDomain == "" || currentDomain !in ens.domainRequests then None
    else Some(ens.domainRequests[currentDomain].state == Pending)
  }
}
