# MyCrypto node balancer and state core, in Dafny

This project models the state and routing core of the MyCrypto web wallet and proves
properties of that model. The core has these parts:

- **The node balancer.**
  - The `nodes`, `workers` and `balancerConfig` reducers.
  - Their combination into one `nodeBalancer` slice.
  - The routing selectors that decide which RPC node a call goes to: online, supports the method, white-listed, not low-priority if that can be avoided, fewest busy workers, first wins on ties.
  - The call-id counter behind `nodeCallRequested`.
- **The saga channel** of `sagas/node/test.ts`. It holds a buffer of items and a queue of pending takers, and it refuses two forbidden states.
- **The smaller reducers:**
  - the configuration `meta` reducer;
  - the static node list;
  - the selected network.
- **The selectors:**
  - wallet tokens and balances, and the list of disabled wallets with their reasons;
  - ENS domain data;
  - transaction request status and broadcast status.
- **The DigitalBitbox error mapper.**

## Modelling conventions

- **JavaScript objects** used as dictionaries are `JsObject.Obj`: a map plus the key order that `Object.entries` visits. The first-wins choices of the router and of `find` depend on that order.
- **A throw** of a reducer is `Err` of a `Result`.
- **The actions** of every slice share one `ActionTypes.Action` datatype, because Redux hands every action to every reducer. `Unrelated` stands for an action of another slice.
- **Folds:**
  - A `reduce` is a recursive function, with an induction lemma that gives its meaning.
  - A loop that updates variables is a `method`. The router's least-busy loop, `addReason` and the channel's `close` are methods.
- **The channel** is a class with the source's mutable fields. Each of its methods is tied to a pure step function, which is the specification the lemmas talk about.
- **Callbacks** of takers are ids. What a callback is handed is appended to a delivery log.

## Model

| member | source | states |
|---|---|---|
| JsObject.Put | common/reducers/nodeBalancer/nodes.ts:85-88 | an object spread `{ ...o, [k]: v }` stores `v` under `k`, keeps an existing key in place and appends a new one last |
| JsObject.Delete | common/reducers/nodeBalancer/workers.ts:28-32 | deleting a key from a copy removes exactly that key and keeps the other keys |
| JsObject.RebuildSpec | common/reducers/nodeBalancer/nodes.ts:107-111 | rebuilding an object by `reduce` over its entries keeps exactly the entries the step keeps, in their original order, each mapped by the step |
| NodesReducer.InitialState | common/reducers/nodeBalancer/nodes.ts:36 | the node table starts empty |
| NodesReducer.NodesValid | common/reducers/nodeBalancer/nodes.ts:113-137 | every successful step leaves a well-formed object: no key repeated, the key order lists exactly the keys |
| NodesReducer.NodesFailsExactlyOnUnknownNode | common/reducers/nodeBalancer/nodes.ts:38-83 | the reducer throws exactly for WORKER_KILLED, WORKER_SPAWNED, NODE_ONLINE, NODE_OFFLINE and NODE_CALL_TIMEOUT on a node it does not hold, with the node's name as the fault |
| NodesReducer.WorkerSpawnedAppends | common/reducers/nodeBalancer/nodes.ts:50-60 | the worker id goes to the end of that node's `currWorkersById`; other fields, other nodes and the key order are unchanged |
| NodesReducer.WorkerKilledRemovesAll | common/reducers/nodeBalancer/nodes.ts:38-48 | every occurrence of the worker id leaves that node's list, the remaining ids keep their order, and nothing else changes |
| NodesReducer.NodeOnlineKeepsFailures | common/reducers/nodeBalancer/nodes.ts:62-71 | the node becomes online and the failure counter and every other field stay |
| NodesReducer.NodeOfflineResetsFailures | common/reducers/nodeBalancer/nodes.ts:73-83 | the node becomes offline with the failure counter reset to 0, nothing else changes |
| NodesReducer.NodeCallTimeoutCountsFailure | common/reducers/nodeBalancer/nodes.ts:96-105 | the node's `requestFailures` grows by exactly one, nothing else changes |
| NodesReducer.BalancerFlushResetsAll | common/reducers/nodeBalancer/nodes.ts:107-111 | the flush keeps the same keys in the same order and zeroes every node's failure counter, changing no other field |
| NodesReducer.FlushRebuilds | common/reducers/nodeBalancer/nodes.ts:107-111 | the flush's rebuild keeps every node, in order, with only its failure counter reset |
| NodesReducer.BalancerFlushIdempotent | common/reducers/nodeBalancer/nodes.ts:107-111 | flushing twice is flushing once |
| NodesReducer.NodeAddedStores | common/reducers/nodeBalancer/nodes.ts:85-88 | the given statistics are stored under the node's name and the other nodes are unchanged |
| NodesReducer.NodeRemovedAsWrittenKeepsNode | common/reducers/nodeBalancer/nodes.ts:90-94 | the handler as written returns its input's old contents, removed node included, while the input object loses the node |
| NodesReducer.InputAfterAsWritten | common/reducers/nodeBalancer/nodes.ts:92 | what the caller's object holds after the misplaced delete is still well formed |
| NodesReducer.NodeRemovedDeletes | common/reducers/nodeBalancer/nodes.ts:90-94 | node removal with the delete on the copy: the node is absent, the others keep their statistics and order |
| NodesReducer.UnhandledIsIdentity | common/reducers/nodeBalancer/nodes.ts:134-135 | an action without a case leaves the node table as it was |
| WorkersReducer.InitialState | common/reducers/nodeBalancer/workers.ts:26 | the worker table starts empty |
| WorkersReducer.FindWorkerFrom | common/reducers/nodeBalancer/workers.ts:52-54 | the search finds the first worker in key order whose payload has the call id, and finds none exactly when no remaining worker holds it |
| WorkersReducer.WorkersValid | common/reducers/nodeBalancer/workers.ts:82-100 | every successful step leaves a well-formed object |
| WorkersReducer.WorkerSpawnedRegisters | common/reducers/nodeBalancer/workers.ts:42-45 | the new entry has the node and task and no payload; the other workers are unchanged |
| WorkersReducer.WorkerKilledDeletes | common/reducers/nodeBalancer/workers.ts:28-32 | exactly that worker's key goes and the others stay unchanged |
| WorkersReducer.WorkerProcessingSetsPayload | common/reducers/nodeBalancer/workers.ts:34-40 | only that worker's `currentPayload` changes; for a known worker the keys and their order stay |
| WorkersReducer.CallFinishedClearsFirstHolder | common/reducers/nodeBalancer/workers.ts:47-80 | NODE_CALL_SUCCEEDED and NODE_CALL_TIMEOUT throw "worker not found" exactly when no worker holds the call, and otherwise clear the payload of the first holder only, keeping the keys |
| WorkersReducer.UnhandledIsIdentity | common/reducers/nodeBalancer/workers.ts:97-98 | an action without a case leaves the worker table as it was |
| BalancerConfigReducer.InitialState | common/reducers/nodeBalancer/balancerConfig.ts:10-13 | the balancer starts neither manual nor offline |
| BalancerConfigReducer.ModeSwitchSetsManualOnly | common/reducers/nodeBalancer/balancerConfig.ts:15-22 | BALANCER_AUTO clears `manual` and BALANCER_MANUAL sets it; `offline` is kept |
| BalancerConfigReducer.ModeSwitchIdempotent | common/reducers/nodeBalancer/balancerConfig.ts:15-22 | applying a mode switch twice equals applying it once |
| BalancerConfigReducer.UnhandledIsIdentity | common/reducers/nodeBalancer/balancerConfig.ts:33-34 | any other action leaves the configuration unchanged |
| NodeBalancer.InitialState | common/reducers/nodeBalancer/index.ts:12-16 | the combined initial state is well formed |
| NodeBalancer.NodeBalancerReducer | common/reducers/nodeBalancer/index.ts:12-16 | the combined reducer keeps the node and worker tables well formed |
| NodeBalancer.SameAssignmentKeepsAccounted | common/reducers/nodeBalancer/index.ts:12-16 | a step that changes neither the node worker lists nor the workers' assigned nodes keeps the "every listed worker exists on its node" invariant |
| NodeBalancer.SpawnKeepsAccounted | common/reducers/nodeBalancer/nodes.ts:50-60 | a spawn with a fresh worker id keeps the invariant |
| NodeBalancer.SpawnedTablesAccounted | common/reducers/nodeBalancer/nodes.ts:50-60 | appending a fresh worker to one node's list and registering it on that node keeps the invariant |
| NodeBalancer.KillKeepsAccounted | common/reducers/nodeBalancer/nodes.ts:38-48 | killing a worker on its own node keeps the invariant |
| NodeBalancer.NodeAddedKeepsAccounted | common/reducers/nodeBalancer/nodes.ts:85-88 | adding a node that lists only workers assigned to it keeps the invariant |
| NodeBalancer.ProcessingKeepsAccounted | common/reducers/nodeBalancer/workers.ts:34-40 | WORKER_PROCESSING keeps the invariant |
| NodeBalancer.CallSucceededKeepsAccounted | common/reducers/nodeBalancer/workers.ts:47-62 | a successful call keeps the invariant |
| NodeBalancer.CallTimeoutKeepsAccounted | common/reducers/nodeBalancer/workers.ts:65-80 | a timed-out call, which also counts a failure on its node, keeps the invariant |
| NodeBalancer.SameWorkersKeepAccounted | common/reducers/nodeBalancer/workers.ts:34-80 | a step that keeps every worker and its assigned node keeps the invariant |
| NodeBalancer.SameListsKeepAccounted | common/reducers/nodeBalancer/nodes.ts:62-111 | a step that keeps every node's worker list keeps the invariant |
| NodeBalancer.KilledTablesAccounted | common/reducers/nodeBalancer/workers.ts:28-32 | removing a worker from the table and from its own node's list keeps the invariant |
| WorkersReducer.CallFinishedKeepsAssignment | common/reducers/nodeBalancer/workers.ts:47-80 | a finished call keeps every worker, with its assigned node |
| NodeBalancer.NodeStatusKeepsAccounted | common/reducers/nodeBalancer/nodes.ts:62-83 | online, offline and flush keep the invariant |
| NodeBalancer.FewerNodesKeepAccounted | common/reducers/nodeBalancer/nodes.ts:90-94 | dropping nodes keeps the invariant for the nodes that stay |
| NodeBalancer.NodeRemovedKeepsAccounted | common/reducers/nodeBalancer/nodes.ts:90-94 | the corrected node removal, which deletes the node from the copy it returns, never throws and keeps the invariant |
| NodeBalancer.NodeBalancerKeepsAccounted | common/reducers/nodeBalancer/index.ts:12-16 | the invariant holds initially, and every successful step of an action the sagas could dispatch keeps it |
| NodeBalancer.AccountedBusyDefined | common/selectors/nodeBalancer/index.ts:109-112 | under the invariant every node's busy count is defined |
| NodeBalancer.Route | common/selectors/nodeBalancer/index.ts:82-124 | under the invariant routing succeeds exactly when some node is eligible, never meets a missing worker, and picks an eligible node |
| NodeSelectors.GetAvailableNodes | common/selectors/nodeBalancer/index.ts:38-51 | the result holds exactly the online nodes, with unchanged statistics, in the original order |
| NodeSelectors.UnionFromSpec | common/selectors/nodeBalancer/index.ts:58-71 | the merged method table marks a method exactly when some node marks it |
| NodeSelectors.AndFromSpec | common/selectors/nodeBalancer/index.ts:73-76 | the conjunction over the method list is true exactly when every listed method is available |
| NodeSelectors.GetAllMethodsAvailableIff | common/selectors/nodeBalancer/index.ts:53-77 | true exactly when every method of `allMethods` is supported by at least one online node |
| NodeSelectors.BusyFromSpec | common/selectors/nodeBalancer/index.ts:109-112 | the count is defined exactly when every id is a known worker, and then is the accumulator plus the number of workers with a payload |
| NodeSelectors.BusyCountSpec | common/selectors/nodeBalancer/index.ts:109-112 | a node's busy count is the number of its listed workers with a non-null payload, at most the list's length |
| NodeSelectors.SupportingNodesSpec | common/selectors/nodeBalancer/index.ts:86-90 | the first two stages keep, in order, the online nodes that support the method |
| NodeSelectors.CandidatesOrder | common/selectors/nodeBalancer/index.ts:86-95 | the three filter stages are one filter by eligibility over the node order |
| NodeSelectors.CandidatesSpec | common/selectors/nodeBalancer/index.ts:86-95 | a node is a candidate exactly when it is online, supports the method and is white-listed when a list is given; no candidate repeats |
| NodeSelectors.Prioritized | common/selectors/nodeBalancer/index.ts:98-104 | every prioritized node is eligible |
| NodeSelectors.PrioritizedAvoidsLowPriority | common/selectors/nodeBalancer/index.ts:98-104 | when some candidate is not low-priority the list is the non-empty set of such candidates, in order |
| NodeSelectors.PrioritizedKeepsAllLowPriority | common/selectors/nodeBalancer/index.ts:98-104 | when every candidate is low-priority the router falls back to all of them |
| NodeSelectors.PrioritizedSpec | common/selectors/nodeBalancer/index.ts:98-104 | the prioritized list is a duplicate-free subset of the candidates and is empty only when there is no candidate |
| NodeSelectors.SelectLeastBusy | common/selectors/nodeBalancer/index.ts:106-123 | the loop picks a node of minimum busy count and, among those, the earliest; it fails on an empty list and exactly when some busy count is undefined |
| NodeSelectors.GetAvailableNodeId | common/selectors/nodeBalancer/index.ts:82-124 | the chosen node is eligible and the first of least busy count in the prioritized list; no node exactly when that list is empty |
| NodeSelectors.SelectedAvoidsLowPriority | common/selectors/nodeBalancer/index.ts:98-104 | when some candidate is not low-priority, the chosen node is not low-priority |
| ActionCreators.CallIdCounter.constructor | common/actions/nodeBalancer/actionCreators.ts:60 | the counter starts at 0 with no id issued |
| ActionCreators.CallIdCounter.NodeCallRequested | common/actions/nodeBalancer/actionCreators.ts:59-67 | the request carries the caller's payload with the current counter as `callId`; the counter grows by one, and the ids issued are fresh and strictly increasing |
| ActionCreators.FirstRequests | common/actions/nodeBalancer/actionCreators.ts:59-67 | three requests from a new counter get the ids 0, 1 and 2 |
| Channel.CheckForbiddenStates | common/sagas/node/test.ts:9-16 | the check passes exactly in an allowed state; it reports a closed channel with pending takers exactly when that is the case |
| Channel.OperationsPreserveAllowed | common/sagas/node/test.ts:18-80 | the initial channel is allowed, and put, take, flush, close and cancel keep an allowed channel allowed without throwing |
| Channel.ForbiddenStateThrows | common/sagas/node/test.ts:9-16 | in a forbidden state every operation throws and changes nothing |
| Channel.PutOnClosedIsNoop | common/sagas/node/test.ts:25-27 | a put on a closed channel changes nothing and delivers nothing |
| Channel.CloseEndsTakers | common/sagas/node/test.ts:67-80 | close hands `END` to every pending taker in order and leaves none; a second close changes nothing |
| Channel.ClosedEmptyDeliversEnd | common/sagas/node/test.ts:43-62 | on a closed channel with an empty buffer, a take and a flush each hand `END` to their callback and change nothing |
| Channel.FlushDrains | common/sagas/node/test.ts:53-65 | a flush of an open or non-empty channel hands over the whole buffer at once and empties it |
| Channel.CancelRemovesTaker | common/sagas/node/test.ts:49 | cancelling removes exactly one occurrence of that taker, and nothing when it is not pending |
| Channel.PutAllBuffers | common/sagas/node/test.ts:28-30 | with no takers, successive puts append to the buffer in order |
| Channel.PutAllServesTakers | common/sagas/node/test.ts:31-33 | successive puts serve the pending takers oldest first, one item each |
| Channel.TakeAllDrainsBuffer | common/sagas/node/test.ts:45-47 | successive takes receive the buffered items oldest first |
| Channel.TakeAllQueues | common/sagas/node/test.ts:48-50 | on an open, empty channel successive takes queue up in order |
| Channel.Ends | common/sagas/node/test.ts:74-76 | `END` goes to each taker in the order given |
| Channel.EndsConcat | common/sagas/node/test.ts:74-76 | ending two queues of takers one after the other is ending their concatenation |
| Channel.Chan.constructor | common/sagas/node/test.ts:1-3 | a new channel is open, with no takers, an empty buffer and nothing delivered |
| Channel.Chan.Put | common/sagas/node/test.ts:18-34 | the object's state and delivery log move as the put step says |
| Channel.Chan.Take | common/sagas/node/test.ts:36-51 | the object's state and delivery log move as the take step says |
| Channel.Chan.Flush | common/sagas/node/test.ts:53-65 | the object's state and delivery log move as the flush step says |
| Channel.Chan.Close | common/sagas/node/test.ts:67-80 | the loop over the takers delivers `END` to each in order and ends closed with no takers |
| Channel.Chan.Cancel | common/sagas/node/test.ts:49 | the taker leaves the queue as the cancel step says, and nothing is delivered |
| Channel.FifoScenario | common/sagas/node/test.ts:18-51 | two puts then two takes, and two takes then two puts, both deliver in first-in first-out order |
| MetaReducer.InitialState | common/reducers/config/meta/meta.ts:16-21 | the initial meta state is English, online, with automatic gas limits, latest block unknown |
| MetaReducer.ToggleOfflineInvolution | common/reducers/config/meta/meta.ts:37-42 | the offline toggle flips only `offline`, and twice is the identity |
| MetaReducer.ToggleAutoGasLimitInvolution | common/reducers/config/meta/meta.ts:44-49 | the auto-gas toggle flips only `autoGasLimit`, and twice is the identity |
| MetaReducer.SettersChangeOneField | common/reducers/config/meta/meta.ts:30-56 | changing the language or setting the latest block changes that field only |
| MetaReducer.NetworkSwitchForcesOffline | common/reducers/config/meta/meta.ts:23-73 | a network switch request always leaves the wallet offline, changing nothing else |
| MetaReducer.UnhandledIsIdentity | common/reducers/config/meta/meta.ts:74-75 | any other action leaves the state unchanged |
| StaticNodesReducer.InitialState | common/reducers/config/nodes/staticNodes.ts:10-98 | ten static nodes in their declared order, none custom, no web3 node |
| StaticNodesReducer.Web3SetStores | common/reducers/config/nodes/staticNodes.ts:102-103 | the configuration is stored under the given id; every other entry stays |
| StaticNodesReducer.Web3UnsetRemovesWeb3 | common/reducers/config/nodes/staticNodes.ts:104-107 | only the `web3` entry goes; every other entry stays, and an absent web3 leaves the state unchanged |
| StaticNodesReducer.UnhandledIsIdentity | common/reducers/config/nodes/staticNodes.ts:108-109 | any other action leaves the node list unchanged |
| SelectedNetworkReducer.InitialState | common/reducers/config/networks/selectedNetwork.ts:6 | the selected network starts as ETH |
| SelectedNetworkReducer.NetworkChangeIgnoresState | common/reducers/config/networks/selectedNetwork.ts:8-13 | a network change yields its network id, whatever the previous state |
| SelectedNetworkReducer.UnhandledIsIdentity | common/reducers/config/networks/selectedNetwork.ts:14-15 | any other action leaves the selection unchanged |
| WalletSelectors.GetTokens | common/selectors/wallet.ts:41-52 | the network tokens, unmarked, followed by the custom tokens, marked custom; the length is the sum |
| WalletSelectors.GetTokensMarksCustom | common/selectors/wallet.ts:46-49 | a merged token is marked custom exactly when it comes from the custom list |
| WalletSelectors.GetToken | common/selectors/wallet.ts:67-71 | the first token with the symbol, and none exactly when no token has it |
| WalletSelectors.MatchSymbolsSpec | common/selectors/wallet.ts:61-63 | one token per config symbol that has one, in config order, each the first token with that symbol |
| WalletSelectors.GetWalletConfigTokensSpec | common/selectors/wallet.ts:54-65 | empty without a config or config tokens; otherwise the first match for each config symbol, unmatched symbols dropped |
| WalletSelectors.GetTokenBalances | common/selectors/wallet.ts:73-88 | one entry per token in token order; a symbol without a balance record gets balance 0 and no error |
| WalletSelectors.GetNonZeroTokenBalancesSpec | common/selectors/wallet.ts:90-92 | an order-preserving subsequence holding every non-zero balance as often as it occurs and no zero balance |
| WalletSelectors.GetTokenWithBalance | common/selectors/wallet.ts:102-106 | the first balance in the list with the symbol, and none exactly when no balance has it |
| WalletSelectors.GetTokenBalance | common/selectors/wallet.ts:94-100 | the amount of the first balance in the list with the symbol, and null exactly when there is none |
| WalletSelectors.TokenBalanceNullIffNoToken | common/selectors/wallet.ts:73-100 | over the derived balances, the balance is null exactly when no token has the symbol |
| WalletSelectors.GetShownSpec | common/selectors/wallet.ts:144-153 | an order-preserving subsequence holding every balance whose symbol the config lists, as often as it occurs, and no other; nothing without a config or without a token list |
| WalletSelectors.AddReason | common/selectors/wallet.ts:172-181 | the wallets are appended and each gets the reason, later reasons overriding earlier ones |
| WalletSelectors.UnsupportedStage | common/selectors/wallet.ts:184-187 | the network's unsupported wallets are listed with the network's reason |
| WalletSelectors.OfflineStage | common/selectors/wallet.ts:190-195 | offline adds WEB3 and TREZOR with the offline reason |
| WalletSelectors.DownloadableStage | common/selectors/wallet.ts:198-200 | the downloadable build adds the Ledger with its reason |
| WalletSelectors.ElectronStage | common/selectors/wallet.ts:201-203 | the desktop build adds WEB3 with its reason |
| WalletSelectors.AddAllReasons | common/selectors/wallet.ts:183-203 | the four rules applied in order give the listed wallets and their last reasons |
| WalletSelectors.DedupeSortSpec | common/selectors/wallet.ts:206-208 | dedupe then sort gives a sorted, duplicate-free list of the same wallets |
| WalletSelectors.GetDisabledWallets | common/selectors/wallet.ts:164-211 | sorted and duplicate-free; a wallet is listed exactly when it has a reason and exactly when a rule disables it; its reason is the last rule's; offline lists WEB3 and TREZOR |
| EnsSelectors.GetCurrentDomainData | common/selectors/ens.ts:18-29 | null without a current domain, without a request for it or when that request has an error; otherwise the request's data |
| EnsSelectors.GetResolvedAddressSpec | common/selectors/ens.ts:31-45 | null without data or owner; with the genesis filter the address only if it is not a creation address |
| EnsSelectors.ResolvedAddressWithoutFilter | common/selectors/ens.ts:39-44 | without the filter the resolved address is returned as is whenever there is an owner |
| EnsSelectors.GetResolvingDomain | common/selectors/ens.ts:47-56 | null without a domain or request; otherwise true exactly when the request is pending |
| TransactionNetworkSelectors.AnyPendingFromSpec | common/selectors/transaction/network.ts:13-20 | the fold over the statuses is true exactly when some status is a pending request |
| TransactionNetworkSelectors.IsNetworkRequestPendingIff | common/selectors/transaction/network.ts:13-20 | pending exactly when some request status is REQUESTED |
| TransactionNetworkSelectors.GasEstimationFlags | common/selectors/transaction/network.ts:13-28 | gas estimation is never both pending and timed out, and a pending estimation makes a network request pending |
| TransactionNetworkSelectors.NonceFailureNotPending | common/selectors/transaction/network.ts:9-20 | with the nonce request failed, the network is pending exactly when some other request is REQUESTED |
| BroadcastSelectors.GetTransactionStatus | common/selectors/transaction/broadcast.ts:9-11 | the broadcast entry for the hash, none when absent |
| BroadcastSelectors.GetCurrentTransactionStatus | common/selectors/transaction/broadcast.ts:31-38 | false without an indexing hash; otherwise the entry for that hash |
| BroadcastSelectors.BroadcastFlagsSpec | common/selectors/transaction/broadcast.ts:13-29 | failed exactly when the entry exists and is not successful; broadcasting exactly when it exists and is broadcasting; broadcasted exactly when it exists and is not broadcasting; never broadcasting and broadcasted together |
| DigitalBitbox.ParseErrorObjectSpec | common/libs/wallet/digitalbitbox.js:12-35 | codes 3, 4 and 5 give their fixed messages, any other non-zero code the unknown-error message, and a missing or zero code the device parser's answer |
| DigitalBitbox.U2fCodeIgnoresDeviceParser | common/libs/wallet/digitalbitbox.js:13-29 | with a non-zero code the result does not depend on the device parser |
| Seqs.FilterMultiset | common/selectors/wallet.ts:90-92 | a filter keeps every occurrence of a kept element and none of a dropped one |
| Seqs.DedupeSpec | common/selectors/wallet.ts:206-207 | keeping each name at its first index gives a duplicate-free list with the same names |
| Seqs.Find | common/selectors/wallet.ts:67-71 | `find` returns the first element that satisfies the predicate, and none exactly when no element does |
| StringOrder.SortSpec | common/selectors/wallet.ts:208 | the reference sort of `Array.prototype.sort` on strings gives a sorted permutation |

## Left out

- The node saga `common/sagas/node/node.ts` is not part of this model. It is generator-based concurrency (races against timers, spawned and cancelled tasks), and it calls selectors that are not defined. The `Sensible` precondition of `NodeBalancer.NodeBalancerKeepsAccounted` stands for what those sagas would have to guarantee: fresh worker ids, and kills on the assigned node.
- The behaviours that have no code are not modelled: a retry budget, an avoid-list, health polling, and enforcement of `maxWorkers` on spawn.
- The runtime `Proxy` of `common/libs/nodes/index.ts` is not part of this model. It relies on reflection over prototypes.
- UI components, the timer race in `sagas/helpers.ts`, the store's localStorage and middleware, and the webpack plugin are all I/O or rendering. They are not modelled.
- The `combineReducers` library call is modelled only as the record of three slices reduced in order, with the first throw winning.
- NodesReducer.Nodes: NODE_REMOVED follows the corrected handler `HandleNodeRemoved`, which deletes the node from the copy it returns. The handler as written, which returns the stale copy and deletes from the input, is `HandleNodeRemovedAsWritten` with `InputAfterAsWritten` (see Findings). `NodeBalancer.NodeBalancerReducer` and every lemma built on `Nodes` are therefore about the corrected removal.
- NodesReducer.Nodes: NODE_ONLINE and NODE_OFFLINE on a node not in the table are modelled as a throw. The source spreads `undefined` and stores a partial record with only the status fields. Such a record has no field a full `NodeStats` can leave out.
- Type-level mismatches are resolved as the code uses the values, and are treated as modelling assumptions:
  - `supportedMethods` is a map from method name to flag.
  - `nodeWhiteList` and `minPriorityNodeList` are lists of node names.
  - WORKER_SPAWNED's node is the action's `nodeName`. `workers.ts:44` reads `payload.nodeId`.
  - A finished call's id is `payload.nodeCall.callId`, the call carried by the action.
- `getWorkersById` and `getNodeStatsById` are plain lookups. They are `JsObject.Get` on the two tables and have no contract of their own.
- Reselect memoisation, and the reference-equality tests built on it, are not modelled. `getWalletType` is left out because it tests `instanceof` on wallet classes.
- Inputs from outside the model are parameters of the selectors that need them:
  - the `BUILD_DOWNLOADABLE` and `BUILD_ELECTRON` build flags;
  - `unSupportedWalletFormatsOnNetwork`;
  - `isCreationAddress`;
  - the device library's `parseError`;
  - the names of the secure wallets.
- StaticNodesReducer.Static: the source builds two client objects per built-in node, a plain one for `lib` and a promise-based one for `pLib`. Both are one (kind, endpoint) descriptor here, because no modelled operation calls a client.
- Big-number token values and all numeric fields are unbounded integers. A token balance is a `nat`, and "non-zero" is `> 0`.
- StringOrder.Sort: strings are ordered character by character on Dafny's `char` values, which are Unicode code points. `Array.prototype.sort` compares UTF-16 code units. The two orders differ only for characters outside the Basic Multilingual Plane. The sorting algorithm is a reference insertion sort. Only its result, which is unique, is claimed.
- The redux-saga expanding buffer is an unbounded first-in first-out sequence.
- The channel's forbidden-state check runs before every put, take, flush and close, as in the source, where it is unconditional. A forbidden state is reported as a failed outcome that changes nothing.
- Channel.Chan.Put: the development-mode type checks are not modelled: `is.buffer` on the buffer at creation, `is.notUndef` on a put's input (which throws UNDEFINED_INPUT_ERROR), and `is.func` on the take and flush callbacks. A model value is never undefined and callbacks are ids, so these checks have no case to reject.
- Channel.Chan: takers' callbacks are ids, and what they are called with is appended to a delivery log. No callback code runs.
- The plain action creators of `actionCreators.ts` are the constructors of `ActionTypes.Action`. They carry their payload unchanged by construction, and have no separate members.
- Selectors that return `false`, `null` or `undefined` are modelled on `Option`, or as a truthiness flag where the callers only test truthiness.
  - A token's absent `custom` is `false`.
  - An empty string stands for a falsy domain or address.
- StaticNodesReducer.StaticNodes: the copy made before `delete` is implicit, because values are immutable, so the input is never modified.
- The accessor-only selectors of the ENS and transaction files (`getEns`, `getNetworkStatus`, the per-request status getters) are field reads, and are inlined.
- Object keys are assumed not to look like array indices. JavaScript would visit such keys first, in numeric order.

## Findings

| source | as written | input that shows it | evidently intended | confidence | as-written member | corrected member |
|---|---|---|---|---|---|---|
| common/reducers/nodeBalancer/nodes.ts:90-94 | `handleNodeRemoved` copies the state, then deletes the node from the input object and returns the untouched copy | NODE_REMOVED("a") on a table that holds "a": the result still holds "a", and the caller's previous state has silently lost it | delete the node from the copy and return the copy, as the other reducers do | high, not executed | NodesReducer.NodeRemovedAsWrittenKeepsNode | NodesReducer.NodeRemovedDeletes |
