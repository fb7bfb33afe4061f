/** The `staticNodes` reducer of reducers/config/nodes/staticNodes.ts: the built-in node
    configurations by id, plus the `web3` entry the user's browser wallet adds. */
module StaticNodesReducer {
  import opened Wrappers
  import opened JsObject
  import Seqs
  import opened StateTypes
  import opened ActionTypes

  type State = Obj<NodeConfig>

  function Rpc(url: string): NodeLib { NodeLib(RpcNode, url) }
  function Etherscan(url: string): NodeLib { NodeLib(EtherscanNode, url) }
  function Infura(url: string): NodeLib { NodeLib(InfuraNode, url) }

  /** A built-in configuration. The source builds two client objects for the endpoint, a
      plain one for `lib` and a promise-based one for `pLib`; both are collapsed here into
      the one (kind, endpoint) descriptor. */
  function Static(network: string, service: string, lib: NodeLib, estimateGas: bool): NodeConfig {
    NodeConfig(network, false, service, lib, lib, estimateGas)
  }

  const StaticIds: seq<string> := [
    "eth_mycrypto", "eth_ethscan", "eth_infura", "rop_infura", "kov_ethscan",
    "rin_ethscan", "rin_infura", "etc_epool", "ubq", "exp_tech"
  ]

  /** The configurations of `INITIAL_STATE`, by id. */
  const StaticConfigs: map<string, NodeConfig> := map[
    "eth_mycrypto" := Static("ETH", "MyCrypto", Rpc("https://api.mycryptoapi.com/eth"), true),
    "eth_ethscan" := Static("ETH", "Etherscan.io", Etherscan("https://api.etherscan.io/api"), false),
    "eth_infura" := Static("ETH", "infura.io", Infura("https://mainnet.infura.io/mew"), false),
    "rop_infura" := Static("Ropsten", "infura.io", Infura("https://ropsten.infura.io/mew"), false),
    "kov_ethscan" := Static("Kovan", "Etherscan.io", Etherscan("https://kovan.etherscan.io/api"), false),
    "rin_ethscan" := Static("Rinkeby", "Etherscan.io", Etherscan("https://rinkeby.etherscan.io/api"), false),
    "rin_infura" := Static("Rinkeby", "infura.io", Infura("https://rinkeby.infura.io/mew"), false),
    "etc_epool" := Static("ETC", "Epool.io", Rpc("https://mewapi.epool.io"), false),
    "ubq" := Static("UBQ", "ubiqscan.io", Rpc("https://pyrus2.ubiqscan.io"), true),
    "exp_tech" := Static("EXP", "Expanse.tech", Rpc("https://node.expanse.tech/"), true)
  ]

  lemma StaticIdsDistinct()
    ensures Seqs.NoDuplicates(StaticIds)
  {
  }

  lemma StaticConfigsShape()
    ensures forall k :: k in StaticConfigs <==> k in StaticIds
    ensures forall k :: k in StaticConfigs ==> !StaticConfigs[k].isCustom
  {
  }

  /** `INITIAL_STATE`, in declaration order. */
  function InitialState(): (r: State)
    ensures Valid(r)
    ensures r.keys == StaticIds && |r.keys| == 10
    ensures forall k :: k in r.vals ==> !r.vals[k].isCustom
    ensures "web3" !in r.vals
  {
    StaticIdsDistinct();
    StaticConfigsShape();
    Obj(StaticIds, StaticConfigs)
  }

  function StaticNodes(state: State, a: Action): State
    requires Valid(state)
  {
    match a
    case ConfigNodeWeb3Set(id, config) => Put(state, id, config)
    case ConfigNodeWeb3Unset => Delete(state, "web3")
    case _ => state
  }

  /** Setting maps the id to the configuration and leaves every other entry alone. */
  lemma Web3SetStores(state: State, id: string, config: NodeConfig)
    requires Valid(state)
    ensures var r := StaticNodes(state, ConfigNodeWeb3Set(id, config));
      && Valid(r)
      && Get(r, id) == Some(config)
      && forall k :: k != id ==> Get(r, k) == Get(state, k)
  {
  }

  /** Unsetting removes the `web3` entry only, keeping the others and their order. */
  lemma Web3UnsetRemovesWeb3(state: State)
    requires Valid(state)
    ensures var r := StaticNodes(state, ConfigNodeWeb3Unset);
      && Valid(r)
      && Get(r, "web3") == None
      && (forall k :: k != "web3" ==> Get(r, k) == Get(state, k))
      && ("web3" !in state.vals ==> r == state)
  {
    if "web3" !in state.vals {
      DeleteAbsent(state, "web3");
    }
  }

  lemma UnhandledIsIdentity(state: State, a: Action)
    requires Valid(state) && !a.ConfigNodeWeb3Set? && !a.ConfigNodeWeb3Unset?
    ensures StaticNodes(state, a) == state
  {
  }
}
