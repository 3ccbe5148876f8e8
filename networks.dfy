/**
 * The front end's table of supported chains (frontend/src/lib/networks.ts):
 * a constant record from chain id to a display name, and a predicate that
 * says whether a chain id has a (non-empty) name in it.
 */
module Networks {

  const HardhatChainId: int := 31337
  const SepoliaChainId: int := 11155111

  /** `SUPPORTED_NETWORKS`: chain id to display name. */
  const SupportedNetworks: map<int, string> :=
    map[HardhatChainId := "Hardhat", SepoliaChainId := "Sepolia"]

  /**
   * `isSupportedNetwork`: `Boolean(SUPPORTED_NETWORKS[chainId])`. A missing
   * key reads as `undefined` and an empty name as `""`; both are falsy.
   */
  function IsSupportedNetwork(chainId: int): (supported: bool)
    ensures supported <==> chainId == HardhatChainId || chainId == SepoliaChainId
  {
    chainId in SupportedNetworks && SupportedNetworks[chainId] != ""
  }

  /** The table holds exactly the two chains, under their names. */
  lemma SupportedNetworksTable()
    ensures SupportedNetworks.Keys == {HardhatChainId, SepoliaChainId}
    ensures SupportedNetworks[HardhatChainId] == "Hardhat"
    ensures SupportedNetworks[SepoliaChainId] == "Sepolia"
  {
  }

  /**
   * Every name in the table is non-empty, so the truthiness test of
   * `isSupportedNetwork` is exactly key membership.
   */
  lemma SupportedIsKeyMembership(chainId: int)
    ensures IsSupportedNetwork(chainId) <==> chainId in SupportedNetworks
  {
  }
}
