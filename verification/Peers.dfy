/**
  The peer record the selectors read. The selectors never change a record;
  they only choose, reorder and copy records.
 */
module Peers {
  import opened Collections

  /** Attribute fields a node advertises for one module (never inspected by the selectors). */
  type ModuleData = map<string, string>

  /**
    A known peer: its network identity, the direction of its connection
    (`kind`, "outbound" or "inbound" when connected, anything else otherwise),
    and the modules it advertises. `modules` is `None` when the record has no
    `modules` object at all.
   */
  datatype Peer = Peer(
    ipAddress: string,
    wsPort: int,
    kind: string,
    modules: Option<map<string, ModuleData>>)

  /** The local node's own advertised information, handed through to the default selectors. */
  datatype NodeInfo = NodeInfo(modules: Option<map<string, ModuleData>>)

  const OutboundKind: string := "outbound"
  const InboundKind: string := "inbound"

  predicate IsOutbound(p: Peer)
  {
    p.kind == OutboundKind
  }

  predicate IsInbound(p: Peer)
  {
    p.kind == InboundKind
  }

  /** No peer is both outbound and inbound: the two kinds are different strings. */
  lemma DirectionsExclusive()
    ensures forall p :: IsOutbound(p) ==> !IsInbound(p)
  {
  }

  /** `peerInfo.modules && peerInfo.modules[moduleName]`, read as "the module is a key of the map". */
  predicate Advertises(p: Peer, moduleName: string)
  {
    p.modules.Some? && moduleName in p.modules.value
  }
}
