/** A discovered or connected peer (src/peer.rs, PeatPeer). */
module Peers {
  import opened Common

  datatype PeatPeer = PeatPeer(
    nodeId: NodeId,
    identifier: string,
    meshId: Option<string>,
    name: Option<string>,
    rssi: i8,
    isConnected: bool,
    lastSeenMs: u64)
  {
    function Touch(nowMs: u64): (r: PeatPeer) {
      this.(lastSeenMs := nowMs)
    }

    // A peer never seen is not stale.
    predicate IsStale(nowMs: u64, timeoutMs: u64) {
      lastSeenMs != 0 && SaturatingSub(nowMs, lastSeenMs) > timeoutMs
    }
  }

  function NewPeer(nodeId: NodeId, identifier: string, meshId: Option<string>, name: Option<string>,
                   rssi: i8): (r: PeatPeer) {
    PeatPeer(nodeId, identifier, meshId, name, rssi, false, 0)
  }
}
