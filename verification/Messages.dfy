/** The records that travel between clients and hubs (internal/protocol/protocol.go). Times are nanoseconds. */
module Messages {
  import opened Base

  datatype ClipSnapshot = ClipSnapshot(payload: gostring, encrypted: bool, hash: gostring, localModifiedAtUtc: int)

  datatype ClientHello = ClientHello(clientId: gostring, clientName: gostring, lastServerVersion: uint64,
                                     snapshot: Option<ClipSnapshot>)

  datatype ClientClip = ClientClip(id: gostring, payload: gostring, encrypted: bool, hash: gostring)

  datatype LatestText = LatestText(payload: gostring, version: uint64, hash: gostring, encrypted: bool,
                                   fromClientId: gostring, fromClientName: gostring, updatedAtUtc: int)

  function LatestFromSnapshot(s: ClipSnapshot, version: uint64, clientId: gostring, clientName: gostring): LatestText {
    LatestText(s.payload, version, s.hash, s.encrypted, clientId, clientName, s.localModifiedAtUtc)
  }
}
