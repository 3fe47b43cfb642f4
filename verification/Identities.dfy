/** What a panel reports about one remote account, and the identities by which accounts are told apart. */
module Identities {
  import opened Prelude

  // A salted digest of an identifier; two digests are equal exactly when their identifiers are.
  datatype Hash = Hash(identifier: string)

  // The scope under which a remote counter row is stored; the digest of this tuple keys the stored counters.
  datatype RowKey = RowKey(panel: nat, node: string, remoteInbound: string, identity: Hash)

  datatype RemoteStatus = ExpiredRemotely | LimitedRemotely | OtherRemoteStatus

  // The measurable part of a remote row. A counter is None when the panel did not give an integer.
  datatype Reading = Reading(
    used: Option<int>, up: Option<int>, down: Option<int>,
    capturedAt: Instant, quota: Option<int>, expiry: Option<Instant>,
    remoteStatus: RemoteStatus, enabled: Option<bool>)

  datatype RemoteRow = RemoteRow(
    panel: nat, inbound: Option<nat>, remoteInbound: string, node: string,
    identity: Hash, aliases: set<Hash>, statsAvailable: bool, reading: Reading)

  function Key(row: RemoteRow): RowKey {
    RowKey(row.panel, row.node, row.remoteInbound, row.identity)
  }
}
