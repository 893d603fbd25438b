/**
 * The parts of the cloud API's answers that the reconciliation reads, and
 * the three calls it can issue (src/main.rs:130-195). The HTTP clients
 * themselves are not modelled: their answers come in as values.
 */
module Hcloud {

  import opened Wrappers

  /** A failed request (network, authentication, rate limit, timeout). */
  datatype CloudError = CloudError(message: string)

  /** The answer to one request: its payload, or the error it failed with. */
  datatype Response<+T> = Success(value: T) | Failure(error: CloudError)

  /** A floating IP as listed by the API; `server` is the server it is attached to, if any. */
  datatype FloatingIp = FloatingIp(id: int, name: string, server: Option<int>)

  /** The public network of a server: the ids of the floating IPs assigned to it. */
  datatype PublicNet = PublicNet(floatingIps: seq<int>)

  /** A server as listed by the API. */
  datatype Server = Server(id: int, name: string, publicNet: PublicNet)

  /** A request the reconciliation sends to the cloud API. */
  datatype Call =
    | ListFloatingIps(name: string)
    | ListServers(name: string)
    | AssignFloatingIp(floatingIpId: int, serverId: int)
}
