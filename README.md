# lease2fip-hcloud: the reconciliation core in Dafny

lease2fip-hcloud keeps Hetzner Cloud floating IPs on the node that holds
Cilium's L2-announcement lease for a service. This project models its core.

- **The lease table** (`Config.dfy`). At startup `main` turns the
  configured floating IPs into a map from lease name to floating-IP name.
  The lease name is `"cilium-l2announce-" + namespace + "-" + service`.
- **The per-event reconciliation** of `handle_update` (`Reconciliation.dfy`).
  It takes one lease event (lease name and holder identity) and does these steps:
  1. Look up the floating IP for the lease.
  2. Skip the event when the holder cache already records this holder.
  3. List the floating IP by name, then the holder's server by name.
  4. Assign the floating IP unless the server's public network already lists it.
  5. Record the holder in the cache only when nothing failed.

  Every path returns `Ok` to the watch loop.

The cloud API is replaced by its answers (`CloudAnswers`): the floating-IP
listing, the server listing and the assignment outcome. The model records
which requests the event would issue (`Call`). `Reconcile` states the effect of
one event as a value: the requests issued and the new holder cache.
`Reconciler.HandleUpdate` is the in-place procedure. It updates the cache
field of the `Reconciler` class and is proved to have exactly the effect
`Reconcile` describes. `Replay` chains events, as the watch loop delivers
them one at a time.

The ordering of the entries `collect()` visits is a parameter (`order`). A
`HashMap` iteration order is unspecified, and when two services share a lease
name the entry visited last wins (`TableLastWins`). Two services can share a
lease name because namespaces may contain dashes (`LeaseNameAmbiguous`).

How repeated events behave:

- The assignment is skipped when the server's `public_net.floating_ips`
  contains the floating IP's id (src/main.rs:174). The floating IP's own
  attached-server field is never read (`AttachmentFieldIgnored`,
  `AssignDespiteAttachmentField`).
- Identical events are silent only after the first one that completes. A
  failed lookup or assignment leaves the cache as it was, so the next
  identical event tries again (`FailedAssignRepeats`,
  `IdenticalEventsQuietAfterFirstSuccess`).

## Model

| member | source | states |
|---|---|---|
| `Config.BuildTable` | src/main.rs:66-80 | every configured entry's lease name is a key; every key maps to a configured floating IP whose service yields exactly that lease name |
| `Config.TableLastWins` | src/main.rs:66-80 | among entries sharing a lease name, the table keeps the one collected last |
| `Config.TableOfConfig` | src/main.rs:66-80 | without lease-name collisions, each configured service's lease name maps to its own floating IP and the table has no other keys |
| `Config.LeaseNameInjectiveInName` | src/main.rs:72-75 | within one namespace, equal lease names mean equal services |
| `Config.LeaseNameInjectiveWithoutDash` | src/main.rs:72-75 | when namespaces contain no dash, the lease name determines namespace and service name |
| `Config.LeaseNameAmbiguous` | src/main.rs:72-75 | two different services (`a-b/c` and `a/b-c`) share one lease name |
| `Reconciliation.Reconcile` | src/main.rs:102-203 | the cache is unchanged or gains exactly `fip -> holder`, with every other key unchanged; the cloud is contacted iff the lease is mapped and the holder is not already cached; requests come in the order list floating IPs, list servers, assign |
| `Reconciliation.Replay` | src/main.rs:86-96 | handling a stream of events only adds configured floating IPs to the cache, and issues at most three requests per event in total |
| `Reconciliation.UnmappedLeaseIsNoop` | src/main.rs:111-118 | an unmapped lease issues no request and leaves the cache unchanged |
| `Reconciliation.SyncedHolderIsNoop` | src/main.rs:120-128 | a holder already cached for the floating IP issues no request and leaves the cache unchanged |
| `Reconciliation.FloatingIpLookupFailureSkips` | src/main.rs:130-148 | a failed or empty floating-IP listing ends the event after that one request: no server lookup, no assignment, cache unchanged |
| `Reconciliation.ServerLookupFailureSkips` | src/main.rs:152-170 | a failed or empty server listing ends the event after the two listings: no assignment, cache unchanged |
| `Reconciliation.AlreadyAttachedRecordsHolder` | src/main.rs:172-200 | if the server already lists the floating IP's id, no assignment is sent and the holder is still recorded, including on an empty cache |
| `Reconciliation.AssignWhenNotAttached` | src/main.rs:174-200 | otherwise exactly one assignment `(first fip id, first server id)` is sent last; the holder is recorded iff it succeeds |
| `Reconciliation.CacheWrittenOnlyWhenConfirmed` | src/main.rs:130-200 | a cache write happens only after both listings returned an element and the server already listed the floating IP or the assignment to it succeeded |
| `Reconciliation.OnlyFirstListedMatters` | src/main.rs:150-172 | only the first element of each listing influences the event |
| `Reconciliation.AttachmentFieldIgnored` | src/main.rs:174 | the floating IP's own attached-server field never changes the event's effect |
| `Reconciliation.AssignDespiteAttachmentField` | src/main.rs:174-195 | a floating IP that claims the holder's server is still assigned when that server does not list it |
| `Reconciliation.RepeatedEventIsSilent` | src/main.rs:120-200 | after an event that wrote the cache, the identical event issues no request and changes nothing |
| `Reconciliation.FailedAssignRepeats` | src/main.rs:174-200 | after a failed assignment the cache is unchanged, and the identical event with the same listings sends the same assignment again |
| `Reconciliation.ReplayAppend` | src/main.rs:86-96 | handling `a` then `b` is handling `a + b`: requests concatenate and the cache threads through |
| `Reconciliation.ReplaySyncedIsSilent` | src/main.rs:120-128 | any number of events for a lease whose holder is cached issue no request and keep the cache |
| `Reconciliation.IdenticalEventsQuietAfterFirstSuccess` | src/main.rs:120-200 | in a stream of identical events, nothing after the first completed one issues a request or changes the cache |
| `Reconciliation.IndependentFloatingIpsCommute` | src/main.rs:111-200 | events for different floating IPs issue the same requests and reach the same cache in either order |
| `Reconciliation.ConfiguredLeaseReconcilesItsFip` | src/main.rs:111-137 | with distinct lease names, a configured service's lease leads to a listing of exactly its floating IP |
| `Reconciliation.EndToEndScenario` | src/main.rs:66-200 | `fip-a` for `default/web`, holder `node-1`, fip 100 on server 50, node-1 = server 51: one assignment `(100, 51)`, cache `fip-a -> node-1`; the same event again issues nothing |
| `Reconciliation.Reconciler.constructor` | src/main.rs:66-82 | the table is collected from the configuration and the holder cache starts empty |
| `Reconciliation.Reconciler.HandleUpdate` | src/main.rs:102-203 | the requests issued and the new cache are those of `Reconcile` on the old cache; cached floating IPs stay within the table's values; the result is always `Ok` |

## Left out

- Loading `config.yaml`, parsing the log level (and its panic), the tracing set-up and every log line (src/main.rs:34-47, 112-191). These are I/O and formatting. `ConfigRoot.logLevel` is carried but never read.
- The `POD_NAMESPACE` and `HCLOUD_TOKEN` lookups and `process::exit` (src/main.rs:49-58). These are process plumbing.
- The kube client, the lease watcher with its back-off, and `try_for_each` (src/main.rs:60-97). These are network I/O and async streaming. One event is the arguments of one `HandleUpdate` call; `Replay` stands for the sequential loop.
- The hcloud HTTP requests (src/main.rs:130-195). These are foreign REST clients. Their answers are parameters, and the requests that would be sent are recorded as `Call` values.
- `Arc` and the `tokio` `RwLock` around the cache (src/main.rs:82, 103, 120, 197-199). Events are handled one at a time, so the cache is a plain field.
- Leases without a spec, a holder identity or a name: the source unwraps these and panics (src/main.rs:108-109). `Lease` carries both strings, so this case cannot be expressed.
- Integer widths of the cloud ids (`i64`). Ids are only compared for equality, so unbounded integers behave the same.
