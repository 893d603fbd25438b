/**
 * The per-event reconciliation of `handle_update` (src/main.rs:102-203):
 * map the lease to its floating IP, skip when the holder cache already
 * records the lease's holder, resolve the floating IP and the holder's
 * server, assign the floating IP unless the server already lists it, and
 * record the holder only when nothing failed.
 *
 * `Reconcile` states one event's effect as a value (the calls issued and
 * the new holder cache); `Reconciler.HandleUpdate` is the in-place
 * procedure, proved to have exactly that effect.
 */
module Reconciliation {

  import opened Wrappers
  import opened Config
  import opened Hcloud

  /** The two fields of a lease that `handle_update` reads: its name and its holder identity. */
  datatype Lease = Lease(name: string, holderIdentity: string)

  /**
   * What the cloud API would answer to each request of one event: the
   * floating-IP listing by name, the server listing by name, and the
   * assignment. An answer is consulted only if its request is issued.
   */
  datatype CloudAnswers = CloudAnswers(
    floatingIps: Response<seq<FloatingIp>>,
    servers: Response<seq<Server>>,
    assign: Response<()>)

  /** The effect of one event: the requests issued, in order, and the holder cache afterwards. */
  datatype Step = Step(calls: seq<Call>, cache: map<string, string>)

  /** One event delivered by the lease watcher, together with the cloud's answers while it is handled. */
  datatype Event = Event(lease: Lease, cloud: CloudAnswers)

  /** What `handle_update` returns to the watch loop. */
  datatype HandleResult = Ok | Err(message: string)

  /** The holder cache already records `holder` for the floating IP `fipName`. */
  predicate Synced(cache: map<string, string>, fipName: string, holder: string)
  {
    fipName in cache && cache[fipName] == holder
  }

  /** The effect of handling one lease event against the cache `cache`. */
  function Reconcile(table: map<string, string>, cache: map<string, string>, lease: Lease, cloud: CloudAnswers): (r: Step)
    // the cache is either untouched or gains exactly the lease's holder under its floating IP
    ensures r.cache == cache || (lease.name in table && r.cache == cache[table[lease.name] := lease.holderIdentity])
    // the cloud is contacted exactly when the lease is mapped and its holder is not yet recorded
    ensures r.calls == [] <==> lease.name !in table || Synced(cache, table[lease.name], lease.holderIdentity)
    // the requests are issued in order: list floating IPs, list servers, assign
    ensures |r.calls| <= 3
    ensures 0 < |r.calls| ==> lease.name in table && r.calls[0] == ListFloatingIps(table[lease.name])
    ensures 1 < |r.calls| ==> r.calls[1] == ListServers(lease.holderIdentity)
    ensures 2 < |r.calls| ==> r.calls[2].AssignFloatingIp?
  {
    if lease.name !in table then Step([], cache)
    else
      var fipName := table[lease.name];
      var holder := lease.holderIdentity;
      if Synced(cache, fipName, holder) then Step([], cache)
      else
        var listedFips := [ListFloatingIps(fipName)];
        match cloud.floatingIps
        case Failure(_) => Step(listedFips, cache)
        case Success(fips) =>
          if |fips| == 0 then Step(listedFips, cache)
          else
            var fipId := fips[0].id;
            var listedServers := listedFips + [ListServers(holder)];
            match cloud.servers
            case Failure(_) => Step(listedServers, cache)
            case Success(servers) =>
              if |servers| == 0 then Step(listedServers, cache)
              else if fipId in servers[0].publicNet.floatingIps then Step(listedServers, cache[fipName := holder])
              else
                var withAssign := listedServers + [AssignFloatingIp(fipId, servers[0].id)];
                if cloud.assign.Failure? then Step(withAssign, cache)
                else Step(withAssign, cache[fipName := holder])
  }

  /** The effect of handling `events` one after the other, starting from `cache`. */
  function Replay(table: map<string, string>, cache: map<string, string>, events: seq<Event>): (r: Step)
    ensures r.cache.Keys <= cache.Keys + table.Values
    ensures |r.calls| <= 3 * |events|
    decreases |events|
  {
    if events == [] then Step([], cache)
    else
      var first := Reconcile(table, cache, events[0].lease, events[0].cloud);
      var rest := Replay(table, first.cache, events[1..]);
      Step(first.calls + rest.calls, rest.cache)
  }

  // ---------------------------------------------------------------------
  // One event, branch by branch
  // ---------------------------------------------------------------------

  /** A lease that is not in the table is skipped: no request, cache unchanged. */
  lemma UnmappedLeaseIsNoop(table: map<string, string>, cache: map<string, string>, lease: Lease, cloud: CloudAnswers)
    requires lease.name !in table
    ensures Reconcile(table, cache, lease, cloud) == Step([], cache)
  {
  }

  /** The fast path: a holder the cache already records for the floating IP costs no request. */
  lemma SyncedHolderIsNoop(table: map<string, string>, cache: map<string, string>, lease: Lease, cloud: CloudAnswers)
    requires lease.name in table && Synced(cache, table[lease.name], lease.holderIdentity)
    ensures Reconcile(table, cache, lease, cloud) == Step([], cache)
  {
  }

  /** A failed or empty floating-IP listing ends the event: no server lookup, no assignment, cache unchanged. */
  lemma FloatingIpLookupFailureSkips(table: map<string, string>, cache: map<string, string>, lease: Lease, cloud: CloudAnswers)
    requires lease.name in table && !Synced(cache, table[lease.name], lease.holderIdentity)
    requires cloud.floatingIps.Failure? || |cloud.floatingIps.value| == 0
    ensures Reconcile(table, cache, lease, cloud) == Step([ListFloatingIps(table[lease.name])], cache)
  {
  }

  /** A failed or empty server listing ends the event: no assignment, cache unchanged. */
  lemma ServerLookupFailureSkips(table: map<string, string>, cache: map<string, string>, lease: Lease, cloud: CloudAnswers)
    requires lease.name in table && !Synced(cache, table[lease.name], lease.holderIdentity)
    requires cloud.floatingIps.Success? && |cloud.floatingIps.value| > 0
    requires cloud.servers.Failure? || |cloud.servers.value| == 0
    ensures Reconcile(table, cache, lease, cloud)
         == Step([ListFloatingIps(table[lease.name]), ListServers(lease.holderIdentity)], cache)
  {
  }

  /**
   * When the holder's server already lists the floating IP, no assignment
   * is sent and the holder is still recorded. With an empty cache (after a
   * restart) this is how the engine converges without a mutating request.
   */
  lemma AlreadyAttachedRecordsHolder(table: map<string, string>, cache: map<string, string>, lease: Lease, cloud: CloudAnswers)
    requires lease.name in table && !Synced(cache, table[lease.name], lease.holderIdentity)
    requires cloud.floatingIps.Success? && |cloud.floatingIps.value| > 0
    requires cloud.servers.Success? && |cloud.servers.value| > 0
    requires cloud.floatingIps.value[0].id in cloud.servers.value[0].publicNet.floatingIps
    ensures Reconcile(table, cache, lease, cloud)
         == Step([ListFloatingIps(table[lease.name]), ListServers(lease.holderIdentity)],
                 cache[table[lease.name] := lease.holderIdentity])
  {
  }

  /**
   * Otherwise exactly one assignment of the first listed floating IP to the
   * first listed server is sent; the holder is recorded only if it succeeds.
   */
  lemma AssignWhenNotAttached(table: map<string, string>, cache: map<string, string>, lease: Lease, cloud: CloudAnswers)
    requires lease.name in table && !Synced(cache, table[lease.name], lease.holderIdentity)
    requires cloud.floatingIps.Success? && |cloud.floatingIps.value| > 0
    requires cloud.servers.Success? && |cloud.servers.value| > 0
    requires cloud.floatingIps.value[0].id !in cloud.servers.value[0].publicNet.floatingIps
    ensures Reconcile(table, cache, lease, cloud).calls
         == [ListFloatingIps(table[lease.name]), ListServers(lease.holderIdentity),
             AssignFloatingIp(cloud.floatingIps.value[0].id, cloud.servers.value[0].id)]
    ensures Reconcile(table, cache, lease, cloud).cache
         == if cloud.assign.Success? then cache[table[lease.name] := lease.holderIdentity] else cache
  {
  }

  /**
   * The cache never records a holder the cloud has not confirmed: a write
   * happens only after both listings succeeded and either the holder's
   * server already lists the floating IP or the assignment to it succeeded.
   */
  lemma CacheWrittenOnlyWhenConfirmed(table: map<string, string>, cache: map<string, string>, lease: Lease, cloud: CloudAnswers)
    requires Reconcile(table, cache, lease, cloud).cache != cache
    ensures lease.name in table
    ensures Reconcile(table, cache, lease, cloud).cache == cache[table[lease.name] := lease.holderIdentity]
    ensures cloud.floatingIps.Success? && |cloud.floatingIps.value| > 0
    ensures cloud.servers.Success? && |cloud.servers.value| > 0
    ensures var fipId, server := cloud.floatingIps.value[0].id, cloud.servers.value[0];
      || fipId in server.publicNet.floatingIps
      || (AssignFloatingIp(fipId, server.id) in Reconcile(table, cache, lease, cloud).calls && cloud.assign.Success?)
  {
  }

  /** The cloud's answers with every listing cut down to its first element. */
  function FirstOnly(cloud: CloudAnswers): CloudAnswers
  {
    cloud.(
      floatingIps := if cloud.floatingIps.Success? && |cloud.floatingIps.value| > 0
                     then Success(cloud.floatingIps.value[..1]) else cloud.floatingIps,
      servers := if cloud.servers.Success? && |cloud.servers.value| > 0
                 then Success(cloud.servers.value[..1]) else cloud.servers)
  }

  /** Only the first floating IP and the first server of each listing influence the event. */
  lemma OnlyFirstListedMatters(table: map<string, string>, cache: map<string, string>, lease: Lease, cloud: CloudAnswers)
    ensures Reconcile(table, cache, lease, cloud) == Reconcile(table, cache, lease, FirstOnly(cloud))
  {
  }

  /** The listed floating IPs with their attached-server field replaced by `server`. */
  function WithAttachment(fips: seq<FloatingIp>, server: Option<int>): (r: seq<FloatingIp>)
    ensures |r| == |fips|
    ensures forall i :: 0 <= i < |fips| ==> r[i].id == fips[i].id && r[i].server == server
  {
    seq(|fips|, i requires 0 <= i < |fips| => fips[i].(server := server))
  }

  /**
   * The decision to assign reads the server's list of floating IPs, never
   * the floating IP's own attached-server field.
   */
  lemma AttachmentFieldIgnored(table: map<string, string>, cache: map<string, string>, lease: Lease,
                               cloud: CloudAnswers, attached: Option<int>)
    requires cloud.floatingIps.Success?
    ensures Reconcile(table, cache, lease, cloud)
         == Reconcile(table, cache, lease, cloud.(floatingIps := Success(WithAttachment(cloud.floatingIps.value, attached))))
  {
  }

  /**
   * A floating IP that claims to be attached to the holder's server is
   * still assigned when that server does not list it.
   */
  lemma AssignDespiteAttachmentField(table: map<string, string>, cache: map<string, string>, lease: Lease,
                                     fip: FloatingIp, server: Server)
    requires lease.name in table && !Synced(cache, table[lease.name], lease.holderIdentity)
    requires fip.server == Some(server.id) && fip.id !in server.publicNet.floatingIps
    ensures AssignFloatingIp(fip.id, server.id)
      in Reconcile(table, cache, lease, CloudAnswers(Success([fip]), Success([server]), Success(()))).calls
  {
  }

  // ---------------------------------------------------------------------
  // Several events
  // ---------------------------------------------------------------------

  /** Once an event has completed, the identical event that follows issues no request. */
  lemma RepeatedEventIsSilent(table: map<string, string>, cache: map<string, string>, lease: Lease,
                              first: CloudAnswers, second: CloudAnswers)
    requires lease.name in table
    requires Reconcile(table, cache, lease, first).cache != cache
    ensures Reconcile(table, Reconcile(table, cache, lease, first).cache, lease, second)
         == Step([], Reconcile(table, cache, lease, first).cache)
  {
  }

  /**
   * A failed assignment is retried by the next identical event: the cache
   * is left as it was, so the same listings lead to the same assignment.
   */
  lemma FailedAssignRepeats(table: map<string, string>, cache: map<string, string>, lease: Lease,
                            first: CloudAnswers, second: CloudAnswers)
    requires lease.name in table && !Synced(cache, table[lease.name], lease.holderIdentity)
    requires first.floatingIps.Success? && |first.floatingIps.value| > 0
    requires first.servers.Success? && |first.servers.value| > 0
    requires first.floatingIps.value[0].id !in first.servers.value[0].publicNet.floatingIps
    requires first.assign.Failure?
    requires second.floatingIps == first.floatingIps && second.servers == first.servers
    ensures Reconcile(table, cache, lease, first).cache == cache
    ensures AssignFloatingIp(first.floatingIps.value[0].id, first.servers.value[0].id)
      in Reconcile(table, Reconcile(table, cache, lease, first).cache, lease, second).calls
  {
  }

  /** Replaying the events of `a` and then those of `b` is replaying `a + b`. */
  lemma {:induction false} ReplayAppend(table: map<string, string>, cache: map<string, string>, a: seq<Event>, b: seq<Event>)
    ensures Replay(table, cache, a + b)
         == Step(Replay(table, cache, a).calls + Replay(table, Replay(table, cache, a).cache, b).calls,
                 Replay(table, Replay(table, cache, a).cache, b).cache)
    decreases |a|
  {
    if a != [] {
      var first := Reconcile(table, cache, a[0].lease, a[0].cloud);
      var restA := Replay(table, first.cache, a[1..]);
      var afterB := Replay(table, restA.cache, b);
      assert Replay(table, cache, a + b) == Step(first.calls + (restA.calls + afterB.calls), afterB.cache) by {
        assert (a + b)[0] == a[0];
        assert (a + b)[1..] == a[1..] + b;
        ReplayAppend(table, first.cache, a[1..], b);
      }
      assert first.calls + (restA.calls + afterB.calls) == (first.calls + restA.calls) + afterB.calls;
    } else {
      assert a + b == b;
    }
  }

  /** Events for a lease whose holder the cache already records issue no request and change nothing. */
  lemma {:induction false} ReplaySyncedIsSilent(table: map<string, string>, cache: map<string, string>,
                                                lease: Lease, events: seq<Event>)
    requires lease.name in table && Synced(cache, table[lease.name], lease.holderIdentity)
    requires forall i :: 0 <= i < |events| ==> events[i].lease == lease
    ensures Replay(table, cache, events) == Step([], cache)
    decreases |events|
  {
    if events != [] {
      SyncedHolderIsNoop(table, cache, lease, events[0].cloud);
      ReplaySyncedIsSilent(table, cache, lease, events[1..]);
    }
  }

  /**
   * Idempotence over a stream of identical events: after the first event
   * that completes, none of the remaining ones issues a request or changes
   * the cache.
   */
  lemma IdenticalEventsQuietAfterFirstSuccess(table: map<string, string>, cache: map<string, string>,
                                              lease: Lease, events: seq<Event>, i: nat)
    requires lease.name in table
    requires forall j :: 0 <= j < |events| ==> events[j].lease == lease
    requires i < |events|
    requires Synced(Replay(table, cache, events[..i + 1]).cache, table[lease.name], lease.holderIdentity)
    ensures Replay(table, cache, events) == Replay(table, cache, events[..i + 1])
  {
    var done := events[..i + 1];
    var later := events[i + 1..];
    assert done + later == events;
    ReplayAppend(table, cache, done, later);
    ReplaySyncedIsSilent(table, Replay(table, cache, done).cache, lease, later);
  }

  /**
   * Events for floating IPs that differ are independent: handling them in
   * either order issues the same requests for each and ends in the same cache.
   */
  lemma IndependentFloatingIpsCommute(table: map<string, string>, cache: map<string, string>,
                                      l1: Lease, c1: CloudAnswers, l2: Lease, c2: CloudAnswers)
    requires l1.name in table && l2.name in table && table[l1.name] != table[l2.name]
    ensures var a1 := Reconcile(table, cache, l1, c1);
            var a2 := Reconcile(table, a1.cache, l2, c2);
            var b2 := Reconcile(table, cache, l2, c2);
            var b1 := Reconcile(table, b2.cache, l1, c1);
            a1.calls == b1.calls && a2.calls == b2.calls && a2.cache == b1.cache
  {
  }

  /**
   * A lease named after a configured service reconciles that service's
   * floating IP, when no two configured services share a lease name.
   */
  lemma ConfiguredLeaseReconcilesItsFip(floatingIps: map<string, TargetServiceConfig>, order: seq<string>,
                                        fip: string, cache: map<string, string>, holder: string, cloud: CloudAnswers)
    requires IsIterationOrder(floatingIps, order) && DistinctLeaseNames(floatingIps)
    requires fip in floatingIps && !Synced(cache, fip, holder)
    ensures Reconcile(BuildTable(floatingIps, order), cache, Lease(LeaseName(floatingIps[fip]), holder), cloud).calls[0]
         == ListFloatingIps(fip)
  {
  }

  /**
   * The scenario: "fip-a" serves default/web; node-1 takes the lease while
   * floating IP 100 is on server 50; server node-1 has id 51. One assignment
   * (100, 51) is sent and node-1 recorded; the same event again sends nothing.
   */
  lemma EndToEndScenario(again: CloudAnswers)
    ensures var config := ConfigRoot(map["fip-a" := TargetServiceConfig("web", "default")], None);
            var table := BuildTable(config.floatingIps, ["fip-a"]);
            var lease := Lease("cilium-l2announce-default-web", "node-1");
            var cloud := CloudAnswers(Success([FloatingIp(100, "fip-a", Some(50))]),
                                      Success([Server(51, "node-1", PublicNet([]))]),
                                      Success(()));
            var first := Reconcile(table, map[], lease, cloud);
            && first == Step([ListFloatingIps("fip-a"), ListServers("node-1"), AssignFloatingIp(100, 51)],
                             map["fip-a" := "node-1"])
            && Reconcile(table, first.cache, lease, again) == Step([], first.cache)
  {
    var floatingIps := map["fip-a" := TargetServiceConfig("web", "default")];
    assert LeaseName(floatingIps["fip-a"]) == "cilium-l2announce-default-web";
    assert ["fip-a"][..0] == [];
    assert BuildTable(floatingIps, ["fip-a"]) == map["cilium-l2announce-default-web" := "fip-a"];
  }

  // ---------------------------------------------------------------------
  // The engine's state, updated in place
  // ---------------------------------------------------------------------

  /**
   * The lease table (read-only after startup) and the holder cache
   * (floating-IP name -> last holder handled) shared by all events.
   */
  class Reconciler {
    const leaseToFipName: map<string, string>
    var fipToPreviousHolder: map<string, string>

    /** Every cached floating IP is one the table maps some lease to. */
    ghost predicate Valid()
      reads this
    {
      fipToPreviousHolder.Keys <= leaseToFipName.Values
    }

    /** Startup: the table is collected from the configuration in `order`; the cache starts empty. */
    constructor (config: ConfigRoot, order: seq<string>)
      requires IsIterationOrder(config.floatingIps, order)
      ensures Valid()
      ensures leaseToFipName == BuildTable(config.floatingIps, order)
      ensures fipToPreviousHolder == map[]
    {
      leaseToFipName := BuildTable(config.floatingIps, order);
      fipToPreviousHolder := map[];
    }

    /** Handles one lease event; every path reports success to the watch loop. */
    method HandleUpdate(lease: Lease, cloud: CloudAnswers) returns (calls: seq<Call>, result: HandleResult)
      requires Valid()
      modifies this
      ensures Valid()
      ensures Step(calls, fipToPreviousHolder) == Reconcile(leaseToFipName, old(fipToPreviousHolder), lease, cloud)
      ensures result == Ok
    {
      calls, result := [], Ok;
      if lease.name !in leaseToFipName {
        return;
      }
      var fipName := leaseToFipName[lease.name];
      var holder := lease.holderIdentity;
      if fipName in fipToPreviousHolder && fipToPreviousHolder[fipName] == holder {
        return;
      }

      calls := calls + [ListFloatingIps(fipName)];
      if cloud.floatingIps.Failure? {
        return;
      }
      var fips := cloud.floatingIps.value;
      if |fips| == 0 {
        return;
      }
      var fipId := fips[0].id;

      calls := calls + [ListServers(holder)];
      if cloud.servers.Failure? {
        return;
      }
      var servers := cloud.servers.value;
      if |servers| == 0 {
        return;
      }
      var server := servers[0];

      if fipId !in server.publicNet.floatingIps {
        calls := calls + [AssignFloatingIp(fipId, server.id)];
        if cloud.assign.Failure? {
          return;
        }
      }

      fipToPreviousHolder := fipToPreviousHolder[fipName := holder];
    }
  }
}
