/**
 * The configuration records and the lease-name -> floating-IP-name table
 * that `main` builds from them once at startup (src/main.rs:16-26, 66-80).
 */
module Config {

  import opened Wrappers

  /** The service whose L2-announcement lease controls one floating IP. */
  datatype TargetServiceConfig = TargetServiceConfig(serviceName: string, serviceNamespace: string)

  /** The configuration file: floating-IP name -> target service, and an optional log level. */
  datatype ConfigRoot = ConfigRoot(floatingIps: map<string, TargetServiceConfig>, logLevel: Option<string>)

  /** The fixed prefix of the lease names that Cilium's L2 announcer creates. */
  const LeasePrefix: string := "cilium-l2announce-"

  /** The name of the lease that announces `svc`: prefix, namespace, a dash, the service name. */
  function LeaseName(svc: TargetServiceConfig): string
  {
    LeasePrefix + svc.serviceNamespace + "-" + svc.serviceName
  }

  /**
   * `order` is an order in which a HashMap iteration may visit the keys of
   * `floatingIps`: each key exactly once and nothing else.
   */
  ghost predicate IsIterationOrder(floatingIps: map<string, TargetServiceConfig>, order: seq<string>)
  {
    && (forall i :: 0 <= i < |order| ==> order[i] in floatingIps)
    && (forall k :: k in floatingIps ==> k in order)
    && (forall i, j :: 0 <= i < j < |order| ==> order[i] != order[j])
  }

  /** No two configured floating IPs name services whose lease names coincide. */
  ghost predicate DistinctLeaseNames(floatingIps: map<string, TargetServiceConfig>)
  {
    forall a, b :: a in floatingIps && b in floatingIps && a != b ==>
      LeaseName(floatingIps[a]) != LeaseName(floatingIps[b])
  }

  /**
   * The table `main` collects: the configured entries are visited in `order`
   * and each one inserts LeaseName(service) -> floating-IP name, so a later
   * entry with the same lease name replaces an earlier one.
   */
  function BuildTable(floatingIps: map<string, TargetServiceConfig>, order: seq<string>): (table: map<string, string>)
    requires forall i :: 0 <= i < |order| ==> order[i] in floatingIps
    ensures forall i :: 0 <= i < |order| ==> LeaseName(floatingIps[order[i]]) in table
    ensures forall k :: k in table ==>
      table[k] in order && table[k] in floatingIps && LeaseName(floatingIps[table[k]]) == k
    decreases |order|
  {
    if order == [] then map[]
    else
      var last := order[|order| - 1];
      BuildTable(floatingIps, order[..|order| - 1])[LeaseName(floatingIps[last]) := last]
  }

  /** The entry visited last among those sharing a lease name is the one the table keeps. */
  lemma {:induction false} TableLastWins(floatingIps: map<string, TargetServiceConfig>, order: seq<string>, i: nat)
    requires forall j :: 0 <= j < |order| ==> order[j] in floatingIps
    requires i < |order|
    requires forall j :: i < j < |order| ==> LeaseName(floatingIps[order[j]]) != LeaseName(floatingIps[order[i]])
    ensures BuildTable(floatingIps, order)[LeaseName(floatingIps[order[i]])] == order[i]
  {
    if i < |order| - 1 {
      var prefix := order[..|order| - 1];
      assert prefix[i] == order[i];
      forall j | i < j < |prefix|
        ensures LeaseName(floatingIps[prefix[j]]) != LeaseName(floatingIps[prefix[i]])
      {
        assert prefix[j] == order[j];
      }
      TableLastWins(floatingIps, prefix, i);
    }
  }

  /**
   * Without lease-name collisions the table is exactly the configuration
   * read backwards: every configured service's lease name maps to its
   * floating IP, and no other key is present.
   */
  lemma TableOfConfig(floatingIps: map<string, TargetServiceConfig>, order: seq<string>)
    requires IsIterationOrder(floatingIps, order)
    requires DistinctLeaseNames(floatingIps)
    ensures forall fip :: fip in floatingIps ==> BuildTable(floatingIps, order)[LeaseName(floatingIps[fip])] == fip
    ensures forall k :: k in BuildTable(floatingIps, order) <==>
      exists fip :: fip in floatingIps && LeaseName(floatingIps[fip]) == k
  {
  }

  /** Two services of the same namespace have the same lease name only if they are the same service. */
  lemma LeaseNameInjectiveInName(a: TargetServiceConfig, b: TargetServiceConfig)
    requires a.serviceNamespace == b.serviceNamespace
    requires LeaseName(a) == LeaseName(b)
    ensures a == b
  {
    var n := |LeasePrefix + a.serviceNamespace + "-"|;
    assert LeaseName(a)[n..] == a.serviceName;
    assert LeaseName(b)[n..] == b.serviceName;
  }

  /**
   * When neither namespace contains a dash, the lease name determines the
   * service: the first dash after the prefix ends the namespace.
   */
  lemma LeaseNameInjectiveWithoutDash(a: TargetServiceConfig, b: TargetServiceConfig)
    requires '-' !in a.serviceNamespace && '-' !in b.serviceNamespace
    requires LeaseName(a) == LeaseName(b)
    ensures a == b
  {
    var p := |LeasePrefix|;
    var sa := a.serviceNamespace + "-" + a.serviceName;
    var sb := b.serviceNamespace + "-" + b.serviceName;
    assert LeaseName(a)[p..] == sa;
    assert LeaseName(b)[p..] == sb;
    var na, nb := |a.serviceNamespace|, |b.serviceNamespace|;
    FirstDash(a.serviceNamespace, a.serviceName);
    FirstDash(b.serviceNamespace, b.serviceName);
    assert na == nb;
    assert sa[..na] == a.serviceNamespace;
    assert sb[..nb] == b.serviceNamespace;
    LeaseNameInjectiveInName(a, b);
  }

  /** In `ns + "-" + name` with a dash-free `ns`, the first dash stands at index |ns|. */
  lemma FirstDash(ns: string, name: string)
    requires '-' !in ns
    ensures (ns + "-" + name)[|ns|] == '-'
    ensures forall i :: 0 <= i < |ns| ==> (ns + "-" + name)[i] != '-'
  {
  }

  /**
   * Namespaces may contain dashes, so two different services can share a
   * lease name; the table then keeps only one of them (see TableLastWins).
   */
  lemma LeaseNameAmbiguous()
    ensures LeaseName(TargetServiceConfig("c", "a-b")) == LeaseName(TargetServiceConfig("b-c", "a"))
  {
  }
}
