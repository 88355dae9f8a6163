/**
  The webhook and the Network reconciler derive the subnet of a network
  separately; the addresses one hands out lie in the subnet the other configures.
*/
module SubnetAgreement {
  import opened Ipv4
  import opened Ipam
  import opened AllocationLaws
  import opened GatewayVip
  import NetworkReconciler

  /** Both sides read the same gateway and prefix length. */
  predicate SameSubnetFields(spec: NetworkSpec, net: NetworkReconciler.Network) {
    spec.gateway4 == net.gateway4 && spec.prefixLength4 == net.prefixLength4
  }

  /** An allocated pod address belongs to the subnet written into the NetworkAttachmentDefinition. */
  lemma PodAddressIsInAttachmentSubnet(cluster: Cluster, netName: string, inUse: set<string>,
                                       net: NetworkReconciler.Network, mtu: int)
    requires Configured(cluster, netName) && !SearchWraps(cluster.networks[netName])
    requires SameSubnetFields(cluster.networks[netName], net)
    requires Allocate(cluster, netName, inUse).Ok?
    ensures var a := Allocate(cluster, netName, inUse).value;
            && NetworkReconciler.ConfigOf(net, mtu).subnet == CidrText(NetworkOf(a.address, a.prefix), a.prefix)
            && NetworkReconciler.ConfigOf(net, mtu).gateway == net.gateway4
  {
    hide Allocate, NetworkOf, BroadcastOf, ParseIp, CidrText, Taken, NetworkReconciler.InterfaceOf;
    AllocateIsLeastFree(cluster, netName, inUse);
    var spec, a := cluster.networks[netName], Allocate(cluster, netName, inUse).value;
    SameBlock(ParseIp(spec.gateway4).value, PrefixLength(spec), a.address);
  }
}
