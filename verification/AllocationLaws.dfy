/**
  What an allocation is worth: it is the least address of the subnet that
  nobody holds or reserves, and the two configurations in which it is not.
*/
module AllocationLaws {
  import opened Wrappers
  import opened Text
  import opened Ipv4
  import opened Ipam

  // ---------------------------------------------------------------- who holds an address

  ghost predicate ListsIp(ips: seq<string>, text: string) {
    exists i :: 0 <= i < |ips| && CleanIp(ips[i]) == text
  }

  ghost predicate HeldByEntry(entries: seq<MultusEntry>, netName: string, text: string) {
    exists k :: 0 <= k < |entries| && entries[k].name == netName && ListsIp(entries[k].ips, text)
  }

  ghost predicate HeldByStatus(entries: seq<StatusEntry>, netName: string, text: string) {
    exists k :: 0 <= k < |entries| && StatusNameMatches(entries[k].name, netName) && ListsIp(entries[k].ips, text)
  }

  /** The pod's own annotations put it on record as using the address on the network. */
  ghost predicate Holds(pod: StoredPod, netName: string, text: string) {
    || (pod.multus.Some? && HeldByEntry(pod.multus.value, netName, text))
    || (pod.networkStatus.Some? && HeldByStatus(pod.networkStatus.value, netName, text))
    || (pod.networksStatus.Some? && HeldByStatus(pod.networksStatus.value, netName, text))
  }

  ghost predicate HeldByLivePod(pods: seq<StoredPod>, netName: string, text: string) {
    exists i :: 0 <= i < |pods| && pods[i].live && Holds(pods[i], netName, text)
  }

  ghost predicate InVipRange(vips: seq<string>, a: Address) {
    exists i :: 0 <= i < |vips| && ParseExclusion(vips[i]).Has(a)
  }

  ghost predicate InGatewayCidr(cidrs: seq<GatewayCidr>, netName: string, a: Address) {
    exists i :: 0 <= i < |cidrs| && cidrs[i].network == netName && ParseExclusion(cidrs[i].ip4cidr).Has(a)
  }

  /** Why an address strictly inside the subnet may not be handed out. */
  ghost predicate Taken(cluster: Cluster, netName: string, net: NetworkSpec, start: Address, inUse: set<string>,
                        a: Address)
    requires cluster.pods.Some?
  {
    || net.gateway4 == Dotted(a)
    || 2 <= a - start <= 9
    || (net.vips.Some? && InVipRange(net.vips.value, a))
    || (cluster.gatewayCidrs.Some? && InGatewayCidr(cluster.gatewayCidrs.value, netName, a))
    || HeldByLivePod(cluster.pods.value, netName, Dotted(a))
    || exists t :: t in inUse && CleanIp(t) == Dotted(a)
  }

  // ---------------------------------------------------------------- the map means that set

  lemma CleanIpsMeaning(ips: seq<string>, text: string)
    requires text != ""
    ensures text in CleanIps(ips) <==> ListsIp(ips, text)
  {
  }

  lemma {:induction false} MultusTextsMeaning(entries: seq<MultusEntry>, netName: string, text: string)
    requires text != ""
    ensures text in MultusTexts(entries, netName) <==> HeldByEntry(entries, netName, text)
  {
    hide CleanIps, ListsIp;
    if entries != [] {
      var n := |entries| - 1;
      var front := entries[..n];
      MultusTextsMeaning(front, netName, text);
      CleanIpsMeaning(entries[n].ips, text);
      if HeldByEntry(entries, netName, text) {
        var k :| 0 <= k < |entries| && entries[k].name == netName && ListsIp(entries[k].ips, text);
        if k < n { assert front[k] == entries[k]; }
      }
      if HeldByEntry(front, netName, text) {
        var k :| 0 <= k < n && front[k].name == netName && ListsIp(front[k].ips, text);
        assert entries[k] == front[k];
      }
    }
  }

  lemma {:induction false} StatusTextsMeaning(entries: seq<StatusEntry>, netName: string, text: string)
    requires text != ""
    ensures text in StatusTexts(entries, netName) <==> HeldByStatus(entries, netName, text)
  {
    hide CleanIps, ListsIp, StatusNameMatches;
    if entries != [] {
      var n := |entries| - 1;
      var front := entries[..n];
      StatusTextsMeaning(front, netName, text);
      CleanIpsMeaning(entries[n].ips, text);
      if HeldByStatus(entries, netName, text) {
        var k :| 0 <= k < |entries| && StatusNameMatches(entries[k].name, netName) && ListsIp(entries[k].ips, text);
        if k < n { assert front[k] == entries[k]; }
      }
      if HeldByStatus(front, netName, text) {
        var k :| 0 <= k < n && StatusNameMatches(front[k].name, netName) && ListsIp(front[k].ips, text);
        assert entries[k] == front[k];
      }
    }
  }

  lemma PodTextsMeaning(pod: StoredPod, netName: string, text: string)
    requires text != ""
    ensures text in PodTexts(pod, netName) <==> pod.live && Holds(pod, netName, text)
  {
    if pod.multus.Some? { MultusTextsMeaning(pod.multus.value, netName, text); }
    if pod.networkStatus.Some? { StatusTextsMeaning(pod.networkStatus.value, netName, text); }
    if pod.networksStatus.Some? { StatusTextsMeaning(pod.networksStatus.value, netName, text); }
    hide MultusTexts, StatusTexts, HeldByEntry, HeldByStatus;
  }

  lemma {:induction false} PodsTextsMeaning(pods: seq<StoredPod>, netName: string, text: string)
    requires text != ""
    ensures text in PodsTexts(pods, netName) <==> HeldByLivePod(pods, netName, text)
  {
    hide PodTexts, Holds;
    if pods != [] {
      var n := |pods| - 1;
      var front := pods[..n];
      PodsTextsMeaning(front, netName, text);
      PodTextsMeaning(pods[n], netName, text);
      if HeldByLivePod(pods, netName, text) {
        var i :| 0 <= i < |pods| && pods[i].live && Holds(pods[i], netName, text);
        if i < n { assert front[i] == pods[i]; }
      }
      if HeldByLivePod(front, netName, text) {
        var i :| 0 <= i < n && front[i].live && Holds(front[i], netName, text);
        assert pods[i] == front[i];
      }
    }
  }

  lemma {:induction false} VipTextsMeaning(vips: seq<string>, a: Address)
    ensures Dotted(a) in VipTexts(vips) <==> InVipRange(vips, a)
  {
    hide Names, ParseExclusion, Dotted;
    if vips != [] {
      var n := |vips| - 1;
      var front := vips[..n];
      VipTextsMeaning(front, a);
      NamesAreInterval(ParseExclusion(vips[n]), a);
      if InVipRange(vips, a) {
        var i :| 0 <= i < |vips| && ParseExclusion(vips[i]).Has(a);
        if i < n { assert front[i] == vips[i]; }
      }
      if InVipRange(front, a) {
        var i :| 0 <= i < n && ParseExclusion(front[i]).Has(a);
        assert vips[i] == front[i];
      }
    }
  }

  lemma {:induction false} GatewayCidrTextsMeaning(cidrs: seq<GatewayCidr>, netName: string, a: Address)
    ensures Dotted(a) in GatewayCidrTexts(cidrs, netName) <==> InGatewayCidr(cidrs, netName, a)
  {
    hide Names, ParseExclusion, Dotted;
    if cidrs != [] {
      var n := |cidrs| - 1;
      var front := cidrs[..n];
      GatewayCidrTextsMeaning(front, netName, a);
      NamesAreInterval(ParseExclusion(cidrs[n].ip4cidr), a);
      if InGatewayCidr(cidrs, netName, a) {
        var i :| 0 <= i < |cidrs| && cidrs[i].network == netName && ParseExclusion(cidrs[i].ip4cidr).Has(a);
        if i < n { assert front[i] == cidrs[i]; }
      }
      if InGatewayCidr(front, netName, a) {
        var i :| 0 <= i < n && front[i].network == netName && ParseExclusion(front[i].ip4cidr).Has(a);
        assert cidrs[i] == front[i];
      }
    }
  }

  /** Below its end, every host offset stays below the broadcast address; at its end it does not. */
  lemma {:induction false} HostOffsetsEndMeaning(start: Address, broadcast: Address, offset: nat, o: nat)
    requires offset <= o <= LAST_HOST_OFFSET && start + o < SIZE
    ensures (start + o < broadcast) ==> o < HostOffsetsEnd(start, broadcast, offset)
    decreases o - offset
  {
    if offset < o {
      HostOffsetsEndMeaning(start, broadcast, offset + 1, o);
    }
  }

  lemma HostTextsMeaning(start: Address, broadcast: Address, a: Address)
    requires start < a < broadcast
    ensures Dotted(a) in HostTexts(start, HostOffsetsEnd(start, broadcast, FIRST_HOST_OFFSET))
       <==> 2 <= a - start <= 9
  {
    hide Dotted, HostOffsetsEnd;
    var end := HostOffsetsEnd(start, broadcast, FIRST_HOST_OFFSET);
    if Dotted(a) in HostTexts(start, end) {
      var o: int :| FIRST_HOST_OFFSET <= o < end && HostText(start, o) == Dotted(a);
      DottedInjective((start + o) % SIZE, a);
    }
    var o := a - start;
    if 2 <= o <= 9 {
      HostOffsetsEndMeaning(start, broadcast, FIRST_HOST_OFFSET, o);
      assert HostText(start, o) == Dotted(a);
    }
  }

  /** Strictly inside the subnet, the string-keyed map excludes exactly the taken addresses. */
  lemma ExcludedMeaning(cluster: Cluster, netName: string, net: NetworkSpec, gateway: Address, inUse: set<string>,
                        a: Address)
    requires cluster.pods.Some?
    requires NetworkOf(gateway, PrefixLength(net)) < a < BroadcastOf(gateway, PrefixLength(net))
    ensures Dotted(a) in Excluded(cluster, netName, net, gateway, inUse)
       <==> Taken(cluster, netName, net, NetworkOf(gateway, PrefixLength(net)), inUse, a)
  {
    hide Dotted, NetworkOf, BroadcastOf, PrefixLength, HostTexts, VipTexts, GatewayCidrTexts, PodsTexts;
    hide InVipRange, InGatewayCidr, HeldByLivePod, HostOffsetsEnd, CleanIp;
    var p := PrefixLength(net);
    var start, broadcast := NetworkOf(gateway, p), BroadcastOf(gateway, p);
    DottedChars(a);
    EndpointTexts(start, broadcast, a);
    HostTextsMeaning(start, broadcast, a);
    if net.vips.Some? { VipTextsMeaning(net.vips.value, a); }
    if cluster.gatewayCidrs.Some? { GatewayCidrTextsMeaning(cluster.gatewayCidrs.value, netName, a); }
    PodsTextsMeaning(cluster.pods.value, netName, Dotted(a));
  }

  lemma EndpointTexts(start: Address, broadcast: Address, a: Address)
    requires start < a < broadcast
    ensures Dotted(a) != Dotted(start) && Dotted(a) != Dotted(broadcast)
  {
    hide Dotted;
    if Dotted(a) == Dotted(start) { DottedInjective(a, start); }
    if Dotted(a) == Dotted(broadcast) { DottedInjective(a, broadcast); }
  }

  // ---------------------------------------------------------------- the allocator's promise

  /** The Network exists, its gateway parses and pods can be listed: only exhaustion can fail. */
  ghost predicate Configured(cluster: Cluster, netName: string) {
    && netName in cluster.networks
    && ParseIp(cluster.networks[netName].gateway4).Some?
    && cluster.networks[netName].gateway4 != ""
    && cluster.pods.Some?
  }

  function Start(net: NetworkSpec): Address
    requires ParseIp(net.gateway4).Some?
  {
    NetworkOf(ParseIp(net.gateway4).value, PrefixLength(net))
  }

  function Broadcast(net: NetworkSpec): Address
    requires ParseIp(net.gateway4).Some?
  {
    BroadcastOf(ParseIp(net.gateway4).value, PrefixLength(net))
  }

  /** The search starts one past the network address; as a uint32 that is 0 after the last address. */
  predicate SearchWraps(net: NetworkSpec)
    requires ParseIp(net.gateway4).Some?
  {
    Start(net) == SIZE - 1
  }

  /** The exclusion set of an allocation on a configured network. */
  function ExcludedOn(cluster: Cluster, netName: string, inUse: set<string>): set<string>
    requires netName in cluster.networks && ParseIp(cluster.networks[netName].gateway4).Some? && cluster.pods.Some?
  {
    var net := cluster.networks[netName];
    Excluded(cluster, netName, net, ParseIp(net.gateway4).value, inUse)
  }

  /** On a configured network an allocation is the search alone. */
  lemma AllocateSearches(cluster: Cluster, netName: string, inUse: set<string>)
    requires Configured(cluster, netName)
    ensures var net := cluster.networks[netName];
            var free := FirstFree((Start(net) + 1) % SIZE, Broadcast(net), ExcludedOn(cluster, netName, inUse));
            Allocate(cluster, netName, inUse)
            == (if free.Some? then Ok(Allocation(free.value, PrefixLength(net))) else Err(PoolExhausted))
  {
    hide NetworkOf, BroadcastOf, Excluded, ParseIp, FirstFree, PrefixLength;
  }

  /** The least untaken address strictly inside the subnet, and exhaustion exactly when there is none. */
  lemma AllocateIsLeastFree(cluster: Cluster, netName: string, inUse: set<string>)
    requires Configured(cluster, netName)
    requires !SearchWraps(cluster.networks[netName])
    ensures var net := cluster.networks[netName];
            match Allocate(cluster, netName, inUse)
            case Ok(found) =>
              && found.prefix == PrefixLength(net)
              && Start(net) < found.address < Broadcast(net)
              && !Taken(cluster, netName, net, Start(net), inUse, found.address)
              && (forall b: Address :: Start(net) < b < found.address ==>
                    Taken(cluster, netName, net, Start(net), inUse, b))
            case Err(e) =>
              && e == PoolExhausted
              && (forall b: Address :: Start(net) < b < Broadcast(net) ==>
                    Taken(cluster, netName, net, Start(net), inUse, b))
  {
    hide Dotted, NetworkOf, BroadcastOf, Excluded, Taken, ParseIp, FirstFree, PrefixLength, Allocate;
    var net := cluster.networks[netName];
    AllocateSearches(cluster, netName, inUse);
    var excluded := ExcludedOn(cluster, netName, inUse);
    FirstFreeIsLeast(Start(net) + 1, Broadcast(net), excluded);
    forall b: Address | Start(net) < b < Broadcast(net)
      ensures Dotted(b) in excluded <==> Taken(cluster, netName, net, Start(net), inUse, b)
    {
      ExcludedMeaning(cluster, netName, net, ParseIp(net.gateway4).value, inUse, b);
    }
  }

  /** Exactly when the search wraps does an allocation leave the subnet. */
  lemma AllocationInSubnetUnlessWrapped(cluster: Cluster, netName: string, inUse: set<string>)
    requires Configured(cluster, netName)
    requires Allocate(cluster, netName, inUse).Ok?
    ensures var net, a := cluster.networks[netName], Allocate(cluster, netName, inUse).value.address;
            Start(net) < a < Broadcast(net) <==> !SearchWraps(net)
  {
    hide Start, Broadcast, Taken, Allocate, PrefixLength;
    if !SearchWraps(cluster.networks[netName]) {
      AllocateIsLeastFree(cluster, netName, inUse);
    }
  }

  /** It wraps on one subnet only: the single-address block at the top of the address space. */
  lemma SearchWrapsExactly(net: NetworkSpec)
    requires ParseIp(net.gateway4).Some?
    ensures SearchWraps(net) <==> ParseIp(net.gateway4).value == SIZE - 1 && PrefixLength(net) == 32
  {
    hide ParseIp, NetworkOf, BroadcastOf, PrefixLength;
    var gateway, p := ParseIp(net.gateway4).value, PrefixLength(net);
    SubnetShape(gateway, p);
    if p < 32 { assert Pow2(32 - p) == 2 * Pow2(31 - p); }
    if p == 32 { HostBlock(gateway); }
  }

  function Solo(netName: string, net: NetworkSpec): Cluster {
    Cluster(map[netName := net], None, Some([]))
  }

  /** With a 32-bit prefix on 255.255.255.255 the allocator hands out 0.0.0.0. */
  lemma WrappedSearchLeavesSubnet(netName: string)
    ensures var net := NetworkSpec(Dotted(SIZE - 1), Some(32), None);
            && Configured(Solo(netName, net), netName) && SearchWraps(net)
            && Allocate(Solo(netName, net), netName, {}) == Ok(Allocation(0, 32))
  {
    hide Dotted, NetworkOf, BroadcastOf, ParseIp, Allocate, FirstFree, HostTexts, HostOffsetsEnd;
    var net, last := NetworkSpec(Dotted(SIZE - 1), Some(32), None), SIZE - 1;
    var cluster := Solo(netName, net);
    ParsePrinted(last);
    ParseIpPlain(Dotted(last));
    DottedChars(last);
    HostBlock(last);
    assert Start(net) == last == Broadcast(net);
    AllocateSearches(cluster, netName, {});
    if Dotted(0) == Dotted(last) { DottedInjective(0, last); }
    ZeroIsNoHostText(last, HostOffsetsEnd(last, last, FIRST_HOST_OFFSET));
    assert Dotted(0) !in ExcludedOn(cluster, netName, {});
    FirstFreeIsLeast(0, last, ExcludedOn(cluster, netName, {}));
  }

  lemma ZeroIsNoHostText(start: Address, end: nat)
    requires start == SIZE - 1 && end <= LAST_HOST_OFFSET + 1
    ensures Dotted(0) !in HostTexts(start, end)
  {
    hide Dotted;
    if Dotted(0) in HostTexts(start, end) {
      var o: int :| FIRST_HOST_OFFSET <= o < end && HostText(start, o) == Dotted(0);
      DottedInjective((start + o) % SIZE, 0);
    }
  }

  lemma HostBlock(a: Address)
    ensures NetworkOf(a, 32) == a == BroadcastOf(a, 32)
  {
    SubnetShape(a, 32);
    assert Pow2(0) == 1;
  }

  /** A gateway written in plain dotted decimal is never handed out. */
  lemma PlainGatewayNeverAllocated(cluster: Cluster, netName: string, inUse: set<string>)
    requires Configured(cluster, netName)
    requires ParseDotted(cluster.networks[netName].gateway4).Some?
    requires Allocate(cluster, netName, inUse).Ok?
    ensures Some(Allocate(cluster, netName, inUse).value.address) != ParseIp(cluster.networks[netName].gateway4)
  {
    hide Dotted, NetworkOf, BroadcastOf, FirstFree, ParseIp, ParseDotted, Allocate, HostTexts, VipTexts,
         GatewayCidrTexts, PodsTexts, InUseTexts;
    var net := cluster.networks[netName];
    ParseIpPlain(net.gateway4);
    PrintParsed(net.gateway4);
    AllocateSearches(cluster, netName, inUse);
    FirstFreeIsLeast((Start(net) + 1) % SIZE, Broadcast(net), ExcludedOn(cluster, netName, inUse));
    assert net.gateway4 in ExcludedOn(cluster, netName, inUse);
  }

  /** 10.0.0.1, and the Network that names it as gateway in IPv4-mapped IPv6 form. */
  const MAPPED_GATEWAY: Address := 0x0A00_0001

  function MappedNetwork(): NetworkSpec {
    NetworkSpec(MAPPED + Dotted(MAPPED_GATEWAY), Some(24), None)
  }

  lemma MappedNetworkParses()
    ensures ParseIp(MappedNetwork().gateway4) == Some(MAPPED_GATEWAY)
    ensures MappedNetwork().gateway4 != Dotted(MAPPED_GATEWAY)
  {
    hide Dotted, ParseDotted;
    var text := MappedNetwork().gateway4;
    assert text[|MAPPED|..] == Dotted(MAPPED_GATEWAY);
    ParsePrinted(MAPPED_GATEWAY);
    DottedChars(MAPPED_GATEWAY);
    assert text[0] == ':' && !AddressChar(':');
    assert text[0] in text;
  }

  lemma MappedSubnet()
    ensures NetworkOf(MAPPED_GATEWAY, 24) == MAPPED_GATEWAY - 1
    ensures BroadcastOf(MAPPED_GATEWAY, 24) == MAPPED_GATEWAY + 254
  {
    assert Pow2(8) == 256 by { assert Pow2(4) == 16; }
    SubnetShape(MAPPED_GATEWAY, 24);
    SubnetFacts(MAPPED_GATEWAY, 24);
  }

  /** That gateway is excluded under a key no candidate has, and so it is handed out. */
  lemma MappedGatewayIsAllocated(netName: string)
    ensures var cluster := Solo(netName, MappedNetwork());
            && Configured(cluster, netName)
            && Allocate(cluster, netName, {}) == Ok(Allocation(MAPPED_GATEWAY, 24))
  {
    hide Dotted, NetworkOf, BroadcastOf, ParseIp, Allocate, FirstFree, Excluded;
    var net, cluster := MappedNetwork(), Solo(netName, MappedNetwork());
    MappedNetworkParses();
    MappedSubnet();
    AllocateSearches(cluster, netName, {});
    ExcludedMeaning(cluster, netName, net, MAPPED_GATEWAY, {}, MAPPED_GATEWAY);
    FirstFreeIsLeast(MAPPED_GATEWAY, BroadcastOf(MAPPED_GATEWAY, 24), ExcludedOn(cluster, netName, {}));
  }

  // ---------------------------------------------------------------- reading back what was written

  lemma NoSpaceAround(s: string)
    requires forall c :: c in s ==> AddressChar(c) || c == '/'
    ensures Trim(s, GoSpace) == s
  {
    if s != [] { assert s[0] in s && s[|s| - 1] in s; }
    TrimFixed(s, GoSpace);
  }

  /** The address part of an annotation entry is the address that was allocated. */
  lemma CleanAllocation(a: Allocation)
    ensures CleanIp(AllocationText(a)) == Dotted(a.address)
  {
    hide Dotted, Decimal, Split, Trim;
    DottedChars(a.address);
    CidrTextSplits([], a.address, a.prefix);
    assert [] + CidrText(a.address, a.prefix) == AllocationText(a) && [] + Dotted(a.address) == Dotted(a.address);
    NoSpaceAround(AllocationText(a));
  }

  lemma CleanAddress(a: Address)
    ensures CleanIp(Dotted(a)) == Dotted(a)
  {
    hide Dotted, Split, Trim;
    DottedChars(a);
    NoSpaceAround(Dotted(a));
    assert '/' !in Dotted(a);
    SplitNoSep(Dotted(a), '/');
  }

  // ---------------------------------------------------------------- what is never handed out

  lemma MoreInUseMoreTaken(cluster: Cluster, netName: string, net: NetworkSpec, start: Address, inUse: set<string>,
                           a: Address)
    requires cluster.pods.Some?
    requires Taken(cluster, netName, net, start, {}, a)
    ensures Taken(cluster, netName, net, start, inUse, a)
  {
    hide Dotted, CleanIp, InVipRange, InGatewayCidr, HeldByLivePod;
  }

  /** With every address below it in use, an address that nothing else takes is not taken. */
  lemma BelowInUse(cluster: Cluster, netName: string, net: NetworkSpec, start: Address, a: Address)
      returns (inUse: set<string>)
    requires cluster.pods.Some? && start < a
    requires !Taken(cluster, netName, net, start, {}, a)
    ensures inUse == NamesBetween(start, a - 1)
    ensures !Taken(cluster, netName, net, start, inUse, a)
    ensures forall b: Address :: start < b < a ==> Taken(cluster, netName, net, start, inUse, b)
  {
    hide Dotted, CleanIp, InVipRange, InGatewayCidr, HeldByLivePod;
    inUse := NamesBetween(start, a - 1);
    forall t | t in inUse ensures CleanIp(t) == t != Dotted(a) {
      var b: int :| start <= b <= a - 1 && Dotted(b) == t;
      CleanAddress(b);
      if Dotted(b) == Dotted(a) { DottedInjective(a, b); }
    }
    forall b: Address | start < b < a ensures Taken(cluster, netName, net, start, inUse, b) {
      CleanAddress(b);
      assert Dotted(b) in inUse;
    }
  }

  /** However many addresses a pod already has, this one is not handed to it. */
  ghost predicate NeverAllocated(cluster: Cluster, netName: string, a: Address) {
    forall inUse :: var r := Allocate(cluster, netName, inUse); r.Ok? ==> r.value.address != a
  }

  /** An address of the subnet is safe from every allocation exactly when something other than the pod takes it. */
  lemma NeverAllocatedExactly(cluster: Cluster, netName: string, a: Address)
    requires Configured(cluster, netName) && !SearchWraps(cluster.networks[netName])
    requires Start(cluster.networks[netName]) < a < Broadcast(cluster.networks[netName])
    ensures NeverAllocated(cluster, netName, a)
       <==> Taken(cluster, netName, cluster.networks[netName], Start(cluster.networks[netName]), {}, a)
  {
    hide Allocate, Start, Broadcast, Taken, PrefixLength, ParseIp, NamesBetween;
    var net := cluster.networks[netName];
    if Taken(cluster, netName, net, Start(net), {}, a) {
      forall inUse ensures var r := Allocate(cluster, netName, inUse); r.Ok? ==> r.value.address != a {
        MoreInUseMoreTaken(cluster, netName, net, Start(net), inUse, a);
        AllocateIsLeastFree(cluster, netName, inUse);
      }
    } else {
      var inUse := BelowInUse(cluster, netName, net, Start(net), a);
      AllocateIsLeastFree(cluster, netName, inUse);
      assert Allocate(cluster, netName, inUse).Ok? && Allocate(cluster, netName, inUse).value.address == a;
    }
  }

  /** A gateway inside its subnet is protected exactly when it is written plainly or something else takes it. */
  lemma GatewayProtectedExactly(cluster: Cluster, netName: string)
    requires Configured(cluster, netName) && !SearchWraps(cluster.networks[netName])
    requires var net := cluster.networks[netName]; Start(net) < ParseIp(net.gateway4).value < Broadcast(net)
    ensures var net := cluster.networks[netName];
            var gateway := ParseIp(net.gateway4).value;
            NeverAllocated(cluster, netName, gateway) <==>
              || ParseDotted(net.gateway4).Some?
              || 2 <= gateway - Start(net) <= 9
              || (net.vips.Some? && InVipRange(net.vips.value, gateway))
              || (cluster.gatewayCidrs.Some? && InGatewayCidr(cluster.gatewayCidrs.value, netName, gateway))
              || HeldByLivePod(cluster.pods.value, netName, Dotted(gateway))
  {
    hide Allocate, Start, Broadcast, PrefixLength, ParseIp, ParseDotted, Dotted, InVipRange, InGatewayCidr,
         HeldByLivePod;
    var text := cluster.networks[netName].gateway4;
    var gateway := ParseIp(text).value;
    NeverAllocatedExactly(cluster, netName, gateway);
    ParsePrinted(gateway);
    if ParseDotted(text).Some? {
      ParseIpPlain(text);
      PrintParsed(text);
    }
  }

  // ---------------------------------------------------------------- in so many words

  /** The address part of an entry: what stands before the first slash, without the blanks around the whole. */
  lemma CleanIpMeaning(left: string, address: string, rest: string, right: string)
    requires Blank(left, GoSpace) && Blank(right, GoSpace) && '/' !in address
    requires address != "" && !GoSpace(address[0])
    ensures Trimmed(address, GoSpace) ==> CleanIp(left + address + right) == address
    ensures (rest == "" || !GoSpace(rest[|rest| - 1])) ==> CleanIp(left + (address + ['/'] + rest) + right) == address
  {
    hide Trim, Split;
    SplitNoSep(address, '/');
    SplitPrefix(address, rest, '/');
    if Trimmed(address, GoSpace) { TrimPadded(left, address, right, GoSpace); }
    var whole := address + ['/'] + rest;
    if rest == "" || !GoSpace(rest[|rest| - 1]) {
      assert whole[0] == address[0];
      assert whole[|whole| - 1] == if rest == "" then '/' else rest[|rest| - 1];
      TrimPadded(left, whole, right, GoSpace);
    }
  }

  lemma BlankIpMeaning(blanks: string)
    requires Blank(blanks, GoSpace)
    ensures CleanIp(blanks) == ""
  {
    hide Trim;
    TrimPadded(blanks, "", "", GoSpace);
    assert blanks + "" + "" == blanks;
  }

  /** A status entry is of the network if it has its name, bare or behind a namespace and a slash. */
  lemma StatusNameMeaning(name: string, netName: string)
    ensures StatusNameMatches(name, netName) <==>
              name == netName || exists namespace: string :: name == namespace + "/" + netName
  {
    if StatusNameMatches(name, netName) && name != netName {
      assert name == name[..|name| - |netName| - 1] + "/" + netName;
    }
  }

  /** The prefix length is the Network's if it is one, and 24 otherwise. */
  lemma PrefixLengthMeaning(net: NetworkSpec)
    ensures PrefixLength(net) == match net.prefixLength4 case Some(p) => if 1 <= p <= 32 then p else 24 case None => 24
  {
  }

  /** The errors, in the order they are looked for; exhaustion comes last. */
  lemma AllocationErrors(cluster: Cluster, netName: string, inUse: set<string>)
    ensures Allocate(cluster, netName, inUse) == Err(NetworkNotFound) <==> netName !in cluster.networks
    ensures netName in cluster.networks ==>
              var gateway := cluster.networks[netName].gateway4;
              && (Allocate(cluster, netName, inUse) == Err(NoGateway) <==> gateway == "")
              && (Allocate(cluster, netName, inUse) == Err(BadGateway) <==> gateway != "" && ParseIp(gateway).None?)
              && (Allocate(cluster, netName, inUse) == Err(PodListFailed) <==>
                    gateway != "" && ParseIp(gateway).Some? && cluster.pods.None?)
              && (Configured(cluster, netName) <==>
                    Allocate(cluster, netName, inUse).Ok? || Allocate(cluster, netName, inUse) == Err(PoolExhausted))
  {
    hide NetworkOf, BroadcastOf, Excluded, ParseIp, FirstFree, PrefixLength;
  }
}
