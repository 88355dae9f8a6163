/**
  determineGatewayIP: the virtual IP a Gateway gets from a GKEGatewayCIDR, and why
  pods of the same network never get it.
*/
module GatewayVip {
  import opened Wrappers
  import opened Text
  import opened Ipv4
  import opened Ipam
  import opened AllocationLaws

  /** ip[3]++ on a four-byte address: the carry into the next byte is lost. */
  function IncrementLastByte(a: Address): Address {
    a - a % 256 + (a % 256 + 1) % 256
  }

  /** The address offered by one CIDR, when it parses and still contains the incremented base. */
  function VipOf(text: string): Option<Address> {
    var cidr := ParseCidr(text);
    if cidr.None? then None
    else
      var base := NetworkOf(cidr.value.address, cidr.value.prefix);
      var vip := IncrementLastByte(base);
      if NetworkOf(vip, cidr.value.prefix) == base then Some(vip) else None
  }

  predicate Serves(c: GatewayCidr, networkName: string) {
    c.network == networkName || c.name == networkName
  }

  /** The first offer in list order. */
  function FirstVip(cidrs: seq<GatewayCidr>, networkName: string): Option<Address> {
    if cidrs == [] then None
    else if Serves(cidrs[0], networkName) && VipOf(cidrs[0].ip4cidr).Some? then VipOf(cidrs[0].ip4cidr)
    else FirstVip(cidrs[1..], networkName)
  }

  /** `addresses` holds the string values of spec.addresses, `None` for an entry without one. */
  method DetermineGatewayIp(addresses: seq<Option<string>>, cidrs: Option<seq<GatewayCidr>>, networkName: string)
    returns (ip: string)
    ensures addresses != [] && addresses[0].Some? && addresses[0].value != "" ==> ip == addresses[0].value
    ensures !(addresses != [] && addresses[0].Some? && addresses[0].value != "") ==>
              ip == if networkName != "" && cidrs.Some? && FirstVip(cidrs.value, networkName).Some?
                    then Dotted(FirstVip(cidrs.value, networkName).value) else ""
  {
    hide Dotted, ParseCidr, NetworkOf;
    if addresses != [] && addresses[0].Some? && addresses[0].value != "" {
      return addresses[0].value;
    }
    if networkName == "" {
      return "";
    }
    if cidrs.Some? {
      var items := cidrs.value;
      for i := 0 to |items|
        invariant FirstVip(items[i..], networkName) == FirstVip(items, networkName)
      {
        var item := items[i];
        assert items[i..][0] == item && items[i..][1..] == items[i + 1..];
        if item.network == networkName || item.name == networkName {
          if item.ip4cidr != "" {
            var cidr := ParseCidr(item.ip4cidr);
            if cidr.Some? {
              var base := NetworkOf(cidr.value.address, cidr.value.prefix);
              var vip := IncrementLastByte(base);
              if NetworkOf(vip, cidr.value.prefix) == base {
                return Dotted(vip);
              }
            }
          } else {
            BlankIsNoCidr();
          }
        }
      }
      assert items[|items|..] == [];
    }
    return "";
  }

  lemma BlankIsNoCidr()
    ensures ParseCidr("").None?
  {
  }

  /** Bases of blocks of two or more addresses are even, so the last byte never carries. */
  lemma EvenBaseDoesNotCarry(a: Address, prefix: nat)
    requires prefix < 32
    ensures var base := NetworkOf(a, prefix);
            IncrementLastByte(base) == base + 1 <= BroadcastOf(a, prefix)
  {
    hide NetworkOf, BroadcastOf;
    SubnetShape(a, prefix);
    var base, m := NetworkOf(a, prefix), Pow2(31 - prefix);
    assert Pow2(32 - prefix) == 2 * m;
    EvenMultiple(base, m);
  }

  lemma EvenMultiple(base: nat, m: nat)
    requires m >= 1 && base % (2 * m) == 0
    ensures base % 2 == 0 && base % 256 <= 254
  {
    HalveMod(base, m);
    assert Low(base, 2 * m) == 0;
  }

  lemma LowInBlock(base: nat, h: nat, b: nat)
    requires h >= 1 && Low(base, h) == 0 && base <= b < base + h
    ensures Low(b, h) == b - base
  {
    DivModUnique(base, h, base / h, 0);
    DivModUnique(b, h, base / h, b - base);
  }

  /** Anything in the block has the block's base as its network address. */
  lemma SameBlock(a: Address, prefix: nat, b: Address)
    requires prefix <= 32
    requires NetworkOf(a, prefix) <= b <= BroadcastOf(a, prefix)
    ensures NetworkOf(b, prefix) == NetworkOf(a, prefix)
  {
    hide NetworkOf, BroadcastOf, Pow2, Low, Or;
    SubnetFacts(a, prefix);
    SubnetFacts(b, prefix);
    SubnetShape(a, prefix);
    var h := Pow2(32 - prefix);
    AlignedMod(a, h);
    LowInBlock(NetworkOf(a, prefix), h, b);
  }

  /** The VIP is the network address plus one, inside the block; a /32 offers none. */
  lemma VipIsNetworkPlusOne(text: string)
    requires ParseCidr(text).Some?
    ensures var c := ParseCidr(text).value;
            if c.prefix == 32 then VipOf(text).None?
            else VipOf(text) == Some(NetworkOf(c.address, c.prefix) + 1)
                 && NetworkOf(c.address, c.prefix) + 1 <= BroadcastOf(c.address, c.prefix)
  {
    hide NetworkOf, BroadcastOf, ParseCidr;
    var c := ParseCidr(text).value;
    if c.prefix == 32 {
      HostBlock(c.address);
      HostBlock(IncrementLastByte(c.address));
    } else {
      EvenBaseDoesNotCarry(c.address, c.prefix);
      SameBlock(c.address, c.prefix, IncrementLastByte(NetworkOf(c.address, c.prefix)));
    }
  }

  /** What the webhook excludes for CIDR text that parses. */
  lemma CidrExclusion(text: string)
    requires ParseCidr(text).Some?
    ensures var c := ParseCidr(text).value;
            ParseExclusion(text) == Interval(NetworkOf(c.address, c.prefix), CidrEnd(c))
  {
    ParseCidrChars(text);
    hide NetworkOf, BroadcastOf, CidrEnd, ParseCidr;
    assert text[0] in text && text[|text| - 1] in text;
    TrimFixed(text, GoSpace);
  }

  /** The webhook excludes the whole block exactly when the text is plain dotted decimal, or the block one address:
      of a block in mapped form it excludes the network address alone. */
  lemma CidrExcludesBlockExactly(text: string)
    requires ParseCidr(text).Some?
    ensures var c := ParseCidr(text).value;
            && (ParseExclusion(text) == Interval(NetworkOf(c.address, c.prefix), BroadcastOf(c.address, c.prefix))
                <==> ':' !in text || c.prefix == 32)
  {
    hide NetworkOf, BroadcastOf, ParseCidr, ParseExclusion, Pow2;
    var c := ParseCidr(text).value;
    ParseCidrChars(text);
    CidrExclusion(text);
    SubnetShape(c.address, c.prefix);
    SingleAddressBlock(c.prefix);
  }

  lemma SingleAddressBlock(prefix: nat)
    requires prefix <= 32
    ensures Pow2(32 - prefix) == 1 <==> prefix == 32
  {
    if prefix < 32 { assert Pow2(32 - prefix) == 2 * Pow2(31 - prefix); }
  }

  /** Of the VIP a CIDR offers, its own exclusion covers exactly that of plain dotted decimal text. */
  lemma OwnExclusionCoversVipExactly(text: string)
    requires VipOf(text).Some?
    ensures ParseExclusion(text).Has(VipOf(text).value) <==> ':' !in text
  {
    hide NetworkOf, BroadcastOf, ParseCidr, ParseExclusion, VipOf;
    OfferParses(text);
    ParseCidrChars(text);
    VipIsNetworkPlusOne(text);
    CidrExclusion(text);
  }

  lemma OfferParses(text: string)
    requires VipOf(text).Some?
    ensures ParseCidr(text).Some?
  {
  }

  lemma {:induction false} FirstVipSource(cidrs: seq<GatewayCidr>, networkName: string) returns (i: nat)
    requires FirstVip(cidrs, networkName).Some?
    ensures i < |cidrs| && Serves(cidrs[i], networkName)
    ensures VipOf(cidrs[i].ip4cidr) == FirstVip(cidrs, networkName)
  {
    hide VipOf;
    if Serves(cidrs[0], networkName) && VipOf(cidrs[0].ip4cidr).Some? {
      i := 0;
    } else {
      i := FirstVipSource(cidrs[1..], networkName);
      i := i + 1;
    }
  }

  /** The VIP is the offer of the first CIDR, in list order, that serves the network by spec or by name and offers
      one. */
  lemma {:induction false} FirstVipMeaning(cidrs: seq<GatewayCidr>, networkName: string, vip: Address)
    ensures FirstVip(cidrs, networkName) == Some(vip) <==>
              exists i :: 0 <= i < |cidrs| && Offers(cidrs[i], networkName, vip)
                          && forall j, other :: 0 <= j < i ==> !Offers(cidrs[j], networkName, other)
  {
    hide VipOf;
    if cidrs != [] {
      var rest := cidrs[1..];
      FirstVipMeaning(rest, networkName, vip);
      assert forall i :: 0 <= i < |rest| ==> rest[i] == cidrs[i + 1];
      if Serves(cidrs[0], networkName) && VipOf(cidrs[0].ip4cidr).Some? {
        assert Offers(cidrs[0], networkName, VipOf(cidrs[0].ip4cidr).value);
      } else {
        assert forall other :: !Offers(cidrs[0], networkName, other);
        if i :| 0 <= i < |rest| && Offers(rest[i], networkName, vip)
                && forall j, other :: 0 <= j < i ==> !Offers(rest[j], networkName, other) {
          assert cidrs[i + 1] == rest[i];
          assert forall j :: 0 < j < i + 1 ==> cidrs[j] == rest[j - 1];
        }
        if i :| 0 <= i < |cidrs| && Offers(cidrs[i], networkName, vip)
                && forall j, other :: 0 <= j < i ==> !Offers(cidrs[j], networkName, other) {
          assert rest[i - 1] == cidrs[i];
          assert forall j :: 0 <= j < i - 1 ==> rest[j] == cidrs[j + 1];
        }
      }
    }
  }

  predicate Offers(c: GatewayCidr, networkName: string, vip: Address) {
    (c.network == networkName || c.name == networkName) && VipOf(c.ip4cidr) == Some(vip)
  }

  /** The CIDR names the network in its spec, in plain dotted decimal. */
  predicate Proper(c: GatewayCidr, netName: string) {
    c.network == netName && ':' !in c.ip4cidr
  }

  /** The webhook's list of CIDRs was answered, and what it excludes for one that names the network covers the
      address. */
  ghost predicate WebhookCovers(cluster: Cluster, netName: string, a: Address) {
    cluster.gatewayCidrs.Some? && InGatewayCidr(cluster.gatewayCidrs.value, netName, a)
  }

  /** What the webhook covers it never hands out, wrapped search or not. */
  lemma CoveredIsNeverAllocated(cluster: Cluster, netName: string, a: Address)
    requires WebhookCovers(cluster, netName, a)
    ensures NeverAllocated(cluster, netName, a)
  {
    hide Allocate, Start, Broadcast, PrefixLength, ParseIp, InGatewayCidr, Dotted;
    hide NetworkOf, BroadcastOf, HostTexts, VipTexts, GatewayCidrTexts, PodsTexts, InUseTexts;
    forall inUse ensures var r := Allocate(cluster, netName, inUse); r.Ok? ==> r.value.address != a {
      if Allocate(cluster, netName, inUse).Ok? {
        AllocatedIsConfigured(cluster, netName, inUse);
        var net := cluster.networks[netName];
        AllocateSearches(cluster, netName, inUse);
        FirstFreeIsLeast((Start(net) + 1) % SIZE, Broadcast(net), ExcludedOn(cluster, netName, inUse));
        GatewayCidrTextsMeaning(cluster.gatewayCidrs.value, netName, a);
        assert Dotted(a) in ExcludedOn(cluster, netName, inUse);
      }
    }
  }

  lemma AllocatedIsConfigured(cluster: Cluster, netName: string, inUse: set<string>)
    requires Allocate(cluster, netName, inUse).Ok?
    ensures Configured(cluster, netName)
  {
    hide NetworkOf, BroadcastOf, Excluded, ParseIp, FirstFree, PrefixLength;
  }

  /** The webhook was answered, with every CIDR that the Gateway reconciler saw serving the network. */
  predicate Answered(cluster: Cluster, cidrs: seq<GatewayCidr>, netName: string) {
    cluster.gatewayCidrs.Some? && forall c :: c in cidrs && Serves(c, netName) ==> c in cluster.gatewayCidrs.value
  }

  /** A VIP chosen from proper CIDRs is covered whenever the webhook is answered with them. */
  lemma ProperVipIsCovered(cidrs: seq<GatewayCidr>, cluster: Cluster, netName: string)
    requires FirstVip(cidrs, netName).Some?
    requires forall c :: c in cidrs && Serves(c, netName) ==> Proper(c, netName)
    requires Answered(cluster, cidrs, netName)
    ensures WebhookCovers(cluster, netName, FirstVip(cidrs, netName).value)
  {
    hide VipOf, FirstVip, InGatewayCidr, ParseExclusion;
    var i := FirstVipSource(cidrs, netName);
    var listed := cluster.gatewayCidrs.value;
    assert cidrs[i] in cidrs;
    OwnExclusionCoversVipExactly(cidrs[i].ip4cidr);
    var j :| 0 <= j < |listed| && listed[j] == cidrs[i];
    OfferIsInGatewayCidr(listed, netName, j, VipOf(cidrs[i].ip4cidr).value);
  }

  lemma OfferIsInGatewayCidr(cidrs: seq<GatewayCidr>, netName: string, i: nat, vip: Address)
    requires i < |cidrs| && cidrs[i].network == netName && ParseExclusion(cidrs[i].ip4cidr).Has(vip)
    ensures InGatewayCidr(cidrs, netName, vip)
  {
  }

  /** `cidrs` is what the Gateway reconciler listed. If all that serve the network are proper, a pod is given the VIP
      only when the webhook's own list failed or lacks one of them. */
  lemma PodNeverGetsGatewayVip(cidrs: seq<GatewayCidr>, cluster: Cluster, netName: string, inUse: set<string>)
    requires forall c :: c in cidrs && Serves(c, netName) ==> Proper(c, netName)
    requires Allocate(cluster, netName, inUse).Ok?
    ensures FirstVip(cidrs, netName) == Some(Allocate(cluster, netName, inUse).value.address) ==>
              !Answered(cluster, cidrs, netName)
  {
    hide Allocate, FirstVip, WebhookCovers, NeverAllocated;
    if FirstVip(cidrs, netName).Some? && Answered(cluster, cidrs, netName) {
      ProperVipIsCovered(cidrs, cluster, netName);
      CoveredIsNeverAllocated(cluster, netName, FirstVip(cidrs, netName).value);
      NeverMeansNotNow(cluster, netName, FirstVip(cidrs, netName).value, inUse);
    }
  }

  lemma NeverMeansNotNow(cluster: Cluster, netName: string, a: Address, inUse: set<string>)
    requires NeverAllocated(cluster, netName, a) && Allocate(cluster, netName, inUse).Ok?
    ensures Allocate(cluster, netName, inUse).value.address != a
  {
    hide Allocate;
  }

  /** The Gateway's VIP is never allocated exactly when the webhook covers it, or it is out of the subnet, reserved,
      or on record with a live pod already. */
  lemma VipSafeExactly(cidrs: seq<GatewayCidr>, cluster: Cluster, netName: string)
    requires Configured(cluster, netName) && !SearchWraps(cluster.networks[netName])
    requires FirstVip(cidrs, netName).Some?
    ensures var net, vip := cluster.networks[netName], FirstVip(cidrs, netName).value;
            NeverAllocated(cluster, netName, vip) <==>
              || WebhookCovers(cluster, netName, vip)
              || !(Start(net) < vip < Broadcast(net))
              || net.gateway4 == Dotted(vip)
              || 2 <= vip - Start(net) <= 9
              || (net.vips.Some? && InVipRange(net.vips.value, vip))
              || HeldByLivePod(cluster.pods.value, netName, Dotted(vip))
  {
    hide FirstVip, Start, Broadcast, ParseIp, Dotted, InVipRange, InGatewayCidr, HeldByLivePod, NeverAllocated;
    var net, vip := cluster.networks[netName], FirstVip(cidrs, netName).value;
    if Start(net) < vip < Broadcast(net) {
      NeverAllocatedExactly(cluster, netName, vip);
    } else {
      OutsideIsNeverAllocated(cluster, netName, vip);
    }
  }

  lemma OutsideIsNeverAllocated(cluster: Cluster, netName: string, a: Address)
    requires Configured(cluster, netName) && !SearchWraps(cluster.networks[netName])
    requires !(Start(cluster.networks[netName]) < a < Broadcast(cluster.networks[netName]))
    ensures NeverAllocated(cluster, netName, a)
  {
    hide Allocate, Start, Broadcast, Taken, ParseIp, PrefixLength;
    forall inUse ensures var r := Allocate(cluster, netName, inUse); r.Ok? ==> r.value.address != a {
      AllocateIsLeastFree(cluster, netName, inUse);
    }
  }

  const PAIR_BASE: Address := 0x0A00_000A

  /** A network 10.0.0.0/24 and a two-address CIDR that serves it by name only. */
  function NameOnlyCluster(netName: string, other: string): Cluster {
    Cluster(map[netName := NetworkSpec(Dotted(MAPPED_GATEWAY), Some(24), None)],
            Some([GatewayCidr(netName, other, CidrText(PAIR_BASE, 31))]), Some([]))
  }

  lemma PairOffersVip()
    ensures VipOf(CidrText(PAIR_BASE, 31)) == Some(PAIR_BASE + 1)
  {
    hide ParseCidr, CidrText, VipOf;
    ParsePrintedCidr(PAIR_BASE, 31);
    VipIsNetworkPlusOne(CidrText(PAIR_BASE, 31));
    SubnetFacts(PAIR_BASE, 31);
    assert Pow2(1) == 2;
  }

  /** Served by name only, the Gateway's VIP is the second address pods are given. */
  lemma NameOnlyCidrCollides(netName: string, other: string)
    requires other != netName
    ensures var cluster := NameOnlyCluster(netName, other);
            && Configured(cluster, netName) && !SearchWraps(cluster.networks[netName])
            && FirstVip(cluster.gatewayCidrs.value, netName) == Some(PAIR_BASE + 1)
            && Allocate(cluster, netName, {Dotted(PAIR_BASE)}) == Ok(Allocation(PAIR_BASE + 1, 24))
  {
    hide Dotted, NetworkOf, BroadcastOf, ParseIp, Allocate, FirstFree, ParseExclusion, VipOf, CleanIp, CidrText,
         ParseDotted;
    var cluster, inUse := NameOnlyCluster(netName, other), {Dotted(PAIR_BASE)};
    var net := cluster.networks[netName];
    ParsePrinted(MAPPED_GATEWAY);
    ParseIpPlain(Dotted(MAPPED_GATEWAY));
    DottedChars(MAPPED_GATEWAY);
    MappedSubnet();
    PairOffersVip();
    CleanAddress(PAIR_BASE);
    var vip := PAIR_BASE + 1;
    AllocateIsLeastFree(cluster, netName, inUse);
    assert !Taken(cluster, netName, net, Start(net), inUse, vip) by {
      if Dotted(vip) == Dotted(MAPPED_GATEWAY) { DottedInjective(vip, MAPPED_GATEWAY); }
      if Dotted(vip) == Dotted(PAIR_BASE) { DottedInjective(vip, PAIR_BASE); }
    }
    assert Taken(cluster, netName, net, Start(net), inUse, MAPPED_GATEWAY);
    assert Taken(cluster, netName, net, Start(net), inUse, PAIR_BASE) by {
      assert Dotted(PAIR_BASE) in inUse;
    }
  }

  /** The same network, and a two-address CIDR in mapped form that names it in its spec. */
  function MappedCidrCluster(netName: string, cidrName: string): Cluster {
    Cluster(map[netName := NetworkSpec(Dotted(MAPPED_GATEWAY), Some(24), None)],
            Some([GatewayCidr(cidrName, netName, MappedCidrText(PAIR_BASE, 31))]), Some([]))
  }

  /** The webhook leaves the VIP of that CIDR free: the Gateway and the first pod get the same address. */
  lemma MappedCidrCollides(netName: string, cidrName: string)
    ensures var cluster := MappedCidrCluster(netName, cidrName);
            && Configured(cluster, netName) && !SearchWraps(cluster.networks[netName])
            && FirstVip(cluster.gatewayCidrs.value, netName) == Some(PAIR_BASE + 1)
            && Allocate(cluster, netName, {}) == Ok(Allocation(PAIR_BASE + 1, 24))
  {
    hide Dotted, NetworkOf, BroadcastOf, ParseIp, Allocate, FirstFree, ParseExclusion, VipOf, MappedCidrText,
         ParseDotted, ParseCidr;
    var cluster, text := MappedCidrCluster(netName, cidrName), MappedCidrText(PAIR_BASE, 31);
    var net := cluster.networks[netName];
    ParsePrinted(MAPPED_GATEWAY);
    ParseIpPlain(Dotted(MAPPED_GATEWAY));
    DottedChars(MAPPED_GATEWAY);
    MappedSubnet();
    MappedPairExcludesBase();
    var vip := PAIR_BASE + 1;
    AllocateIsLeastFree(cluster, netName, {});
    assert !Taken(cluster, netName, net, Start(net), {}, vip) by {
      if Dotted(vip) == Dotted(MAPPED_GATEWAY) { DottedInjective(vip, MAPPED_GATEWAY); }
    }
    assert Taken(cluster, netName, net, Start(net), {}, MAPPED_GATEWAY);
    assert Taken(cluster, netName, net, Start(net), {}, PAIR_BASE) by {
      assert cluster.gatewayCidrs.value[0].network == netName && ParseExclusion(text).Has(PAIR_BASE);
    }
  }

  lemma MappedPairExcludesBase()
    ensures var text := MappedCidrText(PAIR_BASE, 31);
            VipOf(text) == Some(PAIR_BASE + 1) && ParseExclusion(text) == Interval(PAIR_BASE, PAIR_BASE)
  {
    hide ParseCidr, MappedCidrText, VipOf, ParseExclusion, NetworkOf, BroadcastOf;
    var text := MappedCidrText(PAIR_BASE, 31);
    ParsePrintedMappedCidr(PAIR_BASE, 31);
    VipIsNetworkPlusOne(text);
    CidrExclusion(text);
    PairNetwork();
  }

  lemma PairNetwork()
    ensures NetworkOf(PAIR_BASE, 31) == PAIR_BASE
  {
    SubnetFacts(PAIR_BASE, 31);
    assert Pow2(1) == 2;
  }

  // ---------------------------------------------------------------- an address handed out first

  const BLOCK: Address := 0x0A00_0000
  const FIRST: Address := 0x0A00_0001
  const HIGH_GATEWAY: Address := 0x0A00_00FE

  /** 10.0.0.0/24 with its gateway at the top: the first address handed out is 10.0.0.1. */
  function HighNetwork(): NetworkSpec {
    NetworkSpec(Dotted(HIGH_GATEWAY), Some(24), None)
  }

  /** 10.0.0.0/28, naming the network in its spec, in plain dotted decimal; its VIP is 10.0.0.1. */
  function ProperCidr(netName: string, cidrName: string): GatewayCidr {
    GatewayCidr(cidrName, netName, CidrText(BLOCK, 28))
  }

  lemma BlockSubnets()
    ensures NetworkOf(HIGH_GATEWAY, 24) == BLOCK && BroadcastOf(HIGH_GATEWAY, 24) == BLOCK + 255
    ensures NetworkOf(BLOCK, 28) == BLOCK
  {
    assert Pow2(4) == 16;
    assert Pow2(8) == 16 * Pow2(4);
    SubnetFacts(HIGH_GATEWAY, 24);
    SubnetShape(HIGH_GATEWAY, 24);
    SubnetFacts(BLOCK, 28);
  }

  lemma ProperCidrOffersFirst(netName: string, cidrName: string)
    ensures Proper(ProperCidr(netName, cidrName), netName)
    ensures FirstVip([ProperCidr(netName, cidrName)], netName) == Some(FIRST)
  {
    hide ParseCidr, CidrText, VipOf, NetworkOf, BroadcastOf;
    var text := CidrText(BLOCK, 28);
    BlockSubnets();
    ParsePrintedCidr(BLOCK, 28);
    ParseCidrChars(text);
    VipIsNetworkPlusOne(text);
  }

  /** With no pods and no CIDR excluded, the network's first address goes out first. */
  lemma FirstGoesOutFirst(cluster: Cluster, netName: string)
    requires netName in cluster.networks && cluster.networks[netName] == HighNetwork()
    requires cluster.pods == Some([]) && (cluster.gatewayCidrs.None? || cluster.gatewayCidrs.value == [])
    ensures Configured(cluster, netName) && !SearchWraps(cluster.networks[netName])
    ensures Allocate(cluster, netName, {}) == Ok(Allocation(FIRST, 24))
  {
    hide Dotted, NetworkOf, BroadcastOf, ParseIp, Allocate, FirstFree, ParseDotted;
    var net := cluster.networks[netName];
    ParsePrinted(HIGH_GATEWAY);
    ParseIpPlain(Dotted(HIGH_GATEWAY));
    DottedChars(HIGH_GATEWAY);
    BlockSubnets();
    AllocateIsLeastFree(cluster, netName, {});
    assert !Taken(cluster, netName, net, Start(net), {}, FIRST) by {
      if Dotted(FIRST) == Dotted(HIGH_GATEWAY) { DottedInjective(FIRST, HIGH_GATEWAY); }
    }
  }

  /** A failed list of CIDRs is swallowed by the webhook: the first pod gets the VIP that the Gateway has from a
      proper CIDR. */
  lemma FailedListCollides(netName: string, cidrName: string)
    ensures var cidr, cluster := ProperCidr(netName, cidrName), Solo(netName, HighNetwork());
            && Proper(cidr, netName) && FirstVip([cidr], netName) == Some(FIRST)
            && cluster.gatewayCidrs == None && Configured(cluster, netName)
            && Allocate(cluster, netName, {}) == Ok(Allocation(FIRST, 24))
  {
    hide Allocate, FirstVip, Proper, ProperCidr, HighNetwork, ParseIp;
    ProperCidrOffersFirst(netName, cidrName);
    FirstGoesOutFirst(Solo(netName, HighNetwork()), netName);
  }
}
