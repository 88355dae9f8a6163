/**
  allocateSecondaryIP and excludeIPRangeOrCIDR: the search for a free address on
  a secondary network, with its string-keyed exclusion map.
*/
module Ipam {
  import opened Wrappers
  import opened Text
  import opened Ipv4
  import opened TextSets

  const DEFAULT_PREFIX_LENGTH: nat := 24
  /** Offsets from the network address kept for host node interfaces. */
  const FIRST_HOST_OFFSET: nat := 2
  const LAST_HOST_OFFSET: nat := 9

  datatype MultusEntry = MultusEntry(name: string, iface: string, ips: seq<string>)

  datatype StatusEntry = StatusEntry(name: string, ips: seq<string>)

  /** A stored pod, its annotations decoded; `None` stands for absent, empty or not decodable. */
  datatype StoredPod = StoredPod(live: bool, multus: Option<seq<MultusEntry>>,
                                 networkStatus: Option<seq<StatusEntry>>, networksStatus: Option<seq<StatusEntry>>)

  /** A Network object; `vips` is its decoded load-balancer VIP annotation. */
  datatype NetworkSpec = NetworkSpec(gateway4: string, prefixLength4: Option<int>, vips: Option<seq<string>>)

  datatype GatewayCidr = GatewayCidr(name: string, network: string, ip4cidr: string)

  /** What the API server answers; `None` is a failed List call. */
  datatype Cluster = Cluster(networks: map<string, NetworkSpec>, gatewayCidrs: Option<seq<GatewayCidr>>,
                             pods: Option<seq<StoredPod>>)

  datatype AllocationError = NetworkNotFound | NoGateway | BadGateway | PodListFailed | PoolExhausted

  datatype Allocation = Allocation(address: Address, prefix: nat)

  // ---------------------------------------------------------------- excluded intervals

  datatype Interval = Nothing | Interval(low: Address, high: Address) {
    predicate Has(a: Address) {
      Interval? && low <= a <= high
    }
  }

  /** The addresses a VIP range, CIDR or single IP stands for. */
  function ParseExclusion(text: string): (r: Interval)
    ensures r.Interval? ==> r.low <= r.high
  {
    var val := Trim(text, GoSpace);
    if val == "" then Nothing
    else if '-' in val then
      var parts := Split(val, '-');
      if |parts| == 2 then
        var low, high := ParseIp(Trim(parts[0], GoSpace)), ParseIp(Trim(parts[1], GoSpace));
        if low.Some? && high.Some? && low.value <= high.value then Interval(low.value, high.value) else Nothing
      else
        Nothing
    else if '/' in val then
      var cidr := ParseCidr(val);
      if cidr.Some? then
        var c := cidr.value;
        SubnetShape(c.address, c.prefix);
        Interval(NetworkOf(c.address, c.prefix), CidrEnd(c))
      else
        Nothing
    else
      var ip := ParseIp(val);
      if ip.Some? then Interval(ip.value, ip.value) else Nothing
  }

  /** The keys of the addresses of an interval. */
  function Names(i: Interval): set<string> {
    if i.Nothing? then {} else NamesBetween(i.low, i.high)
  }

  function NamesBetween(low: Address, high: Address): set<string> {
    set a: int | low <= a <= high :: Dotted(a)
  }

  /** A key stands for exactly one address, so the keys are the interval. */
  lemma NamesAreInterval(i: Interval, a: Address)
    ensures Dotted(a) in Names(i) <==> i.Has(a)
  {
    if i.Interval? && Dotted(a) in Names(i) {
      var b: int :| i.low <= b <= i.high && Dotted(b) == Dotted(a);
      DottedInjective(a, b);
    }
  }

  lemma NamesExtend(low: Address, high: Address)
    requires low < high
    ensures NamesBetween(low, high - 1) + {Dotted(high)} == NamesBetween(low, high)
  {
    hide Dotted;
    forall t | t in NamesBetween(low, high) ensures t in NamesBetween(low, high - 1) + {Dotted(high)} {
      var a: int :| low <= a <= high && Dotted(a) == t;
      if a < high { assert Dotted(a) in NamesBetween(low, high - 1); }
    }
  }

  /** The loop of both interval branches; `u` is a uint32, so it must stop before it wraps. */
  method ExcludeInterval(excluded: TextSet, low: Address, high: Address)
    requires low <= high
    modifies excluded
    ensures excluded.members == old(excluded.members) + NamesBetween(low, high)
  {
    hide Dotted;
    var u: Address := low;
    excluded.Add(Dotted(u));
    assert NamesBetween(low, low) == {Dotted(low)};
    while u != high
      invariant low <= u <= high
      invariant excluded.members == old(excluded.members) + NamesBetween(low, u)
      decreases high - u
    {
      NamesExtend(low, u + 1);
      u := (u + 1) % SIZE;
      excluded.Add(Dotted(u));
    }
  }

  method ExcludeIpRangeOrCidr(excluded: TextSet, text: string)
    modifies excluded
    ensures excluded.members == old(excluded.members) + Names(ParseExclusion(text))
  {
    hide Dotted, ParseIp, ParseCidr, Split, Trim, NetworkOf, BroadcastOf, CidrEnd;
    var val := Trim(text, GoSpace);
    if val == "" {
      return;
    }
    if '-' in val {
      var parts := Split(val, '-');
      if |parts| == 2 {
        var low := ParseIp(Trim(parts[0], GoSpace));
        var high := ParseIp(Trim(parts[1], GoSpace));
        if low.Some? && high.Some? && low.value <= high.value {
          ExcludeInterval(excluded, low.value, high.value);
        }
      }
      return;
    }
    if '/' in val {
      var cidr := ParseCidr(val);
      if cidr.Some? {
        var c := cidr.value;
        SubnetShape(c.address, c.prefix);
        ExcludeInterval(excluded, NetworkOf(c.address, c.prefix), CidrEnd(c));
      }
      return;
    }
    var ip := ParseIp(val);
    if ip.Some? {
      excluded.Add(Dotted(ip.value));
      assert NamesBetween(ip.value, ip.value) == {Dotted(ip.value)};
    }
  }

  // ---------------------------------------------------------------- the exclusion set

  /** The address part of an entry such as " 10.0.0.7/24 ". */
  function CleanIp(text: string): string {
    Split(Trim(text, GoSpace), '/')[0]
  }

  /** What one list of textual IPs adds to the map: empty text is skipped. */
  function CleanIps(ips: seq<string>): set<string> {
    (set i | 0 <= i < |ips| :: CleanIp(ips[i])) - {""}
  }

  function MultusTexts(entries: seq<MultusEntry>, netName: string): set<string> {
    if entries == [] then {}
    else
      var e := entries[|entries| - 1];
      MultusTexts(entries[..|entries| - 1], netName) + (if e.name == netName then CleanIps(e.ips) else {})
  }

  /** strings.HasSuffix(name, "/" + netName) or the bare name. */
  predicate StatusNameMatches(name: string, netName: string) {
    name == netName || (|name| > |netName| && name[|name| - |netName| - 1..] == "/" + netName)
  }

  function StatusTexts(entries: seq<StatusEntry>, netName: string): set<string> {
    if entries == [] then {}
    else
      var e := entries[|entries| - 1];
      StatusTexts(entries[..|entries| - 1], netName)
      + (if StatusNameMatches(e.name, netName) then CleanIps(e.ips) else {})
  }

  /** Everything a live pod is on record as using on the network. */
  function PodTexts(pod: StoredPod, netName: string): set<string> {
    if !pod.live then {}
    else
      (if pod.multus.Some? then MultusTexts(pod.multus.value, netName) else {})
      + (if pod.networkStatus.Some? then StatusTexts(pod.networkStatus.value, netName) else {})
      + (if pod.networksStatus.Some? then StatusTexts(pod.networksStatus.value, netName) else {})
  }

  function PodsTexts(pods: seq<StoredPod>, netName: string): set<string> {
    if pods == [] then {}
    else PodsTexts(pods[..|pods| - 1], netName) + PodTexts(pods[|pods| - 1], netName)
  }

  function VipTexts(vips: seq<string>): set<string> {
    if vips == [] then {} else VipTexts(vips[..|vips| - 1]) + Names(ParseExclusion(vips[|vips| - 1]))
  }

  function GatewayCidrTexts(cidrs: seq<GatewayCidr>, netName: string): set<string> {
    if cidrs == [] then {}
    else
      var c := cidrs[|cidrs| - 1];
      GatewayCidrTexts(cidrs[..|cidrs| - 1], netName)
      + (if c.network == netName then Names(ParseExclusion(c.ip4cidr)) else {})
  }

  function InUseTexts(inUse: set<string>): set<string> {
    set t | t in inUse :: CleanIp(t)
  }

  /** The prefix length of the Network, or the default when absent or out of range. */
  function PrefixLength(net: NetworkSpec): (p: nat)
    ensures 1 <= p <= 32
  {
    match net.prefixLength4
    case Some(p) => if p <= 0 || p > 32 then DEFAULT_PREFIX_LENGTH else p
    case None => DEFAULT_PREFIX_LENGTH
  }

  /** The largest offset the host-interface loop reaches, plus one; offsets are added as uint32. */
  function HostOffsetsEnd(start: Address, broadcast: Address, offset: nat): (e: nat)
    requires offset <= LAST_HOST_OFFSET + 1
    ensures offset <= e <= LAST_HOST_OFFSET + 1
    decreases LAST_HOST_OFFSET + 1 - offset
  {
    if offset <= LAST_HOST_OFFSET && (start + offset) % SIZE < broadcast
    then HostOffsetsEnd(start, broadcast, offset + 1) else offset
  }

  function HostText(start: Address, offset: int): string {
    Dotted((start + offset) % SIZE)
  }

  function HostTexts(start: Address, end: nat): set<string> {
    set o: int | FIRST_HOST_OFFSET <= o < end :: HostText(start, o)
  }

  function Excluded(cluster: Cluster, netName: string, net: NetworkSpec, gateway: Address,
                    inUse: set<string>): set<string>
    requires cluster.pods.Some?
  {
    var p := PrefixLength(net);
    var start, broadcast := NetworkOf(gateway, p), BroadcastOf(gateway, p);
    {Dotted(start), Dotted(broadcast), net.gateway4}
    + HostTexts(start, HostOffsetsEnd(start, broadcast, FIRST_HOST_OFFSET))
    + (if net.vips.Some? then VipTexts(net.vips.value) else {})
    + (if cluster.gatewayCidrs.Some? then GatewayCidrTexts(cluster.gatewayCidrs.value, netName) else {})
    + PodsTexts(cluster.pods.value, netName)
    + InUseTexts(inUse)
  }

  /** The first address from `u` on, below `limit`, whose text is not excluded. */
  function FirstFree(u: nat, limit: Address, excluded: set<string>): (r: Option<Address>)
    decreases limit - u
  {
    if u >= limit then None
    else if Dotted(u) !in excluded then Some(u)
    else FirstFree(u + 1, limit, excluded)
  }

  lemma {:induction false} FirstFreeIsLeast(u: nat, limit: Address, excluded: set<string>)
    ensures match FirstFree(u, limit, excluded)
            case Some(a) => u <= a < limit && Dotted(a) !in excluded
                            && forall b: Address :: u <= b < a ==> Dotted(b) in excluded
            case None => forall b: Address :: u <= b < limit ==> Dotted(b) in excluded
    decreases limit - u
  {
    hide Dotted;
    if u < limit && Dotted(u) in excluded { FirstFreeIsLeast(u + 1, limit, excluded); }
  }

  /** allocateSecondaryIP as a function of what the API server answers. */
  function Allocate(cluster: Cluster, netName: string, inUse: set<string>): Result<Allocation, AllocationError> {
    if netName !in cluster.networks then Err(NetworkNotFound)
    else
      var net := cluster.networks[netName];
      if net.gateway4 == "" then Err(NoGateway)
      else if ParseIp(net.gateway4).None? then Err(BadGateway)
      else if cluster.pods.None? then Err(PodListFailed)
      else
        var gateway, p := ParseIp(net.gateway4).value, PrefixLength(net);
        var first := (NetworkOf(gateway, p) + 1) % SIZE;
        var free := FirstFree(first, BroadcastOf(gateway, p), Excluded(cluster, netName, net, gateway, inUse));
        if free.Some? then Ok(Allocation(free.value, p)) else Err(PoolExhausted)
  }

  /** "address/prefix", as it is written into the annotation. */
  function AllocationText(a: Allocation): string {
    CidrText(a.address, a.prefix)
  }

  // ---------------------------------------------------------------- the loops

  method ExcludeCleanIps(excluded: TextSet, ips: seq<string>)
    modifies excluded
    ensures excluded.members == old(excluded.members) + CleanIps(ips)
  {
    for i := 0 to |ips|
      invariant excluded.members == old(excluded.members) + CleanIps(ips[..i])
    {
      var clean := CleanIp(ips[i]);
      CleanIpsStep(ips, i);
      if clean != "" {
        excluded.Add(clean);
      }
    }
    assert ips[..|ips|] == ips;
  }

  lemma CleanIpsStep(ips: seq<string>, i: nat)
    requires i < |ips|
    ensures CleanIps(ips[..i + 1]) == CleanIps(ips[..i]) + ({CleanIp(ips[i])} - {""})
  {
    hide CleanIp;
    var front, all := ips[..i], ips[..i + 1];
    assert all[i] == ips[i] && forall j :: 0 <= j < i ==> all[j] == front[j];
    forall t | t in CleanIps(all) ensures t in CleanIps(front) + ({CleanIp(ips[i])} - {""}) {
      var j :| 0 <= j < |all| && CleanIp(all[j]) == t;
      if j < i { assert CleanIp(front[j]) == t; }
    }
    forall t | t in CleanIps(front) ensures t in CleanIps(all) {
      var j :| 0 <= j < |front| && CleanIp(front[j]) == t;
      assert CleanIp(all[j]) == t;
    }
  }

  method ExcludeStatus(excluded: TextSet, status: Option<seq<StatusEntry>>, netName: string)
    modifies excluded
    ensures excluded.members
         == old(excluded.members) + (if status.Some? then StatusTexts(status.value, netName) else {})
  {
    if status.Some? {
      var entries := status.value;
      for i := 0 to |entries|
        invariant excluded.members == old(excluded.members) + StatusTexts(entries[..i], netName)
      {
        assert entries[..i + 1][..i] == entries[..i];
        if StatusNameMatches(entries[i].name, netName) {
          ExcludeCleanIps(excluded, entries[i].ips);
        }
      }
      assert entries[..|entries|] == entries;
    }
  }

  method ExcludePods(excluded: TextSet, pods: seq<StoredPod>, netName: string)
    modifies excluded
    ensures excluded.members == old(excluded.members) + PodsTexts(pods, netName)
  {
    for i := 0 to |pods|
      invariant excluded.members == old(excluded.members) + PodsTexts(pods[..i], netName)
    {
      assert pods[..i + 1][..i] == pods[..i];
      var pod := pods[i];
      if !pod.live {
        continue;
      }
      label BeforePod:
      if pod.multus.Some? {
        var entries := pod.multus.value;
        for k := 0 to |entries|
          invariant excluded.members == old@BeforePod(excluded.members) + MultusTexts(entries[..k], netName)
        {
          assert entries[..k + 1][..k] == entries[..k];
          if entries[k].name == netName {
            ExcludeCleanIps(excluded, entries[k].ips);
          }
        }
        assert entries[..|entries|] == entries;
      }
      ExcludeStatus(excluded, pod.networkStatus, netName);
      ExcludeStatus(excluded, pod.networksStatus, netName);
    }
    assert pods[..|pods|] == pods;
  }

  method ExcludeInUse(excluded: TextSet, inUse: set<string>)
    modifies excluded
    ensures excluded.members == old(excluded.members) + InUseTexts(inUse)
  {
    hide CleanIp;
    var rest := inUse;
    while rest != {}
      invariant rest <= inUse
      invariant excluded.members == old(excluded.members) + InUseTexts(inUse - rest)
      decreases |rest|
    {
      var t :| t in rest;
      excluded.Add(CleanIp(t));
      assert inUse - (rest - {t}) == (inUse - rest) + {t};
      assert InUseTexts((inUse - rest) + {t}) == InUseTexts(inUse - rest) + {CleanIp(t)};
      rest := rest - {t};
    }
    assert inUse - {} == inUse;
  }

  method ExcludeHostOffsets(excluded: TextSet, start: Address, broadcast: Address)
    modifies excluded
    ensures excluded.members
         == old(excluded.members) + HostTexts(start, HostOffsetsEnd(start, broadcast, FIRST_HOST_OFFSET))
  {
    hide HostText;
    var offset := FIRST_HOST_OFFSET;
    assert HostTexts(start, FIRST_HOST_OFFSET) == {};
    while offset <= LAST_HOST_OFFSET && (start + offset) % SIZE < broadcast
      invariant FIRST_HOST_OFFSET <= offset <= LAST_HOST_OFFSET + 1
      invariant HostOffsetsEnd(start, broadcast, offset) == HostOffsetsEnd(start, broadcast, FIRST_HOST_OFFSET)
      invariant excluded.members == old(excluded.members) + HostTexts(start, offset)
    {
      excluded.Add(HostText(start, offset));
      HostTextsStep(start, offset);
      offset := offset + 1;
    }
  }

  lemma HostTextsStep(start: Address, end: nat)
    requires FIRST_HOST_OFFSET <= end
    ensures HostTexts(start, end + 1) == HostTexts(start, end) + {HostText(start, end)}
  {
    hide Dotted;
    forall t | t in HostTexts(start, end + 1) ensures t in HostTexts(start, end) + {HostText(start, end)} {
      var o: int :| FIRST_HOST_OFFSET <= o < end + 1 && HostText(start, o) == t;
      if o < end { assert HostText(start, o) in HostTexts(start, end); }
    }
    assert HostText(start, end) in HostTexts(start, end + 1);
    forall t | t in HostTexts(start, end) ensures t in HostTexts(start, end + 1) {
      var o: int :| FIRST_HOST_OFFSET <= o < end && HostText(start, o) == t;
      assert HostText(start, o) in HostTexts(start, end + 1);
    }
  }

  method BuildExclusions(cluster: Cluster, netName: string, net: NetworkSpec, gateway: Address, inUse: set<string>)
    returns (excluded: TextSet)
    requires cluster.pods.Some?
    ensures fresh(excluded)
    ensures excluded.members == Excluded(cluster, netName, net, gateway, inUse)
  {
    hide Dotted, HostTexts, HostOffsetsEnd, VipTexts, GatewayCidrTexts, PodsTexts, InUseTexts, NetworkOf, BroadcastOf;
    var p := PrefixLength(net);
    var start, broadcast := NetworkOf(gateway, p), BroadcastOf(gateway, p);
    excluded := new TextSet();
    excluded.Add(Dotted(start));
    excluded.Add(Dotted(broadcast));
    excluded.Add(net.gateway4);
    ExcludeHostOffsets(excluded, start, broadcast);
    ExcludeVips(excluded, net.vips);
    ExcludeGatewayCidrs(excluded, cluster.gatewayCidrs, netName);
    ExcludePods(excluded, cluster.pods.value, netName);
    ExcludeInUse(excluded, inUse);
  }

  method ExcludeVips(excluded: TextSet, annotation: Option<seq<string>>)
    modifies excluded
    ensures excluded.members == old(excluded.members) + (if annotation.Some? then VipTexts(annotation.value) else {})
  {
    if annotation.Some? {
      var vips := annotation.value;
      for i := 0 to |vips|
        invariant excluded.members == old(excluded.members) + VipTexts(vips[..i])
      {
        assert vips[..i + 1][..i] == vips[..i];
        ExcludeIpRangeOrCidr(excluded, vips[i]);
      }
      assert vips[..|vips|] == vips;
    }
  }

  lemma BlankExcludesNothing()
    ensures Names(ParseExclusion("")) == {}
  {
    assert Trim("", GoSpace) == "";
  }

  method ExcludeGatewayCidrs(excluded: TextSet, list: Option<seq<GatewayCidr>>, netName: string)
    modifies excluded
    ensures excluded.members
         == old(excluded.members) + (if list.Some? then GatewayCidrTexts(list.value, netName) else {})
  {
    hide ParseExclusion, Names;
    BlankExcludesNothing();
    if list.Some? {
      var cidrs := list.value;
      for i := 0 to |cidrs|
        invariant excluded.members == old(excluded.members) + GatewayCidrTexts(cidrs[..i], netName)
      {
        assert cidrs[..i + 1][..i] == cidrs[..i];
        if cidrs[i].network == netName && cidrs[i].ip4cidr != "" {
          ExcludeIpRangeOrCidr(excluded, cidrs[i].ip4cidr);
        }
      }
      assert cidrs[..|cidrs|] == cidrs;
    }
  }

  /** On success the address is also recorded in the caller's in-use set. */
  method AllocateSecondaryIp(cluster: Cluster, netName: string, inUse: TextSet)
    returns (r: Result<string, AllocationError>)
    modifies inUse
    ensures match Allocate(cluster, netName, old(inUse.members))
            case Ok(a) => r == Ok(AllocationText(a)) && inUse.members == old(inUse.members) + {Dotted(a.address)}
            case Err(e) => r == Err(e) && inUse.members == old(inUse.members)
  {
    hide Dotted, Excluded, ParseIp, Decimal;
    if netName !in cluster.networks {
      return Err(NetworkNotFound);
    }
    var net := cluster.networks[netName];
    if net.gateway4 == "" {
      return Err(NoGateway);
    }
    var gateway := ParseIp(net.gateway4);
    if gateway.None? {
      return Err(BadGateway);
    }
    if cluster.pods.None? {
      return Err(PodListFailed);
    }
    var p := PrefixLength(net);
    var excluded := BuildExclusions(cluster, netName, net, gateway.value, inUse.members);
    var broadcast := BroadcastOf(gateway.value, p);
    var u: Address := (NetworkOf(gateway.value, p) + 1) % SIZE;
    ghost var first := u;
    while u < broadcast
      invariant FirstFree(u, broadcast, excluded.members) == FirstFree(first, broadcast, excluded.members)
      decreases broadcast - u
    {
      if Dotted(u) !in excluded.members {
        inUse.Add(Dotted(u));
        return Ok(Dotted(u) + ['/'] + Decimal(p));
      }
      u := u + 1;
    }
    return Err(PoolExhausted);
  }
}
