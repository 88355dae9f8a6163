/**
  MutatePodInterfacesWithContext: splits a pod's interfaces into primary and
  secondary ones and merges the secondary ones into its Multus list, allocating
  an address for every entry that has none.
*/
module PodMutator {
  import opened Wrappers
  import opened Text
  import opened Ipv4
  import opened Ipam
  import opened TextSets

  datatype Iface = Iface(interfaceName: string, network: string)

  /** The decoded annotations; `None` stands for absent, blank or not decodable. */
  datatype PodAnnotations = PodAnnotations(interfaces: Option<seq<Iface>>, multus: Option<seq<MultusEntry>>,
                                           defaultInterface: Option<string>)

  const ETH0: Iface := Iface("eth0", "pod-network")

  predicate IsPrimary(i: Iface) {
    var network := Trim(i.network, GoSpace);
    network == "" || network == "pod-network" || network == "default"
  }

  /** The Multus entry asked for by a secondary interface. */
  function Requested(i: Iface): MultusEntry {
    MultusEntry(Trim(i.network, GoSpace), Trim(i.interfaceName, GoSpace), [])
  }

  function Primaries(ifaces: seq<Iface>): seq<Iface> {
    if ifaces == [] then []
    else
      var last := ifaces[|ifaces| - 1];
      Primaries(ifaces[..|ifaces| - 1]) + (if IsPrimary(last) then [last] else [])
  }

  function Secondaries(ifaces: seq<Iface>): seq<MultusEntry> {
    if ifaces == [] then []
    else
      var last := ifaces[|ifaces| - 1];
      Secondaries(ifaces[..|ifaces| - 1]) + (if IsPrimary(last) then [] else [Requested(last)])
  }

  predicate Matches(existing: MultusEntry, sec: MultusEntry) {
    existing.name == sec.name && (existing.iface == sec.iface || sec.iface == "" || existing.iface == "")
  }

  /** The first matching entry from `k` on, or the length when there is none. */
  function FindEntry(entries: seq<MultusEntry>, sec: MultusEntry, k: nat): (r: nat)
    requires k <= |entries|
    ensures k <= r <= |entries|
    ensures r < |entries| ==> Matches(entries[r], sec)
    ensures forall j :: k <= j < r ==> !Matches(entries[j], sec)
    decreases |entries| - k
  {
    if k == |entries| || Matches(entries[k], sec) then k else FindEntry(entries, sec, k + 1)
  }

  /** The list under construction and the addresses already spoken for in this pod. */
  datatype Merge = Merge(entries: seq<MultusEntry>, inUse: set<string>)

  function Named(existing: MultusEntry, sec: MultusEntry): MultusEntry {
    if existing.iface == "" && sec.iface != "" then existing.(iface := sec.iface) else existing
  }

  /** An entry for `sec` and the in-use set, with an address allocated if it has none and there is a client. */
  function Addressed(cluster: Option<Cluster>, entry: MultusEntry, netName: string, inUse: set<string>):
    Result<(MultusEntry, set<string>), AllocationError>
  {
    if entry.ips == [] && cluster.Some? then
      match Allocate(cluster.value, netName, inUse)
      case Ok(a) => Ok((entry.(ips := [AllocationText(a)]), inUse + {Dotted(a.address)}))
      case Err(e) => Err(e)
    else
      Ok((entry, inUse))
  }

  function MergeOne(cluster: Option<Cluster>, m: Merge, sec: MultusEntry): Result<Merge, AllocationError> {
    var k := FindEntry(m.entries, sec, 0);
    var base := if k < |m.entries| then Named(m.entries[k], sec) else sec;
    match Addressed(cluster, base, sec.name, m.inUse)
    case Err(e) => Err(e)
    case Ok((entry, inUse)) =>
      Ok(Merge(if k < |m.entries| then m.entries[k := entry] else m.entries + [entry], inUse))
  }

  function MergeAll(cluster: Option<Cluster>, m: Merge, secs: seq<MultusEntry>): Result<Merge, AllocationError>
    decreases |secs|
  {
    if secs == [] then Ok(m)
    else
      match MergeOne(cluster, m, secs[0])
      case Err(e) => Err(e)
      case Ok(next) => MergeAll(cluster, next, secs[1..])
  }

  function ListedTexts(entries: seq<MultusEntry>): set<string> {
    if entries == [] then {}
    else ListedTexts(entries[..|entries| - 1]) + CleanIps(entries[|entries| - 1].ips)
  }

  function Existing(pod: PodAnnotations): seq<MultusEntry> {
    if pod.multus.Some? then pod.multus.value else []
  }

  function Sanitized(ifaces: seq<Iface>): seq<Iface> {
    if Primaries(ifaces) == [] then [ETH0] else Primaries(ifaces)
  }

  /** Whether the pod was mutated, and its annotations afterwards. */
  function Mutate(cluster: Option<Cluster>, pod: PodAnnotations): Result<(bool, PodAnnotations), AllocationError> {
    if pod.interfaces.None? || Secondaries(pod.interfaces.value) == [] then Ok((false, pod))
    else
      match MergeAll(cluster, Merge(Existing(pod), ListedTexts(Existing(pod))), Secondaries(pod.interfaces.value))
      case Err(e) => Err(e)
      case Ok(m) =>
        Ok((true, PodAnnotations(Some(Sanitized(pod.interfaces.value)), Some(m.entries),
                                 if pod.defaultInterface.Some? then pod.defaultInterface else Some("eth0"))))
  }

  // ---------------------------------------------------------------- the webhook

  class Pod {
    var interfaces: Option<seq<Iface>>
    var multus: Option<seq<MultusEntry>>
    var defaultInterface: Option<string>

    constructor (p: PodAnnotations)
      ensures Annotations() == p
    {
      interfaces, multus, defaultInterface := p.interfaces, p.multus, p.defaultInterface;
    }

    function Annotations(): PodAnnotations
      reads this
    {
      PodAnnotations(interfaces, multus, defaultInterface)
    }

    /** An allocation error leaves the pod as it was. */
    method MutateInterfaces(cluster: Option<Cluster>) returns (r: Result<bool, AllocationError>)
      modifies this
      ensures match Mutate(cluster, old(Annotations()))
              case Ok((mutated, p)) => r == Ok(mutated) && Annotations() == p
              case Err(e) => r == Err(e) && Annotations() == old(Annotations())
    {
      hide Primaries, Secondaries, ListedTexts, MergeAll;
      if interfaces.None? {
        return Ok(false);
      }
      var primaries, secondaries := Classify(interfaces.value);
      if secondaries == [] {
        return Ok(false);
      }
      var existing := if multus.Some? then multus.value else [];
      var merged := MergeSecondaries(cluster, existing, secondaries);
      if merged.Err? {
        return Err(merged.error);
      }
      multus := Some(merged.value);
      interfaces := Some(if primaries == [] then [ETH0] else primaries);
      if defaultInterface.None? {
        defaultInterface := Some("eth0");
      }
      return Ok(true);
    }
  }

  method Classify(ifaces: seq<Iface>) returns (primaries: seq<Iface>, secondaries: seq<MultusEntry>)
    ensures primaries == Primaries(ifaces)
    ensures secondaries == Secondaries(ifaces)
  {
    hide Trim;
    primaries, secondaries := [], [];
    for i := 0 to |ifaces|
      invariant primaries == Primaries(ifaces[..i])
      invariant secondaries == Secondaries(ifaces[..i])
    {
      assert ifaces[..i + 1][..i] == ifaces[..i];
      var network := Trim(ifaces[i].network, GoSpace);
      if network == "" || network == "pod-network" || network == "default" {
        primaries := primaries + [ifaces[i]];
      } else {
        secondaries := secondaries + [MultusEntry(network, Trim(ifaces[i].interfaceName, GoSpace), [])];
      }
    }
    assert ifaces[..|ifaces|] == ifaces;
  }

  /** Addresses listed in existing entries are in use from the start. */
  method CollectListed(existing: seq<MultusEntry>) returns (inUse: TextSet)
    ensures fresh(inUse) && inUse.members == ListedTexts(existing)
  {
    hide CleanIps;
    inUse := new TextSet();
    for i := 0 to |existing|
      invariant inUse.members == ListedTexts(existing[..i])
    {
      assert existing[..i + 1][..i] == existing[..i];
      ExcludeCleanIps(inUse, existing[i].ips);
    }
    assert existing[..|existing|] == existing;
  }

  method MergeSecondaries(cluster: Option<Cluster>, entries: seq<MultusEntry>, secondaries: seq<MultusEntry>)
    returns (r: Result<seq<MultusEntry>, AllocationError>)
    ensures match MergeAll(cluster, Merge(entries, ListedTexts(entries)), secondaries)
            case Ok(m) => r == Ok(m.entries)
            case Err(e) => r == Err(e)
  {
    hide MergeOne, ListedTexts;
    var existing := entries;
    var inUse := CollectListed(existing);
    for i := 0 to |secondaries|
      invariant fresh(inUse)
      invariant MergeAll(cluster, Merge(existing, inUse.members), secondaries[i..])
             == MergeAll(cluster, Merge(entries, ListedTexts(entries)), secondaries)
    {
      var sec := secondaries[i];
      assert secondaries[i..][0] == sec && secondaries[i..][1..] == secondaries[i + 1..];
      var step := MergeInto(cluster, existing, inUse, sec);
      if step.Err? {
        return Err(step.error);
      }
      existing := step.value;
    }
    return Ok(existing);
  }

  /** The body of the merge loop, for one secondary network. */
  method MergeInto(cluster: Option<Cluster>, existing: seq<MultusEntry>, inUse: TextSet, sec: MultusEntry)
    returns (r: Result<seq<MultusEntry>, AllocationError>)
    modifies inUse
    ensures match MergeOne(cluster, Merge(existing, old(inUse.members)), sec)
            case Ok(m) => r == Ok(m.entries) && inUse.members == m.inUse
            case Err(e) => r == Err(e)
  {
    hide Allocate, Dotted, AllocationText;
    var found := 0;
    while found < |existing| && !Matches(existing[found], sec)
      invariant found <= |existing|
      invariant FindEntry(existing, sec, found) == FindEntry(existing, sec, 0)
    {
      found := found + 1;
    }
    if found < |existing| {
      var entry := existing[found];
      if entry.iface == "" && sec.iface != "" {
        entry := entry.(iface := sec.iface);
      }
      if |entry.ips| == 0 && cluster.Some? {
        var ip := AllocateSecondaryIp(cluster.value, sec.name, inUse);
        if ip.Err? {
          return Err(ip.error);
        }
        entry := entry.(ips := [ip.value]);
      }
      return Ok(existing[found := entry]);
    }
    var entry := sec;
    if |entry.ips| == 0 && cluster.Some? {
      var ip := AllocateSecondaryIp(cluster.value, sec.name, inUse);
      if ip.Err? {
        return Err(ip.error);
      }
      entry := entry.(ips := [ip.value]);
    }
    return Ok(existing + [entry]);
  }
}
