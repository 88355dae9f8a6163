/**
  Histories of the webhook: pods admitted one after the other, each stored
  before the next, with terminations and CNI status reports in between.
*/
module Admissions {
  import opened Wrappers
  import opened Ipv4
  import opened Ipam
  import opened PodMutator
  import opened AllocationLaws
  import opened MutationLaws

  /** The networks and CIDRs are whatever they are at the time of the admission. */
  datatype Event =
    | Admit(networks: map<string, NetworkSpec>, gatewayCidrs: Option<seq<GatewayCidr>>, pod: PodAnnotations,
            networkStatus: Option<seq<StatusEntry>>, networksStatus: Option<seq<StatusEntry>>)
    | Terminate(index: nat)
    | Report(index: nat, status: Option<seq<StatusEntry>>, statuses: Option<seq<StatusEntry>>)

  /** A refused pod is not stored; a deleted pod counts for as little as a terminated one. */
  function Apply(pods: seq<StoredPod>, e: Event): seq<StoredPod> {
    match e
    case Admit(networks, gatewayCidrs, pod, networkStatus, networksStatus) =>
      (match Mutate(Some(Cluster(networks, gatewayCidrs, Some(pods))), pod)
       case Ok((_, p)) => pods + [StoredPod(true, p.multus, networkStatus, networksStatus)]
       case Err(_) => pods)
    case Terminate(i) => if i < |pods| then pods[i := pods[i].(live := false)] else pods
    case Report(i, status, statuses) =>
      if i < |pods| then pods[i := pods[i].(networkStatus := status, networksStatus := statuses)] else pods
  }

  function Run(events: seq<Event>): seq<StoredPod> {
    if events == [] then [] else Apply(Run(events[..|events| - 1]), events[|events| - 1])
  }

  function Entries(pod: StoredPod): seq<MultusEntry> {
    if pod.multus.Some? then pod.multus.value else []
  }

  /** The i-th address of the k-th entry. */
  predicate Lists(entries: seq<MultusEntry>, k: int, i: int, text: string): (r: bool)
    ensures r ==> 0 <= k < |entries| && text != ""
  {
    0 <= k < |entries| && 0 <= i < |entries[k].ips| && CleanIp(entries[k].ips[i]) == text && text != ""
  }

  /** No address is listed twice. */
  ghost predicate DistinctWithin(entries: seq<MultusEntry>) {
    forall k, i, l, j, text :: Lists(entries, k, i, text) && Lists(entries, l, j, text) ==> k == l && i == j
  }

  /** No address is held by both on the same network. */
  ghost predicate Disjoint(a: seq<MultusEntry>, b: seq<MultusEntry>) {
    forall netName, text :: text != "" ==> !(HeldByEntry(a, netName, text) && HeldByEntry(b, netName, text))
  }

  /** No two live pods hold one address on one network, and no live pod holds one twice. */
  ghost predicate Unique(pods: seq<StoredPod>) {
    && (forall i :: 0 <= i < |pods| && pods[i].live ==> DistinctWithin(Entries(pods[i])))
    && (forall i, j :: 0 <= i < j < |pods| && pods[i].live && pods[j].live ==>
          Disjoint(Entries(pods[i]), Entries(pods[j])))
  }

  /** The addresses in the list are pairwise distinct, and no live pod's list holds one of them on its network. */
  ghost predicate Free(pods: seq<StoredPod>, entries: seq<MultusEntry>) {
    && DistinctWithin(entries)
    && forall i :: 0 <= i < |pods| && pods[i].live ==> Disjoint(Entries(pods[i]), entries)
  }

  function Answer(pods: seq<StoredPod>, e: Event): Result<(bool, PodAnnotations), AllocationError>
    requires e.Admit?
  {
    Mutate(Some(Cluster(e.networks, e.gatewayCidrs, Some(pods))), e.pod)
  }

  /** The addresses that an admitted pod brings along are free; what happens to a refused pod does not matter. */
  ghost predicate BringsFreeIps(pods: seq<StoredPod>, e: Event) {
    e.Admit? && Answer(pods, e).Ok? ==> Free(pods, Existing(e.pod))
  }

  /** The pod leaves addressing to the allocator. */
  predicate BringsNoIps(e: Event) {
    e.Admit? ==> forall k :: 0 <= k < |Existing(e.pod)| ==> Existing(e.pod)[k].ips == []
  }

  // ---------------------------------------------------------------- one allocation

  /** A granted address is recorded neither with a live pod of the network nor in this pod. */
  lemma AllocateAvoids(cluster: Cluster, netName: string, inUse: set<string>)
    requires Allocate(cluster, netName, inUse).Ok?
    ensures cluster.pods.Some?
    ensures var text := Dotted(Allocate(cluster, netName, inUse).value.address);
            && text != ""
            && !HeldByLivePod(cluster.pods.value, netName, text)
            && text !in InUseTexts(inUse)
  {
    hide Dotted, NetworkOf, BroadcastOf, FirstFree, ParseIp, PrefixLength, HostTexts, VipTexts, GatewayCidrTexts,
         PodsTexts, InUseTexts, HeldByLivePod;
    var net := cluster.networks[netName];
    var gateway := ParseIp(net.gateway4).value;
    var p := PrefixLength(net);
    var excluded := Excluded(cluster, netName, net, gateway, inUse);
    FirstFreeIsLeast((NetworkOf(gateway, p) + 1) % SIZE, BroadcastOf(gateway, p), excluded);
    var a := Allocate(cluster, netName, inUse).value.address;
    DottedChars(a);
    PodsTextsMeaning(cluster.pods.value, netName, Dotted(a));
  }

  // ---------------------------------------------------------------- one merge

  /** The list being merged: its addresses are free and recorded in use. */
  ghost predicate Sound(pods: seq<StoredPod>, m: Merge) {
    && DistinctWithin(m.entries)
    && (forall k, i, text :: Lists(m.entries, k, i, text) ==>
          text in m.inUse && !HeldByLiveList(pods, m.entries[k].name, text))
  }

  /** Some live pod's Multus list holds the address on the network. */
  ghost predicate HeldByLiveList(pods: seq<StoredPod>, netName: string, text: string) {
    exists i :: 0 <= i < |pods| && pods[i].live && HeldByEntry(Entries(pods[i]), netName, text)
  }

  lemma LiveListIsHeld(pods: seq<StoredPod>, netName: string, text: string)
    ensures HeldByLiveList(pods, netName, text) ==> HeldByLivePod(pods, netName, text)
  {
    hide ListsIp;
    if HeldByLiveList(pods, netName, text) {
      var i :| 0 <= i < |pods| && pods[i].live && HeldByEntry(Entries(pods[i]), netName, text);
      assert Holds(pods[i], netName, text);
    }
  }

  /** An allocated entry lists its one address. */
  lemma AllocatedLists(entries: seq<MultusEntry>, k: nat, a: Allocation)
    requires k < |entries| && entries[k].ips == [AllocationText(a)]
    ensures forall i, text :: Lists(entries, k, i, text) <==> i == 0 && text == Dotted(a.address)
  {
    hide Dotted, CleanIp, AllocationText;
    CleanAllocation(a);
    DottedChars(a.address);
  }

  lemma SameEntryLists(before: seq<MultusEntry>, after: seq<MultusEntry>, k: int)
    requires 0 <= k < |before| && k < |after| && after[k].ips == before[k].ips
    ensures forall i, text :: Lists(after, k, i, text) <==> Lists(before, k, i, text)
  {
    hide CleanIp;
  }

  lemma SoundPut(pods: seq<StoredPod>, m: Merge, entry: MultusEntry, k: nat, a: Allocation)
    requires Sound(pods, m) && k <= |m.entries|
    requires entry.ips == [AllocationText(a)]
    requires k < |m.entries| ==> m.entries[k].ips == []
    requires Dotted(a.address) !in m.inUse && !HeldByLiveList(pods, entry.name, Dotted(a.address))
    ensures Sound(pods, Merge(if k < |m.entries| then m.entries[k := entry] else m.entries + [entry],
                              m.inUse + {Dotted(a.address)}))
  {
    hide Dotted, HeldByLiveList, AllocationText, Lists;
    var entries := if k < |m.entries| then m.entries[k := entry] else m.entries + [entry];
    AllocatedLists(entries, k, a);
    forall l, i, text | l != k && Lists(entries, l, i, text)
      ensures Lists(m.entries, l, i, text) && entries[l] == m.entries[l] && text != Dotted(a.address)
    {
      SameEntryLists(m.entries, entries, l);
    }
  }

  lemma SoundRename(pods: seq<StoredPod>, m: Merge, k: nat, entry: MultusEntry)
    requires Sound(pods, m) && k < |m.entries|
    requires entry.name == m.entries[k].name && entry.ips == m.entries[k].ips
    ensures Sound(pods, Merge(m.entries[k := entry], m.inUse))
  {
    hide HeldByLiveList, Lists;
    var entries := m.entries[k := entry];
    forall l, i, text | Lists(entries, l, i, text)
      ensures Lists(m.entries, l, i, text) && 0 <= l < |entries| && entries[l].name == m.entries[l].name
    {
      SameEntryLists(m.entries, entries, l);
    }
  }

  /** An address in use is excluded, so it is not allocated again. */
  lemma AllocateAvoidsInUse(cluster: Cluster, netName: string, inUse: set<string>)
    requires Allocate(cluster, netName, inUse).Ok?
    ensures Dotted(Allocate(cluster, netName, inUse).value.address) !in inUse
  {
    hide Allocate, Dotted, CleanIp, HeldByLivePod;
    AllocateAvoids(cluster, netName, inUse);
    var a := Allocate(cluster, netName, inUse).value.address;
    CleanAddress(a);
    assert Dotted(a) in inUse ==> CleanIp(Dotted(a)) in InUseTexts(inUse);
  }

  lemma MergeOneSound(cluster: Cluster, m: Merge, sec: MultusEntry)
    requires cluster.pods.Some? && Sound(cluster.pods.value, m)
    requires sec.ips == []
    requires MergeOne(Some(cluster), m, sec).Ok?
    ensures Sound(cluster.pods.value, MergeOne(Some(cluster), m, sec).value)
  {
    hide Allocate, Sound, Dotted, AllocationText, InUseTexts, HeldByLivePod, HeldByLiveList;
    var k := FindEntry(m.entries, sec, 0);
    if k < |m.entries| && m.entries[k].ips != [] {
      SoundRename(cluster.pods.value, m, k, PodMutator.Named(m.entries[k], sec));
    } else {
      var a := Allocate(cluster, sec.name, m.inUse).value;
      AllocateAvoids(cluster, sec.name, m.inUse);
      AllocateAvoidsInUse(cluster, sec.name, m.inUse);
      var base := if k < |m.entries| then PodMutator.Named(m.entries[k], sec) else sec;
      LiveListIsHeld(cluster.pods.value, base.name, Dotted(a.address));
      SoundPut(cluster.pods.value, m, base.(ips := [AllocationText(a)]), k, a);
    }
  }

  lemma {:induction false} MergeAllSound(cluster: Cluster, m: Merge, secs: seq<MultusEntry>)
    requires cluster.pods.Some? && Sound(cluster.pods.value, m)
    requires forall s :: s in secs ==> s.ips == []
    requires MergeAll(Some(cluster), m, secs).Ok?
    ensures Sound(cluster.pods.value, MergeAll(Some(cluster), m, secs).value)
    decreases |secs|
  {
    hide Sound, MergeOne;
    if secs != [] {
      assert secs[0] in secs;
      MergeOneSound(cluster, m, secs[0]);
      MergeAllSound(cluster, MergeOne(Some(cluster), m, secs[0]).value, secs[1..]);
    }
  }

  // ---------------------------------------------------------------- free lists

  lemma {:induction false} RequestsBringNoIps(ifaces: seq<Iface>)
    ensures forall s :: s in Secondaries(ifaces) ==> s.ips == []
  {
    hide IsPrimary;
    if ifaces != [] { RequestsBringNoIps(ifaces[..|ifaces| - 1]); }
  }

  /** Every address of the list is in use from the start. */
  lemma {:induction false} ListedIsInUse(entries: seq<MultusEntry>, k: int, i: int, text: string)
    requires Lists(entries, k, i, text)
    ensures text in ListedTexts(entries)
  {
    hide CleanIp;
    var n := |entries| - 1;
    if k < n {
      assert entries[..n][k] == entries[k];
      ListedIsInUse(entries[..n], k, i, text);
    } else {
      assert CleanIp(entries[n].ips[i]) in CleanIps(entries[n].ips);
    }
  }

  /** Holding an address is listing it in an entry of the network. */
  lemma HeldIsListed(entries: seq<MultusEntry>, netName: string, text: string)
    requires text != ""
    ensures HeldByEntry(entries, netName, text) <==>
              exists k, i :: Lists(entries, k, i, text) && entries[k].name == netName
  {
    hide CleanIp;
    if HeldByEntry(entries, netName, text) {
      var k :| 0 <= k < |entries| && entries[k].name == netName && ListsIp(entries[k].ips, text);
      var i :| 0 <= i < |entries[k].ips| && CleanIp(entries[k].ips[i]) == text;
      assert Lists(entries, k, i, text);
    }
    if k, i :| Lists(entries, k, i, text) && entries[k].name == netName {
      assert ListsIp(entries[k].ips, text);
    }
  }

  /** A free list can be merged into. */
  lemma FreeIsSound(pods: seq<StoredPod>, entries: seq<MultusEntry>)
    requires Free(pods, entries)
    ensures Sound(pods, Merge(entries, ListedTexts(entries)))
  {
    hide Lists, HeldByEntry, DistinctWithin, ListedTexts;
    forall k, i, text | Lists(entries, k, i, text)
      ensures text in ListedTexts(entries) && !HeldByLiveList(pods, entries[k].name, text)
    {
      ListedIsInUse(entries, k, i, text);
      HeldIsListed(entries, entries[k].name, text);
    }
  }

  /** A sound list is free. */
  lemma SoundIsFree(pods: seq<StoredPod>, m: Merge)
    requires Sound(pods, m)
    ensures Free(pods, m.entries)
  {
    hide Lists, HeldByEntry, DistinctWithin;
    forall i | 0 <= i < |pods| && pods[i].live ensures Disjoint(Entries(pods[i]), m.entries) {
      forall netName, text | text != "" && HeldByEntry(m.entries, netName, text)
        ensures !HeldByEntry(Entries(pods[i]), netName, text)
      {
        HeldIsListed(m.entries, netName, text);
        var k, j :| Lists(m.entries, k, j, text) && m.entries[k].name == netName;
        assert !HeldByLiveList(pods, netName, text);
      }
    }
  }

  /** Prior addresses stay listed where they were. */
  lemma PriorListsKept(before: seq<MultusEntry>, after: seq<MultusEntry>, k: int, i: int, text: string)
    requires KeepsPrior(before, after) && Lists(before, k, i, text)
    ensures Lists(after, k, i, text) && after[k].name == before[k].name
  {
    hide CleanIp;
  }

  lemma PriorHeldKept(before: seq<MultusEntry>, after: seq<MultusEntry>, netName: string, text: string)
    requires KeepsPrior(before, after) && text != "" && HeldByEntry(before, netName, text)
    ensures HeldByEntry(after, netName, text)
  {
    hide KeepsPrior, HeldByEntry, Lists;
    HeldIsListed(before, netName, text);
    var k, i :| Lists(before, k, i, text) && before[k].name == netName;
    PriorListsKept(before, after, k, i, text);
    HeldIsListed(after, netName, text);
  }

  /** If the list ends free it began free: nothing listed is ever taken back. */
  lemma FreeBefore(pods: seq<StoredPod>, before: seq<MultusEntry>, after: seq<MultusEntry>)
    requires KeepsPrior(before, after) && Free(pods, after)
    ensures Free(pods, before)
  {
    hide KeepsPrior, HeldByEntry, Lists;
    forall k, i, l, j, text | Lists(before, k, i, text) && Lists(before, l, j, text) ensures k == l && i == j {
      PriorListsKept(before, after, k, i, text);
      PriorListsKept(before, after, l, j, text);
    }
    forall i | 0 <= i < |pods| && pods[i].live ensures Disjoint(Entries(pods[i]), before) {
      forall netName, text | text != "" && HeldByEntry(before, netName, text)
        ensures !HeldByEntry(Entries(pods[i]), netName, text)
      {
        PriorHeldKept(before, after, netName, text);
      }
    }
  }

  // ---------------------------------------------------------------- one admission

  lemma AnswerKeepsPrior(pods: seq<StoredPod>, e: Event)
    requires e.Admit? && Answer(pods, e).Ok?
    ensures KeepsPrior(Existing(e.pod), Existing(Answer(pods, e).value.1))
  {
    hide MergeAll, Secondaries, ListedTexts, Primaries;
    if Answer(pods, e).value.0 {
      MutationKeepsAndCovers(Some(Cluster(e.networks, e.gatewayCidrs, Some(pods))), e.pod);
    }
  }

  /** What an admitted pod lists is free exactly when what it brought along was. */
  lemma AdmittedIsFreeExactly(pods: seq<StoredPod>, e: Event)
    requires e.Admit? && Answer(pods, e).Ok?
    ensures Free(pods, Existing(Answer(pods, e).value.1)) <==> Free(pods, Existing(e.pod))
  {
    hide Sound, Free, KeepsPrior, MergeAll, Secondaries, ListedTexts, Primaries;
    var cluster, start := Cluster(e.networks, e.gatewayCidrs, Some(pods)), Existing(e.pod);
    AnswerKeepsPrior(pods, e);
    if Free(pods, Existing(Answer(pods, e).value.1)) {
      FreeBefore(pods, start, Existing(Answer(pods, e).value.1));
    }
    if Free(pods, start) && Answer(pods, e).value.0 {
      FreeIsSound(pods, start);
      var m, secs := Merge(start, ListedTexts(start)), Secondaries(e.pod.interfaces.value);
      RequestsBringNoIps(e.pod.interfaces.value);
      MergeAllSound(cluster, m, secs);
      SoundIsFree(pods, MergeAll(Some(cluster), m, secs).value);
    }
  }

  lemma UniqueWith(pods: seq<StoredPod>, pod: StoredPod)
    requires Unique(pods) && pod.live
    ensures Unique(pods + [pod]) <==> Free(pods, Entries(pod))
  {
    hide Disjoint, DistinctWithin, Entries;
    var all := pods + [pod];
    assert all[|pods|] == pod && forall i :: 0 <= i < |pods| ==> all[i] == pods[i];
  }

  /** From a list without sharing, an admission leads to one exactly when the pod's own addresses are free. */
  lemma AdmissionKeepsUniqueExactly(pods: seq<StoredPod>, e: Event)
    requires Unique(pods) && e.Admit? && Answer(pods, e).Ok?
    ensures Unique(Apply(pods, e)) <==> Free(pods, Existing(e.pod))
  {
    hide Unique, Free, Mutate;
    AdmittedIsFreeExactly(pods, e);
    var p := Answer(pods, e).value.1;
    UniqueWith(pods, StoredPod(true, p.multus, e.networkStatus, e.networksStatus));
  }

  /** Any event keeps a list without sharing that way exactly when the addresses it brings along are free. */
  lemma ApplyKeepsUniqueExactly(pods: seq<StoredPod>, e: Event)
    requires Unique(pods)
    ensures Unique(Apply(pods, e)) <==> BringsFreeIps(pods, e)
  {
    hide Mutate, Free, Disjoint, DistinctWithin;
    if e.Admit? {
      if Answer(pods, e).Ok? { AdmissionKeepsUniqueExactly(pods, e); }
    } else {
      var after := Apply(pods, e);
      assert forall k :: 0 <= k < |pods| ==> Entries(after[k]) == Entries(pods[k]) && (after[k].live ==> pods[k].live);
    }
  }

  // ---------------------------------------------------------------- histories

  ghost predicate AlwaysUnique(events: seq<Event>) {
    forall n {:trigger events[..n]} :: 0 <= n <= |events| ==> Unique(Run(events[..n]))
  }

  ghost predicate AlwaysFree(events: seq<Event>) {
    forall n :: 0 <= n < |events| ==> BringsFreeIps(Run(events[..n]), events[n])
  }

  /** A history never comes to sharing exactly when every admitted pod's own addresses were free when it came. */
  lemma {:induction false} AlwaysUniqueExactly(events: seq<Event>)
    ensures AlwaysUnique(events) <==> AlwaysFree(events)
  {
    hide Unique, Apply, BringsFreeIps;
    if events == [] {
      NoPodsUnique();
      assert events[..0] == [];
    } else {
      var n := |events| - 1;
      var front := events[..n];
      AlwaysUniqueExactly(front);
      assert forall i :: 0 <= i <= n ==> front[..i] == events[..i];
      assert events[..n + 1] == events && front[..n] == front;
      assert forall i :: 0 <= i < n ==> front[i] == events[i];
      if Unique(Run(front)) { ApplyKeepsUniqueExactly(Run(front), events[n]); }
    }
  }

  /** Over every history of pods that bring no addresses, no two live pods hold one address on one network,
      and no pod holds one twice. */
  lemma AddressesStayUnique(events: seq<Event>)
    requires forall e :: e in events ==> BringsNoIps(e)
    ensures Unique(Run(events))
  {
    hide Unique, Run, BringsNoIps, BringsFreeIps;
    forall n | 0 <= n < |events| ensures BringsFreeIps(Run(events[..n]), events[n]) {
      assert events[n] in events;
      NothingBroughtIsFree(Run(events[..n]), events[n]);
    }
    AlwaysUniqueExactly(events);
    assert events[..|events|] == events;
  }

  lemma NothingBroughtIsFree(pods: seq<StoredPod>, e: Event)
    requires BringsNoIps(e)
    ensures BringsFreeIps(pods, e)
  {
    hide Mutate, CleanIp;
  }

  lemma NoPodsUnique()
    ensures Unique(Run([]))
  {
  }

  // ---------------------------------------------------------------- addresses brought along

  /** An address that a pod brings along is kept, whoever else holds it. */
  lemma OwnAddressIsKept(pods: seq<StoredPod>, e: Event, netName: string, text: string)
    requires e.Admit? && Answer(pods, e).Ok?
    requires text != "" && HeldByEntry(Existing(e.pod), netName, text)
    ensures var after := Apply(pods, e);
            && |after| == |pods| + 1 && after[..|pods|] == pods && after[|pods|].live
            && HeldByEntry(Entries(after[|pods|]), netName, text)
  {
    hide Mutate, HeldByEntry, KeepsPrior;
    AnswerKeepsPrior(pods, e);
    PriorHeldKept(Existing(e.pod), Existing(Answer(pods, e).value.1), netName, text);
  }

  /** A pod that asks for nothing and lists one address of its own. */
  function OwnAddressPod(netName: string, ip: string): Event {
    Admit(map[], None, PodAnnotations(None, Some([MultusEntry(netName, "", [ip])]), None), None, None)
  }

  /** Two pods that bring the same address along are both admitted, alone free of sharing, and both hold it. */
  lemma OwnAddressesAreUnchecked(netName: string, ip: string)
    requires CleanIp(ip) != ""
    ensures var e := OwnAddressPod(netName, ip);
            var pods := Run([e, e]);
            && Unique(Run([e])) && !Unique(pods)
            && |pods| == 2 && pods[0].live && pods[1].live
            && HeldByEntry(Entries(pods[0]), netName, CleanIp(ip))
            && HeldByEntry(Entries(pods[1]), netName, CleanIp(ip))
  {
    hide CleanIp;
    var e, entries := OwnAddressPod(netName, ip), [MultusEntry(netName, "", [ip])];
    var pod := StoredPod(true, Some(entries), None, None);
    assert [e, e][..1] == [e] && [e][..0] == [];
    assert Run([e]) == [pod] && Run([e, e]) == [pod, pod];
    assert entries[0].ips[0] == ip;
    assert ListsIp(entries[0].ips, CleanIp(ip));
    assert HeldByEntry(entries, netName, CleanIp(ip));
    assert Entries([pod, pod][0]) == entries == Entries([pod, pod][1]);
    assert !Disjoint(entries, entries);
  }
}
