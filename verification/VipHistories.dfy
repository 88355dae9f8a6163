/**
  Whether a pod comes to hold an address that a Gateway has, or will have, as
  its VIP: over whole histories of admissions, from any pods to begin with.
*/
module VipHistories {
  import opened Wrappers
  import opened Text
  import opened Ipv4
  import opened Ipam
  import opened AllocationLaws
  import opened PodMutator
  import opened MutationLaws
  import opened Admissions
  import opened GatewayVip

  function RunFrom(pods: seq<StoredPod>, events: seq<Event>): seq<StoredPod> {
    if events == [] then pods else Apply(RunFrom(pods, events[..|events| - 1]), events[|events| - 1])
  }

  /** No live pod's list holds the address on the network. */
  ghost predicate Clear(pods: seq<StoredPod>, netName: string, a: Address) {
    !HeldByLiveList(pods, netName, Dotted(a))
  }

  /** What the webhook sees while it admits the pod. */
  function View(pods: seq<StoredPod>, e: Event): Cluster
    requires e.Admit?
  {
    Cluster(e.networks, e.gatewayCidrs, Some(pods))
  }

  /** An admitted pod brings the address along. */
  ghost predicate Brings(pods: seq<StoredPod>, e: Event, netName: string, a: Address) {
    e.Admit? && Answer(pods, e).Ok? && HeldByEntry(Existing(e.pod), netName, Dotted(a))
  }

  /** The entry that the merge gives an address for this request, if it needs one. */
  function Base(m: Merge, sec: MultusEntry): MultusEntry {
    var k := FindEntry(m.entries, sec, 0);
    if k < |m.entries| then PodMutator.Named(m.entries[k], sec) else sec
  }

  /** This request of the network is given the address. */
  predicate Grants(cluster: Cluster, m: Merge, sec: MultusEntry, netName: string, a: Address) {
    && sec.name == netName && Base(m, sec).ips == []
    && Allocate(cluster, netName, m.inUse).Ok? && Allocate(cluster, netName, m.inUse).value.address == a
  }

  /** One of the requests is. */
  predicate GrantsOne(cluster: Cluster, m: Merge, secs: seq<MultusEntry>, netName: string, a: Address)
    decreases |secs|
  {
    && secs != [] && MergeOne(Some(cluster), m, secs[0]).Ok?
    && (Grants(cluster, m, secs[0], netName, a)
        || GrantsOne(cluster, MergeOne(Some(cluster), m, secs[0]).value, secs[1..], netName, a))
  }

  /** An admitted pod is allocated the address. */
  predicate IsAllocated(pods: seq<StoredPod>, e: Event, netName: string, a: Address) {
    && e.Admit? && Answer(pods, e).Ok? && e.pod.interfaces.Some?
    && GrantsOne(View(pods, e), Merge(Existing(e.pod), ListedTexts(Existing(e.pod))),
                 Secondaries(e.pod.interfaces.value), netName, a)
  }

  // ---------------------------------------------------------------- one merge

  /** Giving entry `k` its address adds that address to what is held, and nothing else. */
  lemma PutHolds(before: seq<MultusEntry>, after: seq<MultusEntry>, k: nat, given: Allocation, netName: string,
                 a: Address)
    requires k <= |before| && k < |after| && |after| == (if k < |before| then |before| else |before| + 1)
    requires forall j :: 0 <= j < |before| && j != k ==> after[j] == before[j]
    requires k < |before| ==> before[k].ips == [] && before[k].name == after[k].name
    requires after[k].ips == [AllocationText(given)]
    ensures HeldByEntry(after, netName, Dotted(a)) <==>
              HeldByEntry(before, netName, Dotted(a)) || (after[k].name == netName && given.address == a)
  {
    hide Dotted, CleanIp, AllocationText;
    CleanAllocation(given);
    if given.address != a && Dotted(given.address) == Dotted(a) { DottedInjective(given.address, a); }
    assert after[k].ips[0] == AllocationText(given);
    assert ListsIp(after[k].ips, Dotted(a)) <==> given.address == a;
    assert k < |before| ==> !ListsIp(before[k].ips, Dotted(a));
    hide ListsIp;
    if HeldByEntry(after, netName, Dotted(a)) {
      var j :| 0 <= j < |after| && after[j].name == netName && ListsIp(after[j].ips, Dotted(a));
      if j != k { assert before[j] == after[j]; }
    }
    if HeldByEntry(before, netName, Dotted(a)) {
      var j :| 0 <= j < |before| && before[j].name == netName && ListsIp(before[j].ips, Dotted(a));
      assert after[j] == before[j];
    }
  }

  /** An entry that only gains an interface name holds what it held. */
  lemma RenameHolds(before: seq<MultusEntry>, k: nat, entry: MultusEntry, netName: string, text: string)
    requires k < |before| && entry.name == before[k].name && entry.ips == before[k].ips
    ensures HeldByEntry(before[k := entry], netName, text) <==> HeldByEntry(before, netName, text)
  {
    hide ListsIp;
    var after := before[k := entry];
    assert forall j :: 0 <= j < |before| ==> after[j].name == before[j].name && after[j].ips == before[j].ips;
  }

  lemma MergeOneHolds(cluster: Cluster, m: Merge, sec: MultusEntry, netName: string, a: Address)
    requires sec.ips == [] && MergeOne(Some(cluster), m, sec).Ok?
    ensures HeldByEntry(MergeOne(Some(cluster), m, sec).value.entries, netName, Dotted(a)) <==>
              HeldByEntry(m.entries, netName, Dotted(a)) || Grants(cluster, m, sec, netName, a)
  {
    hide Allocate, Dotted, AllocationText, HeldByEntry;
    var k := FindEntry(m.entries, sec, 0);
    var base := Base(m, sec);
    if base.ips != [] {
      RenameHolds(m.entries, k, base, netName, Dotted(a));
    } else {
      var given := Allocate(cluster, sec.name, m.inUse).value;
      var entry := base.(ips := [AllocationText(given)]);
      var after := if k < |m.entries| then m.entries[k := entry] else m.entries + [entry];
      PutHolds(m.entries, after, k, given, netName, a);
    }
  }

  lemma {:induction false} MergeAllHolds(cluster: Cluster, m: Merge, secs: seq<MultusEntry>, netName: string,
                                         a: Address)
    requires forall s :: s in secs ==> s.ips == []
    requires MergeAll(Some(cluster), m, secs).Ok?
    ensures HeldByEntry(MergeAll(Some(cluster), m, secs).value.entries, netName, Dotted(a)) <==>
              HeldByEntry(m.entries, netName, Dotted(a)) || GrantsOne(cluster, m, secs, netName, a)
    decreases |secs|
  {
    hide MergeOne, HeldByEntry, Grants, Dotted;
    if secs != [] {
      assert secs[0] in secs;
      MergeOneHolds(cluster, m, secs[0], netName, a);
      MergeAllHolds(cluster, MergeOne(Some(cluster), m, secs[0]).value, secs[1..], netName, a);
    }
  }

  /** Only an address that some allocation there could yield is granted. */
  lemma {:induction false} GrantedIsAllocatable(cluster: Cluster, m: Merge, secs: seq<MultusEntry>, netName: string,
                                                a: Address)
    requires GrantsOne(cluster, m, secs, netName, a)
    ensures !NeverAllocated(cluster, netName, a)
    decreases |secs|
  {
    hide MergeOne, Allocate;
    if !Grants(cluster, m, secs[0], netName, a) {
      GrantedIsAllocatable(cluster, MergeOne(Some(cluster), m, secs[0]).value, secs[1..], netName, a);
    }
  }

  // ---------------------------------------------------------------- one event

  /** An admitted pod holds the address exactly when it brought it along or is allocated it. */
  lemma AdmittedHoldsExactly(pods: seq<StoredPod>, e: Event, netName: string, a: Address)
    requires e.Admit? && Answer(pods, e).Ok?
    ensures HeldByEntry(Existing(Answer(pods, e).value.1), netName, Dotted(a)) <==>
              Brings(pods, e, netName, a) || IsAllocated(pods, e, netName, a)
  {
    hide MergeAll, Secondaries, ListedTexts, Primaries, HeldByEntry, GrantsOne, Dotted;
    if e.pod.interfaces.Some? {
      var m, secs := Merge(Existing(e.pod), ListedTexts(Existing(e.pod))), Secondaries(e.pod.interfaces.value);
      if secs == [] {
        NothingGranted(View(pods, e), m, netName, a);
      } else {
        RequestsBringNoIps(e.pod.interfaces.value);
        MergeAllHolds(View(pods, e), m, secs, netName, a);
      }
    }
  }

  lemma NothingGranted(cluster: Cluster, m: Merge, netName: string, a: Address)
    ensures !GrantsOne(cluster, m, [], netName, a)
  {
  }

  lemma HeldWith(pods: seq<StoredPod>, pod: StoredPod, netName: string, text: string)
    requires pod.live
    ensures HeldByLiveList(pods + [pod], netName, text) <==>
              HeldByLiveList(pods, netName, text) || HeldByEntry(Entries(pod), netName, text)
  {
    hide HeldByEntry, Entries;
    var all := pods + [pod];
    assert all[|pods|] == pod && forall i :: 0 <= i < |pods| ==> all[i] == pods[i];
    if HeldByLiveList(pods, netName, text) {
      var i :| 0 <= i < |pods| && pods[i].live && HeldByEntry(Entries(pods[i]), netName, text);
      assert all[i].live && HeldByEntry(Entries(all[i]), netName, text);
    }
    if HeldByEntry(Entries(pod), netName, text) {
      assert all[|pods|].live && HeldByEntry(Entries(all[|pods|]), netName, text);
    }
  }

  /** From clear pods an event leads to clear pods exactly when it neither brings the address nor allocates it. */
  lemma ApplyClearExactly(pods: seq<StoredPod>, e: Event, netName: string, a: Address)
    requires Clear(pods, netName, a)
    ensures Clear(Apply(pods, e), netName, a) <==> !Brings(pods, e, netName, a) && !IsAllocated(pods, e, netName, a)
  {
    hide Mutate, HeldByEntry, Dotted, GrantsOne, Secondaries, ListedTexts;
    if e.Admit? {
      if Answer(pods, e).Ok? {
        hide HeldByLiveList;
        var p := Answer(pods, e).value.1;
        AdmittedHoldsExactly(pods, e, netName, a);
        HeldWith(pods, StoredPod(true, p.multus, e.networkStatus, e.networksStatus), netName, Dotted(a));
      }
    } else {
      NoNewHolder(pods, Apply(pods, e), netName, Dotted(a));
    }
  }

  /** Pods that keep their lists, and are live only if they were, hold nothing new. */
  lemma NoNewHolder(pods: seq<StoredPod>, after: seq<StoredPod>, netName: string, text: string)
    requires |after| == |pods|
    requires forall i :: 0 <= i < |pods| ==> Entries(after[i]) == Entries(pods[i]) && (after[i].live ==> pods[i].live)
    requires !HeldByLiveList(pods, netName, text)
    ensures !HeldByLiveList(after, netName, text)
  {
    hide HeldByEntry, Entries;
  }

  // ---------------------------------------------------------------- histories

  ghost predicate AlwaysClear(pods: seq<StoredPod>, events: seq<Event>, netName: string, a: Address) {
    forall n {:trigger events[..n]} :: 0 <= n <= |events| ==> Clear(RunFrom(pods, events[..n]), netName, a)
  }

  /** At the n-th event the address is neither brought along nor allocated. */
  ghost predicate StepIsClean(pods: seq<StoredPod>, events: seq<Event>, n: nat, netName: string, a: Address)
    requires n < |events|
  {
    var before := RunFrom(pods, events[..n]);
    !Brings(before, events[n], netName, a) && !IsAllocated(before, events[n], netName, a)
  }

  ghost predicate AllClean(pods: seq<StoredPod>, events: seq<Event>, netName: string, a: Address) {
    forall n :: 0 <= n < |events| ==> StepIsClean(pods, events, n, netName, a)
  }

  /** From any pods, no live pod ever holds the address exactly when none held it at the start and no later admission
      brings it along or allocates it. */
  lemma {:induction false} AlwaysClearExactly(pods: seq<StoredPod>, events: seq<Event>, netName: string, a: Address)
    ensures AlwaysClear(pods, events, netName, a) <==>
              Clear(pods, netName, a) && AllClean(pods, events, netName, a)
  {
    hide Clear, Apply, Brings, IsAllocated;
    if events == [] {
      assert events[..0] == [];
    } else {
      var n := |events| - 1;
      var front := events[..n];
      AlwaysClearExactly(pods, front, netName, a);
      FrontClear(pods, events, netName, a);
      FrontClean(pods, events, netName, a);
      if Clear(RunFrom(pods, front), netName, a) { ApplyClearExactly(RunFrom(pods, front), events[n], netName, a); }
      assert front[..n] == front;
    }
  }

  lemma FrontClear(pods: seq<StoredPod>, events: seq<Event>, netName: string, a: Address)
    requires events != []
    ensures var front := events[..|events| - 1];
            AlwaysClear(pods, events, netName, a) <==>
              AlwaysClear(pods, front, netName, a) && Clear(RunFrom(pods, events), netName, a)
  {
    hide Clear, RunFrom;
    var n := |events| - 1;
    var front := events[..n];
    assert forall i :: 0 <= i <= n ==> front[..i] == events[..i];
    assert events[..n + 1] == events;
  }

  lemma FrontClean(pods: seq<StoredPod>, events: seq<Event>, netName: string, a: Address)
    requires events != []
    ensures var n := |events| - 1;
            AllClean(pods, events, netName, a) <==>
              AllClean(pods, events[..n], netName, a) && StepIsClean(pods, events, n, netName, a)
  {
    hide RunFrom, Brings, IsAllocated;
    var n := |events| - 1;
    var front := events[..n];
    forall i | 0 <= i < n
      ensures StepIsClean(pods, front, i, netName, a) <==> StepIsClean(pods, events, i, netName, a)
    {
      assert front[..i] == events[..i] && front[i] == events[i];
    }
  }

  // ---------------------------------------------------------------- what keeps it clear

  /** What is never allocated, as the webhook sees things, is not allocated to the pod. */
  lemma GuardedIsNotAllocated(pods: seq<StoredPod>, e: Event, netName: string, a: Address)
    requires e.Admit? && NeverAllocated(View(pods, e), netName, a)
    ensures !IsAllocated(pods, e, netName, a)
  {
    hide Mutate, GrantsOne, NeverAllocated, Secondaries, ListedTexts;
    if IsAllocated(pods, e, netName, a) {
      GrantedIsAllocatable(View(pods, e), Merge(Existing(e.pod), ListedTexts(Existing(e.pod))),
                           Secondaries(e.pod.interfaces.value), netName, a);
    }
  }

  /** At the n-th event no pod could be given the address, and none brings it. */
  ghost predicate StepIsGuarded(pods: seq<StoredPod>, events: seq<Event>, n: nat, netName: string, a: Address)
    requires n < |events|
  {
    var before := RunFrom(pods, events[..n]);
    && !Brings(before, events[n], netName, a)
    && (events[n].Admit? ==> NeverAllocated(View(before, events[n]), netName, a))
  }

  /** The address stays with nobody as long as each admission finds it guarded. */
  lemma GuardedStaysClear(pods: seq<StoredPod>, events: seq<Event>, netName: string, a: Address)
    requires Clear(pods, netName, a)
    requires forall n :: 0 <= n < |events| ==> StepIsGuarded(pods, events, n, netName, a)
    ensures AlwaysClear(pods, events, netName, a)
  {
    hide Clear, RunFrom, Brings, IsAllocated, NeverAllocated, AlwaysClear;
    forall n | 0 <= n < |events| ensures StepIsClean(pods, events, n, netName, a) {
      assert StepIsGuarded(pods, events, n, netName, a);
      var before := RunFrom(pods, events[..n]);
      if events[n].Admit? { GuardedIsNotAllocated(before, events[n], netName, a); }
      else { OnlyAdmissionsAllocate(before, events[n], netName, a); }
    }
    AlwaysClearExactly(pods, events, netName, a);
  }

  lemma OnlyAdmissionsAllocate(pods: seq<StoredPod>, e: Event, netName: string, a: Address)
    requires !e.Admit?
    ensures !IsAllocated(pods, e, netName, a)
  {
  }

  /** No pod ever holds the VIP of a Gateway whose CIDRs are proper, if none holds it when they come, none brings it
      along later, and the webhook is answered with those CIDRs at every later admission. */
  lemma VipStaysClear(pods: seq<StoredPod>, events: seq<Event>, cidrs: seq<GatewayCidr>, netName: string)
    requires FirstVip(cidrs, netName).Some?
    requires forall c :: c in cidrs && GatewayVip.Serves(c, netName) ==> Proper(c, netName)
    requires Clear(pods, netName, FirstVip(cidrs, netName).value)
    requires forall n :: 0 <= n < |events| ==>
               && !Brings(RunFrom(pods, events[..n]), events[n], netName, FirstVip(cidrs, netName).value)
               && (events[n].Admit? ==> Answered(View([], events[n]), cidrs, netName))
    ensures AlwaysClear(pods, events, netName, FirstVip(cidrs, netName).value)
  {
    hide Clear, RunFrom, Brings, NeverAllocated, AlwaysClear, FirstVip, WebhookCovers;
    var vip := FirstVip(cidrs, netName).value;
    forall n | 0 <= n < |events| ensures StepIsGuarded(pods, events, n, netName, vip) {
      if events[n].Admit? {
        var cluster := View(RunFrom(pods, events[..n]), events[n]);
        assert Answered(View([], events[n]), cidrs, netName);
        ProperVipIsCovered(cidrs, cluster, netName);
        CoveredIsNeverAllocated(cluster, netName, vip);
      }
    }
    GuardedStaysClear(pods, events, netName, vip);
  }

  // ---------------------------------------------------------------- the guard is needed

  /** An interface can name the network: the name is trimmed, and not that of the primary network. */
  predicate Requestable(netName: string) {
    Trim(netName, GoSpace) == netName && !IsPrimary(Iface("", netName))
  }

  /** A pod that asks for the network and has a list already. */
  function AskingPod(netName: string, listed: Option<seq<MultusEntry>>): PodAnnotations {
    PodAnnotations(Some([Iface("", netName)]), listed, None)
  }

  lemma OneRequest(netName: string)
    requires Requestable(netName)
    ensures Secondaries([Iface("", netName)]) == [MultusEntry(netName, "", [])]
  {
    var ifaces := [Iface("", netName)];
    assert ifaces[..0] == [] && Secondaries(ifaces[..0]) == [];
    assert Trim("", GoSpace) == "";
  }

  /** The pod is admitted with whatever the network then allocates. */
  lemma AskingPodIsGranted(pods: seq<StoredPod>, e: Event, netName: string, given: Allocation)
    requires e.Admit? && Requestable(netName) && e.pod == AskingPod(netName, e.pod.multus)
    requires forall k :: 0 <= k < |Existing(e.pod)| ==> Existing(e.pod)[k].name != netName
    requires Allocate(View(pods, e), netName, ListedTexts(Existing(e.pod))) == Ok(given)
    ensures Answer(pods, e).Ok? && IsAllocated(pods, e, netName, given.address)
  {
    hide Allocate, ListedTexts, Secondaries, Primaries;
    OneRequest(netName);
    var m, sec := Merge(Existing(e.pod), ListedTexts(Existing(e.pod))), MultusEntry(netName, "", []);
    assert FindEntry(m.entries, sec, 0) == |m.entries|;
    assert MergeOne(Some(View(pods, e)), m, sec).Ok?;
    assert [sec][1..] == [] && MergeAll(Some(View(pods, e)), m, [sec]).Ok?;
    assert Grants(View(pods, e), m, sec, netName, given.address);
  }

  function TextsBetween(low: Address, high: Address): seq<string>
    requires low <= high
  {
    seq(high - low, i requires 0 <= i < high - low => Dotted(low + i))
  }

  /** A pod that lists those addresses under another name has just those in use. */
  lemma ListedBetween(name: string, low: Address, high: Address)
    requires low < high
    ensures ListedTexts([MultusEntry(name, "", TextsBetween(low, high))]) == NamesBetween(low, high - 1)
  {
    hide Dotted, CleanIp;
    var texts := TextsBetween(low, high);
    var entries := [MultusEntry(name, "", texts)];
    assert entries[..0] == [] && ListedTexts(entries[..0]) == {};
    forall i | 0 <= i < |texts| ensures CleanIp(texts[i]) == texts[i] != "" {
      CleanAddress(low + i);
      DottedChars(low + i);
    }
    forall t | t in NamesBetween(low, high - 1) ensures t in CleanIps(texts) {
      var b: int :| low <= b <= high - 1 && Dotted(b) == t;
      assert texts[b - low] == t;
    }
  }

  /** A pod that lists every address below on some other network. */
  function Crowded(netName: string, low: Address, high: Address): PodAnnotations
    requires low <= high
  {
    AskingPod(netName, Some([MultusEntry(netName + "x", "", TextsBetween(low, high))]))
  }

  /** Whatever the pods, if the address is not guarded there is a pod that does not bring it and is given it. */
  lemma UnguardedIsHandedOut(pods: seq<StoredPod>, e: Event, netName: string, a: Address)
    requires e.Admit? && Requestable(netName)
    requires Configured(View(pods, e), netName) && !SearchWraps(e.networks[netName])
    requires Start(e.networks[netName]) < a < Broadcast(e.networks[netName])
    requires !NeverAllocated(View(pods, e), netName, a)
    ensures var asking := e.(pod := Crowded(netName, Start(e.networks[netName]), a));
            !Brings(pods, asking, netName, a) && IsAllocated(pods, asking, netName, a)
  {
    hide Allocate, Start, Broadcast, Taken, PrefixLength, ParseIp, NeverAllocated, Dotted, TextsBetween;
    hide ListedTexts, IsAllocated, HeldByEntry, Mutate;
    var cluster, net := View(pods, e), e.networks[netName];
    var start := Start(net);
    NeverAllocatedExactly(cluster, netName, a);
    LeastAboveNames(cluster, netName, a);
    var asking := e.(pod := Crowded(netName, start, a));
    ListedBetween(netName + "x", start, a);
    assert |netName + "x"| == |netName| + 1;
    var given := Allocate(cluster, netName, NamesBetween(start, a - 1)).value;
    AskingPodIsGranted(pods, asking, netName, given);
    OtherNameHoldsNothing(netName + "x", TextsBetween(start, a), netName, Dotted(a));
  }

  lemma OtherNameHoldsNothing(name: string, ips: seq<string>, netName: string, text: string)
    requires name != netName
    ensures !HeldByEntry([MultusEntry(name, "", ips)], netName, text)
  {
  }

  /** With everything below it in use, an address that nothing else takes is the one allocated. */
  lemma LeastAboveNames(cluster: Cluster, netName: string, a: Address)
    requires Configured(cluster, netName) && !SearchWraps(cluster.networks[netName])
    requires Start(cluster.networks[netName]) < a < Broadcast(cluster.networks[netName])
    requires !Taken(cluster, netName, cluster.networks[netName], Start(cluster.networks[netName]), {}, a)
    ensures var r := Allocate(cluster, netName, NamesBetween(Start(cluster.networks[netName]), a - 1));
            r.Ok? && r.value.address == a
  {
    hide Allocate, Start, Broadcast, Taken, PrefixLength, ParseIp, NamesBetween;
    var net := cluster.networks[netName];
    var inUse := BelowInUse(cluster, netName, net, Start(net), a);
    AllocateIsLeastFree(cluster, netName, inUse);
  }

  /** No pod that does not bring the address could be given it now. */
  ghost predicate NobodyIsGiven(pods: seq<StoredPod>, e: Event, netName: string, a: Address)
    requires e.Admit?
  {
    forall p: PodAnnotations :: IsAllocated(pods, e.(pod := p), netName, a) ==> Brings(pods, e.(pod := p), netName, a)
  }

  /** At an admission, an address of the subnet that nobody brings goes to nobody, whatever pod may come, exactly when
      it is guarded. */
  lemma GuardedExactly(pods: seq<StoredPod>, e: Event, netName: string, a: Address)
    requires e.Admit? && Requestable(netName)
    requires Configured(View(pods, e), netName) && !SearchWraps(e.networks[netName])
    requires Start(e.networks[netName]) < a < Broadcast(e.networks[netName])
    ensures NobodyIsGiven(pods, e, netName, a) <==> NeverAllocated(View(pods, e), netName, a)
  {
    hide Allocate, Start, Broadcast, NeverAllocated, Configured, Crowded, IsAllocated, Brings, ParseIp;
    if NeverAllocated(View(pods, e), netName, a) {
      forall p: PodAnnotations ensures !IsAllocated(pods, e.(pod := p), netName, a) {
        assert View(pods, e.(pod := p)) == View(pods, e);
        GuardedIsNotAllocated(pods, e.(pod := p), netName, a);
      }
    } else {
      UnguardedIsHandedOut(pods, e, netName, a);
    }
  }

  // ---------------------------------------------------------------- the pod that came first

  function FirstPod(netName: string): Event {
    Admit(map[netName := HighNetwork()], Some([]), AskingPod(netName, None), None, None)
  }

  /** A plain pod, admitted once the CIDR is there. */
  function LaterPod(netName: string, cidrName: string): Event {
    Admit(map[netName := HighNetwork()], Some([ProperCidr(netName, cidrName)]), PodAnnotations(None, None, None),
          None, None)
  }

  /** A pod is admitted before the CIDR exists. When the CIDR comes, proper and listed by everybody, the Gateway gets
      the address that the pod has held from the beginning. */
  lemma PodCameFirst(netName: string, cidrName: string)
    requires Requestable(netName)
    ensures var cidrs, events := [ProperCidr(netName, cidrName)], [FirstPod(netName), LaterPod(netName, cidrName)];
            && BringsNoIps(events[0]) && BringsNoIps(events[1])
            && Proper(cidrs[0], netName) && FirstVip(cidrs, netName) == Some(FIRST)
            && Answered(View(Run([events[0]]), events[1]), cidrs, netName)
            && HeldByLiveList(Run(events), netName, Dotted(FIRST))
  {
    hide Allocate, Mutate, HeldByLiveList, IsAllocated, Brings, FirstVip, Dotted, HeldByEntry, Run, HighNetwork;
    var f := LaterPod(netName, cidrName);
    ProperCidrOffersFirst(netName, cidrName);
    var first := FirstPodHolds(netName);
    PlainPodIsAdmitted([first], f);
    HeldWith([first], StoredPod(true, None, None, None), netName, Dotted(FIRST));
    RunTwo(FirstPod(netName), f);
  }

  lemma RunTwo(e: Event, f: Event)
    ensures Run([e]) == Apply([], e) && Run([e, f]) == Apply(Run([e]), f)
  {
    hide Apply;
    assert [e, f][..1] == [e] && [e][..0] == [];
  }

  lemma FirstPodHolds(netName: string) returns (first: StoredPod)
    requires Requestable(netName)
    ensures Apply([], FirstPod(netName)) == [first] && HeldByLiveList([first], netName, Dotted(FIRST))
  {
    hide Allocate, Mutate, HeldByLiveList, IsAllocated, Brings, HighNetwork, Dotted, HeldByEntry;
    var e := FirstPod(netName);
    FirstGoesOutFirst(View([], e), netName);
    NothingListed();
    AskingPodIsGranted([], e, netName, Allocation(FIRST, 24));
    AdmittedHoldsExactly([], e, netName, FIRST);
    first := StoredPod(true, Answer([], e).value.1.multus, None, None);
    HeldWith([], first, netName, Dotted(FIRST));
    assert [] + [first] == [first];
  }

  lemma NothingListed()
    ensures ListedTexts([]) == {}
  {
  }

  lemma PlainPodIsAdmitted(pods: seq<StoredPod>, e: Event)
    requires e.Admit? && e.pod == PodAnnotations(None, None, None)
    ensures Answer(pods, e) == Ok((false, e.pod))
  {
  }
}
