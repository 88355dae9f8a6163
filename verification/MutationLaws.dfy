/**
  What a pod mutation keeps, covers and separates, for every pod and every
  answer of the API server.
*/
module MutationLaws {
  import opened Wrappers
  import opened Text
  import opened Ipam
  import opened PodMutator

  // ---------------------------------------------------------------- prior entries stay

  /** Every prior entry keeps its place, its name and whatever interface and addresses it had. */
  ghost predicate KeepsPrior(before: seq<MultusEntry>, after: seq<MultusEntry>) {
    && |before| <= |after|
    && forall k :: 0 <= k < |before| ==>
         && after[k].name == before[k].name
         && (before[k].iface != "" ==> after[k].iface == before[k].iface)
         && (before[k].ips != [] ==> after[k].ips == before[k].ips)
  }

  /** An entry that serves the request; with a client it also has an address. */
  ghost predicate Covers(entries: seq<MultusEntry>, sec: MultusEntry, client: bool) {
    exists k :: 0 <= k < |entries| && Serves(entries[k], sec, client)
  }

  predicate Serves(e: MultusEntry, sec: MultusEntry, client: bool) {
    e.name == sec.name && (sec.iface == "" || e.iface == sec.iface) && (client ==> e.ips != [])
  }

  lemma AddressedKeeps(cluster: Option<Cluster>, entry: MultusEntry, netName: string, inUse: set<string>)
    requires Addressed(cluster, entry, netName, inUse).Ok?
    ensures var e := Addressed(cluster, entry, netName, inUse).value.0;
            && e.name == entry.name && e.iface == entry.iface
            && (entry.ips != [] ==> e.ips == entry.ips)
            && (cluster.Some? ==> e.ips != [])
  {
    hide Allocate, AllocationText;
  }

  lemma MergeOneKeeps(cluster: Option<Cluster>, m: Merge, sec: MultusEntry)
    requires MergeOne(cluster, m, sec).Ok?
    ensures var next := MergeOne(cluster, m, sec).value;
            && KeepsPrior(m.entries, next.entries)
            && Covers(next.entries, sec, cluster.Some?)
            && (forall k :: |m.entries| <= k < |next.entries| ==> next.entries[k].name == sec.name)
  {
    hide FindEntry, Addressed;
    var k := FindEntry(m.entries, sec, 0);
    var base := if k < |m.entries| then Named(m.entries[k], sec) else sec;
    AddressedKeeps(cluster, base, sec.name, m.inUse);
    var next := MergeOne(cluster, m, sec).value;
    assert Serves(next.entries[k], sec, cluster.Some?);
  }

  lemma CoversKept(before: seq<MultusEntry>, after: seq<MultusEntry>, sec: MultusEntry, client: bool)
    requires KeepsPrior(before, after) && Covers(before, sec, client)
    ensures Covers(after, sec, client)
  {
    var k :| 0 <= k < |before| && Serves(before[k], sec, client);
    assert Serves(after[k], sec, client);
  }

  predicate Asked(name: string, secs: seq<MultusEntry>) {
    exists s :: s in secs && s.name == name
  }

  /** Entries from position `from` on were asked for. */
  ghost predicate AddedFor(entries: seq<MultusEntry>, from: nat, secs: seq<MultusEntry>) {
    forall k :: from <= k < |entries| ==> Asked(entries[k].name, secs)
  }

  lemma AskedInRest(name: string, secs: seq<MultusEntry>)
    requires secs != []
    ensures Asked(name, secs) <==> name == secs[0].name || Asked(name, secs[1..])
  {
    assert secs[0] in secs;
    assert forall s :: s in secs <==> s == secs[0] || s in secs[1..];
  }

  lemma AddedForStep(a: seq<MultusEntry>, b: seq<MultusEntry>, c: seq<MultusEntry>, secs: seq<MultusEntry>)
    requires secs != [] && KeepsPrior(a, b) && KeepsPrior(b, c)
    requires forall k :: |a| <= k < |b| ==> b[k].name == secs[0].name
    requires AddedFor(c, |b|, secs[1..])
    ensures AddedFor(c, |a|, secs)
  {
    hide Asked;
    forall k | |a| <= k < |c| ensures Asked(c[k].name, secs) {
      AskedInRest(c[k].name, secs);
    }
  }

  /** Merging keeps the prior entries, covers every request and adds nothing that was not requested. */
  lemma {:induction false} MergeAllKeepsAndCovers(cluster: Option<Cluster>, m: Merge, secs: seq<MultusEntry>)
    requires MergeAll(cluster, m, secs).Ok?
    ensures var entries := MergeAll(cluster, m, secs).value.entries;
            && KeepsPrior(m.entries, entries)
            && (forall s :: s in secs ==> Covers(entries, s, cluster.Some?))
            && AddedFor(entries, |m.entries|, secs)
    decreases |secs|
  {
    hide MergeOne, Covers, AddedFor;
    if secs == [] {
      NothingAdded(m.entries);
    } else {
      var next := MergeOne(cluster, m, secs[0]).value;
      MergeOneKeeps(cluster, m, secs[0]);
      MergeAllKeepsAndCovers(cluster, next, secs[1..]);
      var entries := MergeAll(cluster, m, secs).value.entries;
      CoversKept(next.entries, entries, secs[0], cluster.Some?);
      AddedForStep(m.entries, next.entries, entries, secs);
      assert forall s :: s in secs ==> s == secs[0] || s in secs[1..];
    }
  }

  lemma NothingAdded(entries: seq<MultusEntry>)
    ensures AddedFor(entries, |entries|, [])
  {
  }

  // ---------------------------------------------------------------- each interface to one side

  function NonPrimaries(ifaces: seq<Iface>): seq<Iface> {
    if ifaces == [] then []
    else
      var last := ifaces[|ifaces| - 1];
      NonPrimaries(ifaces[..|ifaces| - 1]) + (if IsPrimary(last) then [] else [last])
  }

  lemma {:induction false} SidesShareOut(ifaces: seq<Iface>)
    ensures multiset(ifaces) == multiset(Primaries(ifaces)) + multiset(NonPrimaries(ifaces))
  {
    hide IsPrimary;
    if ifaces != [] {
      var front, last := ifaces[..|ifaces| - 1], ifaces[|ifaces| - 1];
      SidesShareOut(front);
      assert ifaces == front + [last];
    }
  }

  lemma {:induction false} SidesAreSorted(ifaces: seq<Iface>)
    ensures forall i :: i in Primaries(ifaces) ==> IsPrimary(i)
    ensures forall i :: i in NonPrimaries(ifaces) ==> !IsPrimary(i)
  {
    hide IsPrimary;
    if ifaces != [] {
      SidesAreSorted(ifaces[..|ifaces| - 1]);
    }
  }

  /** The two lists share out the interfaces, each to its own side. */
  lemma EveryInterfaceOnOneSide(ifaces: seq<Iface>)
    ensures multiset(ifaces) == multiset(Primaries(ifaces)) + multiset(NonPrimaries(ifaces))
    ensures forall i :: i in Primaries(ifaces) ==> IsPrimary(i)
    ensures forall i :: i in NonPrimaries(ifaces) ==> !IsPrimary(i)
  {
    hide *;
    SidesShareOut(ifaces);
    SidesAreSorted(ifaces);
  }

  /** The secondary side turns each of its interfaces into a request, in order. */
  lemma {:induction false} SecondariesAreRequests(ifaces: seq<Iface>)
    ensures |Secondaries(ifaces)| == |NonPrimaries(ifaces)|
    ensures forall k :: 0 <= k < |Secondaries(ifaces)| ==> Secondaries(ifaces)[k] == Requested(NonPrimaries(ifaces)[k])
  {
    hide IsPrimary, Requested;
    if ifaces != [] {
      SecondariesAreRequests(ifaces[..|ifaces| - 1]);
    }
  }

  lemma NoSecondariesMeansAllPrimary(ifaces: seq<Iface>)
    requires Secondaries(ifaces) == []
    ensures forall i :: i in ifaces ==> IsPrimary(i)
  {
    hide IsPrimary, Requested, Secondaries, Primaries, NonPrimaries;
    EveryInterfaceOnOneSide(ifaces);
    SecondariesAreRequests(ifaces);
    assert NonPrimaries(ifaces) == [];
    forall i | i in ifaces ensures IsPrimary(i) {
      assert i in multiset(ifaces);
    }
  }

  lemma {:induction false} PrimariesHaveNoSecondaries(ifaces: seq<Iface>)
    requires forall i :: i in ifaces ==> IsPrimary(i)
    ensures Secondaries(ifaces) == []
  {
    hide IsPrimary;
    if ifaces != [] {
      var front := ifaces[..|ifaces| - 1];
      assert ifaces[|ifaces| - 1] in ifaces;
      PrimariesHaveNoSecondaries(front);
    }
  }

  lemma Eth0IsPrimary()
    ensures IsPrimary(ETH0)
  {
    TrimFixed("pod-network", GoSpace);
  }

  // ---------------------------------------------------------------- whole mutations

  /** What a successful mutation promises about the pod it leaves. */
  lemma MutationKeepsAndCovers(cluster: Option<Cluster>, pod: PodAnnotations)
    requires Mutate(cluster, pod).Ok? && Mutate(cluster, pod).value.0
    ensures var p, secs := Mutate(cluster, pod).value.1, Secondaries(pod.interfaces.value);
            && secs != [] && p.multus.Some? && p.interfaces.Some? && p.defaultInterface.Some?
            && KeepsPrior(Existing(pod), p.multus.value)
            && (forall s :: s in secs ==> Covers(p.multus.value, s, cluster.Some?))
            && AddedFor(p.multus.value, |Existing(pod)|, secs)
            && (forall i :: i in p.interfaces.value ==> IsPrimary(i))
            && p.interfaces.value != []
            && (pod.defaultInterface.Some? ==> p.defaultInterface == pod.defaultInterface)
  {
    hide MergeAll, Secondaries, Primaries, ListedTexts, Covers, KeepsPrior, AddedFor, IsPrimary;
    var ifaces, existing := pod.interfaces.value, Existing(pod);
    MergeAllKeepsAndCovers(cluster, Merge(existing, ListedTexts(existing)), Secondaries(ifaces));
    EveryInterfaceOnOneSide(ifaces);
    Eth0IsPrimary();
  }

  /** A mutated pod is not mutated again, whatever the cluster has become. */
  lemma SecondMutationIsNoOp(cluster: Option<Cluster>, later: Option<Cluster>, pod: PodAnnotations)
    requires Mutate(cluster, pod).Ok?
    ensures var p := Mutate(cluster, pod).value.1;
            Mutate(later, p) == Ok((false, p))
  {
    hide MergeAll, Secondaries, Primaries, ListedTexts, Covers, KeepsPrior, AddedFor, IsPrimary;
    if Mutate(cluster, pod).value.0 {
      MutationKeepsAndCovers(cluster, pod);
      PrimariesHaveNoSecondaries(Mutate(cluster, pod).value.1.interfaces.value);
    }
  }

  /** A pod is mutated, or refused for want of an address, exactly when it asks for a secondary network. */
  lemma MutatedExactlyForSecondaries(cluster: Option<Cluster>, pod: PodAnnotations)
    ensures Mutate(cluster, pod) == Ok((false, pod)) <==>
              pod.interfaces.None? || (forall i :: i in pod.interfaces.value ==> IsPrimary(i))
  {
    hide MergeAll, Secondaries, Primaries, ListedTexts, IsPrimary, NonPrimaries;
    if pod.interfaces.Some? {
      var ifaces := pod.interfaces.value;
      if Secondaries(ifaces) == [] {
        NoSecondariesMeansAllPrimary(ifaces);
      } else if forall i :: i in ifaces ==> IsPrimary(i) {
        PrimariesHaveNoSecondaries(ifaces);
      }
    }
  }
}
