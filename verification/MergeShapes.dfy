/**
  Which entries a pod's Multus list has after a mutation: names and interfaces
  alone decide, by a merge that knows nothing of addresses.
*/
module MergeShapes {
  import opened Wrappers
  import opened Text
  import opened Ipam
  import opened PodMutator
  import opened MutationLaws

  datatype Shape = Shape(name: string, iface: string)

  function ShapeOf(e: MultusEntry): Shape { Shape(e.name, e.iface) }

  function Shapes(entries: seq<MultusEntry>): seq<Shape> {
    seq(|entries|, i requires 0 <= i < |entries| => ShapeOf(entries[i]))
  }

  /** Equal names; equal interfaces, or one of them blank. */
  predicate Suits(e: Shape, r: Shape) {
    e.name == r.name && (e.iface == r.iface || e.iface == "" || r.iface == "")
  }

  predicate FirstSuiting(shapes: seq<Shape>, r: Shape, k: int) {
    0 <= k < |shapes| && Suits(shapes[k], r) && forall j :: 0 <= j < k ==> !Suits(shapes[j], r)
  }

  predicate AnySuits(shapes: seq<Shape>, r: Shape) {
    exists k :: 0 <= k < |shapes| && Suits(shapes[k], r)
  }

  // ---------------------------------------------------------------- one request

  /** The first suiting entry alone may change: a blank interface there becomes the requested one. Without one,
      the request itself is appended. */
  ghost predicate MergedOne(before: seq<Shape>, r: Shape, after: seq<Shape>) {
    if AnySuits(before, r) then
      exists k :: FirstSuiting(before, r, k)
                  && after == before[k := Shape(r.name, if before[k].iface == "" then r.iface else before[k].iface)]
    else
      after == before + [r]
  }

  lemma FindEntryFinds(entries: seq<MultusEntry>, sec: MultusEntry)
    ensures var k := FindEntry(entries, sec, 0);
            if k < |entries| then FirstSuiting(Shapes(entries), ShapeOf(sec), k)
            else !AnySuits(Shapes(entries), ShapeOf(sec))
  {
    var k, shapes := FindEntry(entries, sec, 0), Shapes(entries);
    assert forall j :: 0 <= j < |entries| ==> (Suits(shapes[j], ShapeOf(sec)) <==> Matches(entries[j], sec));
  }

  lemma MergeOneShape(cluster: Option<Cluster>, m: Merge, sec: MultusEntry)
    requires MergeOne(cluster, m, sec).Ok?
    ensures MergedOne(Shapes(m.entries), ShapeOf(sec), Shapes(MergeOne(cluster, m, sec).value.entries))
  {
    FindEntryFinds(m.entries, sec);
    hide FindEntry, Addressed, Suits;
    var k := FindEntry(m.entries, sec, 0);
    var base := if k < |m.entries| then PodMutator.Named(m.entries[k], sec) else sec;
    AddressedKeeps(cluster, base, sec.name, m.inUse);
    var before, after := Shapes(m.entries), Shapes(MergeOne(cluster, m, sec).value.entries);
    if k < |m.entries| {
      SuitsNames(before[k], ShapeOf(sec));
      var shape := Shape(sec.name, if before[k].iface == "" then sec.iface else before[k].iface);
      assert after == before[k := shape];
      assert AnySuits(before, ShapeOf(sec));
    } else {
      assert after == before + [ShapeOf(sec)];
    }
  }

  lemma SuitsNames(e: Shape, r: Shape)
    requires Suits(e, r)
    ensures e.name == r.name
  {
  }

  /** For one request, entry by entry: what may change, what does not, and when the list grows. */
  lemma MergeOneExactly(cluster: Option<Cluster>, m: Merge, sec: MultusEntry, k: nat)
    requires MergeOne(cluster, m, sec).Ok?
    ensures var before, after := m.entries, MergeOne(cluster, m, sec).value.entries;
            && (FirstSuiting(Shapes(before), ShapeOf(sec), k) ==>
                  && |after| == |before| && (forall j :: 0 <= j < |before| && j != k ==> after[j] == before[j])
                  && after[k].name == before[k].name
                  && after[k].iface == (if before[k].iface == "" then sec.iface else before[k].iface)
                  && (before[k].ips != [] ==> after[k].ips == before[k].ips))
            && (!AnySuits(Shapes(before), ShapeOf(sec)) ==>
                  && |after| == |before| + 1 && after[..|before|] == before
                  && after[|before|].name == sec.name && after[|before|].iface == sec.iface)
  {
    FindEntryFinds(m.entries, sec);
    hide FindEntry, Addressed, Suits;
    var f := FindEntry(m.entries, sec, 0);
    var base := if f < |m.entries| then PodMutator.Named(m.entries[f], sec) else sec;
    AddressedKeeps(cluster, base, sec.name, m.inUse);
  }

  // ---------------------------------------------------------------- all requests

  /** The same merge on names and interfaces, request by request. */
  function FirstFrom(shapes: seq<Shape>, r: Shape, k: nat): nat
    requires k <= |shapes|
    decreases |shapes| - k
  {
    if k == |shapes| || Suits(shapes[k], r) then k else FirstFrom(shapes, r, k + 1)
  }

  function Merged(shapes: seq<Shape>, r: Shape): seq<Shape> {
    var k := FirstFrom(shapes, r, 0);
    if k >= |shapes| then shapes + [r]
    else shapes[k := Shape(r.name, if shapes[k].iface == "" then r.iface else shapes[k].iface)]
  }

  function MergedAll(shapes: seq<Shape>, rs: seq<Shape>): seq<Shape> {
    if rs == [] then shapes else Merged(MergedAll(shapes, rs[..|rs| - 1]), rs[|rs| - 1])
  }

  lemma {:induction false} FirstFromMeaning(shapes: seq<Shape>, r: Shape, k: nat)
    requires k <= |shapes|
    ensures var f := FirstFrom(shapes, r, k);
            && k <= f <= |shapes| && (f < |shapes| ==> Suits(shapes[f], r))
            && (forall j :: k <= j < f ==> !Suits(shapes[j], r))
    decreases |shapes| - k
  {
    hide Suits;
    if k < |shapes| && !Suits(shapes[k], r) { FirstFromMeaning(shapes, r, k + 1); }
  }

  lemma MergedIs(shapes: seq<Shape>, r: Shape, after: seq<Shape>)
    requires MergedOne(shapes, r, after)
    ensures after == Merged(shapes, r)
  {
    hide Suits;
    FirstFromMeaning(shapes, r, 0);
    var f := FirstFrom(shapes, r, 0);
    if AnySuits(shapes, r) {
      var k :| FirstSuiting(shapes, r, k)
               && after == shapes[k := Shape(r.name, if shapes[k].iface == "" then r.iface else shapes[k].iface)];
      assert f == k;
    }
  }

  lemma MergedAllStep(shapes: seq<Shape>, first: Shape, rest: seq<Shape>)
    ensures MergedAll(shapes, [first] + rest) == MergedAll(Merged(shapes, first), rest)
    decreases |rest|
  {
    hide Merged;
    var rs := [first] + rest;
    if rest == [] {
      assert rs == [first] && rs[..0] == [];
    } else {
      assert rs[..|rs| - 1] == [first] + rest[..|rest| - 1];
      MergedAllStep(shapes, first, rest[..|rest| - 1]);
    }
  }

  /** Names and interfaces of the merged list are the merge of names and interfaces, whatever is allocated. */
  lemma {:induction false} MergeAllShape(cluster: Option<Cluster>, m: Merge, secs: seq<MultusEntry>)
    requires MergeAll(cluster, m, secs).Ok?
    ensures Shapes(MergeAll(cluster, m, secs).value.entries) == MergedAll(Shapes(m.entries), Shapes(secs))
    decreases |secs|
  {
    hide MergeOne, Merged, MergedOne;
    if secs == [] {
      assert Shapes(secs) == [];
    } else {
      var next := MergeOne(cluster, m, secs[0]).value;
      MergeOneShape(cluster, m, secs[0]);
      MergedIs(Shapes(m.entries), ShapeOf(secs[0]), Shapes(next.entries));
      MergeAllShape(cluster, next, secs[1..]);
      assert Shapes(secs) == [ShapeOf(secs[0])] + Shapes(secs[1..]);
      MergedAllStep(Shapes(m.entries), ShapeOf(secs[0]), Shapes(secs[1..]));
    }
  }

  /** The same for a whole mutation. */
  lemma MutationShape(cluster: Option<Cluster>, pod: PodAnnotations)
    requires Mutate(cluster, pod).Ok? && Mutate(cluster, pod).value.0
    ensures var after := Mutate(cluster, pod).value.1.multus;
            && after.Some?
            && Shapes(after.value) == MergedAll(Shapes(Existing(pod)), Shapes(Secondaries(pod.interfaces.value)))
  {
    hide MergeAll, Secondaries, ListedTexts, Primaries, Shapes, MergedAll;
    MergeAllShape(cluster, Merge(Existing(pod), ListedTexts(Existing(pod))), Secondaries(pod.interfaces.value));
  }

  // ---------------------------------------------------------------- when nothing is appended

  /** When its turn comes, the request finds a suiting entry. */
  ghost predicate FindsOne(shapes: seq<Shape>, rs: seq<Shape>, t: nat)
    requires t < |rs|
  {
    AnySuits(MergedAll(shapes, rs[..t]), rs[t])
  }

  lemma MergedLength(shapes: seq<Shape>, r: Shape)
    ensures |Merged(shapes, r)| == |shapes| + (if AnySuits(shapes, r) then 0 else 1)
  {
    hide Suits;
    FirstFromMeaning(shapes, r, 0);
  }

  /** Nothing is appended exactly when every request finds an entry when its turn comes. */
  lemma {:induction false} NothingAppendedExactly(shapes: seq<Shape>, rs: seq<Shape>)
    ensures |MergedAll(shapes, rs)| >= |shapes|
    ensures |MergedAll(shapes, rs)| == |shapes| <==> forall t :: 0 <= t < |rs| ==> FindsOne(shapes, rs, t)
  {
    hide Merged, AnySuits;
    if rs != [] {
      var n := |rs| - 1;
      var front := rs[..n];
      NothingAppendedExactly(shapes, front);
      MergedLength(MergedAll(shapes, front), rs[n]);
      forall t | 0 <= t < n ensures FindsOne(shapes, front, t) <==> FindsOne(shapes, rs, t) {
        assert front[..t] == rs[..t] && front[t] == rs[t];
      }
      assert rs[..n] == front;
      assert FindsOne(shapes, rs, n) <==> AnySuits(MergedAll(shapes, front), rs[n]);
    }
  }

  /** Merging a request keeps the entries of other names, and adds none of another name. */
  lemma MergedKeepsOthers(shapes: seq<Shape>, r: Shape, q: Shape)
    requires r.name != q.name
    ensures AnySuits(Merged(shapes, r), q) <==> AnySuits(shapes, q)
  {
    FirstFromMeaning(shapes, r, 0);
    var after := Merged(shapes, r);
    if AnySuits(shapes, q) {
      var k :| 0 <= k < |shapes| && Suits(shapes[k], q);
      assert after[k] == shapes[k];
    }
    if AnySuits(after, q) {
      var k :| 0 <= k < |after| && Suits(after[k], q);
      assert k < |shapes| && after[k] == shapes[k];
    }
  }

  lemma {:induction false} OthersKeep(shapes: seq<Shape>, rs: seq<Shape>, q: Shape)
    requires forall r :: r in rs ==> r.name != q.name
    ensures AnySuits(MergedAll(shapes, rs), q) <==> AnySuits(shapes, q)
  {
    hide Merged, AnySuits;
    if rs != [] {
      var front, last := rs[..|rs| - 1], rs[|rs| - 1];
      assert last in rs;
      OthersKeep(shapes, front, q);
      MergedKeepsOthers(MergedAll(shapes, front), last, q);
    }
  }

  predicate DistinctNames(rs: seq<Shape>) {
    forall i, j :: 0 <= i < j < |rs| ==> rs[i].name != rs[j].name
  }

  /** When each network is requested once, nothing is appended exactly when every request has a suiting prior entry. */
  lemma NothingAppendedForDistinct(shapes: seq<Shape>, rs: seq<Shape>)
    requires DistinctNames(rs)
    ensures |MergedAll(shapes, rs)| == |shapes| <==> forall t :: 0 <= t < |rs| ==> AnySuits(shapes, rs[t])
  {
    hide MergedAll, AnySuits;
    NothingAppendedExactly(shapes, rs);
    forall t | 0 <= t < |rs| ensures FindsOne(shapes, rs, t) <==> AnySuits(shapes, rs[t]) {
      OthersKeep(shapes, rs[..t], rs[t]);
    }
  }

  /** What suits an entry after a merge into it suited it before. */
  lemma MergedSuitsBefore(shapes: seq<Shape>, r: Shape, q: Shape)
    requires AnySuits(shapes, r) && AnySuits(Merged(shapes, r), q)
    ensures AnySuits(shapes, q)
  {
    FirstFromMeaning(shapes, r, 0);
    var after := Merged(shapes, r);
    var k :| 0 <= k < |after| && Suits(after[k], q);
    assert Suits(shapes[k], q);
  }

  lemma {:induction false} SuitedBefore(shapes: seq<Shape>, rs: seq<Shape>, q: Shape)
    requires |MergedAll(shapes, rs)| == |shapes| && AnySuits(MergedAll(shapes, rs), q)
    ensures AnySuits(shapes, q)
  {
    hide Merged, AnySuits;
    if rs != [] {
      var front, last := rs[..|rs| - 1], rs[|rs| - 1];
      MergedLength(MergedAll(shapes, front), last);
      NothingAppendedExactly(shapes, front);
      MergedSuitsBefore(MergedAll(shapes, front), last, q);
      SuitedBefore(shapes, front, q);
    }
  }

  /** So where nothing is appended, every request has a suiting prior entry. */
  lemma NothingAppendedNeedsPrior(shapes: seq<Shape>, rs: seq<Shape>, t: nat)
    requires |MergedAll(shapes, rs)| == |shapes| && t < |rs|
    ensures AnySuits(shapes, rs[t])
  {
    hide Merged, AnySuits, MergedAll;
    NothingAppendedExactly(shapes, rs);
    assert FindsOne(shapes, rs, t);
    forall u | 0 <= u < t ensures FindsOne(shapes, rs[..t], u) {
      assert FindsOne(shapes, rs, u) && rs[..t][..u] == rs[..u] && rs[..t][u] == rs[u];
    }
    NothingAppendedExactly(shapes, rs[..t]);
    SuitedBefore(shapes, rs[..t], rs[t]);
  }

  /** But it is not enough: two interfaces of one network compete for one entry without an interface. */
  lemma BlankEntryServesOnce(name: string, a: string, b: string)
    requires a != b && a != "" && b != ""
    ensures var shapes, rs := [Shape(name, "")], [Shape(name, a), Shape(name, b)];
            && (forall t :: 0 <= t < |rs| ==> AnySuits(shapes, rs[t]))
            && MergedAll(shapes, rs) == [Shape(name, a), Shape(name, b)]
  {
    var shapes, rs := [Shape(name, "")], [Shape(name, a), Shape(name, b)];
    assert forall t :: 0 <= t < 2 ==> Suits(shapes[0], rs[t]);
    assert rs[..1] == [Shape(name, a)] && rs[..1][..0] == [];
    assert Merged(shapes, rs[0]) == [Shape(name, a)];
    assert MergedAll(shapes, rs[..1]) == [Shape(name, a)];
    FirstFromMeaning([Shape(name, a)], rs[1], 0);
    assert !Suits(Shape(name, a), rs[1]) && FirstFrom([Shape(name, a)], rs[1], 0) == 1;
    assert Merged([Shape(name, a)], rs[1]) == [Shape(name, a)] + [rs[1]];
  }

  // ---------------------------------------------------------------- requests from interfaces

  /** Names are read without the blanks around them; three networks are the primary one. */
  lemma InterfaceMeaning(pad: seq<string>, iface: string, network: string)
    requires |pad| == 4 && forall p :: p in pad ==> Blank(p, GoSpace)
    requires Trimmed(iface, GoSpace) && Trimmed(network, GoSpace)
    ensures var i := Iface(pad[0] + iface + pad[1], pad[2] + network + pad[3]);
            && (IsPrimary(i) <==> network in ["", "pod-network", "default"])
            && Requested(i) == MultusEntry(network, iface, [])
  {
    hide Trim;
    assert pad[0] in pad && pad[1] in pad && pad[2] in pad && pad[3] in pad;
    TrimPadded(pad[0], iface, pad[1], GoSpace);
    TrimPadded(pad[2], network, pad[3], GoSpace);
  }

  /** What is left for the primary network: the primary interfaces, in order, or eth0 on pod-network. */
  lemma LeftForPrimary(cluster: Option<Cluster>, pod: PodAnnotations)
    requires Mutate(cluster, pod).Ok? && Mutate(cluster, pod).value.0
    ensures var p, primaries := Mutate(cluster, pod).value.1, Primaries(pod.interfaces.value);
            && p.interfaces == Some(if primaries == [] then [Iface("eth0", "pod-network")] else primaries)
            && p.defaultInterface == Some(if pod.defaultInterface.Some? then pod.defaultInterface.value else "eth0")
  {
    hide MergeAll, Secondaries, ListedTexts, Primaries;
  }
}
