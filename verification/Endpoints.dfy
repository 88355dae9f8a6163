/**
  reconcileRoutesAndEndpoints and collectEndpointsForSelector: the backend
  addresses and ports gathered by nested loops that share their "seen" maps.
*/
module Endpoints {
  import opened Wrappers
  import opened Text
  import opened TextSets

  const DEFAULT_PORT: nat := 80
  const MAX_PORT: nat := 65535

  datatype Gateway = Gateway(name: string, namespace: string)

  /** `None` in a list below stands for an element that is not an object, or a missing field. */
  datatype ParentRef = ParentRef(name: string, namespace: string)
  datatype BackendRef = BackendRef(name: string, port: Option<int>)
  datatype Rule = Rule(backendRefs: Option<seq<Option<BackendRef>>>)
  datatype Route = Route(parentRefs: Option<seq<Option<ParentRef>>>, rules: Option<seq<Option<Rule>>>)

  datatype NetworkStatus = NetworkStatus(name: string, ips: seq<Option<string>>)
  datatype PodCondition = PodCondition(kind: string, status: string)
  datatype Pod = Pod(running: bool, conditions: seq<PodCondition>, status: Option<seq<NetworkStatus>>)

  /** What the API server answers in the Gateway's namespace: the pods each selector matches,
      in list order; a selector that is missing, empty or cannot be listed is not in the map. */
  type Cluster = map<string, seq<Pod>>

  // ---------------------------------------------------------------- predicates on objects

  predicate RefersTo(ref: Option<ParentRef>, gw: Gateway) {
    ref.Some? && ref.value.name == gw.name && (ref.value.namespace == "" || ref.value.namespace == gw.namespace)
  }

  predicate ReferencesGateway(route: Route, gw: Gateway) {
    route.parentRefs.Some? && exists i :: 0 <= i < |route.parentRefs.value| && RefersTo(route.parentRefs.value[i], gw)
  }

  /** The first PodReady condition decides. */
  predicate IsReady(conditions: seq<PodCondition>) {
    if conditions == [] then false
    else if conditions[0].kind == "Ready" then conditions[0].status == "True"
    else IsReady(conditions[1..])
  }

  /** The part after the last slash. */
  function BareName(name: string): string {
    var parts := Split(name, '/');
    parts[|parts| - 1]
  }

  function EffectivePort(port: Option<int>): (p: nat)
    ensures 1 <= p <= MAX_PORT
  {
    if port.Some? && 0 < port.value <= MAX_PORT then port.value else DEFAULT_PORT
  }

  // ---------------------------------------------------------------- the flattened lists

  function StatusAddress(item: NetworkStatus, network: string): seq<string> {
    if BareName(item.name) == network && item.ips != [] && item.ips[0].Some? && item.ips[0].value != ""
    then [item.ips[0].value] else []
  }

  function StatusAddresses(items: seq<NetworkStatus>, network: string): seq<string> {
    if items == [] then []
    else StatusAddresses(items[..|items| - 1], network) + StatusAddress(items[|items| - 1], network)
  }

  function PodAddresses(pod: Pod, network: string): seq<string> {
    if pod.running && IsReady(pod.conditions) && pod.status.Some?
    then StatusAddresses(pod.status.value, network) else []
  }

  function PodsAddresses(pods: seq<Pod>, network: string): seq<string> {
    if pods == [] then [] else PodsAddresses(pods[..|pods| - 1], network) + PodAddresses(pods[|pods| - 1], network)
  }

  function SelectorAddresses(cluster: Cluster, selector: string, network: string): seq<string> {
    if selector in cluster then PodsAddresses(cluster[selector], network) else []
  }

  /** The backend references that name a selector. */
  function Named(refs: seq<Option<BackendRef>>): seq<BackendRef> {
    if refs == [] then []
    else
      var last := refs[|refs| - 1];
      Named(refs[..|refs| - 1]) + (if last.Some? && last.value.name != "" then [last.value] else [])
  }

  function RuleRefs(rules: seq<Option<Rule>>): seq<BackendRef> {
    if rules == [] then []
    else
      var last := rules[|rules| - 1];
      RuleRefs(rules[..|rules| - 1])
      + (if last.Some? && last.value.backendRefs.Some? then Named(last.value.backendRefs.value) else [])
  }

  function RouteRefs(route: Route, gw: Gateway): seq<BackendRef> {
    if ReferencesGateway(route, gw) && route.rules.Some? then RuleRefs(route.rules.value) else []
  }

  /** Every backend reference of the Gateway, in the order of the nested loops. */
  function AllRefs(routes: seq<Route>, gw: Gateway): seq<BackendRef> {
    if routes == [] then [] else AllRefs(routes[..|routes| - 1], gw) + RouteRefs(routes[|routes| - 1], gw)
  }

  function AllAddresses(cluster: Cluster, refs: seq<BackendRef>, network: string): seq<string> {
    if refs == [] then []
    else AllAddresses(cluster, refs[..|refs| - 1], network) + SelectorAddresses(cluster, refs[|refs| - 1].name, network)
  }

  function AllPorts(refs: seq<BackendRef>): seq<nat> {
    if refs == [] then [] else AllPorts(refs[..|refs| - 1]) + [EffectivePort(refs[|refs| - 1].port)]
  }

  // ---------------------------------------------------------------- first occurrences

  /** Each element once, where it first occurs. */
  function FirstOccurrences<T(==)>(s: seq<T>): seq<T> {
    if s == [] then []
    else
      var front, last := s[..|s| - 1], s[|s| - 1];
      FirstOccurrences(front) + (if last in front then [] else [last])
  }

  function IndexOf<T(==)>(s: seq<T>, x: T): (i: nat)
    requires x in s
    ensures i < |s| && s[i] == x && x !in s[..i]
  {
    if s[0] == x then 0 else
      assert s == [s[0]] + s[1..];
      var i := 1 + IndexOf(s[1..], x);
      assert s[..i] == [s[0]] + s[1..][..i - 1];
      i
  }

  lemma {:induction false} SameElements<T>(s: seq<T>)
    ensures forall x :: x in FirstOccurrences(s) <==> x in s
  {
    if s != [] {
      var front, last := s[..|s| - 1], s[|s| - 1];
      SameElements(front);
      assert s == front + [last];
    }
  }

  lemma {:induction false} NoRepeats<T>(s: seq<T>)
    ensures forall i, j :: 0 <= i < j < |FirstOccurrences(s)| ==> FirstOccurrences(s)[i] != FirstOccurrences(s)[j]
  {
    if s != [] {
      var front := s[..|s| - 1];
      NoRepeats(front);
      SameElements(front);
    }
  }

  lemma IndexOfPrefix<T>(front: seq<T>, last: T, x: T)
    requires x in front
    ensures x in front + [last] && IndexOf(front + [last], x) == IndexOf(front, x)
  {
    var s, j := front + [last], IndexOf(front, x);
    assert s[j] == x && s[..j] == front[..j];
    FirstIndexUnique(s, x, IndexOf(s, x), j);
  }

  lemma FirstIndexUnique<T>(s: seq<T>, x: T, i: nat, j: nat)
    requires i < |s| && s[i] == x && x !in s[..i]
    requires j < |s| && s[j] == x && x !in s[..j]
    ensures i == j
  {
    assert forall k :: 0 <= k < i ==> s[k] in s[..i];
    assert forall k :: 0 <= k < j ==> s[k] in s[..j];
  }

  lemma ElementOfBoth<T>(s: seq<T>, k: nat)
    requires k < |FirstOccurrences(s)|
    ensures FirstOccurrences(s)[k] in s
  {
    SameElements(s);
    var f := FirstOccurrences(s);
    assert f[k] in f;
  }

  /** The elements stand in the order of their first occurrences. */
  lemma {:induction false} OrderKept<T>(s: seq<T>, i: nat, j: nat)
    requires i < j < |FirstOccurrences(s)|
    ensures FirstOccurrences(s)[i] in s && FirstOccurrences(s)[j] in s
    ensures IndexOf(s, FirstOccurrences(s)[i]) < IndexOf(s, FirstOccurrences(s)[j])
  {
    hide IndexOf;
    ElementOfBoth(s, i);
    ElementOfBoth(s, j);
    var front, last := s[..|s| - 1], s[|s| - 1];
    assert s == front + [last];
    var f := FirstOccurrences(front);
    ElementOfBoth(front, i);
    IndexOfPrefix(front, last, f[i]);
    if j < |f| {
      OrderKept(front, i, j);
      IndexOfPrefix(front, last, f[j]);
    } else {
      assert forall k :: 0 <= k < |front| ==> s[k] in front;
    }
  }

  /** The elements of `s` not in `seen` and not earlier in `s`. */
  function Unseen<T(==)>(s: seq<T>, seen: set<T>): seq<T> {
    if s == [] then []
    else
      var front, last := s[..|s| - 1], s[|s| - 1];
      Unseen(front, seen) + (if last in front || last in seen then [] else [last])
  }

  function Elements<T(==)>(s: seq<T>): set<T> { set x | x in s }

  lemma ElementsConcat<T>(a: seq<T>, b: seq<T>)
    ensures Elements(a + b) == Elements(a) + Elements(b)
  {
  }

  /** Deduplicating piece by piece against a shared map is deduplicating the whole. */
  lemma {:induction false} PieceByPiece<T>(a: seq<T>, b: seq<T>)
    ensures FirstOccurrences(a + b) == FirstOccurrences(a) + Unseen(b, Elements(a))
  {
    if b == [] {
      assert a + b == a;
    } else {
      var front, last := b[..|b| - 1], b[|b| - 1];
      assert (a + b)[..|a + b| - 1] == a + front && (a + b)[|a + b| - 1] == last;
      PieceByPiece(a, front);
      assert last in a + front <==> last in front || last in Elements(a);
      var rest := if last in front || last in Elements(a) then [] else [last];
      assert FirstOccurrences(a) + (Unseen(front, Elements(a)) + rest)
          == FirstOccurrences(a) + Unseen(front, Elements(a)) + rest;
    }
  }

  /** The same for the part that is not yet seen. */
  lemma {:induction false} UnseenConcat<T>(a: seq<T>, b: seq<T>, seen: set<T>)
    ensures Unseen(a + b, seen) == Unseen(a, seen) + Unseen(b, seen + Elements(a))
  {
    if b == [] {
      assert a + b == a;
    } else {
      var front, last := b[..|b| - 1], b[|b| - 1];
      assert (a + b)[..|a + b| - 1] == a + front && (a + b)[|a + b| - 1] == last;
      UnseenConcat(a, front, seen);
      assert last in a + front || last in seen <==> last in front || last in seen + Elements(a);
      var rest := if last in front || last in seen + Elements(a) then [] else [last];
      assert Unseen(a, seen) + (Unseen(front, seen + Elements(a)) + rest)
          == Unseen(a, seen) + Unseen(front, seen + Elements(a)) + rest;
    }
  }

  // ---------------------------------------------------------------- the loops

  /** The innermost loops: addresses of one selector that no earlier selector gave. */
  method CollectEndpoints(cluster: Cluster, selector: string, network: string, seen: TextSet)
    returns (addresses: seq<string>)
    modifies seen
    ensures addresses == Unseen(SelectorAddresses(cluster, selector, network), old(seen.members))
    ensures seen.members == old(seen.members) + Elements(SelectorAddresses(cluster, selector, network))
  {
    hide PodAddresses, Unseen, Elements;
    NothingCollected(seen.members);
    addresses := [];
    if selector !in cluster {
      return;
    }
    var pods := cluster[selector];
    for i := 0 to |pods|
      invariant addresses == Unseen(PodsAddresses(pods[..i], network), old(seen.members))
      invariant seen.members == old(seen.members) + Elements(PodsAddresses(pods[..i], network))
    {
      assert pods[..i + 1][..i] == pods[..i];
      ghost var before := PodsAddresses(pods[..i], network);
      var more := CollectFromPod(pods[i], network, seen);
      UnseenConcat(before, PodAddresses(pods[i], network), old(seen.members));
      ElementsConcat(before, PodAddresses(pods[i], network));
      addresses := addresses + more;
    }
    assert pods[..|pods|] == pods;
  }

  lemma NothingCollected(seen: set<string>)
    ensures Unseen([], seen) == [] && Elements<string>([]) == {}
  {
  }

  method CollectFromPod(pod: Pod, network: string, seen: TextSet) returns (addresses: seq<string>)
    modifies seen
    ensures addresses == Unseen(PodAddresses(pod, network), old(seen.members))
    ensures seen.members == old(seen.members) + Elements(PodAddresses(pod, network))
  {
    hide BareName, Unseen, Elements;
    NothingCollected(seen.members);
    addresses := [];
    if !pod.running || !IsReady(pod.conditions) || pod.status.None? {
      return;
    }
    var items := pod.status.value;
    for i := 0 to |items|
      invariant addresses == Unseen(StatusAddresses(items[..i], network), old(seen.members))
      invariant seen.members == old(seen.members) + Elements(StatusAddresses(items[..i], network))
    {
      assert items[..i + 1][..i] == items[..i];
      ghost var before := StatusAddresses(items[..i], network);
      if BareName(items[i].name) == network && |items[i].ips| > 0 {
        var ip := items[i].ips[0];
        if ip.Some? && ip.value != "" {
          TakeOne(before, ip.value, old(seen.members));
          if ip.value !in seen.members {
            seen.Add(ip.value);
            addresses := addresses + [ip.value];
          }
        }
      }
      assert before + [] == before;
    }
    assert items[..|items|] == items;
  }

  lemma TakeOne(before: seq<string>, ip: string, seen: set<string>)
    ensures Unseen(before + [ip], seen)
         == Unseen(before, seen) + (if ip in seen + Elements(before) then [] else [ip])
    ensures Elements(before + [ip]) == Elements(before) + {ip}
  {
    assert (before + [ip])[..|before|] == before;
    ElementsConcat(before, [ip]);
  }

  /** What the loops carry from one backend reference to the next. */
  class Gathered {
    const seenAddresses: TextSet
    var addresses: seq<string>
    var seenPorts: set<nat>
    var ports: seq<nat>
    var haveBackendRefs: bool

    constructor ()
      ensures fresh(seenAddresses) && seenAddresses.members == {}
      ensures addresses == [] && seenPorts == {} && ports == [] && !haveBackendRefs
    {
      seenAddresses := new TextSet();
      addresses, seenPorts, ports, haveBackendRefs := [], {}, [], false;
    }

    /** The state stands for the references handled so far. */
    ghost predicate Reflects(cluster: Cluster, network: string, refs: seq<BackendRef>)
      reads this, seenAddresses
    {
      && addresses == FirstOccurrences(AllAddresses(cluster, refs, network))
      && seenAddresses.members == Elements(AllAddresses(cluster, refs, network))
      && ports == FirstOccurrences(AllPorts(refs))
      && seenPorts == Elements(AllPorts(refs))
      && (haveBackendRefs <==> refs != [])
    }

    method HandleRef(cluster: Cluster, network: string, ref: BackendRef, ghost done: seq<BackendRef>)
      requires Reflects(cluster, network, done)
      modifies this, seenAddresses
      ensures Reflects(cluster, network, done + [ref])
    {
      hide SelectorAddresses, FirstOccurrences, Elements, Unseen;
      RefsStep(cluster, network, done, ref);
      var epPort := EffectivePort(ref.port);
      haveBackendRefs := true;
      var more := CollectEndpoints(cluster, ref.name, network, seenAddresses);
      addresses := addresses + more;
      if epPort !in seenPorts {
        seenPorts := seenPorts + {epPort};
        ports := ports + [epPort];
      }
    }

    method HandleRule(cluster: Cluster, network: string, refs: seq<Option<BackendRef>>, ghost done: seq<BackendRef>)
      requires Reflects(cluster, network, done)
      modifies this, seenAddresses
      ensures Reflects(cluster, network, done + Named(refs))
    {
      hide Reflects;
      assert done + [] == done;
      for i := 0 to |refs|
        invariant Reflects(cluster, network, done + Named(refs[..i]))
      {
        assert refs[..i + 1][..i] == refs[..i];
        if refs[i].Some? && refs[i].value.name != "" {
          HandleRef(cluster, network, refs[i].value, done + Named(refs[..i]));
          assert done + Named(refs[..i]) + [refs[i].value] == done + Named(refs[..i + 1]);
        } else {
          assert Named(refs[..i]) + [] == Named(refs[..i]);
        }
      }
      assert refs[..|refs|] == refs;
    }

    method HandleRoute(cluster: Cluster, network: string, rules: seq<Option<Rule>>, ghost done: seq<BackendRef>)
      requires Reflects(cluster, network, done)
      modifies this, seenAddresses
      ensures Reflects(cluster, network, done + RuleRefs(rules))
    {
      hide Reflects, Named;
      assert done + [] == done;
      for i := 0 to |rules|
        invariant Reflects(cluster, network, done + RuleRefs(rules[..i]))
      {
        assert rules[..i + 1][..i] == rules[..i];
        if rules[i].Some? && rules[i].value.backendRefs.Some? {
          HandleRule(cluster, network, rules[i].value.backendRefs.value, done + RuleRefs(rules[..i]));
          assert done + RuleRefs(rules[..i]) + Named(rules[i].value.backendRefs.value)
              == done + RuleRefs(rules[..i + 1]);
        } else {
          assert RuleRefs(rules[..i]) + [] == RuleRefs(rules[..i]);
        }
      }
      assert rules[..|rules|] == rules;
    }
  }

  /** One more reference: what it adds to the flattened lists and to their first occurrences. */
  lemma RefsStep(cluster: Cluster, network: string, done: seq<BackendRef>, ref: BackendRef)
    ensures var before, more := AllAddresses(cluster, done, network), SelectorAddresses(cluster, ref.name, network);
            && AllAddresses(cluster, done + [ref], network) == before + more
            && FirstOccurrences(before + more) == FirstOccurrences(before) + Unseen(more, Elements(before))
            && Elements(before + more) == Elements(before) + Elements(more)
    ensures var before, port := AllPorts(done), EffectivePort(ref.port);
            && AllPorts(done + [ref]) == before + [port]
            && FirstOccurrences(before + [port])
               == FirstOccurrences(before) + (if port in Elements(before) then [] else [port])
            && Elements(before + [port]) == Elements(before) + {port}
  {
    hide SelectorAddresses, Unseen;
    assert (done + [ref])[..|done|] == done;
    PieceByPiece(AllAddresses(cluster, done, network), SelectorAddresses(cluster, ref.name, network));
    ElementsConcat(AllAddresses(cluster, done, network), SelectorAddresses(cluster, ref.name, network));
    PieceByPiece(AllPorts(done), [EffectivePort(ref.port)]);
    UnseenOne(EffectivePort(ref.port), Elements(AllPorts(done)));
    ElementsConcat(AllPorts(done), [EffectivePort(ref.port)]);
  }

  lemma UnseenOne<T>(x: T, seen: set<T>)
    ensures Unseen([x], seen) == (if x in seen then [] else [x])
  {
    assert [x][..0] == [];
  }

  method RefersToGateway(route: Route, gw: Gateway) returns (r: bool)
    ensures r == ReferencesGateway(route, gw)
  {
    if route.parentRefs.None? {
      return false;
    }
    var refs := route.parentRefs.value;
    for i := 0 to |refs|
      invariant forall k :: 0 <= k < i ==> !RefersTo(refs[k], gw)
    {
      if RefersTo(refs[i], gw) {
        return true;
      }
    }
    return false;
  }

  /** What becomes of the Gateway's Service and slice. */
  datatype Outcome = Untouched | Removed | Written(service: Service, slice: EndpointSlice)

  /** The number of endpoints, and what becomes of the pair; `routes` is None when they cannot be listed. */
  function OutcomeOf(cluster: Cluster, routes: Option<seq<Route>>, gw: Gateway, gwIp: string, network: string):
    (nat, Outcome)
  {
    if routes.None? then (0, Untouched)
    else
      var refs := AllRefs(routes.value, gw);
      var ports, addresses := FirstOccurrences(AllPorts(refs)), FirstOccurrences(AllAddresses(cluster, refs, network));
      (|addresses|,
       if refs == [] then Removed else Written(ServiceFor(gw, gwIp, ports), SliceFor(gw, ports, addresses)))
  }

  method ReconcileRoutes(cluster: Cluster, routes: Option<seq<Route>>, gw: Gateway, gwIp: string, network: string)
    returns (count: nat, outcome: Outcome)
    ensures (count, outcome) == OutcomeOf(cluster, routes, gw, gwIp, network)
  {
    hide ReferencesGateway, RuleRefs, ServiceFor, SliceFor;
    if routes.None? {
      return 0, Untouched;
    }
    var items := routes.value;
    var g := new Gathered();
    NothingGathered(cluster, network);
    for i := 0 to |items|
      invariant fresh(g) && fresh(g.seenAddresses)
      invariant g.Reflects(cluster, network, AllRefs(items[..i], gw))
    {
      assert items[..i + 1][..i] == items[..i];
      ghost var done := AllRefs(items[..i], gw);
      var bound := RefersToGateway(items[i], gw);
      if bound && items[i].rules.Some? {
        g.HandleRoute(cluster, network, items[i].rules.value, done);
      } else {
        assert done + [] == done;
      }
    }
    assert items[..|items|] == items;
    count := |g.addresses|;
    if g.haveBackendRefs {
      outcome := Written(ServiceFor(gw, gwIp, g.ports), SliceFor(gw, g.ports, g.addresses));
    } else {
      outcome := Removed;
    }
  }

  lemma NothingGathered(cluster: Cluster, network: string)
    ensures AllAddresses(cluster, [], network) == [] && AllPorts([]) == []
    ensures FirstOccurrences<string>([]) == [] && FirstOccurrences<nat>([]) == []
    ensures Elements<string>([]) == {} && Elements<nat>([]) == {}
  {
  }

  // ---------------------------------------------------------------- what is written

  datatype NamedPort = NamedPort(name: string, port: nat)
  datatype Service = Service(name: string, namespace: string, headless: bool, externalIps: seq<string>,
                             ports: seq<NamedPort>)
  datatype EndpointSlice = EndpointSlice(name: string, namespace: string, endpoints: seq<string>, ports: seq<NamedPort>)

  function PortName(ports: seq<nat>, p: nat): string {
    if |ports| == 1 then "service" else "service-" + Decimal(p)
  }

  function NamedPorts(ports: seq<nat>): seq<NamedPort> {
    seq(|ports|, i requires 0 <= i < |ports| => NamedPort(PortName(ports, ports[i]), ports[i]))
  }

  function ServiceFor(gw: Gateway, gwIp: string, ports: seq<nat>): Service {
    Service(gw.name, gw.namespace, true, [gwIp], NamedPorts(ports))
  }

  function SliceFor(gw: Gateway, ports: seq<nat>, addresses: seq<string>): EndpointSlice {
    EndpointSlice(gw.name + "-slice", gw.namespace, addresses, NamedPorts(ports))
  }

  lemma PortNamesDistinct(ports: seq<nat>, i: nat, j: nat)
    requires i < j < |ports| && ports[i] != ports[j]
    ensures PortName(ports, ports[i]) != PortName(ports, ports[j])
  {
    if PortName(ports, ports[i]) == PortName(ports, ports[j]) {
      var prefix := "service-";
      assert (prefix + Decimal(ports[i]))[|prefix|..] == Decimal(ports[i]);
      assert (prefix + Decimal(ports[j]))[|prefix|..] == Decimal(ports[j]);
      DecimalInjective(ports[i], ports[j]);
    }
  }

  lemma {:induction false} PortsInRange(refs: seq<BackendRef>)
    ensures forall p :: p in AllPorts(refs) ==> 1 <= p <= MAX_PORT
  {
    if refs != [] {
      PortsInRange(refs[..|refs| - 1]);
      var front := AllPorts(refs[..|refs| - 1]);
      assert forall p :: p in AllPorts(refs) ==> p in front || p == EffectivePort(refs[|refs| - 1].port);
    }
  }

  /** Ports and endpoints of the written pair: in range, without repeats, uniquely and equally named,
      and one endpoint for every distinct address. */
  lemma WrittenPairIsSound(cluster: Cluster, refs: seq<BackendRef>, gw: Gateway, gwIp: string, network: string)
    ensures var ports, addresses := FirstOccurrences(AllPorts(refs)),
                                FirstOccurrences(AllAddresses(cluster, refs, network));
            var service, slice := ServiceFor(gw, gwIp, ports), SliceFor(gw, ports, addresses);
            && service.ports == slice.ports && |service.ports| == |ports|
            && (forall k :: 0 <= k < |ports| ==> service.ports[k].port == ports[k] && 1 <= ports[k] <= MAX_PORT)
            && (forall i, j :: 0 <= i < j < |ports| ==>
                  service.ports[i].name != service.ports[j].name && service.ports[i].port != service.ports[j].port)
            && (forall i, j :: 0 <= i < j < |slice.endpoints| ==> slice.endpoints[i] != slice.endpoints[j])
            && (forall a :: a in slice.endpoints <==> a in AllAddresses(cluster, refs, network))
  {
    hide FirstOccurrences, AllPorts, AllAddresses, PortName;
    var all, ports := AllPorts(refs), FirstOccurrences(AllPorts(refs));
    PortsInRange(refs);
    NoRepeats(all);
    SameElements(all);
    forall k | 0 <= k < |ports| ensures 1 <= ports[k] <= MAX_PORT { assert ports[k] in ports; }
    forall i, j | 0 <= i < j < |ports| ensures PortName(ports, ports[i]) != PortName(ports, ports[j]) {
      PortNamesDistinct(ports, i, j);
    }
    NoRepeats(AllAddresses(cluster, refs, network));
    SameElements(AllAddresses(cluster, refs, network));
  }
}
