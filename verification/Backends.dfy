/**
  Who is behind a Gateway: the endpoints and ports that are written for it, said
  in terms of routes, rules, references, pods and their reported networks.
*/
module Backends {
  import opened Wrappers
  import opened Text
  import opened Endpoints

  // ---------------------------------------------------------------- the parts, spelled out

  /** The first condition of kind "Ready" has status "True". */
  predicate SaysReady(conditions: seq<PodCondition>) {
    exists c :: 0 <= c < |conditions| && conditions[c].kind == "Ready" && conditions[c].status == "True"
                && forall d :: 0 <= d < c ==> conditions[d].kind != "Ready"
  }

  /** What follows the last slash of the name, or all of it, is the network. */
  predicate EndsInNetwork(name: string, network: string) {
    && '/' !in network
    && (name == network
        || (|name| > |network| && name[|name| - |network| - 1] == '/' && name[|name| - |network|..] == network))
  }

  /** A parentRef has the Gateway's name and no namespace, or the Gateway's. */
  predicate NamesGateway(route: Route, gw: Gateway) {
    && route.parentRefs.Some?
    && exists i :: 0 <= i < |route.parentRefs.value| && ParentIs(route.parentRefs.value[i], gw)
  }

  predicate ParentIs(ref: Option<ParentRef>, gw: Gateway) {
    ref.Some? && ref.value.name == gw.name && (ref.value.namespace == "" || ref.value.namespace == gw.namespace)
  }

  /** The b-th reference of the k-th rule of the route. */
  predicate Refers(route: Route, k: int, b: int, ref: BackendRef) {
    && route.rules.Some? && 0 <= k < |route.rules.value|
    && route.rules.value[k].Some? && route.rules.value[k].value.backendRefs.Some?
    && 0 <= b < |route.rules.value[k].value.backendRefs.value|
    && route.rules.value[k].value.backendRefs.value[b] == Some(ref)
  }

  /** Some rule of some listed route that names the Gateway has this reference, and it names a selector. */
  ghost predicate Referenced(routes: seq<Route>, gw: Gateway, ref: BackendRef) {
    ref.name != "" && exists r, k, b :: 0 <= r < |routes| && NamesGateway(routes[r], gw) && Refers(routes[r], k, b, ref)
  }

  /** The t-th status item of the pod gives this address first, on the network. */
  predicate Reports(pod: Pod, t: int, network: string, a: string) {
    && pod.status.Some? && 0 <= t < |pod.status.value|
    && EndsInNetwork(pod.status.value[t].name, network)
    && |pod.status.value[t].ips| > 0 && pod.status.value[t].ips[0] == Some(a) && a != ""
  }

  /** A pod the selector matches is running, ready, and reports the address. */
  ghost predicate Backs(cluster: Cluster, selector: string, network: string, a: string) {
    && selector in cluster
    && exists p, t :: 0 <= p < |cluster[selector]| && cluster[selector][p].running
                      && SaysReady(cluster[selector][p].conditions) && Reports(cluster[selector][p], t, network, a)
  }

  ghost predicate IsBackend(cluster: Cluster, routes: seq<Route>, gw: Gateway, network: string, a: string) {
    exists ref :: Referenced(routes, gw, ref) && Backs(cluster, ref.name, network, a)
  }

  /** The reference's own port if it is one, and 80 otherwise. */
  predicate GivesPort(ref: BackendRef, p: nat) {
    match ref.port
    case Some(q) => if 1 <= q <= 65535 then p == q else p == 80
    case None => p == 80
  }

  // ---------------------------------------------------------------- one pod

  lemma {:induction false} IsReadyMeaning(conditions: seq<PodCondition>)
    ensures IsReady(conditions) <==> SaysReady(conditions)
  {
    if conditions != [] && conditions[0].kind != "Ready" {
      var rest := conditions[1..];
      IsReadyMeaning(rest);
      if SaysReady(rest) {
        var c :| 0 <= c < |rest| && rest[c].kind == "Ready" && rest[c].status == "True"
                 && forall d :: 0 <= d < c ==> rest[d].kind != "Ready";
        assert conditions[c + 1] == rest[c];
        assert forall d :: 0 < d < c + 1 ==> conditions[d] == rest[d - 1];
      }
      if SaysReady(conditions) {
        var c :| 0 <= c < |conditions| && conditions[c].kind == "Ready" && conditions[c].status == "True"
                 && forall d :: 0 <= d < c ==> conditions[d].kind != "Ready";
        assert rest[c - 1] == conditions[c];
        assert forall d :: 0 <= d < c - 1 ==> rest[d] == conditions[d + 1];
      }
    }
  }

  /** The last piece of a text without the separator in its tail is that tail. */
  lemma {:induction false} LastPiece(front: string, tail: string)
    requires '/' !in tail
    ensures BareName(tail) == tail && BareName(front + ['/'] + tail) == tail
    decreases |front|
  {
    SplitNoSep(tail, '/');
    var s := front + ['/'] + tail;
    if front == [] {
      assert s == ['/'] + tail;
      SplitCons('/', tail, '/');
    } else {
      assert s == [front[0]] + (front[1..] + ['/'] + tail);
      LastPiece(front[1..], tail);
      SplitCons(front[0], front[1..] + ['/'] + tail, '/');
      MoreThanOne(front[1..], tail);
    }
  }

  lemma MoreThanOne(front: string, tail: string)
    ensures |Split(front + ['/'] + tail, '/')| >= 2
  {
    hide Split;
    SplitAppend(front + ['/'], tail, '/');
    SplitAppend(front, ['/'], '/');
    OneSeparator();
  }

  lemma OneSeparator()
    ensures Split(['/'], '/') == [[], []]
  {
    assert ['/'][1..] == [];
  }

  /** A text is either without the separator or has a last one. */
  lemma {:induction false} LastSlash(name: string) returns (front: string, tail: string)
    requires '/' in name
    ensures name == front + ['/'] + tail && '/' !in tail
    decreases |name|
  {
    var n := |name| - 1;
    if name[n] == '/' {
      front, tail := name[..n], [];
    } else {
      assert name == name[..n] + [name[n]];
      front, tail := LastSlash(name[..n]);
      tail := tail + [name[n]];
    }
  }

  lemma BareNameMeaning(name: string, network: string)
    ensures BareName(name) == network <==> EndsInNetwork(name, network)
  {
    hide BareName;
    if '/' in name {
      var front, tail := LastSlash(name);
      LastPiece(front, tail);
      if EndsInNetwork(name, network) {
        SameTail(front, tail, name[..|name| - |network| - 1], network);
      }
    } else {
      LastPiece([], name);
      assert EndsInNetwork(name, network) ==> name == network;
    }
  }

  /** Two ways to cut at a slash with nothing but the tail behind it are one. */
  lemma SameTail(front: string, tail: string, before: string, network: string)
    requires '/' !in tail && '/' !in network
    requires var name := front + ['/'] + tail;
             name == network || (|name| > |network| && before == name[..|name| - |network| - 1]
                                 && name[|name| - |network| - 1] == '/' && name[|name| - |network|..] == network)
    ensures tail == network
  {
    var name := front + ['/'] + tail;
    assert name[|front|] == '/' && name[|front|] in name;
    if name != network {
      assert forall i :: 0 <= i < |tail| ==> name[|front| + 1 + i] == tail[i] && tail[i] in tail;
      var cut := |name| - |network|;
      assert forall i :: 0 <= i < |network| ==> name[cut + i] == name[cut..][i] == network[i] && network[i] in network;
      assert cut == |front| + 1;
      assert name[|name| - |tail|..] == tail;
    }
  }

  lemma StatusAddressMeaning(item: NetworkStatus, network: string, a: string)
    ensures a in StatusAddress(item, network) <==>
              EndsInNetwork(item.name, network) && |item.ips| > 0 && item.ips[0] == Some(a) && a != ""
  {
    hide BareName, EndsInNetwork;
    BareNameMeaning(item.name, network);
  }

  lemma {:induction false} StatusAddressesMeaning(items: seq<NetworkStatus>, network: string, a: string)
    ensures a in StatusAddresses(items, network) <==>
              exists t :: 0 <= t < |items| && a in StatusAddress(items[t], network)
  {
    hide StatusAddress;
    if items != [] {
      var n := |items| - 1;
      var front := items[..n];
      StatusAddressesMeaning(front, network, a);
      assert forall t :: 0 <= t < n ==> front[t] == items[t];
    }
  }

  lemma PodAddressesMeaning(pod: Pod, network: string, a: string)
    ensures a in PodAddresses(pod, network) <==>
              pod.running && SaysReady(pod.conditions) && exists t :: Reports(pod, t, network, a)
  {
    hide StatusAddresses, StatusAddress, EndsInNetwork, SaysReady, IsReady;
    IsReadyMeaning(pod.conditions);
    if pod.status.Some? {
      var items := pod.status.value;
      StatusAddressesMeaning(items, network, a);
      forall t | 0 <= t < |items| ensures a in StatusAddress(items[t], network) <==> Reports(pod, t, network, a) {
        StatusAddressMeaning(items[t], network, a);
      }
    }
  }

  // ---------------------------------------------------------------- one selector

  lemma {:induction false} PodsAddressesMeaning(pods: seq<Pod>, network: string, a: string)
    ensures a in PodsAddresses(pods, network) <==>
              exists p :: 0 <= p < |pods| && a in PodAddresses(pods[p], network)
  {
    hide PodAddresses;
    if pods != [] {
      var n := |pods| - 1;
      var front := pods[..n];
      PodsAddressesMeaning(front, network, a);
      assert forall p :: 0 <= p < n ==> front[p] == pods[p];
    }
  }

  lemma SelectorAddressesMeaning(cluster: Cluster, selector: string, network: string, a: string)
    ensures a in SelectorAddresses(cluster, selector, network) <==> Backs(cluster, selector, network, a)
  {
    hide PodAddresses, PodsAddresses, SaysReady, Reports;
    if selector in cluster {
      var pods := cluster[selector];
      PodsAddressesMeaning(pods, network, a);
      forall p | 0 <= p < |pods|
        ensures a in PodAddresses(pods[p], network) <==>
                  pods[p].running && SaysReady(pods[p].conditions) && exists t :: Reports(pods[p], t, network, a)
      {
        PodAddressesMeaning(pods[p], network, a);
      }
    }
  }

  // ---------------------------------------------------------------- all references

  lemma {:induction false} NamedMeaning(refs: seq<Option<BackendRef>>, ref: BackendRef)
    ensures ref in Named(refs) <==> ref.name != "" && Some(ref) in refs
  {
    if refs != [] {
      var front, last := refs[..|refs| - 1], refs[|refs| - 1];
      NamedMeaning(front, ref);
      assert refs == front + [last];
      assert Some(ref) in refs <==> Some(ref) in front || last == Some(ref);
    }
  }

  ghost predicate RuleHas(rule: Option<Rule>, ref: BackendRef) {
    rule.Some? && rule.value.backendRefs.Some? && Some(ref) in rule.value.backendRefs.value
  }

  lemma {:induction false} RuleRefsMeaning(rules: seq<Option<Rule>>, ref: BackendRef)
    ensures ref in RuleRefs(rules) <==> ref.name != "" && exists k :: 0 <= k < |rules| && RuleHas(rules[k], ref)
  {
    hide Named;
    if rules != [] {
      var n := |rules| - 1;
      var front := rules[..n];
      RuleRefsMeaning(front, ref);
      if rules[n].Some? && rules[n].value.backendRefs.Some? { NamedMeaning(rules[n].value.backendRefs.value, ref); }
      assert forall k :: 0 <= k < n ==> front[k] == rules[k];
    }
  }

  lemma RouteRefsMeaning(route: Route, gw: Gateway, ref: BackendRef)
    ensures ref in RouteRefs(route, gw) <==>
              NamesGateway(route, gw) && ref.name != "" && exists k, b :: Refers(route, k, b, ref)
  {
    NamesMeaning(route, gw);
    hide RuleRefs, ReferencesGateway, NamesGateway;
    if route.rules.Some? {
      var rules := route.rules.value;
      RuleRefsMeaning(rules, ref);
      if k :| 0 <= k < |rules| && RuleHas(rules[k], ref) {
        var refs := rules[k].value.backendRefs.value;
        var b :| 0 <= b < |refs| && refs[b] == Some(ref);
        assert Refers(route, k, b, ref);
      }
      if k, b :| Refers(route, k, b, ref) {
        assert RuleHas(rules[k], ref);
      }
    }
  }

  lemma NamesMeaning(route: Route, gw: Gateway)
    ensures ReferencesGateway(route, gw) <==> NamesGateway(route, gw)
  {
    if route.parentRefs.Some? {
      assert forall i :: 0 <= i < |route.parentRefs.value| ==>
               (RefersTo(route.parentRefs.value[i], gw) <==> ParentIs(route.parentRefs.value[i], gw));
    }
  }

  lemma {:induction false} AllRefsMeaning(routes: seq<Route>, gw: Gateway, ref: BackendRef)
    ensures ref in AllRefs(routes, gw) <==> exists r :: 0 <= r < |routes| && ref in RouteRefs(routes[r], gw)
  {
    hide RouteRefs;
    if routes != [] {
      var n := |routes| - 1;
      var front := routes[..n];
      AllRefsMeaning(front, gw, ref);
      assert forall r :: 0 <= r < n ==> front[r] == routes[r];
    }
  }

  /** The references that are followed are exactly those. */
  lemma FollowedExactly(routes: seq<Route>, gw: Gateway, ref: BackendRef)
    ensures ref in AllRefs(routes, gw) <==> Referenced(routes, gw, ref)
  {
    hide RouteRefs, NamesGateway, Refers;
    AllRefsMeaning(routes, gw, ref);
    forall r | 0 <= r < |routes|
      ensures ref in RouteRefs(routes[r], gw) <==>
                NamesGateway(routes[r], gw) && ref.name != "" && exists k, b :: Refers(routes[r], k, b, ref)
    {
      RouteRefsMeaning(routes[r], gw, ref);
    }
  }

  lemma {:induction false} AllAddressesMeaning(cluster: Cluster, refs: seq<BackendRef>, network: string, a: string)
    ensures a in AllAddresses(cluster, refs, network) <==>
              exists ref :: ref in refs && a in SelectorAddresses(cluster, ref.name, network)
  {
    hide SelectorAddresses;
    if refs != [] {
      var front, last := refs[..|refs| - 1], refs[|refs| - 1];
      AllAddressesMeaning(cluster, front, network, a);
      assert refs == front + [last];
      assert forall ref :: ref in refs <==> ref in front || ref == last;
    }
  }

  lemma {:induction false} AllPortsMeaning(refs: seq<BackendRef>, p: nat)
    ensures p in AllPorts(refs) <==> exists ref :: ref in refs && GivesPort(ref, p)
  {
    if refs != [] {
      var front, last := refs[..|refs| - 1], refs[|refs| - 1];
      AllPortsMeaning(front, p);
      assert refs == front + [last];
      assert forall ref :: ref in refs <==> ref in front || ref == last;
      assert EffectivePort(last.port) == p <==> GivesPort(last, p);
    }
  }

  // ---------------------------------------------------------------- what is written

  /** An address is among the written endpoints exactly if it is a backend's, and a port exactly if a reference gives
      it. */
  lemma WrittenExactly(cluster: Cluster, routes: seq<Route>, gw: Gateway, network: string, a: string, p: nat)
    ensures a in FirstOccurrences(AllAddresses(cluster, AllRefs(routes, gw), network)) <==>
              IsBackend(cluster, routes, gw, network, a)
    ensures p in FirstOccurrences(AllPorts(AllRefs(routes, gw))) <==>
              exists ref :: Referenced(routes, gw, ref) && GivesPort(ref, p)
    ensures AllRefs(routes, gw) == [] <==> forall ref :: !Referenced(routes, gw, ref)
  {
    hide FirstOccurrences, AllAddresses, AllPorts, AllRefs, SelectorAddresses, Backs, Referenced, GivesPort;
    var refs := AllRefs(routes, gw);
    SameElements(AllAddresses(cluster, refs, network));
    SameElements(AllPorts(refs));
    AllAddressesMeaning(cluster, refs, network, a);
    AllPortsMeaning(refs, p);
    forall ref ensures ref in refs <==> Referenced(routes, gw, ref) { FollowedExactly(routes, gw, ref); }
    forall ref: BackendRef
      ensures a in SelectorAddresses(cluster, ref.name, network) <==> Backs(cluster, ref.name, network, a)
    {
      SelectorAddressesMeaning(cluster, ref.name, network, a);
    }
    if refs != [] { assert refs[0] in refs; }
  }

  /** What is left, for every answer of the API server: nothing is touched without a list of routes; without a
      reference the pair is removed; otherwise the slice has exactly the backends' addresses, each once, and Service
      and slice have exactly the ports that references give. */
  lemma OutcomeMeans(cluster: Cluster, routes: Option<seq<Route>>, gw: Gateway, gwIp: string, network: string,
                     a: string, p: nat)
    ensures var (count, outcome) := OutcomeOf(cluster, routes, gw, gwIp, network);
            match outcome
            case Untouched => routes.None? && count == 0
            case Removed => routes.Some? && count == 0 && forall ref :: !Referenced(routes.value, gw, ref)
            case Written(service, slice) =>
              && routes.Some? && (exists ref :: Referenced(routes.value, gw, ref))
              && (a in slice.endpoints <==> IsBackend(cluster, routes.value, gw, network, a))
              && count == |slice.endpoints|
              && ((exists i :: 0 <= i < |slice.ports| && slice.ports[i].port == p) <==>
                    exists ref :: Referenced(routes.value, gw, ref) && GivesPort(ref, p))
              && service.ports == slice.ports
              && service.name == gw.name && service.namespace == gw.namespace
              && service.headless && service.externalIps == [gwIp]
              && slice.name == gw.name + "-slice" && slice.namespace == gw.namespace
  {
    hide FirstOccurrences, AllAddresses, AllPorts, AllRefs, Referenced, IsBackend, GivesPort, NamedPorts;
    if routes.Some? {
      var refs := AllRefs(routes.value, gw);
      WrittenExactly(cluster, routes.value, gw, network, a, p);
      PortsAre(FirstOccurrences(AllPorts(refs)), p);
      NothingFound(cluster, network);
    }
  }

  lemma PortsAre(ports: seq<nat>, p: nat)
    ensures (exists i :: 0 <= i < |NamedPorts(ports)| && NamedPorts(ports)[i].port == p) <==> p in ports
  {
    hide PortName;
    if p in ports {
      var i :| 0 <= i < |ports| && ports[i] == p;
      assert NamedPorts(ports)[i].port == p;
    }
  }

  lemma NothingFound(cluster: Cluster, network: string)
    ensures FirstOccurrences(AllAddresses(cluster, [], network)) == []
  {
  }

  /** A single port is called "service", each of several "service-" and its number. */
  lemma PortsAreNamed(ports: seq<nat>, i: nat)
    requires i < |ports|
    ensures |NamedPorts(ports)| == |ports| && NamedPorts(ports)[i].port == ports[i]
    ensures NamedPorts(ports)[i].name == (if |ports| == 1 then "service" else "service-" + Decimal(ports[i]))
  {
  }
}
