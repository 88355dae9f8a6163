/**
  Convergence, idempotence, isolation and cleanup of Network reconciles.
*/
module NetworkTheorems {
  import opened Wrappers
  import opened Text
  import opened NetworkReconciler

  // ---------------------------------------------------------------- what children become

  /** A child that is wanted has the wanted spec; a child already right, or not wanted, is untouched. */
  ghost predicate ChildSettled(before: map<Key, Child>, after: map<Key, Child>, key: Key, wanted: Option<Spec>) {
    match wanted
    case None => (key in after <==> key in before) && (key in before ==> after[key] == before[key])
    case Some(spec) =>
      && key in after && after[key].spec == spec
      && (key in before && before[key].spec == spec ==> after[key] == before[key])
  }

  lemma ApplySettles(st: Store, key: Key, spec: Spec, owner: string, refused: set<Key>, other: Key)
    ensures ChildSettled(st.children, Apply(st, key, spec, owner, refused).children, other,
                         if other == key && key !in refused then Some(spec) else None)
  {
  }

  /** One change after another, when the second leaves the key alone or asks for the same. */
  lemma SettledThen(a: map<Key, Child>, b: map<Key, Child>, c: map<Key, Child>, key: Key, first: Option<Spec>,
                    second: Option<Spec>)
    requires ChildSettled(a, b, key, first) && ChildSettled(b, c, key, second)
    requires first.None? || second.None? || first == second
    ensures ChildSettled(a, c, key, if second.Some? then second else first)
  {
  }

  function NadGranted(namespaces: seq<Namespace>, name: string, config: CniConfig, refused: set<Key>, key: Key):
    Option<Spec>
  {
    if key.Nad? && key.name == name && Namespace(key.namespace, false) in namespaces && key !in refused
    then Some(NadSpec(config)) else None
  }

  lemma NadGrantedStep(namespaces: seq<Namespace>, name: string, config: CniConfig, refused: set<Key>, key: Key)
    requires namespaces != []
    ensures var front, last := namespaces[..|namespaces| - 1], namespaces[|namespaces| - 1];
            NadGranted(namespaces, name, config, refused, key)
            == if !last.terminating && key == Nad(last.name, name) && key !in refused then Some(NadSpec(config))
               else NadGranted(front, name, config, refused, key)
  {
    var front, last := namespaces[..|namespaces| - 1], namespaces[|namespaces| - 1];
    assert namespaces == front + [last];
    assert forall x :: x in namespaces <==> x in front || x == last;
  }

  lemma {:induction false} NadsSettle(st: Store, namespaces: seq<Namespace>, name: string, config: CniConfig,
                                      refused: set<Key>, key: Key)
    ensures ChildSettled(st.children, ApplyNads(st, namespaces, name, config, refused).children, key,
                         NadGranted(namespaces, name, config, refused, key))
  {
    hide Apply, NadGranted;
    if namespaces == [] {
      NoNamespaces(st.children, name, config, refused, key);
    } else {
      hide ChildSettled;
      var front, last := namespaces[..|namespaces| - 1], namespaces[|namespaces| - 1];
      var before := ApplyNads(st, front, name, config, refused);
      NadsSettle(st, front, name, config, refused, key);
      NadGrantedStep(namespaces, name, config, refused, key);
      if !last.terminating {
        var nad := Nad(last.name, name);
        ApplySettles(before, nad, NadSpec(config), name, refused, key);
        GrantedNad(front, name, config, refused, key);
        SettledThen(st.children, before.children, Apply(before, nad, NadSpec(config), name, refused).children, key,
                    NadGranted(front, name, config, refused, key),
                    if key == nad && nad !in refused then Some(NadSpec(config)) else None);
      }
    }
  }

  lemma NoNamespaces(children: map<Key, Child>, name: string, config: CniConfig, refused: set<Key>, key: Key)
    ensures ChildSettled(children, children, key, NadGranted([], name, config, refused, key))
  {
  }

  lemma GrantedNad(namespaces: seq<Namespace>, name: string, config: CniConfig, refused: set<Key>, key: Key)
    ensures NadGranted(namespaces, name, config, refused, key).Some? ==>
              NadGranted(namespaces, name, config, refused, key) == Some(NadSpec(config))
  {
  }

  function PoolGranted(name: string, net: Network, refused: set<Key>, key: Key): Option<Spec>
    requires HasPool(net)
  {
    if key in refused || PoolKey(name) in refused then None
    else if key == PoolKey(name) then Some(PoolSpec(net.vips.vips, false))
    else if key == AdvertisementKey(name) then Some(AdvertisementSpec([PoolName(name)], [InterfaceOf(net)]))
    else None
  }

  lemma PoolSettles(st: Store, name: string, net: Network, refused: set<Key>, key: Key)
    requires HasPool(net)
    ensures ChildSettled(st.children, ApplyPool(st, name, net, refused).children, key,
                         PoolGranted(name, net, refused, key))
  {
    UntouchedSettled(st.children, key);
    hide Apply, InterfaceOf, PoolName, AdvertisementName, ChildSettled;
    if PoolKey(name) !in refused {
      var pool, adv := PoolSpec(net.vips.vips, false), AdvertisementSpec([PoolName(name)], [InterfaceOf(net)]);
      var first := Apply(st, PoolKey(name), pool, name, refused);
      ApplySettles(st, PoolKey(name), pool, name, refused, key);
      ApplySettles(first, AdvertisementKey(name), adv, name, refused, key);
      SettledThen(st.children, first.children, Apply(first, AdvertisementKey(name), adv, name, refused).children, key,
                  if key == PoolKey(name) then Some(pool) else None,
                  if key == AdvertisementKey(name) && key !in refused then Some(adv) else None);
    }
  }

  /** The child's apply is reached and does not end in an error. */
  predicate Reached(name: string, key: Key, a: Answers) {
    && key !in a.refused
    && (key.Nad? ==> a.namespacesListed)
    && (!key.Nad? ==> PoolKey(name) !in a.refused)
  }

  /** What is wanted and got through. */
  function Granted(name: string, net: Network, namespaces: seq<Namespace>, a: Answers, key: Key): Option<Spec> {
    if Reached(name, key, a) then Wanted(name, net, namespaces, key) else None
  }

  lemma GrantedSplits(name: string, net: Network, namespaces: seq<Namespace>, a: Answers, key: Key)
    ensures var nad := if NadConfig(net).Some? && a.namespacesListed
                       then NadGranted(namespaces, name, NadConfig(net).value, a.refused, key) else None;
            var pool := if HasPool(net) then PoolGranted(name, net, a.refused, key) else None;
            (nad.None? || pool.None?) && Granted(name, net, namespaces, a, key) == (if pool.Some? then pool else nad)
  {
    hide NadConfig, InterfaceOf, PoolName, AdvertisementName;
  }

  lemma UntouchedSettled(children: map<Key, Child>, key: Key)
    ensures ChildSettled(children, children, key, None)
  {
  }

  /** After a live reconcile every child that got through is as wanted, and nothing else was written. */
  lemma ChildrenSettle(w: World, name: string, net: Network, a: Answers, key: Key)
    ensures ChildSettled(w.children, ChildrenAfter(w, name, net, a).children, key,
                         Granted(name, net, w.namespaces, a, key))
  {
    hide ChildSettled, ApplyNads, ApplyPool, NadConfig, HasPool, NadGranted, PoolGranted, Granted;
    GrantedSplits(name, net, w.namespaces, a, key);
    var st := Store(w.children, w.writes);
    var applied := NadConfig(net).Some? && a.namespacesListed;
    var nads := if applied then ApplyNads(st, w.namespaces, name, NadConfig(net).value, a.refused) else st;
    var nad := if applied then NadGranted(w.namespaces, name, NadConfig(net).value, a.refused, key) else None;
    UntouchedSettled(st.children, key);
    UntouchedSettled(nads.children, key);
    if applied { NadsSettle(st, w.namespaces, name, NadConfig(net).value, a.refused, key); }
    if HasPool(net) { PoolSettles(nads, name, net, a.refused, key); }
    SettledThen(st.children, nads.children, ChildrenAfter(w, name, net, a).children, key, nad,
                if HasPool(net) then PoolGranted(name, net, a.refused, key) else None);
  }

  // ---------------------------------------------------------------- convergence

  /** Every wanted child has its spec, and every Service that asks and may is bound. */
  ghost predicate Converged(w: World, name: string) {
    name in w.networks && !w.networks[name].deleting
    && (forall key :: ChildConverged(w, name, key))
    && (forall i :: 0 <= i < |w.services| ==> ServiceConverged(w, name, w.services[i]))
  }

  ghost predicate ChildConverged(w: World, name: string, key: Key)
    requires name in w.networks
  {
    var wanted := Wanted(name, w.networks[name], w.namespaces, key);
    wanted.Some? ==> key in w.children && w.children[key].spec == wanted.value
  }

  ghost predicate ServiceConverged(w: World, name: string, s: Service)
    requires name in w.networks
  {
    Requests(s, name) && Allowed(w.networks[name], s.namespace) ==> Bound(s, name)
  }

  lemma {:induction false} BindAllAt(services: seq<Service>, name: string, net: Network, refused: set<ServiceKey>)
    ensures |BindAll(services, name, net, refused)| == |services|
    ensures forall i :: 0 <= i < |services| ==>
              BindAll(services, name, net, refused)[i] == BindTaken(services[i], name, net, refused)
  {
    hide BindTaken;
    if services != [] { BindAllAt(services[..|services| - 1], name, net, refused); }
  }

  /** The update of the Service is reached and taken. */
  predicate Reaches(s: Service, a: Answers) {
    a.servicesListed && KeyOf(s) !in a.refusedServices
  }

  lemma ServicesAfterAt(services: seq<Service>, name: string, net: Network, a: Answers)
    ensures |ServicesAfter(services, name, net, a).0| == |services|
    ensures forall i :: 0 <= i < |services| ==>
              ServicesAfter(services, name, net, a).0[i]
              == if Reaches(services[i], a) then BindOne(services[i], name, net) else services[i]
  {
    hide BindOne, BindAll, Rebound;
    BindAllAt(services, name, net, a.refusedServices);
  }

  /** A binding adds the pool annotation only: who asks for which network does not change. */
  lemma BindOneFacts(s: Service, name: string, net: Network, other: string)
    ensures var b := BindOne(s, name, net);
            && b.namespace == s.namespace && b.name == s.name
            && (Requests(b, other) <==> Requests(s, other))
            && (Requests(s, name) && Allowed(net, s.namespace) ==> Bound(b, name))
            && (!Requests(s, name) || !Allowed(net, s.namespace) ==> b == s)
            && (forall a :: a in s.annotations && a != POOL_ANNOTATION ==>
                  a in b.annotations && b.annotations[a] == s.annotations[a])
  {
    hide Allowed;
    AnnotationsDiffer();
  }

  lemma AnnotationsDiffer()
    ensures NETWORK_ANNOTATION != POOL_ANNOTATION
  {
    assert |NETWORK_ANNOTATION| != |POOL_ANNOTATION|;
  }

  lemma SameWants(a: Network, b: Network)
    requires a == b.(finalizer := a.finalizer, status := a.status)
    ensures NadConfig(a) == NadConfig(b) && HasPool(a) == HasPool(b) && InterfaceOf(a) == InterfaceOf(b)
    ensures forall ns :: Allowed(a, ns) == Allowed(b, ns)
  {
    hide Atoi, Trim;
    assert ConfigOf(a, 0) == ConfigOf(b, 0);
  }

  /** The Network is read, and its finalizer is there or is taken: only then is anything done. */
  predicate GoesAhead(w: World, name: string, a: Answers) {
    && a.got && name in w.networks && !w.networks[name].deleting
    && (w.networks[name].finalizer || a.finalizerAdded)
  }

  lemma GoesAheadUnfolds(w: World, name: string, now: string, a: Answers)
    requires GoesAhead(w, name, a)
    ensures var net, after := w.networks[name], ReconcileWith(w, name, now, a);
            && name in after.networks && after.networks[name] == NetworkAfter(w, name, net, now, a)
            && after.networks == w.networks[name := after.networks[name]]
            && after.networks[name] == net.(finalizer := true, status := after.networks[name].status)
            && after.children == ChildrenAfter(w, name, net, a).children
            && after.services == ServicesAfter(w.services, name, net, a).0
            && after.namespaces == w.namespaces && after.corefile == w.corefile && after.provisioned == w.provisioned
  {
    hide ChildrenAfter, ServicesAfter, StatusAfter;
  }

  /** Whatever the API server refuses: afterwards a child is as wanted exactly if it was before or got through. */
  lemma ChildConvergesExactly(w: World, name: string, now: string, a: Answers, key: Key)
    requires GoesAhead(w, name, a)
    ensures name in ReconcileWith(w, name, now, a).networks
    ensures ChildConverged(ReconcileWith(w, name, now, a), name, key) <==>
              ChildConverged(w, name, key) || Reached(name, key, a)
  {
    hide Wanted, Reached, ReconcileWith, ChildrenAfter, ServicesAfter, NetworkAfter;
    GoesAheadUnfolds(w, name, now, a);
    SameWanted(ReconcileWith(w, name, now, a).networks[name], w.networks[name], name, w.namespaces);
    ChildrenSettle(w, name, w.networks[name], a, key);
  }

  /** And a Service is bound as it should be exactly if it was before or its update got through. */
  lemma ServiceConvergesExactly(w: World, name: string, now: string, a: Answers, i: nat)
    requires GoesAhead(w, name, a) && i < |w.services|
    ensures var after := ReconcileWith(w, name, now, a);
            && name in after.networks && |after.services| == |w.services|
            && (ServiceConverged(after, name, after.services[i]) <==>
                  ServiceConverged(w, name, w.services[i]) || Reaches(w.services[i], a))
  {
    hide Wanted, Allowed, Requests, Bound, Reaches, BindOne, ReconcileWith, ChildrenAfter, ServicesAfter, NetworkAfter;
    GoesAheadUnfolds(w, name, now, a);
    SameWanted(ReconcileWith(w, name, now, a).networks[name], w.networks[name], name, w.namespaces);
    ServicesAfterAt(w.services, name, w.networks[name], a);
    BindOneFacts(w.services[i], name, w.networks[name], name);
  }

  /** A network is converged after a reconcile exactly if every child and Service was right before or got through. */
  lemma ConvergesExactly(w: World, name: string, now: string, a: Answers)
    requires GoesAhead(w, name, a)
    ensures Converged(ReconcileWith(w, name, now, a), name) <==>
              && (forall key :: ChildConverged(w, name, key) || Reached(name, key, a))
              && (forall i :: 0 <= i < |w.services| ==>
                    ServiceConverged(w, name, w.services[i]) || Reaches(w.services[i], a))
  {
    hide ChildConverged, ServiceConverged, Reached, Reaches, ReconcileWith, ChildrenAfter, ServicesAfter, NetworkAfter;
    GoesAheadUnfolds(w, name, now, a);
    var after := ReconcileWith(w, name, now, a);
    ServicesAfterAt(w.services, name, w.networks[name], a);
    forall key ensures ChildConverged(after, name, key) <==> ChildConverged(w, name, key) || Reached(name, key, a) {
      ChildConvergesExactly(w, name, now, a, key);
    }
    forall i | 0 <= i < |w.services|
      ensures ServiceConverged(after, name, after.services[i]) <==>
                ServiceConverged(w, name, w.services[i]) || Reaches(w.services[i], a)
    {
      ServiceConvergesExactly(w, name, now, a, i);
    }
  }

  /** A live reconcile without faults converges, from any world. */
  lemma ReconcileConverges(w: World, name: string, now: string)
    requires name in w.networks && !w.networks[name].deleting
    ensures Converged(ReconcileOnce(w, name, now), name)
  {
    hide Converged, ReconcileWith, ChildConverged, ServiceConverged;
    ConvergesExactly(w, name, now, NO_FAULTS);
  }

  /** The reconcile found nothing to report. */
  predicate SaysReady(w: World, name: string, a: Answers)
    requires name in w.networks
  {
    ReadyCondition(w.provisioned, name, w.networks[name], ChildErrors(w, name, w.networks[name], a)).status == "True"
  }

  lemma ReadyHasNoErrors(w: World, name: string, a: Answers)
    requires name in w.networks
    ensures SaysReady(w, name, a) <==>
              Provisioned(w.provisioned, name, w.networks[name]) && ChildErrors(w, name, w.networks[name], a) == []
  {
    hide Provisioned, ChildErrors, JoinErrors, NO_HOST_INTERFACE, CHILDREN_FAILED, NETWORK_READY;
    assert "True"[0] != "False"[0];
  }

  lemma NoErrorsMeans(w: World, name: string, net: Network, a: Answers)
    requires ChildErrors(w, name, net, a) == []
    ensures InterfaceOf(net) != "" ==> NadConfig(net).Some? && !NadsFail(name, w.namespaces, a)
    ensures HasPool(net) ==> !PoolFails(name, a.refused)
    ensures !ServicesFail(w.services, name, net, a)
  {
    hide InterfaceOf, Mtu, ConfigOf, NadsFail, PoolFails, ServicesFail, ATTACHMENTS, POOLS, SERVICES, BAD_MTU, BAD_VIPS;
  }

  /** When the Ready condition is true, every wanted child and binding is in place, whatever was refused: refusals
      that mattered have been reported. */
  lemma ReadyMeansConverged(w: World, name: string, now: string, a: Answers)
    requires GoesAhead(w, name, a) && SaysReady(w, name, a)
    ensures Converged(ReconcileWith(w, name, now, a), name)
  {
    hide Converged, ReconcileWith, ChildErrors, ChildConverged, ServiceConverged, Reached, Reaches, Provisioned;
    var net := w.networks[name];
    ReadyHasNoErrors(w, name, a);
    NoErrorsMeans(w, name, net, a);
    forall key ensures ChildConverged(w, name, key) || Reached(name, key, a) {
      WantedGotThrough(w, name, a, key);
    }
    forall i | 0 <= i < |w.services| ensures ServiceConverged(w, name, w.services[i]) || Reaches(w.services[i], a) {
      ServiceGotThrough(w, name, a, i);
    }
    ConvergesExactly(w, name, now, a);
  }

  lemma WantedGotThrough(w: World, name: string, a: Answers, key: Key)
    requires name in w.networks
    requires var net := w.networks[name];
             && (InterfaceOf(net) != "" ==> NadConfig(net).Some? && !NadsFail(name, w.namespaces, a))
             && (HasPool(net) ==> !PoolFails(name, a.refused))
    ensures ChildConverged(w, name, key) || Reached(name, key, a)
  {
    hide InterfaceOf, Mtu, ConfigOf, PoolName, AdvertisementName;
    var net := w.networks[name];
    NadNeedsInterface(net);
    if Wanted(name, net, w.namespaces, key).Some? && key.Nad? {
      var i :| 0 <= i < |w.namespaces| && w.namespaces[i] == Namespace(key.namespace, false);
      assert Nad(w.namespaces[i].name, name) == key;
    }
  }

  lemma ServiceGotThrough(w: World, name: string, a: Answers, i: nat)
    requires name in w.networks && i < |w.services|
    requires !ServicesFail(w.services, name, w.networks[name], a)
    ensures ServiceConverged(w, name, w.services[i]) || Reaches(w.services[i], a)
  {
    hide Requests, Allowed, Bound, BindOne;
    BindChanges(w.services[i], name, w.networks[name]);
  }

  lemma SameWanted(a: Network, b: Network, name: string, namespaces: seq<Namespace>)
    requires a == b.(finalizer := a.finalizer, status := a.status)
    ensures forall key :: Wanted(name, a, namespaces, key) == Wanted(name, b, namespaces, key)
    ensures forall ns :: Allowed(a, ns) == Allowed(b, ns)
  {
    hide NadConfig, HasPool, InterfaceOf, Allowed;
    SameWants(a, b);
  }

  /** Every child the reconciler may have made is one it still wants. */
  ghost predicate NoStaleChild(w: World, name: string)
    requires name in w.networks
  {
    forall key :: key in w.children && ChildOf(name, key) ==> Wanted(name, w.networks[name], w.namespaces, key).Some?
  }

  /** A live reconcile removes nothing: a pool whose VIP annotation went away, say, is left as it was. */
  lemma StaleChildrenStay(w: World, name: string, now: string, a: Answers)
    requires GoesAhead(w, name, a)
    ensures name in ReconcileWith(w, name, now, a).networks
    ensures NoStaleChild(ReconcileWith(w, name, now, a), name) <==> NoStaleChild(w, name)
  {
    hide Wanted, Reached, ReconcileWith, ChildrenAfter, ServicesAfter, NetworkAfter, ChildOf;
    var net, after := w.networks[name], ReconcileWith(w, name, now, a);
    GoesAheadUnfolds(w, name, now, a);
    SameWanted(after.networks[name], net, name, w.namespaces);
    forall key ensures key in after.children <==> key in w.children || Granted(name, net, w.namespaces, a, key).Some? {
      ChildrenSettle(w, name, net, a, key);
    }
  }

  /** Every Service bound to the network's pool still asks for the network and may have it. */
  ghost predicate NoStaleBinding(w: World, name: string)
    requires name in w.networks
  {
    forall i :: 0 <= i < |w.services| ==> !StaleBinding(w.services[i], name, w.networks[name])
  }

  predicate StaleBinding(s: Service, name: string, net: Network) {
    Bound(s, name) && !(Requests(s, name) && Allowed(net, s.namespace))
  }

  /** Binding makes no Service stale, and leaves a stale one as it is. */
  lemma StaleBindingKept(s: Service, name: string, net: Network)
    ensures StaleBinding(BindOne(s, name, net), name, net) <==> StaleBinding(s, name, net)
  {
    hide Allowed;
    BindOneFacts(s, name, net, name);
  }

  /** Nor does it unbind: a Service whose namespace left the allowlist, or that no longer asks, stays bound. */
  lemma StaleBindingsStay(w: World, name: string, now: string, a: Answers)
    requires GoesAhead(w, name, a)
    ensures name in ReconcileWith(w, name, now, a).networks
    ensures NoStaleBinding(ReconcileWith(w, name, now, a), name) <==> NoStaleBinding(w, name)
  {
    hide BindOne, ReconcileWith, ChildrenAfter, ServicesAfter, NetworkAfter, StaleBinding, Wanted, Reaches;
    var net, after := w.networks[name], ReconcileWith(w, name, now, a);
    GoesAheadUnfolds(w, name, now, a);
    SameWanted(after.networks[name], net, name, w.namespaces);
    ServicesAfterAt(w.services, name, net, a);
    forall i | 0 <= i < |w.services|
      ensures StaleBinding(after.services[i], name, after.networks[name]) <==> StaleBinding(w.services[i], name, net)
    {
      StaleBindingKept(w.services[i], name, net);
      SameStaleness(after.services[i], name, after.networks[name], net);
    }
  }

  lemma SameStaleness(s: Service, name: string, a: Network, b: Network)
    requires forall ns :: Allowed(a, ns) == Allowed(b, ns)
    ensures StaleBinding(s, name, a) <==> StaleBinding(s, name, b)
  {
    hide Allowed;
  }

  // ---------------------------------------------------------------- idempotence

  lemma {:induction false} NadsQuiet(st: Store, namespaces: seq<Namespace>, name: string, config: CniConfig,
                                     refused: set<Key>)
    requires forall key :: NadGranted(namespaces, name, config, {}, key).Some? ==>
                             key in st.children && st.children[key].spec == NadSpec(config)
    ensures ApplyNads(st, namespaces, name, config, refused) == st
  {
    if namespaces != [] {
      hide NadGranted;
      var front, last := namespaces[..|namespaces| - 1], namespaces[|namespaces| - 1];
      forall key | NadGranted(front, name, config, {}, key).Some?
        ensures key in st.children && st.children[key].spec == NadSpec(config)
      {
        NadGrantedStep(namespaces, name, config, {}, key);
      }
      NadsQuiet(st, front, name, config, refused);
      NadGrantedStep(namespaces, name, config, {}, Nad(last.name, name));
    }
  }

  lemma {:induction false} BindQuiet(services: seq<Service>, name: string, net: Network, refused: set<ServiceKey>)
    requires forall i :: 0 <= i < |services| && Requests(services[i], name) && Allowed(net, services[i].namespace) ==>
               Bound(services[i], name)
    ensures BindAll(services, name, net, refused) == services && Rebound(services, name, net, refused) == 0
  {
    hide Requests, Allowed, Bound, BindOne;
    if services != [] {
      var front, last := services[..|services| - 1], services[|services| - 1];
      assert services == front + [last];
      BindQuiet(front, name, net, refused);
      BindChanges(last, name, net);
    }
  }

  /** On a converged network a reconcile writes no child and no Service, whatever it is answered. */
  lemma ConvergedIsQuiet(w: World, name: string, now: string, a: Answers)
    requires Converged(w, name)
    ensures var after := ReconcileWith(w, name, now, a);
            && after.children == w.children && after.services == w.services && after.writes == w.writes
            && after.namespaces == w.namespaces && after.corefile == w.corefile && after.provisioned == w.provisioned
  {
    hide Wanted, BindAll, Rebound, StatusAfter, Allowed, Requests, Bound, NadConfig, HasPool, ApplyNads, ApplyPool;
    var net := w.networks[name];
    BindQuiet(w.services, name, net, a.refusedServices);
    ChildrenQuiet(w, name, a);
  }

  lemma ChildrenQuiet(w: World, name: string, a: Answers)
    requires Converged(w, name)
    ensures ChildrenAfter(w, name, w.networks[name], a) == Store(w.children, w.writes)
  {
    hide Wanted, Allowed, Requests, Bound, NadConfig, InterfaceOf, PoolName, AdvertisementName, NadGranted,
         ServiceConverged, ApplyNads;
    var net, st := w.networks[name], Store(w.children, w.writes);
    forall key ensures ChildConverged(w, name, key) && Wanted(name, net, w.namespaces, key)
                    == (if HasPool(net) && PoolGranted(name, net, {}, key).Some? then PoolGranted(name, net, {}, key)
                        else if NadConfig(net).Some?
                        then NadGranted(w.namespaces, name, NadConfig(net).value, {}, key) else None) {
      GrantedSplits(name, net, w.namespaces, NO_FAULTS, key);
    }
    if NadConfig(net).Some? {
      var config := NadConfig(net).value;
      forall key | NadGranted(w.namespaces, name, config, {}, key).Some?
        ensures key in st.children && st.children[key].spec == NadSpec(config)
      {
        GrantedSplits(name, net, w.namespaces, NO_FAULTS, key);
        GrantedNad(w.namespaces, name, config, {}, key);
        assert ChildConverged(w, name, key);
      }
      NadsQuiet(st, w.namespaces, name, config, a.refused);
    }
    if HasPool(net) {
      assert ChildConverged(w, name, PoolKey(name)) && ChildConverged(w, name, AdvertisementKey(name));
    }
  }

  /** Reconciling again without faults changes nothing at all, whatever the clock says. */
  lemma ReconcileIsIdempotent(w: World, name: string, t1: string, t2: string)
    requires name in w.networks && !w.networks[name].deleting && t1 != ""
    ensures var once := ReconcileOnce(w, name, t1);
            ReconcileOnce(once, name, t2) == once
  {
    hide Converged, BindAll, Rebound, ChildrenAfter, StatusAfter;
    var once := ReconcileOnce(w, name, t1);
    ReconcileConverges(w, name, t1);
    ConvergedIsQuiet(once, name, t2, NO_FAULTS);
    StatusRepeats(w, once, name, t1, t2);
  }

  lemma StatusRepeats(w: World, once: World, name: string, t1: string, t2: string)
    requires name in w.networks && name in once.networks && t1 != ""
    requires once.corefile == w.corefile && once.provisioned == w.provisioned
    requires var net := w.networks[name];
             once.networks[name] == net.(finalizer := true, status := Some(StatusAfter(w, name, net, t1, NO_FAULTS)))
    ensures StatusAfter(once, name, once.networks[name], t2, NO_FAULTS)
         == StatusAfter(w, name, w.networks[name], t1, NO_FAULTS)
  {
    hide StatusUpdates.NextStatus, StatusUpdates.Consistent, Conditions, ChildErrors;
    var net := w.networks[name];
    var errors := ChildErrors(w, name, net, NO_FAULTS);
    FaultlessErrors(w, once, name, once.networks[name], net);
    SameStatusConditions(w, once, name, once.networks[name], net, errors);
    StatusUpdates.RepeatIsSilent(net.status, None, Conditions(w, name, net, errors), t1, t2);
  }

  /** Without faults, what is reported depends on the Network alone. */
  lemma FaultlessErrors(w: World, once: World, name: string, a: Network, b: Network)
    requires a == b.(finalizer := a.finalizer, status := a.status)
    ensures ChildErrors(once, name, a, NO_FAULTS) == ChildErrors(w, name, b, NO_FAULTS)
  {
    hide Atoi, Trim, BindOne, ATTACHMENTS, POOLS, SERVICES, BAD_MTU, BAD_VIPS;
    assert InterfaceOf(a) == InterfaceOf(b) && Mtu(a) == Mtu(b);
  }

  lemma SameStatusConditions(w: World, once: World, name: string, a: Network, b: Network, errors: seq<string>)
    requires once.corefile == w.corefile && once.provisioned == w.provisioned
    requires a == b.(finalizer := a.finalizer, status := a.status)
    ensures Conditions(once, name, a, errors) == Conditions(w, name, b, errors)
    ensures StatusUpdates.Consistent(Conditions(w, name, b, errors))
  {
    hide ReadyCondition, DnsCondition;
    SameReady(w.provisioned, name, a, b, errors);
    ConditionKinds(w.corefile, w.provisioned, name, b, errors);
  }

  lemma SameReady(provisioned: Option<map<string, string>>, name: string, a: Network, b: Network, errors: seq<string>)
    requires a == b.(finalizer := a.finalizer, status := a.status)
    ensures ReadyCondition(provisioned, name, a, errors) == ReadyCondition(provisioned, name, b, errors)
  {
    hide JoinErrors, NO_HOST_INTERFACE, CHILDREN_FAILED, NETWORK_READY;
    assert InterfaceOf(a) == InterfaceOf(b);
    assert Provisioned(provisioned, name, a) == Provisioned(provisioned, name, b);
  }

  lemma ConditionKinds(corefile: Option<string>, provisioned: Option<map<string, string>>, name: string, net: Network,
                       errors: seq<string>)
    ensures ReadyCondition(provisioned, name, net, errors).kind == "Ready"
    ensures DnsCondition(corefile).kind == "CoreDNSReady"
    ensures ReadyCondition(provisioned, name, net, errors).kind != DnsCondition(corefile).kind
  {
    hide JoinErrors, Provisioned, CoreDns.RuleActive, NO_HOST_INTERFACE, CHILDREN_FAILED, NETWORK_READY, DNS_READY,
         DNS_RULE_MISSING;
    assert |"Ready"| != |"CoreDNSReady"|;
  }

  // ---------------------------------------------------------------- several networks

  lemma KeysOfDifferentNetworks(a: string, b: string, net: Network, namespaces: seq<Namespace>, key: Key)
    requires a != b && Wanted(b, net, namespaces, key).Some?
    ensures !ChildOf(a, key)
  {
    hide NadConfig, HasPool;
    assert PoolName(a)[..|a|] == a && PoolName(b)[..|b|] == b;
    assert AdvertisementName(a)[|"l2advertise-"|..] == a && AdvertisementName(b)[|"l2advertise-"|..] == b;
    assert |PoolName(a)| == |a| + 5 && |PoolName(b)| == |b| + 5;
  }

  lemma WantedIsChild(name: string, net: Network, namespaces: seq<Namespace>, key: Key)
    requires Wanted(name, net, namespaces, key).Some?
    ensures ChildOf(name, key)
  {
    hide NadConfig, HasPool, PoolName, AdvertisementName;
  }

  /** Reconciling one live network, whatever is refused, leaves another converged one converged. */
  lemma NetworksDoNotInterfere(w: World, a: string, b: string, now: string, answers: Answers)
    requires a != b && Converged(w, b) && a in w.networks && !w.networks[a].deleting
    ensures Converged(ReconcileWith(w, a, now, answers), b)
  {
    hide Wanted, Reached, Reaches, BindOne, ReconcileWith, ChildrenAfter, ServicesAfter, NetworkAfter;
    hide Allowed, Requests, Bound, ChildOf;
    var net, after := w.networks[a], ReconcileWith(w, a, now, answers);
    if GoesAhead(w, a, answers) {
      GoesAheadUnfolds(w, a, now, answers);
      forall key ensures ChildConverged(after, b, key) {
        assert ChildConverged(w, b, key);
        if Wanted(b, w.networks[b], w.namespaces, key).Some? {
          KeysOfDifferentNetworks(a, b, w.networks[b], w.namespaces, key);
          if Wanted(a, net, w.namespaces, key).Some? { WantedIsChild(a, net, w.namespaces, key); }
          ChildrenSettle(w, a, net, answers, key);
        }
      }
      ServicesAfterAt(w.services, a, net, answers);
      forall i | 0 <= i < |after.services| ensures ServiceConverged(after, b, after.services[i]) {
        assert ServiceConverged(w, b, w.services[i]);
        BindOneFacts(w.services[i], a, net, b);
        OneNetworkEach(w.services[i], a, b);
      }
    } else {
      StandsStill(w, a, now, answers);
    }
  }

  lemma StandsStill(w: World, name: string, now: string, a: Answers)
    requires name in w.networks && !w.networks[name].deleting && !GoesAhead(w, name, a)
    ensures ReconcileWith(w, name, now, a) == w
  {
  }

  lemma OneNetworkEach(s: Service, a: string, b: string)
    requires a != b
    ensures !(Requests(s, a) && Requests(s, b))
  {
  }

  /** Reconciles of several networks, one after the other. */
  function Pass(w: World, names: seq<string>, now: string): World {
    if names == [] then w else ReconcileOnce(Pass(w, names[..|names| - 1], now), names[|names| - 1], now)
  }

  ghost predicate AllLive(w: World, names: seq<string>) {
    forall k :: 0 <= k < |names| ==> names[k] in w.networks && !w.networks[names[k]].deleting
  }

  lemma LivenessKept(w: World, a: string, b: string, now: string)
    requires b in w.networks && !w.networks[b].deleting && a in w.networks && !w.networks[a].deleting
    ensures var after := ReconcileOnce(w, a, now); b in after.networks && !after.networks[b].deleting
  {
    hide BindAll, Rebound, ChildrenAfter, StatusAfter;
  }

  lemma {:induction false} PassKeepsLive(w: World, names: seq<string>, now: string, b: string)
    requires AllLive(w, names) && b in w.networks && !w.networks[b].deleting
    ensures b in Pass(w, names, now).networks && !Pass(w, names, now).networks[b].deleting
  {
    hide ReconcileOnce;
    if names != [] {
      var front, last := names[..|names| - 1], names[|names| - 1];
      PassKeepsLive(w, front, now, b);
      PassKeepsLive(w, front, now, last);
      LivenessKept(Pass(w, front, now), last, b, now);
    }
  }

  lemma ReconcileKeepsConverged(w: World, a: string, b: string, now: string)
    requires Converged(w, b) && a in w.networks && !w.networks[a].deleting
    ensures Converged(ReconcileOnce(w, a, now), b)
  {
    hide Converged, ReconcileWith;
    if a == b { ReconcileConverges(w, a, now); } else { NetworksDoNotInterfere(w, a, b, now, NO_FAULTS); }
  }

  /** After one pass over any list of live networks, all of them are converged at once. */
  lemma {:induction false} PassConvergesAll(w: World, names: seq<string>, now: string, b: string)
    requires AllLive(w, names) && b in names
    ensures Converged(Pass(w, names, now), b)
  {
    hide Converged, ReconcileOnce;
    var front, last := names[..|names| - 1], names[|names| - 1];
    var before := Pass(w, front, now);
    PassKeepsLive(w, front, now, last);
    if b in front {
      PassConvergesAll(w, front, now, b);
      ReconcileKeepsConverged(before, last, b, now);
    } else {
      ReconcileConverges(before, b, now);
    }
  }

  /** A pass over converged networks writes no child and no Service, and leaves them converged. */
  lemma {:induction false} ConvergedPassIsQuiet(w: World, names: seq<string>, now: string)
    requires forall k :: 0 <= k < |names| ==> Converged(w, names[k])
    ensures var after := Pass(w, names, now);
            after.children == w.children && after.services == w.services && after.writes == w.writes
    ensures forall b :: Converged(w, b) ==> Converged(Pass(w, names, now), b)
  {
    hide Converged, ReconcileWith;
    if names != [] {
      var front, last := names[..|names| - 1], names[|names| - 1];
      ConvergedPassIsQuiet(w, front, now);
      var before := Pass(w, front, now);
      ConvergedIsQuiet(before, last, now, NO_FAULTS);
      ConvergedIsLive(before, last);
      forall b | Converged(w, b) ensures Converged(Pass(w, names, now), b) {
        ReconcileKeepsConverged(before, last, b, now);
      }
    }
  }

  lemma ConvergedIsLive(w: World, name: string)
    requires Converged(w, name)
    ensures name in w.networks && !w.networks[name].deleting
  {
  }

  /** So a second pass over the same networks writes nothing but, possibly, statuses. */
  lemma SecondPassIsQuiet(w: World, names: seq<string>, t1: string, t2: string)
    requires AllLive(w, names)
    ensures var once := Pass(w, names, t1);
            var twice := Pass(once, names, t2);
            twice.children == once.children && twice.services == once.services && twice.writes == once.writes
  {
    hide Converged, Pass;
    forall k | 0 <= k < |names| ensures Converged(Pass(w, names, t1), names[k]) {
      PassConvergesAll(w, names, t1, names[k]);
    }
    ConvergedPassIsQuiet(Pass(w, names, t1), names, t2);
  }

  // ---------------------------------------------------------------- deletion

  predicate NamespaceListed(namespaces: seq<Namespace>, name: string) {
    exists i :: 0 <= i < |namespaces| && namespaces[i].name == name
  }

  lemma NamespaceListedStep(namespaces: seq<Namespace>, name: string)
    requires namespaces != []
    ensures NamespaceListed(namespaces, name)
       <==> NamespaceListed(namespaces[..|namespaces| - 1], name) || namespaces[|namespaces| - 1].name == name
  {
    var front := namespaces[..|namespaces| - 1];
    assert forall i :: 0 <= i < |front| ==> namespaces[i] == front[i];
  }

  lemma {:induction false} DeleteNadsMeaning(children: map<Key, Child>, namespaces: seq<Namespace>, name: string,
                                             refused: set<Key>, key: Key)
    ensures var after := DeleteNads(children, namespaces, name, refused);
            && (key in after <==> key in children
                                  && (key in refused
                                      || !(key.Nad? && key.name == name && NamespaceListed(namespaces, key.namespace))))
            && (key in after ==> after[key] == children[key])
  {
    if namespaces != [] {
      hide NamespaceListed;
      DeleteNadsMeaning(children, namespaces[..|namespaces| - 1], name, refused, key);
      if key.Nad? { NamespaceListedStep(namespaces, key.namespace); }
    } else {
      assert !NamespaceListed([], if key.Nad? then key.namespace else "");
    }
  }

  /** Namespaced objects live in namespaces that exist. */
  ghost predicate NoStrayNads(w: World) {
    forall key :: key in w.children && key.Nad? ==> NamespaceListed(w.namespaces, key.namespace)
  }

  /** The deletion of this child was asked for and accepted. */
  predicate Deleted(a: CleanupAnswers, name: string, key: Key) {
    ChildOf(name, key) && key !in a.refused && (key.Nad? ==> a.listed)
  }

  /** The finalizer goes if only that update is taken; what goes with it is exactly what the API server let go. */
  lemma DeletionDeletesExactly(w: World, name: string, a: CleanupAnswers)
    requires name in w.networks && w.networks[name].finalizer && NoStrayNads(w)
    ensures var after := ReconcileDeleted(w, name, a);
            && after.networks
               == (if a.updated then w.networks[name := w.networks[name].(finalizer := false)] else w.networks)
            && after.services == w.services && after.namespaces == w.namespaces
            && (forall key :: key in after.children <==> key in w.children && !Deleted(a, name, key))
            && (forall key :: key in after.children ==> key in w.children && after.children[key] == w.children[key])
  {
    hide DeleteNads, PoolName, AdvertisementName, NamespaceListed;
    var after := ReconcileDeleted(w, name, a);
    forall key ensures key in after.children <==> key in w.children && !Deleted(a, name, key)
               ensures key in after.children ==> after.children[key] == w.children[key] {
      DeleteNadsMeaning(w.children, w.namespaces, name, a.refused, key);
    }
  }

  ghost predicate NoChildLeft(w: World, name: string) {
    forall key :: ChildOf(name, key) ==> key !in w.children
  }

  /** Whether the finalizer is dropped or not, no child is left exactly when the delete of every child was asked for
      and accepted. */
  lemma NoChildLeftExactly(w: World, name: string, a: CleanupAnswers)
    requires name in w.networks && w.networks[name].finalizer && NoStrayNads(w)
    ensures var after := ReconcileDeleted(w, name, a);
            && (!after.networks[name].finalizer <==> a.updated)
            && (NoChildLeft(after, name)
                <==> forall key :: key in w.children && ChildOf(name, key) ==> Deleted(a, name, key))
  {
    hide ReconcileDeleted, ChildOf, NoStrayNads;
    DeletionDeletesExactly(w, name, a);
  }

  /** Without faults no child is left in any namespace when the finalizer is dropped, and nobody else's was touched. */
  lemma DeletionLeavesNoChild(w: World, name: string, now: string)
    requires name in w.networks && w.networks[name].deleting && w.networks[name].finalizer && NoStrayNads(w)
    ensures var after := ReconcileOnce(w, name, now);
            && !after.networks[name].finalizer
            && NoChildLeft(after, name)
            && (forall key :: !ChildOf(name, key) && key in w.children ==>
                  key in after.children && after.children[key] == w.children[key])
            && (forall key :: key in after.children ==> key in w.children)
            && after.services == w.services
  {
    hide ReconcileDeleted, ChildOf, NoStrayNads;
    DeletionDeletesExactly(w, name, NO_CLEANUP_FAULTS);
    assert forall key :: Deleted(NO_CLEANUP_FAULTS, name, key) <==> ChildOf(name, key);
  }

  /** Deleting one network leaves another converged one converged. */
  lemma DeletionDoesNotInterfere(w: World, a: string, b: string, now: string)
    requires a != b && Converged(w, b) && NoStrayNads(w)
    requires a in w.networks && w.networks[a].deleting && w.networks[a].finalizer
    ensures Converged(ReconcileOnce(w, a, now), b)
  {
    hide Wanted, Allowed, Requests, Bound, ChildOf, DeleteAll;
    var after := ReconcileOnce(w, a, now);
    DeletionLeavesNoChild(w, a, now);
    forall key ensures ChildConverged(after, b, key) {
      assert ChildConverged(w, b, key);
      if Wanted(b, w.networks[b], w.namespaces, key).Some? {
        KeysOfDifferentNetworks(a, b, w.networks[b], w.namespaces, key);
      }
    }
    forall i | 0 <= i < |after.services| ensures ServiceConverged(after, b, after.services[i]) {
      assert ServiceConverged(w, b, w.services[i]);
    }
  }
}
