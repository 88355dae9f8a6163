/**
  NetworkReconciler.Reconcile against an object store without faults: child
  objects, service bindings, status and deletion.
*/
module NetworkReconciler {
  import opened Wrappers
  import opened Text
  import opened Ipv4
  import Ipam
  import StatusUpdates
  import CoreDns

  const KUBE_SYSTEM: string := "kube-system"
  const DEFAULT_MTU: string := "1410"
  const MAX_INT: int := 0x7FFF_FFFF_FFFF_FFFF
  const NETWORK_ANNOTATION: string := "networking.gke.io/network"
  const POOL_ANNOTATION: string := "metallb.universe.tf/address-pool"

  datatype Key = Nad(namespace: string, name: string) | Pool(namespace: string, name: string)
               | Advertisement(namespace: string, name: string)

  /** The CNI configuration, before it is printed as JSON. */
  datatype CniConfig = CniConfig(master: string, mtu: int, subnet: string, gateway: string)

  datatype Spec = NadSpec(config: CniConfig) | PoolSpec(addresses: seq<string>, autoAssign: bool)
                | AdvertisementSpec(pools: seq<string>, interfaces: seq<string>)

  datatype Child = Child(spec: Spec, owner: string, version: nat)

  datatype Namespace = Namespace(name: string, terminating: bool)

  datatype Service = Service(namespace: string, name: string, annotations: map<string, string>)

  /** The VIP annotation: absent or empty, not a JSON list, or a list. */
  datatype Vips = NoVips | BadVips | VipList(vips: seq<string>)

  datatype Network = Network(deleting: bool, finalizer: bool, vlanId: string, vlanMtu: string, interfaceName: string,
                             gateway4: string, prefixLength4: Option<int>, vips: Vips, allowed: Option<string>,
                             status: Option<StatusUpdates.StatusBlock>)

  /** `writes` counts writes of children and services, `ownWrites` those of Network objects. */
  datatype World = World(networks: map<string, Network>, children: map<Key, Child>, services: seq<Service>,
                         namespaces: seq<Namespace>, corefile: Option<string>, provisioned: Option<map<string, string>>,
                         writes: nat, ownWrites: nat)

  // ---------------------------------------------------------------- what is desired

  /** strconv.Atoi: an optional sign, digits, and the range of a 64-bit int. */
  function Atoi(s: string): Option<int> {
    var digits := if s != "" && (s[0] == '+' || s[0] == '-') then s[1..] else s;
    if digits == "" || !AllDigits(digits) then None
    else
      var n: int := if s[0] == '-' then 0 - Value(digits) as int else Value(digits) as int;
      if -MAX_INT - 1 <= n <= MAX_INT then Some(n) else None
  }

  function Mtu(net: Network): Option<int> {
    var n := Atoi(Trim(if net.vlanMtu == "" then DEFAULT_MTU else net.vlanMtu, GoSpace));
    if n.Some? && n.value > 0 then n else None
  }

  function InterfaceOf(net: Network): string {
    if net.interfaceName == "" && net.vlanId != "" then "gdcenet0." + net.vlanId else net.interfaceName
  }

  function PrefixOf(net: Network): (p: nat)
    ensures 1 <= p <= 32
  {
    Ipam.PrefixLength(Ipam.NetworkSpec(net.gateway4, net.prefixLength4, None))
  }

  function ConfigOf(net: Network, mtu: int): CniConfig {
    var ip := if net.gateway4 == "" then None else ParseIp(net.gateway4);
    if ip.Some? then
      CniConfig(InterfaceOf(net), mtu, CidrText(NetworkOf(ip.value, PrefixOf(net)), PrefixOf(net)), net.gateway4)
    else
      CniConfig(InterfaceOf(net), mtu, "usePodCidr", "")
  }

  function PoolName(name: string): string { name + "-pool" }

  function AdvertisementName(name: string): string { "l2advertise-" + name }

  function PoolKey(name: string): Key { Pool(KUBE_SYSTEM, PoolName(name)) }

  function AdvertisementKey(name: string): Key { Advertisement(KUBE_SYSTEM, AdvertisementName(name)) }

  /** The CNI configuration every namespace gets, unless there is no interface or a bad MTU. */
  function NadConfig(net: Network): Option<CniConfig> {
    if InterfaceOf(net) == "" || Mtu(net).None? then None else Some(ConfigOf(net, Mtu(net).value))
  }

  predicate HasPool(net: Network) { net.vips.VipList? && net.vips.vips != [] }

  /** The spec a child is wanted to have, if it is wanted. */
  function Wanted(name: string, net: Network, namespaces: seq<Namespace>, key: Key): Option<Spec> {
    match key
    case Nad(ns, n) =>
      if n == name && Namespace(ns, false) in namespaces && NadConfig(net).Some?
      then Some(NadSpec(NadConfig(net).value)) else None
    case Pool(_, _) =>
      if key == PoolKey(name) && HasPool(net) then Some(PoolSpec(net.vips.vips, false)) else None
    case Advertisement(_, _) =>
      if key == AdvertisementKey(name) && HasPool(net)
      then Some(AdvertisementSpec([PoolName(name)], [InterfaceOf(net)])) else None
  }

  /** Everything the reconciler may have made for the Network. */
  predicate ChildOf(name: string, key: Key) {
    (key.Nad? && key.name == name) || key == PoolKey(name) || key == AdvertisementKey(name)
  }

  /** The namespace allowlist: absent, blank or "*" admits every namespace. */
  predicate Allowed(net: Network, namespace: string) {
    || net.allowed.None?
    || Trim(net.allowed.value, GoSpace) == ""
    || Trim(net.allowed.value, GoSpace) == "*"
    || exists i :: 0 <= i < |Split(net.allowed.value, ',')|
                   && Trim(Split(net.allowed.value, ',')[i], GoSpace) == namespace
  }

  predicate Requests(s: Service, name: string) {
    NETWORK_ANNOTATION in s.annotations && s.annotations[NETWORK_ANNOTATION] == name
  }

  predicate Bound(s: Service, name: string) {
    POOL_ANNOTATION in s.annotations && s.annotations[POOL_ANNOTATION] == PoolName(name)
  }

  // ---------------------------------------------------------------- the steps as functions

  /** Children and the number of writes so far. */
  datatype Store = Store(children: map<Key, Child>, writes: nat)

  /** applyOrUpdate: create, leave alone when the spec matches, or replace; for a refused key it ends in an error
      with nothing written. */
  function Apply(st: Store, key: Key, spec: Spec, owner: string, refused: set<Key>): Store {
    if key in refused || (key in st.children && st.children[key].spec == spec) then st
    else
      var version := if key in st.children then st.children[key].version + 1 else 1;
      Store(st.children[key := Child(spec, owner, version)], st.writes + 1)
  }

  function ApplyNads(st: Store, namespaces: seq<Namespace>, name: string, config: CniConfig, refused: set<Key>): Store {
    if namespaces == [] then st
    else
      var last := namespaces[|namespaces| - 1];
      var before := ApplyNads(st, namespaces[..|namespaces| - 1], name, config, refused);
      if last.terminating then before else Apply(before, Nad(last.name, name), NadSpec(config), name, refused)
  }

  /** The advertisement is not reached when the pool is refused. */
  function ApplyPool(st: Store, name: string, net: Network, refused: set<Key>): Store
    requires HasPool(net)
  {
    if PoolKey(name) in refused then st
    else
      Apply(Apply(st, PoolKey(name), PoolSpec(net.vips.vips, false), name, refused),
            AdvertisementKey(name), AdvertisementSpec([PoolName(name)], [InterfaceOf(net)]), name, refused)
  }

  function BindOne(s: Service, name: string, net: Network): Service {
    if Requests(s, name) && Allowed(net, s.namespace) && !Bound(s, name)
    then s.(annotations := s.annotations[POOL_ANNOTATION := PoolName(name)]) else s
  }

  datatype ServiceKey = ServiceKey(namespace: string, name: string)

  function KeyOf(s: Service): ServiceKey { ServiceKey(s.namespace, s.name) }

  /** The Service after its update was taken, or refused. */
  function BindTaken(s: Service, name: string, net: Network, refused: set<ServiceKey>): Service {
    if KeyOf(s) in refused then s else BindOne(s, name, net)
  }

  function BindAll(services: seq<Service>, name: string, net: Network, refused: set<ServiceKey>): seq<Service> {
    if services == [] then []
    else BindAll(services[..|services| - 1], name, net, refused)
         + [BindTaken(services[|services| - 1], name, net, refused)]
  }

  function Rebound(services: seq<Service>, name: string, net: Network, refused: set<ServiceKey>): nat {
    if services == [] then 0
    else
      var last := services[|services| - 1];
      Rebound(services[..|services| - 1], name, net, refused)
      + (if BindTaken(last, name, net, refused) == last then 0 else 1)
  }

  /** What the API server answers during a deletion; a failed list or a refused delete is only logged.
      `updated` is whether it takes the removal of the finalizer. */
  datatype CleanupAnswers = CleanupAnswers(listed: bool, refused: set<Key>, updated: bool)

  const NO_CLEANUP_FAULTS: CleanupAnswers := CleanupAnswers(true, {}, true)

  /** What the API server says when it refuses. */
  datatype ErrorTexts = ErrorTexts(attachments: string, pool: string, services: string)

  /** What it answers during a reconcile: whether the Network is read, the finalizer added, namespaces and Services
      listed and the status taken, and which children and Services end in an error. */
  datatype Answers = Answers(got: bool, finalizerAdded: bool, namespacesListed: bool, refused: set<Key>,
                             servicesListed: bool, refusedServices: set<ServiceKey>, statusTaken: bool,
                             texts: ErrorTexts, cleanup: CleanupAnswers)

  const NO_FAULTS: Answers :=
    Answers(true, true, true, {}, true, {}, true, ErrorTexts("", "", ""), NO_CLEANUP_FAULTS)

  function DeleteNads(children: map<Key, Child>, namespaces: seq<Namespace>, name: string, refused: set<Key>):
    map<Key, Child>
  {
    if namespaces == [] then children
    else DeleteNads(children, namespaces[..|namespaces| - 1], name, refused)
         - ({Nad(namespaces[|namespaces| - 1].name, name)} - refused)
  }

  function DeleteAll(children: map<Key, Child>, namespaces: seq<Namespace>, name: string, a: CleanupAnswers):
    map<Key, Child>
  {
    (if a.listed then DeleteNads(children, namespaces, name, a.refused) else children)
    - ({PoolKey(name)} - a.refused) - ({AdvertisementKey(name)} - a.refused)
  }

  // ---------------------------------------------------------------- conditions

  const NO_HOST_INTERFACE: string :=
    "Network accepted, but the underlying host VXLAN was not statically provisioned. "
    + "Pods attempting to use this network will fail. Rebuild cluster using Ansible variables to activate."
  const CHILDREN_FAILED: string := "Failed to reconcile child resources: "
  const NETWORK_READY: string := "Network interface and IPAM ready"
  const DNS_READY: string := "CoreDNS service is ready for the network"
  const DNS_RULE_MISSING: string := "CoreDNS is not configured with the .gkegw.cluster.local rewrite rule"

  predicate Provisioned(provisioned: Option<map<string, string>>, name: string, net: Network) {
    || name == "pod-network" || name == "default"
    || (net.vlanId == "" && InterfaceOf(net) == "")
    || (provisioned.Some?
        && ((net.vlanId != "" && net.vlanId in provisioned.value)
            || (InterfaceOf(net) != "" && InterfaceOf(net) in provisioned.value.Values)))
  }

  /** Some namespace does not get its attachment. */
  predicate NadsFail(name: string, namespaces: seq<Namespace>, a: Answers) {
    !a.namespacesListed || NadRefused(name, namespaces, a.refused)
  }

  predicate NadRefused(name: string, namespaces: seq<Namespace>, refused: set<Key>) {
    exists i :: 0 <= i < |namespaces| && !namespaces[i].terminating && Nad(namespaces[i].name, name) in refused
  }

  predicate PoolFails(name: string, refused: set<Key>) {
    PoolKey(name) in refused || AdvertisementKey(name) in refused
  }

  /** Some Service is not bound though it should be. */
  predicate ServicesFail(services: seq<Service>, name: string, net: Network, a: Answers) {
    !a.servicesListed || ServiceRefused(services, name, net, a.refusedServices)
  }

  predicate ServiceRefused(services: seq<Service>, name: string, net: Network, refused: set<ServiceKey>) {
    exists i :: 0 <= i < |services| && KeyOf(services[i]) in refused && BindOne(services[i], name, net) != services[i]
  }

  const ATTACHMENTS: string := "NetworkAttachmentDefinition: "
  const POOLS: string := "IPAddressPool/L2Advertisement: "
  const SERVICES: string := "Service binding: "
  const BAD_MTU: string := "NetworkAttachmentDefinition: invalid VLAN MTU"
  const BAD_VIPS: string := "VIP pool annotation: not a list"

  /** The errors collected on the way, in order; an invalid MTU is found before namespaces are listed. */
  function ChildErrors(w: World, name: string, net: Network, a: Answers): seq<string> {
    (if InterfaceOf(net) == "" then []
     else if Mtu(net).None? then [BAD_MTU]
     else if NadsFail(name, w.namespaces, a) then [ATTACHMENTS + a.texts.attachments] else [])
    + (if net.vips.BadVips? then [BAD_VIPS]
       else if HasPool(net) && PoolFails(name, a.refused) then [POOLS + a.texts.pool] else [])
    + (if ServicesFail(w.services, name, net, a) then [SERVICES + a.texts.services] else [])
  }

  function JoinErrors(errors: seq<string>): string {
    if errors == [] then "" else if |errors| == 1 then errors[0] else errors[0] + "; " + JoinErrors(errors[1..])
  }

  function ReadyCondition(provisioned: Option<map<string, string>>, name: string, net: Network, errors: seq<string>):
    StatusUpdates.Desired
  {
    if !Provisioned(provisioned, name, net) then
      StatusUpdates.Desired("Ready", "False", "MissingHostInterface", NO_HOST_INTERFACE)
    else if errors != [] then
      StatusUpdates.Desired("Ready", "False", "ChildResourceError", CHILDREN_FAILED + JoinErrors(errors))
    else
      StatusUpdates.Desired("Ready", "True", "NetworkReady", NETWORK_READY)
  }

  function DnsCondition(corefile: Option<string>): StatusUpdates.Desired {
    if corefile.Some? && CoreDns.RuleActive(corefile.value) then
      StatusUpdates.Desired("CoreDNSReady", "True", "CoreDNSServiceReady", DNS_READY)
    else
      StatusUpdates.Desired("CoreDNSReady", "False", "CoreDNSRewriteRuleMissing",
                            DNS_RULE_MISSING)
  }

  function Conditions(w: World, name: string, net: Network, errors: seq<string>): seq<StatusUpdates.Desired> {
    [ReadyCondition(w.provisioned, name, net, errors), DnsCondition(w.corefile)]
  }

  function StatusAfter(w: World, name: string, net: Network, now: string, a: Answers): StatusUpdates.StatusBlock {
    StatusUpdates.NextStatus(net.status, None, Conditions(w, name, net, ChildErrors(w, name, net, a)), now)
  }

  // ---------------------------------------------------------------- reconcile as a function

  function ChildrenAfter(w: World, name: string, net: Network, a: Answers): Store {
    ChildrenFrom(Store(w.children, w.writes), w.namespaces, name, net, a)
  }

  function ChildrenFrom(st: Store, namespaces: seq<Namespace>, name: string, net: Network, a: Answers): Store {
    var nads := if NadConfig(net).Some? && a.namespacesListed
                then ApplyNads(st, namespaces, name, NadConfig(net).value, a.refused) else st;
    if HasPool(net) then ApplyPool(nads, name, net, a.refused) else nads
  }

  /** The services after the loop over them, and how many were written. */
  function ServicesAfter(services: seq<Service>, name: string, net: Network, a: Answers): (seq<Service>, nat) {
    if a.servicesListed
    then (BindAll(services, name, net, a.refusedServices), Rebound(services, name, net, a.refusedServices))
    else (services, 0)
  }

  /** The Network with the finalizer ensured and its status updated. */
  function NetworkAfter(w: World, name: string, net: Network, now: string, a: Answers): Network {
    net.(finalizer := true, status := if a.statusTaken then Some(StatusAfter(w, name, net, now, a)) else net.status)
  }

  /** Without the finalizer nothing is done at all. */
  function ReconcileLive(w: World, name: string, now: string, a: Answers): World
    requires name in w.networks
  {
    var net := w.networks[name];
    if !net.finalizer && !a.finalizerAdded then w
    else
      var st := ChildrenAfter(w, name, net, a);
      var (services, rebound) := ServicesAfter(w.services, name, net, a);
      var after := NetworkAfter(w, name, net, now, a);
      w.(networks := w.networks[name := after], children := st.children, services := services,
         writes := st.writes + rebound,
         ownWrites := w.ownWrites + (if net.finalizer then 0 else 1) + (if after.status == net.status then 0 else 1))
  }

  /** The finalizer's removal does not depend on what became of the deletes. */
  function ReconcileDeleted(w: World, name: string, a: CleanupAnswers): World
    requires name in w.networks
  {
    if !w.networks[name].finalizer then w
    else
      var cleaned := w.(children := DeleteAll(w.children, w.namespaces, name, a));
      if a.updated then
        cleaned.(networks := w.networks[name := w.networks[name].(finalizer := false)], ownWrites := w.ownWrites + 1)
      else
        cleaned
  }

  function ReconcileWith(w: World, name: string, now: string, a: Answers): World {
    if !a.got || name !in w.networks then w
    else if w.networks[name].deleting then ReconcileDeleted(w, name, a.cleanup)
    else ReconcileLive(w, name, now, a)
  }

  /** A reconcile without faults. */
  function ReconcileOnce(w: World, name: string, now: string): World {
    ReconcileWith(w, name, now, NO_FAULTS)
  }

  // ---------------------------------------------------------------- the reconciler

  class Controller {
    var networks: map<string, Network>
    var children: map<Key, Child>
    var services: seq<Service>
    var namespaces: seq<Namespace>
    var corefile: Option<string>
    var provisioned: Option<map<string, string>>
    var writes: nat
    var ownWrites: nat

    constructor (w: World)
      ensures View() == w
    {
      networks, children, services, namespaces := w.networks, w.children, w.services, w.namespaces;
      corefile, provisioned, writes, ownWrites := w.corefile, w.provisioned, w.writes, w.ownWrites;
    }

    function View(): World
      reads this
    {
      World(networks, children, services, namespaces, corefile, provisioned, writes, ownWrites)
    }

    function Children(): Store
      reads this
    {
      Store(children, writes)
    }

    method ApplyOrUpdate(key: Key, spec: Spec, owner: string, refused: set<Key>) returns (ok: bool)
      modifies this`children, this`writes
      ensures Children() == Apply(old(Children()), key, spec, owner, refused)
      ensures ok == (key !in refused)
    {
      if key in refused {
        return false;
      }
      if key !in children {
        children := children[key := Child(spec, owner, 1)];
        writes := writes + 1;
        return true;
      }
      var existing := children[key];
      if existing.spec != spec {
        children := children[key := Child(spec, owner, existing.version + 1)];
        writes := writes + 1;
      }
      return true;
    }

    /** A bad MTU or an unlisted set of namespaces ends it before anything is written; a refused attachment does not
        keep the others from being applied. */
    method ReconcileNetAttachDef(name: string, net: Network, a: Answers) returns (ok: bool)
      requires InterfaceOf(net) != ""
      modifies this`children, this`writes
      ensures ok == (NadConfig(net).Some? && !NadsFail(name, namespaces, a))
      ensures Children()
           == if NadConfig(net).Some? && a.namespacesListed
              then ApplyNads(old(Children()), namespaces, name, NadConfig(net).value, a.refused)
              else old(Children())
    {
      hide InterfaceOf, Mtu, ConfigOf, Apply;
      var mtu := Mtu(net);
      if mtu.None? || !a.namespacesListed {
        return false;
      }
      var config := ConfigOf(net, mtu.value);
      ok := true;
      for i := 0 to |namespaces|
        invariant Children() == ApplyNads(old(Children()), namespaces[..i], name, config, a.refused)
        invariant ok <==> forall k :: 0 <= k < i && !namespaces[k].terminating ==>
                            Nad(namespaces[k].name, name) !in a.refused
      {
        assert namespaces[..i + 1][..i] == namespaces[..i];
        if !namespaces[i].terminating {
          var applied := ApplyOrUpdate(Nad(namespaces[i].name, name), NadSpec(config), name, a.refused);
          ok := ok && applied;
        }
      }
      assert namespaces[..|namespaces|] == namespaces;
    }

    method ReconcileMetalLb(name: string, net: Network, refused: set<Key>) returns (ok: bool)
      requires HasPool(net)
      modifies this`children, this`writes
      ensures Children() == ApplyPool(old(Children()), name, net, refused)
      ensures ok == !PoolFails(name, refused)
    {
      hide InterfaceOf, PoolName, AdvertisementName;
      ok := ApplyOrUpdate(PoolKey(name), PoolSpec(net.vips.vips, false), name, refused);
      if !ok {
        return;
      }
      ok := ApplyOrUpdate(AdvertisementKey(name), AdvertisementSpec([PoolName(name)], [InterfaceOf(net)]), name,
                          refused);
    }

    /** A refused Service does not keep the others from being bound. */
    method ReconcileServices(name: string, net: Network, a: Answers) returns (ok: bool)
      modifies this`services, this`writes
      ensures services == ServicesAfter(old(services), name, net, a).0
      ensures writes == old(writes) + ServicesAfter(old(services), name, net, a).1
      ensures ok == !ServicesFail(old(services), name, net, a)
    {
      hide Allowed, Requests, Bound, BindOne, BindAll, Rebound;
      if !a.servicesListed {
        return false;
      }
      var listed, refused := services, a.refusedServices;
      BindNone(listed, name, net, refused);
      ok := true;
      for i := 0 to |listed|
        invariant |services| == |listed|
        invariant services == BindAll(listed[..i], name, net, refused) + listed[i..]
        invariant writes == old(writes) + Rebound(listed[..i], name, net, refused)
        invariant ok <==> forall k :: 0 <= k < i && BindOne(listed[k], name, net) != listed[k] ==>
                            KeyOf(listed[k]) !in refused
      {
        BindStep(listed, i, name, net, refused);
        var svc := listed[i];
        ghost var done := BindAll(listed[..i], name, net, refused);
        BindChanges(svc, name, net);
        Spliced(done, svc, BindTaken(svc, name, net, refused), listed[i + 1..]);
        if Requests(svc, name) && Allowed(net, svc.namespace) && !Bound(svc, name) {
          if KeyOf(svc) in refused {
            ok := false;
          } else {
            BindingAdds(svc, name, net);
            services := services[i := svc.(annotations := svc.annotations[POOL_ANNOTATION := PoolName(name)])];
            writes := writes + 1;
          }
        }
      }
      assert listed[..|listed|] == listed;
    }

    method CleanupChildren(name: string, a: CleanupAnswers)
      modifies this`children
      ensures children == DeleteAll(old(children), namespaces, name, a)
    {
      if a.listed {
        for i := 0 to |namespaces|
          invariant children == DeleteNads(old(children), namespaces[..i], name, a.refused)
        {
          assert namespaces[..i + 1][..i] == namespaces[..i];
          DeleteChild(Nad(namespaces[i].name, name), a);
        }
        assert namespaces[..|namespaces|] == namespaces;
      }
      DeleteChild(PoolKey(name), a);
      DeleteChild(AdvertisementKey(name), a);
    }

    method DeleteChild(key: Key, a: CleanupAnswers)
      modifies this`children
      ensures children == old(children) - ({key} - a.refused)
    {
      if key !in a.refused {
        children := children - {key};
      }
    }

    method ReconcileDeletion(name: string, a: CleanupAnswers)
      requires name in networks
      modifies this
      ensures View() == ReconcileDeleted(old(View()), name, a)
    {
      hide DeleteAll;
      if networks[name].finalizer {
        CleanupChildren(name, a);
        if a.updated {
          networks := networks[name := networks[name].(finalizer := false)];
          ownWrites := ownWrites + 1;
        }
      }
    }

    /** The child objects and the bindings, in the order of the code. */
    method ReconcileChildren(name: string, net: Network, a: Answers) returns (errors: seq<string>)
      modifies this`children, this`services, this`writes
      ensures children == ChildrenFrom(old(Children()), namespaces, name, net, a).children
      ensures writes == ChildrenFrom(old(Children()), namespaces, name, net, a).writes
                        + ServicesAfter(old(services), name, net, a).1
      ensures services == ServicesAfter(old(services), name, net, a).0
      ensures errors == ChildErrors(old(View()), name, net, a)
    {
      hide InterfaceOf, Mtu, ConfigOf, ApplyNads, ApplyPool, NadsFail, PoolFails, ServicesFail, ServicesAfter;
      hide ATTACHMENTS, POOLS, SERVICES, BAD_MTU, BAD_VIPS;
      errors := [];
      if InterfaceOf(net) != "" {
        var ok := ReconcileNetAttachDef(name, net, a);
        if !ok {
          errors := errors + [if Mtu(net).None? then BAD_MTU else ATTACHMENTS + a.texts.attachments];
        }
      }
      if HasPool(net) {
        var ok := ReconcileMetalLb(name, net, a.refused);
        if !ok {
          errors := errors + [POOLS + a.texts.pool];
        }
      } else if net.vips.BadVips? {
        errors := errors + [BAD_VIPS];
      }
      var ok := ReconcileServices(name, net, a);
      if !ok {
        errors := errors + [SERVICES + a.texts.services];
      }
    }

    method Reconcile(name: string, now: string, a: Answers)
      modifies this
      ensures View() == ReconcileWith(old(View()), name, now, a)
    {
      hide ChildrenFrom, ChildErrors, ServicesAfter, ReconcileDeleted, Conditions, StatusUpdates.NextStatus;
      if !a.got || name !in networks {
        return;
      }
      var net := networks[name];
      if net.deleting {
        ReconcileDeletion(name, a.cleanup);
        return;
      }
      ghost var before := View();
      if !net.finalizer {
        if !a.finalizerAdded {
          return;
        }
        ownWrites := ownWrites + 1;
      }
      SameErrors(before, View(), name, net, a);
      var errors := ReconcileChildren(name, net, a);
      SameConditions(before, View(), name, net, errors);
      var status := if a.statusTaken
                    then Some(StatusUpdates.NextStatus(net.status, None, Conditions(View(), name, net, errors), now))
                    else net.status;
      if status != net.status {
        ownWrites := ownWrites + 1;
      }
      networks := networks[name := net.(finalizer := true, status := status)];
    }
  }

  /** Errors and conditions depend on what is read, not on what is counted. */
  lemma SameErrors(a: World, b: World, name: string, net: Network, answers: Answers)
    requires a.namespaces == b.namespaces && a.services == b.services
    ensures ChildErrors(a, name, net, answers) == ChildErrors(b, name, net, answers)
  {
    hide InterfaceOf, Mtu, NadsFail, PoolFails, ServicesFail, ATTACHMENTS, POOLS, SERVICES, BAD_MTU, BAD_VIPS;
  }

  lemma SameConditions(a: World, b: World, name: string, net: Network, errors: seq<string>)
    requires a.corefile == b.corefile && a.provisioned == b.provisioned
    ensures Conditions(a, name, net, errors) == Conditions(b, name, net, errors)
  {
    hide ReadyCondition, DnsCondition;
  }

  lemma NadNeedsInterface(net: Network)
    ensures InterfaceOf(net) == "" ==> NadConfig(net).None?
  {
  }

  /** A binding changes a Service exactly when it asks, may have it and has not got it. */
  lemma BindChanges(s: Service, name: string, net: Network)
    ensures BindOne(s, name, net) == s <==> !(Requests(s, name) && Allowed(net, s.namespace) && !Bound(s, name))
  {
    hide Allowed;
  }

  lemma BindingAdds(s: Service, name: string, net: Network)
    requires Requests(s, name) && Allowed(net, s.namespace) && !Bound(s, name)
    ensures BindOne(s, name, net) == s.(annotations := s.annotations[POOL_ANNOTATION := PoolName(name)])
  {
    hide Allowed;
  }

  lemma BindNone(listed: seq<Service>, name: string, net: Network, refused: set<ServiceKey>)
    ensures BindAll(listed[..0], name, net, refused) + listed[0..] == listed
    ensures Rebound(listed[..0], name, net, refused) == 0
  {
    assert listed[..0] == [];
  }

  lemma Spliced<T>(a: seq<T>, x: T, y: T, rest: seq<T>)
    ensures (a + ([x] + rest))[|a| := y] == a + [y] + rest
    ensures a + ([x] + rest) == a + [x] + rest
  {
  }

  lemma {:induction false} BindAllLength(services: seq<Service>, name: string, net: Network, refused: set<ServiceKey>)
    ensures |BindAll(services, name, net, refused)| == |services|
  {
    if services != [] { BindAllLength(services[..|services| - 1], name, net, refused); }
  }

  lemma BindStep(listed: seq<Service>, i: nat, name: string, net: Network, refused: set<ServiceKey>)
    requires i < |listed|
    ensures |BindAll(listed[..i], name, net, refused)| == i
    ensures BindAll(listed[..i + 1], name, net, refused)
         == BindAll(listed[..i], name, net, refused) + [BindTaken(listed[i], name, net, refused)]
    ensures Rebound(listed[..i + 1], name, net, refused)
         == Rebound(listed[..i], name, net, refused)
            + (if BindTaken(listed[i], name, net, refused) == listed[i] then 0 else 1)
    ensures listed[i..] == [listed[i]] + listed[i + 1..]
  {
    hide BindOne;
    BindAllLength(listed[..i], name, net, refused);
    assert listed[..i + 1][..i] == listed[..i];
  }
}
