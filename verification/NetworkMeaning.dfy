/**
  What a Network asks for, in so many words: which namespaces its annotation
  admits, which objects it is to have, and what its conditions say.
*/
module NetworkMeaning {
  import opened Wrappers
  import opened Text
  import opened Ipv4
  import StatusUpdates
  import opened NetworkReconciler
  import opened NetworkTheorems

  predicate Blanks(s: string) { Blank(s, GoSpace) }

  // ---------------------------------------------------------------- the namespace allowlist

  /** Names with blanks around each of them. */
  function Padded(left: seq<string>, names: seq<string>, right: seq<string>): seq<string>
    requires |left| == |names| == |right|
  {
    seq(|names|, i requires 0 <= i < |names| => left[i] + names[i] + right[i])
  }

  /** A list of names as an annotation may write it: no comma in a name, no blank at its ends, blanks around it. */
  predicate NameList(left: seq<string>, names: seq<string>, right: seq<string>) {
    && |left| == |names| == |right| && |names| >= 1
    && forall i :: 0 <= i < |names| ==>
         Blanks(left[i]) && Blanks(right[i]) && ',' !in names[i] && Trimmed(names[i], GoSpace)
  }

  lemma PaddedParts(left: seq<string>, names: seq<string>, right: seq<string>)
    requires NameList(left, names, right)
    ensures Split(Join(Padded(left, names, right), ','), ',') == Padded(left, names, right)
    ensures forall i :: 0 <= i < |names| ==> Trim(Padded(left, names, right)[i], GoSpace) == names[i]
  {
    hide Split, Join, Trim;
    var parts := Padded(left, names, right);
    forall i | 0 <= i < |names| ensures ',' !in parts[i] && Trim(parts[i], GoSpace) == names[i] {
      assert !GoSpace(',');
      TrimPadded(left[i], names[i], right[i], GoSpace);
    }
    SplitJoin(parts, ',');
  }

  lemma {:induction false} TrimKeepsComma(s: string)
    requires ',' in s
    ensures ',' in Trim(s, GoSpace)
  {
    TrimLeftKeepsComma(s);
    TrimRightKeepsComma(TrimLeft(s, GoSpace));
  }

  lemma {:induction false} TrimLeftKeepsComma(s: string)
    requires ',' in s
    ensures ',' in TrimLeft(s, GoSpace)
  {
    if GoSpace(s[0]) {
      assert s == [s[0]] + s[1..];
      TrimLeftKeepsComma(s[1..]);
    }
  }

  lemma {:induction false} TrimRightKeepsComma(s: string)
    requires ',' in s
    ensures ',' in TrimRight(s, GoSpace)
  {
    if GoSpace(s[|s| - 1]) {
      assert s == s[..|s| - 1] + [s[|s| - 1]];
      TrimRightKeepsComma(s[..|s| - 1]);
    }
  }

  /** Two names or more have a comma between them. */
  lemma JoinedHasComma(parts: seq<string>)
    requires |parts| >= 2
    ensures ',' in Join(parts, ',')
  {
    assert Join(parts, ',') == parts[0] + [','] + Join(parts[1..], ',');
    assert Join(parts, ',')[|parts[0]|] == ',';
  }

  /** A list that is not blank and not the star admits exactly the names in it. */
  lemma ListAdmitsExactly(net: Network, left: seq<string>, names: seq<string>, right: seq<string>, namespace: string)
    requires NameList(left, names, right) && net.allowed == Some(Join(Padded(left, names, right), ','))
    requires !(|names| == 1 && (names[0] == "" || names[0] == "*"))
    ensures Allowed(net, namespace) <==> namespace in names
  {
    hide Split, Trim;
    var parts := Padded(left, names, right);
    var text := Join(parts, ',');
    PaddedParts(left, names, right);
    if |names| == 1 {
      assert text == parts[0];
    } else {
      hide Join;
      JoinedHasComma(parts);
      TrimKeepsComma(text);
      assert ',' !in "" && ',' !in "*";
    }
    assert forall i :: 0 <= i < |names| ==> names[i] == Trim(Split(text, ',')[i], GoSpace);
  }

  /** An absent or blank annotation, or the star with blanks around it, admits every namespace. */
  lemma OpenAdmitsAll(net: Network, left: string, right: string, namespace: string)
    requires Blanks(left) && Blanks(right)
    requires net.allowed in [None, Some(left), Some(left + "*" + right)]
    ensures Allowed(net, namespace)
  {
    hide Split, Trim;
    TrimPadded(left, "", right, GoSpace);
    TrimPadded(left, "", "", GoSpace);
    TrimPadded(left, "*", right, GoSpace);
    assert left + "" + "" == left;
  }

  /** The annotation of a Service that asks for the network. */
  predicate Asks(s: Service, name: string) {
    "networking.gke.io/network" in s.annotations && s.annotations["networking.gke.io/network"] == name
  }

  /** The annotation that binds a Service to the network's pool. */
  predicate HasPoolAnnotation(s: Service, name: string) {
    && "metallb.universe.tf/address-pool" in s.annotations
    && s.annotations["metallb.universe.tf/address-pool"] == name + "-pool"
  }

  lemma AnnotationsMean(s: Service, name: string)
    ensures Asks(s, name) <==> Requests(s, name)
    ensures HasPoolAnnotation(s, name) <==> Bound(s, name)
  {
  }

  lemma BoundExactly(w: World, name: string, now: string, i: nat)
    requires name in w.networks && !w.networks[name].deleting && i < |w.services|
    ensures |ReconcileOnce(w, name, now).services| == |w.services|
    ensures ReconcileOnce(w, name, now).services[i] == BindOne(w.services[i], name, w.networks[name])
  {
    hide ReconcileWith, ChildrenAfter, ServicesAfter, NetworkAfter, BindOne;
    GoesAheadUnfolds(w, name, now, NO_FAULTS);
    ServicesAfterAt(w.services, name, w.networks[name], NO_FAULTS);
  }

  lemma BindOneMeans(s: Service, name: string, net: Network)
    requires Requests(s, name) && !Bound(s, name)
    ensures Bound(BindOne(s, name, net), name) <==> Allowed(net, s.namespace)
  {
    hide Allowed;
    BindOneFacts(s, name, net, name);
  }

  /** After a reconcile without faults, a Service that asks and was not bound is bound exactly if its namespace is in
      the list. */
  lemma ListedNamespacesAreBound(w: World, name: string, now: string, i: nat, left: seq<string>, names: seq<string>,
                                 right: seq<string>)
    requires name in w.networks && !w.networks[name].deleting && i < |w.services|
    requires Asks(w.services[i], name) && !HasPoolAnnotation(w.services[i], name)
    requires NameList(left, names, right)
    requires w.networks[name].allowed == Some(Join(Padded(left, names, right), ','))
    requires !(|names| == 1 && (names[0] == "" || names[0] == "*"))
    ensures |ReconcileOnce(w, name, now).services| == |w.services|
    ensures HasPoolAnnotation(ReconcileOnce(w, name, now).services[i], name) <==> w.services[i].namespace in names
  {
    hide ReconcileOnce, Allowed, NameList, Requests, Bound, Asks, HasPoolAnnotation, Join, BindOne;
    BoundExactly(w, name, now, i);
    AnnotationsMean(w.services[i], name);
    AnnotationsMean(ReconcileOnce(w, name, now).services[i], name);
    BindOneMeans(w.services[i], name, w.networks[name]);
    ListAdmitsExactly(w.networks[name], left, names, right, w.services[i].namespace);
  }

  /** Without a list every Service that asks is bound. */
  lemma OpenNetworksBindAll(w: World, name: string, now: string, i: nat, left: string, right: string)
    requires name in w.networks && !w.networks[name].deleting && i < |w.services|
    requires Asks(w.services[i], name) && Blanks(left) && Blanks(right)
    requires w.networks[name].allowed in [None, Some(left), Some(left + "*" + right)]
    ensures |ReconcileOnce(w, name, now).services| == |w.services|
    ensures HasPoolAnnotation(ReconcileOnce(w, name, now).services[i], name)
  {
    hide ReconcileOnce, Allowed, Requests, Bound, Asks, HasPoolAnnotation, BindOne;
    BoundExactly(w, name, now, i);
    AnnotationsMean(w.services[i], name);
    AnnotationsMean(ReconcileOnce(w, name, now).services[i], name);
    BindOneFacts(w.services[i], name, w.networks[name], name);
    OpenAdmitsAll(w.networks[name], left, right, w.services[i].namespace);
  }

  /** A Service that does not ask is not touched. */
  lemma OthersAreNotBound(w: World, name: string, now: string, i: nat)
    requires name in w.networks && !w.networks[name].deleting && i < |w.services|
    requires !Asks(w.services[i], name)
    ensures |ReconcileOnce(w, name, now).services| == |w.services|
    ensures ReconcileOnce(w, name, now).services[i] == w.services[i]
  {
    hide ReconcileOnce, Allowed, Requests, Bound, Asks, BindOne;
    BoundExactly(w, name, now, i);
    AnnotationsMean(w.services[i], name);
    BindOneFacts(w.services[i], name, w.networks[name], name);
  }

  // ---------------------------------------------------------------- the objects

  /** The host interface: the one that is named, else the one of the VLAN, else none. */
  lemma InterfaceMeaning(net: Network)
    ensures net.interfaceName != "" ==> InterfaceOf(net) == net.interfaceName
    ensures net.interfaceName == "" && net.vlanId != "" ==> InterfaceOf(net) == "gdcenet0." + net.vlanId
    ensures net.interfaceName == "" && net.vlanId == "" ==> InterfaceOf(net) == ""
  {
  }

  /** A positive decimal number with blanks around it is the MTU, and no number means 1410. */
  lemma MtuMeaning(net: Network, left: string, right: string, n: nat)
    requires Blanks(left) && Blanks(right)
    ensures net.vlanMtu == "" ==> Mtu(net) == Some(1410)
    ensures net.vlanMtu == left + Decimal(n) + right ==>
              Mtu(net) == if 1 <= n <= 0x7FFF_FFFF_FFFF_FFFF then Some(n) else None
  {
    hide Trim, Decimal, Value;
    DecimalValue(n);
    DecimalTrimmed(n);
    TrimPadded(left, Decimal(n), right, GoSpace);
    if net.vlanMtu == "" {
      DefaultMtu();
      DecimalValue(1410);
      DecimalTrimmed(1410);
      TrimFixed(DEFAULT_MTU, GoSpace);
    }
  }

  lemma DecimalTrimmed(n: nat)
    ensures Decimal(n) != [] && Trimmed(Decimal(n), GoSpace) && IsDigit(Decimal(n)[0])
  {
    hide Decimal;
    var s := Decimal(n);
    assert s[0] in s && s[|s| - 1] in s;
  }

  lemma DefaultMtu()
    ensures DEFAULT_MTU == Decimal(1410)
  {
    assert Decimal(14) == Decimal(1) + ['4'] == "14";
    assert Decimal(141) == Decimal(14) + ['1'];
    assert Decimal(1410) == Decimal(141) + ['0'];
  }

  /** Anything that is not digits, with or without a sign, is no MTU. */
  lemma BadMtuMeaning(net: Network)
    requires net.vlanMtu != ""
    requires var t := Trim(net.vlanMtu, GoSpace);
             t == "" || (exists i :: 0 < i < |t| && !IsDigit(t[i])) || !(IsDigit(t[0]) || t[0] == '+')
    ensures Mtu(net) == None
  {
    hide Trim;
    var t := Trim(net.vlanMtu, GoSpace);
    if t != "" && t[0] != '-' {
      if i :| 0 < i < |t| && !IsDigit(t[i]) {
        assert t[i] in t && t[1..][i - 1] == t[i];
      } else {
        assert t[0] in t;
      }
    }
  }

  /** The prefix length is the Network's if it is one, and 24 otherwise. */
  lemma PrefixMeaning(net: Network)
    ensures PrefixOf(net) == match net.prefixLength4 case Some(p) => if 1 <= p <= 32 then p else 24 case None => 24
  {
  }

  /** The attachment's configuration: interface, MTU, and the subnet around the gateway, or the pod CIDR without one. */
  lemma AttachmentMeaning(net: Network, gateway: Address)
    requires net.gateway4 == Dotted(gateway) && InterfaceOf(net) != "" && Mtu(net).Some?
    ensures NadConfig(net) == Some(CniConfig(InterfaceOf(net), Mtu(net).value,
                                             CidrText(NetworkOf(gateway, PrefixOf(net)), PrefixOf(net)), net.gateway4))
  {
    hide Dotted, ParseDotted, InterfaceOf, Mtu, PrefixOf, NetworkOf, CidrText;
    ParsePrinted(gateway);
    ParseIpPlain(Dotted(gateway));
    DottedChars(gateway);
  }

  lemma AttachmentWithoutGateway(net: Network)
    requires net.gateway4 == "" && InterfaceOf(net) != "" && Mtu(net).Some?
    ensures NadConfig(net) == Some(CniConfig(InterfaceOf(net), Mtu(net).value, "usePodCidr", ""))
  {
    hide InterfaceOf, Mtu;
  }

  /** No attachment without an interface, or with a bad MTU. */
  lemma NoAttachment(net: Network)
    requires InterfaceOf(net) == "" || Mtu(net).None?
    ensures NadConfig(net) == None
  {
    hide InterfaceOf, Mtu;
  }

  /** The desired objects by name: an attachment of the Network's name in every namespace that is not terminating, and
      with VIPs a pool and an advertisement in kube-system. */
  lemma DesiredMeaning(name: string, net: Network, namespaces: seq<Namespace>, namespace: string, key: Key)
    ensures Wanted(name, net, namespaces, Nad(namespace, name))
         == if Namespace(namespace, false) in namespaces && NadConfig(net).Some?
            then Some(NadSpec(NadConfig(net).value)) else None
    ensures Wanted(name, net, namespaces, Pool("kube-system", name + "-pool"))
         == if net.vips.VipList? && net.vips.vips != [] then Some(PoolSpec(net.vips.vips, false)) else None
    ensures Wanted(name, net, namespaces, Advertisement("kube-system", "l2advertise-" + name))
         == if net.vips.VipList? && net.vips.vips != []
            then Some(AdvertisementSpec([name + "-pool"], [InterfaceOf(net)])) else None
    ensures Wanted(name, net, namespaces, key).Some? ==>
              || (key.Nad? && key.name == name)
              || key == Pool("kube-system", name + "-pool")
              || key == Advertisement("kube-system", "l2advertise-" + name)
  {
    hide NadConfig, InterfaceOf;
  }

  /** The objects that are taken down with a Network are those three kinds of its name, and no others. */
  lemma ChildOfMeaning(name: string, key: Key)
    ensures ChildOf(name, key) <==>
              match key
              case Nad(_, n) => n == name
              case Pool(ns, n) => ns == "kube-system" && n == name + "-pool"
              case Advertisement(ns, n) => ns == "kube-system" && n == "l2advertise-" + name
  {
  }

  /** Nothing is done about a Network that cannot be read, is gone, or is deleted without the finalizer. */
  lemma NothingToDo(w: World, name: string, now: string, a: Answers)
    requires !a.got || name !in w.networks || (w.networks[name].deleting && !w.networks[name].finalizer)
    ensures ReconcileWith(w, name, now, a) == w
  {
  }

  /** What one apply leaves: a new object, the object as it was, or a newer version; and the write that took. */
  lemma ApplyLeaves(st: Store, key: Key, spec: Spec, owner: string)
    ensures var after := Apply(st, key, spec, owner, {});
            && (key !in st.children ==>
                  after == Store(st.children[key := Child(spec, owner, 1)], st.writes + 1))
            && (key in st.children && st.children[key].spec == spec ==> after == st)
            && (key in st.children && st.children[key].spec != spec ==>
                  after == Store(st.children[key := Child(spec, owner, st.children[key].version + 1)], st.writes + 1))
  {
  }

  // ---------------------------------------------------------------- the conditions

  /** CoreDNSReady is true exactly if the Corefile can be read and has the suffix of the rule. */
  lemma DnsMeaning(corefile: Option<string>)
    ensures var c := DnsCondition(corefile);
            && c.kind == "CoreDNSReady"
            && (corefile.Some? && Contains(corefile.value, ".gkegw.cluster.local") ==>
                  c.status == "True" && c.reason == "CoreDNSServiceReady" && c.message == DNS_READY)
            && (!(corefile.Some? && Contains(corefile.value, ".gkegw.cluster.local")) ==>
                  c.status == "False" && c.reason == "CoreDNSRewriteRuleMissing" && c.message == DNS_RULE_MISSING)
  {
    hide Contains, DNS_READY, DNS_RULE_MISSING;
  }

  /** The published map has the VLAN among its keys, or the interface among its values. */
  predicate Published(provisioned: map<string, string>, net: Network) {
    || (net.vlanId != "" && net.vlanId in provisioned)
    || (InterfaceOf(net) != "" && exists vlan :: vlan in provisioned && provisioned[vlan] == InterfaceOf(net))
  }

  /** A host interface is there if none is asked for, if the Network is the primary one, or if it is published. */
  lemma ProvisionedMeaning(provisioned: Option<map<string, string>>, name: string, net: Network)
    ensures Provisioned(provisioned, name, net) <==>
              || name in ["pod-network", "default"]
              || (net.vlanId == "" && net.interfaceName == "")
              || (provisioned.Some? && Published(provisioned.value, net))
  {
  }

  /** Ready is true exactly if the host interface is there and nothing failed; a missing interface comes first. */
  lemma ReadyMeaning(provisioned: Option<map<string, string>>, name: string, net: Network, errors: seq<string>)
    ensures var c := ReadyCondition(provisioned, name, net, errors);
            && c.kind == "Ready"
            && (!Provisioned(provisioned, name, net) ==>
                  c.status == "False" && c.reason == "MissingHostInterface" && c.message == NO_HOST_INTERFACE)
            && (Provisioned(provisioned, name, net) && errors != [] ==>
                  && c.status == "False" && c.reason == "ChildResourceError"
                  && c.message == CHILDREN_FAILED + JoinErrors(errors))
            && (Provisioned(provisioned, name, net) && errors == [] ==>
                  c.status == "True" && c.reason == "NetworkReady" && c.message == NETWORK_READY)
  {
    hide Provisioned, JoinErrors, NO_HOST_INTERFACE, CHILDREN_FAILED, NETWORK_READY;
  }

  lemma ReadyTexts()
    ensures CHILDREN_FAILED == "Failed to reconcile child resources: "
    ensures NETWORK_READY == "Network interface and IPAM ready"
    ensures ATTACHMENTS == "NetworkAttachmentDefinition: " && POOLS == "IPAddressPool/L2Advertisement: "
    ensures SERVICES == "Service binding: "
    ensures BAD_MTU[..29] == ATTACHMENTS && BAD_VIPS[..21] == "VIP pool annotation: "
  {
    assert BAD_MTU == ATTACHMENTS + "invalid VLAN MTU";
    assert BAD_VIPS == "VIP pool annotation: " + "not a list";
  }

  /** Errors are told one after the other, with "; " between them. */
  lemma {:induction false} JoinErrorsMeaning(errors: seq<string>, last: string)
    ensures JoinErrors([]) == "" && JoinErrors([last]) == last
    ensures errors != [] ==> JoinErrors(errors + [last]) == JoinErrors(errors) + "; " + last
  {
    if |errors| > 1 {
      JoinErrorsMeaning(errors[1..], last);
      assert (errors + [last])[1..] == errors[1..] + [last];
      assert errors[0] + "; " + (JoinErrors(errors[1..]) + "; " + last)
          == errors[0] + "; " + JoinErrors(errors[1..]) + "; " + last;
    } else if |errors| == 1 {
      assert (errors + [last])[1..] == [last];
    }
  }

  /** Without faults, what can be wrong is the MTU of a Network with an interface, and the VIP annotation. */
  lemma FaultlessErrorsMeaning(w: World, name: string, net: Network)
    ensures ChildErrors(w, name, net, NO_FAULTS)
         == (if InterfaceOf(net) != "" && Mtu(net).None? then [BAD_MTU] else [])
            + (if net.vips.BadVips? then [BAD_VIPS] else [])
  {
    hide InterfaceOf, Mtu, BindOne, ATTACHMENTS, POOLS, SERVICES, BAD_MTU, BAD_VIPS;
  }

  /** A reconcile stores these two conditions, in this order, with an addresses field that says nothing. */
  lemma ConditionsStored(w: World, name: string, now: string)
    requires name in w.networks && !w.networks[name].deleting
    ensures var net, after := w.networks[name], ReconcileOnce(w, name, now);
            && name in after.networks && after.networks[name].finalizer && after.networks[name].status.Some?
            && var status := after.networks[name].status.value;
               && status.addresses == None && status.conditions.Some? && |status.conditions.value| == 2
               && StatusUpdates.SameText(status.conditions.value[0],
                                         ReadyCondition(w.provisioned, name, net, ChildErrors(w, name, net, NO_FAULTS)))
               && StatusUpdates.SameText(status.conditions.value[1], DnsCondition(w.corefile))
  {
    hide ChildrenAfter, ServicesAfter, ReadyCondition, DnsCondition, ChildErrors;
    hide StatusUpdates.TransitionTime, StatusUpdates.NextConditions;
    var net := w.networks[name];
    StatusUpdates.NextConditionsAt(StatusUpdates.ExistingConditions(net.status),
                                   Conditions(w, name, net, ChildErrors(w, name, net, NO_FAULTS)), now);
  }
}
