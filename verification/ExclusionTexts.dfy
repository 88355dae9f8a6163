/**
  What a load-balancer VIP text takes out of a network's pool, said in terms of
  the text alone: ranges, single addresses, and what is ignored.
*/
module ExclusionTexts {
  import opened Wrappers
  import opened Text
  import opened Ipv4
  import opened Ipam
  import opened AllocationLaws

  predicate Blanks(s: string) { Blank(s, GoSpace) }

  /** "lo-hi", with blanks around both ends. */
  function RangeText(pad: seq<string>, lo: Address, hi: Address): string
    requires |pad| == 4
  {
    pad[0] + Dotted(lo) + pad[1] + ['-'] + (pad[2] + Dotted(hi) + pad[3])
  }

  predicate Pads(pad: seq<string>) {
    |pad| == 4 && Blanks(pad[0]) && Blanks(pad[1]) && Blanks(pad[2]) && Blanks(pad[3])
  }

  /** The characters of an address are neither blank nor a dash. */
  lemma DottedTrimmed(a: Address)
    ensures Trimmed(Dotted(a), GoSpace) && Dotted(a) != [] && '-' !in Dotted(a) && '/' !in Dotted(a)
    ensures ParseIp(Dotted(a)) == Some(a)
  {
    hide Dotted, ParseDotted;
    DottedChars(a);
    ParsePrinted(a);
    ParseIpPlain(Dotted(a));
    assert Dotted(a)[0] in Dotted(a) && Dotted(a)[|Dotted(a)| - 1] in Dotted(a);
  }

  lemma BlanksHaveNoDash(s: string)
    requires Blanks(s)
    ensures '-' !in s && '/' !in s
  {
    assert !GoSpace('-') && !GoSpace('/');
  }

  /** Trimming a text that holds a dash only touches what lies before the first and behind the last dash. */
  lemma {:induction false} TrimLeftKeepsDash(p: string, rest: string)
    ensures TrimLeft(p + ['-'] + rest, GoSpace) == TrimLeft(p, GoSpace) + ['-'] + rest
    decreases |p|
  {
    var s := p + ['-'] + rest;
    if p != [] && GoSpace(p[0]) {
      assert s[1..] == p[1..] + ['-'] + rest;
      TrimLeftKeepsDash(p[1..], rest);
    } else if p == [] {
      assert s[0] == '-' && [] + ['-'] + rest == s;
    }
  }

  lemma {:induction false} TrimRightKeepsDash(front: string, q: string)
    ensures TrimRight(front + ['-'] + q, GoSpace) == front + ['-'] + TrimRight(q, GoSpace)
    decreases |q|
  {
    var s := front + ['-'] + q;
    if q != [] && GoSpace(q[|q| - 1]) {
      assert s[..|s| - 1] == front + ['-'] + q[..|q| - 1];
      TrimRightKeepsDash(front, q[..|q| - 1]);
    } else if q == [] {
      assert s[|s| - 1] == '-' && front + ['-'] + [] == s;
    }
  }

  lemma TrimDash(p: string, q: string)
    ensures Trim(p + ['-'] + q, GoSpace) == TrimLeft(p, GoSpace) + ['-'] + TrimRight(q, GoSpace)
  {
    hide TrimLeft, TrimRight;
    TrimLeftKeepsDash(p, q);
    TrimRightKeepsDash(TrimLeft(p, GoSpace), q);
  }

  lemma {:induction false} TrimLeftNoDash(p: string)
    ensures '-' !in p ==> '-' !in TrimLeft(p, GoSpace)
    ensures '-' in p ==> '-' in TrimLeft(p, GoSpace)
  {
    if p != [] && GoSpace(p[0]) {
      assert p == [p[0]] + p[1..];
      TrimLeftNoDash(p[1..]);
    }
  }

  lemma {:induction false} TrimRightNoDash(q: string)
    ensures '-' in q <==> '-' in TrimRight(q, GoSpace)
  {
    if q != [] && GoSpace(q[|q| - 1]) {
      assert q == q[..|q| - 1] + [q[|q| - 1]];
      TrimRightNoDash(q[..|q| - 1]);
    }
  }

  /** Trimming twice from one side is trimming once. */
  lemma TrimAgain(p: string)
    ensures Trim(TrimLeft(p, GoSpace), GoSpace) == Trim(p, GoSpace)
  {
    var l := TrimLeft(p, GoSpace);
    assert TrimLeft(l, GoSpace) == l;
  }

  lemma {:induction false} TrimLeftThenRight(q: string)
    ensures Trim(TrimRight(q, GoSpace), GoSpace) == Trim(q, GoSpace)
    decreases |q|
  {
    hide Trim, TrimLeft, GoSpace;
    if q != [] && GoSpace(q[|q| - 1]) {
      var front := q[..|q| - 1];
      TrimLeftThenRight(front);
      TrimLastBlank(front, q[|q| - 1]);
      assert q == front + [q[|q| - 1]];
    }
  }

  lemma {:induction false} TrimLastBlank(front: string, c: char)
    requires GoSpace(c)
    ensures Trim(front + [c], GoSpace) == Trim(front, GoSpace)
    decreases |front|
  {
    var s := front + [c];
    if front == [] {
      assert s[1..] == [];
    } else if GoSpace(front[0]) {
      assert s[1..] == front[1..] + [c];
      TrimLastBlank(front[1..], c);
    } else {
      assert s[..|s| - 1] == front;
    }
  }

  /** With one dash, the two sides are read trimmed, and both must be addresses, in order. */
  lemma OneDash(p: string, q: string)
    requires '-' !in p && '-' !in q
    ensures var low, high := ParseIp(Trim(p, GoSpace)), ParseIp(Trim(q, GoSpace));
            ParseExclusion(p + ['-'] + q)
            == (if low.Some? && high.Some? && low.value <= high.value then Interval(low.value, high.value) else Nothing)
  {
    hide TrimLeft, TrimRight, Split, ParseIp, ParseCidr;
    var text := p + ['-'] + q;
    var l, r := TrimLeft(p, GoSpace), TrimRight(q, GoSpace);
    TrimDash(p, q);
    TrimLeftNoDash(p);
    TrimRightNoDash(q);
    SplitPrefix(l, r, '-');
    SplitNoSep(r, '-');
    TrimAgain(p);
    TrimLeftThenRight(q);
    var val := Trim(text, GoSpace);
    assert val == l + ['-'] + r && '-' in val;
    assert Split(val, '-') == [l] + [r] == [l, r];
  }

  /** A range text adds the keys of exactly its addresses; the wrong way round it adds nothing. */
  lemma RangeTextMeaning(pad: seq<string>, lo: Address, hi: Address, a: Address)
    requires Pads(pad)
    ensures Dotted(a) in Names(ParseExclusion(RangeText(pad, lo, hi))) <==> lo <= a <= hi
    ensures lo > hi ==> Names(ParseExclusion(RangeText(pad, lo, hi))) == {}
  {
    hide Dotted, ParseIp, Trim, ParseExclusion;
    var p, q := pad[0] + Dotted(lo) + pad[1], pad[2] + Dotted(hi) + pad[3];
    DottedTrimmed(lo);
    DottedTrimmed(hi);
    forall s | s in pad ensures '-' !in s { BlanksHaveNoDash(s); }
    assert pad[0] in pad && pad[1] in pad && pad[2] in pad && pad[3] in pad;
    TrimPadded(pad[0], Dotted(lo), pad[1], GoSpace);
    TrimPadded(pad[2], Dotted(hi), pad[3], GoSpace);
    OneDash(p, q);
    NamesAreInterval(ParseExclusion(RangeText(pad, lo, hi)), a);
  }

  /** A range with an end that is no address adds nothing. */
  lemma BadRangeMeaning(p: string, q: string)
    requires '-' !in p && '-' !in q
    requires ParseIp(Trim(p, GoSpace)).None? || ParseIp(Trim(q, GoSpace)).None?
    ensures Names(ParseExclusion(p + ['-'] + q)) == {}
  {
    hide ParseIp, Trim, ParseExclusion;
    OneDash(p, q);
  }

  lemma {:induction false} SplitCount(s: string, sep: char)
    requires sep in s
    ensures |Split(s, sep)| >= 2
  {
    if s[0] != sep {
      assert s == [s[0]] + s[1..];
      SplitCount(s[1..], sep);
    }
  }

  /** A text with two dashes or more adds nothing. */
  lemma TwoDashesMeaning(p: string, q: string, r: string)
    requires '-' !in p
    ensures Names(ParseExclusion(p + ['-'] + (q + ['-'] + r))) == {}
  {
    hide TrimLeft, TrimRight, ParseIp, ParseCidr, Split;
    var rest := q + ['-'] + r;
    var l := TrimLeft(p, GoSpace);
    TrimDash(p, rest);
    TrimLeftNoDash(p);
    TrimRightNoDash(rest);
    assert rest[|q|] == '-';
    var tail := TrimRight(rest, GoSpace);
    SplitCount(tail, '-');
    SplitPrefix(l, tail, '-');
    var val := Trim(p + ['-'] + rest, GoSpace);
    assert val == l + ['-'] + tail && val[|l|] == '-';
  }

  /** A single address, with blanks around it, adds exactly itself. */
  lemma SingleTextMeaning(left: string, right: string, x: Address, a: Address)
    requires Blanks(left) && Blanks(right)
    ensures Dotted(a) in Names(ParseExclusion(left + Dotted(x) + right)) <==> a == x
  {
    hide Dotted, ParseIp, Trim;
    DottedTrimmed(x);
    TrimPadded(left, Dotted(x), right, GoSpace);
    NamesAreInterval(ParseExclusion(left + Dotted(x) + right), a);
  }

  /** No pod is given an address between the ends of a range among the network's VIPs, wrapped search or not. */
  lemma NoAllocationInVipRange(cluster: Cluster, netName: string, inUse: set<string>, i: nat, pad: seq<string>,
                               lo: Address, hi: Address)
    requires Allocate(cluster, netName, inUse).Ok?
    requires netName in cluster.networks && cluster.networks[netName].vips.Some?
    requires i < |cluster.networks[netName].vips.value| && Pads(pad)
    requires cluster.networks[netName].vips.value[i] == RangeText(pad, lo, hi)
    ensures !(lo <= Allocate(cluster, netName, inUse).value.address <= hi)
  {
    hide Allocate, Start, Broadcast, ParseIp, Dotted, NetworkOf, BroadcastOf, PrefixLength, RangeText, ParseExclusion;
    hide HostTexts, VipTexts, GatewayCidrTexts, PodsTexts, InUseTexts, FirstFree;
    var net, a := cluster.networks[netName], Allocate(cluster, netName, inUse).value.address;
    AllocatedIsFree(cluster, netName, inUse);
    if lo <= a <= hi { RangeIsAmongVips(net.vips.value, i, pad, lo, hi, a); }
  }

  lemma RangeIsAmongVips(vips: seq<string>, i: nat, pad: seq<string>, lo: Address, hi: Address, a: Address)
    requires i < |vips| && Pads(pad) && vips[i] == RangeText(pad, lo, hi) && lo <= a <= hi
    ensures Dotted(a) in VipTexts(vips)
  {
    hide Dotted, RangeText, ParseExclusion, Names, VipTexts;
    RangeTextMeaning(pad, lo, hi, a);
    NamesAreInterval(ParseExclusion(RangeText(pad, lo, hi)), a);
    VipTextsMeaning(vips, a);
    assert ParseExclusion(vips[i]).Has(a);
  }

  /** What is allocated is no key of the exclusion map. */
  lemma AllocatedIsFree(cluster: Cluster, netName: string, inUse: set<string>)
    requires Allocate(cluster, netName, inUse).Ok? && netName in cluster.networks
    ensures var net := cluster.networks[netName];
            net.vips.Some? ==> Dotted(Allocate(cluster, netName, inUse).value.address) !in VipTexts(net.vips.value)
  {
    hide Dotted, NetworkOf, BroadcastOf, FirstFree, ParseIp, PrefixLength, HostTexts, VipTexts, GatewayCidrTexts;
    hide PodsTexts, InUseTexts;
    var net := cluster.networks[netName];
    var gateway, p := ParseIp(net.gateway4).value, PrefixLength(net);
    FirstFreeIsLeast((NetworkOf(gateway, p) + 1) % SIZE, BroadcastOf(gateway, p),
                     Excluded(cluster, netName, net, gateway, inUse));
  }
}
