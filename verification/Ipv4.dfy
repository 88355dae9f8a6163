/**
  IPv4 addresses as 32-bit numbers, their dotted decimal text, CIDR masks and
  blocks (ipToUint32, uint32ToIP and the net package calls around them).
*/
module Ipv4 {
  import opened Wrappers
  import opened Text

  const SIZE: nat := 0x1_0000_0000

  /** A uint32. */
  type Address = n: int | 0 <= n < SIZE

  // ---------------------------------------------------------------- dotted decimal

  function Octet(a: Address, i: nat): (o: nat)
    requires i < 4
    ensures o < 256
  {
    if i == 0 then a / 256 / 256 / 256
    else if i == 1 then a / 256 / 256 % 256
    else if i == 2 then a / 256 % 256
    else a % 256
  }

  function FromOctets(o0: nat, o1: nat, o2: nat, o3: nat): Address
    requires o0 < 256 && o1 < 256 && o2 < 256 && o3 < 256
  {
    256 * (256 * (256 * o0 + o1) + o2) + o3
  }

  function Fields(a: Address): (f: seq<string>)
    ensures |f| == 4
  {
    [Decimal(Octet(a, 0)), Decimal(Octet(a, 1)), Decimal(Octet(a, 2)), Decimal(Octet(a, 3))]
  }

  /** uint32ToIP(a).String(). */
  function Dotted(a: Address): string {
    Join(Fields(a), '.')
  }

  predicate IsOctet(s: string) {
    Canonical(s) && Value(s) < 256
  }

  /** Four octets without leading zeros, as net.ParseIP wants them. */
  function ParseDotted(s: string): Option<Address> {
    var f := Split(s, '.');
    if |f| == 4 && IsOctet(f[0]) && IsOctet(f[1]) && IsOctet(f[2]) && IsOctet(f[3]) then
      Some(FromOctets(Value(f[0]), Value(f[1]), Value(f[2]), Value(f[3])))
    else
      None
  }

  lemma OctetsRoundTrip(a: Address)
    ensures FromOctets(Octet(a, 0), Octet(a, 1), Octet(a, 2), Octet(a, 3)) == a
  {
  }

  lemma FromOctetsRoundTrip(o0: nat, o1: nat, o2: nat, o3: nat)
    requires o0 < 256 && o1 < 256 && o2 < 256 && o3 < 256
    ensures var a := FromOctets(o0, o1, o2, o3);
            Octet(a, 0) == o0 && Octet(a, 1) == o1 && Octet(a, 2) == o2 && Octet(a, 3) == o3
  {
    var a := FromOctets(o0, o1, o2, o3);
    assert a / 256 == 256 * (256 * o0 + o1) + o2;
    assert a / 256 / 256 == 256 * o0 + o1;
  }

  lemma FieldsAreOctets(a: Address)
    ensures forall f :: f in Fields(a) ==> IsOctet(f) && '.' !in f
    ensures forall i: nat :: i < 4 ==> Value(Fields(a)[i]) == Octet(a, i)
  {
    DecimalValue(Octet(a, 0));
    DecimalValue(Octet(a, 1));
    DecimalValue(Octet(a, 2));
    DecimalValue(Octet(a, 3));
  }

  /** Parsing undoes printing. */
  lemma ParsePrinted(a: Address)
    ensures ParseDotted(Dotted(a)) == Some(a)
  {
    FieldsAreOctets(a);
    SplitJoin(Fields(a), '.');
    var f := Fields(a);
    assert f[0] in f && f[1] in f && f[2] in f && f[3] in f;
    OctetsRoundTrip(a);
  }

  /** Printing undoes parsing: only the canonical text of an address parses. */
  lemma PrintParsed(s: string)
    requires ParseDotted(s).Some?
    ensures Dotted(ParseDotted(s).value) == s
  {
    var f := Split(s, '.');
    ValueDecimal(f[0]);
    ValueDecimal(f[1]);
    ValueDecimal(f[2]);
    ValueDecimal(f[3]);
    FromOctetsRoundTrip(Value(f[0]), Value(f[1]), Value(f[2]), Value(f[3]));
    assert f == [f[0], f[1], f[2], f[3]];
    assert Fields(ParseDotted(s).value) == f;
    JoinSplit(s, '.');
  }

  lemma DottedInjective(a: Address, b: Address)
    requires Dotted(a) == Dotted(b)
    ensures a == b
  {
    ParsePrinted(a);
    ParsePrinted(b);
  }

  predicate AddressChar(c: char) { IsDigit(c) || c == '.' }

  lemma DottedChars(a: Address)
    ensures Dotted(a) != []
    ensures forall c :: c in Dotted(a) ==> AddressChar(c)
  {
    var f := Fields(a);
    JoinChars(f);
    assert Dotted(a) == f[0] + ['.'] + Join(f[1..], '.');
  }

  lemma {:induction false} JoinChars(parts: seq<string>)
    requires |parts| >= 1 && forall p :: p in parts ==> AllDigits(p)
    ensures forall c :: c in Join(parts, '.') ==> AddressChar(c)
  {
    if |parts| == 1 {
      assert parts[0] in parts;
    } else {
      JoinChars(parts[1..]);
      assert parts[0] in parts;
    }
  }

  /** net.ParseIP(s).To4(): plain dotted decimal, or the same text mapped into IPv6. */
  const MAPPED: string := "::ffff:"

  function ParseIp(s: string): Option<Address> {
    if MAPPED <= s then ParseDotted(s[|MAPPED|..]) else ParseDotted(s)
  }

  lemma ParseIpPlain(s: string)
    requires ParseDotted(s).Some?
    ensures ParseIp(s) == ParseDotted(s)
  {
    PrintParsed(s);
    DottedChars(ParseDotted(s).value);
    assert s[0] in s && !AddressChar(MAPPED[0]);
  }

  // ---------------------------------------------------------------- masks

  function Pow2(n: nat): (r: nat)
    ensures r >= 1
  {
    if n == 0 then 1 else 2 * Pow2(n - 1)
  }

  /** Bitwise and, or on the low `bits` bits. */
  function And(a: nat, b: nat, bits: nat): nat {
    if bits == 0 then 0
    else 2 * And(a / 2, b / 2, bits - 1) + (if a % 2 == 1 && b % 2 == 1 then 1 else 0)
  }

  function Or(a: nat, b: nat, bits: nat): nat {
    if bits == 0 then 0
    else 2 * Or(a / 2, b / 2, bits - 1) + (if a % 2 == 1 || b % 2 == 1 then 1 else 0)
  }

  function Not(a: Address): Address { SIZE - 1 - a }

  lemma Pow2Size()
    ensures Pow2(32) == SIZE
  {
    assert Pow2(4) == 16;
    assert Pow2(8) == 16 * Pow2(4);
    assert Pow2(12) == 16 * Pow2(8);
    assert Pow2(16) == 16 * Pow2(12);
    assert Pow2(20) == 16 * Pow2(16);
    assert Pow2(24) == 16 * Pow2(20);
    assert Pow2(28) == 16 * Pow2(24);
    assert Pow2(32) == 16 * Pow2(28);
  }

  lemma {:induction false} Pow2Monotone(a: nat, b: nat)
    requires a <= b
    ensures Pow2(a) <= Pow2(b)
  {
    if a < b { Pow2Monotone(a, b - 1); }
  }

  /** The mask of a `prefix`-bit network: net.CIDRMask(prefix, 32). */
  function CidrMask(prefix: nat): Address
    requires prefix <= 32
  {
    Pow2Size();
    Pow2Monotone(32 - prefix, 32);
    SIZE - Pow2(32 - prefix)
  }

  /** The host part of `a` in blocks of `m` addresses. */
  function Low(a: nat, m: nat): (r: nat)
    requires m >= 1
    ensures r <= a && r < m
  {
    a % m
  }

  lemma LowOfOne(a: nat)
    ensures Low(a, 1) == 0
  {
  }

  lemma HalveMod(a: nat, m: nat)
    requires m >= 1
    ensures Low(a, 2 * m) == 2 * Low(a / 2, m) + a % 2
  {
    var q, r := a / 2 / m, a / 2 % m;
    assert a / 2 == m * q + r;
    DivModUnique(a, 2 * m, q, 2 * r + a % 2);
  }

  lemma DivModUnique(x: int, d: int, q: int, r: int)
    requires d > 0 && 0 <= r < d && x == d * q + r
    ensures x / d == q && x % d == r
  {
    var k := x / d - q;
    assert x == d * (x / d) + x % d;
    assert d * k == d * (x / d) - d * q;
    assert d * k == r - x % d;
    assert d * -k == -(d * k);
    if k >= 1 {
      MulMonotone(d, 1, k);
    } else if k <= -1 {
      MulMonotone(d, 1, -k);
    }
  }

  lemma AndEven(a: nat, k: nat, bits: nat)
    requires bits > 0
    ensures And(a, 2 * k, bits) == 2 * And(a / 2, k, bits - 1)
  {
  }

  lemma {:induction false} AndOnes(a: nat, n: nat)
    requires a < Pow2(n)
    ensures And(a, Pow2(n) - 1, n) == a
  {
    if n > 0 {
      var k := Pow2(n - 1) - 1;
      AndOnes(a / 2, n - 1);
      assert Pow2(n) - 1 == 2 * k + 1 && (2 * k + 1) / 2 == k && (2 * k + 1) % 2 == 1;
    }
  }

  lemma {:induction false} OrZero(a: nat, n: nat)
    requires a < Pow2(n)
    ensures Or(a, 0, n) == a
  {
    if n > 0 { OrZero(a / 2, n - 1); }
  }

  lemma OrOdd(a: nat, k: nat, bits: nat)
    requires bits > 0
    ensures Or(a, 2 * k + 1, bits) == 2 * Or(a / 2, k, bits - 1) + 1
  {
    assert (2 * k + 1) / 2 == k && (2 * k + 1) % 2 == 1;
  }

  /** One bit of AndMask and OrMask, for blocks of `m` in a range of `p` addresses. */
  lemma AndMaskStep(a: nat, p: nat, m: nat, bits: nat)
    requires bits > 0 && 1 <= m <= p
    requires And(a / 2, p - m, bits - 1) == a / 2 - Low(a / 2, m)
    ensures And(a, 2 * (p - m), bits) == a - Low(a, 2 * m)
  {
    hide And, Low;
    HalveMod(a, m);
    AndEven(a, p - m, bits);
  }

  lemma OrMaskStep(a: nat, m: nat, bits: nat)
    requires bits > 0 && 1 <= m
    requires Or(a / 2, m - 1, bits - 1) == a / 2 - Low(a / 2, m) + m - 1
    ensures Or(a, 2 * (m - 1) + 1, bits) == a - Low(a, 2 * m) + 2 * m - 1
  {
    hide Or, Low;
    HalveMod(a, m);
    OrOdd(a, m - 1, bits);
  }

  /** And-ing with ones over `h` zeros clears the host bits. */
  lemma {:induction false} AndMask(a: nat, n: nat, h: nat)
    requires h <= n && a < Pow2(n)
    ensures Pow2(h) <= Pow2(n)
    ensures And(a, Pow2(n) - Pow2(h), n) == a - Low(a, Pow2(h))
  {
    hide And, Low;
    Pow2Monotone(h, n);
    if h == 0 {
      AndOnes(a, n);
      LowOfOne(a);
    } else {
      var p, m := Pow2(n - 1), Pow2(h - 1);
      AndMask(a / 2, n - 1, h - 1);
      AndMaskStep(a, p, m, n);
      assert Pow2(n) - Pow2(h) == 2 * (p - m);
    }
  }

  /** Or-ing with `h` ones sets the host bits. */
  lemma {:induction false} OrMask(a: nat, n: nat, h: nat)
    requires h <= n && a < Pow2(n)
    ensures Or(a, Pow2(h) - 1, n) == a - Low(a, Pow2(h)) + Pow2(h) - 1
  {
    hide Or, Low;
    if h == 0 {
      OrZero(a, n);
      LowOfOne(a);
    } else {
      var m := Pow2(h - 1);
      OrMask(a / 2, n - 1, h - 1);
      OrMaskStep(a, m, n);
      assert Pow2(h) - 1 == 2 * (m - 1) + 1;
    }
  }

  lemma NetworkInRange(a: Address, prefix: nat)
    requires prefix <= 32
    ensures And(a, CidrMask(prefix), 32) == a - Low(a, Pow2(32 - prefix)) < SIZE
  {
    hide Pow2, And;
    Pow2Size();
    AndMask(a, 32, 32 - prefix);
  }

  /** ip & mask. */
  function NetworkOf(a: Address, prefix: nat): Address
    requires prefix <= 32
  {
    NetworkInRange(a, prefix);
    And(a, CidrMask(prefix), 32)
  }

  /** network | ^mask. */
  function BroadcastOf(a: Address, prefix: nat): Address
    requires prefix <= 32
  {
    SubnetFacts(a, prefix);
    Or(NetworkOf(a, prefix), Not(CidrMask(prefix)), 32)
  }

  lemma SubnetFacts(a: Address, prefix: nat)
    requires prefix <= 32
    ensures var h := Pow2(32 - prefix);
            && NetworkOf(a, prefix) == a - Low(a, h)
            && Or(NetworkOf(a, prefix), Not(CidrMask(prefix)), 32) == a - Low(a, h) + h - 1 < SIZE
  {
    hide Pow2, And, Or, Low;
    var h := Pow2(32 - prefix);
    Pow2Size();
    NetworkInRange(a, prefix);
    var net := NetworkOf(a, prefix);
    AlignedMod(a, h);
    OrMask(net, 32, 32 - prefix);
    AlignedBelow(a, prefix);
  }

  lemma AlignedMod(a: nat, h: nat)
    requires h >= 1
    ensures Low(a - Low(a, h), h) == 0
  {
    DivModUnique(a - a % h, h, a / h, 0);
  }

  /** The block of an address ends within the address space. */
  lemma AlignedBelow(a: Address, prefix: nat)
    requires prefix <= 32
    ensures a - Low(a, Pow2(32 - prefix)) + Pow2(32 - prefix) <= SIZE
  {
    var h, k := Pow2(32 - prefix), Pow2(prefix);
    Pow2Size();
    Pow2Sum(32 - prefix, prefix);
    BlockEnd(a, h, k);
  }

  lemma BlockEnd(a: nat, h: nat, k: nat)
    requires h >= 1 && a < h * k
    ensures a - a % h + h <= h * k
  {
    var q := a / h;
    assert a == h * q + a % h;
    if q >= k {
      MulMonotone(h, k, q);
    } else {
      MulMonotone(h, q + 1, k);
      assert h * (q + 1) == h * q + h;
    }
  }

  lemma MulMonotone(h: nat, a: nat, b: nat)
    requires a <= b
    ensures h * a <= h * b
  {
  }

  lemma {:induction false} Pow2Sum(a: nat, b: nat)
    ensures Pow2(a + b) == Pow2(a) * Pow2(b)
  {
    if a > 0 {
      Pow2Sum(a - 1, b);
    }
  }

  lemma BroadcastUnfolds(a: Address, prefix: nat)
    requires prefix <= 32
    ensures BroadcastOf(a, prefix) == Or(NetworkOf(a, prefix), Not(CidrMask(prefix)), 32)
  {
  }

  /** The block of `2^(32-prefix)` addresses around `a`: aligned, and ending at its broadcast address. */
  lemma SubnetShape(a: Address, prefix: nat)
    requires prefix <= 32
    ensures NetworkOf(a, prefix) <= a <= BroadcastOf(a, prefix)
    ensures BroadcastOf(a, prefix) - NetworkOf(a, prefix) == Pow2(32 - prefix) - 1
    ensures NetworkOf(a, prefix) % Pow2(32 - prefix) == 0
  {
    hide Pow2, And, Or, NetworkOf, BroadcastOf;
    BroadcastUnfolds(a, prefix);
    SubnetFacts(a, prefix);
    AlignedMod(a, Pow2(32 - prefix));
  }

  // ---------------------------------------------------------------- CIDR text

  /** An IPv4 block. `mapped`: its text was the IPv4-mapped form, and its mask has sixteen bytes. */
  datatype Cidr = Cidr(address: Address, prefix: nat, mapped: bool)

  /** Bits of an IPv6 address in front of a mapped IPv4 address. */
  const MAPPED_BITS: nat := 96

  predicate IsNumber(s: string) {
    s != [] && AllDigits(s)
  }

  /** net.ParseCIDR, when the network address it returns has four bytes: a mapped block must leave the leading
      bits alone. */
  function ParseCidr(s: string): (r: Option<Cidr>)
    ensures r.Some? ==> r.value.prefix <= 32
  {
    var parts := Split(s, '/');
    if |parts| == 2 && ParseIp(parts[0]).Some? && IsNumber(parts[1]) then
      var mapped := MAPPED <= parts[0];
      var from, bits := if mapped then MAPPED_BITS else 0, Value(parts[1]);
      if from <= bits <= from + 32 then Some(Cidr(ParseIp(parts[0]).value, bits - from, mapped)) else None
    else
      None
  }

  /** The first four bytes of the mask: those of an IPv6 mask over a mapped block are all ones. */
  function LeadingMask(c: Cidr): Address
    requires c.prefix <= 32
  {
    if c.mapped then SIZE - 1 else CidrMask(c.prefix)
  }

  /** network | ^mask, as it is computed from those four bytes. */
  function CidrEnd(c: Cidr): (e: Address)
    requires c.prefix <= 32
    ensures e == if c.mapped then NetworkOf(c.address, c.prefix) else BroadcastOf(c.address, c.prefix)
  {
    var start := NetworkOf(c.address, c.prefix);
    Pow2Size();
    OrZero(start, 32);
    BroadcastUnfolds(c.address, c.prefix);
    Or(start, Not(LeadingMask(c)), 32)
  }

  predicate CidrChar(c: char) { AddressChar(c) || c == '/' || c == ':' || c == 'f' }

  lemma IpChars(s: string)
    requires ParseIp(s).Some?
    ensures s != [] && forall c :: c in s ==> CidrChar(c) && c != '/'
    ensures ':' in s <==> MAPPED <= s
  {
    var plain := if MAPPED <= s then s[|MAPPED|..] else s;
    PrintParsed(plain);
    DottedChars(ParseDotted(plain).value);
    if MAPPED <= s {
      assert s[0] == MAPPED[0] == ':';
      assert s == MAPPED + plain;
      assert forall c :: c in MAPPED ==> c == ':' || c == 'f';
    }
  }

  /** CIDR text has no white space and no dash in it, and a colon exactly in the mapped form. */
  lemma ParseCidrChars(s: string)
    requires ParseCidr(s).Some?
    ensures s != [] && forall c :: c in s ==> CidrChar(c)
    ensures '/' in s
    ensures ':' in s <==> ParseCidr(s).value.mapped
  {
    hide ParseIp, Split;
    var parts := Split(s, '/');
    IpChars(parts[0]);
    JoinSplit(s, '/');
    assert s == parts[0] + ['/'] + parts[1..][0];
    assert forall c :: c in parts[1] ==> IsDigit(c);
  }

  function CidrText(a: Address, prefix: nat): string {
    Dotted(a) + ['/'] + Decimal(prefix)
  }

  function MappedCidrText(a: Address, prefix: nat): string {
    MAPPED + CidrText(a, MAPPED_BITS + prefix)
  }

  lemma CidrTextSplits(front: string, a: Address, prefix: nat)
    requires '/' !in front
    ensures Split(front + CidrText(a, prefix), '/') == [front + Dotted(a), Decimal(prefix)]
  {
    hide Dotted, Decimal, Split;
    DottedChars(a);
    assert '/' !in Dotted(a) && '/' !in Decimal(prefix);
    SplitPrefix(front + Dotted(a), Decimal(prefix), '/');
    SplitNoSep(Decimal(prefix), '/');
    assert front + CidrText(a, prefix) == (front + Dotted(a)) + ['/'] + Decimal(prefix);
  }

  /** Parsing undoes printing for CIDR text too. */
  lemma ParsePrintedCidr(a: Address, prefix: nat)
    requires prefix <= 32
    ensures ParseCidr(CidrText(a, prefix)) == Some(Cidr(a, prefix, false))
  {
    hide Dotted, Decimal, Split, ParseDotted, ParseIp, Value;
    CidrTextSplits([], a, prefix);
    assert [] + CidrText(a, prefix) == CidrText(a, prefix) && [] + Dotted(a) == Dotted(a);
    ParsePrinted(a);
    ParseIpPlain(Dotted(a));
    IpChars(Dotted(a));
    DottedChars(a);
    assert !AddressChar(':');
    DecimalValue(prefix);
  }

  lemma ParseIpMapped(a: Address)
    ensures MAPPED <= MAPPED + Dotted(a) && ParseIp(MAPPED + Dotted(a)) == Some(a)
  {
    hide Dotted, ParseDotted;
    assert (MAPPED + Dotted(a))[|MAPPED|..] == Dotted(a);
    ParsePrinted(a);
  }

  /** And for the mapped form, whose prefix counts the bits in front. */
  lemma ParsePrintedMappedCidr(a: Address, prefix: nat)
    requires prefix <= 32
    ensures ParseCidr(MappedCidrText(a, prefix)) == Some(Cidr(a, prefix, true))
  {
    hide Dotted, Decimal, Split, ParseDotted, ParseIp, Value;
    assert '/' !in MAPPED;
    CidrTextSplits(MAPPED, a, MAPPED_BITS + prefix);
    ParseIpMapped(a);
    DecimalValue(MAPPED_BITS + prefix);
  }
}
