/**
  The IP filters of internal/config.go and internal/types.go.

  An address is the sixteen-byte number that net.ParseIP returns; an IPv4 address is the number in
  the block ::ffff:0:0/96. A network is a base address with its host bits cleared and the length of
  its prefix (section 3.1 of RFC 4632).
  */
module IpFilter {

  function Pow2(n: nat): (p: nat)
    ensures p >= 1
  {
    if n == 0 then 1 else 2 * Pow2(n - 1)
  }

  type Address = nat

  const MAPPED := 0xFFFF
  const TWO32 := 0x1_0000_0000

  /** `ip.To4() != nil`: the upper 96 bits are those of ::ffff:0:0. */
  predicate Is4(ip: Address) {
    ip / TWO32 == MAPPED
  }

  function V4Part(ip: Address): nat {
    ip % TWO32
  }

  const TWO128 := 0x1_0000_0000_0000_0000_0000_0000_0000_0000

  predicate ValidAddress(ip: Address) {
    ip < TWO128
  }

  /** A net.IPNet: a 4-byte or 16-byte base and the number of leading ones of its mask. */
  datatype IPNet = IPNet(v4: bool, base: nat, ones: nat) {
    function Bits(): nat {
      if v4 then 32 else 128
    }

    predicate Valid() {
      ones <= Bits() && base < Pow2(Bits()) && base % Size() == 0
    }

    /** How many numbers share the prefix. */
    function Size(): nat {
      if ones <= Bits() then Pow2(Bits() - ones) else 1
    }

    /**
      What networkNumberAndMask makes of the network, and so what IPNet.String prints: a 16-byte
      base inside ::ffff:0:0/96 is read as an IPv4 base with the last four bytes of the mask.
      */
    function Canonical(): IPNet {
      if !v4 && Is4(base) then
        IPNet(true, V4Part(base), if ones >= 96 then ones - 96 else 0)
      else
        this
    }

    /** IPNet.Contains: the address has the network's family and agrees with it under the mask. */
    predicate Contains(ip: Address) {
      var n := Canonical();
      if n.v4 then
        Is4(ip) && V4Part(ip) / n.Size() == n.base / n.Size()
      else
        !Is4(ip) && ip / n.Size() == n.base / n.Size()
    }
  }

  // ---------------------------------------------------------------- arithmetic of prefixes

  lemma {:induction false} Pow2Split(a: nat, b: nat)
    requires a <= b
    ensures Pow2(b) == Pow2(a) * Pow2(b - a)
    ensures Pow2(a) <= Pow2(b) && (a < b ==> 2 * Pow2(a) <= Pow2(b))
    ensures Pow2(b) % Pow2(a) == 0
  {
    if a == b {
      assert Pow2(a) % Pow2(a) == 0;
    } else {
      Pow2Split(a, b - 1);
      var p, q := Pow2(a), Pow2(b - 1 - a);
      assert Pow2(b) == p * (2 * q);
      MultipleOf(p, 2 * q);
    }
  }

  lemma Pow2Of32()
    ensures Pow2(32) == TWO32 && Pow2(33) == 2 * TWO32
    ensures Pow2(128) == TWO128
  {
    assert Pow2(8) == 256;
    Pow2Split(8, 16);
    Pow2Split(16, 32);
    Pow2Split(32, 64);
    Pow2Split(64, 128);
  }

  lemma MulStep(s: nat, a: int, b: int)
    requires a < b
    ensures s * a + s <= s * b
  {
    assert s * b == s * a + s * (b - a);
    assert s * (b - a) == s + s * (b - a - 1);
  }

  lemma MultipleOf(s: nat, k: nat)
    requires s > 0
    ensures (s * k) % s == 0 && (s * k) / s == k
  {
    var r := s * k;
    var q := r / s;
    assert r == s * q + r % s;
    if q < k {
      MulStep(s, q, k);
    } else if k < q {
      MulStep(s, k, q);
    }
  }

  /** Agreeing with an aligned base above the host bits is lying in its block. */
  lemma InBlock(x: nat, base: nat, s: nat)
    requires s > 0 && base % s == 0
    ensures x / s == base / s <==> base <= x < base + s
  {
    var k, q := base / s, x / s;
    assert base == s * k && x == s * q + x % s;
    if q < k {
      MulStep(s, q, k);
    } else if q > k {
      MulStep(s, k, q);
    }
  }

  /** Two multiples of `s` are at least `s` apart. */
  lemma Apart(a: nat, b: nat, s: nat)
    requires s > 0 && a % s == 0 && b % s == 0 && a < b
    ensures a + s <= b
  {
    var k, m := a / s, b / s;
    assert a == s * k && b == s * m;
    if m < k {
      MulStep(s, m, k);
    } else if k < m {
      MulStep(s, k, m);
    }
  }

  lemma MultiplesCompose(a: nat, s: nat, t: nat)
    requires s > 0 && t > 0 && t % s == 0 && a % t == 0
    ensures a % s == 0
  {
    var k, m := t / s, a / t;
    assert t == s * k && a == t * m;
    assert a == s * (k * m);
    MultipleOf(s, k * m);
  }

  lemma SumOfMultiples(a: nat, b: nat, s: nat)
    requires s > 0 && a % s == 0 && (a + b) % s == 0
    ensures b % s == 0
  {
    var k, m := a / s, (a + b) / s;
    assert a == s * k && a + b == s * m;
    if m < k {
      MulStep(s, m, k);
    } else {
      assert b == s * (m - k);
      MultipleOf(s, m - k);
    }
  }

  // ---------------------------------------------------------------- canonical form

  /** A 16-byte network whose base is mapped has a prefix of at least 96 bits. */
  lemma MappedPrefix(n: IPNet)
    requires n.Valid() && !n.v4 && Is4(n.base)
    ensures n.ones >= 96
  {
    var w := 128 - n.ones;
    if w > 32 {
      Pow2Of32();
      Pow2Split(33, w);
      MultiplesCompose(n.base, 2 * TWO32, Pow2(w));
    }
  }

  /** Canonical form is again a network, is stable, and of a 16-byte one the base is not mapped. */
  lemma CanonicalValid(n: IPNet)
    requires n.Valid()
    ensures n.Canonical().Valid()
    ensures n.Canonical().Canonical() == n.Canonical()
    ensures !n.Canonical().v4 ==> !Is4(n.Canonical().base)
  {
    if !n.v4 && Is4(n.base) {
      MappedCanonicalValid(n);
    }
  }

  lemma MappedCanonicalValid(n: IPNet)
    requires n.Valid() && !n.v4 && Is4(n.base)
    ensures n.Canonical().Valid() && n.Canonical().v4
  {
    MappedPrefix(n);
    Pow2Of32();
    Pow2Split(128 - n.ones, 32);
    MappedPart(n.base, n.Canonical().Size());
  }

  /** Blocks of at most 2^32 addresses are aligned on the IPv4 part exactly as on the whole address. */
  lemma MappedPart(base: Address, s: nat)
    requires Is4(base) && s > 0 && base % s == 0 && TWO32 % s == 0
    ensures V4Part(base) % s == 0
  {
    MultipleOf(TWO32, MAPPED);
    MultiplesCompose(TWO32 * MAPPED, s, TWO32);
    assert base == TWO32 * MAPPED + V4Part(base);
    SumOfMultiples(TWO32 * MAPPED, V4Part(base), s);
  }

  /** The number of `ip` that a network of the given family compares. */
  function Key(v4: bool, ip: Address): nat {
    if v4 then V4Part(ip) else ip
  }

  /** The address whose number in the family is `x`. */
  function FromKey(v4: bool, x: nat): Address {
    if v4 then TWO32 * MAPPED + x else x
  }

  /** A network holds the addresses of its family in one aligned block. */
  lemma ContainsIsBlock(n: IPNet, ip: Address)
    requires n.Valid()
    ensures var c := n.Canonical();
            n.Contains(ip) <==> Is4(ip) == c.v4 && c.base <= Key(c.v4, ip) < c.base + c.Size()
  {
    CanonicalValid(n);
    var c := n.Canonical();
    InBlock(Key(c.v4, ip), c.base, c.Size());
  }

  /** In numbers: an IPv4 network holds the addresses from ::ffff:base on, as many as share its prefix. */
  lemma V4Holds(n: IPNet, ip: Address)
    requires n.Valid() && n.v4
    ensures n.Contains(ip) <==> 0xFFFF_0000_0000 + n.base <= ip < 0xFFFF_0000_0000 + n.base + Pow2(32 - n.ones)
  {
    ContainsIsBlock(n, ip);
    BlockInside(n);
  }

  lemma BlockInside(n: IPNet)
    requires n.Valid() && n.v4
    ensures n.base + Pow2(32 - n.ones) <= 0x1_0000_0000
  {
    Pow2Of32();
    Pow2Split(32 - n.ones, 32);
    if n.base > 0 || Pow2(32 - n.ones) < Pow2(32) {
      Apart(n.base, Pow2(32), Pow2(32 - n.ones));
    }
  }

  /** An IPv6 network whose base is no IPv4 address holds its block without the IPv4 addresses in it. */
  lemma V6Holds(n: IPNet, ip: Address)
    requires n.Valid() && !n.v4 && !(0xFFFF_0000_0000 <= n.base < 0x1_0000_0000_0000)
    ensures n.Contains(ip) <==>
              n.base <= ip < n.base + Pow2(128 - n.ones) && !(0xFFFF_0000_0000 <= ip < 0x1_0000_0000_0000)
  {
    ContainsIsBlock(n, ip);
  }

  /** And one whose base is an IPv4 address holds the addresses of its block, which are all IPv4 ones. */
  lemma MappedHolds(n: IPNet, ip: Address)
    requires n.Valid() && !n.v4 && 0xFFFF_0000_0000 <= n.base < 0x1_0000_0000_0000
    ensures n.Contains(ip) <==> n.base <= ip < n.base + Pow2(128 - n.ones)
  {
    MappedNumbers(n);
    CanonicalValid(n);
    V4Holds(n.Canonical(), ip);
  }

  /** Its canonical form is an IPv4 network of as many addresses. */
  lemma MappedNumbers(n: IPNet)
    requires n.Valid() && !n.v4 && 0xFFFF_0000_0000 <= n.base < 0x1_0000_0000_0000
    ensures var c := n.Canonical();
            c.v4 && n.base == 0xFFFF_0000_0000 + c.base && 32 - c.ones == 128 - n.ones
  {
    MappedPrefix(n);
  }

  /** The one pair of networks that differ only in IPv4 addresses, which neither accepts. */
  predicate Indistinct(a: IPNet, b: IPNet) {
    && !a.v4 && !b.v4
    && a.base == 0xFFFE * TWO32 == b.base
    && {a.ones, b.ones} == {95, 96}
  }

  /** Neither member of the exceptional pair accepts an address that the other does not. */
  lemma IndistinctAgree(a: IPNet, b: IPNet, ip: Address)
    requires a.Valid() && b.Valid() && Indistinct(a, b)
    ensures a.Contains(ip) == b.Contains(ip)
  {
    Pow2Of32();
    ContainsIsBlock(a, ip);
    ContainsIsBlock(b, ip);
  }

  lemma FromKeyIs(v4: bool, x: nat)
    requires x < Pow2(if v4 then 32 else 128) && (!v4 ==> !Is4(x))
    ensures var ip := FromKey(v4, x);
            ValidAddress(ip) && Is4(ip) == v4 && Key(v4, ip) == x
  {
    Pow2Of32();
  }

  /** Two different canonical networks outside that pair disagree on an address. */
  lemma Distinguish(a: IPNet, b: IPNet) returns (ip: Address)
    requires a.Valid() && b.Valid()
    requires a.Canonical() != b.Canonical() && !Indistinct(a.Canonical(), b.Canonical())
    ensures ValidAddress(ip) && a.Contains(ip) != b.Contains(ip)
  {
    var c, d := a.Canonical(), b.Canonical();
    CanonicalValid(a);
    CanonicalValid(b);
    var x, v4 := c.base, c.v4;
    if c.v4 == d.v4 {
      if c.base == d.base {
        x := DistinguishSizes(c, d);
      } else if d.base <= c.base < d.base + d.Size() {
        x := d.base;
      }
    }
    FromKeyIs(v4, x);
    ip := FromKey(v4, x);
    ContainsIsBlock(a, ip);
    ContainsIsBlock(b, ip);
  }

  lemma DistinguishSizes(c: IPNet, d: IPNet) returns (x: nat)
    requires c.Valid() && d.Valid() && c.v4 == d.v4 && c.base == d.base && c.ones != d.ones
    requires (!c.v4 ==> !Is4(c.base)) && !Indistinct(c, d)
    ensures x < Pow2(c.Bits()) && (!c.v4 ==> !Is4(x))
    ensures (c.base <= x < c.base + c.Size()) != (c.base <= x < c.base + d.Size())
  {
    var v, w := c.Bits() - c.ones, c.Bits() - d.ones;
    if v < w {
      x := LongerBlock(c.v4, c.base, v, w);
    } else {
      x := LongerBlock(c.v4, c.base, w, v);
    }
  }

  /** Of two blocks with one base, the larger has a number the smaller lacks and is not mapped. */
  lemma LongerBlock(v4: bool, base: nat, v: nat, w: nat) returns (x: nat)
    requires var bits := if v4 then 32 else 128;
             v < w <= bits && base < Pow2(bits)
    requires base % Pow2(w) == 0 && (!v4 ==> !Is4(base))
    requires !(!v4 && base == 0xFFFE * TWO32 && v == 32 && w == 33)
    ensures x < Pow2(if v4 then 32 else 128) && (!v4 ==> !Is4(x))
    ensures base + Pow2(v) <= x < base + Pow2(w)
  {
    var bits := if v4 then 32 else 128;
    Pow2Split(v, w);
    Pow2Split(w, bits);
    Apart(base, Pow2(bits), Pow2(w));
    x := base + Pow2(w) - 1;
    if !v4 && Is4(x) {
      x := base + Pow2(v);
      if Is4(x) {
        OnlyPair(base, v, w);
      }
    }
  }

  /** What the larger block has beyond the smaller can be all of ::ffff:0:0/96 in one way only. */
  lemma OnlyPair(base: nat, v: nat, w: nat)
    requires v < w && base % Pow2(w) == 0 && !Is4(base)
    requires Is4(base + Pow2(v)) && Is4(base + Pow2(w) - 1)
    ensures base == 0xFFFE * TWO32 && v == 32 && w == 33
  {
    Pow2Split(v, w);
    Is4Range(base);
    Is4Range(base + Pow2(v));
    Is4Range(base + Pow2(w) - 1);
    OnlyPairIn(base, v, w);
  }

  lemma OnlyPairIn(base: nat, v: nat, w: nat)
    requires v < w && base % Pow2(w) == 0
    requires base < MAPPED * TWO32 <= base + Pow2(v) && base + Pow2(w) <= (MAPPED + 1) * TWO32
    ensures base == 0xFFFE * TWO32 && v == 32 && w == 33
  {
    Pow2Of32();
    Pow2Split(v, w);
    if w <= 32 {
      SmallBlock(base, w);
    } else if w > 33 {
      Pow2Split(34, w);
    } else {
      LastPair(base, v);
    }
  }

  lemma LastPair(base: nat, v: nat)
    requires v <= 32 && base % Pow2(33) == 0
    requires base < MAPPED * TWO32 <= base + Pow2(v) && base + Pow2(33) <= (MAPPED + 1) * TWO32
    ensures base == 0xFFFE * TWO32 && v == 32
  {
    Pow2Of32();
    Pow2Split(v, 32);
    NextBlock(base);
  }

  lemma NextBlock(base: nat)
    requires base % (2 * TWO32) == 0 && base < MAPPED * TWO32 <= base + TWO32
    ensures base == 0xFFFE * TWO32
  {
  }

  lemma Is4Range(ip: Address)
    ensures Is4(ip) <==> MAPPED * TWO32 <= ip < MAPPED * TWO32 + TWO32
  {
  }

  /** An aligned block of at most 2^32 addresses does not reach into ::ffff:0:0/96 from below. */
  lemma SmallBlock(base: nat, w: nat)
    requires w <= 32 && base % Pow2(w) == 0 && base < MAPPED * TWO32
    ensures base + Pow2(w) <= MAPPED * TWO32
  {
    Pow2Of32();
    Pow2Split(w, 32);
    MultipleOf(TWO32, MAPPED);
    MultiplesCompose(MAPPED * TWO32, Pow2(w), TWO32);
    Apart(base, MAPPED * TWO32, Pow2(w));
  }

  /**
    Two networks have one canonical form exactly when they accept the same addresses, except that
    ::fffe:0:0/95 and ::fffe:0:0/96 also accept the same addresses.
    */
  lemma CanonicalIsSemantic(a: IPNet, b: IPNet)
    requires a.Valid() && b.Valid()
    ensures (forall ip: Address | ValidAddress(ip) :: a.Contains(ip) == b.Contains(ip))
       <==> a.Canonical() == b.Canonical() || Indistinct(a.Canonical(), b.Canonical())
  {
    CanonicalValid(a);
    CanonicalValid(b);
    if a.Canonical() == b.Canonical() {
    } else if Indistinct(a.Canonical(), b.Canonical()) {
      forall ip: Address | ValidAddress(ip)
        ensures a.Contains(ip) == b.Contains(ip)
      {
        IndistinctAgree(a.Canonical(), b.Canonical(), ip);
      }
    } else {
      var ip := Distinguish(a, b);
    }
  }
}
