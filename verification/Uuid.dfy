/** The UUIDs of pkg/unique/random.go: their layout (section 5 of RFC 9562), and the order of version 7. */
module Uuid {
  import opened Wrappers

  const TIME_LIMIT := 0x1_0000_0000_0000  // 48 bits of milliseconds

  // ---------------------------------------------------------------- numbers and digits

  /** The last `n` bytes of the number, most significant first. */
  function BigEndian(v: nat, n: nat): (bs: seq<byte>)
    ensures |bs| == n
  {
    if n == 0 then [] else BigEndian(v / 256, n - 1) + [(v % 256) as byte]
  }

  function Number(bs: seq<byte>): nat {
    if |bs| == 0 then 0 else 256 * Number(bs[..|bs| - 1]) + bs[|bs| - 1] as nat
  }

  function Digit(d: nat): char
    requires d < 16
  {
    if d < 10 then '0' + d as char else 'a' + (d - 10) as char
  }

  function DigitValue(c: char): int {
    if c < 'a' then c as int - '0' as int else c as int - 'a' as int + 10
  }

  function Hex(bs: seq<byte>): (s: string)
    ensures |s| == 2 * |bs|
  {
    if |bs| == 0 then ""
    else
      var b := bs[|bs| - 1] as nat;
      Hex(bs[..|bs| - 1]) + [Digit(b / 16), Digit(b % 16)]
  }

  lemma {:induction false} HexAt(bs: seq<byte>, k: nat)
    requires k < |bs|
    ensures Hex(bs)[2 * k] == Digit(bs[k] as nat / 16) && Hex(bs)[2 * k + 1] == Digit(bs[k] as nat % 16)
  {
    if k < |bs| - 1 {
      HexAt(bs[..|bs| - 1], k);
    }
  }

  function HexNumber(s: string): int {
    if |s| == 0 then 0 else 16 * HexNumber(s[..|s| - 1]) + DigitValue(s[|s| - 1])
  }

  lemma {:induction false} NumberOfBigEndian(v: nat, n: nat, bound: nat)
    requires bound == Power(n) && v < bound
    ensures Number(BigEndian(v, n)) == v
  {
    if n > 0 {
      NumberOfBigEndian(v / 256, n - 1, Power(n - 1));
      assert BigEndian(v, n)[..n - 1] == BigEndian(v / 256, n - 1);
    }
  }

  function Power(n: nat): nat {
    if n == 0 then 1 else 256 * Power(n - 1)
  }

  lemma {:induction false} HexNumberOfHex(bs: seq<byte>)
    ensures HexNumber(Hex(bs)) == Number(bs)
  {
    if |bs| > 0 {
      var init, b := bs[..|bs| - 1], bs[|bs| - 1] as nat;
      HexNumberOfHex(init);
      var s := Hex(bs);
      assert s[..|s| - 1][..|s| - 2] == Hex(init);
      DigitRead(b / 16);
      DigitRead(b % 16);
      calc {
        HexNumber(s);
        16 * HexNumber(s[..|s| - 1]) + b % 16;
        16 * (16 * HexNumber(Hex(init)) + b / 16) + b % 16;
        Number(bs);
      }
    }
  }

  lemma DigitRead(d: nat)
    requires d < 16
    ensures DigitValue(Digit(d)) == d
  {
  }

  /** Of two byte strings of one length the smaller number has the smaller byte where they first differ. */
  lemma {:induction false} SmallerDiffers(a: seq<byte>, b: seq<byte>) returns (k: nat)
    requires |a| == |b| && Number(a) < Number(b)
    ensures k < |a| && a[..k] == b[..k] && a[k] < b[k]
  {
    var n := |a| - 1;
    if Number(a[..n]) < Number(b[..n]) {
      k := SmallerDiffers(a[..n], b[..n]);
      assert a[..k] == a[..n][..k] && b[..k] == b[..n][..k];
    } else {
      SameNumber(a[..n], b[..n]);
      k := n;
    }
  }

  lemma {:induction false} SameNumber(a: seq<byte>, b: seq<byte>)
    requires |a| == |b| && Number(a) == Number(b)
    ensures a == b
  {
    if |a| > 0 {
      var n := |a| - 1;
      SameNumber(a[..n], b[..n]);
      assert a == a[..n] + [a[n]] && b == b[..n] + [b[n]];
    }
  }

  // ---------------------------------------------------------------- layout

  type Octets = bs: seq<byte> | |bs| == 16 witness seq(16, _ => 0)

  function Format(u: Octets): string {
    Hex(u[0..4]) + "-" + Hex(u[4..6]) + "-" + Hex(u[6..8]) + "-" + Hex(u[8..10]) + "-" + Hex(u[10..16])
  }

  /** The version in the high half of octet 6, the variant 10 in the two high bits of octet 8. */
  function Stamped(version: nat, u: Octets): Octets
    requires version < 16
  {
    u[6 := (16 * version + u[6] as nat % 16) as byte][8 := (0x80 + u[8] as nat % 64) as byte]
  }

  function TimeOctets(now: nat, random: seq<byte>): Octets
    requires |random| == 10
  {
    BigEndian(now, 6) + random
  }

  method FormatOctets(uuid: array<byte>) returns (s: string)
    requires uuid.Length == 16
    ensures s == Format(uuid[..])
  {
    assert uuid[..][0..4] == uuid[0..4] && uuid[..][4..6] == uuid[4..6] && uuid[..][6..8] == uuid[6..8]
        && uuid[..][8..10] == uuid[8..10] && uuid[..][10..16] == uuid[10..16];
    s := Hex(uuid[0..4]) + "-" + Hex(uuid[4..6]) + "-" + Hex(uuid[6..8]) + "-" +
         Hex(uuid[8..10]) + "-" + Hex(uuid[10..16]);
  }

  /** rand.Read into the buffer from `from` on. */
  method Fill(uuid: array<byte>, from: nat, random: seq<byte>)
    requires from + |random| == uuid.Length
    modifies uuid
    ensures uuid[..] == old(uuid[..from]) + random
  {
    for i := 0 to |random|
      invariant uuid[..from] == old(uuid[..from]) && uuid[from..from + i] == random[..i]
    {
      uuid[from + i] := random[i];
    }
  }

  method GenerateUUID(random: seq<byte>) returns (s: string)
    requires |random| == 16
    ensures s == Format(Stamped(4, random))
  {
    var uuid := new byte[16];
    Fill(uuid, 0, random);
    uuid[6] := (uuid[6] as nat % 16 + 0x40) as byte;
    uuid[8] := (uuid[8] as nat % 64 + 0x80) as byte;
    assert uuid[..] == Stamped(4, random);
    s := FormatOctets(uuid);
  }

  /** PutUint64 of the time shifted by 16 bits, then random bytes over the two low octets and after them. */
  method GenerateUUIDv7(now: nat, random: seq<byte>) returns (s: string)
    requires |random| == 10
    ensures s == Format(Stamped(7, TimeOctets(now, random)))
  {
    var uuid := new byte[16];
    PutUint64(uuid, now * 0x10000 % 0x1_0000_0000_0000_0000);
    ShiftedTime(now);
    Fill(uuid, 6, random);
    uuid[6] := (0x70 + uuid[6] as nat % 16) as byte;
    uuid[8] := (0x80 + uuid[8] as nat % 64) as byte;
    assert uuid[..] == Stamped(7, TimeOctets(now, random));
    s := FormatOctets(uuid);
  }

  method PutUint64(uuid: array<byte>, v: nat)
    requires uuid.Length >= 8 && v < 0x1_0000_0000_0000_0000
    modifies uuid
    ensures uuid[..8] == BigEndian(v, 8) && uuid[8..] == old(uuid[8..])
  {
    var rest := v;
    for i := 0 to 8
      invariant uuid[8..] == old(uuid[8..])
      invariant BigEndian(v, 8) == BigEndian(rest, 8 - i) + uuid[8 - i..8]
    {
      assert BigEndian(rest, 8 - i) == BigEndian(rest / 256, 8 - i - 1) + [(rest % 256) as byte];
      uuid[7 - i] := (rest % 256) as byte;
      rest := rest / 256;
    }
  }

  /** The six high octets of the shifted 64-bit time are the 48 low bits of the time. */
  lemma ShiftedTime(now: nat)
    ensures BigEndian(now * 0x10000 % 0x1_0000_0000_0000_0000, 8)[..6] == BigEndian(now, 6)
  {
    var v := now * 0x10000 % 0x1_0000_0000_0000_0000;
    assert v / 256 / 256 == now % TIME_LIMIT;
    assert BigEndian(v, 8)[..7] == BigEndian(v / 256, 7);
    assert BigEndian(v, 8)[..6] == BigEndian(v / 256, 7)[..6] == BigEndian(v / 256 / 256, 6);
    LowBytes(now % TIME_LIMIT, now, 6, now / TIME_LIMIT);
  }

  lemma {:induction false} LowBytes(a: nat, b: nat, n: nat, q: nat)
    requires b == a + q * Power(n)
    ensures BigEndian(a, n) == BigEndian(b, n)
  {
    if n > 0 {
      assert b == a + 256 * (q * Power(n - 1));
      LowBytes(a / 256, b / 256, n - 1, q);
    }
  }

  // ---------------------------------------------------------------- what the string says

  function TimeOf(s: string): int
    requires |s| == 36
  {
    HexNumber(s[0..8] + s[9..13])
  }

  /**
    The string has 36 characters with the version at position 14 and one of the four variant digits
    at position 19, and for version 7 its first twelve digits are the time.
    */
  lemma Layout(now: nat, random: seq<byte>)
    requires |random| == 10 && now < TIME_LIMIT
    ensures var s := Format(Stamped(7, TimeOctets(now, random)));
            |s| == 36 && s[14] == '7' && s[19] in "89ab" && TimeOf(s) == now
  {
    var t := BigEndian(now, 6);
    var u := Stamped(7, TimeOctets(now, random));
    var s := Format(u);
    assert u[0..4] == t[..4] && u[4..6] == t[4..];
    assert s[0..8] == Hex(t[..4]) && s[9..13] == Hex(t[4..]);
    HexConcat(t[..4], t[4..]);
    assert t[..4] + t[4..] == t;
    HexNumberOfHex(t);
    NumberOfBigEndian(now, 6, TIME_LIMIT);
    VersionAndVariant(7, TimeOctets(now, random));
  }

  lemma VersionAndVariant(version: nat, u: Octets)
    requires version < 16
    ensures var s := Format(Stamped(version, u)); |s| == 36 && s[14] == Digit(version) && s[19] in "89ab"
  {
    var v := Stamped(version, u);
    assert v[6..8][0] == v[6] && v[8..10][0] == v[8];
    assert v[6] as nat / 16 == version && 8 <= v[8] as nat / 16 < 12;
    var s := Format(v);
    HexAt(v[6..8], 0);
    HexAt(v[8..10], 0);
    assert s[14] == Hex(v[6..8])[2 * 0] && s[19] == Hex(v[8..10])[2 * 0];
    assert Digit(8) == '8' && Digit(9) == '9' && Digit(10) == 'a' && Digit(11) == 'b';
  }

  lemma {:induction false} HexConcat(a: seq<byte>, b: seq<byte>)
    ensures Hex(a + b) == Hex(a) + Hex(b)
  {
    if |b| > 0 {
      var init, last := b[..|b| - 1], b[|b| - 1];
      HexConcat(a, init);
      HexAdd(a + init, last);
      HexAdd(init, last);
      assert (a + init) + [last] == a + b && init + [last] == b;
    } else {
      assert a + b == a;
    }
  }

  lemma HexAdd(bs: seq<byte>, b: byte)
    ensures Hex(bs + [b]) == Hex(bs) + [Digit(b as nat / 16), Digit(b as nat % 16)]
  {
    assert (bs + [b])[..|bs|] == bs;
  }

  /** Where the two digits of octet `k` are: after the dashes at positions 8, 13, 18 and 23. */
  function Column(k: nat): nat {
    2 * k + if k < 4 then 0 else if k < 6 then 1 else if k < 8 then 2 else if k < 10 then 3 else 4
  }

  function OctetRead(s: string, k: nat): int
    requires |s| == 36 && k < 16
  {
    16 * DigitValue(s[Column(k)]) + DigitValue(s[Column(k) + 1])
  }

  /** The string is sixteen octets in hexadecimal digits, with four dashes. */
  lemma OctetsReadBack(u: Octets, k: nat)
    requires k < 16
    ensures |Format(u)| == 36 && OctetRead(Format(u), k) == u[k] as int
    ensures Format(u)[8] == Format(u)[13] == Format(u)[18] == Format(u)[23] == '-'
  {
    OctetDigits(u, k);
    DigitRead(u[k] as nat / 16);
    DigitRead(u[k] as nat % 16);
  }

  lemma Parts(a: string, b: string, c: string, d: string, e: string)
    requires |a| == 8 && |b| == 4 && |c| == 4 && |d| == 4 && |e| == 12
    ensures var s := a + "-" + b + "-" + c + "-" + d + "-" + e;
            && |s| == 36
            && (forall i :: 0 <= i < 8 ==> s[i] == a[i]) && (forall i :: 9 <= i < 13 ==> s[i] == b[i - 9])
            && (forall i :: 14 <= i < 18 ==> s[i] == c[i - 14]) && (forall i :: 19 <= i < 23 ==> s[i] == d[i - 19])
            && (forall i :: 24 <= i < 36 ==> s[i] == e[i - 24])
  {
  }

  lemma OctetDigits(u: Octets, k: nat)
    requires k < 16
    ensures var s := Format(u);
            && |s| == 36
            && s[Column(k)] == Digit(u[k] as nat / 16) && s[Column(k) + 1] == Digit(u[k] as nat % 16)
  {
    Parts(Hex(u[0..4]), Hex(u[4..6]), Hex(u[6..8]), Hex(u[8..10]), Hex(u[10..16]));
    if k < 4 {
      HexAt(u[0..4], k);
    } else if k < 6 {
      HexAt(u[4..6], k - 4);
    } else if k < 8 {
      HexAt(u[6..8], k - 6);
    } else if k < 10 {
      HexAt(u[8..10], k - 8);
    } else {
      HexAt(u[10..16], k - 10);
    }
  }

  /** All random bits of a version 4 UUID but the six of version and variant can be read off it. */
  lemma RandomKept(random: seq<byte>, k: nat)
    requires |random| == 16 && k < 16
    ensures var s := Format(Stamped(4, random));
            |s| == 36 && OctetRead(s, k) == if k == 6 then 0x40 + random[6] as int % 16
                                            else if k == 8 then 0x80 + random[8] as int % 64
                                            else random[k] as int
  {
    OctetsReadBack(Stamped(4, random), k);
  }

  /** The same for the ten random octets of version 7, after those of the time. */
  lemma RandomKeptV7(now: nat, random: seq<byte>, k: nat)
    requires |random| == 10 && k < 10
    ensures var s := Format(Stamped(7, TimeOctets(now, random)));
            |s| == 36 && OctetRead(s, 6 + k) == if k == 0 then 0x70 + random[0] as int % 16
                                                else if k == 2 then 0x80 + random[2] as int % 64
                                                else random[k] as int
  {
    OctetsReadBack(Stamped(7, TimeOctets(now, random)), 6 + k);
  }

  lemma DigitsAreLowerCase(d: nat)
    requires d < 16
    ensures Digit(d) == "0123456789abcdef"[d]
  {
  }

  ghost predicate Before(a: string, b: string) {
    exists k :: 0 <= k < |a| && k < |b| && a[..k] == b[..k] && a[k] < b[k]
  }

  /** A version 7 UUID of an earlier millisecond is the smaller string, whatever the random bytes. */
  lemma EarlierIsSmaller(now: nat, later: nat, random: seq<byte>, random': seq<byte>)
    requires now < later < TIME_LIMIT && |random| == |random'| == 10
    ensures Before(Format(Stamped(7, TimeOctets(now, random))), Format(Stamped(7, TimeOctets(later, random'))))
  {
    var t, t' := BigEndian(now, 6), BigEndian(later, 6);
    NumberOfBigEndian(now, 6, TIME_LIMIT);
    NumberOfBigEndian(later, 6, TIME_LIMIT);
    var k := SmallerDiffers(t, t');
    TimeDigits(now, random);
    TimeDigits(later, random');
    var s, s' := Format(Stamped(7, TimeOctets(now, random))), Format(Stamped(7, TimeOctets(later, random')));
    DigitsBefore(s, s', t, t', k);
  }

  /** The string starts with the digits of the six octets. */
  ghost predicate ShowsTime(s: string, t: seq<byte>) {
    && |s| == 36 && |t| == 6 && s[8] == '-'
    && forall k {:trigger t[k]} :: 0 <= k < 6 ==>
         s[Column(k)] == Digit(t[k] as nat / 16) && s[Column(k) + 1] == Digit(t[k] as nat % 16)
  }

  lemma DigitsBefore(s: string, s': string, t: seq<byte>, t': seq<byte>, k: nat)
    requires ShowsTime(s, t) && ShowsTime(s', t') && k < 6 && t[..k] == t'[..k] && t[k] < t'[k]
    ensures Before(s, s')
  {
    forall p | 0 <= p < Column(k)
      ensures s[p] == s'[p]
    {
      DigitSame(s, s', t, t', k, p);
    }
    var at := if t[k] as nat / 16 == t'[k] as nat / 16 then Column(k) + 1 else Column(k);
    assert s[Column(k)] == Digit(t[k] as nat / 16) && s'[Column(k)] == Digit(t'[k] as nat / 16);
    assert s[..at] == s'[..at] && s[at] < s'[at];
  }

  lemma DigitSame(s: string, s': string, t: seq<byte>, t': seq<byte>, k: nat, p: nat)
    requires ShowsTime(s, t) && ShowsTime(s', t') && k < 6 && t[..k] == t'[..k] && p < Column(k)
    ensures s[p] == s'[p]
  {
    if p != 8 {
      var j := if p < 8 then p / 2 else (p - 1) / 2;
      assert j < k && t[..k][j] == t'[..k][j];
      assert t[j] == t'[j] && (p == Column(j) || p == Column(j) + 1);
    }
  }

  lemma TimeDigits(now: nat, random: seq<byte>)
    requires |random| == 10
    ensures ShowsTime(Format(Stamped(7, TimeOctets(now, random))), BigEndian(now, 6))
  {
    var t, u := BigEndian(now, 6), Stamped(7, TimeOctets(now, random));
    assert u[0..4] == t[..4] && u[4..6] == t[4..];
    forall k {:trigger t[k]} | 0 <= k < 6
      ensures Format(u)[Column(k)] == Digit(t[k] as nat / 16) && Format(u)[Column(k) + 1] == Digit(t[k] as nat % 16)
    {
      OctetDigits(u, k);
      assert u[k] == t[k];
    }
    OctetsReadBack(u, 0);
  }
}
