/**
  The padding codec of pkg/cipher/aead.go.

  A secret is stored as the prefix "$e$3$" followed by the unpadded base64 form of a sealed
  buffer. The buffer is a two-byte big-endian length, the secret, and zero bytes up to a multiple
  of 128. The length is a uint16, and so is the slice bound computed when the buffer is opened.
  */
module Cipher {
  import opened Wrappers

  /** A Go call that returns a string and an error, or panics. */
  datatype Outcome = Ok(value: Bytes) | Err | Panic

  /**
    The primitives the codec is built on: an authenticated cipher that draws a nonce for each
    sealing, and a text encoding of byte strings.
    */
  datatype Primitives = Primitives(
    seal: (Bytes, Bytes) -> Bytes,
    open: Bytes -> Option<Bytes>,
    encode: Bytes -> Bytes,
    decode: Bytes -> Option<Bytes>)
  {
    /** Opening undoes sealing under every nonce, and decoding undoes encoding. */
    ghost predicate Lawful() {
      && (forall nonce: Bytes, p: Bytes :: open(seal(nonce, p)) == Some(p))
      && (forall b: Bytes :: decode(encode(b)) == Some(b))
    }
  }

  const PREFIX: Bytes := [0x24, 0x65, 0x24, 0x33, 0x24]  // "$e$3$"
  const ALIGNMENT := 128
  const UINT16 := 0x1_0000

  /** The longest secret whose uint16 slice bound does not wrap. */
  const MAX_SECRET := UINT16 - 3

  predicate IsEncrypted(t: Bytes) {
    PREFIX <= t
  }

  function PadLen(totalLen: nat): (n: nat)
    ensures n < ALIGNMENT && (totalLen + n) % ALIGNMENT == 0
  {
    (ALIGNMENT - totalLen % ALIGNMENT) % ALIGNMENT
  }

  function Zeros(n: nat): (z: Bytes)
    ensures |z| == n && forall i :: 0 <= i < n ==> z[i] == 0
  {
    seq(n, i => 0)
  }

  function LengthPrefix(n: nat): Bytes {
    [(n / 256 % 256) as byte, (n % 256) as byte]
  }

  /** The buffer that Encrypt seals. */
  function Padded(p: Bytes): (b: Bytes)
    ensures |b| >= 2 + |p| && |b| % ALIGNMENT == 0
  {
    LengthPrefix(|p|) + p + Zeros(PadLen(2 + |p|))
  }

  /** What Encrypt returns when the cipher draws `nonce`. */
  function Encrypted(c: Primitives, nonce: Bytes, p: Bytes): Bytes {
    PREFIX + c.encode(c.seal(nonce, Padded(p)))
  }

  /** `t` is a possible result of encrypting `p`. */
  ghost predicate Encrypts(c: Primitives, t: Bytes, p: Bytes) {
    exists nonce: Bytes :: t == Encrypted(c, nonce, p)
  }

  /** Fills the padded buffer in place, then seals and encodes it. */
  method Encrypt(c: Primitives, nonce: Bytes, plainText: Bytes) returns (t: Bytes)
    ensures t == Encrypted(c, nonce, plainText)
  {
    var dataLen := |plainText|;
    var totalLen := 2 + dataLen;
    var padLen := PadLen(totalLen);
    var padded := new byte[totalLen + padLen](i => 0);

    var msgLen := dataLen % UINT16;
    var high, low := (msgLen / 256) as byte, (msgLen % 256) as byte;
    padded[0] := high;
    padded[1] := low;
    for i := 0 to dataLen
      invariant padded[0] == high && padded[1] == low
      invariant forall k :: 0 <= k < i ==> padded[2 + k] == plainText[k]
      invariant forall k :: 2 + i <= k < padded.Length ==> padded[k] == 0
    {
      padded[2 + i] := plainText[i];
    }
    LengthPrefixWraps(dataLen);
    assert padded[..] == [high, low] + plainText + Zeros(padLen);

    t := PREFIX + c.encode(c.seal(nonce, padded[..]));
  }

  /** Truncating the length to a uint16 first leaves the two bytes as they are. */
  lemma LengthPrefixWraps(n: nat)
    ensures LengthPrefix(n) == LengthPrefix(n % UINT16)
    ensures LengthPrefix(n)[0] as int * 256 + LengthPrefix(n)[1] as int == n % UINT16
  {
    var q, m := n / UINT16, n % UINT16;
    assert n == 256 * (256 * q) + m;
    assert n / 256 == 256 * q + m / 256 && n % 256 == m % 256;
    assert (256 * q + m / 256) % 256 == m / 256;
  }

  /** Encrypts under a nonce of the cipher's own choosing. */
  method Seal(c: Primitives, plainText: Bytes) returns (t: Bytes)
    ensures Encrypts(c, t, plainText)
    ensures IsEncrypted(t)
  {
    var nonce := DrawNonce();
    t := Encrypt(c, nonce, plainText);
  }

  /** The nonce is random: any byte string at all. */
  method DrawNonce() returns (nonce: Bytes) {
    nonce := *;
  }

  /** Reads the length prefix back; `2 + msgLen` is uint16 arithmetic. */
  function Unpad(plain: Bytes): Outcome {
    if |plain| < 2 then
      Err
    else
      var msgLen := plain[0] as int * 256 + plain[1] as int;
      if msgLen > |plain| - 2 then
        Err
      else
        var end := (2 + msgLen) % UINT16;
        if end < 2 then Panic else Ok(plain[2..end])
  }

  function Decrypt(c: Primitives, t: Bytes): Outcome {
    if !IsEncrypted(t) then
      Ok(t)
    else
      match c.decode(t[|PREFIX|..])
      case None => Err
      case Some(data) =>
        match c.open(data)
        case None => Err
        case Some(plain) => Unpad(plain)
  }

  // ---------------------------------------------------------------- what the codec achieves

  /** What is left of a secret that was encrypted and is decrypted again. */
  function Reopened(p: Bytes): Outcome {
    var n := |p| % UINT16;
    if n > MAX_SECRET then Panic else Ok(p[..n])
  }

  /** For every secret, whatever its length, decryption of its ciphertext is `Reopened`. */
  lemma DecryptOfEncrypted(c: Primitives, t: Bytes, p: Bytes)
    requires c.Lawful() && Encrypts(c, t, p)
    ensures IsEncrypted(t)
    ensures Decrypt(c, t) == Reopened(p)
  {
    var nonce: Bytes :| t == Encrypted(c, nonce, p);
    assert t[|PREFIX|..] == c.encode(c.seal(nonce, Padded(p)));
    UnpadPadded(p);
  }

  lemma UnpadPadded(p: Bytes)
    ensures Unpad(Padded(p)) == Reopened(p)
  {
    PaddedHead(p);
    var n, b := |p| % UINT16, Padded(p);
    if n <= MAX_SECRET {
      assert b[2..2 + n] == p[..n];
    }
  }

  lemma PaddedHead(p: Bytes)
    ensures var b := Padded(p); b[0] as int * 256 + b[1] as int == |p| % UINT16 && b[2..2 + |p|] == p
  {
    LengthPrefixWraps(|p|);
    var b := Padded(p);
    assert b[0] == LengthPrefix(|p|)[0] && b[1] == LengthPrefix(|p|)[1];
  }

  /** The round trip holds exactly up to 65533 bytes. */
  lemma RoundTripBound(c: Primitives, nonce: Bytes, p: Bytes)
    requires c.Lawful()
    ensures Decrypt(c, Encrypted(c, nonce, p)) == Ok(p) <==> |p| <= 65533
  {
    DecryptOfEncrypted(c, Encrypted(c, nonce, p), p);
    ReopenedWhole(p);
  }

  lemma ReopenedWhole(p: Bytes)
    ensures Reopened(p) == Ok(p) <==> |p| <= MAX_SECRET
  {
    var n := |p| % UINT16;
    if |p| <= MAX_SECRET {
      assert p[..|p|] == p;
    } else if n <= MAX_SECRET {
      assert n < |p| && |p[..n]| == n;
    }
  }

  /** Decryption of one's own ciphertext panics exactly for lengths 65534 and 65535 modulo 2^16. */
  lemma WrapPanics(c: Primitives, nonce: Bytes, p: Bytes)
    requires c.Lawful()
    ensures Decrypt(c, Encrypted(c, nonce, p)) == Panic <==> |p| % UINT16 in {65534, 65535}
    ensures Decrypt(c, Encrypted(c, nonce, p)) != Err
  {
    DecryptOfEncrypted(c, Encrypted(c, nonce, p), p);
  }

  /** Whatever ciphertext decrypts at all decrypts to at most 65533 bytes. */
  lemma DecryptedLength(c: Primitives, t: Bytes)
    requires IsEncrypted(t)
    ensures Decrypt(c, t).Ok? ==> |Decrypt(c, t).value| <= MAX_SECRET
  {
  }

  /** The sealed buffer byte by byte. */
  lemma PaddedLayout(p: Bytes)
    ensures var b := Padded(p);
            && |b| % 128 == 0 && |b| >= 2 + |p|
            && b[0] as int == |p| / 256 % 256 && b[1] as int == |p| % 256
            && b[2..2 + |p|] == p && forall i :: 2 + |p| <= i < |b| ==> b[i] == 0
  {
  }

  /** The text is a ciphertext of the buffer. */
  predicate Opens(c: Primitives, t: Bytes, plain: Bytes) {
    "$e$3$" == AsText(t) && c.decode(t[5..]).Some? && c.open(c.decode(t[5..]).value) == Some(plain)
  }

  /** The first five bytes as text, if there are so many. */
  function AsText(t: Bytes): string {
    if |t| < 5 then "" else seq(5, i requires 0 <= i < 5 => t[i] as char)
  }

  /**
    Exactly what decrypts: a text without the prefix to itself, a ciphertext to the value whose
    two-byte length and bytes the opened buffer begins with, if it has at most 65533 bytes.
    */
  lemma DecryptsExactly(c: Primitives, t: Bytes, v: Bytes)
    ensures Decrypt(c, t) == Ok(v) <==>
              if AsText(t) != "$e$3$" then v == t
              else
                |v| <= 65533 && exists plain: Bytes ::
                  Opens(c, t, plain) && [(|v| / 256) as byte, (|v| % 256) as byte] + v <= plain
  {
    PrefixIsText(t);
    if IsEncrypted(t) && c.decode(t[5..]).Some? && c.open(c.decode(t[5..]).value).Some? {
      var plain := c.open(c.decode(t[5..]).value).value;
      assert Opens(c, t, plain);
      UnpadsExactly(plain, v);
    }
  }

  lemma PrefixIsText(t: Bytes)
    ensures IsEncrypted(t) <==> AsText(t) == "$e$3$"
  {
    if |t| >= 5 {
      assert IsEncrypted(t) <==> t[..5] == PREFIX;
      assert forall i :: 0 <= i < 5 ==> AsText(t)[i] == t[i] as char;
      assert "$e$3$" == ['$', 'e', '$', '3', '$'];
    }
  }

  lemma UnpadsExactly(plain: Bytes, v: Bytes)
    ensures Unpad(plain) == Ok(v) <==>
              |v| <= 65533 && [(|v| / 256) as byte, (|v| % 256) as byte] + v <= plain
  {
    if |v| <= 65533 {
      var head := [(|v| / 256) as byte, (|v| % 256) as byte];
      if head + v <= plain {
        assert plain[0] == head[0] && plain[1] == head[1];
        assert plain[2..2 + |v|] == (head + v)[2..];
      }
      if Unpad(plain) == Ok(v) {
        assert plain[..2 + |v|] == head + v;
      }
    }
  }

  /** The padded size is the least multiple of 128 that has room for the prefix and the secret. */
  lemma PaddedIsLeast(p: Bytes, size: nat)
    ensures |Padded(p)| % 128 == 0 && |Padded(p)| >= 2 + |p|
    ensures size % 128 == 0 && size >= 2 + |p| ==> |Padded(p)| <= size
  {
    var total, n := 2 + |p|, |Padded(p)|;
    assert total <= n < total + ALIGNMENT;
    if size % ALIGNMENT == 0 {
      MultiplesApart(n, size);
    }
  }

  lemma MultiplesApart(a: nat, b: nat)
    requires a % ALIGNMENT == 0 && b % ALIGNMENT == 0
    ensures b > a - ALIGNMENT ==> b >= a
  {
    assert a == ALIGNMENT * (a / ALIGNMENT) && b == ALIGNMENT * (b / ALIGNMENT);
  }

  /** The padded size tells two secrets apart exactly when their 128-byte buckets differ. */
  lemma PaddedRevealsOnlyBucket(p: Bytes, q: Bytes)
    ensures |Padded(p)| == |Padded(q)| <==> (|p| + 1) / 128 == (|q| + 1) / 128
  {
    PaddedBucket(p);
    PaddedBucket(q);
  }

  lemma PaddedBucket(p: Bytes)
    ensures |Padded(p)| == ALIGNMENT * ((|p| + 1) / ALIGNMENT + 1)
  {
    var bucket := ALIGNMENT * ((|p| + 1) / ALIGNMENT + 1);
    assert bucket % ALIGNMENT == 0 && 2 + |p| <= bucket < 2 + |p| + ALIGNMENT;
    PaddedIsLeast(p, bucket);
    MultiplesApart(bucket, |Padded(p)|);
  }

  // ---------------------------------------------------------------- the laws have an instance

  /** Seals by putting the nonce's length and the nonce in front; encodes by the identity. */
  const TRANSPARENT := Primitives(
    (nonce: Bytes, p: Bytes) => LengthPrefix(|nonce| % UINT16) + nonce[..|nonce| % UINT16] + p,
    (b: Bytes) => OpenTransparent(b),
    (b: Bytes) => b,
    (b: Bytes) => Some(b))

  function OpenTransparent(b: Bytes): Option<Bytes> {
    if |b| < 2 then
      None
    else
      var n := b[0] as int * 256 + b[1] as int;
      if |b| < 2 + n then None else Some(b[2 + n..])
  }

  lemma TransparentIsLawful()
    ensures TRANSPARENT.Lawful()
  {
    forall nonce: Bytes, p: Bytes
      ensures TRANSPARENT.open(TRANSPARENT.seal(nonce, p)) == Some(p)
    {
      var n := |nonce| % UINT16;
      var b := LengthPrefix(n) + nonce[..n] + p;
      assert b[0] as int * 256 + b[1] as int == n;
      assert b[2 + n..] == p;
    }
  }
}
