/** Sealed Sender++ envelopes: sender and text behind one authenticated encryption, padded
    to a power of two that the server checks by its own arithmetic. */
module Seal {
  import opened Common
  import opened RatchetCrypto

  const HEADER_LEN: nat := 44
  const TAG_LEN: nat := 16
  const LEN_PREFIX_LEN: nat := 2
  const MAX_SIZE_BUCKET: nat := 24
  const U16_MAX: nat := 0xffff

  // ---- Size buckets ---------------------------------------------------------------

  /** The number of significant bits, `usize::BITS - n.leading_zeros()`. */
  function BitLength(n: nat): nat {
    if n == 0 then 0 else 1 + BitLength(n / 2)
  }

  function SizeBucketFor(len: nat): nat {
    if len <= 1 then 0 else
    var bits := BitLength(len - 1);
    if bits < MAX_SIZE_BUCKET then bits else MAX_SIZE_BUCKET
  }

  /** The server's check of a declared bucket. */
  function ValidateSizeBucket(byteLength: int, sizeBucket: int): bool {
    if sizeBucket < 0 || sizeBucket > MAX_SIZE_BUCKET then false else
    if byteLength <= 0 then false else
    var upper := Pow2(sizeBucket);
    var lower := if sizeBucket == 0 then 0 else Pow2(sizeBucket - 1);
    lower < byteLength <= upper
  }

  lemma {:induction false} BitLengthIs(n: nat)
    requires n >= 1
    ensures BitLength(n) >= 1 && Pow2(BitLength(n) - 1) <= n < Pow2(BitLength(n))
  {
    if n >= 2 { BitLengthIs(n / 2); }
  }

  lemma {:induction false} PowGrows(a: nat, b: nat)
    requires a < b
    ensures 2 * Pow2(a) <= Pow2(b)
    decreases b
  {
    if a < b - 1 { PowGrows(a, b - 1); }
  }

  /** Client and server agree: the server accepts exactly the bucket the client computes,
      for every length from 1 to 2^24, and no bucket at all for any other length. */
  lemma BucketsAgree(len: nat, b: int)
    ensures ValidateSizeBucket(len, b) <==> 1 <= len <= 0x100_0000 && b == SizeBucketFor(len)
  {
    PowerZero();
    TwoTo24();
    hide Pow2, BitLength;
    if 0 <= b <= MAX_SIZE_BUCKET {
      BelowOrAt(0, MAX_SIZE_BUCKET);
      if len >= 2 { BucketIs(len, b, BitLength(len - 1)); } else if b > 0 { BelowOrAt(0, b - 1); }
    }
  }

  lemma BucketIs(len: nat, b: nat, bits: nat)
    requires len >= 2 && bits == BitLength(len - 1) && b <= MAX_SIZE_BUCKET
    ensures (if b == 0 then 0 else Pow2(b - 1)) < len <= Pow2(b) <==> b == bits
    ensures len <= Pow2(MAX_SIZE_BUCKET) <==> bits <= MAX_SIZE_BUCKET
  {
    hide Pow2, BitLength;
    BitLengthIs(len - 1);
    if b < bits { Below(b, bits, len); } else if b > bits { Above(b, bits, len); }
    if bits > MAX_SIZE_BUCKET { Below(MAX_SIZE_BUCKET, bits, len); } else { BelowOrAt(bits, MAX_SIZE_BUCKET); }
  }

  lemma TwoTo24()
    ensures Pow2(MAX_SIZE_BUCKET) == 0x100_0000
  {
    assert Pow2(8) == 0x100 && Pow2(16) == 0x1_0000;
  }

  lemma PowerZero()
    ensures Pow2(0) == 1
  {
  }

  lemma {:induction false} BelowOrAt(a: nat, b: nat)
    requires a <= b
    ensures Pow2(a) <= Pow2(b)
  {
    if a < b { PowGrows(a, b); }
  }

  lemma Below(b: nat, bits: nat, len: nat)
    requires b < bits && len >= 2 && Pow2(bits - 1) <= len - 1
    ensures Pow2(b) < len
  {
    BelowOrAt(b, bits - 1);
  }

  lemma Above(b: nat, bits: nat, len: nat)
    requires bits < b && len - 1 < Pow2(bits)
    ensures len <= Pow2(b - 1)
  {
    BelowOrAt(bits, b - 1);
  }

  // ---- The envelope ---------------------------------------------------------------

  /** The ciphertext of the padded text; its key is the Diffie-Hellman output. */
  datatype Aead = Aead(key: DhOut, nonce: Bytes, text: Bytes)

  datatype Envelope = Envelope(ephemeral: Pub, nonce: Bytes, ciphertext: Aead)

  datatype SealError = TooLong | NoRandomness | NotOpened | Corrupt

  /** Its length on the wire. */
  function WireLen(e: Envelope): nat {
    HEADER_LEN + |e.ciphertext.text| + TAG_LEN
  }

  /** Two bytes, most significant first: a larger number loses its high bits. */
  function U16(n: nat): (r: Bytes)
    ensures |r| == 2
  {
    [n / 256 % 256, n % 256]
  }

  function FromU16(hi: byte, lo: byte): nat {
    256 * hi + lo
  }

  lemma U16Back(n: nat)
    ensures FromU16(U16(n)[0], U16(n)[1]) == n % 0x1_0000
  {
    var q, r := n / 0x1_0000, n % 0x1_0000;
    assert n == 256 * (256 * q) + r;
    HighByte(256 * q, r);
    assert (256 * q + r / 256) % 256 == r / 256;
  }

  lemma HighByte(x: nat, r: nat)
    ensures (256 * x + r) / 256 == x + r / 256 && (256 * x + r) % 256 == r % 256
  {
  }

  function ContentLen(cert: Bytes, text: Bytes): nat {
    LEN_PREFIX_LEN + |cert| + |text|
  }

  function TotalLen(cert: Bytes, text: Bytes): nat {
    HEADER_LEN + LEN_PREFIX_LEN + ContentLen(cert, text) + TAG_LEN
  }

  function Zeros(n: nat): (r: Bytes)
    ensures |r| == n
  {
    seq(n, i => 0)
  }

  function Content(cert: Bytes, text: Bytes): Bytes {
    U16(|cert|) + cert + text
  }

  function Padded(cert: Bytes, text: Bytes, pad: nat): Bytes {
    U16(ContentLen(cert, text)) + Content(cert, text) + Zeros(pad)
  }

  function Unpadded(padded: Bytes): Result<(Bytes, Bytes), SealError> {
    if |padded| < LEN_PREFIX_LEN then Err(Corrupt) else
    var n := FromU16(padded[0], padded[1]);
    if LEN_PREFIX_LEN + n > |padded| then Err(Corrupt) else
    Parts(padded[LEN_PREFIX_LEN..LEN_PREFIX_LEN + n])
  }

  function Parts(content: Bytes): (r: Result<(Bytes, Bytes), SealError>)
    ensures r.Ok? ==> LEN_PREFIX_LEN + |r.value.0| + |r.value.1| == |content|
  {
    if |content| < LEN_PREFIX_LEN then Err(Corrupt) else
    var certLen := FromU16(content[0], content[1]);
    var rest := content[LEN_PREFIX_LEN..];
    if certLen > |rest| then Err(Corrupt) else
    Ok((rest[..certLen], rest[certLen..]))
  }

  lemma TwoTo18()
    ensures Pow2(18) == 0x4_0000
  {
    assert Pow2(9) == 512;
  }

  lemma Doubles(k: nat)
    requires k >= 1
    ensures Pow2(k) == 2 * Pow2(k - 1)
  {
  }

  lemma FitsItsBucket(cert: Bytes, text: Bytes)
    requires |cert| <= U16_MAX && |text| <= U16_MAX
    ensures var total := TotalLen(cert, text);
            var bucket := SizeBucketFor(total);
            total <= Pow2(bucket) < 2 * total && bucket < MAX_SIZE_BUCKET
  {
    hide Pow2, BitLength;
    var n := TotalLen(cert, text) - 1;
    BitLengthIs(n);
    TwoTo18();
    if BitLength(n) > 18 { BelowOrAt(18, BitLength(n) - 1); }
    Doubles(BitLength(n));
  }

  /** Padded to the least power of two that holds it. `nonce` is none when the random
      source fails. */
  function Sealed(seed: Secret, cert: Bytes, text: Bytes, recipient: Pub, nonce: Option<Bytes>): Result<Envelope, SealError> {
    if |cert| > U16_MAX || |text| > U16_MAX then Err(TooLong) else
    if nonce.None? then Err(NoRandomness) else
    FitsItsBucket(cert, text);
    var pad := Pow2(SizeBucketFor(TotalLen(cert, text))) - TotalLen(cert, text);
    Ok(Envelope(Pub(seed), nonce.value, Aead(Dh(seed, recipient), nonce.value, Padded(cert, text, pad))))
  }

  method SealMessage(seed: Secret, cert: Bytes, text: Bytes, recipient: Pub, nonce: Option<Bytes>) returns (r: Result<Envelope, SealError>)
    ensures r == Sealed(seed, cert, text, recipient, nonce)
  {
    if |cert| > U16_MAX || |text| > U16_MAX { return Err(TooLong); }
    FitsItsBucket(cert, text);
    hide Pow2, U16;
    var realContentLen := LEN_PREFIX_LEN + |cert| + |text|;
    var totalEnvelopeLen := HEADER_LEN + LEN_PREFIX_LEN + realContentLen + TAG_LEN;
    var bucket := SizeBucketFor(totalEnvelopeLen);
    var targetEnvelopeLen := Pow2(bucket);
    var targetPlaintextLen := targetEnvelopeLen - HEADER_LEN - TAG_LEN;
    var padLen := targetPlaintextLen - LEN_PREFIX_LEN - realContentLen;

    var padded := U16(realContentLen);
    padded := padded + U16(|cert|);
    padded := padded + cert;
    padded := padded + text;
    padded := padded + Zeros(padLen);
    assert padded == Padded(cert, text, padLen);

    if nonce.None? { return Err(NoRandomness); }
    return Ok(Envelope(Pub(seed), nonce.value, Aead(Dh(seed, recipient), nonce.value, padded)));
  }

  function Unseal(e: Envelope, secret: Secret): Result<(Bytes, Bytes), SealError> {
    if e.ciphertext.key != Dh(secret, e.ephemeral) || e.ciphertext.nonce != e.nonce then Err(NotOpened) else
    Unpadded(e.ciphertext.text)
  }

  /** The unsealed content is cut off where the two-byte length says. */
  lemma UnpadTakes(prefix: Bytes, content: Bytes, zeros: Bytes, n: nat)
    requires |prefix| == 2 && n == FromU16(prefix[0], prefix[1]) <= |content|
    ensures Unpadded(prefix + content + zeros) == Parts(content[..n])
  {
    hide Parts;
    var padded := prefix + content + zeros;
    assert padded == prefix + (content + zeros);
    assert padded[2..2 + n] == content[..n];
  }

  lemma ContentParts(prefix: Bytes, cert: Bytes, text: Bytes)
    requires prefix == U16(|cert|) && |cert| <= U16_MAX
    ensures Parts(prefix + cert + text) == Ok((cert, text))
  {
    U16Back(|cert|);
    var content := prefix + cert + text;
    assert content[0] == prefix[0] && content[1] == prefix[1];
    hide U16, FromU16;
    assert content[2..] == cert + text;
    assert (cert + text)[..|cert|] == cert && (cert + text)[|cert|..] == text;
  }

  /** Padding is taken off again exactly, also from a text that ends in zeros, if and only
      if the length that is written fits its two bytes; when it does not, what comes out,
      if anything does, is not what was sealed. */
  lemma UnpadIsExact(cert: Bytes, text: Bytes, pad: nat)
    requires |cert| <= U16_MAX && |text| <= U16_MAX
    ensures Unpadded(Padded(cert, text, pad)) == Ok((cert, text)) <==> ContentLen(cert, text) <= U16_MAX
  {
    hide Unpadded, Parts, U16;
    var content, len := Content(cert, text), ContentLen(cert, text);
    U16Back(len);
    UnpadTakes(U16(len), content, Zeros(pad), len % 0x1_0000);
    if len <= U16_MAX {
      assert content[..len] == content;
      ContentParts(U16(|cert|), cert, text);
    }
  }

  /** The key of the envelope is the recipient's and nobody else's. */
  lemma KeyIsTheirs(seed: Secret, recipient: Secret, secret: Secret)
    ensures Dh(secret, Pub(seed)) == Dh(seed, Pub(recipient)) <==> secret == recipient
  {
  }

  /** Sealing then unsealing: the envelope is exactly the power of two that the server
      accepts for its declared bucket, and only that one; it is the least that holds the
      parts; the recipient gets both back exactly when they fit, and any other key is refused. */
  lemma SealThenUnseal(seed: Secret, cert: Bytes, text: Bytes, recipient: Secret, secret: Secret, nonce: Bytes)
    requires |cert| <= U16_MAX && |text| <= U16_MAX
    ensures var sealed := Sealed(seed, cert, text, Pub(recipient), Some(nonce));
            var bucket := SizeBucketFor(TotalLen(cert, text));
            && sealed.Ok? && WireLen(sealed.value) == Pow2(bucket) && TotalLen(cert, text) <= Pow2(bucket) < 2 * TotalLen(cert, text)
            && (forall b :: ValidateSizeBucket(WireLen(sealed.value), b) <==> b == bucket)
            && (secret != recipient ==> Unseal(sealed.value, secret) == Err(NotOpened))
            && (secret == recipient ==> (Unseal(sealed.value, secret) == Ok((cert, text)) <==> ContentLen(cert, text) <= U16_MAX))
  {
    var bucket := SizeBucketFor(TotalLen(cert, text));
    FitsItsBucket(cert, text);
    KeyIsTheirs(seed, recipient, secret);
    UnpadIsExact(cert, text, Pow2(bucket) - TotalLen(cert, text));
    PowerIsItsBucket(bucket);
  }

  lemma PowerIsItsBucket(bucket: nat)
    requires bucket < MAX_SIZE_BUCKET
    ensures forall b :: ValidateSizeBucket(Pow2(bucket), b) <==> b == bucket
  {
    forall b ensures ValidateSizeBucket(Pow2(bucket), b) <==> b == bucket {
      if 0 <= b < bucket { PowGrows(b, bucket); }
      if bucket < b <= MAX_SIZE_BUCKET { BelowOrAt(bucket, b - 1); }
    }
  }

  /** Sealing fails only for a part of more than 65535 bytes or, failing that, for want of
      randomness; the envelope carries the sender's public key and the nonce drawn. */
  lemma SealOutcome(seed: Secret, cert: Bytes, text: Bytes, recipient: Pub, nonce: Option<Bytes>)
    ensures var r := Sealed(seed, cert, text, recipient, nonce);
            && (r == Err(TooLong) <==> |cert| > 65_535 || |text| > 65_535)
            && (r == Err(NoRandomness) <==> |cert| <= 65_535 && |text| <= 65_535 && nonce.None?)
            && (r.Ok? <==> |cert| <= 65_535 && |text| <= 65_535 && nonce.Some?)
            && (r.Ok? ==> r.value.ephemeral == Pub(seed) && Some(r.value.nonce) == nonce)
  {
    hide Padded, TotalLen, Pow2, SizeBucketFor;
  }

  /** The two bytes at `i`, most significant first. */
  function LenAt(b: Bytes, i: nat): nat
    requires i + 2 <= |b|
  {
    var high: int, low: int := b[i], b[i + 1];
    256 * high + low
  }

  /** Any padded text is taken apart by its own two lengths, and refused exactly when one of
      them runs past its end; what follows the content is not looked at. */
  lemma UnpadOutcome(padded: Bytes)
    ensures var r := Unpadded(padded);
            && (r.Ok? <==> |padded| >= 4 && 2 <= LenAt(padded, 0) <= |padded| - 2 && LenAt(padded, 2) <= LenAt(padded, 0) - 2)
            && (r.Ok? ==>
                  var end, cut := 2 + LenAt(padded, 0), 4 + LenAt(padded, 2);
                  r.value == (padded[4..cut], padded[cut..end]))
            && (r.Err? ==> r.error == Corrupt)
  {
    if |padded| >= 4 && 2 <= LenAt(padded, 0) <= |padded| - 2 {
      var end := 2 + LenAt(padded, 0);
      var content := padded[2..end];
      assert content[0] == padded[2] && content[1] == padded[3];
      var rest, k := padded[4..end], LenAt(padded, 2);
      assert content[2..] == rest && k == FromU16(content[0], content[1]);
      assert k <= |rest| ==> rest[..k] == padded[4..4 + k] && rest[k..] == padded[4 + k..end];
    }
  }
}
