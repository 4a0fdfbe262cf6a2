/** Symbolic cryptography for the Triple Ratchet: every primitive is a free
    constructor, so two derived values are equal exactly when they were derived
    the same way from the same inputs. */
module RatchetCrypto {
  import opened Common

  /** An X25519 private key; `dh_generate` is injective in its seed, so the key is
      named by the seed. */
  type Secret = nat

  datatype Pub = Pub(secret: Secret)

  /** A Diffie-Hellman output: an unordered pair of secrets, kept sorted. */
  datatype DhOut = DhOut(lo: Secret, hi: Secret)

  /** An ML-KEM keypair and its public half, named by the generating seed. */
  datatype KemPair = KemPair(seed: nat)
  datatype KemEk = KemEk(seed: nat)

  datatype KemCt = KemCt(encapSeed: nat, pair: nat)

  /** `Rejected` is ML-KEM's implicit rejection: decapsulating with the wrong
      keypair yields an unrelated secret, not an error. */
  datatype KemSecret = Shared(encapSeed: nat, pair: nat) | Rejected(ct: KemCt, wrongPair: nat)

  /** Root, chain and message keys as terms over the KDF that produced them. */
  datatype Key =
    | Handshake(id: nat)
    | RootOf(rk: Key, dhOut: DhOut)
    | ChainOf(rk: Key, dhOut: DhOut)
    | NextChain(ck: Key)
    | MessageOf(ck: Key)
    | PqMix(ck: Key, ss: KemSecret)

  function Dh(mine: Secret, theirs: Pub): DhOut {
    if mine <= theirs.secret then DhOut(mine, theirs.secret) else DhOut(theirs.secret, mine)
  }

  function Encapsulate(seed: nat, ek: KemEk): (KemCt, KemSecret) {
    (KemCt(seed, ek.seed), Shared(seed, ek.seed))
  }

  function Decapsulate(kp: KemPair, ct: KemCt): KemSecret {
    if ct.pair == kp.seed then Shared(ct.encapSeed, ct.pair) else Rejected(ct, kp.seed)
  }

  datatype Header = Header(dhPub: Pub, pn: nat, n: nat, pqEk: Option<KemEk>, pqCt: Option<KemCt>)

  /** An AEAD ciphertext; the header is its associated data. */
  datatype Sealed = Sealed(key: Key, aad: Header, text: Bytes)

  datatype Wire = Wire(header: Header, body: Sealed)

  datatype Error =
    | CannotSendYet      // no sending chain before the first receive
    | AlreadyConsumed    // the key for this number is gone
    | TooManySkipped     // more than MAX_SKIP keys to skip in one chain
    | NoReceivingChain   // the source panics here
    | BadTag             // AEAD authentication failed

  function Open(key: Key, aad: Header, body: Sealed): Result<Bytes, Error> {
    if body.key == key && body.aad == aad then Ok(body.text) else Err(BadTag)
  }

  /** `n` steps of the symmetric chain. */
  function Advance(ck: Key, n: nat): Key {
    if n == 0 then ck else NextChain(Advance(ck, n - 1))
  }

  lemma {:induction false} AdvanceAdd(ck: Key, a: nat, b: nat)
    ensures Advance(Advance(ck, a), b) == Advance(ck, a + b)
    decreases b
  {
    if b > 0 { AdvanceAdd(ck, a, b - 1); }
  }

  function Size(k: Key): nat {
    match k
    case Handshake(_) => 0
    case RootOf(rk, _) => 1 + Size(rk)
    case ChainOf(rk, _) => 1 + Size(rk)
    case NextChain(ck) => 1 + Size(ck)
    case MessageOf(ck) => 1 + Size(ck)
    case PqMix(ck, _) => 1 + Size(ck)
  }

  lemma {:induction false} AdvanceSize(ck: Key, n: nat)
    ensures Size(Advance(ck, n)) == Size(ck) + n
    decreases n
  {
    if n > 0 { AdvanceSize(ck, n - 1); }
  }

  /** Folding a KEM secret into a chain key changes every later key of the chain. */
  lemma MixedChainDiffers(ck: Key, ss: KemSecret, n: nat)
    ensures Advance(PqMix(ck, ss), n) != Advance(ck, n)
  {
    AdvanceSize(ck, n);
    AdvanceSize(PqMix(ck, ss), n);
  }
}
