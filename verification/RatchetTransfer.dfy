/** A live ratchet state handed to a linked device through its byte form: the symbolic state
    of the runs and the stored fields of the export, tied together by any coding of the
    values the state holds. */
module RatchetTransfer {
  import opened Common
  import opened RatchetCrypto
  import R = Ratchet
  import W = RatchetWorld
  import S = StateExport

  /** How keys and secrets are bytes, and back. */
  datatype Coding = Coding(
    secret: Secret -> Word, unSecret: Word -> Secret,
    pub: Pub -> Word, unPub: Word -> Pub,
    key: Key -> Word, unKey: Word -> Key,
    pair: KemPair -> S.KemKeyPair, unPair: S.KemKeyPair -> KemPair,
    ek: KemEk -> S.Ek, unEk: Bytes -> KemEk)

  predicate KeepsKey(c: Coding, k: Option<Key>) {
    k.Some? ==> c.unKey(c.key(k.value)) == k.value
  }

  predicate KeepsPub(c: Coding, p: Option<Pub>) {
    p.Some? ==> c.unPub(c.pub(p.value)) == p.value
  }

  /** The coding loses none of the values of the state, and its counters fit four bytes. */
  ghost predicate Keeps(c: Coding, st: R.State) {
    && c.unSecret(c.secret(st.dhsPriv)) == st.dhsPriv && KeepsPub(c, Some(st.dhsPub)) && KeepsPub(c, st.dhrPub)
    && KeepsKey(c, Some(st.rk)) && KeepsKey(c, st.cks) && KeepsKey(c, st.ckr)
    && Fits(st.ns) && Fits(st.nr) && Fits(st.pn) && Fits(st.turns) && Fits(st.remixes)
    && (forall slot | slot in st.skipped :: KeepsPub(c, Some(slot.0)) && Fits(slot.1) && KeepsKey(c, Some(st.skipped[slot])))
    && (st.pendingOffer.Some? ==> c.unPair(c.pair(st.pendingOffer.value)) == st.pendingOffer.value)
    && (st.peerOffer.Some? ==> c.unEk(c.ek(st.peerOffer.value)) == st.peerOffer.value)
  }

  predicate Fits(n: nat) {
    n < 0x1_0000_0000
  }

  function Map<A, B>(f: A -> B, o: Option<A>): Option<B> {
    if o.Some? then Some(f(o.value)) else None
  }

  ghost function CacheBytes(c: Coding, st: R.State): map<S.Slot, Word>
    requires Keeps(c, st)
  {
    map slot: S.Slot | slot in set s | s in st.skipped :: SlotBytes(c, s) :: c.key(st.skipped[SlotBack(c, slot)])
  }

  function SlotBytes(c: Coding, slot: (Pub, nat)): S.Slot {
    (c.pub(slot.0), if Fits(slot.1) then slot.1 else 0)
  }

  function SlotBack(c: Coding, slot: S.Slot): (Pub, nat) {
    (c.unPub(slot.0), slot.1)
  }

  /** The stored fields of a state. */
  ghost function Stored(c: Coding, st: R.State): S.State
    requires Keeps(c, st)
  {
    S.State(c.secret(st.dhsPriv), c.pub(st.dhsPub), Map(c.pub, st.dhrPub), c.key(st.rk), Map(c.key, st.cks), Map(c.key, st.ckr),
            st.ns, st.nr, st.pn, CacheBytes(c, st), st.turns, st.remixes,
            Map(c.pair, st.pendingOffer), if st.peerOffer.Some? then Some(c.ek(st.peerOffer.value)) else None)
  }

  lemma SlotIsStored(c: Coding, st: R.State, slot: (Pub, nat))
    requires Keeps(c, st) && slot in st.skipped
    ensures var b := SlotBytes(c, slot);
            b in CacheBytes(c, st) && CacheBytes(c, st)[b] == c.key(st.skipped[slot]) && SlotBack(c, b) == slot
  {
  }

  lemma StoredSlotIsLive(c: Coding, st: R.State, b: S.Slot)
    requires Keeps(c, st) && b in CacheBytes(c, st)
    ensures SlotBack(c, b) in st.skipped
  {
    var slot :| slot in st.skipped && SlotBytes(c, slot) == b;
    assert SlotBack(c, b) == slot;
  }

  lemma SameCache(c: Coding, st: R.State, st': R.State)
    requires Keeps(c, st) && Keeps(c, st') && CacheBytes(c, st) == CacheBytes(c, st')
    ensures forall slot: (Pub, nat) | slot in st.skipped :: slot in st'.skipped && st'.skipped[slot] == st.skipped[slot]
  {
    hide CacheBytes;
    forall slot: (Pub, nat) | slot in st.skipped
      ensures slot in st'.skipped && st'.skipped[slot] == st.skipped[slot]
    {
      SlotIsStored(c, st, slot);
      StoredSlotIsLive(c, st', SlotBytes(c, slot));
      SlotIsStored(c, st', slot);
    }
  }

  /** The stored fields determine the live state. */
  lemma StoredIsFaithful(c: Coding, st: R.State, st': R.State)
    requires Keeps(c, st) && Keeps(c, st') && Stored(c, st) == Stored(c, st')
    ensures st == st'
  {
    hide CacheBytes;
    SameCache(c, st, st');
    SameCache(c, st', st);
    assert st.skipped == st'.skipped;
    SameOption(c.pub, c.unPub, st.dhrPub, st'.dhrPub);
    SameOption(c.key, c.unKey, st.cks, st'.cks);
    SameOption(c.key, c.unKey, st.ckr, st'.ckr);
    SameOption(c.pair, c.unPair, st.pendingOffer, st'.pendingOffer);
  }

  lemma SameOption<A, B>(f: A -> B, back: B -> A, a: Option<A>, b: Option<A>)
    requires Map(f, a) == Map(f, b) && (a.Some? ==> back(f(a.value)) == a.value) && (b.Some? ==> back(f(b.value)) == b.value)
    ensures a == b
  {
  }

  /** A linked device continues the run: the live state behind the fields it imported is the
      exporter's own, so putting it in the exporter's place changes nothing in the world, and
      every run goes on as it would have. */
  lemma TransferKeepsWorld(c: Coding, w: W.World, p: W.Peer, ct: Option<Bytes>, order: seq<S.Slot>, taken: R.State)
    requires Keeps(c, W.Of(w, p)) && Keeps(c, taken)
    requires S.Walks(order, Stored(c, W.Of(w, p)).skipped) && S.Exportable(Stored(c, W.Of(w, p)), ct)
    requires var r := S.Deserialized(S.Serialized(Stored(c, W.Of(w, p)), ct, order)); r.Ok? ==> r.value.0 == Stored(c, taken)
    ensures S.Deserialized(S.Serialized(Stored(c, W.Of(w, p)), ct, order)).Ok?
    ensures taken == W.Of(w, p) && W.With(w, p, taken) == w
  {
    S.RoundTrip(Stored(c, W.Of(w, p)), ct, order);
    hide Stored, Keeps;
    StoredIsFaithful(c, W.Of(w, p), taken);
  }
}
