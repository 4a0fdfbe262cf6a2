/** After a message has overtaken the PQ answer of its own chain: that chain is dead for its
    receiver, whatever arrives and in whatever order, and the next DH turn is not affected. */
module RatchetDamage {
  import opened Common
  import opened RatchetCrypto
  import opened Ratchet
  import opened RatchetWorld
  import opened RatchetSteps
  import opened RatchetRun

  /** Every key the state holds for the chain under `pub` was derived from `base` without
      the PQ secret, and number 0 has been passed. */
  ghost predicate Dead(st: State, pub: Pub, base: Key) {
    && st.Valid()
    && (forall n: nat | (pub, n) in st.skipped :: st.skipped[(pub, n)] == MessageOf(Advance(base, n)))
    && (st.dhrPub == Some(pub) ==> st.ckr.Some? && st.nr > 0 && st.ckr == Some(Advance(base, st.nr)))
  }

  /** What the peer does next: it sends, or something arrives. */
  datatype Op = Sending(text: Bytes, ent: Entropy) | Arriving(wire: Wire, ent: Entropy)

  /** A message of the dead chain still has a slot or is on the current chain, as every
      message delivered at most once has; any other message is on another chain. */
  predicate Honest(st: State, pub: Pub, op: Op) {
    op.Arriving? && op.wire.header.dhPub == pub
    ==> (pub, op.wire.header.n) in st.skipped || st.dhrPub == Some(pub)
  }

  function Do(st: State, op: Op): (r: State)
    requires st.Valid()
    ensures r.Valid()
  {
    match op
    case Sending(text, ent) => Encrypt(st, text, ent).0
    case Arriving(wire, ent) => Decrypt(st, wire, ent).0
  }

  /** Sealed on the chain as its sender has it, with the PQ secret folded in. */
  predicate OnMixedChain(wire: Wire, pub: Pub, base: Key, ss: KemSecret) {
    wire.header.dhPub == pub && wire.body.key == MessageOf(Advance(PqMix(base, ss), wire.header.n))
  }

  /** Where a cached key of a skip comes from. */
  lemma SlotAfterSkip(st: State, until: nat, pub: Pub, n: nat)
    requires st.Valid() && SkipTo(st, until).Ok? && (pub, n) in SkipTo(st, until).value.skipped
    ensures var mk := SkipTo(st, until).value.skipped[(pub, n)];
            || ((pub, n) in st.skipped && mk == st.skipped[(pub, n)])
            || (st.ckr.Some? && st.dhrPub == Some(pub) && st.nr <= n < until && mk == MessageOf(Advance(st.ckr.value, n - st.nr)))
  {
  }

  lemma SkipKeepsDead(st: State, pub: Pub, base: Key, until: nat)
    requires Dead(st, pub, base) && SkipTo(st, until).Ok?
    ensures Dead(SkipTo(st, until).value, pub, base)
  {
    hide Advance, KeyRange, Cached;
    var st' := SkipTo(st, until).value;
    if st.ckr.Some? && until > st.nr && st.dhrPub == Some(pub) { AdvanceAdd(base, st.nr, until - st.nr); }
    forall n: nat | (pub, n) in st'.skipped ensures st'.skipped[(pub, n)] == MessageOf(Advance(base, n)) {
      SlotAfterSkip(st, until, pub, n);
      if st.dhrPub == Some(pub) && n >= st.nr { AdvanceAdd(base, st.nr, n - st.nr); }
    }
  }

  lemma ConsumeKeepsDead(st: State, pub: Pub, base: Key, wire: Wire)
    requires Dead(st, pub, base) && st.ckr.Some? && (wire.header.dhPub == pub ==> st.dhrPub == Some(pub))
    requires st.dhrPub == Some(pub) ==> wire.header.n == st.nr
    ensures Dead(Consume(st, wire).0, pub, base)
  {
  }

  /** The receiving chain where `Seek` leaves it. */
  lemma SeekKeepsDead(st: State, pub: Pub, base: Key, h: Header, seed: Secret)
    requires Dead(st, pub, base) && (h.dhPub == pub ==> st.dhrPub == Some(pub) && h.n >= st.nr)
    ensures var (st', r) := Seek(st, h, seed);
            && Dead(st', pub, base) && (r.Ok? && h.dhPub == pub ==> st'.dhrPub == Some(pub) && st'.nr == h.n)
            && (r.Ok? ==> st'.dhrPub == Some(h.dhPub))
  {
    hide Advance, KeyRange, Cached;
    if st.dhrPub == Some(h.dhPub) {
      if SkipTo(st, h.n).Ok? { SkipKeepsDead(st, pub, base, h.n); }
    } else if SkipTo(st, h.pn).Ok? {
      SkipKeepsDead(st, pub, base, h.pn);
      var turned := DhStep(SkipTo(st, h.pn).value, h.dhPub, seed);
      if SkipTo(turned, h.n).Ok? { SkipKeepsDead(turned, pub, base, h.n); }
    }
  }

  lemma DoKeepsDead(st: State, pub: Pub, base: Key, op: Op)
    requires Dead(st, pub, base) && Honest(st, pub, op)
    ensures Dead(Do(st, op), pub, base)
  {
    hide Advance, SkipTo, DhStep, Seek, Consume;
    if op.Arriving? {
      var h := op.wire.header;
      if (h.dhPub, h.n) !in st.skipped && !(st.dhrPub == Some(h.dhPub) && h.n < st.nr) {
        SeekKeepsDead(st, pub, base, h, op.ent.dh);
        var (st', r) := Seek(st, h, op.ent.dh);
        if r.Ok? { ConsumeKeepsDead(st', pub, base, op.wire); }
      }
    }
  }

  lemma DifferentKey(base: Key, ss: KemSecret, n: nat)
    ensures MessageOf(Advance(PqMix(base, ss), n)) != MessageOf(Advance(base, n))
  {
    MixedChainDiffers(base, ss, n);
  }

  /** No message of the chain opens. */
  lemma DeadRefuses(st: State, pub: Pub, base: Key, ss: KemSecret, wire: Wire, ent: Entropy)
    requires Dead(st, pub, base) && Honest(st, pub, Arriving(wire, ent)) && OnMixedChain(wire, pub, base, ss)
    ensures Decrypt(st, wire, ent).1.Err?
  {
    hide Advance, SkipTo, DhStep, Seek;
    var h := wire.header;
    DifferentKey(base, ss, h.n);
    if (pub, h.n) !in st.skipped && h.n >= st.nr {
      SeekKeepsDead(st, pub, base, h, ent.dh);
    }
  }

  predicate HonestLife(st: State, pub: Pub, ops: seq<Op>)
    requires st.Valid()
    decreases |ops|
  {
    ops == [] || (Honest(st, pub, ops[0]) && HonestLife(Do(st, ops[0]), pub, ops[1..]))
  }

  function After(st: State, pub: Pub, ops: seq<Op>): (r: State)
    requires st.Valid() && HonestLife(st, pub, ops)
    ensures r.Valid()
    decreases |ops|
  {
    if ops == [] then st else After(Do(st, ops[0]), pub, ops[1..])
  }

  /** A dead chain stays dead: whatever the peer sends and receives from then on, no message
      its sender put on that chain ever decrypts, the PQ answer included. */
  lemma {:induction false} DeadForever(st: State, pub: Pub, base: Key, ss: KemSecret, ops: seq<Op>, wire: Wire, ent: Entropy)
    requires Dead(st, pub, base) && HonestLife(st, pub, ops)
    requires Honest(After(st, pub, ops), pub, Arriving(wire, ent))
    requires OnMixedChain(wire, pub, base, ss)
    ensures Dead(After(st, pub, ops), pub, base) && Decrypt(After(st, pub, ops), wire, ent).1.Err?
    decreases |ops|
  {
    hide Dead, Honest, Do, OnMixedChain;
    DeadIsValid(st, pub, base);
    if ops == [] {
      DeadRefuses(st, pub, base, ss, wire, ent);
    } else {
      DoKeepsDead(st, pub, base, ops[0]);
      DeadForever(Do(st, ops[0]), pub, base, ss, ops[1..], wire, ent);
    }
  }

  lemma DeadIsValid(st: State, pub: Pub, base: Key)
    requires Dead(st, pub, base)
    ensures st.Valid()
  {
  }

  // ---- How a chain dies, and what survives ----------------------------------------

  lemma ConsumeFromBase(st: State, pub: Pub, base: Key, wire: Wire)
    requires st.Valid() && st.dhrPub == Some(pub) && st.nr == 0 && st.ckr == Some(base)
    requires wire.header.dhPub == pub && 0 < wire.header.n <= MAX_SKIP
    requires forall n: nat :: (pub, n) !in st.skipped
    ensures SkipTo(st, wire.header.n).Ok? && SkipTo(st, wire.header.n).value.ckr.Some?
    ensures Dead(Consume(SkipTo(st, wire.header.n).value, wire).0, pub, base)
  {
    var n := wire.header.n;
    var st1 := SkipTo(st, n).value;
    assert st1.ckr == Some(Advance(base, n)) && st1.nr == n;
    assert Dead(st1, pub, base);
    ConsumeKeepsDead(st1, pub, base, wire);
  }

  lemma NoSlotYet(w: World, p: Peer, c: nat)
    requires Inv(w) && |w.chains| >= 2 && c < |w.chains| && c > Top(w, p) - 2
    requires c == Top(w, p) - 1 ==> Of(w, p).nr == 0
    ensures forall n: nat :: (Pub(w.chains[c].secret), n) !in Of(w, p).skipped
  {
    hide NetOk, AheadOk, OfferOk, PeerOk;
    assert PeerInv(w, p) && CacheOnly(w, p);
    forall j | Overtaken(w, p, j) && j.chain < |w.chains| ensures w.chains[j.chain].secret != w.chains[c].secret {
    }
  }

  /** A message that overtakes the PQ answer of its chain kills that chain for its receiver. */
  lemma OvertakingKills(w: World, id: MsgId, ent: Entropy)
    requires Inv(w) && Ready(w) && id in w.net && OvertakesAnswer(w, id) && !TooFar(w, id)
    ensures id.chain < |w.chains|
    ensures var c := w.chains[id.chain];
            var st' := Of(AfterDeliver(w, id, ent).0, Receiver(id));
            Dead(st', Pub(c.secret), c.base) && c.mix.Some?
  {
    hide Inv, ChainsOk, NetOk, PeerOk, AheadOk, OfferOk, Decrypt, Consume, SkipTo, Advance, Dead;
    var p := Receiver(id);
    PeerFacts(w, p);
    Standing(w, id);
    NoSlotYet(w, p, id.chain);
    KillsHere(w, p, id, ent);
  }

  lemma KillsHere(w: World, p: Peer, id: MsgId, ent: Entropy)
    requires Ready(w) && ChainsOk(w.chains) && NetOk(w.net, w.chains) && PeerOk(w, p) && id in w.net && p == Receiver(id)
    requires id.n > 0 && !TooFar(w, id) && id.chain < |w.chains| && Slot(w, id) !in Of(w, p).skipped
    requires if id.chain == Top(w, p) + 1
             then id.chain == |w.chains| - 1 && Of(w, p).dhrPub != Some(w.net[id].wire.header.dhPub)
             else Top(w, p) >= 2 && id.chain == Recv(w, p) && Of(w, p).nr == 0
    requires forall n: nat :: (Pub(w.chains[id.chain].secret), n) !in Of(w, p).skipped
    ensures Dead(Of(AfterDeliver(w, id, ent).0, p), Pub(w.chains[id.chain].secret), w.chains[id.chain].base)
  {
    var st, wire, c := Of(w, p), w.net[id].wire, w.chains[id.chain];
    assert PacketOk(w.net, w.chains, id);
    if id.chain == Top(w, p) + 1 {
      DecryptNext(st, wire, ent);
      var skipped := SkipTo(st, wire.header.pn).value;
      TurnKey(w, p, skipped, ent.dh);
      OtherSlots(st, wire.header.pn, Pub(c.secret));
      ConsumeFromBase(DhStep(skipped, wire.header.dhPub, ent.dh), Pub(c.secret), c.base, wire);
    } else {
      DecryptSame(st, wire, ent);
      ConsumeFromBase(st, Pub(c.secret), c.base, wire);
    }
  }

  lemma OtherSlots(st: State, until: nat, pub: Pub)
    requires st.Valid() && SkipTo(st, until).Ok? && st.dhrPub != Some(pub) && forall n: nat :: (pub, n) !in st.skipped
    ensures forall n: nat :: (pub, n) !in SkipTo(st, until).value.skipped
  {
  }

  lemma OnChain(w: World, id: MsgId)
    requires NetOk(w.net, w.chains) && id in w.net && id.chain < |w.chains| && w.chains[id.chain].mix.Some?
    ensures var c := w.chains[id.chain]; OnMixedChain(w.net[id].wire, Pub(c.secret), c.base, c.mix.value)
  {
    assert PacketOk(w.net, w.chains, id);
  }

  /** Once a message has overtaken the PQ answer of its chain, no message of that chain in
      flight ever decrypts, the answer included, whatever the receiver does in between. */
  lemma ChainIsLost(w: World, id: MsgId, ent: Entropy, ops: seq<Op>, j: MsgId, later: Entropy)
    requires Inv(w) && Ready(w) && id in w.net && OvertakesAnswer(w, id) && !TooFar(w, id)
    requires j in w.net && j.chain == id.chain < |w.chains|
    requires var st, pub := Of(AfterDeliver(w, id, ent).0, Receiver(id)), Pub(w.chains[id.chain].secret);
             st.Valid() && HonestLife(st, pub, ops) && Honest(After(st, pub, ops), pub, Arriving(w.net[j].wire, later))
    ensures var st, pub := Of(AfterDeliver(w, id, ent).0, Receiver(id)), Pub(w.chains[id.chain].secret);
            Decrypt(After(st, pub, ops), w.net[j].wire, later).1.Err?
  {
    hide Dead, Honest, HonestLife, After, Decrypt, AfterDeliver, OnMixedChain, Inv, ChainsOk, NetOk, PeerOk, AheadOk, OfferOk;
    PeerFacts(w, Receiver(id));
    OvertakingKills(w, id, ent);
    OnChain(w, j);
    var c := w.chains[id.chain];
    DeadForever(Of(AfterDeliver(w, id, ent).0, Receiver(id)), Pub(c.secret), c.base, c.mix.value, ops, w.net[j].wire, later);
  }

  /** A peer's root key, secret and public key are those of its newest chain. */
  predicate AtRoot(st: State, c: Chain) {
    st.dhsPriv == c.secret && st.dhsPub == Pub(c.secret) && st.rk == c.root
  }

  lemma RootKeptNext(w: World, p: Peer, id: MsgId, ent: Entropy)
    requires Ready(w) && NetOk(w.net, w.chains) && PeerOk(w, p) && id in w.net && p == Receiver(id) && Fresh(w, ent.dh)
    requires id.n > 0 && !TooFar(w, id) && id.chain < |w.chains| && Slot(w, id) !in Of(w, p).skipped
    requires id.chain == Top(w, p) + 1 == |w.chains| - 1 && Of(w, p).dhrPub != Some(w.net[id].wire.header.dhPub)
    ensures var w' := AfterDeliver(w, id, ent).0;
            |w'.chains| >= 2 && AtRoot(Of(w', p), w'.chains[Top(w', p)])
  {
    hide Advance, Decrypt, AfterDeliver, Consume, MessageKey, HeldKey, KeyRange;
    assert PacketOk(w.net, w.chains, id);
    assert w.chains[Top(w, p)] in w.chains;
    NotFarNext(w, p, id);
    hide TooFar, NextWorld, GapBehind;
    TakeApart(w, p, id, ent);
    TurnedTop(w, p, id, ent.dh);
    NextWorldAtRoot(w, p, id, ent.dh);
    SkipKeepsRoot(Of(NextWorld(w, p, id, ent.dh), p), w.net[id].wire);
  }

  lemma NotFarNext(w: World, p: Peer, id: MsgId)
    requires NetOk(w.net, w.chains) && id in w.net && p == Receiver(id) && id.chain < |w.chains|
    requires !TooFar(w, id) && Slot(w, id) !in Of(w, p).skipped && Of(w, p).dhrPub != Some(w.net[id].wire.header.dhPub)
    ensures !GapBehind(w, p, id) && id.n <= MAX_SKIP
  {
    assert PacketOk(w.net, w.chains, id);
  }

  lemma NextWorldAtRoot(w: World, p: Peer, id: MsgId, seed: Secret)
    requires |w.chains| >= 2 && id in w.net && Of(w, p).Valid() && !GapBehind(w, p, id)
    requires id.chain == Top(w, p) + 1 == |w.chains| - 1
    ensures var w2 := NextWorld(w, p, id, seed);
            |w2.chains| >= 2 && AtRoot(Of(w2, p), w2.chains[Top(w2, p)])
  {
  }

  /** Skips and consumption leave the sending half of a state alone. */
  lemma SkipKeepsRoot(st: State, wire: Wire)
    requires st.Valid() && SkipTo(st, wire.header.n).Ok? && SkipTo(st, wire.header.n).value.ckr.Some?
    ensures var st' := Consume(SkipTo(st, wire.header.n).value, wire).0;
            st'.dhsPriv == st.dhsPriv && st'.dhsPub == st.dhsPub && st'.rk == st.rk
  {
    ConsumeKeepsSending(SkipTo(st, wire.header.n).value, wire);
  }

  lemma RootKeptSame(w: World, p: Peer, id: MsgId, ent: Entropy)
    requires Ready(w) && NetOk(w.net, w.chains) && PeerOk(w, p) && id in w.net && p == Receiver(id)
    requires id.n > 0 && !TooFar(w, id) && id.chain < |w.chains| && Slot(w, id) !in Of(w, p).skipped
    requires Top(w, p) >= 2 && id.chain == Recv(w, p) && Of(w, p).nr == 0
    ensures var w' := AfterDeliver(w, id, ent).0;
            |w'.chains| >= 2 && AtRoot(Of(w', p), w'.chains[Top(w', p)])
  {
    hide Advance, Decrypt, AfterDeliver, Consume, MessageKey, HeldKey, KeyRange;
    assert PacketOk(w.net, w.chains, id);
    DeliverApart(w, p, id, ent);
    ConsumeKeepsSending(SkipTo(Of(w, p), id.n).value, w.net[id].wire);
  }

  lemma TurnFromRoot(st: State, c: Chain, d: Chain, seed: Secret)
    requires AtRoot(st, c) && Linked(c, d)
    ensures DhStep(st, Pub(d.secret), seed).ckr == Some(d.base)
  {
  }

  /** What the damage leaves alone: the receiver's root key and secret. The DH turn to any
      chain `d` that its peer makes out of the receiver's newest one, as every honest DH turn
      does, derives exactly the key that chain starts with. */
  lemma NextTurnHeals(w: World, id: MsgId, ent: Entropy, d: Chain, seed: Secret)
    requires Inv(w) && Ready(w) && id in w.net && OvertakesAnswer(w, id) && !TooFar(w, id) && Fresh(w, ent.dh)
    ensures var w' := AfterDeliver(w, id, ent).0;
            && |w'.chains| >= 2
            && var p := Receiver(id);
               && AtRoot(Of(w', p), w'.chains[Top(w', p)])
               && (Linked(w'.chains[Top(w', p)], d) ==> DhStep(Of(w', p), Pub(d.secret), seed).ckr == Some(d.base))
  {
    hide Inv, AtRoot, Linked, DhStep, Decrypt, AfterDeliver, AheadOk, OfferOk;
    var p := Receiver(id);
    PeerFacts(w, p);
    Standing(w, id);
    if id.chain == Top(w, p) + 1 { RootKeptNext(w, p, id, ent); } else { RootKeptSame(w, p, id, ent); }
    var w' := AfterDeliver(w, id, ent).0;
    if Linked(w'.chains[Top(w', p)], d) { TurnFromRoot(Of(w', p), w'.chains[Top(w', p)], d, seed); }
  }

  /** Where a message that overtakes an answer finds its receiver. */
  lemma Standing(w: World, id: MsgId)
    requires Inv(w) && id in w.net && OvertakesAnswer(w, id)
    ensures var p := Receiver(id);
            && |w.chains| >= 2 && id.chain < |w.chains| && Slot(w, id) !in Of(w, p).skipped && w.chains[id.chain].mix.Some?
            && (if id.chain == Top(w, p) + 1
                then id.chain == |w.chains| - 1 && Of(w, p).dhrPub != Some(w.net[id].wire.header.dhPub)
                else Top(w, p) >= 2 && id.chain == Recv(w, p) && Of(w, p).nr == 0)
  {
    var p := Receiver(id);
    PeerFacts(w, p);
    NotBehind(w, id);
    SlotIsOwn(w, id);
    assert PacketOk(w.net, w.chains, MsgId(id.chain, 0));
    hide Inv, AheadOk, OfferOk;
    WhereAhead(w, p, id);
    AnswerUntouched(w, p, id);
  }

  lemma NotBehind(w: World, id: MsgId)
    requires Inv(w) && id in w.net && OvertakesAnswer(w, id)
    ensures |w.chains| >= 2 && !Overtaken(w, Receiver(id), id)
  {
    if |w.chains| >= 2 && Overtaken(w, Receiver(id), id) { NoAnswerBehind(w, Receiver(id), id); }
  }
}
