/** The Triple Ratchet over whole runs: every interleaving of sends and out-of-order
    deliveries decrypts, and exactly where it stops doing so. */
module RatchetRun {
  import opened Common
  import opened RatchetCrypto
  import opened Ratchet
  import opened RatchetWorld
  import opened RatchetSteps

  function Receiver(id: MsgId): Peer {
    Other(Sender(id))
  }

  /** The receiver would have to skip more than MAX_SKIP keys of one chain. */
  predicate TooFar(w: World, id: MsgId)
    requires id in w.net
  {
    var st, h := Of(w, Receiver(id)), w.net[id].wire.header;
    if (h.dhPub, h.n) in st.skipped then false
    else if st.dhrPub == Some(h.dhPub) then h.n > st.nr + MAX_SKIP
    else (st.ckr.Some? && h.pn > st.nr + MAX_SKIP) || h.n > MAX_SKIP
  }

  /** The first message of the same chain carries a PQ ciphertext and is still in flight. */
  predicate OvertakesAnswer(w: World, id: MsgId) {
    id.n > 0 && CarriesCt(w.net, MsgId(id.chain, 0))
  }

  // ---- Where the receiver stands --------------------------------------------------

  lemma PeerFacts(w: World, p: Peer)
    requires Inv(w)
    ensures |w.chains| >= 2 && ChainsOk(w.chains) && NetOk(w.net, w.chains)
    ensures PeerOk(w, p) && AheadOk(w, p) && OfferOk(w, p) && Of(w, p).Valid()
    ensures w.alice.Valid() && w.bob.Valid()
  {
  }

  /** A message whose key is cached did not overtake the PQ answer of its chain. */
  lemma NoAnswerBehind(w: World, p: Peer, id: MsgId)
    requires Inv(w) && Overtaken(w, p, id)
    ensures !OvertakesAnswer(w, id)
  {
    var zero := MsgId(id.chain, 0);
    assert CacheHolds(w, p);
    assert Overtaken(w, p, zero) ==> !CarriesCt(w.net, zero);
  }

  lemma SlotIsOwn(w: World, id: MsgId)
    requires Inv(w) && id in w.net
    ensures id.chain < |w.chains|
    ensures Slot(w, id) in Of(w, Receiver(id)).skipped <==> Overtaken(w, Receiver(id), id)
  {
    var p := Receiver(id);
    assert PeerInv(w, p) && PacketOk(w.net, w.chains, id);
    if Slot(w, id) in Of(w, p).skipped {
      var j :| Overtaken(w, p, j) && InSlot(w, j, Slot(w, id));
      assert w.chains[j.chain].secret == w.chains[id.chain].secret;
    }
  }

  /** A message not yet overtaken is on the receiving chain or on the one chain after it. */
  lemma WhereAhead(w: World, p: Peer, id: MsgId)
    requires ChainsOk(w.chains) && NetOk(w.net, w.chains) && PeerOk(w, p)
    requires id in w.net && Sender(id) == Other(p) && !Overtaken(w, p, id)
    ensures id.chain < |w.chains| && Ahead(w, p, id)
    ensures var s := Top(w, p);
            if id.chain == s + 1 then |w.chains| == s + 2 && Of(w, p).dhrPub != Some(w.net[id].wire.header.dhPub)
            else s >= 2 && id.chain == s - 1 && id.n >= Of(w, p).nr
                 && Of(w, p).dhrPub == Some(w.net[id].wire.header.dhPub)
  {
    hide MessageKey, HeldKey, Linked;
    assert PacketOk(w.net, w.chains, id);
    var s := Top(w, p);
    assert id.chain == s + 1 || id.chain == s - 1;
    if id.chain == s + 1 && s > 0 {
      assert w.chains[s - 1].secret != w.chains[s + 1].secret;
    }
  }

  /** A PQ answer ahead of `p` is in flight as long as its chain is untouched. */
  lemma AnswerInFlight(w: World, p: Peer, c: nat)
    requires ChainsOk(w.chains) && NetOk(w.net, w.chains) && AheadOk(w, p)
    requires c < |w.chains| && w.chains[c].mix.Some?
    requires Sender(MsgId(c, 0)) == Other(p)
    requires c > Top(w, p) - 1 || (c == Top(w, p) - 1 && Of(w, p).nr == 0)
    ensures CarriesCt(w.net, MsgId(c, 0))
  {
    assert Ahead(w, p, MsgId(c, 0));
    assert PacketOk(w.net, w.chains, MsgId(c, 0));
  }

  // ---- One delivery keeps the invariant -------------------------------------------

  lemma DeliverHere(w: World, p: Peer, id: MsgId)
    requires Inv(w) && id in w.net && Of(w, p).Valid()
    requires CanSkip(w, p, id.n) && id.chain == Recv(w, p)
    ensures SkipTo(Of(w, p), id.n).Ok? && SkipTo(Of(w, p), id.n).value.ckr.Some?
    ensures var (st', r) := Consume(SkipTo(Of(w, p), id.n).value, w.net[id].wire);
            r == Ok(w.net[id].text) && Inv(With(w, p, st').(net := w.net - {id}))
  {
    hide Inv, PeerOk, AheadOk, CacheOk, OfferOk, ChainsOk, NetOk, Consume, SkipTo;
    PeerFacts(w, p);
    SkipMoves(w, p, id.n);
    var w1 := With(w, p, SkipTo(Of(w, p), id.n).value);
    SkipKeeps(w, w1, p, id.n);
    PeerFacts(w1, p);
    TakeMoves(w1, p, id);
    var w2 := With(w1, p, Consume(Of(w1, p), w.net[id].wire).0).(net := w.net - {id});
    TakeKeeps(w1, w2, p, id);
  }

  lemma DeliverCached(w: World, id: MsgId, ent: Entropy)
    requires Inv(w) && Ready(w) && id in w.net && Overtaken(w, Receiver(id), id)
    ensures var (w', r) := AfterDeliver(w, id, ent); r == Ok(w.net[id].text) && Inv(w')
  {
    var p := Receiver(id);
    assert PeerInv(w, p) && PacketOk(w.net, w.chains, id);
    UncacheKeeps(w, AfterDeliver(w, id, ent).0, p, id);
  }

  lemma ConsumeKeepsSending(st: State, wire: Wire)
    requires st.Valid() && st.ckr.Some?
    ensures var st' := Consume(st, wire).0;
            st'.dhsPriv == st.dhsPriv && st'.dhsPub == st.dhsPub && st'.rk == st.rk && st'.cks == st.cks
  {
  }

  /** Decryption of a message on the receiving chain. */
  lemma DecryptSame(st: State, wire: Wire, ent: Entropy)
    requires st.Valid() && st.ckr.Some? && (wire.header.dhPub, wire.header.n) !in st.skipped
    requires st.dhrPub == Some(wire.header.dhPub) && wire.header.n >= st.nr
    ensures Decrypt(st, wire, ent) ==
            if wire.header.n > st.nr + MAX_SKIP then (st, Err(TooManySkipped))
            else Consume(SkipTo(st, wire.header.n).value, wire)
  {
  }

  /** Decryption of the first message to arrive of the next chain. */
  lemma DecryptNext(st: State, wire: Wire, ent: Entropy)
    requires st.Valid() && (wire.header.dhPub, wire.header.n) !in st.skipped
    requires st.dhrPub != Some(wire.header.dhPub)
    ensures Decrypt(st, wire, ent) ==
            if st.ckr.Some? && wire.header.pn > st.nr + MAX_SKIP then (st, Err(TooManySkipped)) else
            var turned := DhStep(SkipTo(st, wire.header.pn).value, wire.header.dhPub, ent.dh);
            if wire.header.n > MAX_SKIP then (turned, Err(TooManySkipped))
            else Consume(SkipTo(turned, wire.header.n).value, wire)
  {
  }

  /** The two skips a delivery makes stay clear of every PQ answer in flight. */
  lemma SkipIsClear(w: World, p: Peer, until: nat)
    requires ChainsOk(w.chains) && NetOk(w.net, w.chains) && AheadOk(w, p) && Top(w, p) >= 2
    requires Of(w, p).nr <= until <= w.chains[Recv(w, p)].sent && until <= Of(w, p).nr + MAX_SKIP
    requires until > 0 ==> !CarriesCt(w.net, MsgId(Recv(w, p), 0))
    ensures CanSkip(w, p, until)
  {
    if w.chains[Recv(w, p)].mix.Some? && Of(w, p).nr == 0 {
      AnswerInFlight(w, p, Recv(w, p));
    }
  }

  lemma DeliverApart(w: World, p: Peer, id: MsgId, ent: Entropy)
    requires Ready(w) && id in w.net && p == Receiver(id)
    requires var st, h := Of(w, p), w.net[id].wire.header;
             && st.ckr.Some? && st.dhrPub == Some(h.dhPub) && (h.dhPub, h.n) !in st.skipped
             && h.n >= st.nr && h.n == id.n
    ensures var (w', r) := AfterDeliver(w, id, ent);
            if TooFar(w, id) then w' == w && r == Err(TooManySkipped) else
            var (st', r') := Consume(SkipTo(Of(w, p), id.n).value, w.net[id].wire);
            r == r' && w' == With(w, p, st').(net := if r.Ok? then w.net - {id} else w.net)
  {
    DecryptSame(Of(w, p), w.net[id].wire, ent);
    if !TooFar(w, id) { ConsumeKeepsSending(SkipTo(Of(w, p), id.n).value, w.net[id].wire); }
  }

  lemma DeliverSame(w: World, p: Peer, id: MsgId, ent: Entropy)
    requires Inv(w) && Ready(w) && id in w.net && p == Receiver(id) && Top(w, p) >= 2
    requires id.chain == Recv(w, p) && id.n >= Of(w, p).nr && Slot(w, id) !in Of(w, p).skipped
    requires !OvertakesAnswer(w, id)
    ensures var (w', r) := AfterDeliver(w, id, ent);
            Inv(w') && r == if TooFar(w, id) then Err(TooManySkipped) else Ok(w.net[id].text)
  {
    PeerFacts(w, p);
    assert PacketOk(w.net, w.chains, id);
    DeliverApart(w, p, id, ent);
    if !TooFar(w, id) {
      SkipIsClear(w, p, id.n);
      DeliverHere(w, p, id);
    }
  }

  /** The world after `p` turned to the newest chain. */
  function TurnWorld(w: World, p: Peer, seed: Secret): World
    requires |w.chains| >= 2
  {
    var st := DhStep(Of(w, p), Pub(w.chains[|w.chains| - 1].secret), seed);
    With(w, p, st).(chains := w.chains + [Chain(seed, st.rk, st.cks.value, None, 0)])
  }

  lemma TurnIsTurned(w: World, p: Peer, seed: Secret)
    requires |w.chains| >= 2 && CanTurn(w, p, seed)
    ensures Turned(w, TurnWorld(w, p, seed), p, seed)
  {
  }

  /** The rest of the old chain is cached. */
  lemma CacheRest(w: World, p: Peer, pn: nat, seed: Secret)
    requires Inv(w) && Of(w, p).Valid() && PeerOk(w, p) && |w.chains| >= 2 && CanSkip(w, p, pn)
    requires Top(w, p) == |w.chains| - 2 && pn == w.chains[Recv(w, p)].sent && Fresh(w, seed)
    ensures SkipTo(Of(w, p), pn).Ok?
    ensures var w1 := With(w, p, SkipTo(Of(w, p), pn).value); Inv(w1) && |w1.chains| >= 2 && CanTurn(w1, p, seed)
  {
    hide Inv, PeerOk;
    PeerFacts(w, p);
    SkipMoves(w, p, pn);
    SkipKeeps(w, With(w, p, SkipTo(Of(w, p), pn).value), p, pn);
  }

  /** Leaving a chain for the next one: the rest of the old chain is cached, then the
      turn is taken. The result is the world a failed second skip leaves behind. */
  lemma LeaveChain(w: World, p: Peer, pn: nat, seed: Secret)
    requires Inv(w) && Of(w, p).Valid() && |w.chains| >= 2 && PeerOk(w, p)
    requires Top(w, p) == |w.chains| - 2 && Fresh(w, seed) && pn == SentBefore(w.chains, |w.chains| - 1)
    requires Top(w, p) >= 2 ==> CanSkip(w, p, pn)
    ensures SkipTo(Of(w, p), pn).Ok?
    ensures Inv(TurnWorld(With(w, p, SkipTo(Of(w, p), pn).value), p, seed))
  {
    hide Inv, PeerOk, DhStep;
    var w1 := w;
    if Top(w, p) >= 2 {
      CacheRest(w, p, pn, seed);
      w1 := With(w, p, SkipTo(Of(w, p), pn).value);
    } else {
      PeerFacts(w, p);
      assert CanTurn(w, p, seed);
    }
    TurnIsTurned(w1, p, seed);
    TurnKeeps(w1, TurnWorld(w1, p, seed), p, seed);
  }

  lemma MayLeave(w: World, p: Peer, id: MsgId, ent: Entropy)
    requires ChainsOk(w.chains) && NetOk(w.net, w.chains) && PeerOk(w, p) && AheadOk(w, p)
    requires Admissible(w, Deliver(id, ent)) && p == Receiver(id)
    requires id.chain == Top(w, p) + 1 == |w.chains| - 1
    requires var h := w.net[id].wire.header; !(Of(w, p).ckr.Some? && h.pn > Of(w, p).nr + MAX_SKIP)
    ensures w.net[id].wire.header.pn == SentBefore(w.chains, id.chain)
    ensures Top(w, p) >= 2 ==> CanSkip(w, p, w.net[id].wire.header.pn)
  {
    hide Advance, AheadOk;
    assert PacketOk(w.net, w.chains, id);
    if Top(w, p) >= 2 {
      assert Before(MsgId(Recv(w, p), 0), id);
      SkipIsClear(w, p, w.chains[Recv(w, p)].sent);
    }
  }

  /** After the turn, the new chain is untouched and every message of it is in flight. */
  lemma EnterChain(w: World, p: Peer, id: MsgId)
    requires Inv(w) && id in w.net && Of(w, p).Valid() && Top(w, p) >= 2
    requires id.chain == Recv(w, p) && Of(w, p).nr == 0 && id.n <= MAX_SKIP && !OvertakesAnswer(w, id)
    ensures SkipTo(Of(w, p), id.n).Ok? && SkipTo(Of(w, p), id.n).value.ckr.Some?
    ensures var (st', r) := Consume(SkipTo(Of(w, p), id.n).value, w.net[id].wire);
            r == Ok(w.net[id].text) && Inv(With(w, p, st').(net := w.net - {id}))
  {
    PeerFacts(w, p);
    assert PacketOk(w.net, w.chains, id);
    SkipIsClear(w, p, id.n);
    DeliverHere(w, p, id);
  }

  /** The world once `p` has left its receiving chain for the one of message `id`. */
  function NextWorld(w: World, p: Peer, id: MsgId, seed: Secret): World
    requires |w.chains| >= 2 && id in w.net && Of(w, p).Valid()
    requires SkipTo(Of(w, p), w.net[id].wire.header.pn).Ok?
  {
    TurnWorld(With(w, p, SkipTo(Of(w, p), w.net[id].wire.header.pn).value), p, seed)
  }

  predicate GapBehind(w: World, p: Peer, id: MsgId)
    requires id in w.net
  {
    Of(w, p).ckr.Some? && w.net[id].wire.header.pn > Of(w, p).nr + MAX_SKIP
  }

  /** A delivery on the next chain, taken apart: skip, turn, skip, consume. */
  lemma TakeApart(w: World, p: Peer, id: MsgId, ent: Entropy)
    requires Ready(w) && id in w.net && p == Receiver(id)
    requires var st, h := Of(w, p), w.net[id].wire.header;
             && st.dhrPub != Some(h.dhPub) && (h.dhPub, h.n) !in st.skipped
             && h.dhPub == Pub(w.chains[|w.chains| - 1].secret)
             && st.dhsPub != Pub(ent.dh)
    ensures var wire := w.net[id].wire;
            var (w', r) := AfterDeliver(w, id, ent);
            if GapBehind(w, p, id) then w' == w && r == Err(TooManySkipped) else
            var w2 := NextWorld(w, p, id, ent.dh);
            if wire.header.n > MAX_SKIP then w' == w2 && r == Err(TooManySkipped) else
            var (st', r') := Consume(SkipTo(Of(w2, p), wire.header.n).value, wire);
            r == r' && w' == With(w2, p, st').(net := if r.Ok? then w.net - {id} else w.net)
  {
    hide Decrypt, Consume, KeyRange, Cached, Advance, Seek;
    var st, wire := Of(w, p), w.net[id].wire;
    DecryptNext(st, wire, ent);
    if !GapBehind(w, p, id) && wire.header.n <= MAX_SKIP {
      var turned := DhStep(SkipTo(st, wire.header.pn).value, wire.header.dhPub, ent.dh);
      ConsumeKeepsSending(SkipTo(turned, wire.header.n).value, wire);
    }
  }

  lemma NextInv(w: World, p: Peer, id: MsgId, ent: Entropy)
    requires Inv(w) && Admissible(w, Deliver(id, ent)) && p == Receiver(id) && Of(w, p).Valid()
    requires ChainsOk(w.chains) && NetOk(w.net, w.chains) && PeerOk(w, p) && AheadOk(w, p)
    requires id.chain == Top(w, p) + 1 == |w.chains| - 1 && !GapBehind(w, p, id)
    ensures SkipTo(Of(w, p), w.net[id].wire.header.pn).Ok? && Inv(NextWorld(w, p, id, ent.dh))
  {
    hide Inv, PeerOk, ChainsOk, NetOk, AheadOk, SkipTo, TurnWorld;
    MayLeave(w, p, id, ent);
    LeaveChain(w, p, w.net[id].wire.header.pn, ent.dh);
  }

  lemma TurnedTop(w: World, p: Peer, id: MsgId, seed: Secret)
    requires |w.chains| >= 2 && id in w.net && Of(w, p).Valid() && !GapBehind(w, p, id)
    requires id.chain == Top(w, p) + 1 == |w.chains| - 1
    ensures var w2 := NextWorld(w, p, id, seed);
            && w2.net == w.net && |w2.chains| == |w.chains| + 1
            && Top(w2, p) == id.chain + 1 && Of(w2, p).nr == 0 && Of(w2, p).Valid()
  {
  }

  /** Given the world after the turn, the message either is too far into its chain or
      decrypts to what was sent. */
  lemma DeliverAfterTurn(w: World, p: Peer, id: MsgId, ent: Entropy)
    requires Ready(w) && id in w.net && p == Receiver(id) && !GapBehind(w, p, id)
    requires id.chain == Top(w, p) + 1 == |w.chains| - 1
    requires var st, h := Of(w, p), w.net[id].wire.header;
             && st.dhrPub != Some(h.dhPub) && (h.dhPub, h.n) !in st.skipped && h.n == id.n
             && h.dhPub == Pub(w.chains[|w.chains| - 1].secret) && st.dhsPub != Pub(ent.dh)
    requires Inv(NextWorld(w, p, id, ent.dh)) && !OvertakesAnswer(w, id)
    ensures var (w', r) := AfterDeliver(w, id, ent);
            Inv(w') && r == if id.n > MAX_SKIP then Err(TooManySkipped) else Ok(w.net[id].text)
  {
    TakeApart(w, p, id, ent);
    TurnedTop(w, p, id, ent.dh);
    if id.n <= MAX_SKIP { EnterChain(NextWorld(w, p, id, ent.dh), p, id); }
  }

  lemma NextFacts(w: World, p: Peer, id: MsgId, ent: Entropy)
    requires |w.chains| >= 2 && NetOk(w.net, w.chains) && PeerOk(w, p) && Admissible(w, Deliver(id, ent))
    requires id.chain == Top(w, p) + 1 == |w.chains| - 1
    ensures var h := w.net[id].wire.header; h.n == id.n && h.dhPub == Pub(w.chains[|w.chains| - 1].secret)
    ensures Of(w, p).dhsPub != Pub(ent.dh) && !OvertakesAnswer(w, id)
  {
    assert PacketOk(w.net, w.chains, id);
    assert w.chains[Top(w, p)] in w.chains;
    assert id.n > 0 ==> Before(MsgId(id.chain, 0), id);
  }

  lemma DeliverNext(w: World, p: Peer, id: MsgId, ent: Entropy)
    requires Inv(w) && Ready(w) && Admissible(w, Deliver(id, ent)) && p == Receiver(id)
    requires id.chain == Top(w, p) + 1 == |w.chains| - 1
    requires Of(w, p).dhrPub != Some(w.net[id].wire.header.dhPub)
    requires (w.net[id].wire.header.dhPub, w.net[id].wire.header.n) !in Of(w, p).skipped
    ensures var (w', r) := AfterDeliver(w, id, ent);
            Inv(w') && r == if TooFar(w, id) then Err(TooManySkipped) else Ok(w.net[id].text)
  {
    PeerFacts(w, p);
    NextFacts(w, p, id, ent);
    if GapBehind(w, p, id) {
      TakeApart(w, p, id, ent);
    } else {
      NextInv(w, p, id, ent);
      DeliverAfterTurn(w, p, id, ent);
    }
  }

  /** An admissible delivery keeps the invariant, and either is too far ahead or gives
      back exactly the plaintext that was sent. */
  lemma DeliveryKeeps(w: World, id: MsgId, ent: Entropy)
    requires Inv(w) && Ready(w) && Admissible(w, Deliver(id, ent))
    ensures var (w', r) := AfterDeliver(w, id, ent);
            Inv(w') && r == if TooFar(w, id) then Err(TooManySkipped) else Ok(w.net[id].text)
  {
    var p := Receiver(id);
    PeerFacts(w, p);
    assert PacketOk(w.net, w.chains, id);
    SlotIsOwn(w, id);
    if Overtaken(w, p, id) {
      DeliverCached(w, id, ent);
    } else {
      WhereAhead(w, p, id);
      assert id.n > 0 ==> Before(MsgId(id.chain, 0), id);
      if id.chain == Top(w, p) + 1 {
        DeliverNext(w, p, id, ent);
      } else {
        DeliverSame(w, p, id, ent);
      }
    }
  }

  // ---- The exact outcome of every delivery ----------------------------------------

  lemma ConsumeUnmixed(st: State, wire: Wire, base: Key, ss: KemSecret)
    requires st.Valid() && st.ckr == Some(Advance(base, wire.header.n)) && wire.header.n > 0
    requires wire.body.key == MessageOf(Advance(PqMix(base, ss), wire.header.n))
    ensures Consume(st, wire).1 == Err(BadTag)
  {
    MixedChainDiffers(base, ss, wire.header.n);
  }

  /** The receiver's key for message `n` of a chain it holds from the start. */
  lemma FromStart(st: State, n: nat)
    requires st.Valid() && st.ckr.Some? && st.nr == 0 && n <= MAX_SKIP
    ensures SkipTo(st, n).Ok?
    ensures var st' := SkipTo(st, n).value;
            st'.ckr == Some(Advance(st.ckr.value, n)) && st'.pendingOffer == st.pendingOffer
  {
  }

  lemma ConsumeFromStart(w: World, p: Peer, id: MsgId, st: State)
    requires NetOk(w.net, w.chains) && OfferOk(w, p) && id in w.net && p == Receiver(id) && st.Valid()
    requires id.chain < |w.chains| && st.ckr == Some(w.chains[id.chain].base)
    requires st.nr == 0 && st.pendingOffer == Of(w, p).pendingOffer && id.n <= MAX_SKIP
    requires OvertakesAnswer(w, id) || id.n == 0 || w.chains[id.chain].mix.None?
    ensures SkipTo(st, id.n).Ok?
    ensures Consume(SkipTo(st, id.n).value, w.net[id].wire).1
         == if OvertakesAnswer(w, id) then Err(BadTag) else Ok(w.net[id].text)
  {
    FromStart(st, id.n);
    var c, wire := w.chains[id.chain], w.net[id].wire;
    assert PacketOk(w.net, w.chains, id);
    if OvertakesAnswer(w, id) {
      assert PacketOk(w.net, w.chains, MsgId(id.chain, 0));
      ConsumeUnmixed(SkipTo(st, id.n).value, wire, c.base, c.mix.value);
    } else if id.n == 0 && wire.header.pqCt.Some? {
      assert CarriesCt(w.net, id) && Sender(id) == Other(p);
      assert Of(w, p).pendingOffer == Some(KemPair(wire.header.pqCt.value.pair));
    }
  }

  /** A chain whose answer is still in flight is untouched by the receiver. */
  lemma AnswerUntouched(w: World, p: Peer, id: MsgId)
    requires Inv(w) && id in w.net && p == Receiver(id) && id.n > 0
    requires id.chain < |w.chains| && w.chains[id.chain].mix.Some? && !Overtaken(w, p, id)
    requires ChainsOk(w.chains) && NetOk(w.net, w.chains) && PeerOk(w, p)
    ensures OvertakesAnswer(w, id) <==> id.chain == Top(w, p) + 1 || Of(w, p).nr == 0
  {
    hide MessageKey, HeldKey, Linked, NetOk, OfferOk;
    WhereAhead(w, p, id);
    var zero := MsgId(id.chain, 0);
    if OvertakesAnswer(w, id) {
      assert CacheHolds(w, p);
      assert !Overtaken(w, p, zero);
      WhereAhead(w, p, zero);
    } else if id.chain == Top(w, p) + 1 || Of(w, p).nr == 0 {
      AnswerInFlight(w, p, id.chain);
    }
  }

  /** The receiving chain a turn derives is the one the other peer sends on. */
  lemma TurnKey(w: World, p: Peer, st: State, seed: Secret)
    requires ChainsOk(w.chains) && PeerOk(w, p) && Top(w, p) == |w.chains| - 2
    requires st.rk == Of(w, p).rk && st.dhsPriv == Of(w, p).dhsPriv
    ensures DhStep(st, Pub(w.chains[|w.chains| - 1].secret), seed).ckr == Some(w.chains[|w.chains| - 1].base)
  {
    assert Linked(w.chains[Top(w, p)], w.chains[Top(w, p) + 1]);
  }

  lemma OutcomeNext(w: World, p: Peer, id: MsgId, ent: Entropy)
    requires Ready(w) && ChainsOk(w.chains) && NetOk(w.net, w.chains) && PeerOk(w, p) && OfferOk(w, p)
    requires id in w.net && p == Receiver(id) && id.chain == Top(w, p) + 1 == |w.chains| - 1
    requires Of(w, p).dhrPub != Some(w.net[id].wire.header.dhPub)
    requires (w.net[id].wire.header.dhPub, w.net[id].wire.header.n) !in Of(w, p).skipped
    requires OvertakesAnswer(w, id) || id.n == 0 || w.chains[id.chain].mix.None?
    ensures AfterDeliver(w, id, ent).1 ==
            if TooFar(w, id) then Err(TooManySkipped)
            else if OvertakesAnswer(w, id) then Err(BadTag) else Ok(w.net[id].text)
  {
    hide Decrypt, Consume, ChainsOk, OfferOk, Advance;
    var st, wire := Of(w, p), w.net[id].wire;
    assert PacketOk(w.net, w.chains, id);
    DecryptNext(st, wire, ent);
    if !TooFar(w, id) {
      TurnKey(w, p, SkipTo(st, wire.header.pn).value, ent.dh);
      ConsumeFromStart(w, p, id, DhStep(SkipTo(st, wire.header.pn).value, wire.header.dhPub, ent.dh));
    }
  }

  lemma OutcomeSame(w: World, p: Peer, id: MsgId, ent: Entropy)
    requires Ready(w) && ChainsOk(w.chains) && NetOk(w.net, w.chains) && PeerOk(w, p) && OfferOk(w, p)
    requires id in w.net && p == Receiver(id) && Top(w, p) >= 2 && id.chain == Recv(w, p)
    requires Of(w, p).nr == 0 && Slot(w, id) !in Of(w, p).skipped && OvertakesAnswer(w, id)
    ensures AfterDeliver(w, id, ent).1 == Err(if TooFar(w, id) then TooManySkipped else BadTag)
  {
    assert PacketOk(w.net, w.chains, id);
    DecryptSame(Of(w, p), w.net[id].wire, ent);
    if !TooFar(w, id) { ConsumeFromStart(w, p, id, Of(w, p)); }
  }

  /** The outcome of delivering any in-flight message, overtaken answers included: the
      plaintext that was sent, unless the gap is too wide or the message overtook the
      PQ answer of its own chain, in which case authentication fails. */
  lemma DeliveryOutcome(w: World, id: MsgId, ent: Entropy)
    requires Inv(w) && Ready(w) && id in w.net
    ensures AfterDeliver(w, id, ent).1 ==
            if TooFar(w, id) then Err(TooManySkipped)
            else if OvertakesAnswer(w, id) then Err(BadTag)
            else Ok(w.net[id].text)
  {
    hide Inv, PeerOk, ChainsOk, AheadOk, OfferOk, Decrypt, AfterDeliver;
    var p := Receiver(id);
    PeerFacts(w, p);
    assert PacketOk(w.net, w.chains, id);
    SlotIsOwn(w, id);
    if Overtaken(w, p, id) {
      NoAnswerBehind(w, p, id);
      DeliverCached(w, id, ent);
    } else {
      WhereAhead(w, p, id);
      if w.chains[id.chain].mix.Some? && id.n > 0 { AnswerUntouched(w, p, id); }
      if OvertakesAnswer(w, id) { assert PacketOk(w.net, w.chains, MsgId(id.chain, 0)); }
      if id.chain == Top(w, p) + 1 {
        OutcomeNext(w, p, id, ent);
      } else if OvertakesAnswer(w, id) {
        OutcomeSame(w, p, id, ent);
      } else {
        DeliverSame(w, p, id, ent);
      }
    }
  }

  // ---- Whole runs -----------------------------------------------------------------

  lemma StepKeeps(w: World, e: Event)
    requires Inv(w) && Ready(w) && Admissible(w, e)
    ensures Inv(Apply(w, e))
  {
    match e
    case Send(p, text, ent) => SendKeeps(w, p, text, ent);
    case Deliver(id, ent) => DeliveryKeeps(w, id, ent);
  }

  /** The worlds `ws` an admissible sequence of events goes through after the handshake. */
  ghost predicate IsRun(ws: seq<World>, es: seq<Event>, root: Key, bobSecret: Secret, aliceSeed: Secret) {
    && bobSecret != aliceSeed
    && |ws| == |es| + 1
    && ws[0] == Begin(root, bobSecret, aliceSeed)
    && forall i | 0 <= i < |es| ::
         Admissible(ws[i], es[i]) && (Ready(ws[i]) ==> ws[i + 1] == Apply(ws[i], es[i]))
  }

  lemma {:induction false} RunKeeps(ws: seq<World>, es: seq<Event>, root: Key, bobSecret: Secret, aliceSeed: Secret, i: nat)
    requires IsRun(ws, es, root, bobSecret, aliceSeed) && i <= |es|
    ensures Inv(ws[i]) && Ready(ws[i])
  {
    if i == 0 {
      BeginInv(root, bobSecret, aliceSeed);
    } else {
      RunKeeps(ws, es, root, bobSecret, aliceSeed, i - 1);
      StepKeeps(ws[i - 1], es[i - 1]);
    }
    InvReady(ws[i]);
  }

  /** A delivered message leaves the network; a refused one stays. */
  lemma NetAfter(w: World, id: MsgId, ent: Entropy)
    requires Ready(w) && id in w.net
    ensures var (w', r) := AfterDeliver(w, id, ent); w'.net == if r.Ok? then w.net - {id} else w.net
  {
  }

  /** Whole-run correctness: in every run, whatever the interleaving and the order of
      delivery, every delivered message decrypts to exactly the plaintext sent; the
      only refusal is a gap of more than MAX_SKIP, and it loses nothing. */
  lemma EveryDeliveryDecrypts(ws: seq<World>, es: seq<Event>, root: Key, bobSecret: Secret, aliceSeed: Secret, i: nat)
    requires IsRun(ws, es, root, bobSecret, aliceSeed) && i < |es| && es[i].Deliver?
    ensures Ready(ws[i])
    ensures var id := es[i].id;
            var (w', r) := AfterDeliver(ws[i], id, es[i].ent);
            if TooFar(ws[i], id) then r == Err(TooManySkipped) && w'.net == ws[i].net
            else r == Ok(ws[i].net[id].text) && w'.net == ws[i].net - {id}
  {
    RunKeeps(ws, es, root, bobSecret, aliceSeed, i);
    DeliveryKeeps(ws[i], es[i].id, es[i].ent);
    NetAfter(ws[i], es[i].id, es[i].ent);
  }

  /** In every reachable world a peer's cache holds exactly one key for each overtaken
      message still in flight, the key that opens it, and nothing else. */
  lemma CacheIsExact(ws: seq<World>, es: seq<Event>, root: Key, bobSecret: Secret, aliceSeed: Secret, i: nat, p: Peer)
    requires IsRun(ws, es, root, bobSecret, aliceSeed) && i <= |es|
    ensures var w := ws[i];
            && |w.chains| >= 2
            && (forall slot: (Pub, nat) :: slot in Of(w, p).skipped <==>
                  exists id :: Overtaken(w, p, id) && InSlot(w, id, slot))
            && (forall id | Overtaken(w, p, id) ::
                  var wire := w.net[id].wire;
                  && (wire.header.dhPub, wire.header.n) in Of(w, p).skipped
                  && Open(Of(w, p).skipped[(wire.header.dhPub, wire.header.n)], wire.header, wire.body)
                     == Ok(w.net[id].text))
  {
    RunKeeps(ws, es, root, bobSecret, aliceSeed, i);
    var w := ws[i];
    PeerFacts(w, p);
    assert CacheHolds(w, p) && CacheOnly(w, p);
    forall id | Overtaken(w, p, id)
      ensures PacketOk(w.net, w.chains, id) && InSlot(w, id, Slot(w, id))
    {
    }
  }

  /** Redelivering a message the receiver has consumed from its current chain is an
      error, whatever the wire carries, and leaves the state as it was. */
  lemma RedeliveryIsRejected(w: World, p: Peer, id: MsgId, wire: Wire, ent: Entropy)
    requires Inv(w) && Ready(w) && Top(w, p) >= 2 && id.chain == Recv(w, p)
    requires id.n < Of(w, p).nr && id !in w.net
    requires wire.header.dhPub == Pub(w.chains[id.chain].secret) && wire.header.n == id.n
    ensures Decrypt(Of(w, p), wire, ent) == (Of(w, p), Err(AlreadyConsumed))
  {
    PeerFacts(w, p);
    assert CacheOnly(w, p);
  }

  // ---- The sparse PQ exchange -----------------------------------------------------

  /** Whenever a receiver has caught up with the chain it receives on, both ends hold the
      same chain key, PQ secrets folded in or not. */
  lemma CaughtUpKeysAgree(w: World, p: Peer)
    requires Inv(w) && Top(w, p) >= 2 && Recv(w, p) == Top(w, Other(p)) && Of(w, p).nr == Of(w, Other(p)).ns
    ensures Of(w, p).ckr.Some? && Of(w, p).ckr == Of(w, Other(p)).cks
  {
    PeerFacts(w, p);
    PeerFacts(w, Other(p));
  }

  lemma PqFacts(w: World)
    requires Inv(w)
    ensures OfferOk(w, Alice) && OfferOk(w, Bob) && RemixOk(w)
  {
  }

  /** Every PQ ciphertext in flight was made for the keypair its receiver still waits with,
      at most one is in flight each way, and the remix counts of the two peers differ
      by exactly the ciphertexts in flight. */
  lemma PqAgreement(ws: seq<World>, es: seq<Event>, root: Key, bobSecret: Secret, aliceSeed: Secret, i: nat)
    requires IsRun(ws, es, root, bobSecret, aliceSeed) && i <= |es|
    ensures var w := ws[i];
            && (forall id | CarriesCt(w.net, id) ::
                  var st, ct := Of(w, Receiver(id)), w.net[id].wire.header.pqCt.value;
                  && st.pendingOffer == Some(KemPair(ct.pair))
                  && Decapsulate(st.pendingOffer.value, ct) == Shared(ct.encapSeed, ct.pair))
            && (forall a, b | CarriesCt(w.net, a) && CarriesCt(w.net, b) && Sender(a) == Sender(b) :: a == b)
            && w.alice.remixes - w.bob.remixes == |CtsFrom(w.net, Alice)| - |CtsFrom(w.net, Bob)|
            && |CtsFrom(w.net, Alice)| <= 1 && |CtsFrom(w.net, Bob)| <= 1
  {
    hide Inv;
    RunKeeps(ws, es, root, bobSecret, aliceSeed, i);
    PqFacts(ws[i]);
    AtMostOne(CtsFrom(ws[i].net, Alice));
    AtMostOne(CtsFrom(ws[i].net, Bob));
  }

  lemma AtMostOne(s: set<MsgId>)
    requires forall a, b | a in s && b in s :: a == b
    ensures |s| <= 1
  {
    if s != {} {
      var a :| a in s;
      assert s == {a};
    }
  }
}
