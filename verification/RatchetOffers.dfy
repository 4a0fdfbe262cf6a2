/** What becomes of a PQ offer whose message is overtaken: it is lost for good. */
module RatchetOffers {
  import opened Common
  import opened RatchetCrypto
  import opened Ratchet
  import opened RatchetWorld
  import opened RatchetSteps
  import opened RatchetRun

  /** `p` waits for an answer that nobody can give any more: its offer is not held by the
      other peer, every message that still carries it is overtaken, and no answer is
      in flight. */
  ghost predicate OfferLost(w: World, p: Peer)
    requires |w.chains| >= 2
  {
    && Of(w, p).pendingOffer.Some?
    && Of(w, Other(p)).peerOffer.None?
    && (forall id | CarriesEk(w.net, id) && Sender(id) == p :: Overtaken(w, Other(p), id))
    && (forall id | CarriesCt(w.net, id) :: Sender(id) == p)
  }

  /** Overtaking the message that carries an offer loses the offer. */
  lemma OvertakenOfferIsLost(w: World, id: MsgId)
    requires Inv(w) && CarriesEk(w.net, id) && Overtaken(w, Receiver(id), id)
    ensures OfferLost(w, Sender(id))
  {
    PeerFacts(w, Sender(id));
    assert OfferOk(w, Sender(id));
  }

  lemma DecryptPq(st: State, wire: Wire, ent: Entropy)
    requires st.Valid()
    ensures var st' := Decrypt(st, wire, ent).0;
            && (wire.header.pqCt.None? ==> st'.pendingOffer == st.pendingOffer)
            && (wire.header.pqEk.None? || (wire.header.dhPub, wire.header.n) in st.skipped
                ==> st'.peerOffer == st.peerOffer)
            && (st'.dhsPub == st.dhsPub && ent.dh != st.dhsPriv && st.dhsPub == Pub(st.dhsPriv) ==> st'.nr >= st.nr)
            && (st'.pendingOffer == st.pendingOffer || st'.pendingOffer.None?)
            && (st.peerOffer.Some? ==> st'.peerOffer.Some?)
            && (Decrypt(st, wire, ent).1.Ok? && wire.header.n == 0 && (wire.header.dhPub, wire.header.n) !in st.skipped
                ==> (wire.header.pqEk.Some? ==> st'.peerOffer.Some?) && (wire.header.pqCt.Some? ==> st'.pendingOffer.None?))
            && (st'.dhsPub != st.dhsPub ==> st.dhrPub != Some(wire.header.dhPub)
                                            && (wire.header.dhPub, wire.header.n) !in st.skipped)
  {
  }

  /** How any admissible delivery to `p` changes the world, keys left aside: the place
      `p` has reached only moves on, and the PQ exchange only moves if the message
      carries it there. */
  ghost predicate Delivered(w: World, w': World, p: Peer, id: MsgId) {
    && |w.chains| >= 2 && id in w.net && (w'.net == w.net || w'.net == w.net - {id})
    && Of(w', Other(p)) == Of(w, Other(p))
    && (if w'.chains == w.chains then Of(w', p).nr >= Of(w, p).nr
        else |w'.chains| == |w.chains| + 1 && Top(w, p) == |w.chains| - 2)
    && (!CarriesCt(w.net, id) ==> Of(w', p).pendingOffer == Of(w, p).pendingOffer)
    && (!CarriesEk(w.net, id) || Overtaken(w, p, id) ==> Of(w', p).peerOffer == Of(w, p).peerOffer)
    && (Of(w', p).pendingOffer == Of(w, p).pendingOffer || Of(w', p).pendingOffer.None?)
    && (Of(w, p).peerOffer.Some? ==> Of(w', p).peerOffer.Some?)
    && (id !in w'.net && !Overtaken(w, p, id) ==>
          (CarriesEk(w.net, id) ==> Of(w', p).peerOffer.Some?) && (CarriesCt(w.net, id) ==> Of(w', p).pendingOffer.None?))
  }

  lemma TurnsAtTheEnd(w: World, id: MsgId)
    requires ChainsOk(w.chains) && NetOk(w.net, w.chains) && PeerOk(w, Receiver(id))
    requires id in w.net && !Overtaken(w, Receiver(id), id)
    requires Of(w, Receiver(id)).dhrPub != Some(w.net[id].wire.header.dhPub)
    ensures Top(w, Receiver(id)) == |w.chains| - 2
  {
    WhereAhead(w, Receiver(id), id);
  }

  lemma DeliverIsDelivered(w: World, id: MsgId, ent: Entropy)
    requires Inv(w) && Ready(w) && Admissible(w, Deliver(id, ent))
    ensures Delivered(w, AfterDeliver(w, id, ent).0, Receiver(id), id)
  {
    var p := Receiver(id);
    PeerFacts(w, p);
    SlotIsOwn(w, id);
    assert PacketOk(w.net, w.chains, id);
    if !Overtaken(w, p, id) && Of(w, p).dhrPub != Some(w.net[id].wire.header.dhPub) { TurnsAtTheEnd(w, id); }
    ShapeOfDelivery(w, p, id, ent);
  }

  lemma ShapeOfDelivery(w: World, p: Peer, id: MsgId, ent: Entropy)
    requires Ready(w) && id in w.net && p == Receiver(id) && PeerOk(w, p) && Fresh(w, ent.dh)
    requires w.net[id].wire.header.n == id.n && (CarriesEk(w.net, id) || CarriesCt(w.net, id) ==> id.n == 0)
    requires var st, h := Of(w, p), w.net[id].wire.header;
             && ((h.dhPub, h.n) in st.skipped <==> Overtaken(w, p, id))
             && (Overtaken(w, p, id) || st.dhrPub == Some(h.dhPub) || Top(w, p) == |w.chains| - 2)
    ensures Delivered(w, AfterDeliver(w, id, ent).0, p, id)
  {
    assert w.chains[Top(w, p)] in w.chains;
    DecryptPq(Of(w, p), w.net[id].wire, ent);
  }

  /** A delivery never makes an overtaken message current again. */
  lemma OvertakenStays(w: World, w': World, p: Peer, id: MsgId, q: Peer, j: MsgId)
    requires Delivered(w, w', p, id) && Overtaken(w, q, j) && j in w'.net
    ensures Overtaken(w', q, j)
  {
  }

  lemma LostAfterDeliver(w: World, w': World, p: Peer, id: MsgId, q: Peer)
    requires Delivered(w, w', q, id) && q == Receiver(id) && OfferLost(w, p)
    ensures |w'.chains| >= 2 && OfferLost(w', p) && Of(w', p).pendingOffer == Of(w, p).pendingOffer
  {
    forall j | CarriesEk(w'.net, j) && Sender(j) == p
      ensures Overtaken(w', Other(p), j)
    {
      assert CarriesEk(w.net, j);
      OvertakenStays(w, w', q, id, Other(p), j);
    }
    assert forall j | CarriesCt(w'.net, j) :: CarriesCt(w.net, j);
  }

  lemma LostAfterSend(w: World, w': World, q: Peer, p: Peer)
    requires Sent(w, w', q) && SentPq(w, w', q, NewId(w, q)) && OfferLost(w, p)
    ensures OfferLost(w', p) && Of(w', p).pendingOffer == Of(w, p).pendingOffer
  {
    var id := NewId(w, q);
    assert forall r :: Top(w', r) == Top(w, r);
    assert forall j | j != id :: CarriesEk(w'.net, j) == CarriesEk(w.net, j)
                              && CarriesCt(w'.net, j) == CarriesCt(w.net, j);
  }

  lemma LostAfter(w: World, e: Event, p: Peer)
    requires Inv(w) && Ready(w) && Admissible(w, e) && OfferLost(w, p)
    ensures var w' := Apply(w, e);
            |w'.chains| >= 2 && OfferLost(w', p) && Of(w', p).pendingOffer == Of(w, p).pendingOffer
  {
    match e
    case Send(q, text, ent) =>
      if Of(w, q).cks.Some? {
        PeerFacts(w, q);
        SendIsSent(w, q, text, ent);
        SendIsSentPq(w, q, text, ent);
        LostAfterSend(w, AfterSend(w, q, text, ent), q, p);
      } else {
        assert AfterSend(w, q, text, ent) == w;
      }
    case Deliver(id, ent) =>
      DeliverIsDelivered(w, id, ent);
      LostAfterDeliver(w, AfterDeliver(w, id, ent).0, p, id, Receiver(id));
  }

  lemma LostStep(ws: seq<World>, es: seq<Event>, root: Key, bobSecret: Secret, aliceSeed: Secret, p: Peer, i: nat)
    requires IsRun(ws, es, root, bobSecret, aliceSeed) && i < |es|
    requires |ws[i].chains| >= 2 && OfferLost(ws[i], p)
    ensures |ws[i + 1].chains| >= 2 && OfferLost(ws[i + 1], p)
    ensures Of(ws[i + 1], p).pendingOffer == Of(ws[i], p).pendingOffer
  {
    RunKeeps(ws, es, root, bobSecret, aliceSeed, i);
    LostAfter(ws[i], es[i], p);
  }

  /** Once an offer is lost it stays pending over every continuation of the run, and its
      sender makes no further offer and mixes in no further secret of its own making. */
  lemma {:induction false} LostForever(
    ws: seq<World>, es: seq<Event>, root: Key, bobSecret: Secret, aliceSeed: Secret, p: Peer, i: nat, j: nat)
    requires IsRun(ws, es, root, bobSecret, aliceSeed) && i <= j <= |es|
    requires |ws[i].chains| >= 2 && OfferLost(ws[i], p)
    ensures |ws[j].chains| >= 2 && OfferLost(ws[j], p)
    ensures Of(ws[j], p).pendingOffer == Of(ws[i], p).pendingOffer && !Offers(Of(ws[j], p))
    decreases j
  {
    if i < j {
      LostForever(ws, es, root, bobSecret, aliceSeed, p, i, j - 1);
      LostStep(ws, es, root, bobSecret, aliceSeed, p, j - 1);
    }
  }

  // ---- No other way to lose an offer ----------------------------------------------

  /** The offer travels ahead of the other peer, or is held there, or its answer travels. */
  ghost predicate OfferLive(w: World, p: Peer)
    requires |w.chains| >= 2
  {
    && Of(w, p).pendingOffer.Some?
    && (|| Of(w, Other(p)).peerOffer.Some?
        || (exists id :: CarriesEk(w.net, id) && Sender(id) == p && !Overtaken(w, Other(p), id))
        || (exists id :: CarriesCt(w.net, id) && Sender(id) != p))
  }

  lemma LiveOrLost(w: World, p: Peer)
    requires |w.chains| >= 2 && Of(w, p).pendingOffer.Some?
    ensures OfferLive(w, p) <==> !OfferLost(w, p)
  {
  }

  /** A message of `p` that carries an offer has been overtaken. */
  ghost predicate CarrierOvertaken(w: World, p: Peer, id: MsgId) {
    |w.chains| >= 2 && CarriesEk(w.net, id) && Sender(id) == p && Overtaken(w, Other(p), id)
  }

  /** A delivery loses an offer only by overtaking the message that carries it. */
  lemma LostByDelivery(w: World, w': World, q: Peer, id: MsgId, p: Peer)
    requires Delivered(w, w', q, id) && q == Receiver(id) && (CarriesCt(w.net, id) ==> !Overtaken(w, q, id))
    requires |w'.chains| >= 2 && !OfferLost(w, p) && OfferLost(w', p)
    ensures exists j :: CarriesEk(w.net, j) && !Overtaken(w, Other(p), j) && CarrierOvertaken(w', p, j)
  {
    assert Of(w, p).pendingOffer.Some?;
    LiveOrLost(w, p);
    forall j | CarriesCt(w.net, j) ensures Sender(j) == p { assert j in w'.net ==> CarriesCt(w'.net, j); }
    assert Of(w, Other(p)).peerOffer.None?;
    var j :| CarriesEk(w.net, j) && Sender(j) == p && !Overtaken(w, Other(p), j);
    assert CarriesEk(w'.net, j) && CarrierOvertaken(w', p, j);
  }

  /** A send loses none. */
  lemma KeptBySend(w: World, w': World, q: Peer, p: Peer)
    requires Sent(w, w', q) && SentPq(w, w', q, NewId(w, q)) && PeerOk(w, Other(q)) && PeerOk(w, q)
    requires !OfferLost(w, p)
    ensures |w'.chains| >= 2 && !OfferLost(w', p)
  {
    var id := NewId(w, q);
    assert forall r :: Top(w', r) == Top(w, r) && Of(w', r).nr == Of(w, r).nr;
    assert forall j | j != id :: CarriesEk(w'.net, j) == CarriesEk(w.net, j)
                              && CarriesCt(w'.net, j) == CarriesCt(w.net, j);
    assert !Overtaken(w', Other(q), id);
    assert forall j, r | j != id :: Overtaken(w', r, j) == Overtaken(w, r, j);
    if Of(w, p).pendingOffer.None? {
      assert Of(w', p).pendingOffer.None? || (CarriesEk(w'.net, id) && Sender(id) == p && Other(p) == Other(q));
    } else {
      LiveOrLostUnlessNone(w, p);
      LiveAfterSend(w, w', q, p);
      LiveOrLost(w', p);
    }
  }

  lemma LiveAfterSend(w: World, w': World, q: Peer, p: Peer)
    requires Sent(w, w', q) && SentPq(w, w', q, NewId(w, q)) && OfferLive(w, p)
    ensures OfferLive(w', p)
  {
    var id := NewId(w, q);
    assert forall r :: Top(w', r) == Top(w, r) && Of(w', r).nr == Of(w, r).nr;
    if Of(w, Other(p)).peerOffer.Some? {
      assert Of(w', Other(p)).peerOffer.Some? || (CarriesCt(w'.net, id) && Sender(id) == q == Other(p));
    } else if j :| CarriesEk(w.net, j) && Sender(j) == p && !Overtaken(w, Other(p), j) {
      assert CarriesEk(w'.net, j) && !Overtaken(w', Other(p), j);
    } else {
      var j :| CarriesCt(w.net, j) && Sender(j) != p;
      assert CarriesCt(w'.net, j);
    }
  }

  lemma LiveOrLostUnlessNone(w: World, p: Peer)
    requires |w.chains| >= 2 && !OfferLost(w, p)
    ensures Of(w, p).pendingOffer.None? || OfferLive(w, p)
  {
  }

  lemma SendLosesNone(w: World, q: Peer, text: Bytes, ent: Entropy, p: Peer)
    requires Inv(w) && Ready(w) && !OfferLost(w, p)
    ensures var w' := AfterSend(w, q, text, ent); |w'.chains| >= 2 && !OfferLost(w', p)
  {
    if Of(w, q).cks.Some? {
      PeerFacts(w, q);
      PeerFacts(w, Other(q));
      SendIsSent(w, q, text, ent);
      SendIsSentPq(w, q, text, ent);
      KeptBySend(w, AfterSend(w, q, text, ent), q, p);
    } else {
      assert AfterSend(w, q, text, ent) == w;
    }
  }

  /** The one way to lose an offer, over every admissible step. */
  lemma LostOnlyByOvertaking(w: World, e: Event, p: Peer)
    requires Inv(w) && Ready(w) && Admissible(w, e) && !OfferLost(w, p)
    requires |Apply(w, e).chains| >= 2 && OfferLost(Apply(w, e), p)
    ensures exists j :: CarriesEk(w.net, j) && !Overtaken(w, Other(p), j) && CarrierOvertaken(Apply(w, e), p, j)
  {
    match e
    case Send(q, text, ent) => SendLosesNone(w, q, text, ent, p);
    case Deliver(id, ent) =>
      DeliverIsDelivered(w, id, ent);
      if Overtaken(w, Receiver(id), id) { CacheFacts(w, Receiver(id)); }
      LostByDelivery(w, AfterDeliver(w, id, ent).0, Receiver(id), id, p);
  }

  lemma CacheFacts(w: World, p: Peer)
    requires Inv(w)
    ensures |w.chains| >= 2 && CacheHolds(w, p)
  {
  }

  lemma {:induction false} LossHasCause(ws: seq<World>, es: seq<Event>, root: Key, bobSecret: Secret, aliceSeed: Secret, p: Peer, i: nat)
    requires IsRun(ws, es, root, bobSecret, aliceSeed) && i <= |es|
    requires |ws[i].chains| >= 2 && OfferLost(ws[i], p)
    ensures exists j, id :: 0 <= j <= i && CarrierOvertaken(ws[j], p, id)
  {
    RunKeeps(ws, es, root, bobSecret, aliceSeed, 0);
    assert i > 0;
    RunKeeps(ws, es, root, bobSecret, aliceSeed, i - 1);
    if OfferLost(ws[i - 1], p) {
      LossHasCause(ws, es, root, bobSecret, aliceSeed, p, i - 1);
      var j, id :| 0 <= j <= i - 1 && CarrierOvertaken(ws[j], p, id);
    } else {
      LostOnlyByOvertaking(ws[i - 1], es[i - 1], p);
      var id :| CarrierOvertaken(ws[i], p, id);
    }
  }

  /** Exactly when an offer is lost: at any point of any run, an offer that is pending is
      still live if and only if no message of its sender that carried an offer has ever been
      overtaken. */
  lemma OfferFate(ws: seq<World>, es: seq<Event>, root: Key, bobSecret: Secret, aliceSeed: Secret, p: Peer, i: nat)
    requires IsRun(ws, es, root, bobSecret, aliceSeed) && i <= |es|
    ensures |ws[i].chains| >= 2
    ensures OfferLost(ws[i], p) <==> exists j, id :: 0 <= j <= i && CarrierOvertaken(ws[j], p, id)
    ensures Of(ws[i], p).pendingOffer.Some? ==> (OfferLive(ws[i], p) <==> !exists j, id :: 0 <= j <= i && CarrierOvertaken(ws[j], p, id))
  {
    RunKeeps(ws, es, root, bobSecret, aliceSeed, i);
    if OfferLost(ws[i], p) {
      LossHasCause(ws, es, root, bobSecret, aliceSeed, p, i);
    }
    if j, id :| 0 <= j <= i && CarrierOvertaken(ws[j], p, id) {
      RunKeeps(ws, es, root, bobSecret, aliceSeed, j);
      OvertakenOfferIsLost(ws[j], id);
      LostForever(ws, es, root, bobSecret, aliceSeed, p, j, i);
    }
    if Of(ws[i], p).pendingOffer.Some? { LiveOrLost(ws[i], p); }
  }
}
