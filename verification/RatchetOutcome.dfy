/** What each message operation does, said of the state and the message alone: when a send
    offers and when it answers, which messages are refused, and what a refusal leaves. */
module RatchetOutcome {
  import opened Common
  import opened RatchetCrypto
  import opened Ratchet
  import opened RatchetWorld
  import opened RatchetSteps
  import opened RatchetRun

  // ---- Sending --------------------------------------------------------------------

  /** The first message of a chain, and no other, answers the offer the peer made; and if its
      sender has no pending offer it carries one in every third turn, an answer or not. */
  ghost predicate SendsPq(before: State, after: State, h: Header, ent: Entropy) {
    && (h.pqCt.Some? <==> before.ns == 0 && before.peerOffer.Some?)
    && (h.pqEk.Some? <==> before.ns == 0 && before.pendingOffer.None? && before.turns > 0 && before.turns % 3 == 0)
    && (h.pqCt.Some? ==> h.pqCt.value == KemCt(ent.pqEncap, before.peerOffer.value.seed)
                         && after.peerOffer.None? && after.remixes == before.remixes + 1)
    && (h.pqCt.None? ==> after.peerOffer == before.peerOffer && after.remixes == before.remixes)
    && (h.pqEk.Some? ==> h.pqEk.value == KemEk(ent.pqPair) && after.pendingOffer == Some(KemPair(ent.pqPair)))
    && (h.pqEk.None? ==> after.pendingOffer == before.pendingOffer)
  }

  /** A peer with a sending chain can always send, one without never can. The header names
      its key, the length of its last chain and the next number. */
  lemma HeaderSent(st: State, text: Bytes, ent: Entropy)
    ensures var (st', r) := Encrypt(st, text, ent);
            if st.cks.None? then st' == st && r == Err(CannotSendYet)
            else
              && r.Ok? && SendsPq(st, st', r.value.header, ent)
              && r.value.header.dhPub == st.dhsPub && r.value.header.pn == st.pn && r.value.header.n == st.ns
              && st'.ns == st.ns + 1 && st'.cks.Some?
              && st' == st.(ns := st'.ns, cks := st'.cks, pendingOffer := st'.pendingOffer,
                            peerOffer := st'.peerOffer, remixes := st'.remixes)
  {
  }

  /** What one send puts in flight, and nothing else. */
  ghost predicate PutsInFlight(w: World, w': World, p: Peer, text: Bytes, ent: Entropy)
    requires |w.chains| >= 2
  {
    var id := MsgId(Top(w, p), w.chains[Top(w, p)].sent);
    && id !in w.net && w'.net.Keys == w.net.Keys + {id} && (forall j | j in w.net :: w'.net[j] == w.net[j])
    && w'.net[id].text == text
    && SendsPq(Of(w, p), Of(w', p), w'.net[id].wire.header, ent)
    && (CarriesEk(w'.net, id) <==> id.n == 0 && Of(w, p).pendingOffer.None? && (Top(w, p) + 1) / 2 % 3 == 0)
    && (CarriesCt(w'.net, id) <==> id.n == 0 && Of(w, p).peerOffer.Some?)
  }

  /** Over every run: Bob sends nothing before his first receive; any other send puts one
      message in flight, the next of the sender's newest chain. It offers exactly when it is
      the first of every third chain of its sender and no offer of the sender is pending,
      and answers exactly when it is the first of its chain and the sender holds an offer. */
  lemma EverySend(ws: seq<World>, es: seq<Event>, root: Key, bobSecret: Secret, aliceSeed: Secret, i: nat)
    requires IsRun(ws, es, root, bobSecret, aliceSeed) && i < |es| && es[i].Send?
    ensures Ready(ws[i])
    ensures var w, p := ws[i], es[i].peer;
            if Top(w, p) == 0 then ws[i + 1] == w else PutsInFlight(w, ws[i + 1], p, es[i].text, es[i].ent)
  {
    hide PutsInFlight, Encrypt, AfterSend, ChainsOk, NetOk, AheadOk, OfferOk;
    var w, p := ws[i], es[i].peer;
    RunKeeps(ws, es, root, bobSecret, aliceSeed, i);
    PeerFacts(w, p);
    if Top(w, p) > 0 {
      OneSend(w, p, es[i].text, es[i].ent);
    } else {
      NoSend(w, p, es[i].text, es[i].ent);
    }
  }

  lemma NoSend(w: World, p: Peer, text: Bytes, ent: Entropy)
    requires Ready(w) && Of(w, p).cks.None?
    ensures AfterSend(w, p, text, ent) == w
  {
  }

  lemma NotYetSent(w: World, id: MsgId)
    requires NetOk(w.net, w.chains) && id.chain < |w.chains| && id.n >= w.chains[id.chain].sent
    ensures id !in w.net
  {
    assert id in w.net ==> PacketOk(w.net, w.chains, id);
  }

  lemma OneSend(w: World, p: Peer, text: Bytes, ent: Entropy)
    requires Ready(w) && NetOk(w.net, w.chains) && PeerOk(w, p) && Top(w, p) > 0
    ensures PutsInFlight(w, AfterSend(w, p, text, ent), p, text, ent)
  {
    hide SendsPq, Encrypt, NetOk;
    NotYetSent(w, NewId(w, p));
    HeaderSent(Of(w, p), text, ent);
    OfferByTurn(w, p, text, ent);
  }

  lemma OfferByTurn(w: World, p: Peer, text: Bytes, ent: Entropy)
    requires |w.chains| >= 2 && PeerOk(w, p) && Top(w, p) > 0
    requires var (st', r) := Encrypt(Of(w, p), text, ent); r.Ok? && SendsPq(Of(w, p), st', r.value.header, ent)
    ensures var h := Encrypt(Of(w, p), text, ent).1.value.header;
            && (h.pqEk.Some? <==> w.chains[Top(w, p)].sent == 0 && Of(w, p).pendingOffer.None? && (Top(w, p) + 1) / 2 % 3 == 0)
            && (h.pqCt.Some? <==> w.chains[Top(w, p)].sent == 0 && Of(w, p).peerOffer.Some?)
  {
    hide Encrypt;
  }

  // ---- Receiving ------------------------------------------------------------------

  predicate IsCached(st: State, h: Header) {
    (h.dhPub, h.n) in st.skipped
  }

  /** The message is of the chain `st` receives on. */
  predicate IsCurrent(st: State, h: Header) {
    st.dhrPub == Some(h.dhPub)
  }

  /** Which messages are refused before any key is tried, whoever made them: a number already
      used up, a gap of more than 25 on the chain left or on the chain entered, and a
      message on a chain nobody derived. All other refusals are a wrong tag. Only a gap on
      the chain entered leaves a trace, the turn; and a cached key is gone after its first
      use, opened or not. */
  lemma RefusedBeforeOpening(st: State, wire: Wire, ent: Entropy)
    requires st.Valid()
    ensures var (st', r) := Decrypt(st, wire, ent);
            var h := wire.header;
            && (r == Err(AlreadyConsumed) <==> !IsCached(st, h) && IsCurrent(st, h) && h.n < st.nr)
            && (r == Err(NoReceivingChain) <==> !IsCached(st, h) && IsCurrent(st, h) && h.n >= st.nr && st.ckr.None?)
            && (r == Err(TooManySkipped) <==>
                  && !IsCached(st, h)
                  && if IsCurrent(st, h) then st.ckr.Some? && h.n > st.nr + 25
                     else (st.ckr.Some? && h.pn > st.nr + 25) || h.n > 25)
            && (r.Err? && r.error in {AlreadyConsumed, NoReceivingChain} ==> st' == st)
            && (r == Err(TooManySkipped) && (IsCurrent(st, h) || (st.ckr.Some? && h.pn > st.nr + 25)) ==> st' == st)
            && (r == Err(TooManySkipped) && !IsCurrent(st, h) && !(st.ckr.Some? && h.pn > st.nr + 25) ==>
                  IsCurrent(st', h) && st'.nr == 0 && st'.dhsPub == Pub(ent.dh) && st'.turns == st.turns + 1)
            && (IsCached(st, h) ==> st' == st.(skipped := st.skipped - {(h.dhPub, h.n)}))
            && (r.Err? ==> r.error != CannotSendYet)
            && (r.Ok? ==> wire.body.aad == h && r.value == wire.body.text)
  {
  }

  /** What an opened message leaves: from the cache, its slot alone is gone; otherwise its
      number is the last one used of the chain of its key, and a message of a new key has
      started a sending chain of its own. */
  lemma AfterOpening(st: State, wire: Wire, ent: Entropy)
    requires st.Valid() && Decrypt(st, wire, ent).1.Ok?
    ensures var st', h := Decrypt(st, wire, ent).0, wire.header;
            && !IsCached(st', h)
            && (IsCached(st, h) ==> st' == st.(skipped := st'.skipped) && st'.skipped.Keys == st.skipped.Keys - {(h.dhPub, h.n)})
            && (!IsCached(st, h) ==> IsCurrent(st', h) && st'.nr == h.n + 1 && st'.ckr.Some?)
            && (!IsCached(st, h) && IsCurrent(st, h) ==>
                  && st'.dhsPub == st.dhsPub && st'.rk == st.rk && st'.cks == st.cks
                  && st'.ns == st.ns && st'.pn == st.pn && st'.turns == st.turns)
            && (!IsCached(st, h) && !IsCurrent(st, h) ==>
                  st'.dhsPub == Pub(ent.dh) && st'.cks.Some? && st'.ns == 0 && st'.pn == st.ns && st'.turns == st.turns + 1)
  {
  }

  /** An opened message of the current chain is not opened again: the very next delivery of it
      is refused and changes nothing, cached messages aside. */
  lemma NotTwice(st: State, wire: Wire, ent: Entropy, wire': Wire, ent': Entropy)
    requires st.Valid() && Decrypt(st, wire, ent).1.Ok? && !IsCached(st, wire.header)
    requires wire'.header.dhPub == wire.header.dhPub && wire'.header.n == wire.header.n
    ensures var st' := Decrypt(st, wire, ent).0;
            st'.Valid() && Decrypt(st', wire', ent') == (st', Err(AlreadyConsumed))
  {
    hide Decrypt;
    var st' := Decrypt(st, wire, ent).0;
    AfterOpening(st, wire, ent);
    RefusedBeforeOpening(st', wire', ent');
  }
}
