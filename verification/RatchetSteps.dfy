/** Every elementary move of a peer keeps the world invariant: a send, a skip within
    the receiving chain, a DH turn, and the consumption of one message. */
module RatchetSteps {
  import opened Common
  import opened RatchetCrypto
  import opened Ratchet
  import opened RatchetWorld

  /** Message `j` is protected by the same key in both worlds. */
  ghost predicate SameKey(w: World, w': World, j: MsgId) {
    && j.chain < |w.chains| <= |w'.chains|
    && w'.chains[j.chain].secret == w.chains[j.chain].secret
    && MessageKey(w'.chains[j.chain], j.n) == MessageKey(w.chains[j.chain], j.n)
    && (CarriesCt(w'.net, j) ==> CarriesCt(w.net, j))
  }

  /** An exact cache stays exact while the same messages are overtaken. */
  lemma CacheStays(w: World, w': World, q: Peer)
    requires |w.chains| >= 2 && |w'.chains| >= 2 && CacheOk(w, q)
    requires Of(w', q).skipped == Of(w, q).skipped
    requires forall j :: Overtaken(w', q, j) == Overtaken(w, q, j)
    requires forall j | Overtaken(w, q, j) :: SameKey(w, w', j)
    ensures CacheOk(w', q)
  {
    forall j | Overtaken(w', q, j)
      ensures j.chain < |w'.chains| && Slot(w', j) in Of(w', q).skipped
      ensures Of(w', q).skipped[Slot(w', j)] == MessageKey(w'.chains[j.chain], j.n)
      ensures !CarriesCt(w'.net, j)
    {
      assert Overtaken(w, q, j);
    }
    forall slot | slot in Of(w', q).skipped
      ensures exists j :: Overtaken(w', q, j) && InSlot(w', j, slot)
    {
      var j :| Overtaken(w, q, j) && InSlot(w, j, slot);
      assert Overtaken(w', q, j) && InSlot(w', j, slot);
    }
  }

  // ---- Sends ----------------------------------------------------------------------

  function NewId(w: World, p: Peer): MsgId
    requires |w.chains| >= 2
  {
    MsgId(Top(w, p), Of(w, p).ns)
  }

  /** How a successful send changes the world, without the keys. */
  ghost predicate Sent(w: World, w': World, p: Peer) {
    && |w'.chains| == |w.chains| >= 2
    && var s, id := Top(w, p), NewId(w, p);
    && w'.chains == w.chains[s := w.chains[s].(sent := w.chains[s].sent + 1, mix := w'.chains[s].mix)]
    && (Of(w, p).ns > 0 ==> w'.chains[s].mix == w.chains[s].mix)
    && id in w'.net && w'.net == w.net[id := w'.net[id]]
    && Of(w', Other(p)) == Of(w, Other(p))
    && Of(w', p).nr == Of(w, p).nr && Of(w', p).skipped == Of(w, p).skipped
  }

  lemma SendIsSent(w: World, p: Peer, text: Bytes, ent: Entropy)
    requires Ready(w) && Of(w, p).cks.Some? && PeerOk(w, p)
    ensures Sent(w, AfterSend(w, p, text, ent), p)
  {
  }

  lemma SendPeer(w: World, p: Peer, text: Bytes, ent: Entropy)
    requires Ready(w) && Of(w, p).cks.Some? && ChainsOk(w.chains) && PeerOk(w, p)
    ensures var w' := AfterSend(w, p, text, ent); ChainsOk(w'.chains) && PeerOk(w', p)
  {
    var w' := AfterSend(w, p, text, ent);
    var s := Top(w, p);
    assert Top(w', p) == s;
    assert HeldKey(w'.chains[s], Of(w', p).ns) == NextChain(Advance(Start(w'.chains[s]), Of(w, p).ns));
  }

  lemma SentPeer(w: World, w': World, p: Peer)
    requires Sent(w, w', p) && PeerOk(w, Other(p)) && PeerOk(w, p)
    ensures PeerOk(w', Other(p))
  {
    var s, q := Top(w, p), Top(w, Other(p));
    assert Top(w', Other(p)) == q && q != s;
  }

  lemma SendNet(w: World, p: Peer, text: Bytes, ent: Entropy)
    requires Ready(w) && Of(w, p).cks.Some? && PeerOk(w, p) && NetOk(w.net, w.chains)
    requires ChainsOk(w.chains)
    ensures var w' := AfterSend(w, p, text, ent); NetOk(w'.net, w'.chains)
  {
    var w' := AfterSend(w, p, text, ent);
    SendIsSent(w, p, text, ent);
    forall id | id in w'.net
      ensures PacketOk(w'.net, w'.chains, id)
    {
      if id != NewId(w, p) { OldPacket(w, w', p, id); }
    }
  }

  lemma OldPacket(w: World, w': World, p: Peer, id: MsgId)
    requires Sent(w, w', p) && NetOk(w.net, w.chains) && PeerOk(w, p)
    requires id in w.net && id != NewId(w, p)
    ensures PacketOk(w'.net, w'.chains, id)
  {
    assert PacketOk(w.net, w.chains, id);
    assert w'.net[id] == w.net[id];
    assert id.chain == Top(w, p) ==> id.n < Of(w, p).ns;
    assert id.chain != Top(w, p) + 2;
  }

  lemma SentOne(w: World, w': World, p: Peer, q: Peer, j: MsgId)
    requires Sent(w, w', p) && NetOk(w.net, w.chains) && PeerOk(w, p) && PeerOk(w, q)
    ensures Overtaken(w', q, j) == Overtaken(w, q, j)
    ensures Overtaken(w, q, j) ==> SameKey(w, w', j)
  {
    assert Top(w', q) == Top(w, q);
    if j in w.net {
      assert PacketOk(w.net, w.chains, j);
      assert j.chain == Top(w, p) ==> j.n < Of(w, p).ns;
    }
  }

  lemma SentCaches(w: World, w': World, p: Peer, q: Peer)
    requires Sent(w, w', p) && NetOk(w.net, w.chains) && PeerOk(w, p) && PeerOk(w, q) && CacheOk(w, q)
    ensures CacheOk(w', q)
  {
    forall j
      ensures Overtaken(w', q, j) == Overtaken(w, q, j)
      ensures Overtaken(w, q, j) ==> SameKey(w, w', j)
    {
      SentOne(w, w', p, q, j);
    }
    CacheStays(w, w', q);
  }

  lemma SentAhead(w: World, w': World, p: Peer, q: Peer)
    requires Sent(w, w', p) && AheadOk(w, q)
    requires PeerOk(w, p)
    ensures AheadOk(w', q)
  {
    forall id | Ahead(w', q, id)
      ensures id in w'.net
    {
      assert id == NewId(w, p) || Ahead(w, q, id);
    }
  }

  /** What a send does to the PQ exchange: it may put an offer in flight, which becomes
      the pending pair, and it may put the answer to the offer it held in flight. */
  ghost predicate SentPq(w: World, w': World, p: Peer, id: MsgId) {
    var st, st' := Of(w, p), Of(w', p);
    && Sender(id) == p && id !in w.net && id in w'.net && w'.net == w.net[id := w'.net[id]]
    && Of(w', Other(p)) == Of(w, Other(p))
    && (if CarriesEk(w'.net, id)
        then st.pendingOffer.None? && st'.pendingOffer == Some(KemPair(w'.net[id].wire.header.pqEk.value.seed))
        else st'.pendingOffer == st.pendingOffer)
    && (if CarriesCt(w'.net, id)
        then && st.peerOffer == Some(KemEk(w'.net[id].wire.header.pqCt.value.pair))
             && st'.peerOffer.None? && st'.remixes == st.remixes + 1
        else st'.peerOffer == st.peerOffer && st'.remixes == st.remixes)
  }

  lemma SendIsSentPq(w: World, p: Peer, text: Bytes, ent: Entropy)
    requires Ready(w) && Of(w, p).cks.Some? && PeerOk(w, p) && NetOk(w.net, w.chains)
    ensures SentPq(w, AfterSend(w, p, text, ent), p, NewId(w, p))
  {
    var id := NewId(w, p);
    assert id in w.net ==> PacketOk(w.net, w.chains, id);
  }

  lemma SentOwnOffer(w: World, w': World, p: Peer, id: MsgId)
    requires SentPq(w, w', p, id) && OfferOk(w, p)
    ensures OfferOk(w', p)
  {
    assert forall j | j != id :: CarriesEk(w'.net, j) == CarriesEk(w.net, j);
    assert forall j | Sender(j) == Other(p) :: CarriesCt(w'.net, j) == CarriesCt(w.net, j);
  }

  lemma SentOtherOffer(w: World, w': World, p: Peer, id: MsgId)
    requires SentPq(w, w', p, id) && OfferOk(w, Other(p))
    ensures OfferOk(w', Other(p))
  {
    assert forall j | Sender(j) == Other(p) :: CarriesEk(w'.net, j) == CarriesEk(w.net, j);
    assert forall j | j != id :: CarriesCt(w'.net, j) == CarriesCt(w.net, j);
  }

  lemma CtsAdded(net: Net, id: MsgId, pk: Packet, p: Peer)
    requires id !in net
    ensures CtsFrom(net[id := pk], p)
         == CtsFrom(net, p) + if Sender(id) == p && pk.wire.header.pqCt.Some? then {id} else {}
  {
  }

  lemma SentRemix(w: World, w': World, p: Peer, id: MsgId)
    requires SentPq(w, w', p, id) && RemixOk(w)
    ensures RemixOk(w')
  {
    CtsAdded(w.net, id, w'.net[id], p);
    CtsAdded(w.net, id, w'.net[id], Other(p));
    assert id !in CtsFrom(w.net, p);
  }

  /** Any send, answered with an error or not, keeps the invariant. */
  lemma SendKeeps(w: World, p: Peer, text: Bytes, ent: Entropy)
    requires Inv(w)
    ensures Inv(AfterSend(w, p, text, ent))
  {
    var w', q := AfterSend(w, p, text, ent), Other(p);
    if Of(w, p).cks.None? {
      assert w' == w;
    } else {
      assert PeerInv(w, p) && PeerInv(w, q);
      SendIsSent(w, p, text, ent);
      SendPeer(w, p, text, ent);
      SentPeer(w, w', p);
      SendNet(w, p, text, ent);
      SendIsSentPq(w, p, text, ent);
      SentRemix(w, w', p, NewId(w, p));
      SentOwnOffer(w, w', p, NewId(w, p));
      SentOtherOffer(w, w', p, NewId(w, p));
      SentAhead(w, w', p, p);
      SentAhead(w, w', p, q);
      SentCaches(w, w', p, p);
      SentCaches(w, w', p, q);
      assert PeerInv(w', p) && PeerInv(w', q);
    }
  }

  // ---- Skips within the receiving chain -------------------------------------------

  /** The chain `p` receives on, once it has received anything. */
  function Recv(w: World, p: Peer): nat
    requires |w.chains| >= 2 && Top(w, p) >= 1
  {
    Top(w, p) - 1
  }

  /** `p` may skip to `until`: the numbers exist, are within MAX_SKIP, and the chain's
      first message is not skipped if it folded in a PQ secret. */
  predicate CanSkip(w: World, p: Peer, until: nat)
    requires |w.chains| >= 2
  {
    && Top(w, p) >= 2
    && Of(w, p).nr <= until <= w.chains[Recv(w, p)].sent
    && until <= Of(w, p).nr + MAX_SKIP
    && (w.chains[Recv(w, p)].mix.Some? && until > 0 ==> Of(w, p).nr > 0)
  }

  lemma HeldAdvances(c: Chain, from: nat, until: nat)
    requires from <= until && (c.mix.Some? && until > 0 ==> from > 0)
    ensures HeldKey(c, until) == Advance(HeldKey(c, from), until - from)
    ensures forall n | from <= n < until :: MessageOf(Advance(HeldKey(c, from), n - from)) == MessageKey(c, n)
  {
    forall n | from <= n <= until
      ensures Advance(HeldKey(c, from), n - from) == HeldKey(c, n)
      ensures n < until ==> HeldKey(c, n) == ChainKey(c, n)
    {
      AdvanceAdd(Start(c), from, n - from);
    }
  }

  /** How a skip changes the world: the numbers passed over are cached. */
  ghost predicate Skipped(w: World, w': World, p: Peer, until: nat) {
    && |w.chains| >= 2 && CanSkip(w, p, until)
    && w'.net == w.net && w'.chains == w.chains && Of(w', Other(p)) == Of(w, Other(p))
    && var st, st', c := Of(w, p), Of(w', p), w.chains[Recv(w, p)];
    && st' == st.(nr := until, ckr := Some(HeldKey(c, until)), skipped := st'.skipped)
    && CachedTo(st.skipped, st'.skipped, c, st.nr, until)
  }

  predicate InRange(slot: (Pub, nat), c: Chain, from: nat, until: nat) {
    slot.0 == Pub(c.secret) && from <= slot.1 < until
  }

  ghost predicate CachedTo(cache: SkippedKeys, cache': SkippedKeys, c: Chain, from: nat, until: nat) {
    && (forall slot: (Pub, nat) :: slot in cache' <==> slot in cache || InRange(slot, c, from, until))
    && (forall slot: (Pub, nat) | slot in cache' ::
          cache'[slot] == if InRange(slot, c, from, until) then MessageKey(c, slot.1) else cache[slot])
  }

  lemma RangeIsCached(cache: SkippedKeys, c: Chain, from: nat, until: nat)
    requires from <= until && (c.mix.Some? && until > 0 ==> from > 0)
    ensures CachedTo(cache, Cached(cache, Pub(c.secret), HeldKey(c, from), from, until), c, from, until)
  {
    HeldAdvances(c, from, until);
  }

  lemma NoneIsCached(cache: SkippedKeys, c: Chain, from: nat)
    ensures CachedTo(cache, cache, c, from, from)
  {
  }

  lemma SkipMoves(w: World, p: Peer, until: nat)
    requires Ready(w) && PeerOk(w, p) && CanSkip(w, p, until)
    ensures SkipTo(Of(w, p), until).Ok?
    ensures Skipped(w, With(w, p, SkipTo(Of(w, p), until).value), p, until)
  {
    var st, c := Of(w, p), w.chains[Recv(w, p)];
    HeldAdvances(c, st.nr, until);
    RangeIsCached(st.skipped, c, st.nr, until);
    NoneIsCached(st.skipped, c, st.nr);
  }

  lemma SkipPeer(w: World, w': World, p: Peer, until: nat)
    requires Skipped(w, w', p, until) && PeerOk(w, p) && PeerOk(w, Other(p))
    ensures PeerOk(w', p) && PeerOk(w', Other(p))
  {
    assert Top(w', p) == Top(w, p) && Top(w', Other(p)) == Top(w, Other(p));
  }

  predicate SamePqState(st: State, st': State) {
    st'.pendingOffer == st.pendingOffer && st'.peerOffer == st.peerOffer && st'.remixes == st.remixes
  }

  /** Skips and turns leave the PQ exchange alone. */
  lemma SamePq(w: World, w': World)
    requires w'.net == w.net
    requires SamePqState(w.alice, w'.alice) && SamePqState(w.bob, w'.bob)
    requires RemixOk(w) && OfferOk(w, Alice) && OfferOk(w, Bob)
    ensures RemixOk(w') && OfferOk(w', Alice) && OfferOk(w', Bob)
  {
  }

  lemma SkipCaches(w: World, w': World, p: Peer, until: nat)
    requires Skipped(w, w', p, until) && ChainsOk(w.chains) && NetOk(w.net, w.chains) && AheadOk(w, p) && CacheOk(w, p)
    ensures AheadOk(w', p) && CacheOk(w', p)
  {
    SkipAhead(w, w', p, until);
    SkipCacheHolds(w, w', p, until);
    SkipCacheOnly(w, w', p, until);
  }

  lemma SkipKeepsOther(w: World, w': World, p: Peer, until: nat)
    requires Skipped(w, w', p, until) && PeerOk(w, p) && PeerInv(w, Other(p)) && OfferOk(w, p) && RemixOk(w)
    ensures PeerInv(w', Other(p)) && PeerOk(w', p) && OfferOk(w', p) && RemixOk(w')
  {
    SkipPeer(w, w', p, until);
    SamePq(w, w');
    SameCaches(w, w', Other(p));
  }

  lemma SkipKeeps(w: World, w': World, p: Peer, until: nat)
    requires Inv(w) && Skipped(w, w', p, until)
    ensures Inv(w')
  {
    assert PeerInv(w, p) && PeerInv(w, Other(p));
    SkipKeepsOther(w, w', p, until);
    SkipCaches(w, w', p, until);
    assert PeerInv(w', p);
  }

  lemma SameCaches(w: World, w': World, q: Peer)
    requires |w.chains| >= 2 && w'.net == w.net && w'.chains == w.chains && Of(w', q) == Of(w, q)
    requires AheadOk(w, q) && CacheOk(w, q)
    ensures AheadOk(w', q) && CacheOk(w', q)
  {
    assert forall id :: Ahead(w', q, id) == Ahead(w, q, id);
    CacheStays(w, w', q);
  }

  lemma SkipAhead(w: World, w': World, p: Peer, until: nat)
    requires Skipped(w, w', p, until)
    requires AheadOk(w, p)
    ensures AheadOk(w', p)
  {
    assert forall id | Ahead(w', p, id) :: Ahead(w, p, id);
  }

  lemma SkipCacheHolds(w: World, w': World, p: Peer, until: nat)
    requires Skipped(w, w', p, until)
    requires ChainsOk(w.chains) && NetOk(w.net, w.chains) && CacheHolds(w, p)
    ensures CacheHolds(w', p)
  {
    var r := Recv(w, p);
    forall id | Overtaken(w', p, id)
      ensures id.chain < |w'.chains| && Slot(w', id) in Of(w', p).skipped
      ensures Of(w', p).skipped[Slot(w', id)] == MessageKey(w'.chains[id.chain], id.n)
      ensures !CarriesCt(w'.net, id)
    {
      assert PacketOk(w.net, w.chains, id);
      if id.chain != r || id.n < Of(w, p).nr {
        assert Overtaken(w, p, id);
        assert id.chain != r ==> w.chains[id.chain].secret != w.chains[r].secret;
      }
    }
  }

  lemma SkipCacheOnly(w: World, w': World, p: Peer, until: nat)
    requires Skipped(w, w', p, until)
    requires AheadOk(w, p) && CacheOnly(w, p)
    ensures CacheOnly(w', p)
  {
    hide MessageKey, HeldKey, KeyRange, Advance;
    forall slot | slot in Of(w', p).skipped
      ensures exists id :: Overtaken(w', p, id) && InSlot(w', id, slot)
    {
      if slot in Of(w, p).skipped {
        var id :| Overtaken(w, p, id) && InSlot(w, id, slot);
        assert Overtaken(w', p, id) && InSlot(w', id, slot);
      } else {
        var id := MsgId(Recv(w, p), slot.1);
        assert Ahead(w, p, id);
        assert Overtaken(w', p, id) && InSlot(w', id, slot);
      }
    }
  }

  // ---- DH turns -------------------------------------------------------------------

  /** `p` may turn: the other peer has started a newer chain, and every message of the
      receiving chain it leaves is consumed or cached. */
  predicate CanTurn(w: World, p: Peer, seed: Secret)
    requires |w.chains| >= 2
  {
    && Top(w, p) == |w.chains| - 2
    && (Top(w, p) >= 1 ==> Of(w, p).nr == w.chains[Recv(w, p)].sent)
    && Fresh(w, seed)
  }

  ghost predicate Turned(w: World, w': World, p: Peer, seed: Secret) {
    && |w.chains| >= 2 && CanTurn(w, p, seed)
    && w'.net == w.net && Of(w', Other(p)) == Of(w, Other(p))
    && Of(w', p) == DhStep(Of(w, p), Pub(w.chains[|w.chains| - 1].secret), seed)
    && w'.chains == w.chains + [Chain(seed, Of(w', p).rk, Of(w', p).cks.value, None, 0)]
  }

  lemma TurnTops(w: World, w': World, p: Peer, seed: Secret)
    requires Turned(w, w', p, seed)
    ensures Top(w', p) == Top(w, p) + 2 && Top(w', Other(p)) == Top(w, Other(p)) == Top(w, p) + 1
  {
  }

  lemma TurnChains(w: World, w': World, p: Peer, seed: Secret)
    requires Turned(w, w', p, seed) && ChainsOk(w.chains) && PeerOk(w, p)
    ensures ChainsOk(w'.chains)
  {
    var k := |w.chains|;
    assert Linked(w.chains[k - 2], w.chains[k - 1]);
    assert Linked(w'.chains[k - 1], w'.chains[k]);
    forall i, j | 0 <= i && j == i + 1 < |w'.chains|
      ensures Linked(w'.chains[i], w'.chains[j])
    {
      if j < k { assert Linked(w.chains[i], w.chains[j]); }
    }
    forall i, j | 0 <= i < j < |w'.chains|
      ensures w'.chains[i].secret != w'.chains[j].secret
    {
      assert w.chains[i] in w.chains;
    }
  }

  lemma TurnNet(w: World, w': World, p: Peer, seed: Secret)
    requires Turned(w, w', p, seed) && NetOk(w.net, w.chains)
    ensures NetOk(w'.net, w'.chains)
  {
    forall id | id in w'.net
      ensures PacketOk(w'.net, w'.chains, id)
    {
      assert PacketOk(w.net, w.chains, id);
    }
  }

  lemma TurnPeers(w: World, w': World, p: Peer, seed: Secret)
    requires Turned(w, w', p, seed) && ChainsOk(w.chains) && PeerOk(w, p) && PeerOk(w, Other(p))
    ensures PeerOk(w', p) && PeerOk(w', Other(p))
  {
    TurnTops(w, w', p, seed);
    var s := Top(w, p);
    assert Linked(w.chains[s], w.chains[s + 1]);
  }

  lemma TurnOne(w: World, w': World, p: Peer, seed: Secret, q: Peer, j: MsgId)
    requires Turned(w, w', p, seed) && NetOk(w.net, w.chains)
    ensures Overtaken(w', q, j) == Overtaken(w, q, j)
    ensures Overtaken(w, q, j) ==> SameKey(w, w', j)
    ensures Ahead(w', q, j) ==> Ahead(w, q, j)
  {
    TurnTops(w, w', p, seed);
    assert j in w.net ==> PacketOk(w.net, w.chains, j);
  }

  lemma TurnCaches(w: World, w': World, p: Peer, seed: Secret, q: Peer)
    requires Turned(w, w', p, seed) && NetOk(w.net, w.chains)
    requires AheadOk(w, q) && CacheOk(w, q) && Of(w', q).skipped == Of(w, q).skipped
    ensures AheadOk(w', q) && CacheOk(w', q)
  {
    forall j
      ensures Overtaken(w', q, j) == Overtaken(w, q, j)
      ensures Overtaken(w, q, j) ==> SameKey(w, w', j)
      ensures Ahead(w', q, j) ==> Ahead(w, q, j)
    {
      TurnOne(w, w', p, seed, q, j);
    }
    CacheStays(w, w', q);
  }

  lemma TurnKeeps(w: World, w': World, p: Peer, seed: Secret)
    requires Inv(w) && Turned(w, w', p, seed)
    ensures Inv(w')
  {
    var q := Other(p);
    assert PeerInv(w, p) && PeerInv(w, q);
    TurnChains(w, w', p, seed);
    TurnNet(w, w', p, seed);
    TurnPeers(w, w', p, seed);
    TurnCaches(w, w', p, seed, p);
    TurnCaches(w, w', p, seed, q);
    SamePq(w, w');
    assert PeerInv(w', p) && PeerInv(w', q);
  }

  // ---- Consuming a message --------------------------------------------------------

  /** `p` consumes the next message of its receiving chain. */
  ghost predicate Taken(w: World, w': World, p: Peer, id: MsgId) {
    && |w.chains| >= 2 && Top(w, p) >= 2
    && id == MsgId(Recv(w, p), Of(w, p).nr) && id in w.net
    && w'.net == w.net - {id} && w'.chains == w.chains && Of(w', Other(p)) == Of(w, Other(p))
    && var st, st', h := Of(w, p), Of(w', p), w.net[id].wire.header;
    && st' == st.(nr := st.nr + 1,
                  ckr := Some(HeldKey(w.chains[id.chain], st.nr + 1)),
                  peerOffer := if h.pqEk.Some? then h.pqEk else st.peerOffer,
                  pendingOffer := if h.pqCt.Some? then None else st.pendingOffer,
                  remixes := if h.pqCt.Some? then st.remixes + 1 else st.remixes)
  }

  lemma NextHeld(c: Chain, n: nat)
    ensures HeldKey(c, n + 1) == NextChain(ChainKey(c, n)) && ChainKey(c, 0) == Start(c)
    ensures HeldKey(c, n) == if n == 0 then c.base else ChainKey(c, n)
  {
  }

  /** The two ends fold the same PQ secret into the same chain key, so the message key
      the receiver derives is the one the message was sealed with. */
  lemma TakeMoves(w: World, p: Peer, id: MsgId)
    requires Ready(w) && PeerOk(w, p) && NetOk(w.net, w.chains) && OfferOk(w, p)
    requires Top(w, p) >= 2 && id == MsgId(Recv(w, p), Of(w, p).nr) && id in w.net
    ensures var (st', r) := Consume(Of(w, p), w.net[id].wire);
            r == Ok(w.net[id].text) && Taken(w, With(w, p, st').(net := w.net - {id}), p, id)
  {
    hide Advance, OfferOk, HeldKey, Consume, MessageKey;
    assert PacketOk(w.net, w.chains, id);
    assert Sender(id) == Other(p);
    if CarriesCt(w.net, id) { AnswerMeetsOffer(w, p, id); }
    ConsumeIs(Of(w, p), w.net[id].wire, w.chains[id.chain]);
  }

  /** Consuming at a position of chain `c`, with the PQ secret the sender folded in there. */
  lemma ConsumeIs(st: State, wire: Wire, c: Chain)
    requires st.Valid() && st.ckr == Some(HeldKey(c, wire.header.n))
    requires wire.header.n > 0 ==> wire.header.pqEk.None? && wire.header.pqCt.None?
    requires wire.header.n == 0 ==>
               if wire.header.pqCt.None? then c.mix.None?
               else st.pendingOffer.Some? && c.mix == Some(Decapsulate(st.pendingOffer.value, wire.header.pqCt.value))
    ensures var h := wire.header;
            Consume(st, wire) ==
            (st.(nr := h.n + 1, ckr := Some(HeldKey(c, h.n + 1)),
                 peerOffer := if h.pqEk.Some? then h.pqEk else st.peerOffer,
                 pendingOffer := if h.pqCt.Some? then None else st.pendingOffer,
                 remixes := if h.pqCt.Some? then st.remixes + 1 else st.remixes),
             Open(MessageKey(c, h.n), h, wire.body))
  {
    hide Advance;
    NextHeld(c, wire.header.n);
  }

  lemma AnswerMeetsOffer(w: World, p: Peer, id: MsgId)
    requires OfferOk(w, p) && Sender(id) == Other(p) && CarriesCt(w.net, id)
    ensures Of(w, p).pendingOffer == Some(KemPair(w.net[id].wire.header.pqCt.value.pair))
  {
  }

  lemma TakePeers(w: World, w': World, p: Peer, id: MsgId)
    requires Taken(w, w', p, id) && NetOk(w.net, w.chains) && PeerOk(w, p) && PeerOk(w, Other(p))
    ensures PeerOk(w', p) && PeerOk(w', Other(p)) && NetOk(w'.net, w'.chains)
  {
    hide MessageKey;
    assert PacketOk(w.net, w.chains, id);
    assert Top(w', p) == Top(w, p) && Top(w', Other(p)) == Top(w, Other(p));
    forall j | j in w'.net
      ensures PacketOk(w'.net, w'.chains, j)
    {
      assert PacketOk(w.net, w.chains, j);
    }
  }

  lemma TakeCaches(w: World, w': World, p: Peer, id: MsgId, q: Peer)
    requires Taken(w, w', p, id) && AheadOk(w, q) && CacheOk(w, q)
    ensures AheadOk(w', q) && CacheOk(w', q)
  {
    assert Top(w', q) == Top(w, q) && Sender(id) == Other(p);
    assert forall j | Ahead(w', q, j) :: j != id && Ahead(w, q, j);
    CacheStays(w, w', q);
  }

  lemma TakeOffers(w: World, w': World, p: Peer, id: MsgId)
    requires Taken(w, w', p, id) && OfferOk(w, p) && OfferOk(w, Other(p))
    ensures OfferOk(w', p) && OfferOk(w', Other(p))
  {
    assert Sender(id) == Other(p);
    assert forall j :: CarriesEk(w'.net, j) == (j != id && CarriesEk(w.net, j));
    assert forall j :: CarriesCt(w'.net, j) == (j != id && CarriesCt(w.net, j));
    assert w.net[id].wire.header.pqEk.Some? == CarriesEk(w.net, id);
    assert w.net[id].wire.header.pqCt.Some? == CarriesCt(w.net, id);
  }

  lemma CtsRemoved(net: Net, id: MsgId, p: Peer)
    requires id in net
    ensures CtsFrom(net, p) == CtsFrom(net - {id}, p) + if CarriesCt(net, id) && Sender(id) == p then {id} else {}
    ensures id !in CtsFrom(net - {id}, p)
  {
  }

  lemma TakeRemix(w: World, w': World, p: Peer, id: MsgId)
    requires Taken(w, w', p, id) && RemixOk(w)
    ensures RemixOk(w')
  {
    CtsRemoved(w.net, id, p);
    CtsRemoved(w.net, id, Other(p));
    assert Sender(id) == Other(p);
  }

  lemma TakeKeeps(w: World, w': World, p: Peer, id: MsgId)
    requires Inv(w) && Taken(w, w', p, id)
    ensures Inv(w')
  {
    var q := Other(p);
    assert PeerInv(w, p) && PeerInv(w, q);
    TakePeers(w, w', p, id);
    TakeCaches(w, w', p, id, p);
    TakeCaches(w, w', p, id, q);
    TakeOffers(w, w', p, id);
    TakeRemix(w, w', p, id);
    assert PeerInv(w', p) && PeerInv(w', q);
  }

  // ---- Consuming a cached message -------------------------------------------------

  ghost predicate Uncached(w: World, w': World, p: Peer, id: MsgId) {
    && |w.chains| >= 2 && Overtaken(w, p, id) && id.chain < |w.chains|
    && w'.net == w.net - {id} && w'.chains == w.chains && Of(w', Other(p)) == Of(w, Other(p))
    && Of(w', p) == Of(w, p).(skipped := Of(w, p).skipped - {Slot(w, id)})
  }

  lemma UncacheOwn(w: World, w': World, p: Peer, id: MsgId)
    requires Uncached(w, w', p, id) && ChainsOk(w.chains) && AheadOk(w, p) && CacheHolds(w, p)
    ensures AheadOk(w', p) && CacheHolds(w', p)
  {
    assert Top(w', p) == Top(w, p);
    assert forall j | Ahead(w', p, j) :: Ahead(w, p, j) && j != id;
    forall j | Overtaken(w', p, j)
      ensures j.chain < |w'.chains| && Slot(w', j) in Of(w', p).skipped
      ensures Of(w', p).skipped[Slot(w', j)] == MessageKey(w'.chains[j.chain], j.n)
      ensures !CarriesCt(w'.net, j)
    {
      assert Overtaken(w, p, j);
      assert j.chain != id.chain ==> w.chains[j.chain].secret != w.chains[id.chain].secret;
    }
  }

  lemma UncacheOnly(w: World, w': World, p: Peer, id: MsgId)
    requires Uncached(w, w', p, id) && CacheOnly(w, p)
    ensures CacheOnly(w', p)
  {
    assert Top(w', p) == Top(w, p);
    forall slot | slot in Of(w', p).skipped
      ensures exists j :: Overtaken(w', p, j) && InSlot(w', j, slot)
    {
      var j :| Overtaken(w, p, j) && InSlot(w, j, slot);
      assert Overtaken(w', p, j) && InSlot(w', j, slot);
    }
  }

  lemma UncacheOther(w: World, w': World, p: Peer, id: MsgId)
    requires Uncached(w, w', p, id) && AheadOk(w, Other(p)) && CacheOk(w, Other(p))
    ensures AheadOk(w', Other(p)) && CacheOk(w', Other(p))
  {
    assert Top(w', Other(p)) == Top(w, Other(p));
    assert forall j | Ahead(w', Other(p), j) :: j != id && Ahead(w, Other(p), j);
    CacheStays(w, w', Other(p));
  }

  lemma UncachePeers(w: World, w': World, p: Peer, id: MsgId)
    requires Uncached(w, w', p, id) && NetOk(w.net, w.chains) && PeerOk(w, p) && PeerOk(w, Other(p))
    ensures PeerOk(w', p) && PeerOk(w', Other(p)) && NetOk(w'.net, w'.chains)
  {
    hide MessageKey, HeldKey, Linked;
    assert Top(w', p) == Top(w, p) && Top(w', Other(p)) == Top(w, Other(p));
    forall j | j in w'.net
      ensures PacketOk(w'.net, w'.chains, j)
    {
      assert PacketOk(w.net, w.chains, j);
    }
  }

  /** A cached message carries no PQ answer; an offer it carries is lost with it. */
  lemma UncachePq(w: World, w': World, p: Peer, id: MsgId)
    requires Uncached(w, w', p, id) && CacheHolds(w, p) && OfferOk(w, p) && OfferOk(w, Other(p)) && RemixOk(w)
    ensures OfferOk(w', p) && OfferOk(w', Other(p)) && RemixOk(w')
  {
    assert forall j :: CarriesEk(w'.net, j) ==> CarriesEk(w.net, j);
    assert forall j :: CarriesCt(w'.net, j) ==> CarriesCt(w.net, j);
    CtsRemoved(w.net, id, p);
    CtsRemoved(w.net, id, Other(p));
  }

  lemma UncacheKeeps(w: World, w': World, p: Peer, id: MsgId)
    requires Inv(w) && Uncached(w, w', p, id)
    ensures Inv(w')
  {
    assert PeerInv(w, p) && PeerInv(w, Other(p));
    UncachePeers(w, w', p, id);
    UncacheOwn(w, w', p, id);
    UncacheOnly(w, w', p, id);
    UncacheOther(w, w', p, id);
    UncachePq(w, w', p, id);
    assert PeerInv(w', p) && PeerInv(w', Other(p));
  }
}
