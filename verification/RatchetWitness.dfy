/** Runs that do reach the rare places: an answer overtaken by its own chain, an offer
    overtaken and so lost, and a message that both answers and offers. */
module RatchetWitness {
  import opened Common
  import opened RatchetCrypto
  import opened Ratchet
  import opened RatchetWorld
  import opened RatchetSteps
  import opened RatchetRun
  import opened RatchetOffers
  import opened RatchetOutcome

  /** A send whose sender has a chain: one more message in flight, with an offer or an answer
      exactly when the sender's state says so. */
  lemma SendFacts(w: World, p: Peer, text: Bytes, ent: Entropy)
    requires Inv(w) && Ready(w) && Of(w, p).cks.Some?
    ensures var w', id := AfterSend(w, p, text, ent), NewId(w, p);
            && Inv(w') && Ready(w') && |w'.chains| == |w.chains|
            && id !in w.net && id in w'.net && w'.net == w.net[id := w'.net[id]]
            && (forall j | 0 <= j < |w.chains| :: w'.chains[j].secret == w.chains[j].secret
                                                && w'.chains[j].sent == w.chains[j].sent + if j == Top(w, p) then 1 else 0)
            && Of(w', Other(p)) == Of(w, Other(p))
            && (CarriesEk(w'.net, id) <==> Offers(Of(w, p))) && (CarriesCt(w'.net, id) <==> Answers(Of(w, p)))
            && (!Offers(Of(w, p)) ==> Of(w', p).pendingOffer == Of(w, p).pendingOffer)
            && (!Answers(Of(w, p)) ==> Of(w', p).peerOffer == Of(w, p).peerOffer)
  {
    PeerFacts(w, p);
    SendKeeps(w, p, text, ent);
    SendIsSent(w, p, text, ent);
    SendIsSentPq(w, p, text, ent);
    hide Inv, PeerOk, NetOk, ChainsOk, AheadOk, OfferOk;
  }

  /** The first delivery on a new chain: the receiver turns and starts the next one. */
  lemma TurnFacts(w: World, id: MsgId, ent: Entropy)
    requires Inv(w) && Ready(w) && Admissible(w, Deliver(id, ent)) && !Overtaken(w, Receiver(id), id)
    requires id.chain == |w.chains| - 1 && !TooFar(w, id)
    ensures var (w', r) := AfterDeliver(w, id, ent);
            && r.Ok? && Inv(w') && Ready(w') && w'.net == w.net - {id}
            && |w'.chains| == |w.chains| + 1 && w'.chains[..|w.chains|] == w.chains
            && w'.chains[|w.chains|].secret == ent.dh && w'.chains[|w.chains|].sent == 0
            && Of(w', Sender(id)) == Of(w, Sender(id))
            && (!CarriesCt(w.net, id) ==> Of(w', Receiver(id)).pendingOffer == Of(w, Receiver(id)).pendingOffer)
            && (!CarriesEk(w.net, id) ==> Of(w', Receiver(id)).peerOffer == Of(w, Receiver(id)).peerOffer)
            && (CarriesEk(w.net, id) ==> Of(w', Receiver(id)).peerOffer.Some?)
  {
    hide Inv, PeerOk, NetOk, ChainsOk, AheadOk, OfferOk, DhStep, Decrypt, Consume, TooFar;
    var p := Receiver(id);
    DeliveryKeeps(w, id, ent);
    InvReady(AfterDeliver(w, id, ent).0);
    NetAfter(w, id, ent);
    PeerFacts(w, p);
    SlotIsOwn(w, id);
    WhereAhead(w, p, id);
    NextFacts(w, p, id, ent);
    TakeApart(w, p, id, ent);
    DeliverIsDelivered(w, id, ent);
  }

  /** A lull before the newest chain is used: nothing in flight, one message sent on every
      chain before it, no offer under way, and the secrets numbered from 0. */
  ghost predicate Quiet(w: World, k: nat) {
    && Inv(w) && Ready(w) && |w.chains| == k && w.net == map[]
    && (forall j | 0 <= j < k :: w.chains[j].secret < k && w.chains[j].sent == if 1 <= j < k - 1 then 1 else 0)
    && w.alice.pendingOffer.None? && w.bob.pendingOffer.None? && w.alice.peerOffer.None? && w.bob.peerOffer.None?
  }

  /** Who sends on the newest chain of `k`. */
  function Next(k: nat): Peer {
    if k % 2 == 0 then Alice else Bob
  }

  /** In a lull the owner of the newest chain has it untouched, and offers from the third turn on. */
  lemma QuietOwner(w: World, k: nat)
    requires Quiet(w, k)
    ensures var p := Next(k);
            && Top(w, p) == k - 1 && Of(w, p).cks.Some? && Of(w, p).ns == 0 && !Answers(Of(w, p))
            && (Offers(Of(w, p)) <==> k / 2 % 3 == 0)
            && NewId(w, p) == MsgId(k - 1, 0) && Sender(NewId(w, p)) == p
  {
    hide Inv, ChainsOk, NetOk, AheadOk, OfferOk;
    PeerFacts(w, Next(k));
  }

  /** The gaps of a run of single messages are narrow. */
  lemma NotFar(w: World, id: MsgId, k: nat)
    requires Inv(w) && id in w.net && |w.chains| == k && id.chain == k - 1 && id.n <= 1
    requires forall j | 0 <= j < k - 1 :: w.chains[j].sent <= 1
    requires !Overtaken(w, Receiver(id), id)
    ensures !TooFar(w, id)
  {
    hide Inv, ChainsOk, AheadOk, OfferOk, MessageKey, HeldKey;
    var p := Receiver(id);
    PeerFacts(w, p);
    assert PacketOk(w.net, w.chains, id);
    WhereAhead(w, p, id);
  }

  function Ent(seed: Secret): Entropy {
    Entropy(seed, 0, 0)
  }

  /** A message sent on the newest chain is ahead of its receiver. */
  lemma NewestIsAhead(w: World, id: MsgId)
    requires Inv(w) && id in w.net && id.chain == |w.chains| - 1
    ensures !Overtaken(w, Receiver(id), id)
  {
    PeerFacts(w, Receiver(id));
  }

  lemma FreshSecret(w: World, k: nat)
    requires forall j | 0 <= j < |w.chains| :: w.chains[j].secret < k
    ensures Fresh(w, k)
  {
  }

  /** The lull once its one message is in flight. */
  ghost predicate OneInFlight(w: World, k: nat) {
    && Inv(w) && Ready(w) && |w.chains| == k >= 2 && w.net.Keys == {MsgId(k - 1, 0)}
    && (forall j | 0 <= j < k :: w.chains[j].secret < k && w.chains[j].sent == if j >= 1 then 1 else 0)
    && !CarriesEk(w.net, MsgId(k - 1, 0)) && !CarriesCt(w.net, MsgId(k - 1, 0))
    && w.alice.pendingOffer.None? && w.bob.pendingOffer.None? && w.alice.peerOffer.None? && w.bob.peerOffer.None?
  }

  lemma RoundSend(w: World, k: nat, text: Bytes)
    requires Quiet(w, k) && 2 <= k <= 5
    ensures OneInFlight(AfterSend(w, Next(k), text, Ent(0)), k)
  {
    hide Inv, AfterSend, Offers, Answers;
    QuietOwner(w, k);
    SendFacts(w, Next(k), text, Ent(0));
  }

  lemma RoundDeliver(w: World, k: nat)
    requires OneInFlight(w, k)
    ensures var e := Deliver(MsgId(k - 1, 0), Ent(k)); Admissible(w, e) && Quiet(Apply(w, e), k + 1)
  {
    hide Inv, AfterDeliver, TooFar;
    var id := MsgId(k - 1, 0);
    assert id in w.net && forall j :: CarriesCt(w.net, j) ==> j == id;
    FreshSecret(w, k);
    NewestIsAhead(w, id);
    NotFar(w, id, k);
    TurnFacts(w, id, Ent(k));
    var w' := AfterDeliver(w, id, Ent(k)).0;
    assert forall j | 0 <= j < k :: w'.chains[j] == w'.chains[..k][j];
    assert w'.net == map[];
  }

  /** A run goes on with any admissible event. */
  lemma Extend(ws: seq<World>, es: seq<Event>, root: Key, e: Event) returns (ws': seq<World>, es': seq<Event>)
    requires IsRun(ws, es, root, 0, 1) && Ready(ws[|es|]) && Admissible(ws[|es|], e)
    ensures IsRun(ws', es', root, 0, 1) && es' == es + [e] && ws'[..|es| + 1] == ws && ws'[|es'|] == Apply(ws[|es|], e)
  {
    hide Apply, Ready, Begin;
    ws', es' := ws + [Apply(ws[|es|], e)], es + [e];
    forall i | 0 <= i < |es'|
      ensures Admissible(ws'[i], es'[i]) && (Ready(ws'[i]) ==> ws'[i + 1] == Apply(ws'[i], es'[i]))
    {
    }
  }

  /** Every lull up to the sixth chain is reached by some run. */
  lemma {:induction false} ReachQuiet(root: Key, text: Bytes, k: nat) returns (ws: seq<World>, es: seq<Event>)
    requires 2 <= k <= 6
    ensures IsRun(ws, es, root, 0, 1) && Quiet(ws[|es|], k)
    decreases k
  {
    hide Quiet, Admissible, Apply, AfterSend;
    if k == 2 {
      ws, es := [Begin(root, 0, 1)], [];
      BeginQuiet(root);
    } else {
      ws, es := ReachQuiet(root, text, k - 1);
      var w := ws[|es|];
      QuietIsReady(w, k - 1);
      RoundSend(w, k - 1, text);
      RoundDeliver(AfterSend(w, Next(k - 1), text, Ent(0)), k - 1);
      var send := Send(Next(k - 1), text, Ent(0));
      SendIsAdmissible(w, send);
      ws, es := Extend(ws, es, root, send);
      ws, es := Extend(ws, es, root, Deliver(MsgId(k - 2, 0), Ent(k - 1)));
    }
  }

  lemma BeginQuiet(root: Key)
    ensures Quiet(Begin(root, 0, 1), 2)
  {
    BeginInv(root, 0, 1);
  }

  lemma QuietIsReady(w: World, k: nat)
    requires Quiet(w, k)
    ensures Ready(w)
  {
  }

  lemma SendIsAdmissible(w: World, e: Event)
    requires e.Send?
    ensures Admissible(w, e) && (Ready(w) ==> Apply(w, e) == AfterSend(w, e.peer, e.text, e.ent))
  {
  }

  // ---- The sixth chain ------------------------------------------------------------

  /** The owner of the newest chain. */
  lemma NewestOwner(w: World)
    requires Inv(w)
    ensures |w.chains| >= 2
    ensures var p, last := Next(|w.chains|), |w.chains| - 1;
            && Top(w, p) == last && Of(w, p).cks.Some? && Of(w, p).ns == w.chains[last].sent
            && NewId(w, p) == MsgId(last, w.chains[last].sent) && Sender(NewId(w, p)) == p
  {
    hide ChainsOk, NetOk, AheadOk, OfferOk;
    NextOwns(w);
    PeerFacts(w, Next(|w.chains|));
  }

  lemma NextOwns(w: World)
    requires Inv(w)
    ensures |w.chains| >= 2 && Top(w, Next(|w.chains|)) == |w.chains| - 1
  {
    hide PeerInv, NetOk, RemixOk;
  }

  /** A message of the receiving chain that is no longer in flight has been passed. */
  lemma Passed(w: World, p: Peer, id: MsgId)
    requires Inv(w) && |w.chains| >= 2 && Top(w, p) >= 1 && id.chain == Top(w, p) - 1
    requires Sender(id) == Other(p) && id.n < w.chains[id.chain].sent && id !in w.net
    ensures Of(w, p).nr > id.n
  {
    PeerFacts(w, p);
    assert !Ahead(w, p, id);
  }

  /** Two messages of a lull's newest chain in flight, the first with an offer. */
  lemma TwoSent(w: World, text: Bytes)
    requires Quiet(w, 6)
    ensures var w1 := AfterSend(w, Alice, text, Ent(0));
            Ready(w1) &&
            var w2 := AfterSend(w1, Alice, text, Ent(0));
            && Inv(w2) && Ready(w2) && |w2.chains| == 6 && w2.net.Keys == {MsgId(5, 0), MsgId(5, 1)}
            && (forall j | 0 <= j < 6 :: w2.chains[j].secret < 6) && (forall j | 0 <= j < 5 :: w2.chains[j].sent <= 1)
            && w2.chains[5].sent == 2 && CarriesEk(w2.net, MsgId(5, 0)) && forall j :: !CarriesCt(w2.net, j)
  {
    hide Inv, AfterSend;
    QuietOwner(w, 6);
    SendFacts(w, Alice, text, Ent(0));
    var w1 := AfterSend(w, Alice, text, Ent(0));
    NewestOwner(w1);
    SendFacts(w1, Alice, text, Ent(0));
    var w2 := AfterSend(w1, Alice, text, Ent(0));
    assert !CarriesCt(w2.net, MsgId(5, 0)) && !CarriesCt(w2.net, MsgId(5, 1));
  }

  /** The later of the two arrives first: the offer is overtaken. */
  lemma OfferOvertaken(w: World)
    requires Inv(w) && Ready(w) && |w.chains| == 6 && w.net.Keys == {MsgId(5, 0), MsgId(5, 1)}
    requires (forall j | 0 <= j < 6 :: w.chains[j].secret < 6) && (forall j | 0 <= j < 5 :: w.chains[j].sent <= 1)
    requires w.chains[5].sent == 2 && CarriesEk(w.net, MsgId(5, 0)) && forall j :: !CarriesCt(w.net, j)
    ensures var e := Deliver(MsgId(5, 1), Ent(6)); Admissible(w, e) && CarrierOvertaken(Apply(w, e), Alice, MsgId(5, 0))
  {
    hide Inv, AfterDeliver, TooFar;
    var first, id := MsgId(5, 0), MsgId(5, 1);
    assert id in w.net && first in w.net;
    FreshSecret(w, 6);
    NewestIsAhead(w, id);
    NotFar(w, id, 6);
    TurnFacts(w, id, Ent(6));
    var w' := AfterDeliver(w, id, Ent(6)).0;
    assert w'.chains[5] == w'.chains[..6][5];
    Passed(w', Bob, id);
    assert CarriesEk(w'.net, first);
  }

  /** An offer can be overtaken, and is then lost: some run delivers the second message of
      Alice's third chain before the first. */
  lemma OfferGetsLost(root: Key, text: Bytes) returns (ws: seq<World>, es: seq<Event>)
    ensures IsRun(ws, es, root, 0, 1) && |ws[|es|].chains| >= 2
    ensures CarrierOvertaken(ws[|es|], Alice, MsgId(5, 0)) && OfferLost(ws[|es|], Alice)
  {
    hide Quiet, Admissible, Apply, AfterSend, OfferLost;
    ws, es := ReachQuiet(root, text, 6);
    var w := ws[|es|];
    QuietIsReady(w, 6);
    TwoSent(w, text);
    var w1 := AfterSend(w, Alice, text, Ent(0));
    OfferOvertaken(AfterSend(w1, Alice, text, Ent(0)));
    SendIsAdmissible(w, Send(Alice, text, Ent(0)));
    SendIsAdmissible(w1, Send(Alice, text, Ent(0)));
    ws, es := Extend(ws, es, root, Send(Alice, text, Ent(0)));
    ws, es := Extend(ws, es, root, Send(Alice, text, Ent(0)));
    ws, es := Extend(ws, es, root, Deliver(MsgId(5, 1), Ent(6)));
    OfferFate(ws, es, root, 0, 1, Alice, |es|);
  }

  /** Alice's offer is sent and arrives. */
  lemma OfferArrives(w: World, text: Bytes)
    requires Quiet(w, 6)
    ensures var w1 := AfterSend(w, Alice, text, Ent(0));
            var e := Deliver(MsgId(5, 0), Ent(6));
            && Ready(w1) && e.id in w1.net && Admissible(w1, e)
            && var w2 := Apply(w1, e);
               && Inv(w2) && Ready(w2) && |w2.chains| == 7 && w2.net == map[] && w2.bob.peerOffer.Some? && w2.bob.pendingOffer.None?
               && w2.chains[6].sent == 0 && forall j | 0 <= j < 7 :: w2.chains[j].sent <= 1
  {
    hide Inv, AfterSend, AfterDeliver, TooFar;
    var id := MsgId(5, 0);
    QuietOwner(w, 6);
    SendFacts(w, Alice, text, Ent(0));
    var w1 := AfterSend(w, Alice, text, Ent(0));
    assert forall j :: j in w1.net <==> j == id;
    FreshSecret(w1, 6);
    NewestIsAhead(w1, id);
    NotFar(w1, id, 6);
    TurnFacts(w1, id, Ent(6));
    var w2 := AfterDeliver(w1, id, Ent(6)).0;
    assert forall j | 0 <= j < 6 :: w2.chains[j] == w2.chains[..6][j];
    assert w2.net == map[];
  }

  /** Bob answers and sends a second message: delivered first, the second fails. */
  lemma AnswerOvertaken(w: World, text: Bytes)
    requires Inv(w) && Ready(w) && |w.chains| == 7 && w.net == map[] && w.bob.peerOffer.Some?
    requires w.chains[6].sent == 0 && forall j | 0 <= j < 7 :: w.chains[j].sent <= 1
    ensures var w1 := AfterSend(w, Bob, text, Ent(0));
            && Ready(w1)
            && var w2 := AfterSend(w1, Bob, text, Ent(0));
               && Ready(w2) && MsgId(6, 1) in w2.net && OvertakesAnswer(w2, MsgId(6, 1))
               && forall ent :: AfterDeliver(w2, MsgId(6, 1), ent).1 == Err(BadTag)
  {
    hide Inv, AfterSend, AfterDeliver, TooFar;
    NewestOwner(w);
    SendFacts(w, Bob, text, Ent(0));
    var w1 := AfterSend(w, Bob, text, Ent(0));
    NewestOwner(w1);
    SendFacts(w1, Bob, text, Ent(0));
    var w2, id := AfterSend(w1, Bob, text, Ent(0)), MsgId(6, 1);
    NewestIsAhead(w2, id);
    NotFar(w2, id, 7);
    forall ent ensures AfterDeliver(w2, id, ent).1 == Err(BadTag) { DeliveryOutcome(w2, id, ent); }
  }

  /** A message can overtake the PQ answer of its own chain, and then fails: in some run
      Bob's second message after his answer is delivered before the answer. */
  lemma AnswerGetsOvertaken(root: Key, text: Bytes) returns (ws: seq<World>, es: seq<Event>)
    ensures IsRun(ws, es, root, 0, 1)
    ensures var w := ws[|es|];
            && Ready(w) && MsgId(6, 1) in w.net && OvertakesAnswer(w, MsgId(6, 1))
            && forall ent :: AfterDeliver(w, MsgId(6, 1), ent).1 == Err(BadTag)
  {
    hide Quiet, Admissible, Apply, AfterSend, AfterDeliver;
    ws, es := ReachQuiet(root, text, 6);
    var w := ws[|es|];
    QuietIsReady(w, 6);
    OfferArrives(w, text);
    var w1 := AfterSend(w, Alice, text, Ent(0));
    var w2 := Apply(w1, Deliver(MsgId(5, 0), Ent(6)));
    AnswerOvertaken(w2, text);
    var w3 := AfterSend(w2, Bob, text, Ent(0));
    SendIsAdmissible(w, Send(Alice, text, Ent(0)));
    SendIsAdmissible(w2, Send(Bob, text, Ent(0)));
    SendIsAdmissible(w3, Send(Bob, text, Ent(0)));
    ws, es := Extend(ws, es, root, Send(Alice, text, Ent(0)));
    ws, es := Extend(ws, es, root, Deliver(MsgId(5, 0), Ent(6)));
    ws, es := Extend(ws, es, root, Send(Bob, text, Ent(0)));
    ws, es := Extend(ws, es, root, Send(Bob, text, Ent(0)));
  }

  /** Bob's first message of his third chain both answers and offers. */
  lemma BothAtOnce(w: World, text: Bytes)
    requires Inv(w) && Ready(w) && |w.chains| == 7 && w.net == map[] && w.bob.peerOffer.Some? && w.bob.pendingOffer.None?
    requires w.chains[6].sent == 0
    ensures var w' := AfterSend(w, Bob, text, Ent(0));
            && w'.net.Keys == {MsgId(6, 0)} && CarriesEk(w'.net, MsgId(6, 0)) && CarriesCt(w'.net, MsgId(6, 0))
            && w'.bob.pendingOffer.Some? && w'.bob.peerOffer.None?
  {
    hide AfterSend, ChainsOk, AheadOk, OfferOk;
    PeerFacts(w, Bob);
    OneSend(w, Bob, text, Ent(0));
  }

  /** In some run one message carries both: Bob's answer to Alice's offer, and an offer of
      his own. */
  lemma AnswerCarriesOffer(root: Key, text: Bytes) returns (ws: seq<World>, es: seq<Event>)
    ensures IsRun(ws, es, root, 0, 1)
    ensures var w := ws[|es|];
            && w.net.Keys == {MsgId(6, 0)} && CarriesEk(w.net, MsgId(6, 0)) && CarriesCt(w.net, MsgId(6, 0))
            && w.bob.pendingOffer.Some? && w.bob.peerOffer.None?
  {
    hide Quiet, Admissible, Apply, AfterSend, AfterDeliver;
    ws, es := ReachQuiet(root, text, 6);
    var w := ws[|es|];
    QuietIsReady(w, 6);
    OfferArrives(w, text);
    var w1 := AfterSend(w, Alice, text, Ent(0));
    var w2 := Apply(w1, Deliver(MsgId(5, 0), Ent(6)));
    BothAtOnce(w2, text);
    SendIsAdmissible(w, Send(Alice, text, Ent(0)));
    SendIsAdmissible(w2, Send(Bob, text, Ent(0)));
    ws, es := Extend(ws, es, root, Send(Alice, text, Ent(0)));
    ws, es := Extend(ws, es, root, Deliver(MsgId(5, 0), Ent(6)));
    ws, es := Extend(ws, es, root, Send(Bob, text, Ent(0)));
  }
}
