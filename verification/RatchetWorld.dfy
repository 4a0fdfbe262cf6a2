/** Two peers and the network between them. A run is any interleaving of sends and
    deliveries; `chains` is a history variable that records every sending chain
    created so far and is never read by either peer. */
module RatchetWorld {
  import opened Common
  import opened RatchetCrypto
  import opened Ratchet

  datatype Peer = Alice | Bob

  /** One sending chain: chain 0 is Bob's signed prekey, on which nothing is sent; the
      odd chains are Alice's, the even ones Bob's. `mix` is the PQ secret its first
      message folded in. */
  datatype Chain = Chain(secret: Secret, root: Key, base: Key, mix: Option<KemSecret>, sent: nat)

  /** A message is known by the chain it was sent on and its number there. */
  datatype MsgId = MsgId(chain: nat, n: nat)

  datatype Packet = Packet(wire: Wire, text: Bytes)

  type Net = map<MsgId, Packet>

  datatype World = World(alice: State, bob: State, net: Net, chains: seq<Chain>)

  function Of(w: World, p: Peer): State {
    if p.Alice? then w.alice else w.bob
  }

  function With(w: World, p: Peer, st: State): World {
    if p.Alice? then w.(alice := st) else w.(bob := st)
  }

  function Other(p: Peer): Peer {
    if p.Alice? then Bob else Alice
  }

  function Sender(id: MsgId): Peer {
    if id.chain % 2 == 1 then Alice else Bob
  }

  predicate CarriesEk(net: Net, id: MsgId) {
    id in net && net[id].wire.header.pqEk.Some?
  }

  predicate CarriesCt(net: Net, id: MsgId) {
    id in net && net[id].wire.header.pqCt.Some?
  }

  predicate Before(a: MsgId, b: MsgId) {
    Sender(a) == Sender(b) && (a.chain < b.chain || (a.chain == b.chain && a.n < b.n))
  }

  datatype Event =
    | Send(peer: Peer, text: Bytes, ent: Entropy)
    | Deliver(id: MsgId, ent: Entropy)

  predicate Ready(w: World) {
    w.alice.Valid() && w.bob.Valid() && |w.chains| >= 2
  }

  /** The newest chain of a peer; the chain it receives on is the one before. */
  function Top(w: World, p: Peer): nat
    requires |w.chains| >= 2
  {
    var last := |w.chains| - 1;
    if (last % 2 == 1) == p.Alice? then last else last - 1
  }

  predicate Fresh(w: World, seed: Secret) {
    forall c <- w.chains :: c.secret != seed
  }

  /** Any in-flight message may be delivered at any time, with two limits: the entropy
      is fresh, and no earlier message of the same direction that carries a PQ
      ciphertext is still in flight. A send is never limited. */
  ghost predicate Admissible(w: World, e: Event) {
    e.Deliver? ==>
      && e.id in w.net
      && Fresh(w, e.ent.dh)
      && !exists j :: CarriesCt(w.net, j) && Before(j, e.id)
  }

  function AfterSend(w: World, p: Peer, text: Bytes, ent: Entropy): World
    requires Ready(w)
  {
    var st := Of(w, p);
    var (st', r) := Encrypt(st, text, ent);
    if r.Err? then With(w, p, st') else
    var s := Top(w, p);
    var mix := if Answers(st) then Some(Encapsulate(ent.pqEncap, st.peerOffer.value).1) else w.chains[s].mix;
    With(w, p, st').(net := w.net[MsgId(s, st.ns) := Packet(r.value, text)],
                     chains := w.chains[s := w.chains[s].(sent := w.chains[s].sent + 1, mix := mix)])
  }

  /** Records the chain a peer has just started, if it took a DH turn. */
  function Grown(chains: seq<Chain>, before: State, after: State): seq<Chain> {
    if after.dhsPub == before.dhsPub || after.cks.None? then chains
    else chains + [Chain(after.dhsPriv, after.rk, after.cks.value, None, 0)]
  }

  function AfterDeliver(w: World, id: MsgId, ent: Entropy): (World, Result<Bytes, Error>)
    requires Ready(w) && id in w.net
  {
    var p := Other(Sender(id));
    var st := Of(w, p);
    var (st', r) := Decrypt(st, w.net[id].wire, ent);
    (With(w, p, st').(net := if r.Ok? then w.net - {id} else w.net, chains := Grown(w.chains, st, st')), r)
  }

  function Apply(w: World, e: Event): World
    requires Ready(w)
    requires e.Deliver? ==> e.id in w.net
  {
    match e
    case Send(p, text, ent) => AfterSend(w, p, text, ent)
    case Deliver(id, ent) => AfterDeliver(w, id, ent).0
  }

  /** The world right after the handshake: one root key, Bob's signed prekey. */
  function Begin(root: Key, bobSecret: Secret, aliceSeed: Secret): World {
    var dhOut := Dh(aliceSeed, Pub(bobSecret));
    World(InitAlice(root, Pub(bobSecret), aliceSeed), InitBob(root, bobSecret), map[],
          [Chain(bobSecret, root, root, None, 0),
           Chain(aliceSeed, RootOf(root, dhOut), ChainOf(root, dhOut), None, 0)])
  }

  // ---- What every reachable world satisfies ---------------------------------------

  /** The first key of a chain, after its first message folded in a PQ secret. */
  function Start(c: Chain): Key {
    if c.mix.Some? then PqMix(c.base, c.mix.value) else c.base
  }

  function ChainKey(c: Chain, n: nat): Key {
    Advance(Start(c), n)
  }

  function MessageKey(c: Chain, n: nat): Key {
    MessageOf(ChainKey(c, n))
  }

  /** The key either end holds when it is about to handle number `n`; the PQ secret
      is folded in while handling number 0. */
  function HeldKey(c: Chain, n: nat): Key {
    if n == 0 then c.base else ChainKey(c, n)
  }

  ghost predicate ChainsOk(chains: seq<Chain>) {
    && |chains| >= 2
    && chains[0].sent == 0
    && (forall j | 0 <= j < |chains| :: chains[j].sent == 0 ==> chains[j].mix.None?)
    && (forall i, j | 0 <= i < j < |chains| :: chains[i].secret != chains[j].secret)
    && (forall i, j | 0 <= i && j == i + 1 < |chains| :: Linked(chains[i], chains[j]))
  }

  /** The DH turn that made chain `d` out of the chain before it. */
  predicate Linked(c: Chain, d: Chain) {
    var dhOut := Dh(d.secret, Pub(c.secret));
    d.root == RootOf(c.root, dhOut) && d.base == ChainOf(c.root, dhOut)
  }

  function SentBefore(chains: seq<Chain>, i: nat): nat
    requires i < |chains|
  {
    if i < 2 then 0 else chains[i - 2].sent
  }

  ghost predicate PeerOk(w: World, p: Peer)
    requires |w.chains| >= 2
  {
    var st, s := Of(w, p), Top(w, p);
    var c := w.chains[s];
    && st.dhsPriv == c.secret && st.dhsPub == Pub(c.secret) && st.rk == c.root
    && st.ns == c.sent && st.pn == SentBefore(w.chains, s)
    && st.cks == (if s == 0 then None else Some(HeldKey(c, st.ns)))
    && st.dhrPub == (if s == 0 then None else Some(Pub(w.chains[s - 1].secret)))
    && st.ckr == (if s < 2 then None else Some(HeldKey(w.chains[s - 1], st.nr)))
    && st.nr <= (if s == 0 then 0 else w.chains[s - 1].sent)
    && st.turns == (s + 1) / 2
  }

  ghost predicate PacketOk(net: Net, chains: seq<Chain>, id: MsgId)
    requires id in net
  {
    var h := net[id].wire.header;
    && 1 <= id.chain < |chains|
    && id.n < chains[id.chain].sent
    && h.dhPub == Pub(chains[id.chain].secret) && h.n == id.n && h.pn == SentBefore(chains, id.chain)
    && net[id].wire.body == Sealed(MessageKey(chains[id.chain], id.n), h, net[id].text)
    && (id.n > 0 ==> h.pqEk.None? && h.pqCt.None?)
    && (id.n == 0 ==> chains[id.chain].mix ==
                      if h.pqCt.None? then None else Some(Shared(h.pqCt.value.encapSeed, h.pqCt.value.pair)))
  }

  ghost predicate NetOk(net: Net, chains: seq<Chain>) {
    forall id <- net :: PacketOk(net, chains, id)
  }

  /** Sent to `p` and numbered at or past the place `p` has reached. */
  predicate Ahead(w: World, p: Peer, id: MsgId)
    requires |w.chains| >= 2
  {
    && Sender(id) == Other(p) && id.chain < |w.chains| && id.n < w.chains[id.chain].sent
    && (id.chain > Top(w, p) - 1 || (id.chain == Top(w, p) - 1 && id.n >= Of(w, p).nr))
  }

  /** In flight to `p` and numbered before the place `p` has reached. */
  predicate Overtaken(w: World, p: Peer, id: MsgId)
    requires |w.chains| >= 2
  {
    && id in w.net && Sender(id) == Other(p)
    && (id.chain < Top(w, p) - 1 || (id.chain == Top(w, p) - 1 && id.n < Of(w, p).nr))
  }

  ghost predicate AheadOk(w: World, p: Peer)
    requires |w.chains| >= 2
  {
    forall id | Ahead(w, p, id) :: id in w.net
  }

  function Slot(w: World, id: MsgId): (Pub, nat)
    requires id.chain < |w.chains|
  {
    (Pub(w.chains[id.chain].secret), id.n)
  }

  ghost predicate InSlot(w: World, id: MsgId, slot: (Pub, nat)) {
    id.chain < |w.chains| && Slot(w, id) == slot
  }

  /** Every overtaken message has its key cached, and carries no PQ ciphertext. */
  ghost predicate CacheHolds(w: World, p: Peer)
    requires |w.chains| >= 2
  {
    forall id | Overtaken(w, p, id) ::
      && id.chain < |w.chains|
      && Slot(w, id) in Of(w, p).skipped
      && Of(w, p).skipped[Slot(w, id)] == MessageKey(w.chains[id.chain], id.n)
      && !CarriesCt(w.net, id)
  }

  ghost predicate CacheOnly(w: World, p: Peer)
    requires |w.chains| >= 2
  {
    forall slot <- Of(w, p).skipped :: exists id :: Overtaken(w, p, id) && InSlot(w, id, slot)
  }

  /** The skipped-key cache of `p` holds exactly the message keys of the overtaken messages. */
  ghost predicate CacheOk(w: World, p: Peer)
    requires |w.chains| >= 2
  {
    CacheHolds(w, p) && CacheOnly(w, p)
  }

  /** The life of an offer by `p`: its key travels, or the other peer holds it, or the
      answer travels, at most one of the three; and then it is `p`'s pending pair. */
  ghost predicate OfferOk(w: World, p: Peer) {
    var q, pending := Other(p), Of(w, p).pendingOffer;
    var held := Of(w, q).peerOffer;
    && (forall id | CarriesEk(w.net, id) && Sender(id) == p ::
          pending == Some(KemPair(w.net[id].wire.header.pqEk.value.seed)) && held.None?)
    && (held.Some? ==> pending == Some(KemPair(held.value.seed)))
    && (forall id | CarriesCt(w.net, id) && Sender(id) == q ::
          pending == Some(KemPair(w.net[id].wire.header.pqCt.value.pair)) && held.None?)
    && (forall i, j | CarriesEk(w.net, i) && CarriesEk(w.net, j) && Sender(i) == Sender(j) == p :: i == j)
    && (forall i, j | CarriesCt(w.net, i) && CarriesCt(w.net, j) && Sender(i) == Sender(j) == q :: i == j)
    && (forall i, j | CarriesEk(w.net, i) && CarriesCt(w.net, j) :: !(Sender(i) == p && Sender(j) == q))
  }

  /** The messages of `p` in flight that carry a PQ ciphertext. */
  function CtsFrom(net: Net, p: Peer): set<MsgId> {
    set id | id in net && CarriesCt(net, id) && Sender(id) == p
  }

  ghost predicate RemixOk(w: World) {
    w.alice.remixes + |CtsFrom(w.net, Bob)| == w.bob.remixes + |CtsFrom(w.net, Alice)|
  }

  ghost predicate PeerInv(w: World, p: Peer)
    requires |w.chains| >= 2
  {
    PeerOk(w, p) && AheadOk(w, p) && CacheOk(w, p) && OfferOk(w, p)
  }

  ghost predicate Inv(w: World) {
    ChainsOk(w.chains) && NetOk(w.net, w.chains) && RemixOk(w) && PeerInv(w, Alice) && PeerInv(w, Bob)
  }

  lemma InvReady(w: World)
    requires Inv(w)
    ensures Ready(w)
  {
  }

  lemma BeginInv(root: Key, bobSecret: Secret, aliceSeed: Secret)
    requires bobSecret != aliceSeed
    ensures Inv(Begin(root, bobSecret, aliceSeed))
  {
  }
}
