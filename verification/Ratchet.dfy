/** One peer of the Triple Ratchet: the state, its two message operations as
    functions of the state, and the object that carries them out in place. */
module Ratchet {
  import opened Common
  import opened RatchetCrypto

  const MAX_SKIP: nat := 25
  const PQ_REMIX_EVERY_N_TURNS: nat := 3

  type SkippedKeys = map<(Pub, nat), Key>

  /** The three 32-byte lanes of entropy every call takes. */
  datatype Entropy = Entropy(dh: Secret, pqPair: nat, pqEncap: nat)

  datatype State = State(
    dhsPriv: Secret,
    dhsPub: Pub,
    dhrPub: Option<Pub>,
    rk: Key,
    cks: Option<Key>,
    ckr: Option<Key>,
    ns: nat,
    nr: nat,
    pn: nat,
    skipped: SkippedKeys,
    turns: nat,
    remixes: nat,
    pendingOffer: Option<KemPair>,
    peerOffer: Option<KemEk>)
  {
    /** A receiving chain is only ever derived from a known peer key. */
    predicate Valid() {
      ckr.Some? ==> dhrPub.Some?
    }
  }

  function InitAlice(root: Key, bobPub: Pub, seed: Secret): State {
    var dhOut := Dh(seed, bobPub);
    State(seed, Pub(seed), Some(bobPub), RootOf(root, dhOut), Some(ChainOf(root, dhOut)), None,
          0, 0, 0, map[], 1, 0, None, None)
  }

  function InitBob(root: Key, secret: Secret): State {
    State(secret, Pub(secret), None, root, None, None, 0, 0, 0, map[], 0, 0, None, None)
  }

  /** The message keys numbered `from` up to `until` of a chain whose key `from` is `ck`. */
  function KeyRange(pub: Pub, ck: Key, from: nat, until: nat): SkippedKeys {
    map n: nat | from <= n < until :: (pub, n) := MessageOf(Advance(ck, n - from))
  }

  lemma KeyRangeGrows(pub: Pub, ck: Key, from: nat, until: nat)
    requires from <= until
    ensures KeyRange(pub, ck, from, until + 1)
         == KeyRange(pub, ck, from, until)[(pub, until) := MessageOf(Advance(ck, until - from))]
  {
  }

  lemma UpdateAfterUnion<K, V>(a: map<K, V>, b: map<K, V>, k: K, v: V)
    ensures a + b[k := v] == (a + b)[k := v]
  {
  }

  /** `cache` and the keys numbered `from` up to `until`. */
  function Cached(cache: SkippedKeys, pub: Pub, ck: Key, from: nat, until: nat): SkippedKeys {
    cache + KeyRange(pub, ck, from, until)
  }

  lemma CachedNone(cache: SkippedKeys, pub: Pub, ck: Key, from: nat)
    ensures Cached(cache, pub, ck, from, from) == cache
  {
  }

  lemma CachedGrows(cache: SkippedKeys, pub: Pub, ck: Key, from: nat, until: nat)
    requires from <= until
    ensures Cached(cache, pub, ck, from, until + 1)
         == Cached(cache, pub, ck, from, until)[(pub, until) := MessageOf(Advance(ck, until - from))]
  {
    KeyRangeGrows(pub, ck, from, until);
    UpdateAfterUnion(cache, KeyRange(pub, ck, from, until), (pub, until), MessageOf(Advance(ck, until - from)));
  }

  lemma AdvanceNext(ck: Key, n: nat)
    ensures Advance(ck, n + 1) == NextChain(Advance(ck, n))
  {
  }

  lemma AdvanceFrom(ck: Option<Key>)
    ensures ck.Some? ==> Advance(ck.value, 0) == ck.value
  {
  }

  /** Caches the keys up to `until`; on error nothing changes. */
  function SkipTo(st: State, until: nat): (r: Result<State, Error>)
    requires st.Valid()
    ensures r.Ok? ==> r.value.Valid() && (r.value.ckr.Some? <==> st.ckr.Some?)
  {
    if st.ckr.None? then Ok(st)
    else if until > st.nr + MAX_SKIP then Err(TooManySkipped)
    else if until <= st.nr then Ok(st)
    else Ok(st.(ckr := Some(Advance(st.ckr.value, until - st.nr)),
                skipped := Cached(st.skipped, st.dhrPub.value, st.ckr.value, st.nr, until),
                nr := until))
  }

  /** A full DH turn: the peer's new receiving chain, then a sending chain of our own. */
  function DhStep(st: State, theirs: Pub, seed: Secret): State {
    var recv := Dh(st.dhsPriv, theirs);
    var root := RootOf(st.rk, recv);
    var send := Dh(seed, theirs);
    st.(pn := st.ns, ns := 0, nr := 0, dhrPub := Some(theirs),
        ckr := Some(ChainOf(st.rk, recv)),
        dhsPriv := seed, dhsPub := Pub(seed),
        rk := RootOf(root, send), cks := Some(ChainOf(root, send)),
        turns := st.turns + 1)
  }

  /** Whether the message about to be sent answers the peer's offer. */
  predicate Answers(st: State) {
    st.ns == 0 && st.peerOffer.Some?
  }

  /** Whether the message about to be sent carries a fresh offer. */
  predicate Offers(st: State) {
    st.ns == 0 && st.pendingOffer.None? && st.turns > 0 && st.turns % PQ_REMIX_EVERY_N_TURNS == 0
  }

  function Encrypt(st: State, text: Bytes, ent: Entropy): (r: (State, Result<Wire, Error>)) {
    if st.cks.None? then (st, Err(CannotSendYet)) else
    var cks := if Answers(st) then PqMix(st.cks.value, Encapsulate(ent.pqEncap, st.peerOffer.value).1)
               else st.cks.value;
    var header := Header(
                    st.dhsPub, st.pn, st.ns,
                    if Offers(st) then Some(KemEk(ent.pqPair)) else None,
                    if Answers(st) then Some(Encapsulate(ent.pqEncap, st.peerOffer.value).0) else None);
    var st' := st.(ns := st.ns + 1,
                   cks := Some(NextChain(cks)),
                   pendingOffer := if Offers(st) then Some(KemPair(ent.pqPair)) else st.pendingOffer,
                   peerOffer := if Answers(st) then None else st.peerOffer,
                   remixes := if Answers(st) then st.remixes + 1 else st.remixes);
    (st', Ok(Wire(header, Sealed(MessageOf(cks), header, text))))
  }

  /** The receiving chain brought to the message's own number: the DH turn and the
      skips. On error the state is the one the source leaves behind. */
  function Seek(st: State, h: Header, seed: Secret): (r: (State, Result<(), Error>))
    requires st.Valid()
    ensures r.0.Valid()
    ensures r.1.Ok? ==> r.0.ckr.Some?
  {
    if st.dhrPub == Some(h.dhPub) then
      match SkipTo(st, h.n)
      case Err(e) => (st, Err(e))
      case Ok(st1) => if st1.ckr.None? then (st1, Err(NoReceivingChain)) else (st1, Ok(()))
    else
      match SkipTo(st, h.pn)
      case Err(e) => (st, Err(e))
      case Ok(st1) =>
        var st2 := DhStep(st1, h.dhPub, seed);
        match SkipTo(st2, h.n)
        case Err(e) => (st2, Err(e))
        case Ok(st3) => (st3, Ok(()))
  }

  /** The offer and the answer a chain's first message may carry. */
  function TakePq(st: State, h: Header): State
    requires st.ckr.Some?
  {
    var st1 := if h.n == 0 && h.pqEk.Some? then st.(peerOffer := h.pqEk) else st;
    if h.n == 0 && h.pqCt.Some? && st.pendingOffer.Some? then
      st1.(ckr := Some(PqMix(st.ckr.value, Decapsulate(st.pendingOffer.value, h.pqCt.value))),
           pendingOffer := None,
           remixes := st.remixes + 1)
    else st1
  }

  /** Uses up the key of the message the receiving chain has reached. */
  function Consume(st: State, wire: Wire): (r: (State, Result<Bytes, Error>))
    requires st.Valid() && st.ckr.Some?
    ensures r.0.Valid()
  {
    var st' := TakePq(st, wire.header);
    (st'.(ckr := Some(NextChain(st'.ckr.value)), nr := wire.header.n + 1),
     Open(MessageOf(st'.ckr.value), wire.header, wire.body))
  }

  function Decrypt(st: State, wire: Wire, ent: Entropy): (r: (State, Result<Bytes, Error>))
    requires st.Valid()
    ensures r.0.Valid()
  {
    var h := wire.header;
    var slot := (h.dhPub, h.n);
    if slot in st.skipped then
      (st.(skipped := st.skipped - {slot}), Open(st.skipped[slot], h, wire.body))
    else if st.dhrPub == Some(h.dhPub) && h.n < st.nr then
      (st, Err(AlreadyConsumed))
    else
      var (st', sought) := Seek(st, h, ent.dh);
      if sought.Err? then (st', Err(sought.error)) else Consume(st', wire)
  }

  /** A live session: the ratchet state, updated field by field by sends and receives. */
  class RatchetSession {
    var state: State

    constructor Alice(root: Key, bobPub: Pub, seed: Secret)
      ensures state == InitAlice(root, bobPub, seed) && state.Valid()
    {
      state := InitAlice(root, bobPub, seed);
    }

    constructor Bob(root: Key, secret: Secret)
      ensures state == InitBob(root, secret) && state.Valid()
    {
      state := InitBob(root, secret);
    }

    method SkipMessageKeysTo(until: nat) returns (r: Result<(), Error>)
      requires state.Valid()
      modifies this
      ensures state == (match SkipTo(old(state), until) case Ok(st) => st case Err(_) => old(state))
      ensures r == (match SkipTo(old(state), until) case Ok(_) => Ok(()) case Err(e) => Err(e))
    {
      hide Cached, Advance;
      AdvanceFrom(state.ckr);
      if state.ckr.None? { return Ok(()); }
      if until > state.nr && until - state.nr > MAX_SKIP { return Err(TooManySkipped); }
      var ck := state.ckr.value;
      ghost var st := state;
      CachedNone(st.skipped, st.dhrPub.value, ck, st.nr);
      while state.nr < until
        invariant st.nr <= state.nr && (state.nr <= until || state.nr == st.nr)
        invariant ck == Advance(st.ckr.value, state.nr - st.nr)
        invariant state == st.(nr := state.nr, skipped := state.skipped)
        invariant state.skipped == Cached(st.skipped, st.dhrPub.value, st.ckr.value, st.nr, state.nr)
      {
        CachedGrows(st.skipped, st.dhrPub.value, st.ckr.value, st.nr, state.nr);
        AdvanceNext(st.ckr.value, state.nr - st.nr);
        var slot := (state.dhrPub.value, state.nr);
        state := state.(skipped := state.skipped[slot := MessageOf(ck)]);
        ck := NextChain(ck);
        state := state.(nr := state.nr + 1);
      }
      state := state.(ckr := Some(ck));
      return Ok(());
    }

    method DhRatchetStep(theirs: Pub, seed: Secret)
      requires state.Valid()
      modifies this
      ensures state == DhStep(old(state), theirs, seed)
    {
      state := state.(pn := state.ns);
      state := state.(ns := 0, nr := 0, dhrPub := Some(theirs));
      var recv := Dh(state.dhsPriv, theirs);
      state := state.(ckr := Some(ChainOf(state.rk, recv)), rk := RootOf(state.rk, recv));
      state := state.(dhsPriv := seed, dhsPub := Pub(seed));
      var send := Dh(state.dhsPriv, theirs);
      state := state.(cks := Some(ChainOf(state.rk, send)), rk := RootOf(state.rk, send));
      state := state.(turns := state.turns + 1);
    }

    method RatchetEncrypt(text: Bytes, ent: Entropy) returns (r: Result<Wire, Error>)
      modifies this
      ensures (state, r) == Encrypt(old(state), text, ent)
    {
      if state.cks.None? { return Err(CannotSendYet); }
      var ck := state.cks.value;
      var n := state.ns;
      state := state.(ns := state.ns + 1);

      var ctResponse: Option<KemCt> := None;
      if n == 0 && state.peerOffer.Some? {
        var (ct, ss) := Encapsulate(ent.pqEncap, state.peerOffer.value);
        ctResponse := Some(ct);
        ck := PqMix(ck, ss);
        state := state.(peerOffer := None, remixes := state.remixes + 1);
      }

      var ekOffer: Option<KemEk> := None;
      if n == 0 && state.pendingOffer.None? && state.turns > 0 && state.turns % PQ_REMIX_EVERY_N_TURNS == 0 {
        ekOffer := Some(KemEk(ent.pqPair));
        state := state.(pendingOffer := Some(KemPair(ent.pqPair)));
      }

      state := state.(cks := Some(NextChain(ck)));
      var header := Header(state.dhsPub, state.pn, n, ekOffer, ctResponse);
      return Ok(Wire(header, Sealed(MessageOf(ck), header, text)));
    }

    method RatchetDecrypt(wire: Wire, ent: Entropy) returns (r: Result<Bytes, Error>)
      requires state.Valid()
      modifies this
      ensures (state, r) == Decrypt(old(state), wire, ent)
    {
      var h := wire.header;
      if (h.dhPub, h.n) in state.skipped {
        var mk := state.skipped[(h.dhPub, h.n)];
        state := state.(skipped := state.skipped - {(h.dhPub, h.n)});
        return Open(mk, h, wire.body);
      }
      if state.dhrPub == Some(h.dhPub) && h.n < state.nr { return Err(AlreadyConsumed); }

      var skip;
      if state.dhrPub != Some(h.dhPub) {
        if state.ckr.Some? {
          skip := SkipMessageKeysTo(h.pn);
          if skip.Err? { return Err(skip.error); }
        }
        DhRatchetStep(h.dhPub, ent.dh);
      }
      skip := SkipMessageKeysTo(h.n);
      if skip.Err? { return Err(skip.error); }
      if state.ckr.None? { return Err(NoReceivingChain); }

      var ck := state.ckr.value;
      if h.n == 0 {
        if h.pqEk.Some? { state := state.(peerOffer := h.pqEk); }
        if h.pqCt.Some? && state.pendingOffer.Some? {
          ck := PqMix(ck, Decapsulate(state.pendingOffer.value, h.pqCt.value));
          state := state.(pendingOffer := None, remixes := state.remixes + 1);
        }
      }
      state := state.(ckr := Some(NextChain(ck)), nr := h.n + 1);
      return Open(MessageOf(ck), h, wire.body);
    }
  }
}
