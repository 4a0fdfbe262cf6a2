/** Linkable ring signatures over any group: signing walks the ring once around from the
    signer, verifying walks it from position 0, and the two meet. */
module Ring {
  import opened Common

  /** Scalars `S`, points `P`, their byte forms, and the hashes. `identity` and `neg` serve
      the laws only: neither signing nor verifying uses them. */
  datatype Group<!S, !P> = Group(
    zero: S,
    sub: (S, S) -> S,
    mulS: (S, S) -> S,
    add: (P, P) -> P,
    identity: P,
    neg: P -> P,
    mul: (S, P) -> P,
    base: P,
    compress: P -> Bytes,
    decompress: Bytes -> Option<P>,
    toBytes: S -> Bytes,
    fromBytes: Bytes -> S,
    hashToPoint: Bytes -> P,
    commit: seq<Bytes> -> Bytes,
    challenge: (Bytes, P, Bytes, P, P) -> S)

  predicate Associates<S, P(==)>(g: Group<S, P>, p: P, q: P, r: P) {
    g.add(g.add(p, q), r) == g.add(p, g.add(q, r))
  }

  predicate HasInverse<S, P(==)>(g: Group<S, P>, p: P) {
    g.add(p, g.identity) == p && g.add(g.neg(p), p) == g.identity
  }

  predicate Distributes<S, P(==)>(g: Group<S, P>, a: S, b: S, p: P) {
    g.mul(g.sub(a, b), p) == g.add(g.mul(a, p), g.neg(g.mul(b, p)))
  }

  predicate Composes<S, P(==)>(g: Group<S, P>, a: S, b: S, p: P) {
    g.mul(g.mulS(a, b), p) == g.mul(a, g.mul(b, p))
  }

  /** The points are a group. */
  ghost predicate IsGroup<S, P(!new)>(g: Group<S, P>) {
    (forall p, q, r :: Associates(g, p, q, r)) && forall p :: HasInverse(g, p)
  }

  /** Scalars act on points. */
  ghost predicate Acts<S(!new), P(!new)>(g: Group<S, P>) {
    forall a, b, p :: Distributes(g, a, b, p) && Composes(g, a, b, p)
  }

  /** The byte forms lose nothing. */
  ghost predicate Codes<S(!new), P(!new)>(g: Group<S, P>) {
    && (forall p :: g.decompress(g.compress(p)) == Some(p))
    && (forall s :: g.fromBytes(g.toBytes(s)) == s)
  }

  /** The laws the construction rests on; the hashes are left free. */
  ghost predicate Lawful<S(!new), P(!new)>(g: Group<S, P>) {
    IsGroup(g) && Acts(g) && Codes(g)
  }

  datatype Signature = Signature(keyImage: Bytes, c0: Bytes, s: seq<Bytes>)

  /** What every step of one signature shares. */
  datatype Env<P> = Env(commit: Bytes, image: P, hp: P, message: Bytes)

  function PublicKey<S, P>(g: Group<S, P>, seed: Bytes): Bytes {
    g.compress(g.mul(g.fromBytes(seed), g.base))
  }

  /** The linkability tag: it depends on the secret and the context alone. */
  function KeyImage<S, P>(g: Group<S, P>, seed: Bytes, ctx: Bytes): P {
    g.mul(g.fromBytes(seed), g.hashToPoint(ctx))
  }

  function Challenge<S, P>(g: Group<S, P>, env: Env<P>, l: P, r: P): S {
    g.challenge(env.commit, env.image, env.message, l, r)
  }

  /** The challenge handed on by a ring member with response `s`. */
  function Step<S, P>(g: Group<S, P>, env: Env<P>, point: P, s: S, c: S): S {
    Challenge(g, env, g.add(g.mul(s, g.base), g.mul(c, point)), g.add(g.mul(s, env.hp), g.mul(c, env.image)))
  }

  /** The verifier's walk over the first `k` members. */
  function Walk<S, P>(g: Group<S, P>, env: Env<P>, points: seq<P>, s: seq<S>, c0: S, k: nat): S
    requires k <= |points| == |s|
  {
    if k == 0 then c0 else Step(g, env, points[k - 1], s[k - 1], Walk(g, env, points, s, c0, k - 1))
  }

  function Decompress<S, P>(g: Group<S, P>, ring: seq<Bytes>): (r: Option<seq<P>>)
    ensures r.Some? ==> |r.value| == |ring| && forall i | 0 <= i < |ring| :: g.decompress(ring[i]) == Some(r.value[i])
    ensures r.None? ==> exists i | 0 <= i < |ring| :: g.decompress(ring[i]).None?
  {
    if ring == [] then Some([]) else
    var init, last := Decompress(g, ring[..|ring| - 1]), g.decompress(ring[|ring| - 1]);
    if init.None? || last.None? then None else Some(init.value + [last.value])
  }

  function Scalars<S, P>(g: Group<S, P>, s: seq<Bytes>): (r: seq<S>)
    ensures |r| == |s| && forall i | 0 <= i < |s| :: r[i] == g.fromBytes(s[i])
  {
    seq(|s|, i requires 0 <= i < |s| => g.fromBytes(s[i]))
  }

  lemma DecompressFails<S, P>(g: Group<S, P>, ring: seq<Bytes>, i: nat)
    requires i < |ring| && g.decompress(ring[i]).None?
    ensures Decompress(g, ring).None?
  {
  }

  method DecompressRing<S, P>(g: Group<S, P>, ring: seq<Bytes>) returns (r: Option<seq<P>>)
    ensures r == Decompress(g, ring)
  {
    var points: seq<P> := [];
    for i := 0 to |ring|
      invariant Decompress(g, ring[..i]) == Some(points)
    {
      assert ring[..i + 1][..i] == ring[..i];
      match g.decompress(ring[i]) {
        case Some(pt) => points := points + [pt];
        case None => DecompressFails(g, ring, i); return None;
      }
    }
    assert ring[..|ring|] == ring;
    return Some(points);
  }

  predicate Accepts<S(==), P>(g: Group<S, P>, ring: seq<Bytes>, message: Bytes, ctx: Bytes, sig: Signature) {
    var points, image := Decompress(g, ring), g.decompress(sig.keyImage);
    && |ring| >= 2 && |sig.s| == |ring| && points.Some? && image.Some?
    && var env := Env(g.commit(ring), image.value, g.hashToPoint(ctx), message);
    var c0 := g.fromBytes(sig.c0);
    Walk(g, env, points.value, Scalars(g, sig.s), c0, |ring|) == c0
  }

  method Verify<S(==), P>(g: Group<S, P>, ring: seq<Bytes>, message: Bytes, ctx: Bytes, sig: Signature) returns (ok: bool)
    ensures ok == Accepts(g, ring, message, ctx, sig)
  {
    var n := |ring|;
    if n < 2 || |sig.s| != n { return false; }
    var decompressed := DecompressRing(g, ring);
    if decompressed.None? { return false; }
    var points := decompressed.value;
    var image := g.decompress(sig.keyImage);
    if image.None? { return false; }
    var hp, commit := g.hashToPoint(ctx), g.commit(ring);
    ghost var env := Env(commit, image.value, hp, message);

    var c0 := g.fromBytes(sig.c0);
    var c := c0;
    for i := 0 to n
      invariant c == Walk(g, env, points, Scalars(g, sig.s), c0, i)
    {
      var si := g.fromBytes(sig.s[i]);
      var l := g.add(g.mul(si, g.base), g.mul(c, points[i]));
      var r := g.add(g.mul(si, hp), g.mul(c, image.value));
      c := g.challenge(commit, image.value, message, l, r);
    }
    return c == c0;
  }

  // ---- The closed cycle -----------------------------------------------------------

  function Next(i: nat, n: nat): nat {
    if i + 1 == n then 0 else i + 1
  }

  /** How many steps after the signer's successor position `k` is visited. */
  function Turn(my: nat, n: nat, k: nat): nat
    requires my < n && k < n
  {
    if k > my then k - my - 1 else k + n - my - 1
  }

  /** The draws numbered `lo` up to `hi` all succeed. */
  ghost predicate Draws(rng: nat -> Option<Bytes>, lo: nat, hi: nat) {
    forall j: nat | lo <= j < hi :: rng(j).Some?
  }

  lemma FirstDraw(rng: nat -> Option<Bytes>, n: nat)
    requires n >= 1
    ensures Draws(rng, 0, n) <==> rng(0).Some? && Draws(rng, 1, n)
  {
  }

  /** The draw that becomes the response of member `k`. */
  function DrawFor(rng: nat -> Option<Bytes>, my: nat, n: nat, k: nat): Option<Bytes>
    requires my < n && k < n
  {
    rng(1 + Turn(my, n, k))
  }

  /** The member at `k` hands on the challenge its successor starts from. */
  predicate HandsOn<S(==), P>(g: Group<S, P>, env: Env<P>, points: seq<P>, s: seq<S>, c: seq<S>, k: nat)
    requires k < |points| == |s| == |c|
  {
    c[Next(k, |c|)] == Step(g, env, points[k], s[k], c[k])
  }

  /** A cycle in which every member hands on its challenge is accepted from position 0. */
  lemma {:induction false} WalkFollows<S, P>(g: Group<S, P>, env: Env<P>, points: seq<P>, s: seq<S>, c: seq<S>, k: nat)
    requires k <= |points| == |s| == |c| && |c| >= 1
    requires forall i | 0 <= i < |c| :: HandsOn(g, env, points, s, c, i)
    ensures Walk(g, env, points, s, c[0], k) == c[if k == |c| then 0 else k]
  {
    if k > 0 {
      WalkFollows(g, env, points, s, c, k - 1);
      assert HandsOn(g, env, points, s, c, k - 1);
    }
  }

  /** The signer's own response makes its slot reproduce the commitment of the nonce. */
  lemma SignerCloses<S(!new), P(!new)>(g: Group<S, P>, env: Env<P>, x: S, alpha: S, c: S)
    requires Lawful(g) && env.image == g.mul(x, env.hp)
    ensures Step(g, env, g.mul(x, g.base), g.sub(alpha, g.mulS(c, x)), c)
         == Challenge(g, env, g.mul(alpha, g.base), g.mul(alpha, env.hp))
  {
    Closes(g, alpha, c, x, g.base);
    Closes(g, alpha, c, x, env.hp);
  }

  /** The response `a - b x` and the challenge `b` add up to the nonce `a`, on every point. */
  lemma Closes<S(!new), P(!new)>(g: Group<S, P>, a: S, b: S, x: S, p: P)
    requires Lawful(g)
    ensures g.add(g.mul(g.sub(a, g.mulS(b, x)), p), g.mul(b, g.mul(x, p))) == g.mul(a, p)
  {
    var ap, bxp := g.mul(a, p), g.mul(b, g.mul(x, p));
    assert Distributes(g, a, g.mulS(b, x), p) && Composes(g, b, x, p);
    assert Associates(g, ap, g.neg(bxp), bxp) && HasInverse(g, bxp) && HasInverse(g, ap);
    calc {
      g.add(g.mul(g.sub(a, g.mulS(b, x)), p), bxp);
      g.add(g.add(ap, g.neg(bxp)), bxp);
      g.add(ap, g.add(g.neg(bxp), bxp));
      g.add(ap, g.identity);
      ap;
    }
  }

  lemma ClosedIsAccepted<S(!new), P(!new)>(
    g: Group<S, P>, ring: seq<Bytes>, message: Bytes, ctx: Bytes, env: Env<P>, points: seq<P>, s: seq<S>, c: seq<S>, sig: Signature)
    requires Lawful(g) && |ring| == |s| == |c| >= 2 && Decompress(g, ring) == Some(points)
    requires env == Env(g.commit(ring), env.image, g.hashToPoint(ctx), message)
    requires forall i | 0 <= i < |c| :: HandsOn(g, env, points, s, c, i)
    requires sig.keyImage == g.compress(env.image) && sig.c0 == g.toBytes(c[0])
    requires |sig.s| == |s| && forall i | 0 <= i < |s| :: sig.s[i] == g.toBytes(s[i])
    ensures Accepts(g, ring, message, ctx, sig)
  {
    assert Scalars(g, sig.s) == s;
    WalkFollows(g, env, points, s, c, |c|);
  }

  lemma TurnNext(my: nat, n: nat, i: nat)
    requires my < n && i < n
    ensures i != my ==> Next(i, n) < n && Turn(my, n, Next(i, n)) == Turn(my, n, i) + 1
    ensures (i + 1) % n == Next(i, n)
    ensures Turn(my, n, i) < n && (Turn(my, n, i) == n - 1 <==> i == my)
  {
  }

  /** Members visited before `i` are neither `i` nor its successor, and neither are
      their successors its successor. */
  lemma TurnsApart(my: nat, n: nat, i: nat)
    requires my < n && i < n && i != my && n >= 2
    ensures forall k | 0 <= k < n && Turn(my, n, k) < Turn(my, n, i) ::
              k != i && k != Next(i, n) && Next(k, n) != Next(i, n)
    ensures Next(i, n) != i && Next(i, n) != Next(my, n)
    ensures forall k | 0 <= k < n && Turn(my, n, k) == Turn(my, n, i) :: k == i
  {
  }

  /** Every member but the signer hands on its challenge. */
  ghost predicate AllButOne<S, P>(g: Group<S, P>, env: Env<P>, points: seq<P>, s: seq<S>, c: seq<S>, my: nat)
    requires |points| == |s| == |c|
  {
    forall k | 0 <= k < |c| && k != my :: HandsOn(g, env, points, s, c, k)
  }

  lemma OwnResponseIsFree<S, P>(g: Group<S, P>, env: Env<P>, points: seq<P>, s: seq<S>, c: seq<S>, my: nat, v: S)
    requires |points| == |s| == |c| && my < |s| && AllButOne(g, env, points, s, c, my)
    ensures AllButOne(g, env, points, s[my := v], c, my)
  {
    var s' := s[my := v];
    forall k | 0 <= k < |c| && k != my
      ensures HandsOn(g, env, points, s', c, k)
    {
      assert HandsOn(g, env, points, s, c, k);
    }
  }

  /** The responses of the other members are the draws, in the order of the walk. */
  ghost predicate AsDrawn<S, P>(g: Group<S, P>, rng: nat -> Option<Bytes>, my: nat, s: seq<S>)
    requires my < |s|
  {
    forall k | 0 <= k < |s| && k != my :: DrawFor(rng, my, |s|, k).Some? && s[k] == g.fromBytes(DrawFor(rng, my, |s|, k).value)
  }

  /** Walks the ring from the signer's successor back to the signer, drawing a response
      for every member on the way and handing on the challenge. */
  method GoAround<S, P>(
    g: Group<S, P>, env: Env<P>, points: seq<P>, my: nat, rng: nat -> Option<Bytes>, c: array<S>, s: array<S>)
    returns (ok: bool)
    requires my < |points| == c.Length == s.Length && c != s && |points| >= 2
    modifies c, s
    ensures ok <==> Draws(rng, 1, |points|)
    ensures c[Next(my, |points|)] == old(c[Next(my, |points|)])
    ensures ok ==> AsDrawn(g, rng, my, s[..])
    ensures ok ==> AllButOne(g, env, points, s[..], c[..], my)
  {
    hide Visited, AsDrawn, AllButOne;
    var n := |points|;
    TurnNext(my, n, my);
    var i, draw := (my + 1) % n, 1;
    NothingVisited(g, env, points, rng, my, s[..], c[..]);
    while i != my
      invariant 0 <= i < n && draw == 1 + Turn(my, n, i)
      invariant Draws(rng, 1, draw)
      invariant c[Next(my, n)] == old(c[Next(my, n)])
      invariant Visited(g, env, points, rng, my, s[..], c[..], i)
      decreases n - Turn(my, n, i)
    {
      TurnNext(my, n, i);
      TurnsApart(my, n, i);
      var drawn := rng(draw);
      if drawn.None? { return false; }
      ghost var sWas, cWas := s[..], c[..];
      s[i] := g.fromBytes(drawn.value);
      var l := g.add(g.mul(s[i], g.base), g.mul(c[i], points[i]));
      var r := g.add(g.mul(s[i], env.hp), g.mul(c[i], env.image));
      var next := (i + 1) % n;
      c[next] := g.challenge(env.commit, env.image, env.message, l, r);
      VisitOne(g, env, points, rng, my, sWas, cWas, i, drawn.value);
      assert s[..] == sWas[i := s[i]] && c[..] == cWas[next := c[next]];
      i, draw := next, draw + 1;
    }
    AllVisited(g, env, points, rng, my, s[..], c[..]);
    return true;
  }

  /** The members the walk passed before `i` have their draw and handed on their challenge. */
  ghost predicate Visited<S, P>(
    g: Group<S, P>, env: Env<P>, points: seq<P>, rng: nat -> Option<Bytes>, my: nat, s: seq<S>, c: seq<S>, i: nat)
    requires |points| == |s| == |c| && my < |s| && i < |s|
  {
    forall k | 0 <= k < |s| && Turn(my, |s|, k) < Turn(my, |s|, i) ::
      && DrawFor(rng, my, |s|, k).Some? && s[k] == g.fromBytes(DrawFor(rng, my, |s|, k).value)
      && HandsOn(g, env, points, s, c, k)
  }

  lemma NothingVisited<S, P>(g: Group<S, P>, env: Env<P>, points: seq<P>, rng: nat -> Option<Bytes>, my: nat, s: seq<S>, c: seq<S>)
    requires |points| == |s| == |c| >= 2 && my < |s|
    ensures Turn(my, |s|, Next(my, |s|)) == 0 && Visited(g, env, points, rng, my, s, c, Next(my, |s|))
  {
  }

  lemma VisitOne<S, P>(
    g: Group<S, P>, env: Env<P>, points: seq<P>, rng: nat -> Option<Bytes>, my: nat, s: seq<S>, c: seq<S>, i: nat, drawn: Bytes)
    requires |points| == |s| == |c| >= 2 && my < |s| && i < |s| && i != my
    requires Visited(g, env, points, rng, my, s, c, i) && DrawFor(rng, my, |s|, i) == Some(drawn)
    ensures var s' := s[i := g.fromBytes(drawn)];
            var c' := c[Next(i, |s|) := Step(g, env, points[i], s'[i], c[i])];
            Visited(g, env, points, rng, my, s', c', Next(i, |s|))
  {
    TurnNext(my, |s|, i);
    TurnsApart(my, |s|, i);
    var s' := s[i := g.fromBytes(drawn)];
    var c' := c[Next(i, |s|) := Step(g, env, points[i], s'[i], c[i])];
    forall k | 0 <= k < |s| && Turn(my, |s|, k) < Turn(my, |s|, Next(i, |s|))
      ensures DrawFor(rng, my, |s|, k).Some? && s'[k] == g.fromBytes(DrawFor(rng, my, |s|, k).value)
      ensures HandsOn(g, env, points, s', c', k)
    {
      assert k != i ==> HandsOn(g, env, points, s, c, k);
    }
  }

  lemma AllVisited<S, P>(g: Group<S, P>, env: Env<P>, points: seq<P>, rng: nat -> Option<Bytes>, my: nat, s: seq<S>, c: seq<S>)
    requires |points| == |s| == |c| && my < |s| && Visited(g, env, points, rng, my, s, c, my)
    ensures AsDrawn(g, rng, my, s) && AllButOne(g, env, points, s, c, my)
    ensures Turn(my, |s|, my) == |s| - 1
  {
    forall k | 0 <= k < |s| && k != my ensures Turn(my, |s|, k) < Turn(my, |s|, my) { TurnNext(my, |s|, k); }
  }

  /** The responses drawn on the way around, with the signer's own solved for. */
  function Responses<S, P>(g: Group<S, P>, s: seq<S>): (r: seq<Bytes>)
    ensures |r| == |s| && forall i | 0 <= i < |s| :: r[i] == g.toBytes(s[i])
  {
    seq(|s|, i requires 0 <= i < |s| => g.toBytes(s[i]))
  }

  lemma SignerAccepted<S(!new), P(!new)>(
    g: Group<S, P>, seed: Bytes, my: nat, ring: seq<Bytes>, message: Bytes, ctx: Bytes,
    env: Env<P>, points: seq<P>, alpha: S, s: seq<S>, c: seq<S>)
    requires Lawful(g) && |ring| == |s| == |c| >= 2 && my < |ring| && Decompress(g, ring) == Some(points)
    requires env == Env(g.commit(ring), KeyImage(g, seed, ctx), g.hashToPoint(ctx), message)
    requires ring[my] == PublicKey(g, seed) && AllButOne(g, env, points, s, c, my)
    requires c[Next(my, |c|)] == Challenge(g, env, g.mul(alpha, g.base), g.mul(alpha, env.hp))
    requires s[my] == g.sub(alpha, g.mulS(c[my], g.fromBytes(seed)))
    ensures Accepts(g, ring, message, ctx, Signature(g.compress(env.image), g.toBytes(c[0]), Responses(g, s)))
  {
    SignerCloses(g, env, g.fromBytes(seed), alpha, c[my]);
    assert HandsOn(g, env, points, s, c, my);
    ClosedIsAccepted(g, ring, message, ctx, env, points, s, c,
                     Signature(g.compress(env.image), g.toBytes(c[0]), Responses(g, s)));
  }

  /** What a signature made with secret `seed` at position `my` is. */
  ghost predicate SignedBy<S(!new), P(!new)>(
    g: Group<S, P>, seed: Bytes, my: nat, ring: seq<Bytes>, message: Bytes, ctx: Bytes, rng: nat -> Option<Bytes>, sig: Signature)
  {
    && my < |ring| == |sig.s|
    && sig.keyImage == g.compress(KeyImage(g, seed, ctx))
    && (forall k | 0 <= k < |ring| && k != my ::
          DrawFor(rng, my, |ring|, k).Some? && sig.s[k] == g.toBytes(g.fromBytes(DrawFor(rng, my, |ring|, k).value)))
    && (Lawful(g) && ring[my] == PublicKey(g, seed) ==> Accepts(g, ring, message, ctx, sig))
  }

  lemma SignResult<S(!new), P(!new)>(
    g: Group<S, P>, seed: Bytes, my: nat, ring: seq<Bytes>, message: Bytes, ctx: Bytes, rng: nat -> Option<Bytes>,
    env: Env<P>, points: seq<P>, alpha: S, drawn: seq<S>, c: seq<S>)
    requires |ring| == |drawn| == |c| >= 2 && my < |ring| && Decompress(g, ring) == Some(points)
    requires env == Env(g.commit(ring), KeyImage(g, seed, ctx), g.hashToPoint(ctx), message)
    requires AllButOne(g, env, points, drawn, c, my) && AsDrawn(g, rng, my, drawn)
    requires c[Next(my, |c|)] == Challenge(g, env, g.mul(alpha, g.base), g.mul(alpha, env.hp))
    ensures var s := drawn[my := g.sub(alpha, g.mulS(c[my], g.fromBytes(seed)))];
            SignedBy(g, seed, my, ring, message, ctx, rng, Signature(g.compress(env.image), g.toBytes(c[0]), Responses(g, s)))
  {
    var own := g.sub(alpha, g.mulS(c[my], g.fromBytes(seed)));
    OwnResponseIsFree(g, env, points, drawn, c, my, own);
    if Lawful(g) && ring[my] == PublicKey(g, seed) {
      SignerAccepted(g, seed, my, ring, message, ctx, env, points, alpha, drawn[my := own], c);
    }
  }

  /** Signs as the member at `my`. `rng(i)` is the outcome of the `i`-th draw of
      randomness; the first is the nonce, the others the responses of the other members
      in the order the ring is walked. */
  method Sign<S(!new), P(!new)>(
    g: Group<S, P>, seed: Bytes, my: nat, ring: seq<Bytes>, message: Bytes, ctx: Bytes, rng: nat -> Option<Bytes>)
    returns (r: Option<Signature>)
    ensures r.Some? <==> |ring| >= 2 && my < |ring| && Decompress(g, ring).Some? && Draws(rng, 0, |ring|)
    ensures r.Some? ==> SignedBy(g, seed, my, ring, message, ctx, rng, r.value)
  {
    var n := |ring|;
    if n < 2 || my >= n { return None; }
    var decompressed := DecompressRing(g, ring);
    if decompressed.None? { return None; }
    var points := decompressed.value;

    var x, hp := g.fromBytes(seed), g.hashToPoint(ctx);
    var env := Env(g.commit(ring), g.mul(x, hp), hp, message);
    var c, s := new S[n](_ => g.zero), new S[n](_ => g.zero);

    FirstDraw(rng, n);
    var drawn := rng(0);
    if drawn.None? { return None; }
    var alpha := g.fromBytes(drawn.value);
    TurnNext(my, n, my);
    c[(my + 1) % n] := g.challenge(env.commit, env.image, message, g.mul(alpha, g.base), g.mul(alpha, hp));
    var ok := GoAround(g, env, points, my, rng, c, s);
    if !ok { return None; }

    SignResult(g, seed, my, ring, message, ctx, rng, env, points, alpha, s[..], c[..]);
    ghost var drawnS := s[..];
    s[my] := g.sub(alpha, g.mulS(c[my], x));
    assert s[..] == drawnS[my := s[my]];
    return Some(Signature(g.compress(env.image), g.toBytes(c[0]), Responses(g, s[..])));
  }

  // ---- What an accepted signature is ----------------------------------------------

  /** Everything the verifier can decode does decode. */
  predicate WellFormed<S, P>(g: Group<S, P>, ring: seq<Bytes>, sig: Signature) {
    && |ring| >= 2 && |sig.s| == |ring| && g.decompress(sig.keyImage).Some?
    && forall k | 0 <= k < |ring| :: g.decompress(ring[k]).Some?
  }

  /** What member `k` with challenge `c` puts into the hash. */
  function Hashed<S, P>(g: Group<S, P>, ring: seq<Bytes>, message: Bytes, ctx: Bytes, sig: Signature, k: nat, c: S): (Bytes, P, Bytes, P, P)
    requires WellFormed(g, ring, sig) && k < |ring|
  {
    var s, point, image := g.fromBytes(sig.s[k]), g.decompress(ring[k]).value, g.decompress(sig.keyImage).value;
    (g.commit(ring), image, message,
     g.add(g.mul(s, g.base), g.mul(c, point)), g.add(g.mul(s, g.hashToPoint(ctx)), g.mul(c, image)))
  }

  function Hash<S, P>(g: Group<S, P>, x: (Bytes, P, Bytes, P, P)): S {
    g.challenge(x.0, x.1, x.2, x.3, x.4)
  }

  /** Once around the ring from the challenge of the signature: every member's challenge
      is the hash of its predecessor's part, the first member's of the last one's. */
  predicate Cycle<S(==), P>(g: Group<S, P>, ring: seq<Bytes>, message: Bytes, ctx: Bytes, sig: Signature, c: seq<S>)
    requires WellFormed(g, ring, sig)
  {
    && |c| == |ring| && c[0] == g.fromBytes(sig.c0)
    && forall k | 0 <= k < |ring| :: c[(k + 1) % |ring|] == Hash(g, Hashed(g, ring, message, ctx, sig, k, c[k]))
  }

  lemma {:induction false} DecompressedWhen<S, P>(g: Group<S, P>, ring: seq<Bytes>)
    ensures Decompress(g, ring).Some? <==> forall k | 0 <= k < |ring| :: g.decompress(ring[k]).Some?
  {
  }

  /** The challenges of the verifier's own walk. */
  function Challenges<S, P>(g: Group<S, P>, ring: seq<Bytes>, message: Bytes, ctx: Bytes, sig: Signature): (c: seq<S>)
    requires WellFormed(g, ring, sig)
    ensures |c| == |ring|
  {
    DecompressedWhen(g, ring);
    var env := Env(g.commit(ring), g.decompress(sig.keyImage).value, g.hashToPoint(ctx), message);
    seq(|ring|, k requires 0 <= k < |ring| => Walk(g, env, Decompress(g, ring).value, Scalars(g, sig.s), g.fromBytes(sig.c0), k))
  }

  lemma NextIsModulo(k: nat, n: nat)
    requires k < n
    ensures (k + 1) % n == Next(k, n)
  {
  }

  /** What a member hashes is what the walk hands on. */
  lemma HashedIsStep<S, P>(g: Group<S, P>, ring: seq<Bytes>, message: Bytes, ctx: Bytes, sig: Signature, k: nat, c: S)
    requires WellFormed(g, ring, sig) && k < |ring|
    ensures Decompress(g, ring).Some?
    ensures var env := Env(g.commit(ring), g.decompress(sig.keyImage).value, g.hashToPoint(ctx), message);
            Hash(g, Hashed(g, ring, message, ctx, sig, k, c)) == Step(g, env, Decompress(g, ring).value[k], Scalars(g, sig.s)[k], c)
  {
    DecompressedWhen(g, ring);
  }

  lemma AcceptedWalks<S, P>(g: Group<S, P>, ring: seq<Bytes>, message: Bytes, ctx: Bytes, sig: Signature)
    requires WellFormed(g, ring, sig) && Accepts(g, ring, message, ctx, sig)
    ensures Cycle(g, ring, message, ctx, sig, Challenges(g, ring, message, ctx, sig))
  {
    hide Hashed, Hash, Step, Scalars, Decompress;
    DecompressedWhen(g, ring);
    var c, n := Challenges(g, ring, message, ctx, sig), |ring|;
    forall k | 0 <= k < n ensures c[(k + 1) % n] == Hash(g, Hashed(g, ring, message, ctx, sig, k, c[k])) {
      NextIsModulo(k, n);
      HashedIsStep(g, ring, message, ctx, sig, k, c[k]);
    }
  }

  lemma CycleIsAccepted<S, P>(g: Group<S, P>, ring: seq<Bytes>, message: Bytes, ctx: Bytes, sig: Signature, c: seq<S>)
    requires WellFormed(g, ring, sig) && Cycle(g, ring, message, ctx, sig, c)
    ensures Accepts(g, ring, message, ctx, sig)
  {
    hide Hashed, Hash, Step, Scalars, Decompress, Walk;
    DecompressedWhen(g, ring);
    var points, n := Decompress(g, ring).value, |ring|;
    var env := Env(g.commit(ring), g.decompress(sig.keyImage).value, g.hashToPoint(ctx), message);
    forall k | 0 <= k < n ensures HandsOn(g, env, points, Scalars(g, sig.s), c, k) {
      NextIsModulo(k, n);
      HashedIsStep(g, ring, message, ctx, sig, k, c[k]);
      assert c[(k + 1) % n] == Hash(g, Hashed(g, ring, message, ctx, sig, k, c[k]));
    }
    WalkFollows(g, env, points, Scalars(g, sig.s), c, n);
  }

  /** The verifier accepts a signature if and only if it is well formed and its challenge
      starts a cycle around the ring. */
  lemma AcceptedIsCycle<S(!new), P>(g: Group<S, P>, ring: seq<Bytes>, message: Bytes, ctx: Bytes, sig: Signature)
    ensures Accepts(g, ring, message, ctx, sig) <==>
              WellFormed(g, ring, sig) && exists c: seq<S> :: Cycle(g, ring, message, ctx, sig, c)
  {
    DecompressedWhen(g, ring);
    hide Cycle, Walk, Decompress, Scalars;
    if Accepts(g, ring, message, ctx, sig) {
      AcceptedWalks(g, ring, message, ctx, sig);
    } else if WellFormed(g, ring, sig) {
      forall c: seq<S> ensures !Cycle(g, ring, message, ctx, sig, c) {
        if Cycle(g, ring, message, ctx, sig, c) { CycleIsAccepted(g, ring, message, ctx, sig, c); }
      }
    }
  }

  /** Two different inputs of the challenge hash with the same value. */
  predicate Clashes<S(==), P(==)>(g: Group<S, P>, x: (Bytes, P, Bytes, P, P), y: (Bytes, P, Bytes, P, P)) {
    x != y && Hash(g, x) == Hash(g, y)
  }

  /** What the last member puts into the hash: its value has to be the signature's challenge. */
  function LastHashed<S, P>(g: Group<S, P>, ring: seq<Bytes>, message: Bytes, ctx: Bytes, sig: Signature): (Bytes, P, Bytes, P, P)
    requires WellFormed(g, ring, sig)
  {
    Hashed(g, ring, message, ctx, sig, |ring| - 1, Challenges(g, ring, message, ctx, sig)[|ring| - 1])
  }

  lemma LastClosesTheCycle<S, P>(g: Group<S, P>, ring: seq<Bytes>, message: Bytes, ctx: Bytes, sig: Signature)
    requires Accepts(g, ring, message, ctx, sig)
    ensures WellFormed(g, ring, sig) && Hash(g, LastHashed(g, ring, message, ctx, sig)) == g.fromBytes(sig.c0)
  {
    DecompressedWhen(g, ring);
    AcceptedWalks(g, ring, message, ctx, sig);
    var k := |ring| - 1;
    NextIsModulo(k, |ring|);
    hide Challenges, Accepts, Decompress, Hashed;
    assert 0 <= k < |ring|;
  }

  /** Binding: a signature accepted for two messages, rings or contexts either is accepted
      for one message and one ring commitment, or two inputs of the challenge hash with the
      same value are at hand, computed from it. */
  lemma Binding<S, P>(
    g: Group<S, P>, sig: Signature, ring: seq<Bytes>, message: Bytes, ctx: Bytes, ring': seq<Bytes>, message': Bytes, ctx': Bytes)
    requires Accepts(g, ring, message, ctx, sig) && Accepts(g, ring', message', ctx', sig)
    ensures WellFormed(g, ring, sig) && WellFormed(g, ring', sig) && |ring| == |ring'|
    ensures (message == message' && g.commit(ring) == g.commit(ring'))
            || Clashes(g, LastHashed(g, ring, message, ctx, sig), LastHashed(g, ring', message', ctx', sig))
  {
    LastClosesTheCycle(g, ring, message, ctx, sig);
    LastClosesTheCycle(g, ring', message', ctx', sig);
    hide Challenges, Accepts;
  }

  // ---- A group that keeps the laws ------------------------------------------------

  const Q := 251

  type Residue = x: int | 0 <= x < 251

  function Mod(x: int): Residue { x % Q }
  function Sub(a: Residue, b: Residue): Residue { Mod(a - b) }
  function Add(a: Residue, b: Residue): Residue { Mod(a + b) }
  function Neg(a: Residue): Residue { Mod(0 - a) }
  function Mul(a: Residue, b: Residue): Residue { Mod(a * b) }
  function OneByte(a: Residue): Bytes { [a] }
  function FromByte(b: Bytes): Residue { if b == [] then 0 else b[0] % Q }
  function PointFrom(b: Bytes): Option<Residue> { if |b| == 1 && b[0] < Q then Some(b[0]) else None }

  /** The integers modulo a prime: scalars and points are residues, the base point is 1. */
  function ModularGroup(hashToPoint: Bytes -> Residue, commit: seq<Bytes> -> Bytes,
                        challenge: (Bytes, Residue, Bytes, Residue, Residue) -> Residue): Group<Residue, Residue>
  {
    Group(0, Sub, Mul, Add, 0, Neg, Mul, 1, OneByte, PointFrom, OneByte, FromByte, hashToPoint, commit, challenge)
  }

  lemma SameResidue(a: int, b: int, k: int)
    requires a == b + Q * k
    ensures Mod(a) == Mod(b)
  {
  }

  lemma AddMod(x: int, y: int)
    ensures Mod(Mod(x) + y) == Mod(x + y)
  {
    SameResidue(Mod(x) + y, x + y, -(x / Q));
  }

  lemma MulMod(x: int, y: int)
    ensures Mod(Mod(x) * y) == Mod(x * y)
  {
    var k := x / Q;
    assert Mod(x) == x - Q * k;
    assert Mod(x) * y == x * y + Q * (-k * y);
    SameResidue(Mod(x) * y, x * y, -k * y);
  }

  lemma NegMod(x: int, y: int)
    ensures Mod(x + Mod(0 - Mod(y))) == Mod(x - y)
  {
    AddMod(0 - Mod(y), x);
    SameResidue(x - Mod(y), x - y, y / Q);
  }

  lemma MulSub(a: Residue, b: Residue, p: Residue)
    ensures Mul(Sub(a, b), p) == Add(Mul(a, p), Neg(Mul(b, p)))
  {
    hide Mod;
    MulMod(a - b, p);
    AddMod(a * p, Neg(Mul(b, p)));
    NegMod(a * p, b * p);
    assert (a - b) * p == a * p - b * p;
  }

  lemma MulMul(a: Residue, b: Residue, p: Residue)
    ensures Mul(Mul(a, b), p) == Mul(a, Mul(b, p))
  {
    hide Mod;
    MulMod(a * b, p);
    MulMod(b * p, a);
    assert (a * b) * p == (b * p) * a && Mul(b, p) * a == a * Mul(b, p);
  }

  lemma AddAdd(p: Residue, q: Residue, r: Residue)
    ensures Add(Add(p, q), r) == Add(p, Add(q, r))
  {
    hide Mod;
    AddMod(p + q, r);
    AddMod(q + r, p);
    assert Mod(q + r) + p == p + Mod(q + r) && q + r + p == p + q + r;
  }

  lemma AddInverse(p: Residue)
    ensures Add(p, 0) == p && Add(Neg(p), p) == 0
  {
    AddMod(0 - p, p);
  }

  lemma ModularIsGroup(g: Group<Residue, Residue>)
    requires g.add == Add && g.identity == 0 && g.neg == Neg
    ensures IsGroup(g)
  {
    forall p: Residue, q: Residue, r: Residue ensures Associates(g, p, q, r) && HasInverse(g, p) {
      AddAdd(p, q, r);
      AddInverse(p);
    }
  }

  lemma ModularActs(g: Group<Residue, Residue>)
    requires g.add == Add && g.neg == Neg && g.mul == Mul && g.mulS == Mul && g.sub == Sub
    ensures Acts(g)
  {
    hide Add, Neg, Mul, Sub;
    forall a: Residue, b: Residue, p: Residue ensures Distributes(g, a, b, p) && Composes(g, a, b, p) {
      MulSub(a, b, p);
      MulMul(a, b, p);
    }
  }

  lemma ModularCodes(g: Group<Residue, Residue>)
    requires g.compress == OneByte && g.decompress == PointFrom && g.toBytes == OneByte && g.fromBytes == FromByte
    ensures Codes(g)
  {
  }

  /** The laws are consistent: the modular group keeps all of them, whatever the hashes. */
  lemma ModularGroupIsLawful(hashToPoint: Bytes -> Residue, commit: seq<Bytes> -> Bytes,
                             challenge: (Bytes, Residue, Bytes, Residue, Residue) -> Residue)
    ensures Lawful(ModularGroup(hashToPoint, commit, challenge))
  {
    var g := ModularGroup(hashToPoint, commit, challenge);
    ModularIsGroup(g);
    ModularActs(g);
    ModularCodes(g);
  }
}
