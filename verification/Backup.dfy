/** Backups under a public generation counter: a read of the object's head, then a write
    that the store carries out only if the object is still the one read. */
module Backup {
  import opened Common

  const BACKUP_MAX_BYTES: nat := 8 * 1024 * 1024

  /** The custom metadata entry as `Number` reads it. */
  datatype Metadata = Missing | NotAnInteger | Num(value: int)

  function GenerationFromMetadata(m: Metadata): nat {
    match m
    case Num(n) => if n >= 0 then n else 0
    case _ => 0
  }

  /** A stored object; the store gives every write a new etag. */
  datatype Object = Object(blob: Bytes, meta: Metadata, etag: nat)

  type Request = nat

  /** A write between its head read and its put. */
  datatype Pending =
    | Replace(blob: Bytes, generation: nat, etag: nat)
    | First(blob: Bytes)

  /** `blob` is none when it is not base64, `generation` none when it is not an integer. */
  datatype Body = Body(blob: Option<Bytes>, generation: Option<int>)

  /** What the rate gate answers, if it answers. */
  datatype Rate = Within | Over | Down

  datatype Outcome = Refused(status: int) | Continue | Stored(generation: nat)

  function Checked(body: Body, rate: Rate): Result<(Bytes, nat), int> {
    if body.generation.None? || body.generation.value < 0 then Err(400)
    else if body.blob.None? || body.blob.value == [] then Err(400)
    else if |body.blob.value| > BACKUP_MAX_BYTES then Err(413)
    else if rate == Down then Err(502)
    else if rate == Over then Err(429)
    else Ok((body.blob.value, body.generation.value))
  }

  /** The store, the writes that have read the head, and the etags handed out so far. */
  datatype Store = Store(stored: Option<Object>, pending: map<Request, Pending>, etags: nat)

  function Headed(s: Store, r: Request, body: Body, rate: Rate): (Store, Outcome) {
    match Checked(body, rate)
    case Err(status) => (s, Refused(status))
    case Ok((blob, generation)) =>
      if s.stored.Some? then
        if generation != GenerationFromMetadata(s.stored.value.meta) + 1 then (s, Refused(409)) else
        (s.(pending := s.pending[r := Replace(blob, generation, s.stored.value.etag)]), Continue)
      else if generation != 0 then (s, Refused(409)) else
      (s.(pending := s.pending[r := First(blob)]), Continue)
  }

  function Put(s: Store, r: Request): (Store, Outcome)
    requires r in s.pending
  {
    var done := s.(pending := s.pending - {r});
    match s.pending[r]
    case Replace(blob, generation, etag) =>
      if s.stored.None? || s.stored.value.etag != etag then (done, Refused(409)) else
      (done.(stored := Some(Object(blob, Num(generation), s.etags)), etags := s.etags + 1), Stored(generation))
    case First(blob) =>
      (done.(stored := Some(Object(blob, Num(0), s.etags)), etags := s.etags + 1), Stored(0))
  }

  function Deleted(s: Store): Store {
    s.(stored := None)
  }

  function Got(s: Store): Option<(Bytes, nat)> {
    if s.stored.None? then None else Some((s.stored.value.blob, GenerationFromMetadata(s.stored.value.meta)))
  }

  // ---- The handlers, split where they wait ----------------------------------------

  class BackupBucket {
    var stored: Option<Object>
    var pending: map<Request, Pending>
    var etags: nat

    ghost function State(): Store
      reads this
    {
      Store(stored, pending, etags)
    }

    constructor ()
      ensures stored == None && pending == map[] && etags == 0
    {
      stored, pending, etags := None, map[], 0;
    }

    /** The checks and the head read of a PUT. */
    method BeginPut(r: Request, body: Body, rate: Rate) returns (o: Outcome)
      modifies this`pending
      ensures (State(), o) == Headed(old(State()), r, body, rate)
    {
      if body.generation.None? || body.generation.value < 0 { return Refused(400); }
      if body.blob.None? || |body.blob.value| == 0 { return Refused(400); }
      var generation, bytes := body.generation.value, body.blob.value;
      if |bytes| > BACKUP_MAX_BYTES { return Refused(413); }
      if rate == Down { return Refused(502); }
      if rate == Over { return Refused(429); }
      match stored {
        case Some(existing) =>
          if generation != GenerationFromMetadata(existing.meta) + 1 { return Refused(409); }
          pending := pending[r := Replace(bytes, generation, existing.etag)];
        case None =>
          if generation != 0 { return Refused(409); }
          pending := pending[r := First(bytes)];
      }
      return Continue;
    }

    /** The put: conditional on the etag when the head saw an object, unconditional when not. */
    method FinishPut(r: Request) returns (o: Outcome)
      requires r in pending
      modifies this
      ensures (State(), o) == Put(old(State()), r)
    {
      var p := pending[r];
      pending := pending - {r};
      match p {
        case Replace(blob, generation, etag) =>
          if stored.None? || stored.value.etag != etag { return Refused(409); }
          stored, etags := Some(Object(blob, Num(generation), etags)), etags + 1;
          return Stored(generation);
        case First(blob) =>
          stored, etags := Some(Object(blob, Num(0), etags)), etags + 1;
          return Stored(0);
      }
    }

    method Delete()
      modifies this`stored
      ensures State() == Deleted(old(State()))
    {
      stored := None;
    }

    method Get() returns (r: Option<(Bytes, nat)>)
      ensures r == Got(State())
    {
      if stored.None? { return None; }
      return Some((stored.value.blob, GenerationFromMetadata(stored.value.meta)));
    }
  }

  // ---- Runs -----------------------------------------------------------------------

  datatype Event = Begin(r: Request, body: Body, rate: Rate) | Finish(r: Request) | Delete

  predicate Allowed(s: Store, e: Event) {
    match e
    case Begin(r, _, _) => r !in s.pending
    case Finish(r) => r in s.pending
    case Delete => true
  }

  function Step(s: Store, e: Event): (Store, Outcome)
    requires Allowed(s, e)
  {
    match e
    case Begin(r, body, rate) => Headed(s, r, body, rate)
    case Finish(r) => Put(s, r)
    case Delete => (Deleted(s), Continue)
  }

  predicate AllowedRun(s: Store, run: seq<Event>)
    decreases |run|
  {
    run == [] || (Allowed(s, run[0]) && AllowedRun(Step(s, run[0]).0, run[1..]))
  }

  function Run(s: Store, run: seq<Event>): Store
    requires AllowedRun(s, run)
    decreases |run|
  {
    if run == [] then s else Run(Step(s, run[0]).0, run[1..])
  }

  /** How many writes of a run were accepted. */
  function Accepted(s: Store, run: seq<Event>): nat
    requires AllowedRun(s, run)
    decreases |run|
  {
    if run == [] then 0 else
    (if Step(s, run[0]).1.Stored? then 1 else 0) + Accepted(Step(s, run[0]).0, run[1..])
  }

  const EMPTY := Store(None, map[], 0)

  function Generation(o: Object): nat {
    GenerationFromMetadata(o.meta)
  }

  /** Etags are ones handed out; a pending replacement of the object as it is continues its counter. */
  ghost predicate Inv(s: Store) {
    && (s.stored.Some? ==> s.stored.value.etag < s.etags)
    && (forall r | r in s.pending && s.pending[r].Replace? ::
          && s.pending[r].etag < s.etags
          && (s.stored.Some? && s.stored.value.etag == s.pending[r].etag ==> s.pending[r].generation == Generation(s.stored.value) + 1))
  }

  lemma StepKeeps(s: Store, e: Event)
    requires Inv(s) && Allowed(s, e)
    ensures Inv(Step(s, e).0)
  {
  }

  lemma {:induction false} RunKeeps(s: Store, run: seq<Event>)
    requires Inv(s) && AllowedRun(s, run)
    ensures Inv(Run(s, run))
    decreases |run|
  {
    if run != [] {
      StepKeeps(s, run[0]);
      RunKeeps(Step(s, run[0]).0, run[1..]);
    }
  }

  /** What finishing a write does after any run. A refused one changes nothing; one whose
      head saw an object is stored only over that very object; and a stored one raises the
      generation by exactly one if and only if its head saw an object: the first write sets
      it to 0, also over an object that came in between. */
  lemma PutOutcome(run: seq<Event>, r: Request)
    requires AllowedRun(EMPTY, run) && r in Run(EMPTY, run).pending
    ensures var s := Run(EMPTY, run);
            var (s', o) := Put(s, r);
            && (o == Refused(409) || (o.Stored? && s'.stored.Some? && Generation(s'.stored.value) == o.generation))
            && (!o.Stored? ==> s'.stored == s.stored)
            && (o.Stored? ==> s'.stored.value.blob == s.pending[r].blob)
            && (s.pending[r].Replace? ==> (o.Stored? <==> s.stored.Some? && s.stored.value.etag == s.pending[r].etag))
            && (s.pending[r].First? ==> o == Stored(0))
            && (o.Stored? && s.stored.Some? ==> (o.generation == Generation(s.stored.value) + 1 <==> s.pending[r].Replace?))
  {
    RunKeeps(EMPTY, run);
  }

  ghost predicate Settled(s: Store) {
    s.stored.Some? && forall r | r in s.pending :: s.pending[r].Replace?
  }

  /** Once an object is there and no first write is outstanding, the counter counts the
      accepted writes, whatever the interleaving, until somebody deletes. */
  lemma {:induction false} GenerationCounts(s: Store, run: seq<Event>)
    requires Inv(s) && Settled(s) && AllowedRun(s, run) && Delete !in run
    ensures var s' := Run(s, run);
            Settled(s') && Generation(s'.stored.value) == Generation(s.stored.value) + Accepted(s, run)
    decreases |run|
  {
    if run != [] {
      StepKeeps(s, run[0]);
      GenerationCounts(Step(s, run[0]).0, run[1..]);
    }
  }

  /** Nobody holds the etag any more. */
  ghost predicate Gone(s: Store, etag: nat) {
    etag < s.etags && (s.stored.Some? ==> s.stored.value.etag != etag)
  }

  lemma {:induction false} GoneStays(s: Store, run: seq<Event>, etag: nat)
    requires Gone(s, etag) && AllowedRun(s, run)
    ensures Gone(Run(s, run), etag)
    decreases |run|
  {
    if run != [] { GoneStays(Step(s, run[0]).0, run[1..], etag); }
  }

  /** Two writers that read the same version cannot both win, whatever happens in between. */
  lemma OneWinner(before: seq<Event>, winner: Request, loser: Request, between: seq<Event>)
    requires AllowedRun(EMPTY, before)
    requires var s := Run(EMPTY, before);
             && winner in s.pending && loser in s.pending && winner != loser
             && s.pending[winner].Replace? && s.pending[loser].Replace? && s.pending[winner].etag == s.pending[loser].etag
             && Put(s, winner).1.Stored? && AllowedRun(Put(s, winner).0, between)
    requires var s := Run(EMPTY, before);
             var s' := Run(Put(s, winner).0, between);
             loser in s'.pending && s'.pending[loser] == s.pending[loser]
    ensures var s := Run(EMPTY, before);
            Put(Run(Put(s, winner).0, between), loser).1 == Refused(409)
  {
    RunKeeps(EMPTY, before);
    var s := Run(EMPTY, before);
    GoneStays(Put(s, winner).0, between, s.pending[winner].etag);
  }

  /** What a writer stores is what a reader gets, with the generation it was stored under,
      until the next accepted write or deletion. */
  lemma PutThenGet(run: seq<Event>, r: Request, after: seq<Event>)
    requires AllowedRun(EMPTY, run) && r in Run(EMPTY, run).pending && Put(Run(EMPTY, run), r).1.Stored?
    requires AllowedRun(Put(Run(EMPTY, run), r).0, after)
    requires Delete !in after && Accepted(Put(Run(EMPTY, run), r).0, after) == 0
    ensures var s := Run(EMPTY, run);
            Got(Run(Put(s, r).0, after)) == Some((s.pending[r].blob, Put(s, r).1.generation))
  {
    PutOutcome(run, r);
    NothingStored(Put(Run(EMPTY, run), r).0, after);
  }

  lemma {:induction false} NothingStored(s: Store, run: seq<Event>)
    requires AllowedRun(s, run) && Delete !in run && Accepted(s, run) == 0
    ensures Run(s, run).stored == s.stored
    decreases |run|
  {
    if run != [] { NothingStored(Step(s, run[0]).0, run[1..]); }
  }

  // ---- What each request is answered ----------------------------------------------

  /** The generation the next write has to name: 0 for the first, and one more than the
      stored counter otherwise, a counter that is no natural number counting as 0. */
  function Expected(stored: Option<Object>): nat {
    if stored.None? then 0
    else if stored.value.meta.Num? && stored.value.meta.value >= 0 then stored.value.meta.value + 1 else 1
  }

  /** Whatever is stored, a write goes on to the put exactly when its blob has 1 to 8388608
      bytes, the rate gate lets it through and it names the expected generation; a
      refused one changes nothing. */
  lemma BeginOutcome(s: Store, r: Request, body: Body, rate: Rate)
    ensures var (s', o) := Headed(s, r, body, rate);
            var good := body.blob.Some? && |body.blob.value| >= 1 && body.generation.Some? && body.generation.value >= 0;
            var fits := good && |body.blob.value| <= 8_388_608;
            && (o == Refused(400) <==> !good)
            && (o == Refused(413) <==> good && !fits)
            && (o == Refused(502) <==> fits && rate == Down)
            && (o == Refused(429) <==> fits && rate == Over)
            && (o == Refused(409) <==> fits && rate == Within && body.generation.value != Expected(s.stored))
            && (o == Continue <==> fits && rate == Within && body.generation.value == Expected(s.stored))
            && (o != Continue ==> s' == s)
            && (o == Continue ==>
                  s' == s.(pending := s.pending[r :=
                    if s.stored.None? then First(body.blob.value)
                    else Replace(body.blob.value, body.generation.value, s.stored.value.etag)]))
  {
  }

  /** Once deleted, a backup is gone until the next accepted write; and nobody reads one
      before the first. */
  lemma DeleteThenGet(run: seq<Event>, after: seq<Event>)
    requires AllowedRun(EMPTY, run) && AllowedRun(Step(Run(EMPTY, run), Delete).0, after)
    requires Delete !in after && Accepted(Step(Run(EMPTY, run), Delete).0, after) == 0
    ensures Got(Run(Step(Run(EMPTY, run), Delete).0, after)) == None
  {
    NothingStored(Step(Run(EMPTY, run), Delete).0, after);
  }

  lemma {:induction false} StaysPending(s: Store, run: seq<Event>, r: Request)
    requires AllowedRun(s, run) && r in s.pending && Finish(r) !in run
    ensures r in Run(s, run).pending && Run(s, run).pending[r] == s.pending[r]
    decreases |run|
  {
    if run != [] { StaysPending(Step(s, run[0]).0, run[1..], r); }
  }

  /** A writer that names the expected generation is stored under it, as long as no other
      write is accepted and nothing deleted between its head read and its put; its request
      is then over. */
  lemma UncontestedPut(run: seq<Event>, r: Request, body: Body, between: seq<Event>)
    requires AllowedRun(EMPTY, run) && r !in Run(EMPTY, run).pending
    requires body.blob.Some? && 1 <= |body.blob.value| <= 8_388_608 && body.generation == Some(Expected(Run(EMPTY, run).stored))
    requires var s := Step(Run(EMPTY, run), Begin(r, body, Within)).0;
             AllowedRun(s, between) && Delete !in between && Finish(r) !in between && Accepted(s, between) == 0
    ensures var s := Run(Step(Run(EMPTY, run), Begin(r, body, Within)).0, between);
            && r in s.pending
            && var (s', o) := Put(s, r);
               && o == Stored(body.generation.value) && s'.pending == s.pending - {r}
               && Got(s') == Some((body.blob.value, body.generation.value))
  {
    BeginOutcome(Run(EMPTY, run), r, body, Within);
    var s := Step(Run(EMPTY, run), Begin(r, body, Within)).0;
    StaysPending(s, between, r);
    NothingStored(s, between);
  }

  /** The first-write race does happen: a write accepted as the first sets a counter that
      had reached 1 back to 0. */
  lemma FirstWriteRollsBack(blob: Bytes) returns (run: seq<Event>)
    requires 0 < |blob| <= BACKUP_MAX_BYTES
    ensures AllowedRun(EMPTY, run) && 1 in Run(EMPTY, run).pending
    ensures var s := Run(EMPTY, run);
            var (s', o) := Put(s, 1);
            s.stored.Some? && Generation(s.stored.value) == 1 && o == Stored(0) && Generation(s'.stored.value) == 0
  {
    var zero, one := Body(Some(blob), Some(0)), Body(Some(blob), Some(1));
    var e0, e1, e2, e3, e4 := Begin(0, zero, Within), Begin(1, zero, Within), Finish(0), Begin(2, one, Within), Finish(2);
    var s1 := Step(EMPTY, e0).0;
    var s2 := Step(s1, e1).0;
    var s3 := Step(s2, e2).0;
    var s4 := Step(s3, e3).0;
    run := [];
    var s5 := Step(s4, e4).0;
    OneStep(s4, e4, []);
    OneStep(s3, e3, [e4]);
    OneStep(s2, e2, [e3] + [e4]);
    OneStep(s1, e1, [e2] + ([e3] + [e4]));
    OneStep(EMPTY, e0, [e1] + ([e2] + ([e3] + [e4])));
    run := [e0] + ([e1] + ([e2] + ([e3] + [e4])));
    assert s5.pending[1] == First(blob);
  }

  lemma OneStep(s: Store, e: Event, rest: seq<Event>)
    requires Allowed(s, e) && AllowedRun(Step(s, e).0, rest)
    ensures AllowedRun(s, [e] + rest) && Run(s, [e] + rest) == Run(Step(s, e).0, rest)
  {
    assert ([e] + rest)[1..] == rest;
  }
}
