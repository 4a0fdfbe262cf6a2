/** Enrollment tickets: a quota read, a counter write and a mint on one side, a single-use
    spend and a blind signature on the other, each request interleaved with the others
    wherever it waits. */
module Enrollment {
  import opened Common

  const ENROLL_QUOTA_MAX: nat := 20
  const TICKET_TTL_MS: nat := 10 * 60 * 1000

  type Ppid = nat
  type Jti = nat
  type Request = nat

  /** Where a request waits: `Counted` has passed the quota check and is about to write,
      `Written` is about to mint; `Verified` holds a genuine ticket, `Spent` has spent it. */
  datatype Phase =
    | Counted(ppid: Ppid, existing: bool)
    | Written(ppid: Ppid)
    | Verified(jti: Jti)
    | Spent(jti: Jti)

  /** What a ticket says under its MAC, beside its id. */
  datatype Payload = Payload(ppid: Ppid, exp: nat)

  datatype Db = Db(
    counts: map<Ppid, nat>,
    minted: map<Jti, Payload>,
    spent: set<Jti>,
    issued: seq<Jti>,
    waiting: map<Request, Phase>)

  datatype Response = Waiting | Ticket(jti: Jti) | BlindSignature | Failed(status: int)

  datatype Event =
    | ReadCount(r: Request, ppid: Ppid)
    | WriteCount(r: Request)
    | Mint(r: Request, jti: Jti, now: nat)
    | Verify(r: Request, ticket: Option<Jti>, now: nat)
    | Spend(r: Request)
    | Sign(r: Request, wellFormed: bool)
    | Drop(r: Request)

  /** Requests are fresh when they begin and go on where they wait; a minted jti is a new
      random one. Any request may die while it waits. */
  predicate Allowed(d: Db, e: Event) {
    match e
    case ReadCount(r, _) => r !in d.waiting
    case WriteCount(r) => r in d.waiting && d.waiting[r].Counted?
    case Mint(r, jti, _) => r in d.waiting && d.waiting[r].Written? && jti !in d.minted
    case Verify(r, _, _) => r !in d.waiting
    case Spend(r) => r in d.waiting && d.waiting[r].Verified?
    case Sign(r, _) => r in d.waiting && d.waiting[r].Spent?
    case Drop(r) => r in d.waiting
  }

  /** A ticket's MAC verifies when it was minted here; none stands for a malformed one. */
  predicate Genuine(minted: map<Jti, Payload>, ticket: Option<Jti>) {
    ticket.Some? && ticket.value in minted
  }

  function Step(d: Db, e: Event): (Db, Response)
    requires Allowed(d, e)
  {
    match e
    case ReadCount(r, ppid) =>
      if ppid in d.counts && d.counts[ppid] >= ENROLL_QUOTA_MAX then (d, Failed(403)) else
      (d.(waiting := d.waiting[r := Counted(ppid, ppid in d.counts)]), Waiting)
    case WriteCount(r) =>
      var ppid := d.waiting[r].ppid;
      if d.waiting[r].existing then
        // an UPDATE of a row that is not there changes nothing and succeeds
        var counts := if ppid in d.counts then d.counts[ppid := d.counts[ppid] + 1] else d.counts;
        (d.(counts := counts, waiting := d.waiting[r := Written(ppid)]), Waiting)
      else if ppid in d.counts then
        // the INSERT violates the primary key
        (d.(waiting := d.waiting - {r}), Failed(500))
      else
        (d.(counts := d.counts[ppid := 1], waiting := d.waiting[r := Written(ppid)]), Waiting)
    case Mint(r, jti, now) =>
      (d.(minted := d.minted[jti := Payload(d.waiting[r].ppid, now + TICKET_TTL_MS)], waiting := d.waiting - {r}), Ticket(jti))
    case Verify(r, ticket, now) =>
      if !Genuine(d.minted, ticket) || now >= d.minted[ticket.value].exp then (d, Failed(401)) else
      (d.(waiting := d.waiting[r := Verified(ticket.value)]), Waiting)
    case Spend(r) =>
      var jti := d.waiting[r].jti;
      if jti in d.spent then (d.(waiting := d.waiting - {r}), Failed(409)) else
      (d.(spent := d.spent + {jti}, waiting := d.waiting[r := Spent(jti)]), Waiting)
    case Sign(r, wellFormed) =>
      if !wellFormed then (d.(waiting := d.waiting - {r}), Failed(400)) else
      (d.(issued := d.issued + [d.waiting[r].jti], waiting := d.waiting - {r}), BlindSignature)
    case Drop(r) => (d.(waiting := d.waiting - {r}), Failed(500))
  }

  // ---- The handlers, split where they wait ----------------------------------------

  class EnrollmentWorker {
    var counts: map<Ppid, nat>
    var minted: map<Jti, Payload>
    var spent: set<Jti>
    var issued: seq<Jti>
    var waiting: map<Request, Phase>

    ghost function State(): Db
      reads this
    {
      Db(counts, minted, spent, issued, waiting)
    }

    constructor ()
      ensures counts == map[] && minted == map[] && spent == {} && issued == [] && waiting == map[]
    {
      counts, minted, spent, issued, waiting := map[], map[], {}, [], map[];
    }

    /** `SELECT enroll_count`, and the quota check. */
    method CallbackRead(r: Request, ppid: Ppid) returns (out: Response)
      requires r !in waiting
      modifies this`waiting
      ensures (State(), out) == Step(old(State()), ReadCount(r, ppid))
    {
      var existing := if ppid in counts then Some(counts[ppid]) else None;
      if existing.Some? && existing.value >= ENROLL_QUOTA_MAX { return Failed(403); }
      waiting := waiting[r := Counted(ppid, existing.Some?)];
      return Waiting;
    }

    /** The UPDATE or INSERT decided by what was read before. */
    method CallbackWrite(r: Request) returns (out: Response)
      requires r in waiting && waiting[r].Counted?
      modifies this`counts, this`waiting
      ensures (State(), out) == Step(old(State()), WriteCount(r))
    {
      var ppid := waiting[r].ppid;
      if waiting[r].existing {
        if ppid in counts { counts := counts[ppid := counts[ppid] + 1]; }
      } else {
        if ppid in counts {
          waiting := waiting - {r};
          return Failed(500);
        }
        counts := counts[ppid := 1];
      }
      waiting := waiting[r := Written(ppid)];
      return Waiting;
    }

    method CallbackMint(r: Request, jti: Jti, now: nat) returns (out: Response)
      requires r in waiting && waiting[r].Written? && jti !in minted
      modifies this`minted, this`waiting
      ensures (State(), out) == Step(old(State()), Mint(r, jti, now))
    {
      minted := minted[jti := Payload(waiting[r].ppid, now + TICKET_TTL_MS)];
      waiting := waiting - {r};
      return Ticket(jti);
    }

    method IssueVerify(r: Request, ticket: Option<Jti>, now: nat) returns (out: Response)
      requires r !in waiting
      modifies this`waiting
      ensures (State(), out) == Step(old(State()), Verify(r, ticket, now))
    {
      if !Genuine(minted, ticket) { return Failed(401); }
      if now >= minted[ticket.value].exp { return Failed(401); }
      waiting := waiting[r := Verified(ticket.value)];
      return Waiting;
    }

    /** One INSERT: the primary key decides, there is no check before it. */
    method IssueSpend(r: Request) returns (out: Response)
      requires r in waiting && waiting[r].Verified?
      modifies this`spent, this`waiting
      ensures (State(), out) == Step(old(State()), Spend(r))
    {
      var jti := waiting[r].jti;
      if jti in spent {
        waiting := waiting - {r};
        return Failed(409);
      }
      spent := spent + {jti};
      waiting := waiting[r := Spent(jti)];
      return Waiting;
    }

    method IssueSign(r: Request, wellFormed: bool) returns (out: Response)
      requires r in waiting && waiting[r].Spent?
      modifies this`issued, this`waiting
      ensures (State(), out) == Step(old(State()), Sign(r, wellFormed))
    {
      var jti := waiting[r].jti;
      waiting := waiting - {r};
      if !wellFormed { return Failed(400); }
      issued := issued + [jti];
      return BlindSignature;
    }
  }

  // ---- Counting -------------------------------------------------------------------

  /** The requests that passed the quota check and have not written yet. */
  function Racing(d: Db, ppid: Ppid): set<Request> {
    set r | r in d.waiting && d.waiting[r].Counted? && d.waiting[r].ppid == ppid
  }

  function AboutToMint(d: Db, ppid: Ppid): set<Request> {
    set r | r in d.waiting && d.waiting[r] == Written(ppid)
  }

  function TicketsOf(d: Db, ppid: Ppid): set<Jti> {
    set jti | jti in d.minted && d.minted[jti].ppid == ppid
  }

  function SignedFor(d: Db, ppid: Ppid): set<Jti> {
    set jti | jti in d.issued && jti in d.minted && d.minted[jti].ppid == ppid
  }

  function Count(d: Db, ppid: Ppid): nat {
    if ppid in d.counts then d.counts[ppid] else 0
  }

  /** Every counted ticket is paid for by the counter, and a request that read an existing
      row still finds it. */
  ghost predicate CountOk(d: Db, ppid: Ppid) {
    |TicketsOf(d, ppid)| + |AboutToMint(d, ppid)| <= Count(d, ppid)
  }

  ghost predicate RowsStay(d: Db) {
    forall r | r in d.waiting && d.waiting[r].Counted? && d.waiting[r].existing :: d.waiting[r].ppid in d.counts
  }

  /** Tickets are spent once and signed for once. */
  ghost predicate SpendOk(d: Db) {
    && (forall r | r in d.waiting && d.waiting[r].Verified? :: d.waiting[r].jti in d.minted)
    && (forall jti | jti in d.spent :: jti in d.minted)
    && (forall jti | jti in d.issued :: jti in d.spent)
    && (forall i, j | 0 <= i < j < |d.issued| :: d.issued[i] != d.issued[j])
    && (forall r | r in d.waiting && d.waiting[r].Spent? :: d.waiting[r].jti in d.spent && d.waiting[r].jti !in d.issued)
    && (forall q, r | q in d.waiting && r in d.waiting && q != r && d.waiting[q].Spent? && d.waiting[r].Spent? ::
          d.waiting[q].jti != d.waiting[r].jti)
  }

  ghost predicate Inv(d: Db) {
    RowsStay(d) && SpendOk(d) && forall ppid: Ppid :: CountOk(d, ppid)
  }

  lemma SpendKeeps(d: Db, e: Event)
    requires SpendOk(d) && Allowed(d, e)
    ensures SpendOk(Step(d, e).0)
  {
  }

  lemma RowsKeep(d: Db, e: Event)
    requires RowsStay(d) && Allowed(d, e)
    ensures RowsStay(Step(d, e).0)
    ensures forall ppid: Ppid :: Count(d, ppid) <= Count(Step(d, e).0, ppid)
  {
  }

  /** The write that this event completes for the account, if it completes one. */
  predicate Writes(d: Db, e: Event, ppid: Ppid)
    requires Allowed(d, e)
  {
    e.WriteCount? && d.waiting[e.r].ppid == ppid && e.r in Step(d, e).0.waiting
  }

  predicate Mints(d: Db, e: Event, ppid: Ppid)
    requires Allowed(d, e)
  {
    e.Mint? && d.waiting[e.r].ppid == ppid
  }

  lemma TicketsChange(d: Db, e: Event, ppid: Ppid)
    requires Allowed(d, e)
    ensures Mints(d, e, ppid) ==> e.jti !in TicketsOf(d, ppid) && TicketsOf(Step(d, e).0, ppid) == TicketsOf(d, ppid) + {e.jti}
    ensures !Mints(d, e, ppid) ==> TicketsOf(Step(d, e).0, ppid) == TicketsOf(d, ppid)
  {
    var d' := Step(d, e).0;
    assert !e.Mint? ==> d'.minted == d.minted;
  }

  lemma MintersChange(d: Db, e: Event, ppid: Ppid)
    requires Allowed(d, e)
    ensures Writes(d, e, ppid) ==> e.r !in AboutToMint(d, ppid) && AboutToMint(Step(d, e).0, ppid) == AboutToMint(d, ppid) + {e.r}
    ensures Mints(d, e, ppid) ==> e.r in AboutToMint(d, ppid) && AboutToMint(Step(d, e).0, ppid) == AboutToMint(d, ppid) - {e.r}
    ensures !Writes(d, e, ppid) ==> AboutToMint(Step(d, e).0, ppid) <= AboutToMint(d, ppid)
  {
    var d' := Step(d, e).0;
    forall r | r in AboutToMint(d', ppid) ensures r in AboutToMint(d, ppid) || (Writes(d, e, ppid) && r == e.r) {
      assert r != e.r ==> r in d.waiting && d.waiting[r] == d'.waiting[r];
    }
  }

  lemma CountGrows(d: Db, e: Event, ppid: Ppid)
    requires RowsStay(d) && Allowed(d, e)
    ensures Count(Step(d, e).0, ppid) == Count(d, ppid) + if Writes(d, e, ppid) then 1 else 0
  {
  }

  lemma CountKeeps(d: Db, e: Event, ppid: Ppid)
    requires RowsStay(d) && Allowed(d, e) && CountOk(d, ppid)
    ensures CountOk(Step(d, e).0, ppid)
  {
    TicketsChange(d, e, ppid);
    MintersChange(d, e, ppid);
    CountGrows(d, e, ppid);
    hide Step, Count, TicketsOf, AboutToMint;
    var d' := Step(d, e).0;
    if Writes(d, e, ppid) {
      Joins(AboutToMint(d, ppid), AboutToMint(d', ppid), e.r);
    } else if Mints(d, e, ppid) {
      Joins(TicketsOf(d, ppid), TicketsOf(d', ppid), e.jti);
      Joins(AboutToMint(d', ppid), AboutToMint(d, ppid), e.r);
    } else {
      Fewer(AboutToMint(d', ppid), AboutToMint(d, ppid));
    }
  }


  // ---- Runs -----------------------------------------------------------------------

  predicate AllowedRun(d: Db, run: seq<Event>)
    decreases |run|
  {
    run == [] || (Allowed(d, run[0]) && AllowedRun(Step(d, run[0]).0, run[1..]))
  }

  function Run(d: Db, run: seq<Event>): Db
    requires AllowedRun(d, run)
    decreases |run|
  {
    if run == [] then d else Run(Step(d, run[0]).0, run[1..])
  }

  const EMPTY := Db(map[], map[], {}, [], map[])

  lemma {:induction false} RunKeeps(d: Db, run: seq<Event>)
    requires Inv(d) && AllowedRun(d, run)
    ensures Inv(Run(d, run))
    decreases |run|
  {
    if run != [] {
      SpendKeeps(d, run[0]);
      RowsKeep(d, run[0]);
      forall ppid: Ppid ensures CountOk(Step(d, run[0]).0, ppid) { CountKeeps(d, run[0], ppid); }
      RunKeeps(Step(d, run[0]).0, run[1..]);
    }
  }

  lemma StartOk()
    ensures Inv(EMPTY)
  {
    forall ppid: Ppid ensures CountOk(EMPTY, ppid) {
      assert TicketsOf(EMPTY, ppid) == {} && AboutToMint(EMPTY, ppid) == {};
    }
  }

  /** Over every interleaving: no more signatures than tickets spent, no more spent than
      minted, no ticket signed for twice, and no account with more tickets than its counter. */
  lemma Conservation(run: seq<Event>)
    requires AllowedRun(EMPTY, run)
    ensures var d := Run(EMPTY, run);
            && |d.issued| <= |d.spent| <= |d.minted|
            && (forall i, j | 0 <= i < j < |d.issued| :: d.issued[i] != d.issued[j])
            && (forall ppid: Ppid :: |TicketsOf(d, ppid)| <= Count(d, ppid))
            && (forall ppid: Ppid :: |SignedFor(d, ppid)| <= Count(d, ppid))
  {
    StartOk();
    RunKeeps(EMPTY, run);
    var d := Run(EMPTY, run);
    DistinctCount(d.issued);
    Fewer(Elements(d.issued), d.spent);
    Fewer(d.spent, d.minted.Keys);
    assert |d.minted.Keys| == |d.minted|;
    forall ppid: Ppid
      ensures |TicketsOf(d, ppid)| <= Count(d, ppid)
      ensures |SignedFor(d, ppid)| <= Count(d, ppid)
    {
      assert CountOk(d, ppid);
      Fewer(SignedFor(d, ppid), TicketsOf(d, ppid));
    }
  }

  // ---- The quota under concurrency ------------------------------------------------

  /** At most `k` requests of the account are between its read and its write. */
  ghost predicate AtMost(d: Db, run: seq<Event>, ppid: Ppid, k: nat)
    requires AllowedRun(d, run)
    decreases |run|
  {
    |Racing(d, ppid)| <= k && (run != [] ==> AtMost(Step(d, run[0]).0, run[1..], ppid, k))
  }

  predicate Reads(d: Db, e: Event, ppid: Ppid)
    requires Allowed(d, e)
  {
    e.ReadCount? && e.ppid == ppid && e.r in Step(d, e).0.waiting
  }

  lemma RacersChange(d: Db, e: Event, ppid: Ppid)
    requires Allowed(d, e)
    ensures Reads(d, e, ppid) ==> Count(d, ppid) < ENROLL_QUOTA_MAX
    ensures Writes(d, e, ppid) ==> e.r in Racing(d, ppid) && Racing(Step(d, e).0, ppid) == Racing(d, ppid) - {e.r}
    ensures !Reads(d, e, ppid) ==> Racing(Step(d, e).0, ppid) <= Racing(d, ppid)
  {
    var d' := Step(d, e).0;
    forall r | r in Racing(d', ppid) ensures r in Racing(d, ppid) || (Reads(d, e, ppid) && r == e.r) {
      assert r != e.r ==> r in d.waiting && d.waiting[r] == d'.waiting[r];
    }
  }

  lemma QuotaStep(d: Db, e: Event, ppid: Ppid, k: nat)
    requires RowsStay(d) && Allowed(d, e) && |Racing(Step(d, e).0, ppid)| <= k
    requires Count(d, ppid) + |Racing(d, ppid)| <= ENROLL_QUOTA_MAX - 1 + k
    ensures Count(Step(d, e).0, ppid) + |Racing(Step(d, e).0, ppid)| <= ENROLL_QUOTA_MAX - 1 + k
  {
    RacersChange(d, e, ppid);
    CountGrows(d, e, ppid);
    hide Step, Count, Racing;
    var d' := Step(d, e).0;
    if Writes(d, e, ppid) {
      Joins(Racing(d', ppid), Racing(d, ppid), e.r);
    } else if !Reads(d, e, ppid) {
      Fewer(Racing(d', ppid), Racing(d, ppid));
    }
  }

  /** With at most `k` requests of an account racing at any moment, `k >= 1`, its counter
      never passes 19 + k; so serial requests stop at 20. */
  lemma {:induction false} QuotaHolds(d: Db, run: seq<Event>, ppid: Ppid, k: nat)
    requires RowsStay(d) && AllowedRun(d, run) && AtMost(d, run, ppid, k)
    requires Count(d, ppid) + |Racing(d, ppid)| <= ENROLL_QUOTA_MAX - 1 + k
    ensures Count(Run(d, run), ppid) <= ENROLL_QUOTA_MAX - 1 + k
    decreases |run|
  {
    if run != [] {
      assert AtMost(Step(d, run[0]).0, run[1..], ppid, k);
      RowsKeep(d, run[0]);
      QuotaStep(d, run[0], ppid, k);
      QuotaHolds(Step(d, run[0]).0, run[1..], ppid, k);
    }
  }

  lemma QuotaUnderConcurrency(run: seq<Event>, ppid: Ppid, k: nat)
    requires AllowedRun(EMPTY, run) && AtMost(EMPTY, run, ppid, k)
    ensures Count(Run(EMPTY, run), ppid) <= ENROLL_QUOTA_MAX - 1 + k
  {
    StartOk();
    QuotaHolds(EMPTY, run, ppid, k);
  }

  // ---- The bound is reached -------------------------------------------------------

  lemma {:induction false} RunAppend(d: Db, a: seq<Event>, b: seq<Event>, ppid: Ppid, k: nat)
    requires AllowedRun(d, a) && AllowedRun(Run(d, a), b)
    requires AtMost(d, a, ppid, k) && AtMost(Run(d, a), b, ppid, k)
    ensures AllowedRun(d, a + b) && Run(d, a + b) == Run(Run(d, a), b) && AtMost(d, a + b, ppid, k)
    decreases |a|
  {
    if a == [] {
      assert a + b == b;
    } else {
      assert (a + b)[1..] == a[1..] + b;
      RunAppend(Step(d, a[0]).0, a[1..], b, ppid, k);
    }
  }

  /** `n` requests one after the other, each to its end. */
  lemma {:induction false} Serial(ppid: Ppid, n: nat) returns (run: seq<Event>)
    requires n < ENROLL_QUOTA_MAX
    ensures AllowedRun(EMPTY, run) && AtMost(EMPTY, run, ppid, 1)
    ensures var d := Run(EMPTY, run);
            d.waiting == map[] && Count(d, ppid) == n && (n > 0 <==> ppid in d.counts) && forall jti | jti in d.minted :: jti < n
  {
    if n == 0 {
      run := [];
      assert Racing(EMPTY, ppid) == {};
    } else {
      var before := Serial(ppid, n - 1);
      var d := Run(EMPTY, before);
      var once := [ReadCount(0, ppid), WriteCount(0), Mint(0, n - 1, 0)];
      OneMore(d, ppid, n - 1);
      RunAppend(EMPTY, before, once, ppid, 1);
      run := before + once;
    }
  }

  lemma OneMore(d: Db, ppid: Ppid, n: nat)
    requires d.waiting == map[] && Count(d, ppid) == n < ENROLL_QUOTA_MAX && (n > 0 <==> ppid in d.counts)
    requires forall jti | jti in d.minted :: jti < n
    ensures var once := [ReadCount(0, ppid), WriteCount(0), Mint(0, n, 0)];
            && AllowedRun(d, once) && AtMost(d, once, ppid, 1)
            && Run(d, once) == d.(counts := d.counts[ppid := n + 1], minted := d.minted[n := Payload(ppid, TICKET_TTL_MS)])
  {
    var once := [ReadCount(0, ppid), WriteCount(0), Mint(0, n, 0)];
    var d1 := Step(d, once[0]).0;
    var d2 := Step(d1, once[1]).0;
    var d3 := Step(d2, once[2]).0;
    var last, two := [Mint(0, n, 0)], [WriteCount(0), Mint(0, n, 0)];
    assert last[1..] == [] && two[1..] == last && once[1..] == two;
    assert Racing(d, ppid) == {} && Racing(d1, ppid) == {0} && Racing(d2, ppid) == {} && Racing(d3, ppid) == {};
    assert d3.waiting == map[] && d3.counts == d.counts[ppid := n + 1];
    OneStep(d2, last, ppid);
    OneStep(d1, two, ppid);
    OneStep(d, once, ppid);
  }

  lemma OneStep(d: Db, run: seq<Event>, ppid: Ppid)
    requires run != [] && Allowed(d, run[0]) && AllowedRun(Step(d, run[0]).0, run[1..])
    requires |Racing(d, ppid)| <= 1 && AtMost(Step(d, run[0]).0, run[1..], ppid, 1)
    ensures AllowedRun(d, run) && AtMost(d, run, ppid, 1) && Run(d, run) == Run(Step(d, run[0]).0, run[1..])
  {
  }

  /** Requests 0 to `k` wait at the account: the first `m` have written, the others have read. */
  ghost predicate Lined(d: Db, ppid: Ppid, m: nat, k: nat) {
    && m <= k && ppid in d.counts && d.counts[ppid] == ENROLL_QUOTA_MAX - 1 + m
    && (forall r: Request :: r in d.waiting <==> r < k)
    && (forall r: Request | r in d.waiting :: d.waiting[r] == if r < m then Written(ppid) else Counted(ppid, true))
  }

  function Below(k: nat): (s: set<Request>)
    ensures forall r: Request :: r in s <==> r < k
  {
    if k == 0 then {} else Below(k - 1) + {k - 1}
  }

  lemma {:induction false} Initial(k: nat)
    ensures |Below(k)| == k
  {
    if k > 0 {
      Initial(k - 1);
      Joins(Below(k - 1), Below(k), k - 1);
    }
  }

  lemma RacersInLine(d: Db, ppid: Ppid, m: nat, k: nat)
    requires Lined(d, ppid, m, k)
    ensures |Racing(d, ppid)| <= k
  {
    Initial(k);
    Fewer(Racing(d, ppid), Below(k));
  }

  lemma {:induction false} AllRead(d: Db, ppid: Ppid, j: nat, k: nat) returns (run: seq<Event>)
    requires Lined(d, ppid, 0, j) && j <= k
    ensures AllowedRun(d, run) && AtMost(d, run, ppid, k) && Lined(Run(d, run), ppid, 0, k)
    decreases k - j
  {
    RacersInLine(d, ppid, 0, j);
    if j == k {
      run := [];
    } else {
      var rest := AllRead(Step(d, ReadCount(j, ppid)).0, ppid, j + 1, k);
      run := [ReadCount(j, ppid)] + rest;
      assert run[1..] == rest;
    }
  }

  lemma {:induction false} AllWrite(d: Db, ppid: Ppid, m: nat, k: nat) returns (run: seq<Event>)
    requires Lined(d, ppid, m, k)
    ensures AllowedRun(d, run) && AtMost(d, run, ppid, k) && Lined(Run(d, run), ppid, k, k)
    decreases k - m
  {
    RacersInLine(d, ppid, m, k);
    if m == k {
      run := [];
    } else {
      var rest := AllWrite(Step(d, WriteCount(m)).0, ppid, m + 1, k);
      run := [WriteCount(m)] + rest;
      assert run[1..] == rest;
    }
  }

  lemma {:induction false} Wider(d: Db, run: seq<Event>, ppid: Ppid, j: nat, k: nat)
    requires j <= k && AllowedRun(d, run) && AtMost(d, run, ppid, j)
    ensures AtMost(d, run, ppid, k)
    decreases |run|
  {
    if run != [] { Wider(Step(d, run[0]).0, run[1..], ppid, j, k); }
  }

  /** The bound is exact: for every `k >= 1` some run, with never more than `k` requests
      racing, takes the counter of an account to 19 + k. */
  lemma QuotaBoundIsReached(ppid: Ppid, k: nat) returns (run: seq<Event>)
    requires k >= 1
    ensures AllowedRun(EMPTY, run) && AtMost(EMPTY, run, ppid, k)
    ensures Count(Run(EMPTY, run), ppid) == ENROLL_QUOTA_MAX - 1 + k
  {
    var serial := Serial(ppid, ENROLL_QUOTA_MAX - 1);
    Wider(EMPTY, serial, ppid, 1, k);
    var d := Run(EMPTY, serial);
    var readAll := AllRead(d, ppid, 0, k);
    var writes := AllWrite(Run(d, readAll), ppid, 0, k);
    RunAppend(d, readAll, writes, ppid, k);
    RunAppend(EMPTY, serial, readAll + writes, ppid, k);
    run := serial + (readAll + writes);
  }
}
