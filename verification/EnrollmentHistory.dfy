/** Enrollment told from the events of a run alone: which tickets pass, what a signature
    presupposes, and that a good ticket does end in one. */
module EnrollmentHistory {
  import opened Common
  import opened Enrollment

  /** Ten minutes. */
  const LIFE: nat := 600_000

  // ---- Where a ticket has been ----------------------------------------------------

  predicate MintedAt(run: seq<Event>, k: nat, jti: Jti) {
    k < |run| && run[k].Mint? && run[k].jti == jti
  }

  /** At `i` request `r` presented the ticket, already minted at `k` and not expired. */
  predicate VerifiedAt(run: seq<Event>, k: nat, i: nat, r: Request, jti: Jti) {
    && MintedAt(run, k, jti) && k < i < |run|
    && run[i].Verify? && run[i].r == r && run[i].ticket == Some(jti) && run[i].now < run[k].now + LIFE
  }

  predicate SpentAt(run: seq<Event>, k: nat, i: nat, j: nat, r: Request, jti: Jti) {
    VerifiedAt(run, k, i, r, jti) && i < j < |run| && run[j] == Spend(r)
  }

  predicate SignedAt(run: seq<Event>, k: nat, i: nat, j: nat, l: nat, r: Request, jti: Jti) {
    SpentAt(run, k, i, j, r, jti) && j < l < |run| && run[l] == Sign(r, true)
  }

  ghost predicate WasMinted(run: seq<Event>, jti: Jti) {
    exists k: nat :: MintedAt(run, k, jti)
  }

  ghost predicate WasVerified(run: seq<Event>, r: Request, jti: Jti) {
    exists k: nat, i: nat :: VerifiedAt(run, k, i, r, jti)
  }

  ghost predicate WasSpent(run: seq<Event>, r: Request, jti: Jti) {
    exists k: nat, i: nat, j: nat :: SpentAt(run, k, i, j, r, jti)
  }

  ghost predicate WasSigned(run: seq<Event>, jti: Jti) {
    exists k: nat, i: nat, j: nat, l: nat, r :: SignedAt(run, k, i, j, l, r, jti)
  }

  /** The minted tickets are those of the mint events, each expiring `LIFE` after its event. */
  ghost predicate MintsRecorded(run: seq<Event>, d: Db) {
    && (forall jti | jti in d.minted :: WasMinted(run, jti))
    && forall k: nat, jti | MintedAt(run, k, jti) :: jti in d.minted && d.minted[jti].exp == run[k].now + LIFE
  }

  /** Whatever a request holds and whatever was signed has come all the way. */
  ghost predicate Vouched(run: seq<Event>, d: Db) {
    && MintsRecorded(run, d)
    && (forall r | r in d.waiting && d.waiting[r].Verified? :: WasVerified(run, r, d.waiting[r].jti))
    && (forall r | r in d.waiting && d.waiting[r].Spent? :: WasSpent(run, r, d.waiting[r].jti))
    && (forall jti | jti in d.issued :: WasSigned(run, jti))
  }

  // ---- One more event -------------------------------------------------------------

  lemma StillSo(run: seq<Event>, e: Event, r: Request, jti: Jti)
    ensures WasMinted(run, jti) ==> WasMinted(run + [e], jti)
    ensures WasVerified(run, r, jti) ==> WasVerified(run + [e], r, jti)
    ensures WasSpent(run, r, jti) ==> WasSpent(run + [e], r, jti)
    ensures WasSigned(run, jti) ==> WasSigned(run + [e], jti)
  {
    var more := run + [e];
    assert forall i | 0 <= i < |run| :: more[i] == run[i];
    if k: nat :| MintedAt(run, k, jti) { assert MintedAt(more, k, jti); }
    if k: nat, i: nat :| VerifiedAt(run, k, i, r, jti) { assert VerifiedAt(more, k, i, r, jti); }
    if k: nat, i: nat, j: nat :| SpentAt(run, k, i, j, r, jti) { assert SpentAt(more, k, i, j, r, jti); }
    if k: nat, i: nat, j: nat, l: nat, q :| SignedAt(run, k, i, j, l, q, jti) { assert SignedAt(more, k, i, j, l, q, jti); }
  }

  lemma MintsStayRecorded(run: seq<Event>, d: Db, e: Event)
    requires MintsRecorded(run, d) && Allowed(d, e)
    ensures MintsRecorded(run + [e], Step(d, e).0)
  {
    var more, d' := run + [e], Step(d, e).0;
    assert more[|run|] == e && forall i | 0 <= i < |run| :: more[i] == run[i];
    forall jti | jti in d'.minted ensures WasMinted(more, jti) {
      StillSo(run, e, 0, jti);
      if jti !in d.minted { assert MintedAt(more, |run|, jti); }
    }
    forall k: nat, jti | MintedAt(more, k, jti) ensures jti in d'.minted && d'.minted[jti].exp == more[k].now + LIFE {
      assert k < |run| ==> MintedAt(run, k, jti);
    }
  }

  lemma VerifyVouches(run: seq<Event>, d: Db, e: Event)
    requires MintsRecorded(run, d) && Allowed(d, e) && e.Verify? && Step(d, e).1 == Waiting
    ensures e.ticket.Some? && WasVerified(run + [e], e.r, e.ticket.value)
  {
    var jti := e.ticket.value;
    assert WasMinted(run, jti);
    var k: nat :| MintedAt(run, k, jti);
    assert VerifiedAt(run + [e], k, |run|, e.r, jti);
  }

  lemma SpendVouches(run: seq<Event>, e: Event, jti: Jti)
    requires e.Spend? && WasVerified(run, e.r, jti)
    ensures WasSpent(run + [e], e.r, jti)
  {
    var more := run + [e];
    var k: nat, i: nat :| VerifiedAt(run, k, i, e.r, jti);
    assert SpentAt(more, k, i, |run|, e.r, jti);
  }

  lemma SignVouches(run: seq<Event>, e: Event, jti: Jti)
    requires e.Sign? && e.wellFormed && WasSpent(run, e.r, jti)
    ensures WasSigned(run + [e], jti)
  {
    var more := run + [e];
    var k: nat, i: nat, j: nat :| SpentAt(run, k, i, j, e.r, jti);
    assert SignedAt(more, k, i, j, |run|, e.r, jti);
  }

  lemma VouchedFor(run: seq<Event>, d: Db, e: Event, r: Request)
    requires Vouched(run, d) && Allowed(d, e) && r in Step(d, e).0.waiting
    ensures var p := Step(d, e).0.waiting[r];
            && (p.Verified? ==> WasVerified(run + [e], r, p.jti))
            && (p.Spent? ==> WasSpent(run + [e], r, p.jti))
  {
    hide WasVerified, WasSpent, WasMinted, WasSigned;
    var p := Step(d, e).0.waiting[r];
    if p.Verified? || p.Spent? {
      StillSo(run, e, r, p.jti);
      if e.Verify? && e.r == r { VerifyVouches(run, d, e); }
      if e.Spend? && e.r == r { SpendVouches(run, e, p.jti); }
    }
  }

  lemma StaysVouched(run: seq<Event>, d: Db, e: Event)
    requires Vouched(run, d) && Allowed(d, e)
    ensures Vouched(run + [e], Step(d, e).0)
  {
    hide WasVerified, WasSpent, WasSigned, MintsRecorded;
    var d' := Step(d, e).0;
    MintsStayRecorded(run, d, e);
    forall r | r in d'.waiting
      ensures d'.waiting[r].Verified? ==> WasVerified(run + [e], r, d'.waiting[r].jti)
      ensures d'.waiting[r].Spent? ==> WasSpent(run + [e], r, d'.waiting[r].jti)
    {
      VouchedFor(run, d, e, r);
    }
    forall jti | jti in d'.issued ensures WasSigned(run + [e], jti) {
      StillSo(run, e, 0, jti);
      if jti !in d.issued { SignVouches(run, e, jti); }
    }
  }

  lemma {:induction false} RunVouches(past: seq<Event>, d: Db, run: seq<Event>)
    requires Vouched(past, d) && AllowedRun(d, run)
    ensures Vouched(past + run, Run(d, run))
    decreases |run|
  {
    hide Vouched, Step, Allowed;
    if run == [] {
      assert past + run == past;
    } else {
      StaysVouched(past, d, run[0]);
      RunVouches(past + [run[0]], Step(d, run[0]).0, run[1..]);
      assert past + [run[0]] + run[1..] == past + run;
    }
  }

  lemma NothingHeld()
    ensures Vouched([], EMPTY)
  {
  }

  lemma Vouches(run: seq<Event>)
    requires AllowedRun(EMPTY, run)
    ensures Vouched(run, Run(EMPTY, run))
  {
    hide Vouched;
    NothingHeld();
    RunVouches([], EMPTY, run);
    assert [] + run == run;
  }

  // ---- What a signature presupposes -----------------------------------------------

  /** Over every run, each ticket signed for was minted by an earlier event of the run, was
      presented by some request less than ten minutes after its minting, and was then spent
      and signed for by that request, in this order. */
  lemma OnlyFreshTicketsAreSigned(run: seq<Event>, jti: Jti)
    requires AllowedRun(EMPTY, run) && jti in Run(EMPTY, run).issued
    ensures exists k: nat, i: nat, j: nat, l: nat, r :: SignedAt(run, k, i, j, l, r, jti)
  {
    hide WasMinted, WasVerified, WasSpent, MintsRecorded;
    Vouches(run);
    assert WasSigned(run, jti);
  }

  /** After any run a ticket passes if and only if some event of the run minted it less than
      ten minutes before; any other is refused with 401, and nothing changes. */
  lemma VerifyOutcome(run: seq<Event>, r: Request, ticket: Option<Jti>, now: nat)
    requires AllowedRun(EMPTY, run) && r !in Run(EMPTY, run).waiting
    ensures var d := Run(EMPTY, run);
            var (d', out) := Step(d, Verify(r, ticket, now));
            && (out == Waiting <==> ticket.Some? && exists k: nat :: MintedAt(run, k, ticket.value) && now < run[k].now + LIFE)
            && (out != Waiting ==> out == Failed(401) && d' == d)
            && (out == Waiting ==> d' == d.(waiting := d.waiting[r := Verified(ticket.value)]))
  {
    Vouches(run);
    var d := Run(EMPTY, run);
    assert MintsRecorded(run, d);
    if ticket.Some? && ticket.value in d.minted {
      assert WasMinted(run, ticket.value);
      var k: nat :| MintedAt(run, k, ticket.value);
      assert d.minted[ticket.value].exp == run[k].now + LIFE;
    }
  }

  // ---- Every other answer ---------------------------------------------------------

  /** What each waiting step is answered: the quota, the racing insert, the ticket spent
      before and the malformed message are the only refusals, and what they leave. */
  lemma StepOutcome(d: Db, e: Event)
    requires Allowed(d, e)
    ensures var (d', out) := Step(d, e);
            match e
            case ReadCount(r, ppid) =>
              && (out == Failed(403) <==> Count(d, ppid) >= 20) && (out == Failed(403) ==> d' == d)
              && (out != Failed(403) ==> out == Waiting && d' == d.(waiting := d.waiting[r := Counted(ppid, ppid in d.counts)]))
            case WriteCount(r) =>
              var p := d.waiting[r];
              && (out == Failed(500) <==> !p.existing && p.ppid in d.counts)
              && (out == Failed(500) ==> d' == d.(waiting := d.waiting - {r}))
              && (out != Failed(500) ==> out == Waiting && r in d'.waiting && d'.waiting[r] == Written(p.ppid))
              && (out != Failed(500) && p.ppid in d.counts ==> Count(d', p.ppid) == Count(d, p.ppid) + 1)
              && (p.ppid !in d.counts ==> Count(d', p.ppid) == if p.existing then 0 else 1)
              && forall other: Ppid | other != p.ppid :: Count(d', other) == Count(d, other)
            case Mint(r, jti, now) =>
              out == Ticket(jti) && d' == d.(minted := d.minted[jti := Payload(d.waiting[r].ppid, now + LIFE)], waiting := d.waiting - {r})
            case Verify(_, _, _) => out == Waiting || (out == Failed(401) && d' == d)
            case Spend(r) =>
              var jti := d.waiting[r].jti;
              && (out == Failed(409) <==> jti in d.spent) && d'.spent == d.spent + {jti} && d'.issued == d.issued
              && (out == Failed(409) ==> d'.waiting == d.waiting - {r})
              && (out != Failed(409) ==> out == Waiting && d'.waiting == d.waiting[r := Spent(jti)])
            case Sign(r, wellFormed) =>
              && (out == BlindSignature <==> wellFormed) && (!wellFormed ==> out == Failed(400))
              && d'.issued == d.issued + (if wellFormed then [d.waiting[r].jti] else [])
              && d'.waiting == d.waiting - {r} && d'.spent == d.spent
            case Drop(r) => d' == d.(waiting := d.waiting - {r})
  {
  }

  // ---- A good ticket ends in a signature ------------------------------------------

  lemma OneEvent(d: Db, e: Event, rest: seq<Event>)
    requires Allowed(d, e) && AllowedRun(Step(d, e).0, rest)
    ensures AllowedRun(d, [e] + rest) && Run(d, [e] + rest) == Run(Step(d, e).0, rest)
  {
    hide Step, Allowed;
    assert ([e] + rest)[1..] == rest;
  }

  lemma ThreeSteps(d: Db, a: Event, b: Event, c: Event)
    requires Allowed(d, a) && Allowed(Step(d, a).0, b) && Allowed(Step(Step(d, a).0, b).0, c)
    ensures AllowedRun(d, [a, b, c]) && Run(d, [a, b, c]) == Step(Step(Step(d, a).0, b).0, c).0
  {
    hide Step, Allowed;
    var d1 := Step(d, a).0;
    OneEvent(Step(d1, b).0, c, []);
    OneEvent(d1, b, [c] + []);
    OneEvent(d, a, [b] + ([c] + []));
    assert [a] + ([b] + ([c] + [])) == [a, b, c];
  }

  /** After any run: a ticket minted less than ten minutes before and never spent, presented
      by a new request with a well-formed message, gets exactly one blind signature, and
      presented again after that it is refused. */
  lemma FreshTicketIsSigned(run: seq<Event>, k: nat, jti: Jti, r: Request, now: nat, again: Request)
    requires AllowedRun(EMPTY, run) && MintedAt(run, k, jti) && now < run[k].now + LIFE
    requires jti !in Run(EMPTY, run).spent && r !in Run(EMPTY, run).waiting && again !in Run(EMPTY, run).waiting
    ensures var d, three := Run(EMPTY, run), [Verify(r, Some(jti), now), Spend(r), Sign(r, true)];
            && AllowedRun(d, three)
            && var d' := Run(d, three);
               && d'.issued == d.issued + [jti] && jti !in d.issued && d'.spent == d.spent + {jti} && d'.waiting == d.waiting
               && AllowedRun(d', [Verify(again, Some(jti), now)])
               && var d2 := Run(d', [Verify(again, Some(jti), now)]);
                  Allowed(d2, Spend(again)) && Step(d2, Spend(again)).1 == Failed(409)
  {
    hide WasMinted, WasVerified, WasSpent, WasSigned, SignedAt;
    Vouches(run);
    StartOk();
    RunKeeps(EMPTY, run);
    var d := Run(EMPTY, run);
    assert MintsRecorded(run, d);
    FreshIsSigned(d, jti, r, now, again);
  }

  lemma FreshIsSigned(d: Db, jti: Jti, r: Request, now: nat, again: Request)
    requires SpendOk(d) && jti in d.minted && now < d.minted[jti].exp && jti !in d.spent
    requires r !in d.waiting && again !in d.waiting
    ensures var three := [Verify(r, Some(jti), now), Spend(r), Sign(r, true)];
            && AllowedRun(d, three)
            && var d' := Run(d, three);
               && d'.issued == d.issued + [jti] && jti !in d.issued && d'.spent == d.spent + {jti} && d'.waiting == d.waiting
               && AllowedRun(d', [Verify(again, Some(jti), now)])
               && var d2 := Run(d', [Verify(again, Some(jti), now)]);
                  Allowed(d2, Spend(again)) && Step(d2, Spend(again)).1 == Failed(409)
  {
    var d1 := Step(d, Verify(r, Some(jti), now)).0;
    var d2 := Step(d1, Spend(r)).0;
    var d3 := Step(d2, Sign(r, true)).0;
    ThreeSteps(d, Verify(r, Some(jti), now), Spend(r), Sign(r, true));
    assert d3.waiting == d.waiting;
    OneEvent(d3, Verify(again, Some(jti), now), []);
    assert [Verify(again, Some(jti), now)] + [] == [Verify(again, Some(jti), now)];
  }
}
