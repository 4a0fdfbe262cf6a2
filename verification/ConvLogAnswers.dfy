/** What the conversation log answers to each request, said of the request, the reachable log
    and the response alone; and which frames a socket gets in the end. */
module ConvLogAnswers {
  import opened Common
  import opened ConvLog

  // ---- The parameter --------------------------------------------------------------

  /** Given, and no non-negative integer. */
  predicate Malformed(since: Since) {
    since.NotAnInteger? || (since.Number? && since.value < 0)
  }

  /** The number asked for; an absent parameter counts as 0. */
  function Asked(since: Since): nat {
    if since.Number? && since.value >= 0 then since.value else 0
  }

  /** The entries numbered above `n`: all of them, no other, in order. */
  ghost predicate ListsAbove(entries: seq<Entry>, listed: seq<Entry>, n: nat) {
    && (forall e :: e in listed <==> e in entries && e.seqNo > n)
    && (forall i, j | 0 <= i < j < |listed| :: listed[i].seqNo < listed[j].seqNo)
  }

  lemma SuffixLists(entries: seq<Entry>, n: nat)
    requires Numbered(entries)
    ensures ListsAbove(entries, entries[Min(n, |entries|)..], n)
  {
    var m := Min(n, |entries|);
    var listed := entries[m..];
    forall e ensures e in listed <==> e in entries && e.seqNo > n {
      if e in entries && e.seqNo > n {
        var i :| 0 <= i < |entries| && entries[i] == e;
        assert listed[i - m] == e;
      }
    }
  }

  // ---- The delta read -------------------------------------------------------------

  /** After any run a delta read is refused exactly when its parameter is malformed;
      otherwise it lists exactly the entries above the number asked for. */
  lemma SyncAnswer(run: seq<Event>, since: Since)
    requires AllowedRun(EMPTY, run)
    ensures var log, r := Run(EMPTY, run), Synced(Run(EMPTY, run), since);
            && (r == Failed(400) <==> Malformed(since))
            && (!Malformed(since) ==> r.Entries? && ListsAbove(log.entries, r.entries, Asked(since)))
  {
    hide ListsAbove, After;
    RunKeeps(EMPTY, run);
    var log := Run(EMPTY, run);
    AfterIsSuffix(log.entries, Asked(since));
    SuffixLists(log.entries, Asked(since));
  }

  /** A device that has the first `n` entries of the log as it once was, and appends the
      answer to `n`, has the whole log as it is now. */
  lemma SyncCatchesUp(run: seq<Event>, more: seq<Event>, n: nat)
    requires AllowedRun(EMPTY, run) && AllowedRun(Run(EMPTY, run), more) && n <= |Run(EMPTY, run).entries|
    ensures var was, now := Run(EMPTY, run), Run(Run(EMPTY, run), more);
            && Synced(now, Number(n)).Entries?
            && was.entries[..n] + Synced(now, Number(n)).entries == now.entries
  {
    hide Run, AllowedRun, After;
    RunKeeps(EMPTY, run);
    var was := Run(EMPTY, run);
    RunKeeps(was, more);
    var now := Run(was, more);
    AfterIsSuffix(now.entries, n);
    assert was.entries[..n] == now.entries[..n];
  }

  // ---- The batch ------------------------------------------------------------------

  /** One to 500 elements, each a blob that is not empty. */
  predicate GoodBatch(body: Body) {
    body.Blobs? && 1 <= |body.blobs| <= 500 && forall i | 0 <= i < |body.blobs| :: body.blobs[i].Some? && |body.blobs[i].value| >= 1
  }

  lemma GoodIsChecked(body: Body)
    ensures GoodBatch(body) <==> Checked(body).Ok?
    ensures Checked(body).Err? ==> Checked(body).error == 400
    ensures Checked(body).Ok? ==> |Checked(body).value| == |body.blobs|
                                  && forall i | 0 <= i < |body.blobs| :: body.blobs[i] == Some(Checked(body).value[i])
  {
    if body.Blobs? {
      assert forall i | 0 <= i < |body.blobs| :: body.blobs[i] in body.blobs;
    }
  }

  function BatchBytes(blobs: seq<Option<Bytes>>): nat {
    if blobs == [] then 0 else BatchBytes(blobs[..|blobs| - 1]) + if blobs[|blobs| - 1].Some? then |blobs[|blobs| - 1].value| else 0
  }

  lemma {:induction false} BatchBytesAre(raw: seq<Option<Bytes>>, blobs: seq<Bytes>)
    requires |raw| == |blobs| && forall i | 0 <= i < |raw| :: raw[i] == Some(blobs[i])
    ensures BatchBytes(raw) == BlobBytes(blobs)
  {
    if raw != [] { BatchBytesAre(raw[..|raw| - 1], blobs[..|raw| - 1]); }
  }

  /** What an append of this body is answered, and what becomes of the log: 400 for a bad
      batch, 507 for one beyond 500000 entries or 256 MiB, and otherwise every blob stored
      in order under the next numbers, with the time rounded down to the minute. */
  lemma AppendAnswer(run: seq<Event>, body: Body, now: nat, lost: Losses)
    requires AllowedRun(EMPTY, run)
    ensures var log := Run(EMPTY, run);
            var (log', r) := Appended(log, body, now, lost);
            && (r == Failed(400) <==> !GoodBatch(body))
            && (r == Failed(507) <==> GoodBatch(body) && (|log.entries| + |body.blobs| > 500_000
                                                         || TotalBytes(log.entries) + BatchBytes(body.blobs) > 268_435_456))
            && (r.Failed? ==> log' == log && (r.status == 400 || r.status == 507))
            && (!r.Failed? ==>
                  && GoodBatch(body)
                  && r == Created(seq(|body.blobs|, i requires 0 <= i < |body.blobs| => |log.entries| + 1 + i))
                  && log'.entries == log.entries + seq(|body.blobs|, i requires 0 <= i < |body.blobs| =>
                       Entry(|log.entries| + 1 + i, body.blobs[i].value, now - now % 60_000)))
  {
    hide Run, AllowedRun, Checked, TotalBytes, BlobBytes, BatchBytes;
    NothingYet();
    RunKeeps(EMPTY, run);
    var log := Run(EMPTY, run);
    GoodIsChecked(body);
    if GoodBatch(body) {
      var blobs := Checked(body).value;
      BatchBytesAre(body.blobs, blobs);
      assert Rows(blobs, log.lastSeq, BucketTimestamp(now)) == seq(|body.blobs|, i requires 0 <= i < |body.blobs| =>
                       Entry(|log.entries| + 1 + i, body.blobs[i].value, now - now % 60_000));
    }
  }

  // ---- The sockets ----------------------------------------------------------------

  /** What a new socket is sent at once: everything above the number asked for, a malformed
      one counting as 0, up to the first frame lost; no other socket notices. */
  lemma SubscribeAnswer(run: seq<Event>, id: SocketId, since: Since, sent: nat)
    requires AllowedRun(EMPTY, run) && id !in Run(EMPTY, run).sockets
    ensures var log := Run(EMPTY, run);
            var (log', r) := Subscribed(log, id, since, sent);
            && log'.entries == log.entries && log'.lastSeq == log.lastSeq
            && log'.sockets.Keys == log.sockets.Keys + {id}
            && (forall other | other in log.sockets :: log'.sockets[other] == log.sockets[other])
            && var s := log'.sockets[id];
               && s.start == |log.entries| && s.since == Asked(since)
               && (r == Switching <==> s.healthy) && (!s.healthy ==> r == Failed(500) && |s.inbox| == sent)
               && (s.healthy <==> |log.entries| - Asked(since) <= sent)
               && (s.healthy ==> ListsAbove(log.entries, s.inbox, Asked(since)))
               && (!s.healthy ==> Asked(since) < |log.entries| && s.inbox <= log.entries[Asked(since)..])
  {
    hide ListsAbove, After, Run, AllowedRun, NewSocket;
    RunKeeps(EMPTY, run);
    BacklogSent(Run(EMPTY, run).entries, Asked(since), sent);
  }

  lemma BacklogSent(entries: seq<Entry>, n: nat, sent: nat)
    requires Numbered(entries)
    ensures var s := NewSocket(entries, n, sent);
            && s.start == |entries| && s.since == n
            && (s.healthy <==> |entries| - n <= sent) && (s.healthy <==> |After(entries, n)| <= sent)
            && (s.healthy ==> ListsAbove(entries, s.inbox, n))
            && (!s.healthy ==> |s.inbox| == sent && n < |entries| && s.inbox <= entries[n..])
  {
    hide ListsAbove, After;
    AfterIsSuffix(entries, n);
    SuffixLists(entries, n);
  }

  /** A socket is attached if and only if it subscribed and was not closed since. */
  lemma {:induction false} AttachedOver(log: Log, run: seq<Event>, id: SocketId)
    requires AllowedRun(log, run)
    ensures id in Run(log, run).sockets <==>
              (id in log.sockets && Close(id) !in run) || exists i | 0 <= i < |run| :: Attaches(run, i, id)
    decreases |run|
  {
    hide Appended, NewSocket;
    if run != [] {
      var rest := run[1..];
      AttachedOver(Step(log, run[0]), rest, id);
      assert forall i | 0 <= i < |rest| :: Attaches(run, i + 1, id) <==> Attaches(rest, i, id);
      if i :| 1 <= i < |run| && Attaches(run, i, id) { assert Attaches(rest, i - 1, id); }
      assert Close(id) in rest <==> exists j | 1 <= j < |run| :: run[j] == Close(id);
      AppendKeepsSockets(log, run[0]);
      assert id in Step(log, run[0]).sockets <==>
          (id in log.sockets && run[0] != Close(id)) || (run[0].Subscribe? && run[0].id == id);
      assert Attaches(run, 0, id) <==> run[0].Subscribe? && run[0].id == id && Close(id) !in rest;
    }
  }

  lemma AppendKeepsSockets(log: Log, e: Event)
    ensures e.Append? ==> Step(log, e).sockets.Keys == log.sockets.Keys
  {
  }

  /** The event at `i` attaches the socket for good. */
  ghost predicate Attaches(run: seq<Event>, i: nat, id: SocketId) {
    i < |run| && run[i].Subscribe? && run[i].id == id && forall j | i < j < |run| :: run[j] != Close(id)
  }

  lemma AttachedUntilClosed(run: seq<Event>, id: SocketId)
    requires AllowedRun(EMPTY, run)
    ensures id in Run(EMPTY, run).sockets <==> exists i | 0 <= i < |run| :: Attaches(run, i, id)
  {
    AttachedOver(EMPTY, run, id);
  }

  /** None of the rows a run stores is lost on its way to this socket. */
  ghost predicate NothingLost(log: Log, run: seq<Event>, id: SocketId)
    decreases |run|
  {
    run == []
    || ((run[0].Append? ==> forall n: nat | log.lastSeq < n <= Step(log, run[0]).lastSeq :: !run[0].lost(id, n))
        && NothingLost(Step(log, run[0]), run[1..], id))
  }

  lemma {:induction false} SentAllHealthy(s: Socket, id: SocketId, rows: seq<Entry>, lost: Losses)
    ensures SentAll(s, id, rows, lost).healthy <==> s.healthy && forall i | 0 <= i < |rows| :: !lost(id, rows[i].seqNo)
  {
    if rows != [] { SentAllHealthy(s, id, rows[..|rows| - 1], lost); }
  }

  lemma RowNumbers(rows: seq<Entry>, lastSeq: nat, id: SocketId, lost: Losses)
    requires forall i | 0 <= i < |rows| :: rows[i].seqNo == lastSeq + 1 + i
    ensures (forall i | 0 <= i < |rows| :: !lost(id, rows[i].seqNo)) <==>
            forall n: nat | lastSeq < n <= lastSeq + |rows| :: !lost(id, n)
  {
    forall n: nat | lastSeq < n <= lastSeq + |rows| && forall i | 0 <= i < |rows| :: !lost(id, rows[i].seqNo)
      ensures !lost(id, n)
    {
      assert rows[n - lastSeq - 1].seqNo == n;
    }
  }

  lemma HealthStep(log: Log, e: Event, id: SocketId)
    requires Allowed(log, e) && id in log.sockets && e != Close(id)
    ensures id in Step(log, e).sockets
    ensures Step(log, e).sockets[id].healthy <==>
              log.sockets[id].healthy && (e.Append? ==> forall n: nat | log.lastSeq < n <= Step(log, e).lastSeq :: !e.lost(id, n))
  {
    hide SentAll, After, NewSocket, Rows;
    if e.Append? && Checked(e.body).Ok? && Fits(log.entries, Checked(e.body).value) {
      var rows := Rows(Checked(e.body).value, log.lastSeq, BucketTimestamp(e.now));
      SentAllHealthy(log.sockets[id], id, rows, e.lost);
      RowNumbers(rows, log.lastSeq, id, e.lost);
    }
  }

  /** A socket stays healthy over a run if and only if none of its frames is lost. */
  lemma {:induction false} HealthOverRun(log: Log, run: seq<Event>, id: SocketId)
    requires AllowedRun(log, run) && id in log.sockets && Close(id) !in run
    ensures id in Run(log, run).sockets
    ensures Run(log, run).sockets[id].healthy <==> log.sockets[id].healthy && NothingLost(log, run, id)
    decreases |run|
  {
    hide Step, Allowed;
    if run != [] {
      HealthStep(log, run[0], id);
      HealthOverRun(Step(log, run[0]), run[1..], id);
    }
  }

  /** A device that asked for a number the log had reached, whose socket stayed attached and
      lost no frame, has received exactly the entries above that number. */
  lemma EveryFrameArrives(run: seq<Event>, id: SocketId, since: Since, sent: nat, more: seq<Event>)
    requires AllowedRun(EMPTY, run) && id !in Run(EMPTY, run).sockets
    requires var log := Run(EMPTY, run);
             var (log', r) := Subscribed(log, id, since, sent);
             && r == Switching && Asked(since) <= |log.entries|
             && AllowedRun(log', more) && Close(id) !in more && NothingLost(log', more, id)
    ensures var log := Run(Subscribed(Run(EMPTY, run), id, since, sent).0, more);
            id in log.sockets && ListsAbove(log.entries, log.sockets[id].inbox, Asked(since))
  {
    hide ListsAbove, After, Run, AllowedRun, NothingLost, Subscribed;
    SubscribeAnswer(run, id, since, sent);
    RunKeeps(EMPTY, run);
    var begun := Subscribed(Run(EMPTY, run), id, since, sent).0;
    SubscribeKeeps(Run(EMPTY, run), id, since, sent);
    HealthOverRun(begun, more, id);
    SocketStays(begun, more, id);
    RunKeeps(begun, more);
    SuffixLists(Run(begun, more).entries, Asked(since));
  }
}
