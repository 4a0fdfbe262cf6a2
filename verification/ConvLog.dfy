/** The append-only operation log of one conversation: batches in, frames out to every
    attached socket, and a delta read for devices that were away. */
module ConvLog {
  import opened Common

  const MAX_BATCH_SIZE := 500
  const MAX_LOG_ENTRIES := 500_000
  const MAX_LOG_BYTES := 256 * 1024 * 1024
  const TIMESTAMP_BUCKET_MS := 60_000

  datatype Entry = Entry(seqNo: nat, blob: Bytes, enqueuedAt: nat)

  /** An attached socket and what its device received. `start` is the length of the log when
      it attached; `healthy` means that no frame meant for it was lost. */
  datatype Socket = Socket(since: nat, start: nat, inbox: seq<Entry>, healthy: bool)

  type SocketId = nat

  /** Whether the frame with this sequence number to this socket is lost. */
  type Losses = (SocketId, nat) -> bool

  datatype Log = Log(entries: seq<Entry>, lastSeq: nat, sockets: map<SocketId, Socket>)

  /** The request body; an element is `None` when it is not a base64 string. */
  datatype Body = NotJson | NotAnArray | Blobs(blobs: seq<Option<Bytes>>)

  /** The `since_seq` parameter as `Number` reads it; a fraction, an infinity or NaN is no integer. */
  datatype Since = Absent | NotAnInteger | Number(value: int)

  datatype Response = Created(seqs: seq<nat>) | Entries(entries: seq<Entry>) | Switching | Failed(status: int)

  function ParseSince(s: Since): Option<nat> {
    match s
    case Absent => Some(0)
    case NotAnInteger => None
    case Number(v) => if v < 0 then None else Some(v)
  }

  function BucketTimestamp(ms: nat): nat {
    ms / TIMESTAMP_BUCKET_MS * TIMESTAMP_BUCKET_MS
  }

  function TotalBytes(entries: seq<Entry>): nat {
    if entries == [] then 0 else TotalBytes(entries[..|entries| - 1]) + |entries[|entries| - 1].blob|
  }

  function BlobBytes(blobs: seq<Bytes>): nat {
    if blobs == [] then 0 else BlobBytes(blobs[..|blobs| - 1]) + |blobs[|blobs| - 1]|
  }

  /** The blobs of a well-formed body, or the status that refuses it. */
  function Checked(body: Body): Result<seq<Bytes>, int> {
    if !body.Blobs? || body.blobs == [] || |body.blobs| > MAX_BATCH_SIZE then Err(400)
    else if exists b | b in body.blobs :: b.None? || b.value == [] then Err(400)
    else Ok(Values(body.blobs))
  }

  function Values(blobs: seq<Option<Bytes>>): (r: seq<Bytes>)
    requires forall b | b in blobs :: b.Some?
    ensures |r| == |blobs| && forall i | 0 <= i < |r| :: Some(r[i]) == blobs[i]
  {
    if blobs == [] then [] else [blobs[0].value] + Values(blobs[1..])
  }

  predicate Fits(entries: seq<Entry>, blobs: seq<Bytes>) {
    |entries| + |blobs| <= MAX_LOG_ENTRIES && TotalBytes(entries) + BlobBytes(blobs) <= MAX_LOG_BYTES
  }

  function Rows(blobs: seq<Bytes>, lastSeq: nat, at: nat): (r: seq<Entry>)
    ensures |r| == |blobs| && forall i | 0 <= i < |r| :: r[i] == Entry(lastSeq + 1 + i, blobs[i], at)
  {
    seq(|blobs|, i requires 0 <= i < |blobs| => Entry(lastSeq + 1 + i, blobs[i], at))
  }

  /** The entries with a larger sequence number, in order. */
  function After(entries: seq<Entry>, since: nat): seq<Entry> {
    if entries == [] then [] else
    After(entries[..|entries| - 1], since) +
    if entries[|entries| - 1].seqNo > since then [entries[|entries| - 1]] else []
  }

  function Sent(s: Socket, id: SocketId, row: Entry, lost: Losses): Socket {
    if lost(id, row.seqNo) then s.(healthy := false) else s.(inbox := s.inbox + [row])
  }

  function SentAll(s: Socket, id: SocketId, rows: seq<Entry>, lost: Losses): Socket {
    if rows == [] then s else Sent(SentAll(s, id, rows[..|rows| - 1], lost), id, rows[|rows| - 1], lost)
  }

  function FannedOut(sockets: map<SocketId, Socket>, rows: seq<Entry>, lost: Losses): map<SocketId, Socket> {
    map id | id in sockets :: SentAll(sockets[id], id, rows, lost)
  }

  function Appended(log: Log, body: Body, now: nat, lost: Losses): (Log, Response) {
    match Checked(body)
    case Err(status) => (log, Failed(status))
    case Ok(blobs) =>
      if !Fits(log.entries, blobs) then (log, Failed(507)) else
      var rows := Rows(blobs, log.lastSeq, BucketTimestamp(now));
      (Log(log.entries + rows, log.lastSeq + |rows|, FannedOut(log.sockets, rows, lost)),
       Created(SeqNumbers(rows)))
  }

  function SeqNumbers(rows: seq<Entry>): seq<nat> {
    seq(|rows|, i requires 0 <= i < |rows| => rows[i].seqNo)
  }

  function Synced(log: Log, since: Since): Response {
    match ParseSince(since)
    case None => Failed(400)
    case Some(n) => Entries(After(log.entries, n))
  }

  /** A new socket; the backlog goes out at once, and a lost frame aborts the request. */
  function Subscribed(log: Log, id: SocketId, since: Since, sent: nat): (Log, Response) {
    var n := SinceOrStart(since);
    (log.(sockets := log.sockets[id := NewSocket(log.entries, n, sent)]),
     if sent < |After(log.entries, n)| then Failed(500) else Switching)
  }

  function SinceOrStart(since: Since): nat {
    if ParseSince(since).Some? then ParseSince(since).value else 0
  }

  function NewSocket(entries: seq<Entry>, n: nat, sent: nat): Socket {
    var backlog := After(entries, n);
    if sent < |backlog| then Socket(n, |entries|, backlog[..sent], false) else Socket(n, |entries|, backlog, true)
  }

  function Closed(log: Log, id: SocketId): Log {
    log.(sockets := log.sockets - {id})
  }

  // ---- The object -----------------------------------------------------------------

  class ConvLogDO {
    var entries: seq<Entry>
    /** The AUTOINCREMENT counter of the table. */
    var lastSeq: nat
    var sockets: map<SocketId, Socket>

    ghost function State(): Log
      reads this
    {
      Log(entries, lastSeq, sockets)
    }

    constructor ()
      ensures entries == [] && lastSeq == 0 && sockets == map[]
    {
      entries, lastSeq, sockets := [], 0, map[];
    }

    method HandleAppend(body: Body, now: nat, lost: Losses) returns (r: Response)
      modifies this
      ensures (State(), r) == Appended(old(State()), body, now, lost)
    {
      var blobs: seq<Bytes>;
      match body {
        case NotJson => return Failed(400);
        case NotAnArray => return Failed(400);
        case Blobs(raw) =>
          if |raw| == 0 || |raw| > MAX_BATCH_SIZE { return Failed(400); }
          if exists b | b in raw :: b.None? || b.value == [] { return Failed(400); }
          blobs := Values(raw);
      }
      if !Fits(entries, blobs) { return Failed(507); }

      var inserted := Insert(blobs, BucketTimestamp(now));
      FanOutAll(inserted, lost);
      return Created(SeqNumbers(inserted));
    }

    /** One row at a time, in the caller's order. */
    method Insert(blobs: seq<Bytes>, at: nat) returns (inserted: seq<Entry>)
      modifies this`entries, this`lastSeq
      ensures inserted == Rows(blobs, old(lastSeq), at)
      ensures entries == old(entries) + inserted && lastSeq == old(lastSeq) + |inserted|
    {
      inserted := [];
      for i := 0 to |blobs|
        invariant inserted == Rows(blobs, old(lastSeq), at)[..i]
        invariant entries == old(entries) + inserted && lastSeq == old(lastSeq) + i
      {
        lastSeq := lastSeq + 1;
        var row := Entry(lastSeq, blobs[i], at);
        entries := entries + [row];
        inserted := inserted + [row];
      }
    }

    method FanOutAll(rows: seq<Entry>, lost: Losses)
      modifies this`sockets
      ensures sockets == FannedOut(old(sockets), rows, lost)
    {
      for i := 0 to |rows|
        invariant sockets == FannedOut(old(sockets), rows[..i], lost)
      {
        FanOut(rows[i], lost);
        assert rows[..i + 1][..i] == rows[..i];
      }
      assert rows[..|rows|] == rows;
    }

    /** A lost frame does not stop the others. */
    method FanOut(row: Entry, lost: Losses)
      modifies this`sockets
      ensures sockets == map id | id in old(sockets) :: Sent(old(sockets)[id], id, row, lost)
    {
      var todo := sockets.Keys;
      while todo != {}
        invariant todo <= sockets.Keys == old(sockets).Keys
        invariant forall id | id in sockets ::
                    sockets[id] == if id in todo then old(sockets)[id] else Sent(old(sockets)[id], id, row, lost)
      {
        var id :| id in todo;
        sockets := sockets[id := Sent(sockets[id], id, row, lost)];
        todo := todo - {id};
      }
    }

    method HandleSync(since: Since) returns (r: Response)
      ensures r == Synced(State(), since)
    {
      var n := ParseSince(since);
      if n.None? { return Failed(400); }
      var rows := Select(n.value);
      return Entries(rows);
    }

    method Select(since: nat) returns (rows: seq<Entry>)
      ensures rows == After(entries, since)
    {
      rows := [];
      for i := 0 to |entries|
        invariant rows == After(entries[..i], since)
      {
        assert entries[..i + 1][..i] == entries[..i];
        if entries[i].seqNo > since { rows := rows + [entries[i]]; }
      }
      assert entries[..|entries|] == entries;
    }

    /** `sent` backlog frames go out before one is lost. */
    method HandleSubscribe(id: SocketId, since: Since, sent: nat) returns (r: Response)
      requires id !in sockets
      modifies this`sockets
      ensures (State(), r) == Subscribed(old(State()), id, since, sent)
    {
      var parsed := ParseSince(since);
      var n := if parsed.Some? then parsed.value else 0;
      sockets := sockets[id := Socket(n, |entries|, [], true)];
      var backlog := Select(n);
      for i := 0 to |backlog|
        invariant i <= sent
        invariant sockets == old(sockets)[id := Socket(n, |entries|, backlog[..i], true)]
      {
        if i == sent {
          sockets := sockets[id := sockets[id].(healthy := false)];
          assert sockets == old(sockets)[id := Socket(n, |entries|, backlog[..sent], false)];
          return Failed(500);
        }
        assert backlog[..i + 1] == backlog[..i] + [backlog[i]];
        sockets := sockets[id := sockets[id].(inbox := sockets[id].inbox + [backlog[i]])];
      }
      assert backlog[..|backlog|] == backlog;
      return Switching;
    }

    method WebSocketClose(id: SocketId)
      modifies this`sockets
      ensures State() == Closed(old(State()), id)
    {
      sockets := sockets - {id};
    }
  }

  // ---- Runs -----------------------------------------------------------------------

  datatype Event =
    | Append(body: Body, now: nat, lost: Losses)
    | Subscribe(id: SocketId, since: Since, sent: nat)
    | Close(id: SocketId)

  ghost predicate Allowed(log: Log, e: Event) {
    e.Subscribe? ==> e.id !in log.sockets
  }

  ghost function Step(log: Log, e: Event): Log {
    match e
    case Append(body, now, lost) => Appended(log, body, now, lost).0
    case Subscribe(id, since, sent) => Subscribed(log, id, since, sent).0
    case Close(id) => Closed(log, id)
  }

  ghost predicate AllowedRun(log: Log, run: seq<Event>)
    decreases |run|
  {
    run == [] || (Allowed(log, run[0]) && AllowedRun(Step(log, run[0]), run[1..]))
  }

  ghost function Run(log: Log, run: seq<Event>): Log
    decreases |run|
  {
    if run == [] then log else Run(Step(log, run[0]), run[1..])
  }

  function Min(a: nat, b: nat): nat {
    if a < b then a else b
  }

  ghost predicate Numbered(entries: seq<Entry>) {
    forall i | 0 <= i < |entries| :: entries[i].seqNo == i + 1
  }

  /** Frames that are entries of the log, in order, none twice, all numbered above `floor`. */
  ghost predicate InOrder(entries: seq<Entry>, inbox: seq<Entry>, floor: nat) {
    && (forall j | 0 <= j < |inbox| :: floor < inbox[j].seqNo <= |entries| && inbox[j] == entries[inbox[j].seqNo - 1])
    && (forall i, j | 0 <= i < j < |inbox| :: inbox[i].seqNo < inbox[j].seqNo)
  }

  ghost predicate SocketOk(entries: seq<Entry>, s: Socket) {
    && s.start <= |entries|
    && InOrder(entries, s.inbox, Min(s.since, s.start))
    && (s.healthy ==> s.inbox == entries[Min(s.since, s.start)..])
  }

  ghost predicate Valid(log: Log) {
    && Numbered(log.entries) && log.lastSeq == |log.entries| <= MAX_LOG_ENTRIES
    && TotalBytes(log.entries) <= MAX_LOG_BYTES
    && forall id | id in log.sockets :: SocketOk(log.entries, log.sockets[id])
  }

  lemma {:induction false} AfterIsSuffix(entries: seq<Entry>, since: nat)
    requires Numbered(entries)
    ensures After(entries, since) == entries[Min(since, |entries|)..]
  {
    if entries != [] {
      var k := |entries| - 1;
      AfterIsSuffix(entries[..k], since);
      assert entries[k].seqNo == k + 1 && entries == entries[..k] + [entries[k]];
      if since <= k {
        assert entries[since..] == entries[..k][since..] + [entries[k]];
      } else {
        assert entries[..k][k..] == [] && entries[k + 1..] == [];
      }
    }
  }

  lemma {:induction false} RowBytes(entries: seq<Entry>, blobs: seq<Bytes>, lastSeq: nat, at: nat)
    ensures TotalBytes(entries + Rows(blobs, lastSeq, at)) == TotalBytes(entries) + BlobBytes(blobs)
  {
    var rows := Rows(blobs, lastSeq, at);
    if blobs == [] {
      assert entries + rows == entries;
    } else {
      var k := |blobs| - 1;
      assert Rows(blobs[..k], lastSeq, at) == rows[..k];
      assert (entries + rows)[..|entries| + k] == entries + rows[..k];
      RowBytes(entries, blobs[..k], lastSeq, at);
    }
  }

  lemma RowArrives(entries: seq<Entry>, inbox: seq<Entry>, floor: nat, row: Entry)
    requires InOrder(entries, inbox, floor) && floor <= |entries| && row.seqNo == |entries| + 1
    ensures InOrder(entries + [row], inbox, floor)
    ensures InOrder(entries + [row], inbox + [row], floor)
  {
    forall j | 0 <= j < |inbox| ensures inbox[j] == (entries + [row])[inbox[j].seqNo - 1] {
      assert inbox[j] == entries[inbox[j].seqNo - 1];
    }
  }

  lemma OneSent(entries: seq<Entry>, s: Socket, id: SocketId, row: Entry, lost: Losses)
    requires SocketOk(entries, s) && row.seqNo == |entries| + 1
    ensures SocketOk(entries + [row], Sent(s, id, row, lost))
  {
    var floor := Min(s.since, s.start);
    RowArrives(entries, s.inbox, floor, row);
    assert (entries + [row])[floor..] == entries[floor..] + [row];
  }

  lemma SuffixInOrder(entries: seq<Entry>, floor: nat, n: nat)
    requires Numbered(entries) && floor + n <= |entries|
    ensures InOrder(entries, entries[floor..][..n], floor)
  {
    var inbox := entries[floor..][..n];
    assert forall j | 0 <= j < |inbox| :: inbox[j] == entries[floor + j] && inbox[j].seqNo == floor + j + 1;
  }

  lemma {:induction false} AllSent(entries: seq<Entry>, s: Socket, id: SocketId, rows: seq<Entry>, lost: Losses)
    requires Numbered(entries + rows) && SocketOk(entries, s)
    ensures SocketOk(entries + rows, SentAll(s, id, rows, lost))
  {
    if rows == [] {
      assert entries + rows == entries;
    } else {
      var k := |rows| - 1;
      assert entries + rows == (entries + rows[..k]) + [rows[k]];
      assert forall i | 0 <= i < |entries| + k :: (entries + rows[..k])[i] == (entries + rows)[i];
      AllSent(entries, s, id, rows[..k], lost);
      assert (entries + rows)[|entries| + k] == rows[k];
      OneSent(entries + rows[..k], SentAll(s, id, rows[..k], lost), id, rows[k], lost);
    }
  }

  lemma AppendKeeps(log: Log, body: Body, now: nat, lost: Losses)
    requires Valid(log)
    ensures Valid(Appended(log, body, now, lost).0)
  {
    var log' := Appended(log, body, now, lost).0;
    if Checked(body).Ok? && Fits(log.entries, Checked(body).value) {
      var blobs := Checked(body).value;
      var rows := Rows(blobs, log.lastSeq, BucketTimestamp(now));
      RowBytes(log.entries, blobs, log.lastSeq, BucketTimestamp(now));
      forall id | id in log'.sockets ensures SocketOk(log'.entries, log'.sockets[id]) {
        AllSent(log.entries, log.sockets[id], id, rows, lost);
      }
    }
  }

  lemma NewSocketOk(entries: seq<Entry>, n: nat, sent: nat)
    requires Numbered(entries)
    ensures SocketOk(entries, NewSocket(entries, n, sent))
  {
    AfterIsSuffix(entries, n);
    var backlog := entries[Min(n, |entries|)..];
    SuffixInOrder(entries, Min(n, |entries|), |backlog|);
    assert backlog[..|backlog|] == backlog;
    if sent < |backlog| { SuffixInOrder(entries, Min(n, |entries|), sent); }
  }

  lemma SubscribeKeeps(log: Log, id: SocketId, since: Since, sent: nat)
    requires Valid(log)
    ensures Valid(Subscribed(log, id, since, sent).0)
  {
    NewSocketOk(log.entries, SinceOrStart(since), sent);
  }

  lemma {:induction false} RunKeeps(log: Log, run: seq<Event>)
    requires Valid(log) && AllowedRun(log, run)
    ensures Valid(Run(log, run)) && log.entries <= Run(log, run).entries
    decreases |run|
  {
    if run != [] {
      match run[0] {
        case Append(body, now, lost) => AppendKeeps(log, body, now, lost);
        case Subscribe(id, since, sent) => SubscribeKeeps(log, id, since, sent);
        case Close(_) =>
      }
      RunKeeps(Step(log, run[0]), run[1..]);
    }
  }

  const EMPTY := Log([], 0, map[])

  /** Both ceilings hold in every reachable log, and the rows are numbered 1, 2, 3 … */
  lemma CeilingsHold(run: seq<Event>)
    requires AllowedRun(EMPTY, run)
    ensures var log := Run(EMPTY, run);
            Numbered(log.entries) && |log.entries| <= MAX_LOG_ENTRIES && TotalBytes(log.entries) <= MAX_LOG_BYTES
  {
    RunKeeps(EMPTY, run);
  }

  /** What a device has received, after any run. Frames never come out of order, twice or
      altered; and if none was lost they are exactly the entries after `since_seq`, if and
      only if the log had grown that far when the device attached, or not grown since. */
  lemma Delivery(run: seq<Event>, id: SocketId)
    requires AllowedRun(EMPTY, run) && id in Run(EMPTY, run).sockets
    ensures var log := Run(EMPTY, run);
            var s := log.sockets[id];
            && InOrder(log.entries, s.inbox, Min(s.since, s.start))
            && (s.healthy ==> s.inbox == After(log.entries, Min(s.since, s.start)))
            && (s.healthy ==> (s.inbox == After(log.entries, s.since) <==> s.since <= s.start || |log.entries| == s.start))
  {
    RunKeeps(EMPTY, run);
    var log := Run(EMPTY, run);
    var s := log.sockets[id];
    AfterIsSuffix(log.entries, s.since);
    AfterIsSuffix(log.entries, Min(s.since, s.start));
  }

  /** A batch is stored whole, in order and numbered without gap, or not at all. */
  lemma BatchWholeOrNot(log: Log, body: Body, now: nat, lost: Losses)
    requires Valid(log)
    ensures var (log', r) := Appended(log, body, now, lost);
            match Checked(body)
            case Err(status) => log' == log && r == Failed(400) && status == 400
            case Ok(blobs) =>
              && (r.Created? <==> |log.entries| + |blobs| <= MAX_LOG_ENTRIES && TotalBytes(log.entries) + BlobBytes(blobs) <= MAX_LOG_BYTES)
              && (!r.Created? ==> log' == log && r == Failed(507))
              && (r.Created? ==>
                    && 1 <= |blobs| <= MAX_BATCH_SIZE
                    && log.entries <= log'.entries && |log'.entries| == |log.entries| + |blobs| && |r.seqs| == |blobs|
                    && (forall i | 0 <= i < |blobs| ::
                          && r.seqs[i] == |log.entries| + i + 1 && blobs[i] != []
                          && log'.entries[|log.entries| + i].blob == blobs[i]
                          && var at := log'.entries[|log.entries| + i].enqueuedAt; at <= now < at + TIMESTAMP_BUCKET_MS))
  {
    if Checked(body).Ok? {
      assert forall i | 0 <= i < |body.blobs| :: body.blobs[i] in body.blobs;
    }
  }

  // ---- Coming back ----------------------------------------------------------------

  function LastSeq(inbox: seq<Entry>): nat {
    if inbox == [] then 0 else inbox[|inbox| - 1].seqNo
  }

  lemma {:induction false} SpreadOut(entries: seq<Entry>, inbox: seq<Entry>, j: nat)
    requires InOrder(entries, inbox, 0) && j < |inbox|
    ensures inbox[j].seqNo >= j + 1
    ensures LastSeq(inbox) - inbox[j].seqNo >= |inbox| - 1 - j
    decreases |inbox| - j
  {
    if j > 0 { SpreadBack(entries, inbox, j); }
    if j + 1 < |inbox| { SpreadOut(entries, inbox, j + 1); }
  }

  lemma {:induction false} SpreadBack(entries: seq<Entry>, inbox: seq<Entry>, j: nat)
    requires InOrder(entries, inbox, 0) && j < |inbox|
    ensures inbox[j].seqNo >= j + 1
  {
    if j > 0 { SpreadBack(entries, inbox, j - 1); }
  }

  /** A device that asks again from the last number it saw completes the log if and only if
      it has seen as many frames as that number says: a frame lost before a later one
      arrived is never sent again. */
  lemma Resume(log: Log, inbox: seq<Entry>)
    requires Valid(log) && InOrder(log.entries, inbox, 0)
    ensures inbox + After(log.entries, LastSeq(inbox)) == log.entries <==> |inbox| == LastSeq(inbox)
  {
    hide After, TotalBytes, SocketOk;
    var last := LastSeq(inbox);
    AfterIsSuffix(log.entries, last);
    if |inbox| == last {
      forall j | 0 <= j < |inbox| ensures inbox[j] == log.entries[j] { SpreadOut(log.entries, inbox, j); }
      assert inbox == log.entries[..last];
    } else {
      assert last <= |log.entries|;
      assert |inbox + log.entries[last..]| != |log.entries|;
    }
  }

  // ---- One device over many sessions ----------------------------------------------

  /** While the device is away, `away` happens; it then attaches with the last number it saw,
      `sent` backlog frames reach it, and `attached` happens until it goes away again. */
  datatype Session = Session(away: seq<Event>, id: SocketId, sent: nat, attached: seq<Event>)

  ghost function Opened(log: Log, collected: seq<Entry>, s: Session): Log {
    Subscribed(Run(log, s.away), s.id, Number(LastSeq(collected)), s.sent).0
  }

  ghost function Ended(log: Log, collected: seq<Entry>, s: Session): Log {
    Run(Opened(log, collected, s), s.attached)
  }

  ghost predicate IsSession(log: Log, collected: seq<Entry>, s: Session) {
    && AllowedRun(log, s.away) && s.id !in Run(log, s.away).sockets
    && AllowedRun(Opened(log, collected, s), s.attached) && Close(s.id) !in s.attached
  }

  lemma {:induction false} SentAllKeeps(s: Socket, id: SocketId, rows: seq<Entry>, lost: Losses)
    ensures var s' := SentAll(s, id, rows, lost); s'.since == s.since && s'.start == s.start
  {
    if rows != [] { SentAllKeeps(s, id, rows[..|rows| - 1], lost); }
  }

  lemma SocketStep(log: Log, e: Event, id: SocketId)
    requires Allowed(log, e) && id in log.sockets && e != Close(id)
    ensures var log' := Step(log, e);
            id in log'.sockets && log'.sockets[id].since == log.sockets[id].since && log'.sockets[id].start == log.sockets[id].start
  {
    hide SentAll, After, NewSocket, Rows;
    if e.Append? && Checked(e.body).Ok? {
      SentAllKeeps(log.sockets[id], id, Rows(Checked(e.body).value, log.lastSeq, BucketTimestamp(e.now)), e.lost);
    }
  }

  lemma {:induction false} SocketStays(log: Log, run: seq<Event>, id: SocketId)
    requires AllowedRun(log, run) && id in log.sockets && Close(id) !in run
    ensures var log' := Run(log, run);
            id in log'.sockets && log'.sockets[id].since == log.sockets[id].since && log'.sockets[id].start == log.sockets[id].start
    decreases |run|
  {
    hide Step, Allowed;
    if run != [] {
      SocketStep(log, run[0], id);
      SocketStays(Step(log, run[0]), run[1..], id);
    }
  }

  /** What the device has once the session is over. */
  ghost function Collected(log: Log, collected: seq<Entry>, s: Session): seq<Entry>
    requires IsSession(log, collected, s)
  {
    SocketStays(Opened(log, collected, s), s.attached, s.id);
    collected + Ended(log, collected, s).sockets[s.id].inbox
  }

  /** No frame of the session was lost. */
  ghost predicate LossFree(log: Log, collected: seq<Entry>, s: Session)
    requires IsSession(log, collected, s)
  {
    SocketStays(Opened(log, collected, s), s.attached, s.id);
    Ended(log, collected, s).sockets[s.id].healthy
  }

  lemma {:induction false} LastBound(entries: seq<Entry>, inbox: seq<Entry>)
    requires InOrder(entries, inbox, 0)
    ensures LastSeq(inbox) <= |entries|
  {
    assert inbox != [] ==> inbox[|inbox| - 1].seqNo <= |entries|;
  }

  lemma Joined(was: seq<Entry>, entries: seq<Entry>, collected: seq<Entry>, inbox: seq<Entry>)
    requires was <= entries && InOrder(was, collected, 0) && InOrder(entries, inbox, LastSeq(collected))
    ensures InOrder(entries, collected + inbox, 0)
  {
    var all := collected + inbox;
    forall j | 0 <= j < |all| ensures 0 < all[j].seqNo <= |entries| && all[j] == entries[all[j].seqNo - 1] {
      if j < |collected| { assert collected[j] == was[collected[j].seqNo - 1]; }
    }
    forall i, j | 0 <= i < j < |all| ensures all[i].seqNo < all[j].seqNo {
      if i < |collected| <= j { UpToLast(was, collected, i); }
    }
  }

  lemma UpToLast(entries: seq<Entry>, inbox: seq<Entry>, i: nat)
    requires InOrder(entries, inbox, 0) && i < |inbox|
    ensures inbox[i].seqNo <= LastSeq(inbox)
  {
  }

  /** The socket of a session at its end: it was opened at a number within the log. */
  lemma SessionSocket(log: Log, collected: seq<Entry>, s: Session)
    requires Valid(log) && InOrder(log.entries, collected, 0) && IsSession(log, collected, s)
    ensures var log' := Ended(log, collected, s);
            && Valid(log') && log.entries <= log'.entries && s.id in log'.sockets
            && SocketOk(log'.entries, log'.sockets[s.id])
            && log'.sockets[s.id].since == LastSeq(collected) <= log'.sockets[s.id].start
  {
    RunKeeps(log, s.away);
    LastBound(log.entries, collected);
    var begun := Opened(log, collected, s);
    SubscribeKeeps(Run(log, s.away), s.id, Number(LastSeq(collected)), s.sent);
    RunKeeps(begun, s.attached);
    SocketStays(begun, s.attached, s.id);
  }

  lemma OneSession(log: Log, collected: seq<Entry>, s: Session)
    requires Valid(log) && InOrder(log.entries, collected, 0) && IsSession(log, collected, s)
    ensures var log', all := Ended(log, collected, s), Collected(log, collected, s);
            && Valid(log') && InOrder(log'.entries, all, 0)
            && (LossFree(log, collected, s) && |collected| == LastSeq(collected) ==> all == log'.entries)
  {
    SessionSocket(log, collected, s);
    hide Valid, Opened, Ended, IsSession;
    var log' := Ended(log, collected, s);
    Joined(log.entries, log'.entries, collected, log'.sockets[s.id].inbox);
    if LossFree(log, collected, s) && |collected| == LastSeq(collected) {
      Complete(log.entries, log'.entries, collected);
    }
  }

  lemma Complete(was: seq<Entry>, entries: seq<Entry>, collected: seq<Entry>)
    requires was <= entries && InOrder(was, collected, 0) && |collected| == LastSeq(collected) <= |entries|
    ensures collected + entries[LastSeq(collected)..] == entries
  {
    forall j | 0 <= j < |collected| ensures collected[j] == entries[j] {
      SpreadOut(was, collected, j);
      assert collected[j] == was[collected[j].seqNo - 1];
    }
  }

  ghost predicate AreSessions(log: Log, collected: seq<Entry>, ss: seq<Session>)
    decreases |ss|
  {
    ss == [] || (IsSession(log, collected, ss[0])
                 && AreSessions(Ended(log, collected, ss[0]), Collected(log, collected, ss[0]), ss[1..]))
  }

  ghost function AfterSessions(log: Log, collected: seq<Entry>, ss: seq<Session>): (Log, seq<Entry>)
    requires AreSessions(log, collected, ss)
    decreases |ss|
  {
    if ss == [] then (log, collected) else
    AfterSessions(Ended(log, collected, ss[0]), Collected(log, collected, ss[0]), ss[1..])
  }

  ghost predicate AllLossFree(log: Log, collected: seq<Entry>, ss: seq<Session>)
    requires AreSessions(log, collected, ss)
    decreases |ss|
  {
    ss == [] || (LossFree(log, collected, ss[0])
                 && AllLossFree(Ended(log, collected, ss[0]), Collected(log, collected, ss[0]), ss[1..]))
  }

  lemma {:induction false} SessionsKeep(log: Log, collected: seq<Entry>, ss: seq<Session>)
    requires Valid(log) && InOrder(log.entries, collected, 0) && AreSessions(log, collected, ss)
    ensures var (log', all) := AfterSessions(log, collected, ss);
            && Valid(log') && InOrder(log'.entries, all, 0)
            && (AllLossFree(log, collected, ss) && (ss == [] ==> collected == log.entries) && |collected| == LastSeq(collected)
                ==> all == log'.entries)
    decreases |ss|
  {
    hide Valid, InOrder, IsSession, Ended, LossFree;
    if ss != [] {
      OneSession(log, collected, ss[0]);
      var log1, all1 := Ended(log, collected, ss[0]), Collected(log, collected, ss[0]);
      if all1 == log1.entries { NumberedToTheEnd(log1); }
      SessionsKeep(log1, all1, ss[1..]);
    }
  }

  lemma NumberedToTheEnd(log: Log)
    requires Valid(log)
    ensures |log.entries| == LastSeq(log.entries)
  {
  }

  /** A device over any number of sessions, each opened with the last number it saw, while
      the log goes on in between. What it has is always in order and unaltered; it is the log
      up to its last number if and only if it has as many frames as that number says; and if
      no frame of any session was lost it has rebuilt the whole log. */
  lemma ReconnectRebuilds(ss: seq<Session>)
    requires AreSessions(EMPTY, [], ss)
    ensures var (log, all) := AfterSessions(EMPTY, [], ss);
            && InOrder(log.entries, all, 0)
            && (LastSeq(all) <= |log.entries| && all == log.entries[..LastSeq(all)] <==> |all| == LastSeq(all))
            && (AllLossFree(EMPTY, [], ss) ==> all == log.entries)
  {
    hide InOrder, Valid, LastSeq;
    NothingYet();
    SessionsKeep(EMPTY, [], ss);
    var (log, all) := AfterSessions(EMPTY, [], ss);
    GapFree(log.entries, all);
  }

  lemma NothingYet()
    ensures Valid(EMPTY) && InOrder(EMPTY.entries, [], 0) && LastSeq([]) == 0
  {
  }

  lemma GapFree(entries: seq<Entry>, all: seq<Entry>)
    requires InOrder(entries, all, 0)
    ensures LastSeq(all) <= |entries| && (all == entries[..LastSeq(all)] <==> |all| == LastSeq(all))
  {
    LastBound(entries, all);
    if |all| == LastSeq(all) {
      forall j | 0 <= j < |all| ensures all[j] == entries[j] { SpreadOut(entries, all, j); }
    }
  }

  // ---- Where it does fail ---------------------------------------------------------

  lemma TwoSteps(log: Log, a: Event, b: Event)
    requires Allowed(log, a) && Allowed(Step(log, a), b)
    ensures AllowedRun(log, [a, b]) && Run(log, [a, b]) == Step(Step(log, a), b)
  {
    hide Step, Allowed;
    OneEvent(Step(log, a), b, []);
    OneEvent(log, a, [b] + []);
    assert [b] + [] == [b] && [a] + [b] == [a, b];
  }

  lemma OneEvent(log: Log, e: Event, rest: seq<Event>)
    requires Allowed(log, e) && AllowedRun(Step(log, e), rest)
    ensures AllowedRun(log, [e] + rest) && Run(log, [e] + rest) == Run(Step(log, e), rest)
  {
    hide Step, Allowed;
    assert ([e] + rest)[1..] == rest;
  }

  function OneBlob(b: byte): Body {
    Blobs([Some([b])])
  }

  /** One small blob is always stored while there is room. */
  lemma StoresOne(log: Log, b: byte, now: nat, lost: Losses)
    requires |log.entries| <= 1 && TotalBytes(log.entries) <= 1
    ensures var log' := Step(log, Append(OneBlob(b), now, lost));
            && |log'.entries| == |log.entries| + 1 && TotalBytes(log'.entries) == TotalBytes(log.entries) + 1
            && log'.lastSeq == log.lastSeq + 1
            && log'.entries[|log.entries|].seqNo == log.lastSeq + 1
            && log'.sockets == map id | id in log.sockets :: Sent(log.sockets[id], id, log'.entries[|log.entries|], lost)
  {
    var blobs: seq<Bytes> := [[b]];
    assert Values([Some([b])]) == blobs by { assert [Some([b])][1..] == []; }
    assert Checked(OneBlob(b)) == Ok(blobs);
    assert blobs[..0] == [] && BlobBytes(blobs) == 1;
    var row := Entry(log.lastSeq + 1, [b], BucketTimestamp(now));
    assert Rows(blobs, log.lastSeq, BucketTimestamp(now)) == [row];
    RowBytes(log.entries, blobs, log.lastSeq, BucketTimestamp(now));
    forall id | id in log.sockets ensures SentAll(log.sockets[id], id, [row], lost) == Sent(log.sockets[id], id, row, lost) {
      SentOnly(log.sockets[id], id, row, lost);
    }
    assert FannedOut(log.sockets, [row], lost) == map id | id in log.sockets :: Sent(log.sockets[id], id, row, lost);
    assert Step(log, Append(OneBlob(b), now, lost)).entries == log.entries + [row];
  }

  lemma SentOnly(s: Socket, id: SocketId, row: Entry, lost: Losses)
    ensures SentAll(s, id, [row], lost) == Sent(s, id, row, lost)
  {
    assert [row][..0] == [];
  }

  /** A device that asks for a number the log has not reached does receive entries up to it. */
  lemma BeyondTheLog(b: byte, now: nat) returns (run: seq<Event>)
    ensures AllowedRun(EMPTY, run) && 0 in Run(EMPTY, run).sockets
    ensures var log := Run(EMPTY, run);
            var s := log.sockets[0];
            s.healthy && s.inbox == log.entries && |s.inbox| == 1 && s.inbox != After(log.entries, s.since)
  {
    var ask, append := Subscribe(0, Number(5), 0), Append(OneBlob(b), now, (_, _) => false);
    run := [ask, append];
    var log := Step(EMPTY, ask);
    assert log.sockets == map[0 := Socket(5, 0, [], true)];
    StoresOne(log, b, now, (_, _) => false);
    TwoSteps(EMPTY, ask, append);
    Delivery(run, 0);
  }

  /** A device can lose a frame and receive the next: what it has is then not the log up to
      the last number it saw, and asking again from that number does not mend it. */
  lemma GapHappens(b: byte, now: nat) returns (run: seq<Event>)
    ensures AllowedRun(EMPTY, run) && 0 in Run(EMPTY, run).sockets
    ensures var log := Run(EMPTY, run);
            var inbox := log.sockets[0].inbox;
            && |inbox| == 1 && LastSeq(inbox) == 2 == |log.entries|
            && inbox + After(log.entries, LastSeq(inbox)) != log.entries
  {
    var ask := Subscribe(0, Absent, 0);
    var first, second := Append(OneBlob(b), now, (_, seqNo) => seqNo == 1), Append(OneBlob(b), now, (_, seqNo) => seqNo == 1);
    var log0 := Step(EMPTY, ask);
    assert log0.sockets == map[0 := Socket(0, 0, [], true)];
    StoresOne(log0, b, now, (_, seqNo) => seqNo == 1);
    var log1 := Step(log0, first);
    StoresOne(log1, b, now, (_, seqNo) => seqNo == 1);
    var log2 := Step(log1, second);
    run := [ask, first, second];
    TwoSteps(log0, first, second);
    assert run[1..] == [first, second];
    RunKeeps(EMPTY, run);
    assert log1.sockets[0] == Socket(0, 0, [], false);
    assert log2.sockets[0].inbox == [log2.entries[1]];
    Resume(log2, log2.sockets[0].inbox);
  }
}
