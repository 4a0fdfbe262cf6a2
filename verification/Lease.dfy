/** One writer device per account: a single lease row, granted for a fixed time, renewed by
    its holder and released early only by its holder. */
module Lease {
  import opened Common

  const LEASE_TTL_MS: nat := 45 * 1000

  type Device = string

  datatype Row = Row(holder: Device, expiresAt: nat)

  datatype Response =
    | Granted(expiresAt: nat)
    | Held(holder: Device, expiresAt: nat)
    | BadRequest
    | NoContent

  function Current(row: Option<Row>, now: nat): Option<Row> {
    if row.Some? && row.value.expiresAt <= now then None else row
  }

  /** `device` is none when the body is not JSON or names no string. The clock is read
      twice: for the check, then for the grant. */
  function Acquired(row: Option<Row>, device: Option<Device>, checked: nat, granted: nat): (Option<Row>, Response) {
    if device.None? || device.value == "" then (row, BadRequest) else
    var current := Current(row, checked);
    if current.Some? && current.value.holder != device.value then (row, Held(current.value.holder, current.value.expiresAt)) else
    (Some(Row(device.value, granted + LEASE_TTL_MS)), Granted(granted + LEASE_TTL_MS))
  }

  function Released(row: Option<Row>, device: Option<Device>, now: nat): Option<Row> {
    var current := Current(row, now);
    if current.Some? && device == Some(current.value.holder) then None else row
  }

  function AlarmRun(row: Option<Row>, now: nat): Option<Row> {
    if row.Some? && row.value.expiresAt <= now then None else row
  }

  class DeviceLeaseDO {
    var lease: Option<Row>
    var alarm: Option<nat>

    constructor ()
      ensures lease == None && alarm == None
    {
      lease, alarm := None, None;
    }

    method CurrentLease(now: nat) returns (row: Option<Row>)
      ensures row == Current(lease, now)
    {
      row := lease;
      if row.Some? && row.value.expiresAt <= now { return None; }
    }

    method HandleAcquire(device: Option<Device>, checked: nat, granted: nat) returns (r: Response)
      modifies this
      ensures (lease, r) == Acquired(old(lease), device, checked, granted)
      ensures alarm == if r.Granted? then Some(r.expiresAt) else old(alarm)
    {
      if device.None? || device.value == "" { return BadRequest; }
      var current := CurrentLease(checked);
      if current.Some? && current.value.holder != device.value {
        return Held(current.value.holder, current.value.expiresAt);
      }
      var expiresAt := granted + LEASE_TTL_MS;
      lease := Some(Row(device.value, expiresAt));
      alarm := Some(expiresAt);
      return Granted(expiresAt);
    }

    /** `json` says whether the body is JSON at all. */
    method HandleRelease(json: bool, device: Option<Device>, now: nat) returns (r: Response)
      modifies this`lease
      ensures lease == if json then Released(old(lease), device, now) else old(lease)
      ensures r == if json then NoContent else BadRequest
    {
      if !json { return BadRequest; }
      var current := CurrentLease(now);
      if current.Some? && device == Some(current.value.holder) { lease := None; }
      return NoContent;
    }

    method Alarm(now: nat)
      modifies this`lease
      ensures lease == AlarmRun(old(lease), now)
    {
      if lease.Some? && lease.value.expiresAt <= now { lease := None; }
    }
  }

  // ---- Runs -----------------------------------------------------------------------

  /** A time during which a device was told it holds the lease. */
  datatype Interval = Interval(device: Device, start: nat, end: nat)

  datatype Event =
    | Acquire(device: Option<Device>, checked: nat, granted: nat)
    | Release(device: Option<Device>, at: nat)
    | Alarm(at: nat)

  /** The row, the clock, and every grant so far. */
  datatype World = World(row: Option<Row>, clock: nat, grants: seq<Interval>)

  /** The clock never goes back; an alarm may fire at any time. */
  predicate Allowed(w: World, e: Event) {
    match e
    case Acquire(_, checked, granted) => w.clock <= checked <= granted
    case Release(_, at) => w.clock <= at
    case Alarm(at) => w.clock <= at
  }

  /** A device that releases knows from then on that it holds nothing. */
  function Cut(grants: seq<Interval>, device: Option<Device>, at: nat): (r: seq<Interval>)
    ensures |r| == |grants|
    ensures forall i | 0 <= i < |r| :: r[i].device == grants[i].device && r[i].start == grants[i].start
    ensures forall i | 0 <= i < |r| :: r[i].end == if device == Some(grants[i].device) && at < grants[i].end then at else grants[i].end
  {
    seq(|grants|, i requires 0 <= i < |grants| =>
      if device == Some(grants[i].device) && at < grants[i].end then grants[i].(end := at) else grants[i])
  }

  function Step(w: World, e: Event): World {
    match e
    case Acquire(device, checked, granted) =>
      var (row, r) := Acquired(w.row, device, checked, granted);
      World(row, granted, if r.Granted? then w.grants + [Interval(device.value, granted, r.expiresAt)] else w.grants)
    case Release(device, at) => World(Released(w.row, device, at), at, Cut(w.grants, device, at))
    case Alarm(at) => World(AlarmRun(w.row, at), at, w.grants)
  }

  predicate AllowedRun(w: World, run: seq<Event>)
    decreases |run|
  {
    run == [] || (Allowed(w, run[0]) && AllowedRun(Step(w, run[0]), run[1..]))
  }

  function Run(w: World, run: seq<Event>): World
    decreases |run|
  {
    if run == [] then w else Run(Step(w, run[0]), run[1..])
  }

  const START := World(None, 0, [])

  predicate Apart(a: Interval, b: Interval) {
    a.device != b.device ==> a.end <= b.start || b.end <= a.start
  }

  /** The row is the grant of its holder that ends when the row expires. */
  ghost predicate Backed(row: Row, grants: seq<Interval>) {
    exists g :: g in grants && g.device == row.holder && g.end == row.expiresAt
  }

  /** A grant still running is the row's, and ends no later; grants of two devices are apart. */
  ghost predicate Inv(w: World) {
    && (forall g | g in w.grants && g.end > w.clock ::
          w.row.Some? && w.row.value.holder == g.device && g.end <= w.row.value.expiresAt)
    && (forall g | g in w.grants :: g.start <= w.clock)
    && (w.row.Some? ==> w.row.value.expiresAt <= w.clock + LEASE_TTL_MS && Backed(w.row.value, w.grants))
    && (forall i, j | 0 <= i < j < |w.grants| :: Apart(w.grants[i], w.grants[j]))
  }

  lemma ReleaseKeeps(w: World, device: Option<Device>, at: nat)
    requires Inv(w) && w.clock <= at
    ensures Inv(World(Released(w.row, device, at), at, Cut(w.grants, device, at)))
  {
    var row, grants := Released(w.row, device, at), Cut(w.grants, device, at);
    ReleaseBacked(w, device, at);
    forall g | g in grants
      ensures g.start <= at
      ensures g.end > at ==> row.Some? && row.value.holder == g.device && g.end <= row.value.expiresAt
    {
      var i :| 0 <= i < |grants| && grants[i] == g;
      var was := w.grants[i];
      assert was in w.grants && g.device == was.device && g.end <= was.end;
      assert g.end > at ==> device != Some(was.device) && was.end > w.clock;
    }
    forall i, j | 0 <= i < j < |grants| ensures Apart(grants[i], grants[j]) {
      assert Apart(w.grants[i], w.grants[j]);
    }
  }

  lemma AcquireBacked(w: World, device: Option<Device>, checked: nat, granted: nat)
    requires Inv(w) && Allowed(w, Acquire(device, checked, granted))
    ensures var w' := Step(w, Acquire(device, checked, granted)); w'.row.Some? ==> Backed(w'.row.value, w'.grants)
  {
    var w' := Step(w, Acquire(device, checked, granted));
    if Acquired(w.row, device, checked, granted).1.Granted? {
      var g := w'.grants[|w'.grants| - 1];
      assert g in w'.grants && g.device == w'.row.value.holder && g.end == w'.row.value.expiresAt;
    }
  }

  lemma ReleaseBacked(w: World, device: Option<Device>, at: nat)
    requires Inv(w) && w.clock <= at
    ensures var row := Released(w.row, device, at); row.Some? ==> Backed(row.value, Cut(w.grants, device, at))
  {
    var row, grants := Released(w.row, device, at), Cut(w.grants, device, at);
    if row.Some? {
      var g :| g in w.grants && g.device == row.value.holder && g.end == row.value.expiresAt;
      var i :| 0 <= i < |w.grants| && w.grants[i] == g;
      assert device == Some(g.device) ==> g.end <= at;
      assert grants[i] in grants && grants[i].device == g.device && grants[i].end == g.end;
    }
  }

  lemma StepKeeps(w: World, e: Event)
    requires Inv(w) && Allowed(w, e)
    ensures Inv(Step(w, e))
  {
    var w' := Step(w, e);
    match e
    case Acquire(device, checked, granted) =>
      AcquireBacked(w, device, checked, granted);
      forall g | g in w'.grants && g.end > w'.clock
        ensures w'.row.Some? && w'.row.value.holder == g.device && g.end <= w'.row.value.expiresAt
      {
        if g in w.grants { assert g.end > w.clock; }
      }
    case Release(device, at) =>
      ReleaseKeeps(w, device, at);
    case Alarm(at) =>
  }

  lemma {:induction false} RunKeeps(w: World, run: seq<Event>)
    requires Inv(w) && AllowedRun(w, run)
    ensures Inv(Run(w, run))
    decreases |run|
  {
    if run != [] {
      StepKeeps(w, run[0]);
      RunKeeps(Step(w, run[0]), run[1..]);
    }
  }

  /** Whatever the order of requests and alarms, the times granted to two devices, each cut
      short by its own release only, never overlap. */
  lemma MutualExclusion(run: seq<Event>, t: nat, a: Interval, b: Interval)
    requires AllowedRun(START, run)
    requires a in Run(START, run).grants && b in Run(START, run).grants
    requires a.start <= t < a.end && b.start <= t < b.end
    ensures a.device == b.device
  {
    RunKeeps(START, run);
    var grants := Run(START, run).grants;
    var i :| 0 <= i < |grants| && grants[i] == a;
    var j :| 0 <= j < |grants| && grants[j] == b;
    assert i < j ==> Apart(grants[i], grants[j]);
    assert j < i ==> Apart(grants[j], grants[i]);
  }

  /** What a request meets after any run: it is granted exactly when no grant of another
      device is still running, so whoever asks once every grant has ended has the lease for
      45 seconds; a refusal names the device whose grant is running and leaves the row, which
      also survives any alarm. */
  lemma LeaseOutcome(run: seq<Event>, device: Device, checked: nat, granted: nat)
    requires AllowedRun(START, run) && device != "" && Run(START, run).clock <= checked <= granted
    ensures var w := Run(START, run);
            var (row, r) := Acquired(w.row, Some(device), checked, granted);
            && (forall g | g in w.grants && g.end > checked && g.device != device :: r.Held? && r.holder == g.device && row == w.row)
            && (forall g | g in w.grants && g.end > checked :: AlarmRun(w.row, checked) == w.row)
            && (r.Granted? <==> forall g | g in w.grants && g.end > checked :: g.device == device)
            && (r.Granted? ==> r.expiresAt == granted + LEASE_TTL_MS)
            && (!r.Granted? ==> r.Held? && exists g :: g in w.grants && g.device == r.holder && g.end == r.expiresAt > checked)
            && (r.Granted? ==> forall t | granted <= t < granted + LEASE_TTL_MS ::
                  Current(row, t) == Some(Row(device, granted + LEASE_TTL_MS)))
  {
    RunKeeps(START, run);
  }

  /** A request that names no device is refused; one that does is served, and either way the
      row is that of the holder told. A release ends the lease exactly when the holder makes
      it in time, an alarm exactly when it has run out. */
  lemma RowOutcome(row: Option<Row>, device: Option<Device>, checked: nat, granted: nat)
    ensures var live := row.Some? && row.value.expiresAt > checked;
            var (row', r) := Acquired(row, device, checked, granted);
            && (r == BadRequest <==> device.None? || |device.value| == 0) && (r == BadRequest ==> row' == row)
            && (r.Granted? <==> r != BadRequest && (live ==> row.value.holder == device.value))
            && (r.Granted? ==> r.expiresAt == granted + 45_000 && row' == Some(Row(device.value, granted + 45_000)))
            && (r.Held? <==> r != BadRequest && live && row.value.holder != device.value)
            && (r.Held? ==> r == Held(row.value.holder, row.value.expiresAt) && row' == row)
            && Released(row, device, checked) == (if live && device == Some(row.value.holder) then None else row)
            && AlarmRun(row, checked) == (if live then row else None)
  {
  }

  /** After any run, once the clock has passed every grant an alarm leaves no row behind. */
  lemma AlarmClears(run: seq<Event>, at: nat)
    requires AllowedRun(START, run) && Run(START, run).clock <= at
    requires forall g | g in Run(START, run).grants :: g.end <= at
    ensures AlarmRun(Run(START, run).row, at) == None
  {
    RunKeeps(START, run);
  }
}
