/**
 The incident of one fingerprint: how a detection plans its change, what it is told to raise,
 and how the row evolves when workers' reads and upserts interleave with operators.
 */
module Incidents {
  import opened Wrappers

  datatype Severity = LOW | MEDIUM | HIGH | CRITICAL
  datatype Status = OPEN | ACKNOWLEDGED | RESOLVED
  datatype EventType = CREATED | UPDATED | STATUS_CHANGED
  datatype Trigger = RaiseCreated | RaiseSeverityIncreased | RaiseReopened

  function Rank(s: Severity): nat {
    match s
    case LOW => 1
    case MEDIUM => 2
    case HIGH => 3
    case CRITICAL => 4
  }

  predicate IsSeverityIncrease(previous: Severity, next: Severity) {
    Rank(next) > Rank(previous)
  }

  /** The severities from the least to the greatest, and what counts as an increase. */
  lemma SeverityOrder(i: nat, j: nat)
    requires i < 4 && j < 4
    ensures var order := [LOW, MEDIUM, HIGH, CRITICAL]; IsSeverityIncrease(order[i], order[j]) <==> i < j
  {
  }

  const INCIDENT_THRESHOLD_10M := 5
  const FATAL_THRESHOLD_5M := 3

  function TriggeredSeverity(count10m: nat, fatalCount5m: nat): Option<Severity> {
    if fatalCount5m >= FATAL_THRESHOLD_5M then Some(CRITICAL)
    else if count10m >= INCIDENT_THRESHOLD_10M then Some(HIGH)
    else None
  }

  datatype Detection = Detection(rawLogId: nat, title: string, severity: Severity, recentCount: nat, timestamp: int)

  /** The stored row. */
  datatype Incident = Incident(
    title: string,
    severity: Severity,
    status: Status,
    occurrenceCount: nat,
    recentCount: nat,
    firstSeenAt: int,
    lastSeenAt: int,
    lastRawLogId: nat,
    resolvedAt: Option<int>)

  /** What a worker reads of the row before it writes. */
  datatype Snapshot = Snapshot(severity: Severity, status: Status, firstSeenAt: int, lastSeenAt: int)

  function SnapshotOf(row: Option<Incident>): Option<Snapshot> {
    match row
    case None => None
    case Some(r) => Some(Snapshot(r.severity, r.status, r.firstSeenAt, r.lastSeenAt))
  }

  /** The columns one upsert writes; a column left out keeps its value. */
  datatype Update = Update(
    title: string,
    severity: Severity,
    recentCount: nat,
    lastRawLogId: nat,
    lastSeenAt: Option<int>,
    firstSeenAt: Option<int>,
    status: Option<Status>,
    clearResolvedAt: bool)

  datatype Plan = Plan(update: Update, event: Option<EventType>)

  function Write<T>(old_: T, column: Option<T>): T {
    match column
    case None => old_
    case Some(v) => v
  }

  /** The update statement: the increment is applied to the row as it is now, not as it was read. */
  function Apply(r: Incident, u: Update): Incident {
    Incident(u.title, u.severity, Write(r.status, u.status), r.occurrenceCount + 1, u.recentCount,
             Write(r.firstSeenAt, u.firstSeenAt), Write(r.lastSeenAt, u.lastSeenAt), u.lastRawLogId,
             if u.clearResolvedAt then None else r.resolvedAt)
  }

  function Created(input: Detection): Incident {
    Incident(input.title, input.severity, OPEN, input.recentCount, input.recentCount,
             input.timestamp, input.timestamp, input.rawLogId, None)
  }

  /** The update of a worker that read no row but finds one when it writes. */
  function BlindUpdate(input: Detection): Update {
    Update(input.title, input.severity, input.recentCount, input.rawLogId, Some(input.timestamp), None, None, false)
  }

  ghost function PlanFor(existing: Snapshot, input: Detection): Plan {
    var reopened := existing.status.RESOLVED?;
    Plan(Update(input.title, input.severity, input.recentCount, input.rawLogId,
                if input.timestamp > existing.lastSeenAt then Some(input.timestamp) else None,
                if input.timestamp < existing.firstSeenAt then Some(input.timestamp) else None,
                if reopened then Some(OPEN) else None, reopened),
         if reopened then Some(STATUS_CHANGED)
         else if existing.severity != input.severity then Some(UPDATED) else None)
  }

  method PlanIncidentUpdate(existing: Snapshot, input: Detection) returns (plan: Plan)
    ensures plan == PlanFor(existing, input)
  {
    var reopened := existing.status.RESOLVED?;
    var severityChanged := existing.severity != input.severity;
    var update := Update(input.title, input.severity, input.recentCount, input.rawLogId, None, None, None, false);
    if input.timestamp > existing.lastSeenAt {
      update := update.(lastSeenAt := Some(input.timestamp));
    }
    if input.timestamp < existing.firstSeenAt {
      update := update.(firstSeenAt := Some(input.timestamp));
    }
    if reopened {
      update := update.(status := Some(OPEN), clearResolvedAt := true);
      return Plan(update, Some(STATUS_CHANGED));
    }
    if severityChanged {
      return Plan(update, Some(UPDATED));
    }
    plan := Plan(update, None);
  }

  function AlertTriggerFor(existing: Option<Snapshot>, input: Detection): Option<Trigger> {
    if existing.None? then Some(RaiseCreated)
    else if existing.value.status.RESOLVED? then Some(RaiseReopened)
    else if IsSeverityIncrease(existing.value.severity, input.severity) then Some(RaiseSeverityIncreased)
    else None
  }

  ghost function EventFor(existing: Option<Snapshot>, input: Detection): Option<EventType> {
    if existing.None? then Some(CREATED) else PlanFor(existing.value, input).event
  }

  /** Every trigger has a timeline event of its own type, and an event without a trigger is exactly a downgrade. */
  lemma TriggersAndEvents(existing: Option<Snapshot>, input: Detection)
    ensures AlertTriggerFor(existing, input) == Some(RaiseCreated) <==> EventFor(existing, input) == Some(CREATED)
    ensures AlertTriggerFor(existing, input) == Some(RaiseReopened)
        <==> EventFor(existing, input) == Some(STATUS_CHANGED)
    ensures AlertTriggerFor(existing, input) == Some(RaiseSeverityIncreased)
        ==> EventFor(existing, input) == Some(UPDATED)
    ensures EventFor(existing, input).Some? && AlertTriggerFor(existing, input).None? <==>
              existing.Some? && !existing.value.status.RESOLVED? && Rank(input.severity) < Rank(existing.value.severity)
  {
  }

  /** The atomic upsert of a worker that read `existing`. */
  ghost function Upserted(row: Option<Incident>, existing: Option<Snapshot>, input: Detection): Incident {
    match row
    case None => Created(input)
    case Some(r) => Apply(r, if existing.Some? then PlanFor(existing.value, input).update else BlindUpdate(input))
  }

  ghost function StatusSet(r: Incident, status: Status, now: int): Incident {
    r.(status := status, resolvedAt := if status.RESOLVED? then Some(now) else None)
  }

  // ---------------------------------------------------------------- every interleaving

  /** `held` is what each worker between its read and its upsert has read, and what it detected. */
  datatype Held = Held(existing: Option<Snapshot>, input: Detection)

  datatype Birth = Birth(count: nat, timestamp: int)

  /**
   `birth`, `later` and `blindest` record history: the creation, later upserts, the oldest
   timestamp written blindly.
   */
  datatype World = World(
    row: Option<Incident>,
    held: map<nat, Held>,
    birth: Option<Birth>,
    later: nat,
    blindest: Option<int>)

  /**
   A job reads, upserts, inserts its timeline event and raises its trigger, and may end after any of
   them. The last two leave the row alone; `IncidentReports` says what they do.
   */
  datatype Step =
    | Read(worker: nat, input: Detection)
    | Upsert(worker: nat)
    | Record(worker: nat)
    | Raise(worker: nat)
    | Abandon(worker: nat)
    | Operate(status: Status, now: int)

  ghost function Start(): World {
    World(None, map[], None, 0, None)
  }

  ghost predicate Blind(w: World, worker: nat) {
    worker in w.held && w.row.Some? && w.held[worker].existing.None?
  }

  ghost function UpsertBy(w: World, worker: nat): World
    requires worker in w.held
  {
    var h := w.held[worker];
    var ts := h.input.timestamp;
    World(Some(Upserted(w.row, h.existing, h.input)),
          w.held - {worker},
          if w.row.None? then Some(Birth(h.input.recentCount, ts)) else w.birth,
          if w.row.None? then 0 else w.later + 1,
          if Blind(w, worker) && (w.blindest.None? || ts < w.blindest.value) then Some(ts) else w.blindest)
  }

  ghost function Next(w: World, s: Step): World {
    match s
    case Read(worker, input) => w.(held := w.held[worker := Held(SnapshotOf(w.row), input)])
    case Upsert(worker) => if worker in w.held then UpsertBy(w, worker) else w
    case Record(_) => w
    case Raise(_) => w
    case Abandon(worker) => w.(held := w.held - {worker})
    case Operate(status, now) => if w.row.Some? then w.(row := Some(StatusSet(w.row.value, status, now))) else w
  }

  ghost function Run(steps: seq<Step>): World {
    if steps == [] then Start() else Next(Run(steps[..|steps| - 1]), steps[|steps| - 1])
  }

  /** No blind write carried a timestamp before the one the incident was created with. */
  ghost predicate NoStaleBlindWrite(w: World) {
    w.birth.Some? && w.blindest.Some? ==> w.birth.value.timestamp <= w.blindest.value
  }

  ghost predicate Consistent(w: World) {
    && (w.row.Some? <==> w.birth.Some?)
    && (w.row.Some? ==>
          var r, b := w.row.value, w.birth.value;
          && r.occurrenceCount == b.count + w.later
          && (r.status.RESOLVED? <==> r.resolvedAt.Some?)
          && r.firstSeenAt <= b.timestamp
          && (NoStaleBlindWrite(w) ==> b.timestamp <= r.lastSeenAt))
    && forall k :: k in w.held && w.held[k].existing.Some? ==>
         && w.birth.Some? && w.held[k].existing.value.firstSeenAt <= w.birth.value.timestamp
         && (NoStaleBlindWrite(w) ==> w.birth.value.timestamp <= w.held[k].existing.value.lastSeenAt)
  }

  lemma UpsertKeepsConsistent(w: World, worker: nat)
    requires Consistent(w) && worker in w.held
    ensures Consistent(UpsertBy(w, worker))
  {
    var after := UpsertBy(w, worker);
    assert NoStaleBlindWrite(after) && w.birth.Some? ==> NoStaleBlindWrite(w);
    forall k | k in after.held ensures k in w.held && after.held[k] == w.held[k] {
    }
  }

  lemma StepKeepsConsistent(w: World, s: Step)
    requires Consistent(w)
    ensures Consistent(Next(w, s))
  {
    if s.Upsert? && s.worker in w.held {
      UpsertKeepsConsistent(w, s.worker);
    }
  }

  /** Every interleaving of reads, upserts, abandoned jobs and operator changes keeps the row consistent. */
  lemma {:induction false} EveryInterleavingIsConsistent(steps: seq<Step>)
    ensures Consistent(Run(steps))
  {
    if steps != [] {
      EveryInterleavingIsConsistent(steps[..|steps| - 1]);
      StepKeepsConsistent(Run(steps[..|steps| - 1]), steps[|steps| - 1]);
    }
  }

  /** How many upserts a run performed. */
  ghost function Performed(steps: seq<Step>): nat {
    if steps == [] then 0
    else
      var front, last := steps[..|steps| - 1], steps[|steps| - 1];
      Performed(front) + if last.Upsert? && last.worker in Run(front).held then 1 else 0
  }

  /** No increment is lost, whatever the interleaving: the counter is the creation's count plus every later upsert. */
  lemma {:induction false} NoIncrementIsLost(steps: seq<Step>)
    ensures var w := Run(steps);
      && (w.row.Some? <==> Performed(steps) > 0)
      && (w.row.Some? ==> w.birth.Some? && w.row.value.occurrenceCount == w.birth.value.count + Performed(steps) - 1)
  {
    EveryInterleavingIsConsistent(steps);
    if steps != [] {
      EveryInterleavingIsConsistent(steps[..|steps| - 1]);
      NoIncrementIsLost(steps[..|steps| - 1]);
    }
  }

  /** Exactly which upsert takes `lastSeenAt` before the creation: a blind one of an older timestamp. */
  lemma LastSeenStaysUnlessStaleBlindWrite(w: World, worker: nat)
    requires Consistent(w) && NoStaleBlindWrite(w) && worker in w.held && w.row.Some?
    ensures w.birth.value.timestamp <= UpsertBy(w, worker).row.value.lastSeenAt <==>
              !(Blind(w, worker) && w.held[worker].input.timestamp < w.birth.value.timestamp)
  {
  }

  /** Step `k` is the last upsert performed. */
  ghost predicate LastUpsert(steps: seq<Step>, k: nat) {
    && k < |steps| && Upserts(Run(steps[..k]), steps[k])
    && forall j :: k < j < |steps| ==> !Upserts(Run(steps[..j]), steps[j])
  }

  ghost predicate ShowsInput(row: Option<Incident>, input: Detection) {
    && row.Some? && row.value.title == input.title && row.value.severity == input.severity
    && row.value.recentCount == input.recentCount && row.value.lastRawLogId == input.rawLogId
  }

  /** Under every interleaving the row shows the detection that was written last, whoever read what before. */
  lemma {:induction false} RowShowsLastUpsert(steps: seq<Step>) returns (k: nat)
    requires Run(steps).row.Some?
    ensures LastUpsert(steps, k) && ShowsInput(Run(steps).row, Run(steps[..k]).held[steps[k].worker].input)
  {
    var n := |steps| - 1;
    if Upserts(Run(steps[..n]), steps[n]) {
      k := n;
    } else {
      k := RowShowsLastUpsert(steps[..n]);
      assert steps[..n][..k] == steps[..k];
      forall j | k < j < |steps| ensures !Upserts(Run(steps[..j]), steps[j]) {
        if j < n {
          assert steps[..n][..j] == steps[..j] && !Upserts(Run(steps[..n][..j]), steps[..n][j]);
        }
      }
    }
  }

  // ---------------------------------------------------------------- when the seen window moves back

  ghost predicate Upserts(w: World, s: Step) {
    s.Upsert? && s.worker in w.held
  }

  /** A worker whose timestamp is newer than what it read, or that read nothing, but older than the row is by now. */
  ghost predicate StaleLast(w: World, worker: nat) {
    && worker in w.held && w.row.Some?
    && w.held[worker].input.timestamp < w.row.value.lastSeenAt
    && (w.held[worker].existing.None? || w.held[worker].existing.value.lastSeenAt < w.held[worker].input.timestamp)
  }

  ghost predicate StaleFirst(w: World, worker: nat) {
    && worker in w.held && w.row.Some? && w.held[worker].existing.Some?
    && w.row.value.firstSeenAt < w.held[worker].input.timestamp < w.held[worker].existing.value.firstSeenAt
  }

  ghost predicate MovesLastBack(w: World, s: Step) {
    w.row.Some? && Next(w, s).row.Some? && Next(w, s).row.value.lastSeenAt < w.row.value.lastSeenAt
  }

  ghost predicate MovesFirstForward(w: World, s: Step) {
    w.row.Some? && Next(w, s).row.Some? && w.row.value.firstSeenAt < Next(w, s).row.value.firstSeenAt
  }

  /** Exactly which steps shrink the seen window: upserts that are stale in this sense, blind or not. */
  lemma SeenShrinksExactlyWhenStale(w: World, s: Step)
    ensures MovesLastBack(w, s) <==> s.Upsert? && StaleLast(w, s.worker)
    ensures MovesFirstForward(w, s) <==> s.Upsert? && StaleFirst(w, s.worker)
  {
  }

  /** No upsert of the run is stale; by the lemma above, the seen window never shrinks during it. */
  ghost predicate NeverStale(steps: seq<Step>) {
    if steps == [] then true
    else
      var front, last := steps[..|steps| - 1], steps[|steps| - 1];
      && NeverStale(front)
      && (last.Upsert? ==> !StaleLast(Run(front), last.worker) && !StaleFirst(Run(front), last.worker))
  }

  /** Some upsert of the run carried this timestamp. */
  ghost predicate Stamped(steps: seq<Step>, timestamp: int) {
    if steps == [] then false
    else
      var front, last := steps[..|steps| - 1], steps[|steps| - 1];
      Stamped(front, timestamp)
          || (Upserts(Run(front), last) && Run(front).held[last.worker].input.timestamp == timestamp)
  }

  /** What a worker has read is within the seen window of the row. */
  ghost predicate WithinWindow(w: World) {
    forall k :: k in w.held && w.held[k].existing.Some? ==>
      && w.row.Some?
      && w.row.value.firstSeenAt <= w.held[k].existing.value.firstSeenAt
      && w.held[k].existing.value.lastSeenAt <= w.row.value.lastSeenAt
  }

  lemma {:induction false} ReadsStayWithin(steps: seq<Step>)
    requires NeverStale(steps)
    ensures WithinWindow(Run(steps))
  {
    if steps != [] {
      var front, last := steps[..|steps| - 1], steps[|steps| - 1];
      ReadsStayWithin(front);
      SeenShrinksExactlyWhenStale(Run(front), last);
    }
  }

  /**
   What survives of the serial claim under every interleaving: while no upsert is stale, first and
   last seen are the least and greatest timestamp of the upserts performed, whatever was read when.
   */
  lemma {:induction false} SeenIsMinAndMaxUnlessStale(steps: seq<Step>)
    requires NeverStale(steps)
    ensures Run(steps).row.Some? ==>
      var r := Run(steps).row.value;
      && Stamped(steps, r.firstSeenAt) && Stamped(steps, r.lastSeenAt)
      && forall t :: Stamped(steps, t) ==> r.firstSeenAt <= t <= r.lastSeenAt
    ensures Run(steps).row.None? ==> forall t :: !Stamped(steps, t)
  {
    if steps != [] {
      var front, last := steps[..|steps| - 1], steps[|steps| - 1];
      SeenIsMinAndMaxUnlessStale(front);
      ReadsStayWithin(front);
      if Upserts(Run(front), last) {
        var ts := Run(front).held[last.worker].input.timestamp;
        assert Stamped(steps, ts);
        assert forall t :: Stamped(steps, t) <==> Stamped(front, t) || t == ts;
      } else {
        assert forall t :: Stamped(steps, t) <==> Stamped(front, t);
      }
    }
  }

  ghost function Found(ts: int): Detection {
    Detection(0, "t", HIGH, 5, ts)
  }

  /** A run is taken step by step. */
  lemma RunInSteps(steps: seq<Step>)
    ensures Run(steps[..0]) == Start()
    ensures forall k: nat {:trigger steps[..k]} ::
              1 <= k <= |steps| ==> Run(steps[..k]) == Next(Run(steps[..k - 1]), steps[k - 1])
  {
    assert steps[..0] == [];
    forall k: nat | 1 <= k <= |steps| ensures Run(steps[..k]) == Next(Run(steps[..k - 1]), steps[k - 1]) {
      assert steps[..k][..k - 1] == steps[..k - 1];
    }
  }

  /** Two workers read the row after its creation at 10, and upsert in the order they read. */
  ghost function TwoSeeing(first: int, second: int): seq<Step> {
    [Read(0, Found(10)), Upsert(0), Read(0, Found(first)), Read(1, Found(second)), Upsert(0), Upsert(1)]
  }

  lemma TwoSeeingRun(first: int, second: int)
    ensures var steps, seen := TwoSeeing(first, second), Snapshot(HIGH, OPEN, 10, 10);
      && Run(steps[..5]).row == Some(Apply(Created(Found(10)), PlanFor(seen, Found(first)).update))
      && Run(steps[..5]).held == map[1 := Held(Some(seen), Found(second))]
      && Run(steps) == UpsertBy(Run(steps[..5]), 1) && Run(steps[..5]).blindest.None?
  {
    var steps := TwoSeeing(first, second);
    RunInSteps(steps);
    assert steps[..6] == steps;
    var seen := Some(Snapshot(HIGH, OPEN, 10, 10));
    var w2 := Run(steps[..2]);
    assert w2.row == Some(Created(Found(10))) && w2.held == map[] && w2.blindest.None?;
    assert Run(steps[..3]).held == map[0 := Held(seen, Found(first))];
    assert Run(steps[..4]).held == map[0 := Held(seen, Found(first)), 1 := Held(seen, Found(second))];
    assert Run(steps[..5]) == UpsertBy(Run(steps[..4]), 0);
  }

  /** The older of two timestamps, written last by a worker that saw the row, takes `lastSeenAt` back. */
  lemma SeeingWorkersMoveLastSeenBack()
    ensures var steps := TwoSeeing(30, 20);
      && MovesLastBack(Run(steps[..5]), steps[5]) && Run(steps).blindest.None?
      && Run(steps).row.Some? && Run(steps).row.value.lastSeenAt == 20
  {
    TwoSeeingRun(30, 20);
  }

  /** Likewise the newer of two early timestamps takes `firstSeenAt` forward. */
  lemma SeeingWorkersMoveFirstSeenForward()
    ensures var steps := TwoSeeing(1, 5);
      && MovesFirstForward(Run(steps[..5]), steps[5])
      && Run(steps).row.Some? && Run(steps).row.value.firstSeenAt == 5
  {
    TwoSeeingRun(1, 5);
  }

  // ---------------------------------------------------------------- what a worker holds

  /** The last read of a worker in a run, or the length of the run. */
  ghost function LastRead(steps: seq<Step>, worker: nat): (r: nat)
    ensures r <= |steps|
    ensures r < |steps| ==> steps[r].Read? && steps[r].worker == worker
  {
    if steps == [] then 0
    else
      var n, last := |steps| - 1, steps[|steps| - 1];
      if last.Read? && last.worker == worker then n
      else
        var r := LastRead(steps[..n], worker);
        if r == n then |steps| else r
  }

  /** What a worker holds is the row as it was at its last read. */
  lemma {:induction false} HeldSinceLastRead(steps: seq<Step>, worker: nat)
    requires worker in Run(steps).held
    ensures var r := LastRead(steps, worker);
      && r < |steps|
      && Run(steps).held[worker] == Held(SnapshotOf(Run(steps[..r]).row), steps[r].input)
  {
    var front, last := steps[..|steps| - 1], steps[|steps| - 1];
    if !(last.Read? && last.worker == worker) {
      HeldSinceLastRead(front, worker);
      var r := LastRead(front, worker);
      assert front[..r] == steps[..r];
    }
  }

  lemma {:induction false} NothingPerformedBefore(steps: seq<Step>, r: nat)
    requires r <= |steps|
    ensures Performed(steps[..r]) <= Performed(steps)
    decreases |steps|
  {
    if r < |steps| {
      assert steps[..|steps| - 1][..r] == steps[..r];
      NothingPerformedBefore(steps[..|steps| - 1], r);
    } else {
      assert steps[..r] == steps;
    }
  }

  // ---------------------------------------------------------------- the status under every interleaving

  ghost predicate Resolved(row: Option<Incident>) {
    row.Some? && row.value.status.RESOLVED?
  }

  /** The row was resolved at the last read of this worker. */
  ghost predicate SawResolved(steps: seq<Step>, worker: nat) {
    var r := LastRead(steps, worker);
    r < |steps| && Resolved(Run(steps[..r]).row)
  }

  /** Step `i` is an operator's that finds an incident to resolve, or to take out of RESOLVED. */
  ghost predicate Sets(steps: seq<Step>, i: nat, resolved: bool)
    requires i < |steps|
  {
    steps[i].Operate? && steps[i].status.RESOLVED? == resolved && Run(steps[..i]).row.Some?
  }

  /** Step `j` reopens: an operator does, or an upsert whose worker saw the incident resolved. */
  ghost predicate Reopens(steps: seq<Step>, j: nat)
    requires j < |steps|
  {
    Sets(steps, j, false) || (Upserts(Run(steps[..j]), steps[j]) && SawResolved(steps[..j], steps[j].worker))
  }

  ghost predicate ResolvedSince(steps: seq<Step>, i: nat) {
    i < |steps| && Sets(steps, i, true) && forall j :: i < j < |steps| ==> !Reopens(steps, j)
  }

  /**
   Exactly what an upsert of an existing incident does to its status: a resolved incident stays
   resolved when its worker did not see it so, and another status gives way to OPEN when it did.
   */
  lemma UpsertJudgesByItsRead(steps: seq<Step>, worker: nat)
    requires worker in Run(steps).held && Run(steps).row.Some?
    ensures var now, after := Run(steps).row, UpsertBy(Run(steps), worker).row;
      && (Resolved(after) <==> Resolved(now) && !SawResolved(steps, worker))
      && (after.value.status != now.value.status <==> now.value.status != OPEN && SawResolved(steps, worker))
  {
    HeldSinceLastRead(steps, worker);
  }

  lemma ResolvedSinceFront(steps: seq<Step>, i: nat)
    requires i + 1 < |steps|
    ensures var n := |steps| - 1;
      ResolvedSince(steps, i) <==> ResolvedSince(steps[..n], i) && !Reopens(steps, n)
  {
    var n := |steps| - 1;
    forall j | 0 <= j < n ensures Reopens(steps, j) == Reopens(steps[..n], j) {
      assert steps[..n][..j] == steps[..j];
    }
    assert steps[..n][..i] == steps[..i];
  }

  lemma StatusAfterOneMore(steps: seq<Step>)
    requires steps != []
    ensures var n := |steps| - 1;
      Resolved(Run(steps).row) <==> Sets(steps, n, true) || (Resolved(Run(steps[..n]).row) && !Reopens(steps, n))
  {
    var n := |steps| - 1;
    if Upserts(Run(steps[..n]), steps[n]) && Run(steps[..n]).row.Some? {
      UpsertJudgesByItsRead(steps[..n], steps[n].worker);
    }
  }

  /**
   When the incident is resolved, under every interleaving: an operator resolved it, and since then no
   operator took it out of RESOLVED and no worker that saw it resolved has written.
   */
  lemma {:induction false} ResolvedByHistory(steps: seq<Step>)
    ensures Resolved(Run(steps).row) <==> exists i: nat :: ResolvedSince(steps, i)
  {
    if steps != [] {
      var n := |steps| - 1;
      ResolvedByHistory(steps[..n]);
      StatusAfterOneMore(steps);
      forall i: nat | i < n
        ensures ResolvedSince(steps, i) <==> ResolvedSince(steps[..n], i) && !Reopens(steps, n)
      {
        ResolvedSinceFront(steps, i);
      }
      assert ResolvedSince(steps, n) <==> Sets(steps, n, true);
    }
  }

  /** Step `i` is an operator's that finds an incident. */
  ghost predicate SetsStatus(steps: seq<Step>, i: nat) {
    i < |steps| && steps[i].Operate? && Run(steps[..i]).row.Some?
  }

  /** Step `j` writes the status: an operator does, or an upsert whose worker saw the incident resolved. */
  ghost predicate Overrides(steps: seq<Step>, j: nat)
    requires j < |steps|
  {
    SetsStatus(steps, j) || (Upserts(Run(steps[..j]), steps[j]) && SawResolved(steps[..j], steps[j].worker))
  }

  ghost predicate HasLastWord(steps: seq<Step>, i: nat) {
    SetsStatus(steps, i) && forall j :: i < j < |steps| ==> !Overrides(steps, j)
  }

  lemma HasLastWordFront(steps: seq<Step>, i: nat)
    requires i + 1 < |steps|
    ensures var n := |steps| - 1;
      HasLastWord(steps, i) <==> HasLastWord(steps[..n], i) && !Overrides(steps, n)
  {
    var n := |steps| - 1;
    forall j | 0 <= j < n ensures Overrides(steps, j) == Overrides(steps[..n], j) {
      assert steps[..n][..j] == steps[..j];
    }
    assert steps[..n][..i] == steps[..i];
  }

  /** What the row says of its status is what step `i` set, with the instant of a resolve. */
  ghost predicate StatusFrom(row: Option<Incident>, s: Step)
    requires s.Operate?
  {
    && row.Some? && row.value.status == s.status
    && row.value.resolvedAt == if s.status.RESOLVED? then Some(s.now) else None
  }

  lemma StatusOfOneMore(steps: seq<Step>)
    requires steps != []
    ensures var n := |steps| - 1;
      var before, after := Run(steps[..n]).row, Run(steps).row;
      && (SetsStatus(steps, n) ==> StatusFrom(after, steps[n]))
      && ((!SetsStatus(steps, n) && Overrides(steps, n)) || (before.None? && after.Some?) ==>
            after.Some? && after.value.status == OPEN && after.value.resolvedAt.None?)
      && (!Overrides(steps, n) && before.Some? ==>
            after.Some? && after.value.status == before.value.status
                && after.value.resolvedAt == before.value.resolvedAt)
  {
    var n := |steps| - 1;
    if Upserts(Run(steps[..n]), steps[n]) && Run(steps[..n]).row.Some? {
      HeldSinceLastRead(steps[..n], steps[n].worker);
      EveryInterleavingIsConsistent(steps[..n]);
      EveryInterleavingIsConsistent(steps);
    }
  }

  ghost predicate Reset(row: Option<Incident>) {
    row.Some? && row.value.status == OPEN && row.value.resolvedAt.None?
  }

  ghost predicate StatusIsTold(steps: seq<Step>) {
    && (forall i: nat :: HasLastWord(steps, i) ==> StatusFrom(Run(steps).row, steps[i]))
    && ((forall i: nat :: !HasLastWord(steps, i)) && Run(steps).row.Some? ==> Reset(Run(steps).row))
    && (Run(steps).row.None? ==> forall i: nat :: !SetsStatus(steps, i))
  }

  /** An earlier word still counts when nobody overrides it. */
  lemma EarlierWordCounts(steps: seq<Step>, i: nat)
    requires i + 1 < |steps| && HasLastWord(steps, i)
    requires HasLastWord(steps[..|steps| - 1], i) ==> StatusFrom(Run(steps[..|steps| - 1]).row, steps[i])
    ensures StatusFrom(Run(steps).row, steps[i])
  {
    HasLastWordFront(steps, i);
    StatusOfOneMore(steps);
  }

  lemma NoRowNoWord(steps: seq<Step>, i: nat)
    requires i < |steps| && Run(steps).row.None?
    requires i + 1 < |steps| ==> !SetsStatus(steps[..|steps| - 1], i)
    ensures !SetsStatus(steps, i)
  {
    var n := |steps| - 1;
    if i < n {
      assert steps[..n][..i] == steps[..i];
    } else {
      StatusOfOneMore(steps);
    }
  }

  lemma LastWordOfOneMore(steps: seq<Step>, i: nat)
    requires i < |steps| && StatusIsTold(steps[..|steps| - 1])
    ensures HasLastWord(steps, i) ==> StatusFrom(Run(steps).row, steps[i])
    ensures Run(steps).row.None? ==> !SetsStatus(steps, i)
  {
    var front := steps[..|steps| - 1];
    assert Run(steps).row.None? ==> Run(front).row.None?;
    if Run(steps).row.None? {
      NoRowNoWord(steps, i);
    }
    if HasLastWord(steps, i) {
      if i == |steps| - 1 {
        StatusOfOneMore(steps);
      } else {
        EarlierWordCounts(steps, i);
      }
    }
  }

  lemma NoLastWordOfOneMore(steps: seq<Step>)
    requires steps != [] && StatusIsTold(steps[..|steps| - 1])
    requires Run(steps).row.Some? && forall i: nat :: !HasLastWord(steps, i)
    ensures Reset(Run(steps).row)
  {
    var n := |steps| - 1;
    var front := steps[..n];
    StatusOfOneMore(steps);
    assert !HasLastWord(steps, n);
    if Run(front).row.Some? && !Overrides(steps, n) {
      forall i: nat ensures !HasLastWord(front, i) {
        if i < n {
          HasLastWordFront(steps, i);
          assert !HasLastWord(steps, i);
        }
      }
    }
  }

  /**
   The whole status under every interleaving: it is what the operator set whose word was the last, and
   OPEN when a worker's write came after it or there was none; a resolved incident is dated by that operator.
   */
  lemma {:induction false} StatusByHistory(steps: seq<Step>)
    ensures StatusIsTold(steps)
  {
    if steps != [] {
      StatusByHistory(steps[..|steps| - 1]);
      forall i: nat | i < |steps|
        ensures HasLastWord(steps, i) ==> StatusFrom(Run(steps).row, steps[i])
        ensures Run(steps).row.None? ==> !SetsStatus(steps, i)
      {
        LastWordOfOneMore(steps, i);
      }
      if Run(steps).row.Some? && forall i: nat :: !HasLastWord(steps, i) {
        NoLastWordOfOneMore(steps);
      }
    }
  }

  // ---------------------------------------------------------------- serial runs

  datatype Op = Detect(input: Detection) | SetStatus(status: Status, now: int)

  /** One detection with nothing between its read and its upsert. */
  ghost function Detected(row: Option<Incident>, input: Detection): Option<Incident> {
    Some(Upserted(row, SnapshotOf(row), input))
  }

  ghost function Perform(row: Option<Incident>, op: Op): Option<Incident> {
    match op
    case Detect(input) => Detected(row, input)
    case SetStatus(status, now) => if row.Some? then Some(StatusSet(row.value, status, now)) else None
  }

  ghost function Serial(ops: seq<Op>): Option<Incident> {
    if ops == [] then None else Perform(Serial(ops[..|ops| - 1]), ops[|ops| - 1])
  }

  /** The trigger operation `j` of a serial run raises. */
  ghost function Raised(ops: seq<Op>, j: nat): Option<Trigger>
    requires j < |ops|
  {
    if ops[j].Detect? then AlertTriggerFor(SnapshotOf(Serial(ops[..j])), ops[j].input) else None
  }

  ghost function LastDetection(ops: seq<Op>): Option<Detection> {
    if ops == [] then None
    else if ops[|ops| - 1].Detect? then Some(ops[|ops| - 1].input)
    else LastDetection(ops[..|ops| - 1])
  }

  ghost predicate JustResolved(ops: seq<Op>) {
    ops != [] && ops[|ops| - 1].SetStatus? && ops[|ops| - 1].status.RESOLVED?
  }

  /** The row of a serial run against the list of operations alone. */
  lemma {:induction false} SerialRow(ops: seq<Op>)
    ensures Serial(ops).Some? <==> LastDetection(ops).Some?
    ensures Serial(ops).Some? ==>
              && var r, d := Serial(ops).value, LastDetection(ops).value;
              && r.severity == d.severity && r.title == d.title
              && r.recentCount == d.recentCount && r.lastRawLogId == d.rawLogId
              && (Serial(ops).value.status.RESOLVED? <==> JustResolved(ops))
  {
    if ops != [] { SerialRow(ops[..|ops| - 1]); }
  }

  /** Which trigger a detection raises, by the history alone. */
  lemma TriggerByHistory(ops: seq<Op>, j: nat)
    requires j < |ops| && ops[j].Detect?
    ensures Raised(ops, j) ==
      if LastDetection(ops[..j]).None? then Some(RaiseCreated)
      else if JustResolved(ops[..j]) then Some(RaiseReopened)
      else if Rank(ops[j].input.severity) > Rank(LastDetection(ops[..j]).value.severity)
      then Some(RaiseSeverityIncreased)
      else None
  {
    SerialRow(ops[..j]);
  }

  lemma {:induction false} EarlierDetection(ops: seq<Op>, i: nat)
    requires i < |ops| && ops[i].Detect?
    ensures LastDetection(ops).Some?
    decreases |ops|
  {
    if i < |ops| - 1 { EarlierDetection(ops[..|ops| - 1], i); }
  }

  /** CREATED is raised by the first detection and by no other. */
  lemma CreatedIsRaisedOnce(ops: seq<Op>, j: nat)
    requires j < |ops| && ops[j].Detect?
    ensures Raised(ops, j) == Some(RaiseCreated) <==> forall i :: 0 <= i < j ==> !ops[i].Detect?
  {
    TriggerByHistory(ops, j);
    if i :| 0 <= i < j && ops[i].Detect? {
      EarlierDetection(ops[..j], i);
    } else {
      NoDetection(ops[..j]);
    }
  }

  lemma {:induction false} NoDetection(ops: seq<Op>)
    requires forall i :: 0 <= i < |ops| ==> !ops[i].Detect?
    ensures LastDetection(ops).None?
  {
    if ops != [] { NoDetection(ops[..|ops| - 1]); }
  }

  /** REOPENED is raised exactly when the operation just before is an operator resolving an existing incident. */
  lemma ReopenedFollowsResolve(ops: seq<Op>, j: nat)
    requires j < |ops| && ops[j].Detect?
    ensures Raised(ops, j) == Some(RaiseReopened) <==>
              && j > 0 && ops[j - 1].SetStatus? && ops[j - 1].status.RESOLVED?
              && exists i :: 0 <= i < j && ops[i].Detect?
  {
    TriggerByHistory(ops, j);
    if i :| 0 <= i < j && ops[i].Detect? {
      EarlierDetection(ops[..j], i);
    } else {
      NoDetection(ops[..j]);
    }
  }

  /** Detection `k` lowered the severity of the incident. */
  ghost predicate Lowered(ops: seq<Op>, k: nat) {
    && k < |ops| && ops[k].Detect? && LastDetection(ops[..k]).Some?
    && Rank(ops[k].input.severity) < Rank(LastDetection(ops[..k]).value.severity)
  }

  lemma {:induction false} SeverityFellBetween(ops: seq<Op>, i: nat, j: nat)
    requires i < j <= |ops| && ops[i].Detect?
    requires LastDetection(ops[..j]).Some?
    requires Rank(LastDetection(ops[..j]).value.severity) < Rank(ops[i].input.severity)
    ensures exists k :: i < k < j && Lowered(ops, k)
    decreases j
  {
    assert ops[..j][..j - 1] == ops[..j - 1];
    if ops[j - 1].Detect? && i < j - 1 {
      EarlierDetection(ops[..j - 1], i);
      if Lowered(ops, j - 1) {
      } else {
        SeverityFellBetween(ops, i, j - 1);
      }
    } else if !ops[j - 1].Detect? {
      SeverityFellBetween(ops, i, j - 1);
    }
  }

  /** Between two escalations, the second to no higher a severity, some detection lowered the severity. */
  lemma EscalationsAreSeparated(ops: seq<Op>, i: nat, j: nat)
    requires i < j < |ops| && ops[i].Detect? && ops[j].Detect?
    requires Raised(ops, i) == Some(RaiseSeverityIncreased) && Raised(ops, j) == Some(RaiseSeverityIncreased)
    requires Rank(ops[j].input.severity) <= Rank(ops[i].input.severity)
    ensures exists k :: i < k < j && Lowered(ops, k)
  {
    TriggerByHistory(ops, j);
    SeverityFellBetween(ops, i, j);
  }

  ghost predicate Seen(ops: seq<Op>, timestamp: int) {
    exists i :: 0 <= i < |ops| && ops[i].Detect? && ops[i].input.timestamp == timestamp
  }

  /** Serially, first and last seen are the least and greatest detection timestamps, in any arrival order. */
  lemma {:induction false} SeenIsMinAndMax(ops: seq<Op>)
    ensures Serial(ops).Some? ==>
      var r := Serial(ops).value;
      && Seen(ops, r.firstSeenAt) && Seen(ops, r.lastSeenAt)
      && forall i :: 0 <= i < |ops| && ops[i].Detect? ==> r.firstSeenAt <= ops[i].input.timestamp <= r.lastSeenAt
  {
    if ops != [] {
      var front, last := ops[..|ops| - 1], ops[|ops| - 1];
      SeenIsMinAndMax(front);
      SerialRow(front);
      forall t | Seen(front, t) ensures Seen(ops, t) {
        var i :| 0 <= i < |front| && front[i].Detect? && front[i].input.timestamp == t;
        assert ops[i] == front[i];
      }
      if last.Detect? {
        assert ops[|ops| - 1].input.timestamp == last.input.timestamp && Seen(ops, last.input.timestamp);
      }
      if Serial(front).None? {
        forall i | 0 <= i < |front| ensures !front[i].Detect? {
          if front[i].Detect? { EarlierDetection(front, i); }
        }
      }
    }
  }
}
