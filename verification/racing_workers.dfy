/**
 Workers that race on one fingerprint: a job counts its log in each window, reads the incident and
 upserts it in steps of their own, any of which may be the job's last. What is left of the serial
 results.
 */
module RacingWorkers {
  import opened Wrappers
  import opened RedisStore
  import I = Incidents
  import P = LogProcessing

  /** A log as it is counted. */
  type Log = e: P.Event | e.Process? witness P.Process(Fingerprint(0, 0, 0, false), 0, "", 0, 0)

  /**
   `Count` is the counting of a log in its ten minutes, and `CountFatal` in the five minutes of a fatal
   one, at the clock reading of the first. A job that starts anew has dropped what it held. `Report`
   stands for the timeline event or the trigger after an upsert.
   */
  datatype Step =
    | Count(job: nat, log: Log)
    | CountFatal(job: nat)
    | Read(job: nat)
    | Upsert(job: nat)
    | Report(job: nat)
    | Abandon(job: nat)
    | Operate(status: I.Status, now: int)

  /** A fatal log counted in its first window. */
  datatype Half = Half(log: Log, count10m: nat)

  /**
   History: the detections with five or more logs in ten minutes, those with fewer, those of jobs that
   ended before their upsert; then the jobs that ended between the two windows, and how many of them
   had counted five or more.
   */
  datatype Tally = Tally(high: nat, low: nat, lost: nat, cut: nat, heavyCut: nat)

  /**
   `halves` are the jobs between the two windows, and `fatalCalls` the calls on the second one.
   `counted` are the detections of jobs that have not read yet; those that have are held in `world`.
   */
  datatype State = State(
    logs: seq<P.Event>,
    halves: map<nat, Half>,
    fatalCalls: seq<Call>,
    counted: map<nat, I.Detection>,
    world: I.World,
    tally: Tally)

  ghost function Start(): State {
    State([], map[], [], map[], I.Start(), Tally(0, 0, 0, 0, 0))
  }

  ghost predicate Heavy(halves: map<nat, Half>, job: nat) {
    job in halves && halves[job].count10m >= 5
  }

  ghost function Dropped(s: State, job: nat): State {
    var t := s.tally;
    s.(halves := s.halves - {job}, counted := s.counted - {job}, world := I.Next(s.world, I.Abandon(job)),
       tally := t.(lost := t.lost + (if job in s.counted then 1 else 0) + (if job in s.world.held then 1 else 0),
                   cut := t.cut + (if job in s.halves then 1 else 0),
                   heavyCut := t.heavyCut + if Heavy(s.halves, job) then 1 else 0))
  }

  /** The job knows its counts, and goes on when they reach a threshold. */
  ghost function Decided(s: State, job: nat, log: Log, count10m: nat, fatalCount5m: nat): State {
    var severity := I.TriggeredSeverity(count10m, fatalCount5m);
    if severity.None? then s
    else
      s.(counted := s.counted[job := I.Detection(log.rawLogId, log.title, severity.value, count10m, log.timestamp)],
         tally := if count10m >= 5 then s.tally.(high := s.tally.high + 1) else s.tally.(low := s.tally.low + 1))
  }

  ghost function Counted(s: State, job: nat, log: Log, f: Fingerprint): State {
    var s1 := s.(logs := s.logs + [log]);
    var count10m := P.Count10m(s1.logs, f, log.now);
    if log.fingerprint != f then s1
    else if f.fatal then s1.(halves := s1.halves[job := Half(log, count10m)])
    else Decided(s1, job, log, count10m, 0)
  }

  /** What the window answers to the last of these calls. */
  ghost function Answer(calls: seq<Call>): nat
    requires calls != []
  {
    var last := calls[|calls| - 1];
    CountRange(Stored(calls, last.key), last.now, last.windowMs)
  }

  ghost function CountedFatal(s: State, job: nat): State
    requires job in s.halves
  {
    var half := s.halves[job];
    var calls := s.fatalCalls + [P.FatalCall(half.log)];
    Decided(s.(halves := s.halves - {job}, fatalCalls := calls), job, half.log, half.count10m, Answer(calls))
  }

  ghost function Next(s: State, step: Step, f: Fingerprint): State {
    match step
    case Count(job, log) => Counted(Dropped(s, job), job, log, f)
    case CountFatal(job) => if job in s.halves then CountedFatal(s, job) else s
    case Read(job) =>
      if job !in s.counted then s
      else s.(counted := s.counted - {job}, world := I.Next(s.world, I.Read(job, s.counted[job])))
    case Upsert(job) => s.(world := I.Next(s.world, I.Upsert(job)))
    case Report(_) => s
    case Abandon(job) => Dropped(s, job)
    case Operate(status, now) => s.(world := I.Next(s.world, I.Operate(status, now)))
  }

  ghost function Run(steps: seq<Step>, f: Fingerprint): State {
    if steps == [] then Start() else Next(Run(steps[..|steps| - 1], f), steps[|steps| - 1], f)
  }

  // ---------------------------------------------------------------- every detection is accounted for

  ghost predicate IsLog(e: P.Event, f: Fingerprint) {
    e.Process? && e.fingerprint == f
  }

  /** The last log is the fifth or a later one of its fingerprint in ten minutes. */
  ghost predicate IsOver(logs: seq<P.Event>, f: Fingerprint) {
    logs != [] && IsLog(logs[|logs| - 1], f) && P.Count10m(logs, f, P.Clock(logs)) >= 5
  }

  /** How many logs were. */
  ghost function Over(logs: seq<P.Event>, f: Fingerprint): nat {
    if logs == [] then 0 else Over(logs[..|logs| - 1], f) + if IsOver(logs, f) then 1 else 0
  }

  ghost function Written(w: I.World): nat {
    if w.birth.Some? then w.later + 1 else 0
  }

  ghost function Told(s: State): nat {
    s.tally.high + s.tally.low
  }

  /** The detections on their way to their upsert, or lost on it. */
  ghost function Unwritten(s: State): nat {
    |s.counted.Keys| + |s.world.held.Keys| + s.tally.lost
  }

  ghost function Heavies(halves: map<nat, Half>): set<nat> {
    set j | j in halves && Heavy(halves, j)
  }

  /** The fatal logs over the first threshold that have not reached their second window, or never will. */
  ghost function Undecided(s: State): nat {
    |Heavies(s.halves)| + s.tally.heavyCut
  }

  ghost predicate InOnePhase(s: State) {
    s.counted.Keys !! s.world.held.Keys !! s.halves.Keys
  }

  /** `deciding` counts a job that has its counts but has not acted on them. */
  ghost predicate AccountedBut(s: State, f: Fingerprint, deciding: nat) {
    && InOnePhase(s)
    && I.Consistent(s.world)
    && Told(s) == Written(s.world) + Unwritten(s)
    && Over(s.logs, f) == s.tally.high + Undecided(s) + deciding
    && s.tally.heavyCut <= s.tally.cut
    && (!f.fatal ==> s.halves == map[] && s.tally.cut == 0 && s.tally.low == 0)
  }

  /**
   Each detection was written once, is on its way or was lost; each log over ten minutes led to one
   or is undecided.
   */
  ghost predicate Accounted(s: State, f: Fingerprint) {
    AccountedBut(s, f, 0)
  }

  lemma Removed<T>(m: map<nat, T>, k: nat)
    ensures |(m - {k}).Keys| == |m.Keys| - if k in m then 1 else 0
  {
    if k in m {
      assert (m - {k}).Keys + {k} == m.Keys;
    } else {
      assert m - {k} == m;
    }
  }

  lemma Added<T>(m: map<nat, T>, k: nat, v: T)
    requires k !in m
    ensures m[k := v].Keys == m.Keys + {k} && |m[k := v].Keys| == |m.Keys| + 1
  {
    assert m[k := v].Keys == m.Keys + {k};
  }

  lemma HalfRemoved(halves: map<nat, Half>, job: nat)
    ensures |Heavies(halves)| == |Heavies(halves - {job})| + if Heavy(halves, job) then 1 else 0
  {
    assert Heavies(halves - {job}) == Heavies(halves) - {job};
  }

  lemma HalfAdded(halves: map<nat, Half>, job: nat, half: Half)
    requires job !in halves
    ensures |Heavies(halves[job := half])| == |Heavies(halves)| + if half.count10m >= 5 then 1 else 0
  {
    assert halves[job := half] - {job} == halves;
    HalfRemoved(halves[job := half], job);
  }

  ghost predicate Idle(s: State, job: nat) {
    job !in s.halves && job !in s.counted && job !in s.world.held
  }

  lemma DroppingLosesAsMuch(s: State, job: nat)
    ensures Unwritten(Dropped(s, job)) == Unwritten(s) && Undecided(Dropped(s, job)) == Undecided(s)
  {
    Removed(s.counted, job);
    Removed(s.world.held, job);
    HalfRemoved(s.halves, job);
  }

  lemma DroppingKeepsWorld(s: State, job: nat)
    requires I.Consistent(s.world)
    ensures I.Consistent(Dropped(s, job).world) && Written(Dropped(s, job).world) == Written(s.world)
  {
    I.StepKeepsConsistent(s.world, I.Abandon(job));
  }

  lemma DroppingEndsThePhase(s: State, job: nat)
    requires InOnePhase(s)
    ensures InOnePhase(Dropped(s, job)) && Idle(Dropped(s, job), job)
  {
  }

  lemma DroppingIsAccounted(s: State, job: nat, f: Fingerprint)
    requires Accounted(s, f)
    ensures Accounted(Dropped(s, job), f) && Idle(Dropped(s, job), job)
  {
    DroppingEndsThePhase(s, job);
    DroppingKeepsWorld(s, job);
    DroppingLosesAsMuch(s, job);
    assert !f.fatal ==> s.halves - {job} == s.halves;
  }

  lemma DecidingIsAccounted(s: State, job: nat, log: Log, count10m: nat, fatalCount5m: nat, f: Fingerprint)
    requires Idle(s, job) && AccountedBut(s, f, if count10m >= 5 then 1 else 0)
    requires !f.fatal ==> fatalCount5m == 0
    ensures Accounted(Decided(s, job, log, count10m, fatalCount5m), f)
  {
    var s' := Decided(s, job, log, count10m, fatalCount5m);
    if s' != s {
      Added(s.counted, job, s'.counted[job]);
    }
  }

  lemma OverOfOneMore(logs: seq<P.Event>, log: Log, f: Fingerprint)
    ensures var count10m := P.Count10m(logs + [log], f, log.now);
      Over(logs + [log], f) == Over(logs, f) + if log.fingerprint == f && count10m >= 5 then 1 else 0
  {
    assert (logs + [log])[..|logs|] == logs;
  }

  lemma CountingIsAccounted(s: State, job: nat, log: Log, f: Fingerprint)
    requires Accounted(s, f) && Idle(s, job)
    ensures Accounted(Counted(s, job, log, f), f)
  {
    var s1 := s.(logs := s.logs + [log]);
    var count10m := P.Count10m(s1.logs, f, log.now);
    OverOfOneMore(s.logs, log, f);
    if log.fingerprint == f {
      if f.fatal {
        HalfAdded(s.halves, job, Half(log, count10m));
      } else {
        DecidingIsAccounted(s1, job, log, count10m, 0, f);
      }
    }
  }

  lemma CountingFatalIsAccounted(s: State, job: nat, f: Fingerprint)
    requires Accounted(s, f) && job in s.halves
    ensures Accounted(CountedFatal(s, job), f)
  {
    var half := s.halves[job];
    var calls := s.fatalCalls + [P.FatalCall(half.log)];
    HalfRemoved(s.halves, job);
    DecidingIsAccounted(s.(halves := s.halves - {job}, fatalCalls := calls),
                        job, half.log, half.count10m, Answer(calls), f);
  }

  lemma ReadingIsAccounted(s: State, job: nat, f: Fingerprint)
    requires Accounted(s, f)
    ensures Accounted(Next(s, Read(job), f), f)
  {
    if job in s.counted {
      I.StepKeepsConsistent(s.world, I.Read(job, s.counted[job]));
      Removed(s.counted, job);
      Added(s.world.held, job, I.Held(I.SnapshotOf(s.world.row), s.counted[job]));
    }
  }

  lemma UpsertingIsAccounted(s: State, job: nat, f: Fingerprint)
    requires Accounted(s, f)
    ensures Accounted(Next(s, Upsert(job), f), f)
  {
    I.StepKeepsConsistent(s.world, I.Upsert(job));
    Removed(s.world.held, job);
  }

  lemma OperatingIsAccounted(s: State, status: I.Status, now: int, f: Fingerprint)
    requires Accounted(s, f)
    ensures Accounted(Next(s, Operate(status, now), f), f)
  {
    I.StepKeepsConsistent(s.world, I.Operate(status, now));
  }

  lemma StepIsAccounted(s: State, step: Step, f: Fingerprint)
    requires Accounted(s, f)
    ensures Accounted(Next(s, step, f), f)
  {
    match step
    case Count(job, log) =>
      DroppingIsAccounted(s, job, f);
      CountingIsAccounted(Dropped(s, job), job, log, f);
    case CountFatal(job) => if job in s.halves { CountingFatalIsAccounted(s, job, f); }
    case Read(job) => ReadingIsAccounted(s, job, f);
    case Upsert(job) => UpsertingIsAccounted(s, job, f);
    case Report(_) =>
    case Abandon(job) => DroppingIsAccounted(s, job, f);
    case Operate(status, now) => OperatingIsAccounted(s, status, now, f);
  }

  /**
   Under every interleaving each detection was written once, is on its way, or was lost, and each log
   over the ten-minute threshold led to a detection or its job stands, or ended, before the second window.
   */
  lemma {:induction false} EveryDetectionIsAccountedFor(steps: seq<Step>, f: Fingerprint)
    ensures Accounted(Run(steps, f), f)
  {
    if steps != [] {
      EveryDetectionIsAccountedFor(steps[..|steps| - 1], f);
      StepIsAccounted(Run(steps[..|steps| - 1], f), steps[|steps| - 1], f);
    } else {
      assert Heavies(map[]) == {};
    }
  }

  // ---------------------------------------------------------------- when an incident exists

  /** Some log reached a threshold, by the logs up to it. */
  ghost predicate Reached(logs: seq<P.Event>, f: Fingerprint) {
    exists k :: P.TriggersAt(logs, k, f)
  }

  lemma StillReached(logs: seq<P.Event>, log: P.Event, f: Fingerprint)
    requires Reached(logs, f)
    ensures Reached(logs + [log], f)
  {
    var k :| P.TriggersAt(logs, k, f);
    assert (logs + [log])[..k + 1] == logs[..k + 1];
    assert P.TriggersAt(logs + [log], k, f);
  }

  lemma OverIsReached(logs: seq<P.Event>, log: Log, f: Fingerprint)
    requires log.fingerprint == f && P.Count10m(logs + [log], f, log.now) >= 5
    ensures Reached(logs + [log], f)
  {
    assert (logs + [log])[..|logs| + 1] == logs + [log];
    assert P.TriggersAt(logs + [log], |logs|, f);
  }

  /** The call of some log of the fingerprint. */
  ghost predicate MadeFor(logs: seq<P.Event>, f: Fingerprint, c: Call) {
    exists e :: e in logs && IsLog(e, f) && c == P.FatalCall(e)
  }

  ghost predicate HasHalf(halves: map<nat, Half>, e: P.Event) {
    exists j :: j in halves && halves[j].log == e
  }

  ghost predicate CalledFor(s: State, e: P.Event)
    requires e.Process?
  {
    P.FatalCall(e) in s.fatalCalls || HasHalf(s.halves, e)
  }

  /** The second window is called for logs counted in the first, for all but those of jobs that ended in between. */
  ghost predicate Calling(s: State, f: Fingerprint) {
    && (forall c :: c in s.fatalCalls ==> MadeFor(s.logs, f, c))
    && (forall j :: j in s.halves ==> s.halves[j].log in s.logs && IsLog(s.halves[j].log, f))
    && (f.fatal && s.tally.cut == 0 ==> forall e :: e in s.logs && IsLog(e, f) ==> CalledFor(s, e))
  }

  ghost predicate AnswersOver(calls: seq<Call>, i: nat) {
    i < |calls| && Answer(calls[..i + 1]) >= 3
  }

  /** An answer over the threshold is a detection. */
  ghost predicate Answered(s: State) {
    forall i :: AnswersOver(s.fatalCalls, i) ==> Told(s) > 0
  }

  lemma CountingKeepsCalling(s: State, job: nat, log: Log, f: Fingerprint)
    requires Calling(s, f) && Answered(s) && job !in s.halves
    ensures Calling(Counted(s, job, log, f), f) && Answered(Counted(s, job, log, f))
  {
    var s' := Counted(s, job, log, f);
    forall c | c in s'.fatalCalls ensures MadeFor(s'.logs, f, c) {
      assert MadeFor(s.logs, f, c);
    }
    if f.fatal && s'.tally.cut == 0 {
      forall e | e in s'.logs && IsLog(e, f) ensures CalledFor(s', e) {
        if e in s.logs {
          assert CalledFor(s, e);
          if j :| j in s.halves && s.halves[j].log == e {
            assert j in s'.halves && s'.halves[j].log == e;
          }
        } else {
          assert s'.halves[job].log == e;
        }
      }
    }
  }

  lemma CountingFatalKeepsCalling(s: State, job: nat, f: Fingerprint)
    requires Calling(s, f) && job in s.halves
    ensures Calling(CountedFatal(s, job), f)
  {
    var s', log := CountedFatal(s, job), s.halves[job].log;
    assert log in s.logs && IsLog(log, f);
    if f.fatal && s'.tally.cut == 0 {
      forall e | e in s'.logs && IsLog(e, f) ensures CalledFor(s', e) {
        assert CalledFor(s, e);
        if j :| j in s.halves && s.halves[j].log == e {
          assert j == job || (j in s'.halves && s'.halves[j].log == e);
          assert P.FatalCall(log) in s'.fatalCalls;
        }
      }
    }
  }

  lemma CountingFatalIsAnswered(s: State, job: nat)
    requires Answered(s) && job in s.halves
    ensures Answered(CountedFatal(s, job))
  {
    var s' := CountedFatal(s, job);
    forall i: nat | AnswersOver(s'.fatalCalls, i) ensures Told(s') > 0 {
      if i < |s.fatalCalls| {
        assert s'.fatalCalls[..i + 1] == s.fatalCalls[..i + 1];
        assert AnswersOver(s.fatalCalls, i);
      } else {
        assert s'.fatalCalls[..i + 1] == s'.fatalCalls;
      }
    }
  }

  lemma DroppingKeepsCalling(s: State, job: nat, f: Fingerprint)
    requires Calling(s, f) && Answered(s)
    ensures Calling(Dropped(s, job), f) && Answered(Dropped(s, job))
  {
    var s' := Dropped(s, job);
    if f.fatal && s'.tally.cut == 0 {
      assert s'.halves == s.halves;
      forall e | e in s'.logs && IsLog(e, f) ensures CalledFor(s', e) {
        assert CalledFor(s, e);
      }
    }
  }

  lemma StepKeepsCalling(s: State, step: Step, f: Fingerprint)
    requires Calling(s, f) && Answered(s)
    ensures Calling(Next(s, step, f), f) && Answered(Next(s, step, f))
  {
    match step
    case Count(job, log) =>
      DroppingKeepsCalling(s, job, f);
      CountingKeepsCalling(Dropped(s, job), job, log, f);
    case CountFatal(job) =>
      if job in s.halves {
        CountingFatalKeepsCalling(s, job, f);
        CountingFatalIsAnswered(s, job);
      }
    case Abandon(job) => DroppingKeepsCalling(s, job, f);
    case _ =>
      assert Told(Next(s, step, f)) == Told(s);
      assert forall e: P.Event :: e.Process? ==> CalledFor(Next(s, step, f), e) == CalledFor(s, e);
  }

  lemma {:induction false} EveryInterleavingCalls(steps: seq<Step>, f: Fingerprint)
    ensures Calling(Run(steps, f), f) && Answered(Run(steps, f))
  {
    if steps != [] {
      EveryInterleavingCalls(steps[..|steps| - 1], f);
      StepKeepsCalling(Run(steps[..|steps| - 1], f), steps[|steps| - 1], f);
    }
  }

  /** A log of another fingerprint, or of a later instant, is not processed yet. */
  lemma LaterLogIsNotProcessed(logs: seq<P.Event>, last: P.Event, f: Fingerprint, now: nat)
    requires IsLog(last, f) ==> now < last.now
    ensures P.Processed(logs + [last], f, now, P.FIVE_MINUTES_MS) == P.Processed(logs, f, now, P.FIVE_MINUTES_MS)
  {
    var all := P.Processed(logs + [last], f, now, P.FIVE_MINUTES_MS);
    forall m ensures m in all <==> m in P.Processed(logs, f, now, P.FIVE_MINUTES_MS) {
      if e :| e in logs + [last] && e.Process? && e.fingerprint == f
              && now - P.FIVE_MINUTES_MS < e.now <= now && e.rawLogId == m {
        assert e in logs;
      }
    }
  }

  /** The last log at an instant sees every log up to it. */
  lemma {:induction false} LastLogAt(logs: seq<P.Event>, f: Fingerprint, log: Log) returns (k: nat)
    requires P.Timely(logs) && log in logs && log.fingerprint == f
    ensures k < |logs| && IsLog(logs[k], f) && logs[k].now == log.now
    ensures P.Processed(logs[..k + 1], f, log.now, P.FIVE_MINUTES_MS)
         == P.Processed(logs, f, log.now, P.FIVE_MINUTES_MS)
    decreases |logs|
  {
    var front, last := logs[..|logs| - 1], logs[|logs| - 1];
    assert logs == front + [last];
    if IsLog(last, f) && last.now == log.now {
      k := |logs| - 1;
      assert logs[..k + 1] == logs;
    } else {
      P.TimelyFront(front, last);
      P.ClockIsLast(front);
      k := LastLogAt(front, f, log);
      assert logs[..k + 1] == front[..k + 1];
      LaterLogIsNotProcessed(front, last, f, log.now);
    }
  }

  /** In whatever order the calls come, the window counts no log but those processed in the five minutes. */
  lemma AnswersAreProcessed(logs: seq<P.Event>, f: Fingerprint, calls: seq<Call>, log: Log)
    requires f.fatal && log.fingerprint == f && calls != [] && calls[|calls| - 1] == P.FatalCall(log)
    requires forall c :: c in calls ==> MadeFor(logs, f, c)
    ensures Answer(calls) <= P.FatalCount5m(logs, f, log.now)
  {
    var last := calls[|calls| - 1];
    var z := Stored(calls, last.key);
    StoredIsSound(calls, last.key);
    TouchPrunes(Stored(calls[..|calls| - 1], last.key), last.member, last.now, last.windowMs);
    var found := set m | m in z.scores && last.now - last.windowMs <= z.scores[m] <= last.now;
    var processed := P.Processed(logs, f, log.now, P.FIVE_MINUTES_MS);
    forall m | m in found ensures m in processed {
      assert Called(calls, last.key, m, z.scores[m]);
      var c :| c in calls && c.key == last.key && c.member == m && c.now == z.scores[m];
      assert MadeFor(logs, f, c);
      var e :| e in logs && IsLog(e, f) && c == P.FatalCall(e);
      assert e.rawLogId == m && log.now - P.FIVE_MINUTES_MS < e.now <= log.now;
    }
    SubsetCardinality(found, processed);
    assert found == set m | m in Live(z, last.now) && last.now - last.windowMs <= Live(z, last.now)[m] <= last.now;
  }

  lemma AnswerIsReached(logs: seq<P.Event>, f: Fingerprint, calls: seq<Call>, log: Log)
    requires f.fatal && P.Timely(logs) && log in logs && log.fingerprint == f
    requires calls != [] && calls[|calls| - 1] == P.FatalCall(log) && Answer(calls) >= 3
    requires forall c :: c in calls ==> MadeFor(logs, f, c)
    ensures Reached(logs, f)
  {
    AnswersAreProcessed(logs, f, calls, log);
    var k := LastLogAt(logs, f, log);
    assert P.Clock(logs[..k + 1]) == log.now;
    assert P.TriggersAt(logs, k, f);
  }

  /** Whatever was detected, and whatever will be for its ten-minute count, has a log that reached a threshold. */
  ghost predicate Explained(s: State, f: Fingerprint) {
    !Reached(s.logs, f) ==> Told(s) == 0 && forall j :: j in s.halves ==> s.halves[j].count10m <= 4
  }

  lemma CountingIsExplained(s: State, job: nat, log: Log, f: Fingerprint)
    requires Explained(s, f)
    ensures Explained(Counted(s, job, log, f), f)
  {
    if Reached(s.logs, f) {
      StillReached(s.logs, log, f);
    } else if log.fingerprint == f && P.Count10m(s.logs + [log], f, log.now) >= 5 {
      OverIsReached(s.logs, log, f);
    }
  }

  lemma CountingFatalIsExplained(s: State, job: nat, f: Fingerprint)
    requires f.fatal && P.Timely(s.logs) && Explained(s, f) && Calling(s, f) && job in s.halves
    ensures Explained(CountedFatal(s, job), f)
  {
    var s', log := CountedFatal(s, job), s.halves[job].log;
    assert log in s.logs && IsLog(log, f);
    CountingFatalKeepsCalling(s, job, f);
    if Answer(s'.fatalCalls) >= 3 {
      AnswerIsReached(s.logs, f, s'.fatalCalls, log);
    }
  }

  lemma StepIsExplained(s: State, step: Step, f: Fingerprint)
    requires Explained(s, f) && Calling(s, f) && Accounted(s, f) && (f.fatal ==> P.Timely(s.logs))
    ensures Explained(Next(s, step, f), f)
  {
    match step
    case Count(job, log) =>
      assert Explained(Dropped(s, job), f);
      CountingIsExplained(Dropped(s, job), job, log, f);
    case CountFatal(job) => if job in s.halves { CountingFatalIsExplained(s, job, f); }
    case _ =>
  }

  lemma LogsOnlyGrow(s: State, step: Step, f: Fingerprint)
    requires P.Timely(Next(s, step, f).logs)
    ensures P.Timely(s.logs)
  {
    if step.Count? {
      P.TimelyFront(s.logs, step.log);
    }
  }

  lemma {:induction false} EveryInterleavingIsExplained(steps: seq<Step>, f: Fingerprint)
    requires f.fatal ==> P.Timely(Run(steps, f).logs)
    ensures Explained(Run(steps, f), f)
  {
    if steps != [] {
      var front, last := steps[..|steps| - 1], steps[|steps| - 1];
      if f.fatal {
        LogsOnlyGrow(Run(front, f), last, f);
      }
      EveryInterleavingIsExplained(front, f);
      EveryInterleavingCalls(front, f);
      EveryDetectionIsAccountedFor(front, f);
      StepIsExplained(Run(front, f), last, f);
    }
  }

  lemma {:induction false} OverOnceReached(logs: seq<P.Event>, k: nat, f: Fingerprint)
    requires k < |logs| && IsOver(logs[..k + 1], f)
    ensures Over(logs, f) > 0
    decreases |logs|
  {
    if k + 1 == |logs| {
      assert logs[..k + 1] == logs;
    } else {
      assert logs[..|logs| - 1][..k + 1] == logs[..k + 1];
      OverOnceReached(logs[..|logs| - 1], k, f);
    }
  }

  /**
   When an incident exists under racing workers: only if some log reached a threshold by the logs up
   to it, exactly as in a serial run of the same logs, and for an error fingerprint exactly then when
   no detection is on its way or lost. It is missing exactly when every detection is.
   */
  lemma ExistsIffWritten(steps: seq<Step>, f: Fingerprint)
    ensures var s := Run(steps, f);
      && ((f.fatal ==> P.Timely(s.logs)) && s.world.row.Some? ==> Reached(s.logs, f))
      && (!f.fatal && Unwritten(s) == 0 ==> (s.world.row.Some? <==> Reached(s.logs, f)))
      && (s.world.row.None? <==> Told(s) == Unwritten(s))
      && (!f.fatal ==> Told(s) == Over(s.logs, f))
  {
    var s := Run(steps, f);
    EveryDetectionIsAccountedFor(steps, f);
    if f.fatal ==> P.Timely(s.logs) {
      EveryInterleavingIsExplained(steps, f);
    }
    assert !f.fatal ==> Heavies(s.halves) == {};
    if k :| P.TriggersAt(s.logs, k, f) && !f.fatal {
      OverOnceReached(s.logs, k, f);
    }
  }

  /** The last call at an instant sees every call up to it. */
  lemma {:induction false} LastCallAt(calls: seq<Call>, call: Call) returns (i: nat)
    requires InOrder(calls) && call in calls && forall c :: c in calls ==> c.key == call.key
    ensures i < |calls| && calls[i].now == call.now && calls[i].key == call.key
    ensures Recent(calls[..i + 1], call.key, call.now, P.FIVE_MINUTES_MS)
         == Recent(calls, call.key, call.now, P.FIVE_MINUTES_MS)
  {
    LastIsNewest(calls);
    var front, last := calls[..|calls| - 1], calls[|calls| - 1];
    if last.now == call.now {
      i := |calls| - 1;
      assert calls[..i + 1] == calls;
    } else {
      i := LastCallAt(front, call);
      assert calls[..i + 1] == front[..i + 1];
    }
  }

  lemma RecentOfAll(logs: seq<P.Event>, f: Fingerprint, calls: seq<Call>, now: nat)
    requires forall e :: e in logs && IsLog(e, f) ==> P.FatalCall(e) in calls
    ensures P.Processed(logs, f, now, P.FIVE_MINUTES_MS)
         <= Recent(calls, FatalFiveMinuteKey(f), now, P.FIVE_MINUTES_MS)
  {
    forall m | m in P.Processed(logs, f, now, P.FIVE_MINUTES_MS)
      ensures m in Recent(calls, FatalFiveMinuteKey(f), now, P.FIVE_MINUTES_MS)
    {
      var e :| e in logs && IsLog(e, f) && now - P.FIVE_MINUTES_MS < e.now <= now && e.rawLogId == m;
      assert P.FatalCall(e) in calls;
    }
  }

  /**
   With every log of the fingerprint called for, in the order of the clock readings, a count over
   five minutes is answered.
   */
  lemma InOrderAnswers(logs: seq<P.Event>, f: Fingerprint, calls: seq<Call>, k: nat) returns (i: nat)
    requires f.fatal && InOrder(calls) && k < |logs| && IsLog(logs[k], f)
    requires forall c :: c in calls ==> MadeFor(logs, f, c)
    requires forall e :: e in logs && IsLog(e, f) ==> P.FatalCall(e) in calls
    ensures i < |calls|
    ensures P.FatalCount5m(logs[..k + 1], f, logs[k].now) <= Answer(calls[..i + 1])
  {
    var call := P.FatalCall(logs[k]);
    assert forall c :: c in calls ==> c.key == call.key && c.windowMs == P.FIVE_MINUTES_MS;
    assert logs[k] in logs;
    i := LastCallAt(calls, call);
    CountIsRecent(calls[..i + 1], P.FIVE_MINUTES_MS);
    RecentOfAll(logs[..k + 1], f, calls, call.now);
    SubsetCardinality(P.Processed(logs[..k + 1], f, call.now, P.FIVE_MINUTES_MS),
                      Recent(calls, call.key, call.now, P.FIVE_MINUTES_MS));
  }

  /** Every job has called its second window, and the calls came in order. */
  ghost predicate CalledInOrder(s: State) {
    InOrder(s.fatalCalls) && s.halves == map[] && s.tally.cut == 0
  }

  lemma AnswerOnceReached(s: State, f: Fingerprint, k: nat)
    requires f.fatal && Calling(s, f) && Answered(s) && CalledInOrder(s)
    requires P.TriggersAt(s.logs, k, f) && !IsOver(s.logs[..k + 1], f)
    ensures Told(s) > 0
  {
    forall e | e in s.logs && IsLog(e, f) ensures P.FatalCall(e) in s.fatalCalls {
      assert CalledFor(s, e);
    }
    var i := InOrderAnswers(s.logs, f, s.fatalCalls, k);
    assert AnswersOver(s.fatalCalls, i);
  }

  lemma ToldOnceReached(s: State, f: Fingerprint)
    requires f.fatal && Accounted(s, f) && Calling(s, f) && Answered(s) && CalledInOrder(s) && Reached(s.logs, f)
    ensures Told(s) > 0
  {
    var k :| P.TriggersAt(s.logs, k, f);
    if IsOver(s.logs[..k + 1], f) {
      OverOnceReached(s.logs, k, f);
      assert Heavies(s.halves) == {};
    } else {
      AnswerOnceReached(s, f, k);
    }
  }

  /**
   For a fatal fingerprint it is so as well, when every job called its second window, and those calls
   came in the order of their clock readings.
   */
  lemma FatalExistsIffReachedInOrder(steps: seq<Step>, f: Fingerprint)
    requires f.fatal && P.Timely(Run(steps, f).logs) && CalledInOrder(Run(steps, f))
    requires Unwritten(Run(steps, f)) == 0
    ensures Run(steps, f).world.row.Some? <==> Reached(Run(steps, f).logs, f)
  {
    var s := Run(steps, f);
    EveryDetectionIsAccountedFor(steps, f);
    EveryInterleavingIsExplained(steps, f);
    EveryInterleavingCalls(steps, f);
    if Reached(s.logs, f) {
      ToldOnceReached(s, f);
    }
  }

  /** With every earlier log called for in order, an uninterrupted job detects what the serial model says. */
  lemma UninterruptedDetectsSerially(s: State, job: nat, log: Log, f: Fingerprint)
    requires Calling(s, f) && CalledInOrder(s) && P.Timely(s.logs + [log])
    requires Idle(s, job) && log.fingerprint == f
    ensures var counted := Next(Next(s, Count(job, log), f), CountFatal(job), f).counted;
      var d := P.DetectionOf(s.logs + [log], f);
      counted == if d.None? then s.counted else s.counted[job := d.value]
  {
    assert s.counted - {job} == s.counted && s.halves - {job} == s.halves;
    if f.fatal {
      var all, calls := s.logs + [log], s.fatalCalls + [P.FatalCall(log)];
      InOrderIsSerial(s, log, f);
      assert Answer(calls) == P.FatalCount5m(all, f, log.now);
    }
  }

  lemma InOrderIsSerial(s: State, log: Log, f: Fingerprint)
    requires f.fatal && log.fingerprint == f
    requires Calling(s, f) && CalledInOrder(s) && P.Timely(s.logs + [log])
    ensures Answer(s.fatalCalls + [P.FatalCall(log)]) == P.FatalCount5m(s.logs + [log], f, log.now)
  {
    var all, calls := s.logs + [log], s.fatalCalls + [P.FatalCall(log)];
    P.TimelyFront(s.logs, log);
    P.ClockIsLast(s.logs);
    forall c | c in calls ensures MadeFor(all, f, c) && c.now <= log.now {
      assert c in s.fatalCalls ==> MadeFor(s.logs, f, c);
      assert log in all;
    }
    forall e | e in all && IsLog(e, f) ensures P.FatalCall(e) in calls {
      assert e in s.logs ==> CalledFor(s, e);
    }
    AnswersAreProcessed(all, f, calls, log);
    assert all[..|all|] == all && all[|s.logs|] == log;
    assert Recent(calls, P.FatalCall(log).key, log.now, P.FIVE_MINUTES_MS)
        >= P.Processed(all, f, log.now, P.FIVE_MINUTES_MS) by {
      RecentOfAll(all, f, calls, log.now);
    }
    CountIsRecent(calls, P.FIVE_MINUTES_MS);
    SubsetCardinality(P.Processed(all, f, log.now, P.FIVE_MINUTES_MS),
                      Recent(calls, P.FatalCall(log).key, log.now, P.FIVE_MINUTES_MS));
  }

  // ---------------------------------------------------------------- how severe

  /** Call `i` on the fatal window was for this log, and decided whether it is CRITICAL. */
  ghost predicate DecidedBy(calls: seq<Call>, i: nat, severity: I.Severity, rawLogId: Id) {
    && i < |calls| && calls[i].member == rawLogId
    && (severity == I.CRITICAL <==> Answer(calls[..i + 1]) >= 3)
  }

  ghost predicate SomeCallDecided(calls: seq<Call>, severity: I.Severity, rawLogId: Id) {
    exists i: nat :: DecidedBy(calls, i, severity, rawLogId)
  }

  /** CRITICAL by three fatal logs in five minutes, and otherwise HIGH by five logs in ten. */
  ghost predicate Judged(severity: I.Severity, recentCount: nat, rawLogId: Id, calls: seq<Call>, f: Fingerprint) {
    && (severity == I.CRITICAL || (severity == I.HIGH && recentCount >= 5))
    && (if f.fatal then SomeCallDecided(calls, severity, rawLogId) else severity == I.HIGH)
  }

  ghost predicate IsJudged(d: I.Detection, calls: seq<Call>, f: Fingerprint) {
    Judged(d.severity, d.recentCount, d.rawLogId, calls, f)
  }

  ghost predicate AllJudged(s: State, calls: seq<Call>, f: Fingerprint) {
    && (forall j :: j in s.counted ==> IsJudged(s.counted[j], calls, f))
    && (forall j :: j in s.world.held ==> IsJudged(s.world.held[j].input, calls, f))
    && (s.world.row.Some? ==>
          var r := s.world.row.value; Judged(r.severity, r.recentCount, r.lastRawLogId, calls, f))
  }

  lemma StillJudged(severity: I.Severity, recentCount: nat, rawLogId: Id, calls: seq<Call>, c: Call, f: Fingerprint)
    requires Judged(severity, recentCount, rawLogId, calls, f)
    ensures Judged(severity, recentCount, rawLogId, calls + [c], f)
  {
    if f.fatal {
      var i: nat :| DecidedBy(calls, i, severity, rawLogId);
      assert (calls + [c])[..i + 1] == calls[..i + 1];
      assert DecidedBy(calls + [c], i, severity, rawLogId);
    }
  }

  lemma AllStillJudged(s: State, c: Call, f: Fingerprint)
    requires AllJudged(s, s.fatalCalls, f)
    ensures AllJudged(s, s.fatalCalls + [c], f)
  {
    forall j | j in s.counted ensures IsJudged(s.counted[j], s.fatalCalls + [c], f) {
      var d := s.counted[j];
      StillJudged(d.severity, d.recentCount, d.rawLogId, s.fatalCalls, c, f);
    }
    forall j | j in s.world.held ensures IsJudged(s.world.held[j].input, s.fatalCalls + [c], f) {
      var d := s.world.held[j].input;
      StillJudged(d.severity, d.recentCount, d.rawLogId, s.fatalCalls, c, f);
    }
    if s.world.row.Some? {
      var r := s.world.row.value;
      StillJudged(r.severity, r.recentCount, r.lastRawLogId, s.fatalCalls, c, f);
    }
  }

  ghost predicate WellJudged(s: State, f: Fingerprint) {
    AllJudged(s, s.fatalCalls, f)
  }

  lemma CountingIsJudged(s: State, job: nat, log: Log, f: Fingerprint)
    requires WellJudged(s, f)
    ensures WellJudged(Counted(s, job, log, f), f)
  {
  }

  lemma CountingFatalIsJudged(s: State, job: nat, f: Fingerprint)
    requires f.fatal && WellJudged(s, f) && job in s.halves
    ensures WellJudged(CountedFatal(s, job), f)
  {
    var log := s.halves[job].log;
    var calls := s.fatalCalls + [P.FatalCall(log)];
    AllStillJudged(s, P.FatalCall(log), f);
    assert calls[..|s.fatalCalls| + 1] == calls;
    var severity := if Answer(calls) >= 3 then I.CRITICAL else I.HIGH;
    assert DecidedBy(calls, |s.fatalCalls|, severity, log.rawLogId);
  }

  lemma DroppingIsJudged(s: State, job: nat, f: Fingerprint)
    requires WellJudged(s, f)
    ensures WellJudged(Dropped(s, job), f)
  {
  }

  lemma ReadingIsJudged(s: State, job: nat, f: Fingerprint)
    requires WellJudged(s, f)
    ensures WellJudged(Next(s, Read(job), f), f)
  {
  }

  lemma UpsertingIsJudged(s: State, job: nat, f: Fingerprint)
    requires WellJudged(s, f)
    ensures WellJudged(Next(s, Upsert(job), f), f)
  {
  }

  lemma OperatingIsJudged(s: State, status: I.Status, now: int, f: Fingerprint)
    requires WellJudged(s, f)
    ensures WellJudged(Next(s, Operate(status, now), f), f)
  {
  }

  lemma StepIsJudged(s: State, step: Step, f: Fingerprint)
    requires Accounted(s, f) && WellJudged(s, f)
    ensures WellJudged(Next(s, step, f), f)
  {
    match step
    case Count(job, log) =>
      DroppingIsJudged(s, job, f);
      CountingIsJudged(Dropped(s, job), job, log, f);
    case CountFatal(job) => if job in s.halves { CountingFatalIsJudged(s, job, f); }
    case Read(job) => ReadingIsJudged(s, job, f);
    case Upsert(job) => UpsertingIsJudged(s, job, f);
    case Report(_) =>
    case Abandon(job) => DroppingIsJudged(s, job, f);
    case Operate(status, now) => OperatingIsJudged(s, status, now, f);
  }

  /**
   The severity of every detection on its way, and of the incident, under every interleaving: HIGH for an
   error fingerprint; for a fatal one CRITICAL exactly when its own call found three logs in five minutes.
   */
  lemma {:induction false} EveryInterleavingIsJudged(steps: seq<Step>, f: Fingerprint)
    ensures WellJudged(Run(steps, f), f)
  {
    if steps != [] {
      EveryInterleavingIsJudged(steps[..|steps| - 1], f);
      EveryDetectionIsAccountedFor(steps[..|steps| - 1], f);
      StepIsJudged(Run(steps[..|steps| - 1], f), steps[|steps| - 1], f);
    }
  }

  // ---------------------------------------------------------------- the lifetime counter

  /** A count some log was detected with: at most four ahead of the logs over the threshold, and low for fatal ones. */
  ghost predicate Fits(count: nat, over: nat, low: nat) {
    1 <= count <= 4 + over && (count <= 4 ==> low >= 1)
  }

  /** Every detection that is on its way, and every one that was written, was detected by some log. */
  ghost predicate AllFit(s: State, over: nat, low: nat) {
    && (forall j :: j in s.counted ==> Fits(s.counted[j].recentCount, over, low))
    && (forall j :: j in s.world.held ==> Fits(s.world.held[j].input.recentCount, over, low))
    && (s.world.row.Some? ==> Fits(s.world.row.value.recentCount, over, low))
    && (s.world.birth.Some? ==> Fits(s.world.birth.value.count, over, low))
  }

  ghost predicate HalvesFit(halves: map<nat, Half>, over: nat) {
    forall j :: j in halves ==> 1 <= halves[j].count10m <= 4 + over
  }

  ghost predicate AllWithin(s: State, over: nat) {
    HalvesFit(s.halves, over) && AllFit(s, over, s.tally.low)
  }

  ghost predicate Bounded(s: State, f: Fingerprint) {
    && P.Count10m(s.logs, f, P.Clock(s.logs)) <= 4 + Over(s.logs, f)
    && AllWithin(s, Over(s.logs, f))
  }

  /** One more log: the count stays at most four ahead of the logs over the threshold, and counts the log itself. */
  lemma CountMoves(logs: seq<P.Event>, log: Log, f: Fingerprint)
    requires P.Timely(logs + [log]) && P.Count10m(logs, f, P.Clock(logs)) <= 4 + Over(logs, f)
    ensures var all := logs + [log];
      && P.Count10m(all, f, log.now) <= 4 + Over(all, f) && Over(logs, f) <= Over(all, f)
      && (log.fingerprint == f ==> P.Count10m(all, f, log.now) >= 1)
  {
    P.CountGrowsByOne(logs, log, f, P.TEN_MINUTES_MS);
    OverOfOneMore(logs, log, f);
    P.ProcessedOfOneMore(logs, log, f, P.TEN_MINUTES_MS);
    if log.fingerprint == f {
      assert log.rawLogId in P.Processed(logs + [log], f, log.now, P.TEN_MINUTES_MS);
    }
  }

  lemma MoreFits(s: State, over: nat, more: nat)
    requires AllWithin(s, over) && over <= more
    ensures AllWithin(s, more)
  {
  }

  lemma DecidingFits(s: State, job: nat, log: Log, count10m: nat, fatalCount5m: nat, over: nat)
    requires AllFit(s, over, s.tally.low) && 1 <= count10m <= 4 + over
    ensures var s' := Decided(s, job, log, count10m, fatalCount5m); AllFit(s', over, s'.tally.low)
  {
  }

  lemma CountingStaysWithin(s: State, job: nat, log: Log, f: Fingerprint, over: nat)
    requires AllWithin(s, over)
    requires log.fingerprint == f ==> 1 <= P.Count10m(s.logs + [log], f, log.now) <= 4 + over
    ensures AllWithin(Counted(s, job, log, f), over)
  {
    var s1 := s.(logs := s.logs + [log]);
    if log.fingerprint == f && !f.fatal {
      DecidingFits(s1, job, log, P.Count10m(s1.logs, f, log.now), 0, over);
    }
  }

  lemma CountingStaysBounded(s: State, job: nat, log: Log, f: Fingerprint)
    requires Bounded(s, f) && P.Timely(s.logs + [log])
    ensures Bounded(Counted(s, job, log, f), f)
  {
    var over := Over(s.logs + [log], f);
    CountMoves(s.logs, log, f);
    MoreFits(s, Over(s.logs, f), over);
    CountingStaysWithin(s, job, log, f, over);
  }

  lemma CountingFatalStaysBounded(s: State, job: nat, f: Fingerprint)
    requires Bounded(s, f) && job in s.halves
    ensures Bounded(CountedFatal(s, job), f)
  {
    var half, over := s.halves[job], Over(s.logs, f);
    var calls := s.fatalCalls + [P.FatalCall(half.log)];
    var s1 := s.(halves := s.halves - {job}, fatalCalls := calls);
    DecidingFits(s1, job, half.log, half.count10m, Answer(calls), over);
  }

  lemma UpsertingStaysBounded(s: State, job: nat, f: Fingerprint)
    requires Bounded(s, f)
    ensures Bounded(Next(s, Upsert(job), f), f)
  {
  }

  lemma ReadingStaysBounded(s: State, job: nat, f: Fingerprint)
    requires Bounded(s, f)
    ensures Bounded(Next(s, Read(job), f), f)
  {
  }

  lemma DroppingStaysBounded(s: State, job: nat, f: Fingerprint)
    requires Bounded(s, f)
    ensures Bounded(Dropped(s, job), f)
  {
  }

  lemma OperatingStaysBounded(s: State, status: I.Status, now: int, f: Fingerprint)
    requires Bounded(s, f)
    ensures Bounded(Next(s, Operate(status, now), f), f)
  {
  }

  lemma StepStaysBounded(s: State, step: Step, f: Fingerprint)
    requires Bounded(s, f) && P.Timely(Next(s, step, f).logs)
    ensures Bounded(Next(s, step, f), f)
  {
    match step
    case Count(job, log) =>
      DroppingStaysBounded(s, job, f);
      CountingStaysBounded(Dropped(s, job), job, log, f);
    case CountFatal(job) => if job in s.halves { CountingFatalStaysBounded(s, job, f); }
    case Read(job) => ReadingStaysBounded(s, job, f);
    case Upsert(job) => UpsertingStaysBounded(s, job, f);
    case Report(_) =>
    case Abandon(job) => DroppingStaysBounded(s, job, f);
    case Operate(status, now) => OperatingStaysBounded(s, status, now, f);
  }

  lemma {:induction false} EveryInterleavingIsBounded(steps: seq<Step>, f: Fingerprint)
    requires P.Timely(Run(steps, f).logs)
    ensures Bounded(Run(steps, f), f)
  {
    if steps == [] {
      assert P.Count10m([], f, 0) == 0 by {
        assert P.Processed([], f, 0, P.TEN_MINUTES_MS) == {};
      }
    } else {
      var front, last := steps[..|steps| - 1], steps[|steps| - 1];
      LogsOnlyGrow(Run(front, f), last, f);
      EveryInterleavingIsBounded(front, f);
      StepStaysBounded(Run(front, f), last, f);
    }
  }

  /**
   The lifetime counter under every interleaving: it is behind the recent count by at most the
   detections on their way or lost, the undecided logs, and what a fatal incident was created short of
   four with, which is at most three.
   */
  lemma CounterCoversRecentUpToUnwritten(steps: seq<Step>, f: Fingerprint)
    requires P.Timely(Run(steps, f).logs) && Run(steps, f).world.row.Some?
    ensures var s := Run(steps, f);
      && s.world.birth.Some?
      && s.world.row.value.recentCount
         <= s.world.row.value.occurrenceCount + Unwritten(s) + Undecided(s)
            + (if s.world.birth.value.count >= 4 then 0 else 4 - s.world.birth.value.count)
      && s.world.birth.value.count >= 1
      && (!f.fatal ==> s.world.birth.value.count >= 5 && Undecided(s) == 0)
  {
    EveryDetectionIsAccountedFor(steps, f);
    EveryInterleavingIsBounded(steps, f);
  }
}
