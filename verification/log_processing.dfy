/**
 Serial log processing: every log is counted in the sliding windows of its fingerprint, and a
 count over a threshold opens or updates the incident. Jobs of all fingerprints and operator
 status changes come in any order; delivery is at-least-once, so a log id may come again.
 */
module LogProcessing {
  import opened Wrappers
  import opened FixedWindow
  import opened RedisStore
  import opened Incidents

  const TEN_MINUTES_MS: Positive := 600000
  const FIVE_MINUTES_MS: Positive := 300000

  datatype Event =
    | Process(fingerprint: Fingerprint, rawLogId: Id, title: string, timestamp: int, now: nat)
    | Operate(target: Fingerprint, status: Status, now: nat)

  ghost predicate Timely(es: seq<Event>) {
    forall i, j :: 0 <= i < j < |es| ==> es[i].now <= es[j].now
  }

  ghost function Clock(es: seq<Event>): nat {
    if es == [] then 0 else es[|es| - 1].now
  }

  ghost function TenMinuteCall(e: Event): Call
    requires e.Process?
  {
    Call(TenMinuteKey(e.fingerprint), e.rawLogId, e.now, TEN_MINUTES_MS)
  }

  ghost function FatalCall(e: Event): Call
    requires e.Process?
  {
    Call(FatalFiveMinuteKey(e.fingerprint), e.rawLogId, e.now, FIVE_MINUTES_MS)
  }

  /** The window calls one event makes. */
  ghost function CallsOf(e: Event): seq<Call> {
    if e.Operate? then []
    else [TenMinuteCall(e)] + if e.fingerprint.fatal then [FatalCall(e)] else []
  }

  ghost function Calls(es: seq<Event>): seq<Call> {
    if es == [] then [] else Calls(es[..|es| - 1]) + CallsOf(es[|es| - 1])
  }

  /** Definition: the log ids of a fingerprint processed at instants in `(now - windowMs, now]`. */
  ghost function Processed(es: seq<Event>, f: Fingerprint, now: int, windowMs: nat): set<Id> {
    set e | e in es && e.Process? && e.fingerprint == f && now - windowMs < e.now <= now :: e.rawLogId
  }

  ghost function Count10m(es: seq<Event>, f: Fingerprint, now: int): nat {
    |Processed(es, f, now, TEN_MINUTES_MS)|
  }

  ghost function FatalCount5m(es: seq<Event>, f: Fingerprint, now: int): nat {
    if f.fatal then |Processed(es, f, now, FIVE_MINUTES_MS)| else 0
  }

  /** Whether the last event is a log that reaches a threshold. */
  ghost predicate Triggers(es: seq<Event>, f: Fingerprint) {
    && es != [] && es[|es| - 1].Process? && es[|es| - 1].fingerprint == f
    && (Count10m(es, f, Clock(es)) >= 5 || (f.fatal && FatalCount5m(es, f, Clock(es)) >= 3))
  }

  /** What the last event of a run detects, when it is a log of `f` over a threshold. */
  ghost function DetectionOf(es: seq<Event>, f: Fingerprint): Option<Detection> {
    if es == [] || es[|es| - 1].Operate? || es[|es| - 1].fingerprint != f then None
    else
      var last := es[|es| - 1];
      var severity := TriggeredSeverity(Count10m(es, f, last.now), FatalCount5m(es, f, last.now));
      if severity.None? then None
      else Some(Detection(last.rawLogId, last.title, severity.value, Count10m(es, f, last.now), last.timestamp))
  }

  /** The incident row of a fingerprint after a serial run. */
  ghost function Row(es: seq<Event>, f: Fingerprint): Option<Incident> {
    if es == [] then None
    else
      var last, row := es[|es| - 1], Row(es[..|es| - 1], f);
      if last.Operate? then
        if last.target == f && row.Some? then Some(StatusSet(row.value, last.status, last.now)) else row
      else
        var detection := DetectionOf(es, f);
        if detection.None? then row else Detected(row, detection.value)
  }

  // ---------------------------------------------------------------- the windows count what was processed

  lemma AppendInOrder(front: seq<Call>, added: seq<Call>, clock: nat, now: nat)
    requires InOrder(front) && clock <= now && forall c :: c in front ==> c.now <= clock
    requires forall c :: c in added ==> c.now == now
    ensures InOrder(front + added) && forall c :: c in front + added ==> c.now <= now
  {
  }

  lemma {:induction false} CallsAreInOrder(es: seq<Event>)
    requires Timely(es)
    ensures InOrder(Calls(es)) && forall c :: c in Calls(es) ==> c.now <= Clock(es)
  {
    if es != [] {
      var front, last := es[..|es| - 1], es[|es| - 1];
      CallsAreInOrder(front);
      assert front != [] ==> front[|front| - 1].now <= last.now;
      AppendInOrder(Calls(front), CallsOf(last), Clock(front), last.now);
    }
  }

  ghost predicate MadeBy(c: Call, e: Event) {
    e.Process? && (c == TenMinuteCall(e) || (e.fingerprint.fatal && c == FatalCall(e)))
  }

  lemma {:induction false} CallsAreMade(es: seq<Event>, c: Call)
    ensures c in Calls(es) <==> exists e :: e in es && MadeBy(c, e)
  {
    if es != [] {
      var front, last := es[..|es| - 1], es[|es| - 1];
      CallsAreMade(front, c);
      assert es == front + [last];
      assert c in CallsOf(last) <==> MadeBy(c, last);
    }
  }

  lemma CallsHaveOneWidth(es: seq<Event>, f: Fingerprint)
    ensures OneWidth(Calls(es), TenMinuteKey(f), TEN_MINUTES_MS)
    ensures OneWidth(Calls(es), FatalFiveMinuteKey(f), FIVE_MINUTES_MS)
  {
    forall c | c in Calls(es)
      ensures c.key == TenMinuteKey(f) ==> c.windowMs == TEN_MINUTES_MS
      ensures c.key == FatalFiveMinuteKey(f) ==> c.windowMs == FIVE_MINUTES_MS
    {
      CallsAreMade(es, c);
    }
  }

  /** What the windows count is the set of logs processed. */
  lemma RecentIsProcessed(es: seq<Event>, f: Fingerprint, now: int, m: Id)
    ensures m in Recent(Calls(es), TenMinuteKey(f), now, TEN_MINUTES_MS) <==> m in Processed(es, f, now, TEN_MINUTES_MS)
    ensures f.fatal ==> (m in Recent(Calls(es), FatalFiveMinuteKey(f), now, FIVE_MINUTES_MS)
                         <==> m in Processed(es, f, now, FIVE_MINUTES_MS))
  {
    if c :| c in Calls(es) && c.member == m && c.key == TenMinuteKey(f) && now - TEN_MINUTES_MS < c.now <= now {
      CallsAreMade(es, c);
    }
    if c :| c in Calls(es) && c.member == m && c.key == FatalFiveMinuteKey(f) && now - FIVE_MINUTES_MS < c.now <= now {
      CallsAreMade(es, c);
    }
    if e :| e in es && e.Process? && e.fingerprint == f && e.rawLogId == m && now - TEN_MINUTES_MS < e.now <= now {
      CallsAreMade(es, TenMinuteCall(e));
      assert MadeBy(TenMinuteCall(e), e);
    }
    if e :| e in es && e.Process? && e.fingerprint == f && e.rawLogId == m && now - FIVE_MINUTES_MS < e.now <= now {
      CallsAreMade(es, FatalCall(e));
      assert f.fatal ==> MadeBy(FatalCall(e), e);
    }
  }

  lemma CountsAreProcessed(es: seq<Event>, f: Fingerprint, now: int)
    ensures |Recent(Calls(es), TenMinuteKey(f), now, TEN_MINUTES_MS)| == Count10m(es, f, now)
    ensures f.fatal ==> |Recent(Calls(es), FatalFiveMinuteKey(f), now, FIVE_MINUTES_MS)| == FatalCount5m(es, f, now)
  {
    forall m
      ensures m in Recent(Calls(es), TenMinuteKey(f), now, TEN_MINUTES_MS)
          <==> m in Processed(es, f, now, TEN_MINUTES_MS)
      ensures f.fatal ==> (m in Recent(Calls(es), FatalFiveMinuteKey(f), now, FIVE_MINUTES_MS)
                           <==> m in Processed(es, f, now, FIVE_MINUTES_MS))
    {
      RecentIsProcessed(es, f, now, m);
    }
    assert Recent(Calls(es), TenMinuteKey(f), now, TEN_MINUTES_MS) == Processed(es, f, now, TEN_MINUTES_MS);
    if f.fatal {
      assert Recent(Calls(es), FatalFiveMinuteKey(f), now, FIVE_MINUTES_MS) == Processed(es, f, now, FIVE_MINUTES_MS);
    }
  }

  // ---------------------------------------------------------------- how a count moves

  ghost function Ids(e: Event, f: Fingerprint): set<Id> {
    if e.Process? && e.fingerprint == f then {e.rawLogId} else {}
  }

  ghost predicate Processes(e: Event, f: Fingerprint, now: int, windowMs: nat) {
    e.Process? && e.fingerprint == f && now - windowMs < e.now <= now
  }

  lemma ProcessedOfOneMore(es: seq<Event>, e: Event, f: Fingerprint, windowMs: Positive)
    ensures Processed(es + [e], f, e.now, windowMs) == Processed(es, f, e.now, windowMs) + Ids(e, f)
  {
    var all := Processed(es + [e], f, e.now, windowMs);
    forall m ensures m in all <==> m in Processed(es, f, e.now, windowMs) + Ids(e, f) {
      if x :| x in es + [e] && Processes(x, f, e.now, windowMs) && x.rawLogId == m {
        assert x == e || x in es;
      }
      if x :| x in es && x.Process? && x.fingerprint == f && e.now - windowMs < x.now <= e.now && x.rawLogId == m {
        assert x in es + [e];
      }
      assert e in es + [e];
    }
  }

  lemma {:induction false} ClockIsLast(es: seq<Event>)
    requires Timely(es)
    ensures forall e :: e in es ==> e.now <= Clock(es)
  {
  }

  /**
   From one event to the next a count grows by at most one, and only for a log of the fingerprint
   that is not in the window any more: reprocessing one that still is never raises it.
   */
  lemma CountGrowsByOne(es: seq<Event>, e: Event, f: Fingerprint, windowMs: Positive)
    requires Timely(es + [e])
    ensures var before, after := Processed(es, f, Clock(es), windowMs), Processed(es + [e], f, e.now, windowMs);
      && |after| <= |before| + 1
      && (!e.Process? || e.fingerprint != f || e.rawLogId in Processed(es, f, e.now, windowMs) ==> |after| <= |before|)
  {
    TimelyFront(es, e);
    ClockIsLast(es);
    ProcessedOfOneMore(es, e, f, windowMs);
    var before, still := Processed(es, f, Clock(es), windowMs), Processed(es, f, e.now, windowMs);
    assert still <= before;
    SubsetCardinality(still, before);
    SubsetCardinality(still + Ids(e, f), before + Ids(e, f));
  }

  lemma TimelyFront(es: seq<Event>, e: Event)
    requires Timely(es + [e])
    ensures Timely(es) && Clock(es) <= e.now
  {
    var all := es + [e];
    assert forall i :: 0 <= i < |es| ==> es[i] == all[i];
    assert all[|es|] == e;
  }

  lemma WiderWindowCountsMore(es: seq<Event>, f: Fingerprint, now: int)
    ensures |Processed(es, f, now, FIVE_MINUTES_MS)| <= |Processed(es, f, now, TEN_MINUTES_MS)|
  {
    SubsetCardinality(Processed(es, f, now, FIVE_MINUTES_MS), Processed(es, f, now, TEN_MINUTES_MS));
  }

  // ---------------------------------------------------------------- when an incident exists

  ghost predicate TriggersAt(es: seq<Event>, k: nat, f: Fingerprint) {
    k < |es| && Triggers(es[..k + 1], f)
  }

  /** An incident exists exactly when some log so far reached a threshold. */
  lemma {:induction false} ExistsIffTriggered(es: seq<Event>, f: Fingerprint)
    ensures Row(es, f).Some? <==> exists k :: TriggersAt(es, k, f)
  {
    if es != [] {
      var front := es[..|es| - 1];
      ExistsIffTriggered(front, f);
      forall k: nat ensures TriggersAt(es, k, f) <==> TriggersAt(front, k, f) || (k == |front| && Triggers(es, f)) {
        if k < |front| {
          assert es[..k + 1] == front[..k + 1];
        } else if k == |front| {
          assert es[..k + 1] == es;
        }
      }
      assert Triggers(es, f) <==> TriggersAt(es, |front|, f);
    }
  }

  /** Until an incident exists both counts stay under their thresholds, at the last event and afterwards. */
  lemma {:induction false} UnderThresholdUntilOpened(es: seq<Event>, f: Fingerprint)
    requires Timely(es) && Row(es, f).None?
    ensures Count10m(es, f, Clock(es)) < 5 && FatalCount5m(es, f, Clock(es)) < 3
  {
    if es != [] {
      var front, e := es[..|es| - 1], es[|es| - 1];
      assert front + [e] == es;
      UnderThresholdUntilOpened(front, f);
      CountGrowsByOne(front, e, f, TEN_MINUTES_MS);
      CountGrowsByOne(front, e, f, FIVE_MINUTES_MS);
    }
  }

  /** A retry of a log still in its window never opens an incident. */
  lemma RetryOpensNothing(es: seq<Event>, e: Event, f: Fingerprint)
    requires Timely(es + [e]) && Row(es, f).None?
    requires e.Process? && e.fingerprint == f ==>
               e.rawLogId in Processed(es, f, e.now, if f.fatal then FIVE_MINUTES_MS else TEN_MINUTES_MS)
    ensures Row(es + [e], f).None?
  {
    assert (es + [e])[..|es|] == es;
    assert DetectionOf(es + [e], f).None? by {
      if e.Process? && e.fingerprint == f {
        TimelyFront(es, e);
        UnderThresholdUntilOpened(es, f);
        assert e.rawLogId in Processed(es, f, e.now, TEN_MINUTES_MS);
        CountGrowsByOne(es, e, f, TEN_MINUTES_MS);
        CountGrowsByOne(es, e, f, FIVE_MINUTES_MS);
      }
    }
  }

  // ---------------------------------------------------------------- what a detection says

  /** What is detected of the last log: its own data, how many logs there were in ten minutes, and how severe it is. */
  ghost predicate Says(d: Detection, es: seq<Event>, f: Fingerprint)
    requires es != [] && es[|es| - 1].Process?
  {
    var last := es[|es| - 1];
    && d.rawLogId == last.rawLogId && d.title == last.title && d.timestamp == last.timestamp
    && d.recentCount == |Processed(es, f, last.now, 600_000)|
    && (d.severity == CRITICAL <==> f.fatal && |Processed(es, f, last.now, 300_000)| >= 3)
    && (d.severity == CRITICAL || d.severity == HIGH)
  }

  /**
   The rule for a detection: five logs of the fingerprint in ten minutes, or three fatal ones in five
   minutes, and the latter make it CRITICAL, whatever else was reached.
   */
  lemma DetectionByHistory(es: seq<Event>, f: Fingerprint)
    ensures DetectionOf(es, f).Some? <==>
              && es != [] && es[|es| - 1].Process? && es[|es| - 1].fingerprint == f
              && (|Processed(es, f, Clock(es), 600_000)| >= 5
                  || (f.fatal && |Processed(es, f, Clock(es), 300_000)| >= 3))
    ensures DetectionOf(es, f).Some? ==> Says(DetectionOf(es, f).value, es, f)
  {
  }

  /** The row shows what this detection says. */
  ghost predicate Shows(r: Incident, es: seq<Event>, f: Fingerprint) {
    && DetectionOf(es, f).Some?
    && r.severity == DetectionOf(es, f).value.severity && r.title == DetectionOf(es, f).value.title
    && r.recentCount == DetectionOf(es, f).value.recentCount && r.lastRawLogId == DetectionOf(es, f).value.rawLogId
  }

  /** Log `k` was the last one to reach a threshold. */
  ghost predicate LastTrigger(es: seq<Event>, f: Fingerprint, k: nat) {
    TriggersAt(es, k, f) && forall j :: k < j < |es| ==> !TriggersAt(es, j, f)
  }

  lemma NoLaterTrigger(es: seq<Event>, f: Fingerprint, k: nat)
    requires es != [] && LastTrigger(es[..|es| - 1], f, k) && DetectionOf(es, f).None?
    ensures LastTrigger(es, f, k)
  {
    var n := |es| - 1;
    var front := es[..n];
    assert front[..k + 1] == es[..k + 1] && es[..n + 1] == es;
    forall j | k < j < |es| ensures !TriggersAt(es, j, f) {
      if j < n {
        assert !TriggersAt(front, j, f) && front[..j + 1] == es[..j + 1];
      }
    }
  }

  lemma {:induction false} LastTriggerOf(es: seq<Event>, f: Fingerprint) returns (k: nat)
    requires Row(es, f).Some?
    ensures LastTrigger(es, f, k) && Shows(Row(es, f).value, es[..k + 1], f)
  {
    var n := |es| - 1;
    assert es[..n + 1] == es;
    if DetectionOf(es, f).Some? {
      k := n;
    } else {
      k := LastTriggerOf(es[..n], f);
      NoLaterTrigger(es, f, k);
      assert es[..n][..k + 1] == es[..k + 1];
    }
  }

  /** The row of a serial run shows what was detected last, and is CRITICAL exactly when three fatal logs made it so. */
  lemma RowShowsLastDetection(es: seq<Event>, f: Fingerprint)
    requires Row(es, f).Some?
    ensures exists k: nat :: LastTrigger(es, f, k) && Shows(Row(es, f).value, es[..k + 1], f)
              && (Row(es, f).value.severity == CRITICAL <==>
                    f.fatal && |Processed(es[..k + 1], f, es[k].now, 300_000)| >= 3)
  {
    var k := LastTriggerOf(es, f);
    DetectionByHistory(es[..k + 1], f);
  }

  // ---------------------------------------------------------------- the lifetime counter

  /** The count an incident was created with. */
  ghost function CreationCount(es: seq<Event>, f: Fingerprint): nat {
    if es == [] || Row(es, f).None? then 0
    else if Row(es[..|es| - 1], f).None? then Row(es, f).value.occurrenceCount
    else CreationCount(es[..|es| - 1], f)
  }

  /** The lifetime counter against the window count: one behind at most, and only after a creation at three. */
  ghost predicate Covered(row: Incident, born: nat, windowCount: nat, fatal: bool) {
    var slack := if born >= 4 then 0 else 1;
    && born >= (if fatal then 3 else 5)
    && row.occurrenceCount >= born
    && windowCount <= row.occurrenceCount + slack
    && row.recentCount <= row.occurrenceCount + slack
  }

  lemma {:induction false} CounterCoversWindow(es: seq<Event>, f: Fingerprint)
    requires Timely(es) && Row(es, f).Some?
    ensures Covered(Row(es, f).value, CreationCount(es, f), Count10m(es, f, Clock(es)), f.fatal)
  {
    var front, e := es[..|es| - 1], es[|es| - 1];
    assert front + [e] == es;
    TimelyFront(front, e);
    CountGrowsByOne(front, e, f, TEN_MINUTES_MS);
    if Row(front, f).Some? {
      CounterCoversWindow(front, f);
      if DetectionOf(es, f).None? && e.Process? && e.fingerprint == f {
        assert Count10m(es, f, Clock(es)) <= 4;
      }
    } else {
      WiderWindowCountsMore(es, f, e.now);
      assert DetectionOf(es, f).Some?;
    }
  }

  /**
   The lifetime counter is never behind the window count shown beside it for an error-level
   fingerprint, nor for a fatal one created with at least four logs in the window; a fatal one
   created with three can be behind, by one.
   */
  lemma CounterCoversRecent(es: seq<Event>, f: Fingerprint)
    requires Timely(es) && Row(es, f).Some?
    ensures !f.fatal || CreationCount(es, f) >= 4 ==> Row(es, f).value.recentCount <= Row(es, f).value.occurrenceCount
    ensures Row(es, f).value.recentCount <= Row(es, f).value.occurrenceCount + 1
  {
    CounterCoversWindow(es, f);
  }

  lemma {:induction false} CountIsAtMostLength(es: seq<Event>, f: Fingerprint)
    requires Timely(es)
    ensures Count10m(es, f, Clock(es)) <= |es|
  {
    if es == [] {
      assert Processed(es, f, 0, TEN_MINUTES_MS) == {};
    } else {
      var front, e := es[..|es| - 1], es[|es| - 1];
      assert front + [e] == es;
      CountIsAtMostLength(front, f);
      CountGrowsByOne(front, e, f, TEN_MINUTES_MS);
    }
  }

  lemma {:induction false} FewLogsOpenNothing(es: seq<Event>, f: Fingerprint)
    requires Timely(es) && |es| < 3
    ensures Row(es, f).None?
  {
    if es != [] {
      FewLogsOpenNothing(es[..|es| - 1], f);
      CountIsAtMostLength(es, f);
      WiderWindowCountsMore(es, f, Clock(es));
    }
  }

  ghost function Log(f: Fingerprint, id: Id, now: nat): Event {
    Process(f, id, "", 0, now)
  }

  lemma ThreeLogsProcessed(f: Fingerprint, windowMs: Positive)
    ensures Processed([Log(f, 1, 0), Log(f, 2, 0), Log(f, 3, 0)], f, 0, windowMs) == {1, 2, 3}
  {
    var es := [Log(f, 1, 0), Log(f, 2, 0), Log(f, 3, 0)];
    assert es[0] in es && es[1] in es && es[2] in es;
  }

  lemma ThreeFatalLogs(f: Fingerprint)
    requires f.fatal
    ensures Row([Log(f, 1, 0), Log(f, 2, 0), Log(f, 3, 0)], f) == Some(Created(Detection(3, "", CRITICAL, 3, 0)))
  {
    var es := [Log(f, 1, 0), Log(f, 2, 0), Log(f, 3, 0)];
    FewLogsOpenNothing(es[..2], f);
    ThreeLogsProcessed(f, TEN_MINUTES_MS);
    ThreeLogsProcessed(f, FIVE_MINUTES_MS);
    assert |{1, 2, 3}| == 3;
    assert DetectionOf(es, f) == Some(Detection(3, "", CRITICAL, 3, 0));
  }

  lemma FourthAfterQuiet(f: Fingerprint)
    requires f.fatal
    ensures var es := [Log(f, 1, 0), Log(f, 2, 0), Log(f, 3, 0)];
      Row(es + [Log(f, 4, 300000)], f) == Row(es, f)
  {
    var es := [Log(f, 1, 0), Log(f, 2, 0), Log(f, 3, 0)];
    var all := es + [Log(f, 4, 300000)];
    assert all[..3] == es;
    assert Processed(all, f, 300000, FIVE_MINUTES_MS) == {4};
    CountIsAtMostLength(all, f);
  }

  ghost function FiveLogs(f: Fingerprint): seq<Event> {
    [Log(f, 1, 0), Log(f, 2, 0), Log(f, 3, 0), Log(f, 4, 300000), Log(f, 5, 300001)]
  }

  lemma FiveLogsInTenMinutes(f: Fingerprint)
    ensures Processed(FiveLogs(f), f, 300001, TEN_MINUTES_MS) == {1, 2, 3, 4, 5}
  {
    var es := FiveLogs(f);
    assert es[0] in es && es[1] in es && es[2] in es && es[3] in es && es[4] in es;
  }

  lemma TwoLogsInFiveMinutes(f: Fingerprint)
    ensures Processed(FiveLogs(f), f, 300001, FIVE_MINUTES_MS) == {4, 5}
  {
    var es := FiveLogs(f);
    assert es[3] in es && es[4] in es;
  }

  lemma FifthDetection(f: Fingerprint)
    requires f.fatal
    ensures DetectionOf(FiveLogs(f), f) == Some(Detection(5, "", HIGH, 5, 0))
  {
    FiveLogsInTenMinutes(f);
    TwoLogsInFiveMinutes(f);
    assert |{1, 2, 3, 4, 5}| == 5;
  }

  /** A fatal fingerprint created with three logs, five minutes of quiet, and two more: five recent, four in total. */
  lemma FatalCounterCanFallBehind(f: Fingerprint)
    requires f.fatal
    ensures exists es :: Timely(es) && Row(es, f).Some?
              && Row(es, f).value.recentCount == 5 && Row(es, f).value.occurrenceCount == 4
  {
    var three := [Log(f, 1, 0), Log(f, 2, 0), Log(f, 3, 0)];
    ThreeFatalLogs(f);
    FourthAfterQuiet(f);
    FifthDetection(f);
    var es := FiveLogs(f);
    assert es[..4] == three + [Log(f, 4, 300000)];
    assert Row(es, f) == Detected(Row(es[..4], f), Detection(5, "", HIGH, 5, 0));
  }

  ghost predicate RecentIsCovered(row: Option<Incident>) {
    row.Some? ==> row.value.recentCount <= row.value.occurrenceCount
  }

  /** The recent count is covered in every serial run exactly for the fingerprints that are not fatal. */
  lemma RecentIsCoveredExactlyForErrors(f: Fingerprint)
    ensures (forall es :: Timely(es) ==> RecentIsCovered(Row(es, f))) <==> !f.fatal
  {
    if f.fatal {
      FatalCounterCanFallBehind(f);
    } else {
      forall es | Timely(es) ensures RecentIsCovered(Row(es, f)) {
        if Row(es, f).Some? {
          CounterCoversRecent(es, f);
        }
      }
    }
  }

  // ---------------------------------------------------------------- the trigger history of a processed fingerprint

  /** The incident operations a run performs on one fingerprint. */
  ghost function OpsOf(es: seq<Event>, f: Fingerprint): seq<Op> {
    if es == [] then []
    else
      var last, detection := es[|es| - 1], DetectionOf(es, f);
      OpsOf(es[..|es| - 1], f)
      + if last.Operate? then (if last.target == f then [SetStatus(last.status, last.now)] else [])
        else if detection.Some? then [Detect(detection.value)] else []
  }

  lemma {:induction false} RowIsSerial(es: seq<Event>, f: Fingerprint)
    ensures Row(es, f) == Serial(OpsOf(es, f))
    ensures forall i :: 0 <= i < |OpsOf(es, f)| && OpsOf(es, f)[i].Detect? ==>
              OpsOf(es, f)[i].input.severity in {HIGH, CRITICAL}
  {
    if es != [] {
      var front := OpsOf(es[..|es| - 1], f);
      RowIsSerial(es[..|es| - 1], f);
      if OpsOf(es, f) == front {
      } else {
        assert OpsOf(es, f)[..|front|] == front;
      }
    }
  }

  /** Processed logs only ever escalate to CRITICAL, so between two escalations some detection lowered the severity. */
  lemma ProcessedEscalationsAreSeparated(es: seq<Event>, f: Fingerprint, i: nat, j: nat)
    requires i < j < |OpsOf(es, f)|
    requires Raised(OpsOf(es, f), i) == Some(RaiseSeverityIncreased)
    requires Raised(OpsOf(es, f), j) == Some(RaiseSeverityIncreased)
    ensures exists k :: i < k < j && Lowered(OpsOf(es, f), k)
  {
    var ops := OpsOf(es, f);
    RowIsSerial(es, f);
    TriggerByHistory(ops, i);
    LastDetectionIsDetected(ops[..i]);
    EscalationsAreSeparated(ops, i, j);
  }

  /** A processed fingerprint escalates exactly from HIGH to CRITICAL. */
  lemma EscalationIsToCritical(es: seq<Event>, f: Fingerprint, j: nat)
    requires j < |OpsOf(es, f)| && OpsOf(es, f)[j].Detect?
    ensures var ops := OpsOf(es, f);
      var before := ops[..j];
      Raised(ops, j) == Some(RaiseSeverityIncreased) <==>
        && LastDetection(before).Some? && !JustResolved(before)
        && LastDetection(before).value.severity == HIGH && ops[j].input.severity == CRITICAL
  {
    var ops := OpsOf(es, f);
    RowIsSerial(es, f);
    TriggerByHistory(ops, j);
    if LastDetection(ops[..j]).Some? {
      LastDetectionIsDetected(ops[..j]);
    }
  }

  lemma {:induction false} LastDetectionIsDetected(ops: seq<Op>)
    requires LastDetection(ops).Some?
    ensures exists i :: 0 <= i < |ops| && ops[i] == Detect(LastDetection(ops).value)
  {
    if !ops[|ops| - 1].Detect? {
      LastDetectionIsDetected(ops[..|ops| - 1]);
    }
  }

  // ---------------------------------------------------------------- the worker

  ghost predicate RowsAgree(incidents: map<Fingerprint, Incident>, history: seq<Event>) {
    forall f: Fingerprint :: RowOf(incidents, f) == Row(history, f)
  }

  function RowOf(incidents: map<Fingerprint, Incident>, f: Fingerprint): Option<Incident> {
    if f in incidents then Some(incidents[f]) else None
  }

  /** An entry of a log that all fingerprints share. */
  type Named<T> = (Fingerprint, T)

  ghost function TimelineOf(f: Fingerprint, row: Option<Incident>, d: Option<Detection>)
    : seq<Named<EventType>>
  {
    if d.Some? && EventFor(SnapshotOf(row), d.value).Some? then [(f, EventFor(SnapshotOf(row), d.value).value)] else []
  }

  ghost function RaisedOf(f: Fingerprint, row: Option<Incident>, d: Option<Detection>): seq<Named<Trigger>> {
    if d.Some? && AlertTriggerFor(SnapshotOf(row), d.value).Some?
    then [(f, AlertTriggerFor(SnapshotOf(row), d.value).value)] else []
  }

  /** The timeline events of a serial run, in order. */
  ghost function Timeline(es: seq<Event>): seq<Named<EventType>> {
    if es == [] then []
    else
      var front, last := es[..|es| - 1], es[|es| - 1];
      Timeline(front)
      + if last.Process?
        then TimelineOf(last.fingerprint, Row(front, last.fingerprint), DetectionOf(es, last.fingerprint))
        else if Row(front, last.target).Some? then [(last.target, STATUS_CHANGED)] else []
  }

  /** The alert triggers of a serial run, in order. */
  ghost function Raisings(es: seq<Event>): seq<Named<Trigger>> {
    if es == [] then []
    else
      var front, last := es[..|es| - 1], es[|es| - 1];
      Raisings(front)
      + if last.Process?
        then RaisedOf(last.fingerprint, Row(front, last.fingerprint), DetectionOf(es, last.fingerprint))
        else []
  }

  /** How often operators changed the status of an existing incident. */
  ghost function StatusChanges(es: seq<Event>, f: Fingerprint): nat {
    if es == [] then 0
    else
      var front, last := es[..|es| - 1], es[|es| - 1];
      StatusChanges(front, f) + if last.Operate? && last.target == f && Row(front, f).Some? then 1 else 0
  }

  /** How often a detection lowered the severity of an incident that was not resolved. */
  ghost function Downgrades(es: seq<Event>, f: Fingerprint): nat {
    if es == [] then 0
    else
      var front, d := es[..|es| - 1], DetectionOf(es, f);
      Downgrades(front, f)
      + if Downgraded(Row(front, f), d) then 1 else 0
  }

  /** How often the timeline, or the alerts, of a run name the fingerprint with this entry. */
  ghost function Times<T>(entries: seq<Named<T>>, f: Fingerprint, entry: T): nat {
    if entries == [] then 0
    else Times(entries[..|entries| - 1], f, entry) + if entries[|entries| - 1] == (f, entry) then 1 else 0
  }

  /** How much one step adds to that. */
  ghost function Added<T>(entries: seq<Named<T>>, f: Fingerprint, entry: T): nat {
    if entries != [] && entries[0] == (f, entry) then 1 else 0
  }

  lemma TimesOfOneMore<T>(entries: seq<Named<T>>, added: seq<Named<T>>, f: Fingerprint, entry: T)
    requires |added| <= 1
    ensures Times(entries + added, f, entry) == Times(entries, f, entry) + Added(added, f, entry)
  {
    if added == [] {
      assert entries + added == entries;
    } else {
      assert (entries + added)[..|entries|] == entries;
    }
  }

  ghost predicate TimelineAddsUp(es: seq<Event>, f: Fingerprint) {
    var told, raised := Timeline(es), Raisings(es);
    && Times(told, f, CREATED) == Times(raised, f, RaiseCreated) == (if Row(es, f).Some? then 1 else 0)
    && Times(told, f, STATUS_CHANGED) == Times(raised, f, RaiseReopened) + StatusChanges(es, f)
    && Times(told, f, UPDATED) == Times(raised, f, RaiseSeverityIncreased) + Downgrades(es, f)
  }

  ghost predicate Downgraded(row: Option<Incident>, d: Option<Detection>) {
    && d.Some? && row.Some? && !row.value.status.RESOLVED?
    && IsSeverityIncrease(d.value.severity, row.value.severity)
  }

  lemma DetectionAdds(g: Fingerprint, row: Option<Incident>, d: Option<Detection>)
    ensures var told, raised := TimelineOf(g, row, d), RaisedOf(g, row, d);
      && |told| <= 1 && |raised| <= 1
      && Added(told, g, CREATED) == Added(raised, g, RaiseCreated) == (if d.Some? && row.None? then 1 else 0)
      && Added(told, g, STATUS_CHANGED) == Added(raised, g, RaiseReopened)
      && Added(told, g, UPDATED) == Added(raised, g, RaiseSeverityIncreased) + if Downgraded(row, d) then 1 else 0
  {
    if d.Some? {
      TriggersAndEvents(SnapshotOf(row), d.value);
    }
  }

  /** What the last event adds to the timeline, and to the alerts. */
  ghost function ToldByLast(es: seq<Event>): seq<Named<EventType>>
    requires es != []
  {
    var front, last := es[..|es| - 1], es[|es| - 1];
    if last.Process? then TimelineOf(last.fingerprint, Row(front, last.fingerprint), DetectionOf(es, last.fingerprint))
    else if Row(front, last.target).Some? then [(last.target, STATUS_CHANGED)] else []
  }

  ghost function RaisedByLast(es: seq<Event>): seq<Named<Trigger>>
    requires es != []
  {
    var front, last := es[..|es| - 1], es[|es| - 1];
    if last.Process? then RaisedOf(last.fingerprint, Row(front, last.fingerprint), DetectionOf(es, last.fingerprint))
    else []
  }

  lemma LastAdds(es: seq<Event>, f: Fingerprint)
    requires es != []
    ensures var front, told, raised := es[..|es| - 1], ToldByLast(es), RaisedByLast(es);
      && |told| <= 1 && |raised| <= 1
      && Added(told, f, CREATED) == Added(raised, f, RaiseCreated)
         == (if Row(es, f).Some? then 1 else 0) - (if Row(front, f).Some? then 1 else 0)
      && Added(told, f, STATUS_CHANGED) + StatusChanges(front, f)
          == Added(raised, f, RaiseReopened) + StatusChanges(es, f)
      && Added(told, f, UPDATED) + Downgrades(front, f) == Added(raised, f, RaiseSeverityIncreased) + Downgrades(es, f)
  {
    var front, last := es[..|es| - 1], es[|es| - 1];
    if last.Process? {
      DetectionAdds(last.fingerprint, Row(front, last.fingerprint), DetectionOf(es, last.fingerprint));
    }
  }

  /**
   The timeline and the alerts of a serial run: an incident is created once and alerted of once; its other
   entries are the operators' changes, the alerts of reopening and escalation, and downgrades.
   */
  lemma {:induction false} TimelineTellsEverything(es: seq<Event>, f: Fingerprint)
    ensures TimelineAddsUp(es, f)
  {
    if es != [] {
      var front := es[..|es| - 1];
      var told, raised := Timeline(front), Raisings(front);
      TimelineTellsEverything(front, f);
      LastAdds(es, f);
      assert Timeline(es) == told + ToldByLast(es) && Raisings(es) == raised + RaisedByLast(es);
      TimesOfOneMore(told, ToldByLast(es), f, CREATED);
      TimesOfOneMore(told, ToldByLast(es), f, STATUS_CHANGED);
      TimesOfOneMore(told, ToldByLast(es), f, UPDATED);
      TimesOfOneMore(raised, RaisedByLast(es), f, RaiseCreated);
      TimesOfOneMore(raised, RaisedByLast(es), f, RaiseReopened);
      TimesOfOneMore(raised, RaisedByLast(es), f, RaiseSeverityIncreased);
    }
  }

  datatype Table = Table(
    incidents: map<Fingerprint, Incident>,
    timeline: seq<Named<EventType>>,
    raised: seq<Named<Trigger>>)

  /** The incident table, the timeline and the alerts are those of the history. */
  ghost predicate Agrees(t: Table, history: seq<Event>) {
    && RowsAgree(t.incidents, history)
    && t.timeline == Timeline(history)
    && t.raised == Raisings(history)
  }

  /** What one detection makes of the table. */
  ghost function TableAfter(t: Table, f: Fingerprint, d: Option<Detection>): Table {
    if d.None? then t
    else Table(t.incidents[f := Detected(RowOf(t.incidents, f), d.value).value],
               t.timeline + TimelineOf(f, RowOf(t.incidents, f), d),
               t.raised + RaisedOf(f, RowOf(t.incidents, f), d))
  }

  ghost function TableOperated(t: Table, f: Fingerprint, status: Status, now: nat): Table {
    if f !in t.incidents then t
    else t.(incidents := t.incidents[f := StatusSet(t.incidents[f], status, now)],
            timeline := t.timeline + [(f, STATUS_CHANGED)])
  }

  lemma RowsAfter(incidents: map<Fingerprint, Incident>, after: map<Fingerprint, Incident>, history: seq<Event>,
                  e: Event, f: Fingerprint)
    requires RowsAgree(incidents, history) && f == if e.Process? then e.fingerprint else e.target
    requires RowOf(after, f) == Row(history + [e], f)
    requires forall g :: g != f ==> RowOf(after, g) == RowOf(incidents, g)
    ensures RowsAgree(after, history + [e])
  {
    assert (history + [e])[..|history|] == history;
    forall g: Fingerprint ensures RowOf(after, g) == Row(history + [e], g) {
      assert RowOf(incidents, g) == Row(history, g);
    }
  }

  lemma LogKeepsAgreement(t: Table, history: seq<Event>, e: Event)
    requires Agrees(t, history) && e.Process?
    ensures Agrees(TableAfter(t, e.fingerprint, DetectionOf(history + [e], e.fingerprint)), history + [e])
  {
    var f := e.fingerprint;
    var after := TableAfter(t, f, DetectionOf(history + [e], f));
    assert (history + [e])[..|history|] == history;
    assert RowOf(t.incidents, f) == Row(history, f);
    RowsAfter(t.incidents, after.incidents, history, e, f);
  }

  lemma OperatorKeepsAgreement(t: Table, history: seq<Event>, e: Event)
    requires Agrees(t, history) && e.Operate?
    ensures Agrees(TableOperated(t, e.target, e.status, e.now), history + [e])
    ensures Row(history, e.target).Some? <==> e.target in t.incidents
  {
    var after := TableOperated(t, e.target, e.status, e.now);
    assert (history + [e])[..|history|] == history;
    assert RowOf(t.incidents, e.target) == Row(history, e.target);
    RowsAfter(t.incidents, after.incidents, history, e, e.target);
  }

  /** The counts the worker sees for a log are the counts over everything processed so far. */
  lemma WorkerCounts(history: seq<Event>, e: Event)
    requires Timely(history + [e]) && e.Process?
    ensures var calls := Calls(history) + [TenMinuteCall(e)];
      && OneWidth(Calls(history), TenMinuteKey(e.fingerprint), TEN_MINUTES_MS)
      && OneWidth(calls, FatalFiveMinuteKey(e.fingerprint), FIVE_MINUTES_MS)
      && |Recent(calls, TenMinuteKey(e.fingerprint), e.now, TEN_MINUTES_MS)|
          == Count10m(history + [e], e.fingerprint, e.now)
      && (e.fingerprint.fatal ==>
            && Calls(history + [e]) == calls + [FatalCall(e)]
            && |Recent(calls + [FatalCall(e)], FatalFiveMinuteKey(e.fingerprint), e.now, FIVE_MINUTES_MS)|
               == FatalCount5m(history + [e], e.fingerprint, e.now))
      && (!e.fingerprint.fatal ==> Calls(history + [e]) == calls)
  {
    var f, all := e.fingerprint, history + [e];
    var calls := Calls(history) + [TenMinuteCall(e)];
    assert all[..|history|] == history;
    CallsHaveOneWidth(history, f);
    CountsAreProcessed(all, f, e.now);
    if f.fatal {
      assert CallsOf(e) == [TenMinuteCall(e), FatalCall(e)];
      assert Calls(all) == calls + [FatalCall(e)];
      OtherKeyAddsNothing(calls, FatalCall(e), TenMinuteKey(f), e.now, TEN_MINUTES_MS);
    } else {
      assert CallsOf(e) == [TenMinuteCall(e)];
    }
  }

  lemma OtherKeyAddsNothing(calls: seq<Call>, c: Call, key: Key, now: int, windowMs: nat)
    requires c.key != key
    ensures Recent(calls + [c], key, now, windowMs) == Recent(calls, key, now, windowMs)
  {
    forall m ensures m in Recent(calls + [c], key, now, windowMs) <==> m in Recent(calls, key, now, windowMs) {
      if x :| x in calls + [c] && x.key == key && now - windowMs < x.now <= now && x.member == m {
        assert x in calls;
      }
      if x :| x in calls && x.key == key && now - windowMs < x.now <= now && x.member == m {
        assert x in calls + [c];
      }
    }
  }

  /** A worker processing one job at a time, with the incident table, the timeline and the alerts raised. */
  class LogProcessor {
    const windows: SlidingWindows
    var incidents: map<Fingerprint, Incident>
    var timeline: seq<Named<EventType>>
    var raised: seq<Named<Trigger>>
    ghost var history: seq<Event>

    ghost function Model(): Table
      reads this
    {
      Table(incidents, timeline, raised)
    }

    ghost predicate Counting()
      reads this, windows
    {
      && windows.Valid() && windows.calls == Calls(history)
      && Timely(history) && windows.clock <= Clock(history)
    }

    ghost predicate Valid()
      reads this, windows
    {
      Counting() && Agrees(Model(), history)
    }

    constructor ()
      ensures Valid() && history == [] && fresh(windows)
    {
      windows := new SlidingWindows();
      incidents, timeline, raised, history := map[], [], [], [];
    }

    /** `stored` tells whether the raw log of the job exists; a job without one does nothing. */
    method Process(f: Fingerprint, rawLogId: Id, title: string, timestamp: int, nowMs: nat, stored: bool)
      requires Valid() && Clock(history) <= nowMs
      modifies this, windows
      ensures Valid()
      ensures history == old(history) + if stored then [Event.Process(f, rawLogId, title, timestamp, nowMs)] else []
    {
      if !stored {
        return;
      }
      ghost var e := Event.Process(f, rawLogId, title, timestamp, nowMs);
      LogKeepsAgreement(Model(), history, e);
      var severity, count10m := CountWindows(f, rawLogId, nowMs, e);
      if severity.Some? {
        UpsertIncident(f, Detection(rawLogId, title, severity.value, count10m, timestamp));
      }
    }

    /** Count one log in its windows: what every log so far says, and the severity that triggers. */
    method CountWindows(f: Fingerprint, rawLogId: Id, nowMs: nat, ghost e: Event)
      returns (severity: Option<Severity>, count10m: nat)
      requires Counting() && Clock(history) <= nowMs
      requires e.Process? && e.fingerprint == f && e.rawLogId == rawLogId && e.now == nowMs
      modifies windows, this`history
      ensures Counting() && history == old(history) + [e]
      ensures DetectionOf(history, f) == if severity.None? then None
                                         else Some(Detection(rawLogId, e.title, severity.value, count10m, e.timestamp))
    {
      ghost var all := history + [e];
      TimelyAppend(history, e);
      WorkerCounts(history, e);
      assert Clock(all) == nowMs;
      count10m := windows.CountInWindow(TenMinuteKey(f), rawLogId, nowMs, TEN_MINUTES_MS);
      var fatalCount5m := 0;
      if f.fatal {
        fatalCount5m := windows.CountInWindow(FatalFiveMinuteKey(f), rawLogId, nowMs, FIVE_MINUTES_MS);
      }
      assert count10m == Count10m(all, f, nowMs) && fatalCount5m == FatalCount5m(all, f, nowMs);
      severity := TriggeredSeverity(count10m, fatalCount5m);
      history := all;
    }

    /** Read, plan, atomic upsert, timeline event, trigger. */
    method UpsertIncident(f: Fingerprint, input: Detection)
      modifies this`incidents, this`timeline, this`raised
      ensures Model() == TableAfter(old(Model()), f, Some(input))
    {
      var existing := SnapshotOf(RowOf(incidents, f));
      var event := Some(CREATED);
      if existing.Some? {
        var plan := PlanIncidentUpdate(existing.value, input);
        event := plan.event;
        incidents := incidents[f := Apply(incidents[f], plan.update)];
      } else {
        incidents := incidents[f := Created(input)];
      }
      if event.Some? {
        timeline := timeline + [(f, event.value)];
      }
      var trigger := AlertTriggerFor(existing, input);
      if trigger.Some? {
        raised := raised + [(f, trigger.value)];
      }
    }

    /** The operator's status change: an unknown incident is an error and changes nothing. */
    method UpdateStatus(f: Fingerprint, status: Status, nowMs: nat) returns (found: bool)
      requires Valid() && Clock(history) <= nowMs
      modifies this
      ensures Valid() && history == old(history) + [Event.Operate(f, status, nowMs)]
      ensures found <==> Row(old(history), f).Some?
      ensures found ==>
                && f in old(incidents) && incidents.Keys == old(incidents).Keys
                && incidents[f] == old(incidents)[f].(status := status,
                                                      resolvedAt := if status == RESOLVED then Some(nowMs) else None)
      ensures forall g :: g in old(incidents) && g != f ==> g in incidents && incidents[g] == old(incidents)[g]
    {
      ghost var e := Event.Operate(f, status, nowMs);
      TimelyAppend(history, e);
      OperatorKeepsAgreement(Model(), history, e);
      OperatorCountsNothing(history, e);
      found := f in incidents;
      if found {
        SetStatusOf(f, status, nowMs);
      }
      history := history + [e];
    }

    method SetStatusOf(f: Fingerprint, status: Status, nowMs: nat)
      requires f in incidents
      modifies this`incidents, this`timeline
      ensures Model() == TableOperated(old(Model()), f, status, nowMs)
    {
      incidents := incidents[f := incidents[f].(status := status,
                                                resolvedAt := if status == RESOLVED then Some(nowMs) else None)];
      timeline := timeline + [(f, STATUS_CHANGED)];
    }
  }

  lemma OperatorCountsNothing(history: seq<Event>, e: Event)
    requires e.Operate?
    ensures Calls(history + [e]) == Calls(history)
  {
    assert (history + [e])[..|history|] == history;
  }

  lemma TimelyAppend(history: seq<Event>, e: Event)
    requires Timely(history) && Clock(history) <= e.now
    ensures Timely(history + [e])
  {
  }
}
