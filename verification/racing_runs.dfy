/**
 Runs of racing workers that show what the bounds of `RacingWorkers` leave open: fatal windows called
 out of order, and lifetime counters that fall behind.
 */
module RacingRuns {
  import opened Wrappers
  import opened RedisStore
  import I = Incidents
  import P = LogProcessing
  import opened RacingWorkers

  lemma RunOfOneMore(steps: seq<Step>, step: Step, f: Fingerprint)
    ensures Run(steps + [step], f) == Next(Run(steps, f), step, f)
  {
    assert (steps + [step])[..|steps|] == steps;
  }

  // ---------------------------------------------------------------- fatal windows called out of order

  /** A job counts a fatal log, and later learns that the second window is under its threshold. */
  lemma CountsFatal(s: State, job: nat, log: Log, f: Fingerprint)
    requires f.fatal && log.fingerprint == f && Idle(s, job)
    ensures var logs := s.logs + [log];
      Next(s, Count(job, log), f)
      == s.(logs := logs, halves := s.halves[job := Half(log, P.Count10m(logs, f, log.now))])
  {
    assert s.counted - {job} == s.counted && s.halves - {job} == s.halves && s.world.held - {job} == s.world.held;
  }

  lemma AsksInVain(s: State, job: nat, f: Fingerprint)
    requires job in s.halves && s.halves[job].count10m < 5
    requires Answer(s.fatalCalls + [P.FatalCall(s.halves[job].log)]) < 3
    ensures Next(s, CountFatal(job), f)
         == s.(halves := s.halves - {job}, fatalCalls := s.fatalCalls + [P.FatalCall(s.halves[job].log)])
  {
  }

  lemma IsDetected(s: State, job: nat, f: Fingerprint)
    requires job in s.halves && s.halves[job].count10m < 5
    requires Answer(s.fatalCalls + [P.FatalCall(s.halves[job].log)]) >= 3
    ensures var h := s.halves[job];
      var d := I.Detection(h.log.rawLogId, h.log.title, I.CRITICAL, h.count10m, h.log.timestamp);
      Next(s, CountFatal(job), f)
      == s.(halves := s.halves - {job}, fatalCalls := s.fatalCalls + [P.FatalCall(h.log)],
            counted := s.counted[job := d], tally := s.tally.(low := s.tally.low + 1))
  {
  }

  /** Three logs in one window. */
  ghost function Three(f: Fingerprint, second: nat, third: nat): seq<P.Event> {
    [P.Log(f, 1, 0)] + [P.Log(f, 2, second)] + [P.Log(f, 3, third)]
  }

  ghost function ThreeHalves(f: Fingerprint, second: nat, third: nat): map<nat, Half> {
    map[1 := Half(P.Log(f, 1, 0), 1), 2 := Half(P.Log(f, 2, second), 2), 3 := Half(P.Log(f, 3, third), 3)]
  }

  ghost function CountThree(f: Fingerprint, second: nat, third: nat): seq<Step> {
    [Count(1, P.Log(f, 1, 0))] + [Count(2, P.Log(f, 2, second))] + [Count(3, P.Log(f, 3, third))]
  }

  lemma ThreeProcessed(f: Fingerprint, second: nat, third: nat, windowMs: Positive)
    requires second <= third < windowMs
    ensures var l1, l2 := [P.Log(f, 1, 0)], [P.Log(f, 1, 0)] + [P.Log(f, 2, second)];
      && P.Processed(l1, f, 0, windowMs) == {1} && P.Processed(l2, f, second, windowMs) == {1, 2}
      && P.Processed(Three(f, second, third), f, third, windowMs) == {1, 2, 3}
  {
    var l1, l2, l3 := [P.Log(f, 1, 0)], [P.Log(f, 1, 0)] + [P.Log(f, 2, second)], Three(f, second, third);
    assert l1[0] in l1 && l2[0] in l2 && l2[1] in l2 && l3[0] in l3 && l3[1] in l3 && l3[2] in l3;
  }

  lemma ThreeCounted(f: Fingerprint, second: nat, third: nat)
    requires f.fatal && second <= third < P.TEN_MINUTES_MS
    ensures Run(CountThree(f, second, third), f)
         == Start().(logs := Three(f, second, third), halves := ThreeHalves(f, second, third))
  {
    var l1, l2, l3 := P.Log(f, 1, 0), P.Log(f, 2, second), P.Log(f, 3, third);
    ThreeProcessed(f, second, third, P.TEN_MINUTES_MS);
    assert |{1}| == 1 && |{1, 2}| == 2 && |{1, 2, 3}| == 3;
    RunOfOneMore([], Count(1, l1), f);
    assert [] + [Count(1, l1)] == [Count(1, l1)] && [] + [l1] == [l1];
    CountsFatal(Start(), 1, l1, f);
    var s1 := Start().(logs := [l1], halves := map[1 := Half(l1, 1)]);
    assert Run([Count(1, l1)], f) == s1;
    RunOfOneMore([Count(1, l1)], Count(2, l2), f);
    CountsFatal(s1, 2, l2, f);
    var s2 := s1.(logs := [l1] + [l2], halves := map[1 := Half(l1, 1), 2 := Half(l2, 2)]);
    assert Run([Count(1, l1)] + [Count(2, l2)], f) == s2;
    RunOfOneMore([Count(1, l1)] + [Count(2, l2)], Count(3, l3), f);
    CountsFatal(s2, 3, l3, f);
  }

  /** The second windows are called in the opposite order. */
  ghost function CallBackwards(f: Fingerprint): seq<Step> {
    CountThree(f, 1, 2) + [CountFatal(3)] + [CountFatal(2)] + [CountFatal(1)]
  }

  /** A log of the given ones is answered no more than they are. */
  lemma FewAnswered(logs: seq<P.Event>, f: Fingerprint, calls: seq<Call>, log: Log, ids: set<Id>)
    requires f.fatal && log.fingerprint == f && |ids| < 3
    requires forall c :: c in calls ==> MadeFor(logs, f, c)
    requires log in logs && P.Processed(logs, f, log.now, P.FIVE_MINUTES_MS) <= ids
    ensures Answer(calls + [P.FatalCall(log)]) < 3
  {
    AnswersAreProcessed(logs, f, calls + [P.FatalCall(log)], log);
    SubsetCardinality(P.Processed(logs, f, log.now, P.FIVE_MINUTES_MS), ids);
  }

  lemma BackwardsIsInVain(f: Fingerprint)
    requires f.fatal
    ensures var c1, c2, c3 := P.FatalCall(P.Log(f, 1, 0)), P.FatalCall(P.Log(f, 2, 1)), P.FatalCall(P.Log(f, 3, 2));
      Answer([] + [c3]) < 3 && Answer([c3] + [c2]) < 3 && Answer([c3, c2] + [c1]) < 3
  {
    var l1, l2, l3 := P.Log(f, 1, 0), P.Log(f, 2, 1), P.Log(f, 3, 2);
    var c2, c3, logs := P.FatalCall(l2), P.FatalCall(l3), [l1, l2, l3];
    assert l1 in logs && l2 in logs && l3 in logs;
    assert MadeFor(logs, f, c2) && MadeFor(logs, f, c3);
    FewAnswered([l3], f, [], l3, {3});
    FewAnswered(logs, f, [c3], l2, {1, 2}) by { assert |{1, 2}| == 2; }
    FewAnswered(logs, f, [c3, c2], l1, {1});
  }

  lemma BackwardsRun(f: Fingerprint)
    requires f.fatal
    ensures var c1, c2, c3 := P.FatalCall(P.Log(f, 1, 0)), P.FatalCall(P.Log(f, 2, 1)), P.FatalCall(P.Log(f, 3, 2));
      Run(CallBackwards(f), f) == Start().(logs := Three(f, 1, 2), fatalCalls := [c3, c2, c1])
  {
    var steps, s := CountThree(f, 1, 2), Start().(logs := Three(f, 1, 2));
    var h1, h2, h3 := Half(P.Log(f, 1, 0), 1), Half(P.Log(f, 2, 1), 2), Half(P.Log(f, 3, 2), 3);
    var c2, c3 := P.FatalCall(h2.log), P.FatalCall(h3.log);
    BackwardsIsInVain(f);
    ThreeCounted(f, 1, 2);
    RunOfOneMore(steps, CountFatal(3), f);
    AsksInVain(s.(halves := map[1 := h1, 2 := h2, 3 := h3]), 3, f);
    var s1 := s.(halves := map[1 := h1, 2 := h2], fatalCalls := [c3]);
    assert Run(steps + [CountFatal(3)], f) == s1;
    RunOfOneMore(steps + [CountFatal(3)], CountFatal(2), f);
    AsksInVain(s1, 2, f);
    var s2 := s.(halves := map[1 := h1], fatalCalls := [c3, c2]);
    assert Run(steps + [CountFatal(3)] + [CountFatal(2)], f) == s2;
    RunOfOneMore(steps + [CountFatal(3)] + [CountFatal(2)], CountFatal(1), f);
    AsksInVain(s2, 1, f);
  }

  lemma ThreeInFiveMinutes(f: Fingerprint)
    requires f.fatal
    ensures P.FatalCount5m(Three(f, 1, 2), f, 2) == 3
  {
    ThreeProcessed(f, 1, 2, P.FIVE_MINUTES_MS);
    assert |{1, 2, 3}| == 3;
  }

  lemma ThirdReaches(f: Fingerprint)
    requires f.fatal
    ensures P.Timely(Three(f, 1, 2)) && Reached(Three(f, 1, 2), f)
  {
    var logs := Three(f, 1, 2);
    ThreeInFiveMinutes(f);
    assert logs[..2 + 1] == logs && logs[2] == P.Log(f, 3, 2) && P.Clock(logs) == 2;
    assert P.Triggers(logs, f);
    assert P.TriggersAt(logs, 2, f);
  }

  /**
   The order matters: three fatal logs within three milliseconds, counted in order in the first window
   and backwards in the second, open no incident, though the third one reached the threshold.
   */
  lemma ThresholdIsMissedBackwards(f: Fingerprint)
    requires f.fatal
    ensures var s := Run(CallBackwards(f), f);
      && P.Timely(s.logs) && s.halves == map[] && s.tally.cut == 0 && Unwritten(s) == 0
      && Reached(s.logs, f) && s.world.row.None?
  {
    BackwardsRun(f);
    ThirdReaches(f);
  }

  // ---------------------------------------------------------------- how far it can fall behind

  /**
   The first of three jobs that counted a burst of fatal logs calls its second window last, and
   opens the incident.
   */
  ghost function FirstOpens(f: Fingerprint): seq<Step> {
    CountThree(f, 0, 0) + [CountFatal(2)] + [CountFatal(3)] + [CountFatal(1)] + [Read(1)] + [Upsert(1)]
  }

  ghost function BurstCalls(f: Fingerprint): seq<Call> {
    [P.FatalCall(P.Log(f, 2, 0)), P.FatalCall(P.Log(f, 3, 0)), P.FatalCall(P.Log(f, 1, 0))]
  }

  lemma FirstCallsAreUnder(f: Fingerprint)
    requires f.fatal
    ensures var c2, c3 := P.FatalCall(P.Log(f, 2, 0)), P.FatalCall(P.Log(f, 3, 0));
      Answer([] + [c2]) < 3 && Answer([c2] + [c3]) < 3
  {
    var l2, l3 := P.Log(f, 2, 0), P.Log(f, 3, 0);
    assert l2 in [l2, l3] && l3 in [l2, l3] && MadeFor([l2, l3], f, P.FatalCall(l2));
    assert |{2, 3}| == 2;
    FewAnswered([l2, l3], f, [], l2, {2, 3});
    FewAnswered([l2, l3], f, [P.FatalCall(l2)], l3, {2, 3});
  }

  lemma ThirdCallIsOver(f: Fingerprint)
    requires f.fatal
    ensures Answer(BurstCalls(f)) >= 3
  {
    var calls, logs := BurstCalls(f), Three(f, 0, 0);
    ThreeProcessed(f, 0, 0, P.FIVE_MINUTES_MS);
    assert |{1, 2, 3}| == 3;
    forall e | e in logs ensures P.FatalCall(e) in calls {
      assert P.FatalCall(logs[0]) == calls[2] && P.FatalCall(logs[1]) == calls[0] && P.FatalCall(logs[2]) == calls[1];
    }
    RecentOfAll(logs, f, calls, 0);
    CountIsRecent(calls, P.FIVE_MINUTES_MS);
    SubsetCardinality({1, 2, 3}, Recent(calls, FatalFiveMinuteKey(f), 0, P.FIVE_MINUTES_MS));
  }

  ghost function FirstDetection(): I.Detection {
    I.Detection(1, "", I.CRITICAL, 1, 0)
  }

  lemma SecondIsUnder(f: Fingerprint)
    requires f.fatal
    ensures var h1, h3, c2 := Half(P.Log(f, 1, 0), 1), Half(P.Log(f, 3, 0), 3), P.FatalCall(P.Log(f, 2, 0));
      Run(CountThree(f, 0, 0) + [CountFatal(2)], f)
      == Start().(logs := Three(f, 0, 0), halves := map[1 := h1, 3 := h3], fatalCalls := [c2])
  {
    var halves := ThreeHalves(f, 0, 0);
    FirstCallsAreUnder(f);
    ThreeCounted(f, 0, 0);
    RunOfOneMore(CountThree(f, 0, 0), CountFatal(2), f);
    AsksInVain(Start().(logs := Three(f, 0, 0), halves := halves), 2, f);
    assert halves - {2} == map[1 := halves[1], 3 := halves[3]];
  }

  lemma OthersAreUnder(f: Fingerprint)
    requires f.fatal
    ensures var h1, calls := Half(P.Log(f, 1, 0), 1), BurstCalls(f)[..2];
      Run(CountThree(f, 0, 0) + [CountFatal(2)] + [CountFatal(3)], f)
      == Start().(logs := Three(f, 0, 0), halves := map[1 := h1], fatalCalls := calls)
  {
    var steps := CountThree(f, 0, 0) + [CountFatal(2)];
    var s1 := Run(steps, f);
    FirstCallsAreUnder(f);
    SecondIsUnder(f);
    RunOfOneMore(steps, CountFatal(3), f);
    AsksInVain(s1, 3, f);
    assert s1.halves - {3} == map[1 := s1.halves[1]];
    assert s1.fatalCalls + [P.FatalCall(P.Log(f, 3, 0))] == BurstCalls(f)[..2];
  }

  lemma FirstIsOver(f: Fingerprint)
    requires f.fatal
    ensures var steps := CountThree(f, 0, 0) + [CountFatal(2)] + [CountFatal(3)];
      Run(steps + [CountFatal(1)], f)
      == Start().(logs := Three(f, 0, 0), fatalCalls := BurstCalls(f), counted := map[1 := FirstDetection()],
                  tally := Tally(0, 1, 0, 0, 0))
  {
    var steps := CountThree(f, 0, 0) + [CountFatal(2)] + [CountFatal(3)];
    OthersAreUnder(f);
    ThirdCallIsOver(f);
    assert BurstCalls(f)[..2] + [P.FatalCall(P.Log(f, 1, 0))] == BurstCalls(f);
    RunOfOneMore(steps, CountFatal(1), f);
    IsDetected(Run(steps, f), 1, f);
  }

  lemma FirstOpensRun(f: Fingerprint)
    requires f.fatal
    ensures Run(FirstOpens(f), f)
         == State(Three(f, 0, 0), map[], BurstCalls(f), map[],
                  I.World(Some(I.Created(FirstDetection())), map[], Some(I.Birth(1, 0)), 0, None), Tally(0, 1, 0, 0, 0))
  {
    var called := CountThree(f, 0, 0) + [CountFatal(2)] + [CountFatal(3)] + [CountFatal(1)];
    var s := Run(called, f);
    FirstIsOver(f);
    RunOfOneMore(called, Read(1), f);
    assert Run(called + [Read(1)], f)
        == s.(counted := map[], world := I.Start().(held := map[1 := I.Held(None, FirstDetection())]));
    RunOfOneMore(called + [Read(1)], Upsert(1), f);
  }

  /** Five minutes later a fourth log stays under both thresholds, and a fifth one reaches the first. */
  ghost function FifthUpdates(f: Fingerprint): seq<Step> {
    FirstOpens(f) + [Count(4, P.Log(f, 4, 300000))] + [CountFatal(4)]
        + [Count(5, P.Log(f, 5, 300001))] + [CountFatal(5)] + [Read(5)] + [Upsert(5)]
  }

  lemma FourthIsUnder(f: Fingerprint)
    requires f.fatal
    ensures Answer(BurstCalls(f) + [P.FatalCall(P.Log(f, 4, 300000))]) < 3
  {
    var l4 := P.Log(f, 4, 300000);
    var logs := Three(f, 0, 0) + [l4];
    assert P.Log(f, 1, 0) == logs[0] && P.Log(f, 2, 0) == logs[1] && P.Log(f, 3, 0) == logs[2] && l4 == logs[3];
    forall c | c in BurstCalls(f) ensures MadeFor(logs, f, c) {
      assert c == BurstCalls(f)[0] || c == BurstCalls(f)[1] || c == BurstCalls(f)[2];
    }
    FewAnswered(logs, f, BurstCalls(f), l4, {4});
  }

  lemma FiveAreTimely(f: Fingerprint)
    ensures Three(f, 0, 0) + [P.Log(f, 4, 300000)] + [P.Log(f, 5, 300001)] == P.FiveLogs(f)
    ensures P.Timely(P.FiveLogs(f))
  {
  }

  lemma FourAreFew(f: Fingerprint, logs: seq<P.Event>, l5: Log)
    requires logs + [l5] == P.FiveLogs(f)
    ensures P.Count10m(logs, f, 300000) < 5
  {
    FiveAreTimely(f);
    P.TimelyFront(logs, l5);
    P.CountIsAtMostLength(logs, f);
    assert logs[3] == P.FiveLogs(f)[3];
  }

  lemma FiveAreCounted(f: Fingerprint)
    ensures P.Count10m(P.FiveLogs(f), f, 300001) == 5
  {
    P.FiveLogsInTenMinutes(f);
    assert |{1, 2, 3, 4, 5}| == 5;
  }

  lemma IsDetectedAtOnce(s: State, job: nat, f: Fingerprint)
    requires job in s.halves && s.halves[job].count10m >= 5
    ensures var h, t := s.halves[job], Next(s, CountFatal(job), f);
      && t.logs == s.logs && t.world == s.world && t.tally == s.tally.(high := s.tally.high + 1)
      && t.halves == s.halves - {job} && t.fatalCalls == s.fatalCalls + [P.FatalCall(h.log)]
      && t.counted.Keys == s.counted.Keys + {job} && t.counted[job].recentCount == h.count10m
  {
  }

  lemma FifthIsDetected(steps: seq<Step>, log: Log, f: Fingerprint)
    requires f.fatal && log.fingerprint == f && P.Count10m(Run(steps, f).logs + [log], f, log.now) == 5
    requires Run(steps, f).halves == map[] && Run(steps, f).counted == map[] && Run(steps, f).world.held == map[]
    ensures var s, t := Run(steps, f), Run(steps + [Count(5, log)] + [CountFatal(5)], f);
      && t.logs == s.logs + [log] && t.fatalCalls == s.fatalCalls + [P.FatalCall(log)]
      && t.halves == map[] && t.counted.Keys == {5} && t.counted[5].recentCount == 5
      && t.world == s.world && t.tally == s.tally.(high := s.tally.high + 1)
  {
    var s := Run(steps, f);
    RunOfOneMore(steps, Count(5, log), f);
    CountsFatal(s, 5, log, f);
    var s1 := s.(logs := s.logs + [log], halves := map[5 := Half(log, 5)]);
    assert Run(steps + [Count(5, log)], f) == s1;
    RunOfOneMore(steps + [Count(5, log)], CountFatal(5), f);
    IsDetectedAtOnce(s1, 5, f);
    assert s1.halves - {5} == map[];
  }

  /** Job 5 goes on to write its detection, on an incident created with one log. */
  lemma FifthIsWritten(steps: seq<Step>, f: Fingerprint)
    requires Run(steps, f).counted.Keys == {5} && Run(steps, f).counted[5].recentCount == 5
    requires Run(steps, f).world
          == I.World(Some(I.Created(FirstDetection())), map[], Some(I.Birth(1, 0)), 0, None)
    ensures var s, t := Run(steps, f), Run(steps + [Read(5)] + [Upsert(5)], f);
      && t.logs == s.logs && t.fatalCalls == s.fatalCalls && t.halves == s.halves && t.tally == s.tally
      && t.counted == map[] && t.world.held == map[]
      && t.world.row.Some? && t.world.row.value.occurrenceCount == 2 && t.world.row.value.recentCount == 5
  {
    RunOfOneMore(steps, Read(5), f);
    var s := Run(steps + [Read(5)], f);
    assert s.counted == map[] && s.world.held.Keys == {5} && s.world.row == Run(steps, f).world.row;
    RunOfOneMore(steps + [Read(5)], Upsert(5), f);
  }

  lemma FourthIsInVain(f: Fingerprint)
    requires f.fatal
    ensures var s, l4 := Run(FirstOpens(f), f), P.Log(f, 4, 300000);
      Run(FirstOpens(f) + [Count(4, l4)] + [CountFatal(4)], f)
      == s.(logs := s.logs + [l4], fatalCalls := s.fatalCalls + [P.FatalCall(l4)])
  {
    var l4, steps := P.Log(f, 4, 300000), FirstOpens(f);
    var s := Run(steps, f);
    FirstOpensRun(f);
    FourthIsUnder(f);
    FiveAreTimely(f);
    FourAreFew(f, Three(f, 0, 0) + [l4], P.Log(f, 5, 300001));
    RunOfOneMore(steps, Count(4, l4), f);
    CountsFatal(s, 4, l4, f);
    var logs := s.logs + [l4];
    var s1 := s.(logs := logs, halves := map[4 := Half(l4, P.Count10m(logs, f, 300000))]);
    assert Run(steps + [Count(4, l4)], f) == s1;
    RunOfOneMore(steps + [Count(4, l4)], CountFatal(4), f);
    AsksInVain(s1, 4, f);
  }

  lemma FifthUpdatesRun(f: Fingerprint)
    requires f.fatal
    ensures var s, l4, l5 := Run(FifthUpdates(f), f), P.Log(f, 4, 300000), P.Log(f, 5, 300001);
      && s.logs == P.FiveLogs(f) && s.fatalCalls == BurstCalls(f) + [P.FatalCall(l4)] + [P.FatalCall(l5)]
      && s.halves == map[] && s.counted == map[] && s.world.held == map[] && s.tally == Tally(1, 1, 0, 0, 0)
      && s.world.row.Some? && s.world.row.value.occurrenceCount == 2 && s.world.row.value.recentCount == 5
  {
    var l5 := P.Log(f, 5, 300001);
    var fourth := FirstOpens(f) + [Count(4, P.Log(f, 4, 300000))] + [CountFatal(4)];
    FirstOpensRun(f);
    FourthIsInVain(f);
    FiveAreTimely(f);
    FiveAreCounted(f);
    FifthIsDetected(fourth, l5, f);
    FifthIsWritten(fourth + [Count(5, l5)] + [CountFatal(5)], f);
  }

  /**
   The bound is reached by a fatal fingerprint with every detection written and every window called in
   order: its lifetime counter can be three behind, where serial runs leave it one behind at most.
   */
  lemma FatalCounterFallsThreeBehind(f: Fingerprint)
    requires f.fatal
    ensures var s := Run(FifthUpdates(f), f);
      && P.Timely(s.logs) && CalledInOrder(s) && Unwritten(s) == 0 && Undecided(s) == 0 && s.world.row.Some?
      && s.world.row.value.occurrenceCount == 2 && s.world.row.value.recentCount == 5
  {
    FifthUpdatesRun(f);
    FiveAreTimely(f);
    assert Heavies(map[]) == {};
  }

  /** `n` jobs that count the logs 1 to `n` of a burst, one after the other. */
  ghost function CountBurst(f: Fingerprint, n: nat): seq<Step> {
    if n == 0 then [] else CountBurst(f, n - 1) + [Count(n, P.Log(f, n, 0))]
  }

  ghost function Burst(f: Fingerprint, n: nat): seq<P.Event> {
    if n == 0 then [] else Burst(f, n - 1) + [P.Log(f, n, 0)]
  }

  lemma {:induction false} BurstIsTimely(f: Fingerprint, n: nat)
    ensures |Burst(f, n)| == n && P.Timely(Burst(f, n)) && P.Clock(Burst(f, n)) == 0
  {
    if n > 0 {
      BurstIsTimely(f, n - 1);
      P.TimelyAppend(Burst(f, n - 1), P.Log(f, n, 0));
    }
  }

  /** The burst processes the ids 1 to `n`. */
  lemma {:induction false} BurstIds(f: Fingerprint, n: nat, m: Id)
    ensures m in P.Processed(Burst(f, n), f, 0, P.TEN_MINUTES_MS) <==> 1 <= m <= n
  {
    if n > 0 {
      BurstIds(f, n - 1, m);
      P.ProcessedOfOneMore(Burst(f, n - 1), P.Log(f, n, 0), f, P.TEN_MINUTES_MS);
      assert P.Ids(P.Log(f, n, 0), f) == {n};
    }
  }

  lemma {:induction false} BurstIsProcessed(f: Fingerprint, n: nat)
    ensures P.Count10m(Burst(f, n), f, 0) == n
  {
    var ids := P.Processed(Burst(f, n), f, 0, P.TEN_MINUTES_MS);
    if n == 0 {
      assert ids == {};
    } else {
      BurstIsProcessed(f, n - 1);
      BurstIds(f, n - 1, n);
      P.ProcessedOfOneMore(Burst(f, n - 1), P.Log(f, n, 0), f, P.TEN_MINUTES_MS);
      assert ids == P.Processed(Burst(f, n - 1), f, 0, P.TEN_MINUTES_MS) + {n};
    }
  }

  ghost function BurstDetection(n: nat): I.Detection {
    I.Detection(n, "", I.HIGH, n, 0)
  }

  lemma BurstDetects(f: Fingerprint, n: nat)
    requires !f.fatal && n > 0
    ensures P.DetectionOf(Burst(f, n), f) == if n >= 5 then Some(BurstDetection(n)) else None
  {
    BurstIsTimely(f, n);
    BurstIsProcessed(f, n);
  }

  ghost function BurstFound(n: nat): map<nat, I.Detection> {
    map j | 5 <= j <= n :: BurstDetection(j)
  }

  lemma BurstFoundGrows(n: nat)
    requires n > 0
    ensures BurstFound(n) == if n >= 5 then BurstFound(n - 1)[n := BurstDetection(n)] else BurstFound(n - 1)
    ensures BurstFound(n - 1) - {n} == BurstFound(n - 1)
  {
  }

  ghost function AfterBurst(f: Fingerprint, n: nat): State {
    Start().(logs := Burst(f, n), counted := BurstFound(n), tally := Tally(if n >= 5 then n - 4 else 0, 0, 0, 0, 0))
  }

  lemma BurstCountsOneMore(f: Fingerprint, n: nat)
    requires !f.fatal && n > 0
    ensures Next(AfterBurst(f, n - 1), Count(n, P.Log(f, n, 0)), f)
         == AfterBurst(f, n)
  {
    BurstFoundGrows(n);
    BurstDetects(f, n);
    assert I.Start().held - {n} == I.Start().held;
  }

  lemma {:induction false} BurstRun(f: Fingerprint, n: nat)
    requires !f.fatal
    ensures Run(CountBurst(f, n), f) == AfterBurst(f, n)
  {
    if n == 0 {
      assert BurstFound(0) == map[];
    } else {
      BurstRun(f, n - 1);
      RunOfOneMore(CountBurst(f, n - 1), Count(n, P.Log(f, n, 0)), f);
      BurstCountsOneMore(f, n);
    }
  }

  /** The fifth job of a burst creates the incident, and the last one updates it before all others. */
  ghost function LastOvertakes(f: Fingerprint, n: nat): seq<Step> {
    CountBurst(f, n) + [Read(5)] + [Upsert(5)] + [Read(n)] + [Upsert(n)]
  }

  /**
   The bound is reached, for any number of detections on their way: racing workers can leave the
   lifetime counter any distance behind the recent count, even for an error fingerprint.
   */
  lemma RacingCounterFallsBehind(f: Fingerprint, n: nat)
    requires !f.fatal && n >= 6
    ensures var s := Run(LastOvertakes(f, n), f);
      && P.Timely(s.logs) && s.world.row.Some?
      && s.world.row.value.occurrenceCount == 6 && s.world.row.value.recentCount == n && Unwritten(s) == n - 6
  {
    BurstRun(f, n);
    BurstIsTimely(f, n);
    var s0, steps := Run(CountBurst(f, n), f), CountBurst(f, n);
    RunOfOneMore(steps, Read(5), f);
    RunOfOneMore(steps + [Read(5)], Upsert(5), f);
    RunOfOneMore(steps + [Read(5)] + [Upsert(5)], Read(n), f);
    RunOfOneMore(steps + [Read(5)] + [Upsert(5)] + [Read(n)], Upsert(n), f);
    var s2 := Run(steps + [Read(5)] + [Upsert(5)], f);
    assert s2.world.row == Some(I.Created(BurstDetection(5)));
    assert n in s2.counted && s2.counted[n] == BurstDetection(n);
    EveryDetectionIsAccountedFor(LastOvertakes(f, n), f);
  }

  /**
   The lifetime counter covers the recent count in every run of an error fingerprint with a given
   number of detections on their way or lost, exactly when that number is zero.
   */
  lemma RecentIsCoveredExactlyWhenAllWritten(f: Fingerprint, u: nat)
    requires !f.fatal
    ensures (forall steps :: P.Timely(Run(steps, f).logs) && Unwritten(Run(steps, f)) == u ==>
               P.RecentIsCovered(Run(steps, f).world.row))
            <==> u == 0
  {
    if u == 0 {
      forall steps | P.Timely(Run(steps, f).logs) && Unwritten(Run(steps, f)) == u
        ensures P.RecentIsCovered(Run(steps, f).world.row)
      {
        if Run(steps, f).world.row.Some? {
          CounterCoversRecentUpToUnwritten(steps, f);
        }
      }
    } else {
      RacingCounterFallsBehind(f, u + 6);
      assert !P.RecentIsCovered(Run(LastOvertakes(f, u + 6), f).world.row);
    }
  }

  ghost predicate InOrderAndWritten(steps: seq<Step>, f: Fingerprint) {
    P.Timely(Run(steps, f).logs) && CalledInOrder(Run(steps, f)) && Unwritten(Run(steps, f)) == 0
  }

  /** With every detection written and every window called in order, the recent count is covered exactly for errors. */
  lemma SettledRunsCoverExactlyErrors(f: Fingerprint)
    ensures (forall steps :: InOrderAndWritten(steps, f) ==> P.RecentIsCovered(Run(steps, f).world.row))
            <==> !f.fatal
  {
    if f.fatal {
      FatalCounterFallsThreeBehind(f);
      assert !P.RecentIsCovered(Run(FifthUpdates(f), f).world.row);
    } else {
      RecentIsCoveredExactlyWhenAllWritten(f, 0);
    }
  }
}
