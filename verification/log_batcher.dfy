/**
 The container agent's log batcher: a bounded buffer that drops its oldest line on overflow
 and hands batches to a sink, one call in flight at a time.

 `Step` is the protocol over explicit state; `Batcher` is the object whose methods perform it.
 Only the parts of an asynchronous call up to its `await`, and after it, are atomic, so every
 interleaving of additions, timer expiries, flush calls and sink settlements is a sequence of
 `Event`s, and a theorem over all sequences of events is a theorem over all interleavings.
 */
module LogBatching {
  import opened Wrappers

  datatype Options = Options(maxBatchSize: Positive, maxQueueSize: Positive)

  /** One call of the sink: the batch, and the number of lines reported to `onDrop` just before it. */
  datatype Handoff<T> = Handoff(batch: seq<T>, reported: nat)

  /** `buffer` to `dropped` are the object's fields; `added`, `handed` and `settled` record its history. */
  datatype State<T> = State(
    buffer: seq<T>,
    timer: bool,
    flushing: bool,
    dropped: nat,
    added: seq<T>,
    handed: seq<Handoff<T>>,
    settled: nat)

  datatype Event<T> = Add(line: T) | TimerFires | FlushCalled | SinkSettles

  ghost function Initial<T>(): State<T> {
    State([], false, false, 0, [], [], 0)
  }

  ghost function FlushStep<T>(o: Options, s: State<T>): State<T> {
    if s.flushing then s
    else if s.buffer == [] then s.(timer := false)
    else
      var n := if o.maxBatchSize <= |s.buffer| then o.maxBatchSize else |s.buffer|;
      s.(timer := false, flushing := true, dropped := 0,
         handed := s.handed + [Handoff(s.buffer[..n], s.dropped)], buffer := s.buffer[n..])
  }

  /** The newest line goes in; when the buffer is full the oldest one goes out and is counted. */
  ghost function Enqueue<T>(o: Options, s: State<T>, line: T): State<T> {
    var full := |s.buffer| >= o.maxQueueSize;
    s.(buffer := (if full then s.buffer[1..] else s.buffer) + [line],
       dropped := if full then s.dropped + 1 else s.dropped,
       added := s.added + [line])
  }

  ghost function AddStep<T>(o: Options, s: State<T>, line: T): State<T> {
    var s1 := Enqueue(o, s, line);
    if |s1.buffer| >= o.maxBatchSize then FlushStep(o, s1) else s1.(timer := true)
  }

  ghost function SettleStep<T>(s: State<T>): State<T> {
    if s.flushing then s.(flushing := false, settled := s.settled + 1, timer := s.timer || s.buffer != [])
    else s
  }

  ghost function Step<T>(o: Options, s: State<T>, e: Event<T>): State<T> {
    match e
    case Add(line) => AddStep(o, s, line)
    case TimerFires => if s.timer then FlushStep(o, s.(timer := false)) else s
    case FlushCalled => FlushStep(o, s)
    case SinkSettles => SettleStep(s)
  }

  ghost function Run<T>(o: Options, s: State<T>, es: seq<Event<T>>): State<T>
    decreases |es|
  {
    if es == [] then s else Step(o, Run(o, s, es[..|es| - 1]), es[|es| - 1])
  }

  /** How many added lines a list of handoffs accounts for, reported drops included. */
  ghost function Offset<T>(hs: seq<Handoff<T>>): nat {
    if hs == [] then 0
    else Offset(hs[..|hs| - 1]) + hs[|hs| - 1].reported + |hs[|hs| - 1].batch|
  }

  /** Handoff `k` is the segment of the added lines that follows everything before it and its reported gap. */
  ghost predicate Segment<T>(o: Options, s: State<T>, k: nat)
    requires k < |s.handed|
  {
    var start := Offset(s.handed[..k]) + s.handed[k].reported;
    && 1 <= |s.handed[k].batch| <= o.maxBatchSize
    && start + |s.handed[k].batch| <= |s.added|
    && s.handed[k].batch == s.added[start..start + |s.handed[k].batch|]
  }

  ghost predicate Segments<T>(o: Options, s: State<T>) {
    forall k :: 0 <= k < |s.handed| ==> Segment(o, s, k)
  }

  /** Handed batches, the gaps in front of them and the buffer tile the added lines, in order. */
  ghost predicate Tiling<T>(o: Options, s: State<T>) {
    && |s.added| == Offset(s.handed) + s.dropped + |s.buffer|
    && s.buffer == s.added[Offset(s.handed) + s.dropped..]
    && Segments(o, s)
  }

  /** A buffered line always has something that will flush it, and no timer outlives its reason. */
  ghost predicate Alive<T>(s: State<T>) {
    && (s.buffer != [] ==> s.timer || s.flushing)
    && (s.timer ==> s.buffer != [])
  }

  ghost predicate Invariant<T>(o: Options, s: State<T>) {
    && |s.buffer| <= o.maxQueueSize
    && |s.handed| == s.settled + (if s.flushing then 1 else 0)
    && Tiling(o, s)
    && Alive(s)
  }

  lemma SuffixSlices<T>(a: seq<T>, at: nat, n: nat)
    requires at + n <= |a|
    ensures a[at..][..n] == a[at..at + n]
    ensures a[at..][n..] == a[at + n..]
  {
  }

  lemma NewHandoffKeepsSegments<T>(o: Options, s: State<T>, t: State<T>)
    requires Segments(o, s) && t.added == s.added
    requires |t.handed| == |s.handed| + 1 && t.handed[..|s.handed|] == s.handed
    requires Segment(o, t, |s.handed|)
    ensures Segments(o, t)
  {
    forall k | 0 <= k < |t.handed| ensures Segment(o, t, k) {
      if k < |s.handed| {
        assert t.handed[..k] == s.handed[..k];
        assert Segment(o, s, k);
      }
    }
  }

  lemma FlushKeepsTiling<T>(o: Options, s: State<T>)
    requires Tiling(o, s)
    ensures Tiling(o, FlushStep(o, s))
  {
    var t := FlushStep(o, s);
    if !s.flushing && s.buffer != [] {
      var h := t.handed[|s.handed|];
      assert t.handed[..|s.handed|] == s.handed;
      SuffixSlices(s.added, Offset(s.handed) + s.dropped, |h.batch|);
      assert Segment(o, t, |s.handed|);
      NewHandoffKeepsSegments(o, s, t);
    } else {
      SameSegments(o, s, t);
    }
  }

  lemma StepKeepsInvariant<T>(o: Options, s: State<T>, e: Event<T>)
    requires Invariant(o, s)
    ensures Invariant(o, Step(o, s, e))
  {
    match e
    case Add(line) => AddKeepsTiling(o, s, line);
    case TimerFires => FlushKeepsTiling(o, s.(timer := false)) by { SameSegments(o, s, s.(timer := false)); }
    case FlushCalled => FlushKeepsTiling(o, s);
    case SinkSettles => SameSegments(o, s, SettleStep(s));
  }

  lemma SameSegments<T>(o: Options, s: State<T>, t: State<T>)
    requires Segments(o, s)
    requires t.handed == s.handed && s.added <= t.added
    ensures Segments(o, t)
  {
    forall k | 0 <= k < |t.handed| ensures Segment(o, t, k) {
      assert Segment(o, s, k);
    }
  }

  lemma EnqueueKeepsTiling<T>(o: Options, s: State<T>, line: T)
    requires Tiling(o, s)
    ensures Tiling(o, Enqueue(o, s, line))
  {
    var t := Enqueue(o, s, line);
    var at := Offset(s.handed) + s.dropped;
    SameSegments(o, s, t);
    assert t.added[at..] == s.added[at..] + [line];
    SuffixSlices(t.added, at, 1);
  }

  lemma AddKeepsTiling<T>(o: Options, s: State<T>, line: T)
    requires Tiling(o, s)
    ensures Tiling(o, AddStep(o, s, line))
  {
    EnqueueKeepsTiling(o, s, line);
    FlushKeepsTiling(o, Enqueue(o, s, line));
    SameSegments(o, Enqueue(o, s, line), Enqueue(o, s, line).(timer := true));
  }

  /** The main safety theorem: it holds after every interleaving. */
  lemma {:induction false} EveryInterleavingKeepsInvariant<T>(o: Options, es: seq<Event<T>>)
    ensures Invariant(o, Run(o, Initial(), es))
    decreases |es|
  {
    if es != [] {
      EveryInterleavingKeepsInvariant(o, es[..|es| - 1]);
      StepKeepsInvariant(o, Run(o, Initial(), es[..|es| - 1]), es[|es| - 1]);
    }
  }

  ghost function LinesHanded<T>(hs: seq<Handoff<T>>): nat {
    if hs == [] then 0 else LinesHanded(hs[..|hs| - 1]) + |hs[|hs| - 1].batch|
  }

  ghost function DropsReported<T>(hs: seq<Handoff<T>>): nat {
    if hs == [] then 0 else DropsReported(hs[..|hs| - 1]) + hs[|hs| - 1].reported
  }

  ghost function LinesAdded<T>(es: seq<Event<T>>): seq<T> {
    if es == [] then []
    else LinesAdded(es[..|es| - 1]) + (if es[|es| - 1].Add? then [es[|es| - 1].line] else [])
  }

  lemma {:induction false} OffsetSplits<T>(hs: seq<Handoff<T>>)
    ensures Offset(hs) == LinesHanded(hs) + DropsReported(hs)
  {
    if hs != [] { OffsetSplits(hs[..|hs| - 1]); }
  }

  lemma {:induction false} AddedLinesAreTheRun<T>(o: Options, es: seq<Event<T>>)
    ensures Run(o, Initial(), es).added == LinesAdded(es)
    decreases |es|
  {
    if es != [] { AddedLinesAreTheRun(o, es[..|es| - 1]); }
  }

  /** Conservation: every added line is handed over, reported as dropped, waiting to be reported, or buffered. */
  lemma EveryInterleavingConservesLines<T>(o: Options, es: seq<Event<T>>)
    ensures var s := Run(o, Initial(), es);
      && s.added == LinesAdded(es)
      && |LinesAdded(es)| == LinesHanded(s.handed) + DropsReported(s.handed) + s.dropped + |s.buffer|
  {
    var s := Run(o, Initial(), es);
    AddedLinesAreTheRun(o, es);
    EveryInterleavingKeepsInvariant(o, es);
    OffsetSplits(s.handed);
  }

  /** A line that fills a batch starts the flush itself; a line that does not never interrupts one. */
  lemma FullBatchIsFlushedAtOnce<T>(o: Options, s: State<T>, line: T)
    requires Invariant(o, s)
    ensures var t := AddStep(o, s, line);
      && (|t.buffer| >= o.maxBatchSize ==> t.flushing)
      && (t.handed != s.handed <==> !s.flushing && (|s.buffer| + 1 >= o.maxBatchSize
                                                    && o.maxQueueSize >= o.maxBatchSize))
      && (t.handed != s.handed ==> |t.handed[|s.handed|].batch| == o.maxBatchSize)
  {
  }

  // ---------------------------------------------------------------- what is handed over, and when

  /** From `s` to `t` one batch was handed over, and it is full or all there was. */
  ghost predicate HandsOver<T>(o: Options, s: State<T>, t: State<T>) {
    && |t.handed| == |s.handed| + 1 && s.handed <= t.handed
    && (|t.handed[|s.handed|].batch| == o.maxBatchSize || t.buffer == [])
    && t.flushing && !t.timer
  }

  /** No flush is in flight, and the event fills a batch, or is a timer or a flush call that finds lines. */
  ghost predicate StartsAFlush<T>(o: Options, s: State<T>, e: Event<T>) {
    && !s.flushing
    && match e
       case Add(_) => |s.buffer| + 1 >= o.maxBatchSize && o.maxQueueSize >= o.maxBatchSize
       case TimerFires => s.timer
       case FlushCalled => s.buffer != []
       case SinkSettles => false
  }

  /** Exactly which events hand a batch over, and how much of the buffer. */
  lemma HandsOverExactly<T>(o: Options, s: State<T>, e: Event<T>)
    requires Invariant(o, s)
    ensures var t := Step(o, s, e);
      && (t.handed != s.handed <==> StartsAFlush(o, s, e))
      && (t.handed != s.handed ==> HandsOver(o, s, t))
      && (e.Add? && |s.buffer| + 1 < o.maxBatchSize ==> t.timer)
  {
    if e.Add? {
      FullBatchIsFlushedAtOnce(o, s, e.line);
    }
  }

  /** Event `i` of the run hands over batch `k`. */
  ghost predicate HandedAt<T>(o: Options, es: seq<Event<T>>, i: nat, k: nat) {
    && i < |es| && |Run(o, Initial(), es[..i]).handed| == k
    && HandsOver(o, Run(o, Initial(), es[..i]), Run(o, Initial(), es[..i + 1]))
  }

  lemma OneMoreHanded<T>(o: Options, es: seq<Event<T>>, k: nat)
    requires es != [] && |Run(o, Initial(), es[..|es| - 1]).handed| <= k < |Run(o, Initial(), es).handed|
    ensures HandedAt(o, es, |es| - 1, k)
  {
    var n := |es| - 1;
    assert es[..n + 1] == es;
    EveryInterleavingKeepsInvariant(o, es[..n]);
    HandsOverExactly(o, Run(o, Initial(), es[..n]), es[n]);
  }

  lemma {:induction false} EveryBatchIsHandedAt<T>(o: Options, es: seq<Event<T>>, k: nat) returns (i: nat)
    requires k < |Run(o, Initial(), es).handed|
    ensures HandedAt(o, es, i, k)
    decreases |es|
  {
    var front := es[..|es| - 1];
    if k < |Run(o, Initial(), front).handed| {
      i := EveryBatchIsHandedAt(o, front, k);
      assert front[..i] == es[..i] && front[..i + 1] == es[..i + 1];
    } else {
      OneMoreHanded(o, es, k);
      i := |es| - 1;
    }
  }

  lemma HandedStays<T>(o: Options, es: seq<Event<T>>, n: nat)
    requires n <= |es|
    ensures Run(o, Initial(), es[..n]).handed <= Run(o, Initial(), es).handed
  {
    RunConcat(o, Initial(), es[..n], es[n..]);
    assert es[..n] + es[n..] == es;
    RunExtends(o, Run(o, Initial(), es[..n]), es[n..]);
  }

  /** Under every interleaving each batch handed over is full, or was all that was buffered. */
  lemma EveryBatchIsFullOrAll<T>(o: Options, es: seq<Event<T>>, k: nat)
    requires k < |Run(o, Initial(), es).handed|
    ensures |Run(o, Initial(), es).handed[k].batch| == o.maxBatchSize
         || exists i: nat :: HandedAt(o, es, i, k) && Run(o, Initial(), es[..i + 1]).buffer == []
  {
    var i := EveryBatchIsHandedAt(o, es, k);
    HandedStays(o, es, i + 1);
  }

  /** How many lines of a run found the buffer full. */
  ghost function Overflows<T>(o: Options, es: seq<Event<T>>): nat {
    if es == [] then 0
    else
      var front, e := es[..|es| - 1], es[|es| - 1];
      Overflows(o, front) + if e.Add? && |Run(o, Initial(), front).buffer| == o.maxQueueSize then 1 else 0
  }

  lemma DropsWhenFull<T>(o: Options, s: State<T>, e: Event<T>)
    requires Invariant(o, s)
    ensures var t := Step(o, s, e);
      DropsReported(t.handed) + t.dropped
      == DropsReported(s.handed) + s.dropped + if e.Add? && |s.buffer| == o.maxQueueSize then 1 else 0
  {
    var t := Step(o, s, e);
    HandsOverExactly(o, s, e);
    if t.handed != s.handed {
      assert t.handed[..|s.handed|] == s.handed;
    }
  }

  /** A line is dropped for each one that finds the buffer full, and for no other. */
  lemma {:induction false} DropsAreOverflows<T>(o: Options, es: seq<Event<T>>)
    ensures var s := Run(o, Initial(), es); DropsReported(s.handed) + s.dropped == Overflows(o, es)
    decreases |es|
  {
    if es != [] {
      DropsAreOverflows(o, es[..|es| - 1]);
      EveryInterleavingKeepsInvariant(o, es[..|es| - 1]);
      DropsWhenFull(o, Run(o, Initial(), es[..|es| - 1]), es[|es| - 1]);
    }
  }

  /** The flush in flight settles, and then the timer fires. */
  ghost function Round<T>(): seq<Event<T>> {
    [SinkSettles, TimerFires]
  }

  ghost function Rounds<T>(n: nat): seq<Event<T>> {
    if n == 0 then [] else Round() + Rounds(n - 1)
  }

  lemma OneRound<T>(o: Options, s: State<T>)
    requires Invariant(o, s)
    ensures var t := Run(o, s, Round());
      && Invariant(o, t) && t.added == s.added
      && |t.buffer| == if |s.buffer| > o.maxBatchSize then |s.buffer| - o.maxBatchSize else 0
  {
    var events: seq<Event<T>> := Round();
    assert events[..1] == [SinkSettles] && events[..1][..0] == [];
    assert Run(o, s, events[..1]) == SettleStep(s);
    StepKeepsInvariant(o, s, SinkSettles);
    StepKeepsInvariant(o, SettleStep(s), TimerFires);
    HandsOverExactly(o, SettleStep(s), TimerFires);
  }

  lemma RoundsOfOneMore<T>(o: Options, s: State<T>, n: Positive)
    ensures Run(o, s, Rounds(n)) == Run(o, Run(o, s, Round()), Rounds(n - 1))
  {
    RunConcat(o, s, Round(), Rounds(n - 1));
  }

  /** `n` full batches hold a buffer of this size. */
  ghost predicate Enough(n: nat, batch: Positive, size: nat) {
    size <= n * batch
  }

  lemma EnoughAfterOne(n: Positive, batch: Positive, size: nat)
    requires Enough(n, batch, size)
    ensures Enough(n - 1, batch, if size > batch then size - batch else 0)
  {
    assert n * batch == (n - 1) * batch + batch;
  }

  /** What is buffered needs no further call: settlements and timers hand all of it over, a full batch a round. */
  lemma {:induction false} TimersDrain<T>(o: Options, s: State<T>, n: nat)
    requires Invariant(o, s) && Enough(n, o.maxBatchSize, |s.buffer|)
    ensures Run(o, s, Rounds(n)).buffer == [] && Run(o, s, Rounds(n)).added == s.added
    decreases n
  {
    if n > 0 {
      OneRound(o, s);
      RoundsOfOneMore(o, s, n);
      EnoughAfterOne(n, o.maxBatchSize, |s.buffer|);
      TimersDrain(o, Run(o, s, Round()), n - 1);
    }
  }

  /** What may happen while nobody settles the flush in flight leaves buffer and history alone. */
  lemma {:induction false} NothingMovesWhileFlushing<T>(o: Options, s: State<T>, es: seq<Event<T>>)
    requires s.flushing && forall i :: 0 <= i < |es| ==> !es[i].Add? && !es[i].SinkSettles?
    ensures Run(o, s, es) == s.(timer := Run(o, s, es).timer)
    decreases |es|
  {
    if es != [] { NothingMovesWhileFlushing(o, s, es[..|es| - 1]); }
  }

  /** The events before the first settlement: what an awaited sink call gives way to. */
  function BeforeSettling<T>(es: seq<Event<T>>): (r: seq<Event<T>>)
    ensures r <= es && forall i :: 0 <= i < |r| ==> !r[i].SinkSettles?
    ensures |r| < |es| ==> es[|r|].SinkSettles?
  {
    if es == [] || es[0].SinkSettles? then [] else [es[0]] + BeforeSettling(es[1..])
  }

  lemma {:induction false} RunExtends<T>(o: Options, s: State<T>, es: seq<Event<T>>)
    ensures s.added <= Run(o, s, es).added && s.handed <= Run(o, s, es).handed
    decreases |es|
  {
    if es != [] { RunExtends(o, s, es[..|es| - 1]); }
  }

  lemma {:induction false} RunKeepsInvariant<T>(o: Options, s: State<T>, es: seq<Event<T>>)
    requires Invariant(o, s)
    ensures Invariant(o, Run(o, s, es))
    decreases |es|
  {
    if es != [] {
      RunKeepsInvariant(o, s, es[..|es| - 1]);
      StepKeepsInvariant(o, Run(o, s, es[..|es| - 1]), es[|es| - 1]);
    }
  }

  /** An awaited sink call settles: the events meanwhile, up to the moment the awaiting loop looks again. */
  function WithSettlement<T>(es: seq<Event<T>>): (r: seq<Event<T>>)
    ensures es <= r && |BeforeSettling(es)| < |r| && r[|BeforeSettling(es)|].SinkSettles?
  {
    if |BeforeSettling(es)| < |es| then es else es + [SinkSettles]
  }

  ghost predicate NoLines<T>(es: seq<Event<T>>) {
    forall i :: 0 <= i < |es| ==> !es[i].Add?
  }

  /** Without new lines the buffer shrinks exactly when a batch is handed over. */
  lemma {:induction false} ShrinksByHandingOver<T>(o: Options, s: State<T>, es: seq<Event<T>>)
    requires NoLines(es)
    ensures var t := Run(o, s, es);
      && (t.handed == s.handed ==> t.buffer == s.buffer)
      && (t.handed != s.handed ==> |t.buffer| < |s.buffer|) && |s.handed| <= |t.handed|
    decreases |es|
  {
    if es != [] { ShrinksByHandingOver(o, s, es[..|es| - 1]); }
  }

  /** No line comes, and between the settlement and the next look of the loop nobody else starts a flush. */
  ghost predicate Quiet<T>(es: seq<Event<T>>) {
    && NoLines(es)
    && forall i :: |BeforeSettling(es)| <= i < |es| ==> es[i].SinkSettles?
  }

  lemma {:induction false} RunConcat<T>(o: Options, s: State<T>, a: seq<Event<T>>, b: seq<Event<T>>)
    ensures Run(o, s, a + b) == Run(o, Run(o, s, a), b)
    decreases |b|
  {
    if b == [] {
      assert a + b == a;
    } else {
      assert (a + b)[..|a + b| - 1] == a + b[..|b| - 1];
      RunConcat(o, s, a, b[..|b| - 1]);
    }
  }

  lemma {:induction false} SettlingIsIdle<T>(o: Options, s: State<T>, es: seq<Event<T>>)
    requires !s.flushing && forall i :: 0 <= i < |es| ==> es[i].SinkSettles?
    ensures Run(o, s, es) == s
    decreases |es|
  {
    if es != [] { SettlingIsIdle(o, s, es[..|es| - 1]); }
  }

  /** A flush in flight that nothing disturbs ends with its settlement. */
  lemma QuietSettlement<T>(o: Options, s: State<T>, es: seq<Event<T>>)
    requires s.flushing && Quiet(es)
    ensures var t := Run(o, s, WithSettlement(es));
      !t.flushing && t.buffer == s.buffer && t.added == s.added
  {
    var before, all := BeforeSettling(es), WithSettlement(es);
    var rest := all[|before| + 1..];
    assert all == before + ([SinkSettles] + rest);
    RunConcat(o, s, before, [SinkSettles] + rest);
    var t, settlement: seq<Event<T>> := Run(o, s, before), [SinkSettles];
    NothingMovesWhileFlushing(o, s, before);
    RunConcat(o, t, settlement, rest);
    assert settlement[..0] == [];
    assert Run(o, t, settlement) == SettleStep(t);
    SettlingIsIdle(o, SettleStep(t), rest);
  }

  /** A state of the shutdown loop: lines are left, and the timer may have been cancelled. */
  ghost predicate Stopping<T>(o: Options, s: State<T>) {
    s.buffer != [] && Invariant(o, s.(timer := true))
  }

  lemma TimerIsSpare<T>(o: Options, s: State<T>, timer: bool)
    requires Invariant(o, s)
    ensures s.buffer != [] ==> Stopping(o, s.(timer := timer))
    ensures s.buffer == [] ==> Invariant(o, s.(timer := false))
  {
    SameSegments(o, s, s.(timer := true));
    SameSegments(o, s, s.(timer := false));
  }

  /** One turn of the shutdown loop, with `during` happening while it awaits. */
  ghost function AwaitStep<T>(o: Options, s: State<T>, during: seq<Event<T>>): State<T> {
    if s.flushing then Run(o, s, during)
    else Run(o, FlushStep(o, s), WithSettlement(during))
  }

  lemma AwaitKeepsInvariant<T>(o: Options, s: State<T>, during: seq<Event<T>>)
    requires Stopping(o, s)
    ensures Invariant(o, FlushStep(o, s)) && Invariant(o, AwaitStep(o, s, during))
  {
    if s.flushing {
      SameSegments(o, s.(timer := true), s);
      RunKeepsInvariant(o, s, during);
    } else {
      StepKeepsInvariant(o, s.(timer := true), FlushCalled);
      RunKeepsInvariant(o, FlushStep(o, s), WithSettlement(during));
    }
  }

  /** Without new lines a turn of the shutdown loop is stuck exactly when a flush was in flight and none followed it. */
  lemma StuckBehindAFlush<T>(o: Options, s: State<T>, during: seq<Event<T>>)
    requires s.buffer != [] && NoLines(during)
    ensures var t := AwaitStep(o, s, during);
      && (|t.buffer| >= |s.buffer| <==> t.handed == s.handed) && (t.handed == s.handed ==> s.flushing)
  {
    ShrinksByHandingOver(o, FlushStep(o, s), if s.flushing then during else WithSettlement(during));
  }

  lemma AwaitExtends<T>(o: Options, s: State<T>, during: seq<Event<T>>)
    requires Stopping(o, s)
    ensures var t := AwaitStep(o, s, during);
      && s.added <= t.added && s.handed <= t.handed
      && (!s.flushing && Quiet(during) ==> !t.flushing && |t.buffer| < |s.buffer| && t.added == s.added)
      && (s.flushing && during == [] ==> t == s)
  {
    var f := FlushStep(o, s);
    RunExtends(o, f, if s.flushing then during else WithSettlement(during));
    if !s.flushing && Quiet(during) {
      QuietSettlement(o, f, during);
    }
  }

  // ---------------------------------------------------------------- the shutdown loop

  /** A state in which the loop looks: `Valid` when nothing is left, and but for the timer otherwise. */
  ghost predicate Looking<T>(o: Options, s: State<T>) {
    if s.buffer == [] then Invariant(o, s) else Stopping(o, s)
  }

  /** The state in which the loop ends that looks for the `n`-th time in state `s`. */
  ghost function Shutdown<T>(o: Options, s: State<T>, during: nat -> seq<Event<T>>, n: nat): State<T>
    decreases |s.buffer|
  {
    if s.buffer == [] then s
    else
      var t := AwaitStep(o, s, during(n));
      if |t.buffer| >= |s.buffer| then t else Shutdown(o, t, during, n + 1)
  }

  /** The state at the last look of that loop that found lines, or `s` when none did. */
  ghost function LastLook<T>(o: Options, s: State<T>, during: nat -> seq<Event<T>>, n: nat): State<T>
    decreases |s.buffer|
  {
    if s.buffer == [] then s
    else
      var t := AwaitStep(o, s, during(n));
      if |t.buffer| >= |s.buffer| || t.buffer == [] then s else LastLook(o, t, during, n + 1)
  }

  lemma TurnKeepsLooking<T>(o: Options, s: State<T>, es: seq<Event<T>>)
    requires Stopping(o, s)
    ensures Invariant(o, AwaitStep(o, s, es)) && Looking(o, AwaitStep(o, s, es))
  {
    AwaitKeepsInvariant(o, s, es);
    TimerIsSpare(o, AwaitStep(o, s, es), AwaitStep(o, s, es).timer);
  }

  /** Whatever happens meanwhile, shutdown keeps the invariant and takes nothing back. */
  lemma {:induction false} ShutdownIsSound<T>(o: Options, s: State<T>, during: nat -> seq<Event<T>>, n: nat)
    requires Looking(o, s)
    ensures var t := Shutdown(o, s, during, n);
      Invariant(o, t) && s.added <= t.added && s.handed <= t.handed
    decreases |s.buffer|
  {
    if s.buffer != [] {
      var t := AwaitStep(o, s, during(n));
      TurnKeepsLooking(o, s, during(n));
      AwaitExtends(o, s, during(n));
      if |t.buffer| < |s.buffer| {
        ShutdownIsSound(o, t, during, n + 1);
      }
    }
  }

  lemma QuietTurn<T>(o: Options, s: State<T>, during: nat -> seq<Event<T>>, n: nat)
    requires Looking(o, s) && s.buffer != [] && !s.flushing && Quiet(during(n))
    ensures var t := AwaitStep(o, s, during(n));
      && Looking(o, t) && !t.flushing && |t.buffer| < |s.buffer| && t.added == s.added
      && Shutdown(o, s, during, n) == Shutdown(o, t, during, n + 1)
  {
    TurnKeepsLooking(o, s, during(n));
    AwaitExtends(o, s, during(n));
  }

  /** It drains when no flush is in flight on entry, no line comes, and nobody else flushes before a look. */
  lemma {:induction false} QuietShutdownDrains<T>(o: Options, s: State<T>, during: nat -> seq<Event<T>>, n: nat)
    requires Looking(o, s) && !s.flushing && forall i :: Quiet(during(i))
    ensures var t := Shutdown(o, s, during, n);
      t.buffer == [] && !t.flushing && t.added == s.added
    decreases |s.buffer|
  {
    if s.buffer != [] {
      QuietTurn(o, s, during, n) by { assert Quiet(during(n)); }
      QuietShutdownDrains(o, AwaitStep(o, s, during(n)), during, n + 1);
    }
  }

  /** Either the loop looks again and finds lines, or this is the last look at which it did. */
  lemma LooksAgain<T>(o: Options, s: State<T>, during: nat -> seq<Event<T>>, n: nat)
    requires s.buffer != []
    ensures var t := AwaitStep(o, s, during(n));
      if |t.buffer| < |s.buffer| && t.buffer != [] then
        && Shutdown(o, s, during, n) == Shutdown(o, t, during, n + 1)
        && LastLook(o, s, during, n) == LastLook(o, t, during, n + 1)
      else Shutdown(o, s, during, n) == t && LastLook(o, s, during, n) == s
  {
  }

  lemma LeavesThem<T>(o: Options, s: State<T>, es: seq<Event<T>>)
    requires s.buffer != [] && NoLines(es)
    requires var t := AwaitStep(o, s, es); |t.buffer| >= |s.buffer| || t.buffer == []
    ensures var t := AwaitStep(o, s, es); t.buffer != [] <==> s.flushing && t.handed == s.handed
  {
    StuckBehindAFlush(o, s, es);
  }

  /** The loop that looks for the `n`-th time in state `s` leaves lines exactly behind a flush. */
  ghost predicate LeavesBehindAFlush<T>(o: Options, s: State<T>, during: nat -> seq<Event<T>>, n: nat) {
    var t, last := Shutdown(o, s, during, n), LastLook(o, s, during, n);
    t.buffer != [] <==> last.buffer != [] && last.flushing && t.handed == last.handed
  }

  lemma OneMoreLook<T>(o: Options, s: State<T>, during: nat -> seq<Event<T>>, n: nat)
    requires s.buffer != [] && NoLines(during(n))
    requires var t := AwaitStep(o, s, during(n));
      |t.buffer| < |s.buffer| && t.buffer != [] ==> LeavesBehindAFlush(o, t, during, n + 1)
    ensures LeavesBehindAFlush(o, s, during, n)
  {
    var t := AwaitStep(o, s, during(n));
    LooksAgain(o, s, during, n);
    if !(|t.buffer| < |s.buffer| && t.buffer != []) {
      LeavesThem(o, s, during(n));
    }
  }

  /**
   Exactly when shutdown leaves lines, if no line comes meanwhile: a flush was in flight at its last
   look, and no batch was handed over after that.
   */
  lemma {:induction false} ShutdownLeavesLinesBehindAFlush<T>(o: Options, s: State<T>, during: nat -> seq<Event<T>>,
                                                              n: nat)
    requires forall i :: NoLines(during(i))
    ensures LeavesBehindAFlush(o, s, during, n)
    decreases |s.buffer|
  {
    if s.buffer != [] {
      var t := AwaitStep(o, s, during(n));
      if |t.buffer| < |s.buffer| {
        ShutdownLeavesLinesBehindAFlush(o, t, during, n + 1);
      }
      assert NoLines(during(n));
      OneMoreLook(o, s, during, n);
    }
  }

  /** With nothing happening meanwhile it drains exactly when nothing is buffered or no flush is in flight on entry. */
  lemma SilentShutdown<T>(o: Options, s: State<T>, during: nat -> seq<Event<T>>, n: nat)
    requires Looking(o, s) && forall i :: during(i) == []
    ensures Shutdown(o, s, during, n).buffer == [] <==> s.buffer == [] || !s.flushing
  {
    if s.buffer != [] {
      assert during(n) == [];
      if s.flushing {
        AwaitExtends(o, s, []);
      } else {
        assert forall i :: during(i) == [] ==> Quiet(during(i));
        QuietShutdownDrains(o, s, during, n);
      }
    }
  }

  /** What shutdown that begins in state `s` promises about the state `t` in which it ends. */
  ghost predicate Stopped<T>(o: Options, s: State<T>, during: nat -> seq<Event<T>>, t: State<T>) {
    && Invariant(o, t) && s.added <= t.added && s.handed <= t.handed
    && (!s.flushing && (forall i :: Quiet(during(i))) ==> t.buffer == [] && !t.flushing && t.added == s.added)
    && ((forall i :: NoLines(during(i)))
        ==> var last := LastLook(o, s, during, 0);
            t.buffer != [] <==> last.buffer != [] && last.flushing && t.handed == last.handed)
    && ((forall i :: during(i) == []) ==> (t.buffer == [] <==> s.buffer == [] || !s.flushing))
  }

  lemma ShutdownStops<T>(o: Options, s: State<T>, during: nat -> seq<Event<T>>)
    requires Looking(o, s)
    ensures Stopped(o, s, during, Shutdown(o, s, during, 0))
  {
    ShutdownIsSound(o, s, during, 0);
    if !s.flushing && forall i :: Quiet(during(i)) {
      QuietShutdownDrains(o, s, during, 0);
    }
    if forall i :: NoLines(during(i)) {
      ShutdownLeavesLinesBehindAFlush(o, s, during, 0);
    }
    if forall i :: during(i) == [] {
      SilentShutdown(o, s, during, 0);
    }
  }

  ghost function Adds<T>(lines: seq<T>): seq<Event<T>> {
    if lines == [] then [] else Adds(lines[..|lines| - 1]) + [Event.Add(lines[|lines| - 1])]
  }

  ghost predicate Buffers<T>(s: State<T>, lines: seq<T>) {
    s.buffer == lines && !s.flushing && s.dropped == 0 && s.handed == []
  }

  lemma AddBuffersOneMore<T>(o: Options, s: State<T>, lines: seq<T>, line: T)
    requires Buffers(s, lines) && |lines| + 1 < o.maxBatchSize <= o.maxQueueSize
    ensures Buffers(AddStep(o, s, line), lines + [line])
  {
  }

  lemma {:induction false} AddsBuffer<T>(o: Options, lines: seq<T>)
    requires |lines| < o.maxBatchSize <= o.maxQueueSize
    ensures Buffers(Run(o, Initial(), Adds(lines)), lines)
    decreases |lines|
  {
    if lines != [] {
      var front, last := lines[..|lines| - 1], lines[|lines| - 1];
      AddsBuffer(o, front);
      RunOfOneMore(o, Adds(front), Event.Add(last));
      AddBuffersOneMore(o, Run(o, Initial(), Adds(front)), front, last);
      assert front + [last] == lines;
    }
  }

  lemma RunOfOneMore<T>(o: Options, es: seq<Event<T>>, e: Event<T>)
    ensures Run(o, Initial(), es + [e]) == Step(o, Run(o, Initial(), es), e)
  {
    assert (es + [e])[..|es|] == es;
  }

  lemma AddsFlush<T>(o: Options, lines: seq<T>)
    requires |lines| == o.maxBatchSize <= o.maxQueueSize
    ensures var s := Run(o, Initial(), Adds(lines));
      s.handed == [Handoff(lines, 0)] && s.buffer == [] && s.flushing && s.dropped == 0 && !s.timer
  {
    var front, n := lines[..|lines| - 1], |lines| - 1;
    AddsBuffer(o, front);
    RunOfOneMore(o, Adds(front), Event.Add(lines[n]));
    assert front + [lines[n]] == lines && lines[..|lines|] == lines;
    assert Run(o, Initial(), Adds(lines)) == FlushStep(o, Enqueue(o, Run(o, Initial(), Adds(front)), lines[n]));
  }

  /**
   A line lost at shutdown: a full batch is in flight when one more line comes, and a shutdown that
   begins then gives up at once, with nothing else happening, and leaves the line in the buffer.
   */
  lemma ShutdownBehindAFlushLosesALine<T>(o: Options, lines: seq<T>, last: T)
    requires |lines| == o.maxBatchSize <= o.maxQueueSize
    ensures var s := Run(o, Initial(), Adds(lines) + [Event.Add(last)]);
      && s.flushing && s.handed == [Handoff(lines, 0)] && s.buffer == [last]
      && AwaitStep(o, s.(timer := false), []) == s.(timer := false)
  {
    AddsFlush(o, lines);
    RunOfOneMore(o, Adds(lines), Event.Add(last));
    assert [] + [last] == [last];
  }

  /**
   Why the drain is stated for quiet awaits: in the model another flush may start right after a
   settlement, is still in flight when the loop looks again, and ends the drain. In the agent nobody
   can flush at that moment.
   */
  lemma ForeignFlushEndsTheDrain<T>(o: Options, s: State<T>)
    requires !s.flushing && |s.buffer| > 2 * o.maxBatchSize
    ensures var t := AwaitStep(o, s, [SinkSettles, FlushCalled]);
      t.flushing && t.buffer == s.buffer[2 * o.maxBatchSize..] && AwaitStep(o, t, []) == t
  {
    var f, events: seq<Event<T>> := FlushStep(o, s), [SinkSettles, FlushCalled];
    assert events[..1][..0] == [] && events[..2] == events && events[..2][..1] == events[..1];
    assert Run(o, f, events[..1]) == SettleStep(f);
    assert Run(o, f, events) == FlushStep(o, SettleStep(f));
  }

  /**
   The batcher object. `added`, `handed` and `settled` are ghost history. `Flush` is the part of
   the asynchronous flush up to its `await`; `Settle` is the part after it, run once the sink
   resolves or rejects (a rejected batch is gone as well).
   */
  class Batcher<T> {
    const options: Options
    var buffer: seq<T>
    var timer: bool
    var flushing: bool
    var droppedSinceLastFlush: nat
    ghost var added: seq<T>
    ghost var handed: seq<Handoff<T>>
    ghost var settled: nat

    ghost function Model(): State<T>
      reads this
    {
      State(buffer, timer, flushing, droppedSinceLastFlush, added, handed, settled)
    }

    ghost predicate Valid()
      reads this
    {
      Invariant(options, Model())
    }

    constructor (options: Options)
      ensures Valid() && Model() == Initial() && this.options == options
    {
      this.options := options;
      buffer, timer, flushing, droppedSinceLastFlush := [], false, false, 0;
      added, handed, settled := [], [], 0;
    }

    method Add(line: T)
      requires Valid()
      modifies this
      ensures Valid() && Model() == AddStep(options, old(Model()), line)
    {
      StepKeepsInvariant(options, Model(), Event.Add(line));
      if |buffer| >= options.maxQueueSize {
        buffer := buffer[1..];
        droppedSinceLastFlush := droppedSinceLastFlush + 1;
      }
      buffer := buffer + [line];
      added := added + [line];
      if |buffer| >= options.maxBatchSize {
        var _ := StartFlush();
        return;
      }
      timer := true;
    }

    /** `started` tells whether a batch was handed to the sink, so that there is something to await. */
    method StartFlush() returns (started: bool)
      modifies this
      ensures Model() == FlushStep(options, old(Model()))
      ensures started <==> old(!flushing && buffer != [])
    {
      if flushing {
        return false;
      }
      timer := false;
      if buffer == [] {
        return false;
      }
      flushing := true;
      var n := if options.maxBatchSize <= |buffer| then options.maxBatchSize else |buffer|;
      handed := handed + [Handoff(buffer[..n], droppedSinceLastFlush)];
      buffer := buffer[n..];
      droppedSinceLastFlush := 0;
      started := true;
    }

    method Flush() returns (started: bool)
      requires Valid()
      modifies this
      ensures Valid() && Model() == FlushStep(options, old(Model()))
      ensures started <==> old(!flushing && buffer != [])
    {
      StepKeepsInvariant(options, Model(), FlushCalled);
      started := StartFlush();
    }

    method TimerExpires()
      requires Valid()
      modifies this
      ensures Valid() && Model() == Step(options, old(Model()), TimerFires)
    {
      StepKeepsInvariant(options, Model(), TimerFires);
      if timer {
        timer := false;
        var _ := StartFlush();
      }
    }

    method Settle()
      requires Valid()
      modifies this
      ensures Valid() && Model() == SettleStep(old(Model()))
    {
      StepKeepsInvariant(options, Model(), SinkSettles);
      if flushing {
        flushing := false;
        settled := settled + 1;
        if buffer != [] {
          timer := true;
        }
      }
    }

    /** Anything else the process does while this object awaits. */
    method Interfere(es: seq<Event<T>>)
      requires Valid()
      modifies this
      ensures Valid() && Model() == Run(options, old(Model()), es)
    {
      for i := 0 to |es|
        invariant Valid() && Model() == Run(options, old(Model()), es[..i])
      {
        assert es[..i + 1][..i] == es[..i];
        match es[i]
        case Add(line) => Add(line);
        case TimerFires => TimerExpires();
        case FlushCalled => var _ := Flush();
        case SinkSettles => Settle();
      }
      assert es[..|es|] == es;
    }

    /** One turn of the shutdown loop: start a flush if none is in flight, and await it. */
    method FlushAndAwait(during: seq<Event<T>>)
      requires Stopping(options, Model())
      modifies this
      ensures Valid() && Model() == AwaitStep(options, old(Model()), during)
    {
      AwaitKeepsInvariant(options, Model(), during);
      var started := StartFlush();
      if started {
        Interfere(WithSettlement(during));
      } else {
        Interfere(during);
      }
    }

    /**
     Shutdown. `during(i)` is what happens until the loop looks again after its `i`-th flush, the
     settlement of a sink call it started included. The loop always terminates, in the state that
     `Shutdown` says. It drains the buffer when no flush is in flight on entry, no line arrives
     meanwhile, and nobody else starts a flush between a settlement and the loop's next look; with
     nothing at all happening meanwhile, that is also the only way it drains a nonempty one. Without
     new lines it leaves some exactly when a flush was in flight at its last look and none followed.
     */
    method Stop(during: nat -> seq<Event<T>>)
      requires Valid()
      modifies this
      ensures Model() == Shutdown(options, old(Model()).(timer := false), during, 0)
      ensures Valid() && old(added) <= added && old(handed) <= handed
      ensures old(!flushing) && (forall i :: Quiet(during(i)))
              ==> buffer == [] && !flushing && !timer && settled == |handed| && added == old(added)
      ensures (forall i :: NoLines(during(i)))
              ==> var last := LastLook(options, old(Model()).(timer := false), during, 0);
                  buffer != [] <==> last.buffer != [] && last.flushing && handed == last.handed
      ensures (forall i :: during(i) == []) ==> (buffer == [] <==> old(buffer == [] || !flushing))
    {
      TimerIsSpare(options, Model(), false);
      ShutdownStops(options, Model().(timer := false), during);
      timer := false;
      StopLoop(during);
    }

    method StopLoop(during: nat -> seq<Event<T>>)
      requires Looking(options, Model())
      modifies this
      ensures Model() == Shutdown(options, old(Model()), during, 0)
    {
      var i: nat := 0;
      ghost var end := Shutdown(options, Model(), during, 0);
      while buffer != []
        invariant Looking(options, Model())
        invariant Shutdown(options, Model(), during, i) == end
        decreases |buffer|
      {
        var before := |buffer|;
        TurnKeepsLooking(options, Model(), during(i));
        FlushAndAwait(during(i));
        i := i + 1;
        if |buffer| >= before {
          break;
        }
      }
    }
  }
}
