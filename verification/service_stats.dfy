/**
 Per-service log counters accumulated in memory and written in batches: records, overlapping
 flushes, and writes that succeed or fail, in any interleaving.
 */
module ServiceStats {

  type Service = nat

  datatype Entry = Entry(service: Service, isError: bool, timestamp: int)

  datatype Delta = Delta(logCount: int, errorCount: int, lastSeenAt: int)

  datatype Counts = Counts(logs: int, errors: int)

  /** Which of the two counters is meant. */
  datatype Kind = Logs | Errors

  function Amount(d: Delta, k: Kind): int {
    if k == Logs then d.logCount else d.errorCount
  }

  /** A write on its way: the flush that started it and the service it is for. */
  datatype Write = Write(flush: nat, service: Service)

  /**
   `pending` is the buffer's field; `inFlight` the writes not settled; the rest is history: `batches` holds
   the records each flush took.
   */
  datatype State = State(
    pending: map<Service, Delta>,
    inFlight: map<Write, Delta>,
    flushes: nat,
    written: map<Service, Counts>,
    lost: map<Service, Counts>,
    recorded: seq<Entry>,
    sinceSwap: seq<Entry>,
    batches: seq<seq<Entry>>)

  datatype Event = Log(record: Entry) | StartFlush | Settle(write: Write, ok: bool)

  ghost function Initial(): State {
    State(map[], map[], 0, map[], map[], [], [], [])
  }

  /** The entry of a service after one more record. */
  function Grown(pending: map<Service, Delta>, r: Entry): Delta {
    if r.service !in pending then Delta(1, if r.isError then 1 else 0, r.timestamp)
    else
      var d := pending[r.service];
      Delta(d.logCount + 1, if r.isError then d.errorCount + 1 else d.errorCount,
            if r.timestamp > d.lastSeenAt then r.timestamp else d.lastSeenAt)
  }

  function Merge(pending: map<Service, Delta>, r: Entry): map<Service, Delta> {
    pending[r.service := Grown(pending, r)]
  }

  function CountOf(m: map<Service, Counts>, s: Service, k: Kind): int {
    if s !in m then 0 else if k == Logs then m[s].logs else m[s].errors
  }

  function AddTo(m: map<Service, Counts>, s: Service, d: Delta): map<Service, Counts> {
    m[s := Counts(CountOf(m, s, Logs) + d.logCount, CountOf(m, s, Errors) + d.errorCount)]
  }

  function Batch(pending: map<Service, Delta>, flush: nat): map<Write, Delta> {
    map s | s in pending :: Write(flush, s) := pending[s]
  }

  ghost function Logged(s: State, r: Entry): State {
    s.(pending := Merge(s.pending, r), recorded := s.recorded + [r], sinceSwap := s.sinceSwap + [r])
  }

  ghost function Swapped(s: State): State {
    if s.pending == map[] then s
    else s.(pending := map[], inFlight := s.inFlight + Batch(s.pending, s.flushes), flushes := s.flushes + 1,
        sinceSwap := [], batches := s.batches + [s.sinceSwap])
  }

  ghost function Settled(s: State, w: Write, ok: bool): State {
    if w !in s.inFlight then s
    else
      s.(inFlight := s.inFlight - {w},
         written := if ok then AddTo(s.written, w.service, s.inFlight[w]) else s.written,
         lost := if ok then s.lost else AddTo(s.lost, w.service, s.inFlight[w]))
  }

  ghost function Next(s: State, e: Event): State {
    match e
    case Log(r) => Logged(s, r)
    case StartFlush => Swapped(s)
    case Settle(w, ok) => Settled(s, w, ok)
  }

  ghost function Run(es: seq<Event>): State {
    if es == [] then Initial() else Next(Run(es[..|es| - 1]), es[|es| - 1])
  }

  // ---------------------------------------------------------------- conservation

  ghost function One(r: Entry, service: Service, k: Kind): int {
    if r.service == service && (k == Logs || r.isError) then 1 else 0
  }

  /** Definition: the logs, or the errors, recorded for a service. */
  ghost function Recorded(rs: seq<Entry>, service: Service, k: Kind): int {
    if rs == [] then 0 else Recorded(rs[..|rs| - 1], service, k) + One(rs[|rs| - 1], service, k)
  }

  ghost function Pending(pending: map<Service, Delta>, service: Service, k: Kind): int {
    if service in pending then Amount(pending[service], k) else 0
  }

  /** What the first `n` flushes still have on its way to a service. */
  ghost function InFlight(m: map<Write, Delta>, n: nat, service: Service, k: Kind): int {
    if n == 0 then 0
    else InFlight(m, n - 1, service, k)
         + if Write(n - 1, service) in m then Amount(m[Write(n - 1, service)], k) else 0
  }

  /** Everything recorded for a service is pending, on its way, written, or lost with a failed write. */
  ghost predicate Conserved(s: State, service: Service, k: Kind) {
    Recorded(s.recorded, service, k)
    == Pending(s.pending, service, k) + InFlight(s.inFlight, s.flushes, service, k)
       + CountOf(s.written, service, k) + CountOf(s.lost, service, k)
  }

  /** The pending entry of a service sums up its records since the last swap; `lastSeenAt` is their maximum. */
  ghost predicate SumsUp(s: State, service: Service) {
    && (service in s.pending <==> exists r :: r in s.sinceSwap && r.service == service)
    && (forall k :: Pending(s.pending, service, k) == Recorded(s.sinceSwap, service, k))
    && (service in s.pending ==> IsLatest(s.sinceSwap, service, s.pending[service].lastSeenAt))
  }

  ghost predicate IsLatest(rs: seq<Entry>, service: Service, t: int) {
    && (exists r :: r in rs && r.service == service && r.timestamp == t)
    && forall r :: r in rs && r.service == service ==> r.timestamp <= t
  }

  ghost predicate ErrorsAreLogs(s: State) {
    && (forall k :: k in s.pending ==> s.pending[k].errorCount <= s.pending[k].logCount)
    && (forall w :: w in s.inFlight ==> s.inFlight[w].errorCount <= s.inFlight[w].logCount)
    && (forall k :: k in s.written ==> s.written[k].errors <= s.written[k].logs)
    && (forall k :: k in s.lost ==> s.lost[k].errors <= s.lost[k].logs)
  }

  ghost predicate Flushed(s: State) {
    forall w :: w in s.inFlight ==> w.flush < s.flushes
  }

  lemma {:induction false} InFlightWithBatch(m: map<Write, Delta>, pending: map<Service, Delta>, n: nat, i: nat,
                                             service: Service, k: Kind)
    requires i <= n && forall w :: w in m ==> w.flush < n
    ensures InFlight(m + Batch(pending, n), i, service, k) == InFlight(m, i, service, k)
  {
    if i > 0 {
      InFlightWithBatch(m, pending, n, i - 1, service, k);
    }
  }

  /** What a write takes out of flight for a service. */
  ghost function Moved(w: Write, d: Delta, service: Service, k: Kind): int {
    if service == w.service then Amount(d, k) else 0
  }

  lemma {:induction false} InFlightWithout(m: map<Write, Delta>, w: Write, n: nat, service: Service, k: Kind)
    requires w in m
    ensures InFlight(m, n, service, k)
         == InFlight(m - {w}, n, service, k) + if w.flush < n then Moved(w, m[w], service, k) else 0
  {
    if n > 0 {
      InFlightWithout(m, w, n - 1, service, k);
    }
  }

  lemma RecordedCountsOnce(rs: seq<Entry>, r: Entry, service: Service, k: Kind)
    ensures Recorded(rs + [r], service, k) == Recorded(rs, service, k) + One(r, service, k)
  {
    assert (rs + [r])[..|rs|] == rs;
  }

  lemma MergeCountsOnce(pending: map<Service, Delta>, r: Entry, service: Service, k: Kind)
    ensures Pending(Merge(pending, r), service, k) == Pending(pending, service, k) + One(r, service, k)
  {
  }

  /** A swap moves what is pending into flight, and nothing else. */
  lemma SwapMoves(s: State, service: Service, k: Kind)
    requires Flushed(s)
    ensures var t := Swapped(s);
      && Pending(t.pending, service, k) + InFlight(t.inFlight, t.flushes, service, k)
         == Pending(s.pending, service, k) + InFlight(s.inFlight, s.flushes, service, k)
  {
    if s.pending != map[] {
      var after := s.inFlight + Batch(s.pending, s.flushes);
      InFlightWithBatch(s.inFlight, s.pending, s.flushes, s.flushes, service, k);
      var w := Write(s.flushes, service);
      assert w !in s.inFlight;
      assert w in after <==> service in s.pending;
      assert service in s.pending ==> after[w] == s.pending[service];
    }
  }

  lemma AddToAdds(m: map<Service, Counts>, w: Write, d: Delta, service: Service, k: Kind)
    ensures CountOf(AddTo(m, w.service, d), service, k) == CountOf(m, service, k) + Moved(w, d, service, k)
  {
  }

  lemma StepConserves(s: State, e: Event, service: Service, k: Kind)
    requires Flushed(s) && Conserved(s, service, k)
    ensures Conserved(Next(s, e), service, k)
  {
    match e
    case Log(r) =>
      MergeCountsOnce(s.pending, r, service, k);
      RecordedCountsOnce(s.recorded, r, service, k);
    case StartFlush => SwapMoves(s, service, k);
    case Settle(w, ok) =>
      if w in s.inFlight {
        InFlightWithout(s.inFlight, w, s.flushes, service, k);
        AddToAdds(if ok then s.written else s.lost, w, s.inFlight[w], service, k);
      }
  }

  lemma {:induction false} EveryInterleavingIsOrderly(es: seq<Event>)
    ensures ErrorsAreLogs(Run(es)) && Flushed(Run(es))
  {
    if es != [] {
      EveryInterleavingIsOrderly(es[..|es| - 1]);
    }
  }

  lemma LatestAfter(rs: seq<Entry>, pending: map<Service, Delta>, r: Entry, service: Service)
    requires service in pending <==> exists x :: x in rs && x.service == service
    requires service in pending ==> IsLatest(rs, service, pending[service].lastSeenAt)
    ensures service in Merge(pending, r) <==> exists x :: x in rs + [r] && x.service == service
    ensures service in Merge(pending, r) ==> IsLatest(rs + [r], service, Merge(pending, r)[service].lastSeenAt)
  {
    var after := rs + [r];
    assert r in after && forall x :: x in after <==> x == r || x in rs;
    if service in pending {
      var x :| x in rs && x.service == service && x.timestamp == pending[service].lastSeenAt;
      assert x in after;
    }
  }

  lemma StepSumsUp(s: State, e: Event, service: Service)
    requires SumsUp(s, service)
    ensures SumsUp(Next(s, e), service)
  {
    if e.Log? {
      LatestAfter(s.sinceSwap, s.pending, e.record, service);
      forall k: Kind ensures Pending(Merge(s.pending, e.record), service, k)
          == Recorded(s.sinceSwap + [e.record], service, k) {
        MergeCountsOnce(s.pending, e.record, service, k);
        RecordedCountsOnce(s.sinceSwap, e.record, service, k);
      }
    }
  }

  /**
   Under every interleaving both counters are conserved, and the pending part sums up what came
   since the last swap.
   */
  lemma {:induction false} EveryInterleavingConserves(es: seq<Event>, service: Service, k: Kind)
    ensures Conserved(Run(es), service, k) && SumsUp(Run(es), service)
  {
    if es != [] {
      var front, e := es[..|es| - 1], es[|es| - 1];
      EveryInterleavingIsOrderly(front);
      EveryInterleavingConserves(front, service, k);
      StepConserves(Run(front), e, service, k);
      StepSumsUp(Run(front), e, service);
    }
  }

  /** Definition: the records made in a run. */
  ghost function RecordsOf(es: seq<Event>): seq<Entry> {
    if es == [] then []
    else
      var before, e := RecordsOf(es[..|es| - 1]), es[|es| - 1];
      if e.Log? then before + [e.record] else before
  }

  lemma {:induction false} RecordedIsTheRun(es: seq<Event>)
    ensures Run(es).recorded == RecordsOf(es)
  {
    if es != [] {
      RecordedIsTheRun(es[..|es| - 1]);
    }
  }

  // ---------------------------------------------------------------- what a write carries

  /** A write on its way sums up the records of its service that its flush took, and carries their latest timestamp. */
  ghost predicate Carries(s: State, w: Write) {
    w in s.inFlight ==>
      && w.flush < |s.batches|
      && (forall k :: Amount(s.inFlight[w], k) == Recorded(s.batches[w.flush], w.service, k))
      && IsLatest(s.batches[w.flush], w.service, s.inFlight[w].lastSeenAt)
  }

  ghost function Flat(batches: seq<seq<Entry>>): seq<Entry> {
    if batches == [] then [] else Flat(batches[..|batches| - 1]) + batches[|batches| - 1]
  }

  lemma SwapCarries(s: State, w: Write)
    requires Carries(s, w) && |s.batches| == s.flushes && Flushed(s)
    requires forall service :: SumsUp(s, service)
    ensures Carries(Swapped(s), w) && |Swapped(s).batches| == Swapped(s).flushes
  {
    var t := Swapped(s);
    if w in t.inFlight && w !in s.inFlight {
      assert w.flush == s.flushes && w.service in s.pending && t.inFlight[w] == s.pending[w.service];
      assert SumsUp(s, w.service);
      forall k: Kind ensures Amount(t.inFlight[w], k) == Recorded(s.sinceSwap, w.service, k) {
        assert Pending(s.pending, w.service, k) == Recorded(s.sinceSwap, w.service, k);
      }
    }
  }

  /** Under every interleaving each record is in one batch or not swapped out yet, and each write carries its batch. */
  lemma {:induction false} EveryWriteCarriesItsRecords(es: seq<Event>, w: Write)
    ensures var s := Run(es);
      Carries(s, w) && |s.batches| == s.flushes && s.recorded == Flat(s.batches) + s.sinceSwap
  {
    if es == [] {
      assert Flat([]) + [] == [];
    } else {
      var front, e := es[..|es| - 1], es[|es| - 1];
      var s := Run(front);
      EveryWriteCarriesItsRecords(front, w);
      EveryInterleavingIsOrderly(front);
      forall service ensures SumsUp(s, service) {
        EveryInterleavingConserves(front, service, Logs);
      }
      match e
      case Log(r) =>
        assert Flat(s.batches) + (s.sinceSwap + [r]) == Flat(s.batches) + s.sinceSwap + [r];
      case StartFlush =>
        SwapCarries(s, w);
        assert (s.batches + [s.sinceSwap])[..|s.batches|] == s.batches;
        assert Flat(s.batches) + s.sinceSwap + [] == Flat(s.batches) + s.sinceSwap;
      case Settle(_, _) =>
    }
  }

  // ---------------------------------------------------------------- the buffer

  /** The service table: what `update` with increments leaves; `lastSeenAt` is overwritten by each batch. */
  datatype ServiceRow = ServiceRow(logCount: int, errorCount: int, lastSeenAt: int)

  class ServiceStatsBuffer {
    var pending: map<Service, Delta>
    var inFlight: map<Write, Delta>
    var flushes: nat
    var services: map<Service, ServiceRow>
    ghost var written: map<Service, Counts>
    ghost var lost: map<Service, Counts>
    ghost var recorded: seq<Entry>
    ghost var sinceSwap: seq<Entry>
    ghost var batches: seq<seq<Entry>>
    ghost const rows: map<Service, ServiceRow>

    /** Each row still there holds what it started with plus what was written. */
    ghost predicate Valid()
      reads this
    {
      && services.Keys <= rows.Keys
      && forall s :: s in services ==>
           && services[s].logCount == rows[s].logCount + CountOf(written, s, Logs)
           && services[s].errorCount == rows[s].errorCount + CountOf(written, s, Errors)
    }

    ghost function Model(): State
      reads this
    {
      State(pending, inFlight, flushes, written, lost, recorded, sinceSwap, batches)
    }

    constructor (services: map<Service, ServiceRow>)
      ensures Valid() && rows == services && Model() == Initial() && this.services == services
    {
      this.services, rows := services, services;
      pending, inFlight, flushes := map[], map[], 0;
      written, lost, recorded, sinceSwap, batches := map[], map[], [], [], [];
    }

    method Record(serviceId: Service, isError: bool, timestamp: int)
      requires Valid()
      modifies this
      ensures Valid() && Model() == Next(old(Model()), Log(Entry(serviceId, isError, timestamp)))
          && services == old(services)
    {
      recorded := recorded + [Entry(serviceId, isError, timestamp)];
      sinceSwap := sinceSwap + [Entry(serviceId, isError, timestamp)];
      if serviceId !in pending {
        pending := pending[serviceId := Delta(1, if isError then 1 else 0, timestamp)];
        return;
      }
      var current := pending[serviceId];
      current := current.(logCount := current.logCount + 1);
      if isError {
        current := current.(errorCount := current.errorCount + 1);
      }
      if timestamp > current.lastSeenAt {
        current := current.(lastSeenAt := timestamp);
      }
      pending := pending[serviceId := current];
    }

    /** The synchronous part of a flush: swap the pending entries out, and start one write for each. */
    method Flush()
      requires Valid()
      modifies this
      ensures Valid() && Model() == Next(old(Model()), StartFlush) && services == old(services)
    {
      if pending == map[] {
        return;
      }
      var batch := Batch(pending, flushes);
      pending := map[];
      inFlight := inFlight + batch;
      flushes := flushes + 1;
      batches := batches + [sinceSwap];
      sinceSwap := [];
    }

    /** One write settles: the row is incremented, or the counters are dropped because it is gone. */
    method SettleWrite(w: Write, reached: bool) returns (ok: bool)
      requires Valid() && w in inFlight
      modifies this
      ensures Valid()
      ensures ok <==> reached && w.service in old(services)
      ensures Model() == Next(old(Model()), Settle(w, ok))
      ensures var d := old(inFlight)[w];
        services == if ok then old(services)[w.service := ServiceRow(old(services)[w.service].logCount + d.logCount,
                                 old(services)[w.service].errorCount + d.errorCount, d.lastSeenAt)]
                    else old(services)
    {
      var delta := inFlight[w];
      inFlight := inFlight - {w};
      ok := reached && w.service in services;
      if ok {
        var row := services[w.service];
        services := services[w.service := ServiceRow(row.logCount + delta.logCount, row.errorCount + delta.errorCount,
                                                     delta.lastSeenAt)];
        written := AddTo(written, w.service, delta);
      } else {
        lost := AddTo(lost, w.service, delta);
      }
    }

    /** A service row is deleted, possibly between buffering and flushing. */
    method DeleteService(id: Service)
      requires Valid()
      modifies this`services
      ensures Valid() && services == old(services) - {id}
    {
      services := services - {id};
    }
  }
}
