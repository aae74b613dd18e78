/**
 API key validation through a cache: positive and negative entries with a time to live against
 the key table, under every interleaving of validators and revokers, and in serial runs.
 A key is named by its hash.
 */
module ApiKeys {
  import opened Wrappers

  type Hash = nat
  datatype Context = Context(id: nat, projectId: nat, server: bool)

  const NEGATIVE_CACHE_TTL_MS := 10000

  // ---------------------------------------------------------------- every interleaving

  /** The event that first revoked a key; a second revocation overwrites a date nothing reads. */
  datatype KeyRow = KeyRow(context: Context, revokedBy: Option<nat>)

  /** A cache entry; `grant` is absent for an unknown key. `lookup` and `write` name the events it comes from. */
  datatype Entry = Entry(grant: Option<Context>, deadline: int, lookup: nat, write: nat)

  /** Where a validator stands between two awaits. */
  datatype Phase = Missed(hash: Hash) | LookedUp(hash: Hash, result: Option<Context>, lookup: nat)

  /** An accepted request: the events that looked the key up, that wrote the entry used if any, and that accepted. */
  datatype Accept = Accept(hash: Hash, context: Context, lookup: nat, cached: Option<nat>, at: nat)

  datatype Action =
    | Create(hash: Hash, context: Context)
    | ReadCache(validator: nat, hash: Hash)
    | Lookup(validator: nat)
    | WriteCache(validator: nat, answered: bool)
    | Fail(validator: nat)
    | RevokeRow(hash: Hash)
    | DropEntry(hash: Hash)

  datatype Event = Event(action: Action, now: int)

  datatype World = World(
    rows: map<Hash, KeyRow>,
    cache: map<Hash, Entry>,
    phases: map<nat, Phase>,
    accepted: set<Accept>)

  ghost predicate Live(w: World, hash: Hash, now: int) {
    hash in w.cache && now < w.cache[hash].deadline
  }

  /**
   Event `k` of a run. The two writes of a revoker are events of their own, in any position. A
   validator whose cache write is applied but not answered fails.
   */
  ghost function Next(w: World, e: Event, k: nat, ttlMs: nat): World {
    match e.action
    case Create(h, context) => if h in w.rows then w else w.(rows := w.rows[h := KeyRow(context, None)])
    case ReadCache(v, h) =>
      if !Live(w, h, e.now) then w.(phases := w.phases[v := Missed(h)])
      else if w.cache[h].grant.None? then w.(phases := w.phases - {v})
      else w.(phases := w.phases - {v},
              accepted := w.accepted
                          + {Accept(h, w.cache[h].grant.value, w.cache[h].lookup, Some(w.cache[h].write), k)})
    case Lookup(v) =>
      if v !in w.phases || !w.phases[v].Missed? then w
      else
        var h := w.phases[v].hash;
        var result := if h in w.rows && w.rows[h].revokedBy.None? then Some(w.rows[h].context) else None;
        w.(phases := w.phases[v := LookedUp(h, result, k)])
    case WriteCache(v, answered) =>
      if v !in w.phases || !w.phases[v].LookedUp? then w
      else
        var p := w.phases[v];
        var ttl := if p.result.Some? then ttlMs else NEGATIVE_CACHE_TTL_MS;
        w.(cache := w.cache[p.hash := Entry(p.result, e.now + ttl, p.lookup, k)],
           phases := w.phases - {v},
           accepted := w.accepted
                       + if p.result.Some? && answered then {Accept(p.hash, p.result.value, p.lookup, None, k)} else {})
    case Fail(v) => w.(phases := w.phases - {v})
    case RevokeRow(h) =>
      if h in w.rows && w.rows[h].revokedBy.None? then w.(rows := w.rows[h := w.rows[h].(revokedBy := Some(k))]) else w
    case DropEntry(h) => w.(cache := w.cache - {h})
  }

  ghost function Run(es: seq<Event>, ttlMs: nat): World {
    if es == [] then World(map[], map[], map[], {})
    else Next(Run(es[..|es| - 1], ttlMs), es[|es| - 1], |es| - 1, ttlMs)
  }

  /** A grant for a stored row, by a lookup that came before any revocation of it. */
  ghost predicate Justified(w: World, es: seq<Event>, hash: Hash, context: Context, lookup: nat) {
    && hash in w.rows && w.rows[hash].context == context
    && lookup < |es| && es[lookup].action.Lookup?
    && (w.rows[hash].revokedBy.Some? ==> lookup < w.rows[hash].revokedBy.value)
  }

  ghost predicate WrittenBy(es: seq<Event>, lookup: nat, write: nat) {
    && lookup < write < |es|
    && es[lookup].action.Lookup? && es[write].action.WriteCache?
    && es[write].action.validator == es[lookup].action.validator
  }

  ghost predicate AcceptJustified(w: World, es: seq<Event>, a: Accept, ttlMs: nat) {
    && a.at < |es|
    && Justified(w, es, a.hash, a.context, a.lookup)
    && match a.cached
       case None => WrittenBy(es, a.lookup, a.at)
       case Some(write) => WrittenBy(es, a.lookup, write) && write < a.at && es[a.at].now < es[write].now + ttlMs
  }

  ghost predicate EntryJustified(w: World, es: seq<Event>, hash: Hash, entry: Entry, ttlMs: nat) {
    entry.grant.Some? ==>
      && Justified(w, es, hash, entry.grant.value, entry.lookup)
      && WrittenBy(es, entry.lookup, entry.write)
      && entry.deadline == es[entry.write].now + ttlMs
  }

  ghost predicate PhaseJustified(w: World, es: seq<Event>, validator: nat, p: Phase) {
    p.LookedUp? ==>
      && p.lookup < |es| && es[p.lookup].action == Lookup(validator)
      && (p.result.Some? ==> Justified(w, es, p.hash, p.result.value, p.lookup))
  }

  ghost predicate RowJustified(es: seq<Event>, hash: Hash, row: KeyRow) {
    row.revokedBy.Some? ==> row.revokedBy.value < |es| && es[row.revokedBy.value].action == RevokeRow(hash)
  }

  ghost predicate Sound(w: World, es: seq<Event>, ttlMs: nat) {
    && (forall h :: h in w.rows ==> RowJustified(es, h, w.rows[h]))
    && (forall h :: h in w.cache ==> EntryJustified(w, es, h, w.cache[h], ttlMs))
    && (forall v :: v in w.phases ==> PhaseJustified(w, es, v, w.phases[v]))
    && (forall a :: a in w.accepted ==> AcceptJustified(w, es, a, ttlMs))
  }

  /** Rows keep their context; a row may have been revoked by event `k`. */
  ghost predicate RowsGrow(w: World, w': World, k: nat) {
    forall h :: h in w.rows ==>
      && h in w'.rows && w'.rows[h].context == w.rows[h].context
      && (w'.rows[h].revokedBy == w.rows[h].revokedBy
          || (w.rows[h].revokedBy.None? && w'.rows[h].revokedBy == Some(k)))
  }

  /** What was justified stays so when the run goes on. */
  lemma JustificationsLast(w: World, w': World, es: seq<Event>, e: Event, ttlMs: nat)
    requires Sound(w, es, ttlMs) && RowsGrow(w, w', |es|)
    ensures forall h :: h in w.rows ==> RowJustified(es + [e], h, w.rows[h])
    ensures forall h :: h in w.cache ==> EntryJustified(w', es + [e], h, w.cache[h], ttlMs)
    ensures forall v :: v in w.phases ==> PhaseJustified(w', es + [e], v, w.phases[v])
    ensures forall a :: a in w.accepted ==> AcceptJustified(w', es + [e], a, ttlMs)
  {
    var all := es + [e];
    assert forall i :: 0 <= i < |es| ==> all[i] == es[i];
    forall h | h in w.cache ensures EntryJustified(w', all, h, w.cache[h], ttlMs) {
      assert EntryJustified(w, es, h, w.cache[h], ttlMs);
    }
    forall v | v in w.phases ensures PhaseJustified(w', all, v, w.phases[v]) {
      assert PhaseJustified(w, es, v, w.phases[v]);
    }
    forall a | a in w.accepted ensures AcceptJustified(w', all, a, ttlMs) {
      assert AcceptJustified(w, es, a, ttlMs);
    }
  }

  lemma ReadKeepsSound(w: World, es: seq<Event>, e: Event, ttlMs: nat)
    requires Sound(w, es, ttlMs) && e.action.ReadCache?
    ensures Sound(Next(w, e, |es|, ttlMs), es + [e], ttlMs)
  {
    var w', all, h := Next(w, e, |es|, ttlMs), es + [e], e.action.hash;
    assert all[|es|] == e;
    JustificationsLast(w, w', es, e, ttlMs);
    if Live(w, h, e.now) && w.cache[h].grant.Some? {
      assert EntryJustified(w', all, h, w.cache[h], ttlMs);
      assert EntryJustified(w, es, h, w.cache[h], ttlMs);
      assert AcceptJustified(w', all,
          Accept(h, w.cache[h].grant.value, w.cache[h].lookup, Some(w.cache[h].write), |es|), ttlMs);
    }
  }

  lemma WriteKeepsSound(w: World, es: seq<Event>, e: Event, ttlMs: nat)
    requires Sound(w, es, ttlMs) && e.action.WriteCache?
    ensures Sound(Next(w, e, |es|, ttlMs), es + [e], ttlMs)
  {
    var w', all, v := Next(w, e, |es|, ttlMs), es + [e], e.action.validator;
    assert all[|es|] == e;
    JustificationsLast(w, w', es, e, ttlMs);
    if v in w.phases && w.phases[v].LookedUp? {
      assert PhaseJustified(w', all, v, w.phases[v]);
      assert PhaseJustified(w, es, v, w.phases[v]);
      assert EntryJustified(w', all, w.phases[v].hash, w'.cache[w.phases[v].hash], ttlMs);
    }
  }

  lemma RowsKeepSound(w: World, es: seq<Event>, e: Event, ttlMs: nat)
    requires Sound(w, es, ttlMs) && (e.action.Create? || e.action.RevokeRow?)
    ensures Sound(Next(w, e, |es|, ttlMs), es + [e], ttlMs)
  {
    assert (es + [e])[|es|] == e;
    JustificationsLast(w, Next(w, e, |es|, ttlMs), es, e, ttlMs);
  }

  lemma StepKeepsSound(w: World, es: seq<Event>, e: Event, ttlMs: nat)
    requires Sound(w, es, ttlMs)
    ensures Sound(Next(w, e, |es|, ttlMs), es + [e], ttlMs)
  {
    if e.action.ReadCache? {
      ReadKeepsSound(w, es, e, ttlMs);
    } else if e.action.WriteCache? {
      WriteKeepsSound(w, es, e, ttlMs);
    } else if e.action.Create? || e.action.RevokeRow? {
      RowsKeepSound(w, es, e, ttlMs);
    } else {
      assert (es + [e])[|es|] == e;
      JustificationsLast(w, Next(w, e, |es|, ttlMs), es, e, ttlMs);
    }
  }

  lemma {:induction false} EveryInterleavingIsSound(es: seq<Event>, ttlMs: nat)
    ensures Sound(Run(es, ttlMs), es, ttlMs)
  {
    if es != [] {
      var front, e := es[..|es| - 1], es[|es| - 1];
      EveryInterleavingIsSound(front, ttlMs);
      StepKeepsSound(Run(front, ttlMs), front, e, ttlMs);
      assert front + [e] == es;
    }
  }

  /** Event `lookup` is of a validator that missed the cache for this hash, and finds its unrevoked row. */
  ghost predicate FoundBy(es: seq<Event>, ttlMs: nat, lookup: nat, hash: Hash, context: Context) {
    lookup < |es| && es[lookup].action.Lookup? &&
    var v, w := es[lookup].action.validator, Run(es[..lookup], ttlMs);
    && v in w.phases && w.phases[v] == Missed(hash)
    && hash in w.rows && w.rows[hash] == KeyRow(context, None)
  }

  ghost predicate AcceptFound(es: seq<Event>, a: Accept, ttlMs: nat) {
    && FoundBy(es, ttlMs, a.lookup, a.hash, a.context)
    && (a.cached.Some? ==> a.at < |es| && es[a.at].action.ReadCache? && es[a.at].action.hash == a.hash)
  }

  /** Everything granted goes back to the lookup it names. */
  ghost predicate Traceable(w: World, es: seq<Event>, ttlMs: nat) {
    && (forall v :: v in w.phases && w.phases[v].LookedUp? && w.phases[v].result.Some? ==>
          FoundBy(es, ttlMs, w.phases[v].lookup, w.phases[v].hash, w.phases[v].result.value))
    && (forall h :: h in w.cache && w.cache[h].grant.Some? ==>
          FoundBy(es, ttlMs, w.cache[h].lookup, h, w.cache[h].grant.value))
    && forall a :: a in w.accepted ==> AcceptFound(es, a, ttlMs)
  }

  lemma TracesLast(w: World, es: seq<Event>, e: Event, ttlMs: nat)
    requires Traceable(w, es, ttlMs)
    ensures Traceable(w, es + [e], ttlMs)
  {
    var all := es + [e];
    assert forall i :: 0 <= i < |es| ==> all[i] == es[i] && all[..i] == es[..i];
    forall lookup: nat, h, c | FoundBy(es, ttlMs, lookup, h, c) ensures FoundBy(all, ttlMs, lookup, h, c) {
    }
    forall a | a in w.accepted ensures AcceptFound(all, a, ttlMs) {
      assert AcceptFound(es, a, ttlMs);
    }
  }

  lemma AcceptsStayFound(w: World, accepted: set<Accept>, es: seq<Event>, ttlMs: nat, a: Accept)
    requires Traceable(w, es, ttlMs) && accepted <= w.accepted + {a} && AcceptFound(es, a, ttlMs)
    ensures forall x :: x in accepted ==> AcceptFound(es, x, ttlMs)
  {
  }

  lemma StepIsTraceable(front: seq<Event>, e: Event, ttlMs: nat)
    requires Traceable(Run(front, ttlMs), front, ttlMs)
    ensures Traceable(Next(Run(front, ttlMs), e, |front|, ttlMs), front + [e], ttlMs)
  {
    var w, es := Run(front, ttlMs), front + [e];
    var w' := Next(w, e, |front|, ttlMs);
    TracesLast(w, front, e, ttlMs);
    assert es[|front|] == e && es[..|front|] == front;
    if e.action.ReadCache? {
      var h := e.action.hash;
      if Live(w, h, e.now) && w.cache[h].grant.Some? {
        AcceptsStayFound(w, w'.accepted, es, ttlMs,
                         Accept(h, w.cache[h].grant.value, w.cache[h].lookup, Some(w.cache[h].write), |front|));
      }
    } else if e.action.WriteCache? {
      var v := e.action.validator;
      if v in w.phases && w.phases[v].LookedUp? && w.phases[v].result.Some? {
        var p := w.phases[v];
        AcceptsStayFound(w, w'.accepted, es, ttlMs, Accept(p.hash, p.result.value, p.lookup, None, |front|));
      }
    }
  }

  lemma {:induction false} EveryGrantIsTraceable(es: seq<Event>, ttlMs: nat)
    ensures Traceable(Run(es, ttlMs), es, ttlMs)
  {
    if es != [] {
      EveryGrantIsTraceable(es[..|es| - 1], ttlMs);
      StepIsTraceable(es[..|es| - 1], es[|es| - 1], ttlMs);
      assert es[..|es| - 1] + [es[|es| - 1]] == es;
    }
  }

  /**
   Under every interleaving an accepted context is that of a stored row, and a key accepted at all
   is accepted by a validator whose own lookup came before any revocation, or through an entry
   that such a validator wrote less than one time to live before.
   */
  lemma AcceptedKeysWereLookedUpUnrevoked(es: seq<Event>, ttlMs: nat, a: Accept)
    requires a in Run(es, ttlMs).accepted
    ensures var w := Run(es, ttlMs);
      && a.hash in w.rows && w.rows[a.hash].context == a.context
      && a.lookup < a.at < |es| && FoundBy(es, ttlMs, a.lookup, a.hash, a.context)
      && (w.rows[a.hash].revokedBy.Some? ==>
            var r := w.rows[a.hash].revokedBy.value;
            r < |es| && es[r].action == RevokeRow(a.hash) && a.lookup < r)
      && (a.cached.Some? ==>
            && WrittenBy(es, a.lookup, a.cached.value) && a.cached.value < a.at
            && es[a.at].action.ReadCache? && es[a.at].action.hash == a.hash
            && es[a.at].now < es[a.cached.value].now + ttlMs)
      && (a.cached.None? ==> WrittenBy(es, a.lookup, a.at))
  {
    EveryInterleavingIsSound(es, ttlMs);
    EveryGrantIsTraceable(es, ttlMs);
    var w := Run(es, ttlMs);
    assert AcceptJustified(w, es, a, ttlMs) && AcceptFound(es, a, ttlMs);
    assert RowJustified(es, a.hash, w.rows[a.hash]);
  }

  ghost predicate Timely(es: seq<Event>) {
    forall i, j :: 0 <= i < j < |es| ==> es[i].now <= es[j].now
  }

  /** Each validator is one request, and writes at most `delay` after its lookup. */
  ghost predicate Prompt(es: seq<Event>, delay: nat) {
    forall i: nat, j: nat :: WrittenBy(es, i, j) ==> es[j].now <= es[i].now + delay
  }

  /** How long a revoked key can live: the delay of one validator and one time to live after its revocation. */
  lemma RevokedKeyExpires(es: seq<Event>, ttlMs: nat, delay: nat, a: Accept)
    requires Timely(es) && Prompt(es, delay) && a in Run(es, ttlMs).accepted
    requires a.hash in Run(es, ttlMs).rows && Run(es, ttlMs).rows[a.hash].revokedBy.Some?
    ensures var r := Run(es, ttlMs).rows[a.hash].revokedBy.value;
      r < |es| && a.at < |es| && es[a.at].now <= es[r].now + delay + ttlMs
  {
    AcceptedKeysWereLookedUpUnrevoked(es, ttlMs, a);
    var write := if a.cached.Some? then a.cached.value else a.at;
    assert WrittenBy(es, a.lookup, write);
  }

  // ---------------------------------------------------------------- when a revoked key is still accepted

  /** A run from a given state, whose first event is number `k`. */
  ghost function RunOn(w: World, es: seq<Event>, k: nat, ttlMs: nat): World {
    if es == [] then w else Next(RunOn(w, es[..|es| - 1], k, ttlMs), es[|es| - 1], k + |es| - 1, ttlMs)
  }

  /** No trace of a grant is left: no validator holds one, and no cache entry that has not expired does. */
  ghost predicate Clean(w: World, h: Hash, clock: int) {
    && h in w.rows && w.rows[h].revokedBy.Some?
    && (forall v :: v in w.phases && w.phases[v].LookedUp? && w.phases[v].hash == h ==> w.phases[v].result.None?)
    && (Live(w, h, clock) ==> w.cache[h].grant.None?)
  }

  ghost predicate NoNewAccept(w: World, w': World, h: Hash) {
    forall a :: a in w'.accepted && a.hash == h ==> a in w.accepted
  }

  ghost predicate TimelyFrom(es: seq<Event>, clock: int) {
    Timely(es) && (es != [] ==> clock <= es[0].now)
  }

  lemma CleanStays(w: World, e: Event, k: nat, ttlMs: nat, h: Hash, clock: int)
    requires Clean(w, h, clock) && clock <= e.now
    ensures Clean(Next(w, e, k, ttlMs), h, e.now) && NoNewAccept(w, Next(w, e, k, ttlMs), h)
  {
  }

  lemma {:induction false} CleanForGood(w: World, es: seq<Event>, k: nat, ttlMs: nat, h: Hash, clock: int)
    requires Clean(w, h, clock) && TimelyFrom(es, clock)
    ensures Clean(RunOn(w, es, k, ttlMs), h, if es == [] then clock else es[|es| - 1].now)
    ensures NoNewAccept(w, RunOn(w, es, k, ttlMs), h)
  {
    if es != [] {
      var front, last := es[..|es| - 1], es[|es| - 1];
      CleanForGood(w, front, k, ttlMs, h, clock);
      CleanStays(RunOn(w, front, k, ttlMs), last, k + |es| - 1, ttlMs, h,
          if front == [] then clock else front[|front| - 1].now);
    }
  }

  lemma RunOnOne(w: World, e: Event, k: nat, ttlMs: nat)
    ensures RunOn(w, [e], k, ttlMs) == Next(w, e, k, ttlMs)
  {
    assert [e][..0] == [];
    assert RunOn(w, [], k, ttlMs) == w;
  }

  /** With a trace of a grant left, one event at the present instant accepts the key. */
  lemma OneEventAccepts(w: World, h: Hash, clock: int, k: nat, ttlMs: nat) returns (e: Event)
    requires h in w.rows && w.rows[h].revokedBy.Some? && !Clean(w, h, clock)
    requires forall a :: a in w.accepted ==> a.at < k
    ensures e.now == clock && !NoNewAccept(w, RunOn(w, [e], k, ttlMs), h)
  {
    if v :| v in w.phases && w.phases[v].LookedUp? && w.phases[v].hash == h && w.phases[v].result.Some? {
      e := Event(WriteCache(v, true), clock);
      RunOnOne(w, e, k, ttlMs);
      assert Accept(h, w.phases[v].result.value, w.phases[v].lookup, None, k) in RunOn(w, [e], k, ttlMs).accepted;
    } else {
      e := Event(ReadCache(0, h), clock);
      RunOnOne(w, e, k, ttlMs);
      assert Accept(h, w.cache[h].grant.value, w.cache[h].lookup, Some(w.cache[h].write), k)
          in RunOn(w, [e], k, ttlMs).accepted;
    }
  }

  /**
   Exactly when a revocation is final: a revoked key is never accepted again, whatever happens from
   here on, if and only if no validator holds a grant for it and no live cache entry does.
   */
  lemma RevocationIsFinalExactlyWhenClean(w: World, h: Hash, clock: int, k: nat, ttlMs: nat)
    requires h in w.rows && w.rows[h].revokedBy.Some?
    requires forall a :: a in w.accepted ==> a.at < k
    ensures Clean(w, h, clock)
            <==> forall es :: TimelyFrom(es, clock) ==> NoNewAccept(w, RunOn(w, es, k, ttlMs), h)
  {
    if Clean(w, h, clock) {
      forall es | TimelyFrom(es, clock) ensures NoNewAccept(w, RunOn(w, es, k, ttlMs), h) {
        CleanForGood(w, es, k, ttlMs, h, clock);
      }
    } else {
      var e := OneEventAccepts(w, h, clock, k, ttlMs);
      assert TimelyFrom([e], clock);
    }
  }

  /** In a run the accepted requests are numbered, so the theorem above applies to it. */
  lemma RevocationInARun(es: seq<Event>, h: Hash, clock: int, ttlMs: nat)
    requires h in Run(es, ttlMs).rows && Run(es, ttlMs).rows[h].revokedBy.Some?
    ensures Clean(Run(es, ttlMs), h, clock)
            <==> forall more :: TimelyFrom(more, clock) ==>
                   NoNewAccept(Run(es, ttlMs), RunOn(Run(es, ttlMs), more, |es|, ttlMs), h)
  {
    EveryInterleavingIsSound(es, ttlMs);
    forall a | a in Run(es, ttlMs).accepted ensures a.at < |es| {
      assert AcceptJustified(Run(es, ttlMs), es, a, ttlMs);
    }
    RevocationIsFinalExactlyWhenClean(Run(es, ttlMs), h, clock, |es|, ttlMs);
  }

  /** An entry that rejects was written by a validator, and lives for ten seconds. */
  ghost predicate ShortRejection(es: seq<Event>, entry: Entry) {
    entry.grant.None? ==>
      && entry.write < |es| && es[entry.write].action.WriteCache?
      && entry.deadline == es[entry.write].now + 10_000
  }

  lemma {:induction false} RejectionsAreShort(es: seq<Event>, ttlMs: nat)
    ensures forall h :: h in Run(es, ttlMs).cache ==> ShortRejection(es, Run(es, ttlMs).cache[h])
  {
    if es != [] {
      var front, w := es[..|es| - 1], Run(es[..|es| - 1], ttlMs);
      RejectionsAreShort(front, ttlMs);
      forall h | h in Run(es, ttlMs).cache ensures ShortRejection(es, Run(es, ttlMs).cache[h]) {
        assert h in w.cache ==> ShortRejection(front, w.cache[h]);
      }
    }
  }

  /**
   An unrevoked key that no cache entry answers for is accepted, with its own context, by an
   uninterrupted validation.
   */
  lemma UnrevokedKeyIsAccepted(w: World, h: Hash, v: nat, now: int, k: nat, ttlMs: nat)
    requires h in w.rows && w.rows[h].revokedBy.None? && !Live(w, h, now)
    ensures var w1 := Next(w, Event(ReadCache(v, h), now), k, ttlMs);
      var w2 := Next(w1, Event(Lookup(v), now), k + 1, ttlMs);
      var w3 := Next(w2, Event(WriteCache(v, true), now), k + 2, ttlMs);
      Accept(h, w.rows[h].context, k + 1, None, k + 2) in w3.accepted
  {
  }

  ghost function Looking(c: Context): seq<Event> {
    [Event(Create(0, c), 0), Event(ReadCache(0, 0), 0), Event(Lookup(0), 0)]
  }

  lemma LookingRun(c: Context, ttlMs: nat)
    ensures Run(Looking(c), ttlMs) == World(map[0 := KeyRow(c, None)], map[], map[0 := LookedUp(0, Some(c), 2)], {})
  {
    var es := Looking(c);
    assert es[..1][..0] == [] && es[..2][..1] == es[..1] && es[..3] == es;
    assert Run(es[..1], ttlMs) == World(map[0 := KeyRow(c, None)], map[], map[], {});
    assert Run(es[..2], ttlMs) == World(map[0 := KeyRow(c, None)], map[], map[0 := Missed(0)], {});
  }

  lemma RunOfOneMore(es: seq<Event>, e: Event, ttlMs: nat)
    ensures Run(es + [e], ttlMs) == Next(Run(es, ttlMs), e, |es|, ttlMs)
  {
    assert (es + [e])[..|es|] == es;
  }

  /** A lookup made before the revocation is accepted after it, and its cache write undoes the delete. */
  lemma RevokedKeyCanStillBeAccepted(c: Context, ttlMs: nat)
    requires ttlMs > 0
    ensures var es := Looking(c) + [Event(RevokeRow(0), 0)] + [Event(DropEntry(0), 0)]
                      + [Event(WriteCache(0, true), 0)] + [Event(ReadCache(1, 0), 0)];
      && Run(es, ttlMs).rows == map[0 := KeyRow(c, Some(3))]
      && Accept(0, c, 2, None, 5) in Run(es, ttlMs).accepted
      && Accept(0, c, 2, Some(5), 6) in Run(es, ttlMs).accepted
  {
    LookingRun(c, ttlMs);
    var es3 := Looking(c);
    RunOfOneMore(es3, Event(RevokeRow(0), 0), ttlMs);
    var es4 := es3 + [Event(RevokeRow(0), 0)];
    RunOfOneMore(es4, Event(DropEntry(0), 0), ttlMs);
    var es5 := es4 + [Event(DropEntry(0), 0)];
    RunOfOneMore(es5, Event(WriteCache(0, true), 0), ttlMs);
    RunOfOneMore(es5 + [Event(WriteCache(0, true), 0)], Event(ReadCache(1, 0), 0), ttlMs);
  }

  /** Between the two writes of a revocation the old cache entry still grants. */
  lemma RevokedKeyIsServedUntilDropped(c: Context, ttlMs: nat)
    requires ttlMs > 0
    ensures var es := Looking(c) + [Event(WriteCache(0, true), 0)] + [Event(RevokeRow(0), 0)]
        + [Event(ReadCache(1, 0), 0)];
      && Run(es, ttlMs).rows == map[0 := KeyRow(c, Some(4))]
      && Accept(0, c, 2, Some(3), 5) in Run(es, ttlMs).accepted
  {
    LookingRun(c, ttlMs);
    var es3 := Looking(c);
    RunOfOneMore(es3, Event(WriteCache(0, true), 0), ttlMs);
    var es4 := es3 + [Event(WriteCache(0, true), 0)];
    RunOfOneMore(es4, Event(RevokeRow(0), 0), ttlMs);
    RunOfOneMore(es4 + [Event(RevokeRow(0), 0)], Event(ReadCache(1, 0), 0), ttlMs);
  }

  // ---------------------------------------------------------------- serial runs

  datatype Cached = Cached(grant: Option<Context>, deadline: int)

  datatype Row = Row(context: Context, revokedAt: Option<int>)

  datatype Store = Store(rows: map<Hash, Row>, cache: map<Hash, Cached>)

  datatype Op =
    | Add(hash: Hash, context: Context)
    | Validate(hash: Hash, now: int)
    | Revoke(hash: Hash, now: int)

  /** The table alone: the answer a validator without a cache would give. */
  function Find(rows: map<Hash, Row>, hash: Hash): Option<Context> {
    if hash in rows && rows[hash].revokedAt.None? then Some(rows[hash].context) else None
  }

  ghost predicate Coherent(s: Store) {
    forall h :: h in s.cache ==> s.cache[h].grant == Find(s.rows, h)
  }

  function Answer(s: Store, hash: Hash, now: int): Option<Context> {
    if hash in s.cache && now < s.cache[hash].deadline then s.cache[hash].grant else Find(s.rows, hash)
  }

  ghost function Perform(s: Store, op: Op, ttlMs: nat): Store {
    match op
    case Add(h, context) => s.(rows := s.rows[h := Row(context, None)])
    case Validate(h, now) =>
      if h in s.cache && now < s.cache[h].deadline then s
      else
        var found := Find(s.rows, h);
        s.(cache := s.cache[h := Cached(found, now + if found.Some? then ttlMs else NEGATIVE_CACHE_TTL_MS)])
    case Revoke(h, now) =>
      if h !in s.rows then s
      else Store(s.rows[h := s.rows[h].(revokedAt := Some(now))], s.cache - {h})
  }

  ghost function Serial(ops: seq<Op>, ttlMs: nat): Store {
    if ops == [] then Store(map[], map[]) else Perform(Serial(ops[..|ops| - 1], ttlMs), ops[|ops| - 1], ttlMs)
  }

  ghost function HashOf(op: Op): Hash {
    op.hash
  }

  /** Generated keys are random: nobody has presented or stored the hash of one before. */
  ghost predicate FreshKeys(ops: seq<Op>) {
    forall i, j :: 0 <= i < j < |ops| && ops[j].Add? ==> HashOf(ops[i]) != HashOf(ops[j])
  }

  lemma {:induction false} SerialIsCoherent(ops: seq<Op>, ttlMs: nat)
    requires FreshKeys(ops)
    ensures var s := Serial(ops, ttlMs);
      && Coherent(s)
      && (forall h :: h in s.cache || h in s.rows ==> exists i :: 0 <= i < |ops| && HashOf(ops[i]) == h)
  {
    if ops != [] {
      var front, last := ops[..|ops| - 1], ops[|ops| - 1];
      SerialIsCoherent(front, ttlMs);
      var s, s' := Serial(front, ttlMs), Serial(ops, ttlMs);
      if last.Add? {
        forall i | 0 <= i < |front| ensures HashOf(front[i]) != last.hash {
          assert HashOf(ops[i]) != HashOf(ops[|ops| - 1]);
        }
      }
      forall h | h in s'.cache || h in s'.rows ensures exists i :: 0 <= i < |ops| && HashOf(ops[i]) == h {
        if h == last.hash {
          assert HashOf(ops[|ops| - 1]) == h;
        } else {
          var i :| 0 <= i < |front| && HashOf(front[i]) == h;
          assert HashOf(ops[i]) == h;
        }
      }
    }
  }

  /** In every serial run the cache is invisible: a validation answers what the key table says now. */
  lemma CacheIsInvisible(ops: seq<Op>, ttlMs: nat, hash: Hash, now: int)
    requires FreshKeys(ops)
    ensures Answer(Serial(ops, ttlMs), hash, now) == Find(Serial(ops, ttlMs).rows, hash)
  {
    SerialIsCoherent(ops, ttlMs);
  }

  lemma {:induction false} RevokedStaysRevoked(ops: seq<Op>, ttlMs: nat, i: nat)
    requires FreshKeys(ops) && i < |ops| && ops[i].Revoke? && ops[i].hash in Serial(ops[..i], ttlMs).rows
    ensures var rows := Serial(ops, ttlMs).rows; ops[i].hash in rows && rows[ops[i].hash].revokedAt.Some?
    decreases |ops|
  {
    if i < |ops| - 1 {
      var front := ops[..|ops| - 1];
      assert front[..i] == ops[..i];
      RevokedStaysRevoked(front, ttlMs, i);
      assert HashOf(ops[i]) != HashOf(ops[|ops| - 1]) || !ops[|ops| - 1].Add?;
    }
  }

  /** In serial runs a revoked key is never accepted again. */
  lemma RevokedIsNeverAccepted(ops: seq<Op>, ttlMs: nat, i: nat, now: int)
    requires FreshKeys(ops) && i < |ops| && ops[i].Revoke? && ops[i].hash in Serial(ops[..i], ttlMs).rows
    ensures Answer(Serial(ops, ttlMs), ops[i].hash, now).None?
  {
    RevokedStaysRevoked(ops, ttlMs, i);
    CacheIsInvisible(ops, ttlMs, ops[i].hash, now);
  }

  ghost predicate RevokesKey(op: Op, hash: Hash) {
    op.Revoke? && op.hash == hash
  }

  /** Operation `i` added the key with this context, and nothing has revoked it. */
  ghost predicate StandsSince(ops: seq<Op>, i: nat, hash: Hash, context: Context) {
    i < |ops| && ops[i] == Add(hash, context) && forall j :: i < j < |ops| ==> !RevokesKey(ops[j], hash)
  }

  ghost predicate Stands(ops: seq<Op>, hash: Hash, context: Context) {
    exists i: nat :: StandsSince(ops, i, hash, context)
  }

  lemma StandsOfOneMore(ops: seq<Op>, hash: Hash, context: Context)
    requires ops != []
    ensures var n := |ops| - 1;
      Stands(ops, hash, context) <==>
        ops[n] == Add(hash, context) || (Stands(ops[..n], hash, context) && !RevokesKey(ops[n], hash))
  {
    var n := |ops| - 1;
    forall i: nat | i < n
      ensures StandsSince(ops, i, hash, context) <==>
                StandsSince(ops[..n], i, hash, context) && !RevokesKey(ops[n], hash)
    {
    }
    assert StandsSince(ops, n, hash, context) <==> ops[n] == Add(hash, context);
  }

  lemma {:induction false} FoundExactlyAsAdded(ops: seq<Op>, ttlMs: nat, hash: Hash, context: Context)
    requires FreshKeys(ops)
    ensures Find(Serial(ops, ttlMs).rows, hash) == Some(context) <==> Stands(ops, hash, context)
  {
    if ops != [] {
      var n := |ops| - 1;
      FoundExactlyAsAdded(ops[..n], ttlMs, hash, context);
      StandsOfOneMore(ops, hash, context);
      if ops[n].Add? && ops[n].hash == hash {
        forall i: nat ensures !StandsSince(ops[..n], i, hash, context) {
          assert i < n && ops[i] == Add(hash, context) ==> HashOf(ops[i]) != HashOf(ops[n]);
        }
      }
    }
  }

  /** In serial runs a key is accepted exactly with the context it was added with, and until it is revoked. */
  lemma AcceptedExactlyAsAdded(ops: seq<Op>, ttlMs: nat, hash: Hash, now: int, context: Context)
    requires FreshKeys(ops)
    ensures Answer(Serial(ops, ttlMs), hash, now) == Some(context) <==> Stands(ops, hash, context)
  {
    CacheIsInvisible(ops, ttlMs, hash, now);
    FoundExactlyAsAdded(ops, ttlMs, hash, context);
  }

  class ApiKeysService {
    const cacheTtlMs: nat
    var rows: map<Hash, Row>
    var cache: map<Hash, Cached>

    ghost function Model(): Store
      reads this
    {
      Store(rows, cache)
    }

    ghost predicate Valid()
      reads this
    {
      Coherent(Model())
    }

    constructor (cacheTtlMs: nat)
      ensures Valid() && Model() == Serial([], cacheTtlMs) && this.cacheTtlMs == cacheTtlMs
    {
      this.cacheTtlMs := cacheTtlMs;
      rows, cache := map[], map[];
    }

    /** A new key; the hash of a freshly generated one is in neither the table nor the cache. */
    method Add(hash: Hash, context: Context)
      requires Valid() && hash !in rows && hash !in cache
      modifies this
      ensures Valid() && Model() == Perform(old(Model()), Op.Add(hash, context), cacheTtlMs)
    {
      rows := rows[hash := Row(context, None)];
    }

    /** The context of a key, or the rejection of an absent, unknown or revoked one. */
    method ValidateRawKey(hash: Option<Hash>, now: int) returns (context: Option<Context>)
      requires Valid()
      modifies this`cache
      ensures Valid() && context == if hash.None? then None else Find(rows, hash.value)
      ensures Model() == if hash.None? then old(Model())
          else Perform(old(Model()), Validate(hash.value, now), cacheTtlMs)
    {
      if hash.None? {
        return None;
      }
      var h := hash.value;
      if h in cache && now < cache[h].deadline {
        return cache[h].grant;
      }
      context := Find(rows, h);
      if context.None? {
        cache := cache[h := Cached(None, now + NEGATIVE_CACHE_TTL_MS)];
      } else {
        cache := cache[h := Cached(context, now + cacheTtlMs)];
      }
    }

    method Revoke(hash: Hash, now: int) returns (found: bool)
      requires Valid()
      modifies this
      ensures Valid() && Model() == Perform(old(Model()), Op.Revoke(hash, now), cacheTtlMs)
      ensures found <==> hash in old(rows)
    {
      found := hash in rows;
      if found {
        rows := rows[hash := rows[hash].(revokedAt := Some(now))];
        cache := cache - {hash};
      }
    }
  }
}
