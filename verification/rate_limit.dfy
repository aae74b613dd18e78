/**
 The request rate limiter: the per-process store with periodic cleanup, the middleware that
 meters a request and falls back to it, and what `N` middleware instances admit together.
 */
module RateLimiting {
  import opened Wrappers
  import opened FixedWindow
  import opened RedisStore

  // ---------------------------------------------------------------- the per-process store

  /** A stored bucket may be missing only when its window is over. */
  ghost predicate Remembers(stored: Bucket, newest: Bucket, now: int) {
    stored == newest || (stored.NoBucket? && newest.resetAt <= now)
  }

  ghost predicate BucketsAgree(buckets: map<Key, Bucket>, hits: map<Key, seq<Hit>>, now: int) {
    && (forall key :: key in buckets ==> buckets[key].Bucket?)
    && (forall key: Key :: Remembers(Get(buckets, key, NoBucket), Newest(Get(hits, key, [])), now))
  }

  /** No stored bucket is older than one window before the next cleanup. */
  ghost predicate Tidy(buckets: map<Key, Bucket>, nextCleanupAt: int, windowMs: int, now: int) {
    && nextCleanupAt - windowMs <= now
    && forall key :: key in buckets ==> buckets[key].Bucket? && buckets[key].resetAt > nextCleanupAt - windowMs
  }

  function Swept(buckets: map<Key, Bucket>, now: int): map<Key, Bucket> {
    map key | key in buckets && !(buckets[key].Bucket? && buckets[key].resetAt <= now) :: buckets[key]
  }

  function Charge(current: Bucket, windowMs: Positive, cost: Cost, now: nat): (b: Bucket)
    ensures b.Bucket?
  {
    if current.Bucket? && current.resetAt > now then current.(count := current.count + cost)
    else Bucket(cost, now + windowMs)
  }

  lemma SweepingIsInvisible(buckets: map<Key, Bucket>, hits: map<Key, seq<Hit>>, earlier: int, now: int)
    requires BucketsAgree(buckets, hits, earlier) && earlier <= now
    ensures BucketsAgree(buckets, hits, now) && BucketsAgree(Swept(buckets, now), hits, now)
  {
    forall key: Key
      ensures Remembers(Get(buckets, key, NoBucket), Newest(Get(hits, key, [])), now)
      ensures Remembers(Get(Swept(buckets, now), key, NoBucket), Newest(Get(hits, key, [])), now)
    {
      assert Remembers(Get(buckets, key, NoBucket), Newest(Get(hits, key, [])), earlier);
    }
  }

  lemma ChargeIsNewest(stored: Bucket, h: seq<Hit>, hit: Hit)
    requires Remembers(stored, Newest(h), hit.now)
    ensures Charge(stored, hit.windowMs, hit.cost, hit.now) == Newest(h + [hit])
  {
    assert (h + [hit])[..|h|] == h;
  }

  lemma ChargingFollowsDefinition(buckets: map<Key, Bucket>, hits: map<Key, seq<Hit>>, key: Key, hit: Hit)
    requires BucketsAgree(buckets, hits, hit.now)
    ensures var h := Get(hits, key, []) + [hit];
      var b := Charge(Get(buckets, key, NoBucket), hit.windowMs, hit.cost, hit.now);
      && b == Newest(h)
      && BucketsAgree(buckets[key := b], hits[key := h], hit.now)
  {
    assert Remembers(Get(buckets, key, NoBucket), Newest(Get(hits, key, [])), hit.now);
    ChargeIsNewest(Get(buckets, key, NoBucket), Get(hits, key, []), hit);
    var h := Get(hits, key, []) + [hit];
    var b := Charge(Get(buckets, key, NoBucket), hit.windowMs, hit.cost, hit.now);
    var buckets1, hits1 := buckets[key := b], hits[key := h];
    forall k: Key ensures Remembers(Get(buckets1, k, NoBucket), Newest(Get(hits1, k, [])), hit.now) {
      if k == key {
        assert Get(buckets1, k, NoBucket) == b && Get(hits1, k, []) == h;
      } else {
        assert Remembers(Get(buckets, k, NoBucket), Newest(Get(hits, k, [])), hit.now);
      }
    }
  }

  /** One call keeps the store tidy: it sweeps when a cleanup is due, and charges one bucket. */
  lemma CallKeepsTidy(buckets: map<Key, Bucket>, next: int, windowMs: Positive, earlier: int, now: nat, key: Key,
                      b: Bucket)
    requires Tidy(buckets, next, windowMs, earlier) && earlier <= now
    requires b.Bucket? && b.resetAt > now
    ensures var due := now >= next;
      var after := (if due then Swept(buckets, now) else buckets)[key := b];
      && Tidy(after, if due then now + windowMs else next, windowMs, now)
      && forall k :: k in after ==> after[k].Bucket? && after[k].resetAt > now - windowMs
  {
  }

  function Kept(buckets: map<Key, Bucket>, next: int, now: int): map<Key, Bucket> {
    if now >= next then Swept(buckets, now) else buckets
  }

  /** The buckets after a call: swept when a cleanup is due, and one of them charged. */
  ghost function AfterCall(buckets: map<Key, Bucket>, next: int, key: Key, hit: Hit): map<Key, Bucket> {
    var kept := Kept(buckets, next, hit.now);
    kept[key := Charge(Get(kept, key, NoBucket), hit.windowMs, hit.cost, hit.now)]
  }

  lemma CallFollowsDefinition(buckets: map<Key, Bucket>, hits: map<Key, seq<Hit>>, next: int, earlier: int, key: Key,
                              hit: Hit)
    requires BucketsAgree(buckets, hits, earlier) && earlier <= hit.now
    ensures var h := Get(hits, key, []) + [hit];
      var b := Charge(Get(Kept(buckets, next, hit.now), key, NoBucket), hit.windowMs, hit.cost, hit.now);
      && BucketsAgree(AfterCall(buckets, next, key, hit), hits[key := h], hit.now)
      && Decision(b.count, b.resetAt - hit.now) == Told(h)
  {
    SweepingIsInvisible(buckets, hits, earlier, hit.now);
    ChargingFollowsDefinition(Kept(buckets, next, hit.now), hits, key, hit);
  }

  lemma CallKeepsTidyAfterwards(buckets: map<Key, Bucket>, next: int, earlier: int, key: Key, hit: Hit)
    requires earlier <= hit.now
    ensures Tidy(buckets, next, hit.windowMs, earlier) ==>
              && Tidy(AfterCall(buckets, next, key, hit),
                      if hit.now >= next then hit.now + hit.windowMs else next, hit.windowMs, hit.now)
              && forall k :: k in AfterCall(buckets, next, key, hit) ==>
                   AfterCall(buckets, next, key, hit)[k].resetAt > hit.now - hit.windowMs
  {
    if Tidy(buckets, next, hit.windowMs, earlier) {
      var b := Charge(Get(Kept(buckets, next, hit.now), key, NoBucket), hit.windowMs, hit.cost, hit.now);
      CallKeepsTidy(buckets, next, hit.windowMs, earlier, hit.now, key, b);
    }
  }

  class MemoryRateLimitStore {
    var buckets: map<Key, Bucket>
    var nextCleanupAt: int
    ghost var hits: map<Key, seq<Hit>>
    ghost var clock: nat

    ghost predicate Valid()
      reads this
    {
      BucketsAgree(buckets, hits, clock)
    }

    constructor ()
      ensures Valid() && hits == map[] && clock == 0
      ensures forall windowMs: Positive :: Tidy(buckets, nextCleanupAt, windowMs, clock)
    {
      buckets, nextCleanupAt, hits, clock := map[], 0, map[], 0;
    }

    method Cleanup(now: int)
      modifies this`buckets
      ensures buckets == Swept(old(buckets), now)
    {
      var todo := buckets.Keys;
      while todo != {}
        invariant todo <= buckets.Keys <= old(buckets).Keys
        invariant forall key :: key in buckets ==> buckets[key] == old(buckets)[key]
        invariant forall key :: key in old(buckets) && key !in todo ==>
                    (key in buckets <==> key in Swept(old(buckets), now))
        decreases todo
      {
        var key :| key in todo;
        todo := todo - {key};
        if buckets[key].Bucket? && buckets[key].resetAt <= now {
          buckets := buckets - {key};
        }
      }
    }

    /**
     The decision is the one the full history defines, so cleanup is never observable. With one
     window length, what is kept afterwards is never older than one window.
     */
    method Consume(key: Key, windowMs: Positive, cost: Cost, now: nat) returns (decision: Decision)
      requires Valid() && clock <= now
      modifies this
      ensures Valid() && clock == now
      ensures hits == old(hits)[key := old(Get(hits, key, [])) + [Hit(now, windowMs, cost, true)]]
      ensures decision == Told(hits[key])
      ensures old(Tidy(buckets, nextCleanupAt, windowMs, clock)) ==>
                && Tidy(buckets, nextCleanupAt, windowMs, now)
                && forall k :: k in buckets ==> buckets[k].resetAt > now - windowMs
    {
      CallFollowsDefinition(buckets, hits, nextCleanupAt, clock, key, Hit(now, windowMs, cost, true));
      CallKeepsTidyAfterwards(buckets, nextCleanupAt, clock, key, Hit(now, windowMs, cost, true));
      if now >= nextCleanupAt {
        Cleanup(now);
        nextCleanupAt := now + windowMs;
      }
      var bucket := Charge(Get(buckets, key, NoBucket), windowMs, cost, now);
      buckets := buckets[key := bucket];
      hits, clock := hits[key := Get(hits, key, []) + [Hit(now, windowMs, cost, true)]], now;
      decision := Decision(bucket.count, bucket.resetAt - now);
    }
  }

  // ---------------------------------------------------------------- the middleware

  /** What became of the call on the shared store: an answer, a lost answer, or no call at all. */
  datatype Outcome = Answered | Lost | Unreachable

  /** The rate-limit headers, and whether the request is rejected (then `retry-after` is the reset). */
  datatype Reply = Skipped | Metered(limit: nat, remaining: int, resetSeconds: int, rejected: bool)

  function Trunc(r: real): int {
    if r >= 0.0 then r.Floor else -((-r).Floor)
  }

  /** `Math.max(1, Math.trunc(cost ?? 1))` for a finite cost. */
  function RequestCost(cost: Option<real>): (c: Cost)
    ensures cost.Some? && cost.value >= 1.0 ==> c as real <= cost.value < c as real + 1.0
    ensures cost.None? || cost.value < 2.0 ==> c == 1
  {
    var c := if cost.Some? then Trunc(cost.value) else 1;
    if c >= 1 then c else 1
  }

  function CeilSeconds(ms: int): int {
    (ms + 999) / 1000
  }

  /** What the call on the shared store leaves there: nothing when it was never reached. */
  ghost function SharedHits(windowMs: Positive, cost: Cost, now: nat, outcome: Outcome): seq<Hit> {
    if outcome.Unreachable? then [] else [Hit(now, windowMs, cost, outcome.Answered?)]
  }

  /** The full history of one key grows by the given hits, and no other does. */
  ghost predicate HitsGrow(before: map<Key, seq<Hit>>, after: map<Key, seq<Hit>>, key: Key, added: seq<Hit>) {
    forall k: Key :: Get(after, k, []) == Get(before, k, []) + if k == key then added else []
  }

  lemma NoHitNoGrowth(hits: map<Key, seq<Hit>>, key: Key)
    ensures HitsGrow(hits, hits, key, [])
  {
  }

  lemma OneHitGrowth(hits: map<Key, seq<Hit>>, key: Key, hit: Hit)
    ensures HitsGrow(hits, hits[key := Get(hits, key, []) + [hit]], key, [hit])
  {
  }

  /** Rejected exactly when the count is over the limit; what is left of it, and whole seconds to the reset. */
  function ReplyTo(told: Decision, max: nat): (reply: Reply)
    ensures reply.Metered? && reply.limit == max
    ensures reply.rejected <==> told.count > max
    ensures reply.remaining == if reply.rejected then 0 else max - told.count
    ensures 1000 * (reply.resetSeconds - 1) < told.resetInMs <= 1000 * reply.resetSeconds
  {
    Metered(max, if max - told.count > 0 then max - told.count else 0, CeilSeconds(told.resetInMs), told.count > max)
  }

  /**
   The law of one answer: a request is rejected exactly when the costs of its window, its own among
   them, exceed the limit, and it is told when that window ends.
   */
  lemma RejectedExactlyOverTheLimit(h: seq<Hit>, k: nat, max: nat)
    requires Opens(h, k)
    ensures var reply, now := ReplyTo(Told(h), max), h[|h| - 1].now;
      && (reply.rejected <==> Costs(h[k..]) > max)
      && (!reply.rejected ==> reply.remaining == max - Costs(h[k..]))
      && now + 1000 * (reply.resetSeconds - 1) < h[k].now + h[k].windowMs <= now + 1000 * reply.resetSeconds
  {
    NewestIsASum(h, k);
  }

  class RateLimit {
    const windowMs: Positive
    const max: nat
    const fallback: MemoryRateLimitStore

    constructor (windowMs: Positive, max: nat)
      ensures this.windowMs == windowMs && this.max == max && fresh(fallback)
      ensures fallback.Valid() && fallback.hits == map[] && fallback.clock == 0
    {
      this.windowMs, this.max := windowMs, max;
      fallback := new MemoryRateLimitStore();
    }

    /** The awaited call on the shared store, which may fail before or after taking effect. */
    method AskShared(shared: FixedWindows, key: Key, cost: Cost, now: nat, outcome: Outcome)
      returns (decision: Option<Decision>)
      requires shared.Valid()
      modifies shared
      ensures shared.Valid()
      ensures HitsGrow(old(shared.hits), shared.hits, key, SharedHits(windowMs, cost, now, outcome))
      ensures decision.Some? <==> outcome.Answered?
      ensures outcome.Answered? ==> Get(shared.hits, key, []) != [] && decision.value == Told(Get(shared.hits, key, []))
    {
      decision := None;
      if outcome.Unreachable? {
        NoHitNoGrowth(shared.hits, key);
        return;
      }
      OneHitGrowth(shared.hits, key, Hit(now, windowMs, cost, outcome.Answered?));
      var told := shared.ConsumeFixedWindow(key, windowMs, cost, now, outcome.Answered?);
      if outcome.Answered? {
        decision := Some(told);
      }
    }

    /** The call on the local store, which always answers. */
    method AskLocal(key: Key, cost: Cost, now: nat) returns (decision: Decision)
      requires fallback.Valid() && fallback.clock <= now
      modifies fallback
      ensures fallback.Valid() && fallback.clock == now
      ensures HitsGrow(old(fallback.hits), fallback.hits, key, [Hit(now, windowMs, cost, true)])
      ensures Get(fallback.hits, key, []) != [] && decision == Told(Get(fallback.hits, key, []))
    {
      OneHitGrowth(fallback.hits, key, Hit(now, windowMs, cost, true));
      decision := fallback.Consume(key, windowMs, cost, now);
    }

    /**
     One request that nothing interrupts, with `later` the instant after its call on the shared store.
     That store decides when it answers; otherwise the local one does, so no request goes unmetered.
     */
    method Handle(shared: FixedWindows?, key: Key, skip: bool, rawCost: Option<real>, now: nat, outcome: Outcome,
                  later: nat)
      returns (reply: Reply)
      requires fallback.Valid() && fallback.clock <= now <= later && (shared != null ==> shared.Valid())
      modifies fallback, shared
      ensures fallback.Valid() && fallback.clock <= later && (shared != null ==> shared.Valid())
      ensures skip ==> reply == Skipped && fallback.hits == old(fallback.hits)
                       && (shared != null ==> shared.hits == old(shared.hits))
      ensures !skip && shared != null ==>
                HitsGrow(old(shared.hits), shared.hits, key, SharedHits(windowMs, RequestCost(rawCost), now, outcome))
      ensures !skip && shared != null && outcome.Answered? ==>
                && fallback.hits == old(fallback.hits)
                && Get(shared.hits, key, []) != [] && reply == ReplyTo(Told(Get(shared.hits, key, [])), max)
      ensures !skip && (shared == null || !outcome.Answered?) ==>
                && HitsGrow(old(fallback.hits), fallback.hits, key,
                            [Hit(if shared == null then now else later, windowMs, RequestCost(rawCost), true)])
                && Get(fallback.hits, key, []) != [] && reply == ReplyTo(Told(Get(fallback.hits, key, [])), max)
    {
      if skip {
        return Skipped;
      }
      var cost := RequestCost(rawCost);
      var decision := None;
      if shared != null {
        decision := AskShared(shared, key, cost, now, outcome);
      }
      if decision.None? {
        var told := AskLocal(key, cost, if shared == null then now else later);
        decision := Some(told);
      }
      reply := ReplyTo(decision.value, max);
    }
  }

  // ---------------------------------------------------------------- many instances, one subject

  /**
   One call on one store for a request of the subject. Store 0 is the shared one, store `i + 1` the
   local one of instance `i`. A call that does not decide is one on the shared store whose answer was lost.
   */
  datatype StoreCall = StoreCall(store: nat, now: nat, cost: Cost, decides: bool)

  ghost predicate Chronological(cs: seq<StoreCall>) {
    forall i, j :: 0 <= i < j < |cs| ==> cs[i].now <= cs[j].now
  }

  ghost function HitOn(c: StoreCall, store: nat, windowMs: Positive): seq<Hit> {
    if store == c.store then [Hit(c.now, windowMs, c.cost, c.decides)] else []
  }

  ghost function HitsOn(cs: seq<StoreCall>, store: nat, windowMs: Positive): seq<Hit> {
    if cs == [] then []
    else HitsOn(cs[..|cs| - 1], store, windowMs) + HitOn(cs[|cs| - 1], store, windowMs)
  }

  /** Whether the last call of a run lets its request through: it decides, and its store's count is within the limit. */
  ghost predicate Admitted(cs: seq<StoreCall>, windowMs: Positive, max: nat)
    requires cs != []
  {
    var h := HitsOn(cs, cs[|cs| - 1].store, windowMs);
    cs[|cs| - 1].decides && h != [] && Told(h).count <= max
  }

  /** What all instances together admit in `[from, from + windowMs]`. */
  ghost function TotalAdmitted(cs: seq<StoreCall>, windowMs: Positive, max: nat, from: int): nat {
    if cs == [] then 0
    else TotalAdmitted(cs[..|cs| - 1], windowMs, max, from) + Gain(cs, windowMs, max, from)
  }

  ghost function Gain(cs: seq<StoreCall>, windowMs: Positive, max: nat, from: int): nat
    requires cs != []
  {
    var last := cs[|cs| - 1];
    if from <= last.now <= from + windowMs && Admitted(cs, windowMs, max) then last.cost else 0
  }

  /** What one store contributes. */
  ghost function StoreCost(cs: seq<StoreCall>, windowMs: Positive, max: nat, from: int, store: nat): nat {
    AdmittedCost(HitsOn(cs, store, windowMs), windowMs, max, from)
  }

  ghost function StoreCosts(cs: seq<StoreCall>, windowMs: Positive, max: nat, from: int, stores: nat): seq<nat> {
    seq(stores, store requires 0 <= store => StoreCost(cs, windowMs, max, from, store))
  }

  ghost function Sum(costs: seq<nat>): nat {
    if costs == [] then 0 else Sum(costs[..|costs| - 1]) + costs[|costs| - 1]
  }

  lemma {:induction false} SumWithOneChange(a: seq<nat>, b: seq<nat>, k: nat, gain: nat)
    requires |a| == |b| && forall i :: 0 <= i < |a| ==> a[i] == b[i] + if i == k then gain else 0
    ensures Sum(a) == Sum(b) + if k < |a| then gain else 0
  {
    if a != [] { SumWithOneChange(a[..|a| - 1], b[..|b| - 1], k, gain); }
  }

  lemma {:induction false} SumIsBounded(costs: seq<nat>, bound: nat)
    requires forall i :: 0 <= i < |costs| ==> costs[i] <= bound
    ensures Sum(costs) <= bound * |costs|
  {
    if costs != [] {
      SumIsBounded(costs[..|costs| - 1], bound);
      assert bound * |costs| == bound * (|costs| - 1) + bound;
    }
  }

  lemma {:induction false} SumOfFirst(costs: seq<nat>)
    requires costs != [] && forall i :: 1 <= i < |costs| ==> costs[i] == 0
    ensures Sum(costs) == costs[0]
  {
    if |costs| > 1 {
      SumOfFirst(costs[..|costs| - 1]);
    } else {
      assert Sum(costs[..0]) == 0;
    }
  }

  lemma AdmittedCostStep(h: seq<Hit>, hit: Hit, windowMs: nat, max: nat, from: int)
    ensures AdmittedCost(h + [hit], windowMs, max, from) == AdmittedCost(h, windowMs, max, from)
              + if hit.decides && from <= hit.now <= from + windowMs && Told(h + [hit]).count <= max
                then hit.cost else 0
  {
    assert (h + [hit])[..|h|] == h;
  }

  lemma StoreCostStep(cs: seq<StoreCall>, windowMs: Positive, max: nat, from: int, store: nat)
    requires cs != []
    ensures StoreCost(cs, windowMs, max, from, store)
         == StoreCost(cs[..|cs| - 1], windowMs, max, from, store)
            + if store == cs[|cs| - 1].store then Gain(cs, windowMs, max, from) else 0
  {
    var last, front := cs[|cs| - 1], HitsOn(cs[..|cs| - 1], store, windowMs);
    assert HitsOn(cs, store, windowMs) == front + HitOn(last, store, windowMs);
    if store == last.store {
      AdmittedCostStep(front, Hit(last.now, windowMs, last.cost, last.decides), windowMs, max, from);
    } else {
      assert front + [] == front;
    }
  }

  lemma {:induction false} TotalIsSumOverStores(cs: seq<StoreCall>, windowMs: Positive, max: nat, from: int,
                                                stores: nat)
    requires forall i :: 0 <= i < |cs| ==> cs[i].store < stores
    ensures TotalAdmitted(cs, windowMs, max, from) == Sum(StoreCosts(cs, windowMs, max, from, stores))
  {
    var costs := StoreCosts(cs, windowMs, max, from, stores);
    if cs == [] {
      SumIsBounded(costs, 0);
    } else {
      var front := cs[..|cs| - 1];
      TotalIsSumOverStores(front, windowMs, max, from, stores);
      forall store: nat | store < stores
        ensures costs[store] == StoreCosts(front, windowMs, max, from, stores)[store]
                  + if store == cs[|cs| - 1].store then Gain(cs, windowMs, max, from) else 0
      {
        StoreCostStep(cs, windowMs, max, from, store);
      }
      SumWithOneChange(costs, StoreCosts(front, windowMs, max, from, stores), cs[|cs| - 1].store,
                       Gain(cs, windowMs, max, from));
    }
  }

  lemma OrderedAppend(h: seq<Hit>, hit: Hit, windowMs: nat)
    requires Ordered(h) && SameWindow(h, windowMs) && hit.windowMs == windowMs
    requires h != [] ==> h[|h| - 1].now <= hit.now
    ensures Ordered(h + [hit]) && SameWindow(h + [hit], windowMs)
  {
  }

  lemma ChronologicalFront(cs: seq<StoreCall>)
    requires Chronological(cs) && cs != []
    ensures Chronological(cs[..|cs| - 1]) && (|cs| > 1 ==> cs[|cs| - 2].now <= cs[|cs| - 1].now)
  {
  }

  ghost predicate HitsInOrder(h: seq<Hit>, windowMs: Positive, now: int) {
    Ordered(h) && SameWindow(h, windowMs) && (h != [] ==> h[|h| - 1].now <= now)
  }

  lemma OneMoreHitInOrder(h: seq<Hit>, added: seq<Hit>, windowMs: Positive, earlier: int, now: nat)
    requires HitsInOrder(h, windowMs, earlier) && earlier <= now
    requires |added| <= 1 && (added != [] ==> added[0].windowMs == windowMs && added[0].now == now)
    ensures HitsInOrder(h + added, windowMs, now)
  {
    if added == [] {
      assert h + added == h;
    } else {
      assert added == [added[0]];
      OrderedAppend(h, added[0], windowMs);
    }
  }

  lemma {:induction false} HitsAreOrdered(cs: seq<StoreCall>, store: nat, windowMs: Positive)
    requires Chronological(cs)
    ensures HitsInOrder(HitsOn(cs, store, windowMs), windowMs, if cs == [] then 0 else cs[|cs| - 1].now)
  {
    if cs != [] {
      var front, last := cs[..|cs| - 1], cs[|cs| - 1];
      ChronologicalFront(cs);
      HitsAreOrdered(front, store, windowMs);
      OneMoreHitInOrder(HitsOn(front, store, windowMs), HitOn(last, store, windowMs), windowMs,
                        if front == [] then 0 else front[|front| - 1].now, last.now);
    }
  }

  /** No call went to a local store. */
  ghost predicate AllShared(cs: seq<StoreCall>) {
    forall i :: 0 <= i < |cs| ==> cs[i].store == 0
  }

  lemma {:induction false} NoHitsOnFallback(cs: seq<StoreCall>, store: nat, windowMs: Positive)
    requires store >= 1 && AllShared(cs)
    ensures HitsOn(cs, store, windowMs) == []
  {
    if cs != [] { NoHitsOnFallback(cs[..|cs| - 1], store, windowMs); }
  }

  lemma StoreCostIsBounded(cs: seq<StoreCall>, windowMs: Positive, max: nat, from: int, store: nat)
    requires Chronological(cs)
    ensures StoreCost(cs, windowMs, max, from, store) <= 2 * max
    ensures store >= 1 && AllShared(cs) ==> StoreCost(cs, windowMs, max, from, store) == 0
  {
    HitsAreOrdered(cs, store, windowMs);
    AdmittedIsBounded(HitsOn(cs, store, windowMs), windowMs, max, from);
    if store >= 1 && AllShared(cs) {
      NoHitsOnFallback(cs, store, windowMs);
    }
  }

  /**
   In any interval one window long a subject is admitted at most twice the limit while the shared
   store answers, and at most twice the limit per store when every instance may fall back. The calls
   of one request may lie apart, with calls of others between them.
   */
  lemma AdmissionIsBounded(cs: seq<StoreCall>, windowMs: Positive, max: nat, from: int, instances: nat)
    requires Chronological(cs) && forall i :: 0 <= i < |cs| ==> cs[i].store <= instances
    ensures TotalAdmitted(cs, windowMs, max, from) <= 2 * max * (instances + 1)
    ensures AllShared(cs) ==> TotalAdmitted(cs, windowMs, max, from) <= 2 * max
  {
    var costs := StoreCosts(cs, windowMs, max, from, instances + 1);
    TotalIsSumOverStores(cs, windowMs, max, from, instances + 1);
    forall store: nat | store <= instances
      ensures costs[store] <= 2 * max
      ensures store >= 1 && AllShared(cs) ==> costs[store] == 0
    {
      StoreCostIsBounded(cs, windowMs, max, from, store);
    }
    SumIsBounded(costs, 2 * max);
    if AllShared(cs) {
      SumOfFirst(costs);
    }
  }

  /** The cost of the calls of a subject at instants after `from`. */
  ghost function CallCostsAfter(cs: seq<StoreCall>, from: int): nat {
    if cs == [] then 0
    else CallCostsAfter(cs[..|cs| - 1], from) + if cs[|cs| - 1].now > from then cs[|cs| - 1].cost else 0
  }

  lemma {:induction false} StoreSeesAtMostAll(cs: seq<StoreCall>, store: nat, windowMs: Positive, from: int)
    ensures CostsAfter(HitsOn(cs, store, windowMs), from) <= CallCostsAfter(cs, from)
  {
    if cs != [] {
      var front, last := cs[..|cs| - 1], cs[|cs| - 1];
      var h := HitsOn(front, store, windowMs);
      StoreSeesAtMostAll(front, store, windowMs, from);
      if store == last.store {
        assert (h + HitOn(last, store, windowMs))[..|h|] == h;
      } else {
        assert h + [] == h;
      }
    }
  }

  /** The other half: a subject within the limit in the last window's length is let through, whichever store decides. */
  lemma ModestSubjectIsLetThrough(cs: seq<StoreCall>, windowMs: Positive, max: nat)
    requires cs != [] && Chronological(cs) && cs[|cs| - 1].decides
    requires CallCostsAfter(cs, cs[|cs| - 1].now - windowMs) <= max
    ensures Admitted(cs, windowMs, max)
  {
    var last := cs[|cs| - 1];
    var h := HitsOn(cs, last.store, windowMs);
    HitsAreOrdered(cs, last.store, windowMs);
    assert h == HitsOn(cs[..|cs| - 1], last.store, windowMs) + HitOn(last, last.store, windowMs);
    assert h[|h| - 1] == Hit(last.now, windowMs, last.cost, true);
    StoreSeesAtMostAll(cs, last.store, windowMs, last.now - windowMs);
    ModestIsWithin(h, windowMs, max);
  }

  // ---------------------------------------------------------------- the instances at work

  /** A request at an instance: up to and including its call on the shared store, and from there on. */
  datatype Incoming =
    | Begin(id: nat, instance: nat, now: nat, cost: Option<real>, outcome: Outcome)
    | Continue(id: nat, now: nat)

  /** A request between its two calls. */
  datatype Waiting = Waiting(instance: nat, cost: Cost)

  datatype Progress = Progress(calls: seq<StoreCall>, waiting: map<nat, Waiting>)

  /** The call a request begins with; without a shared store the local one is asked at once. */
  ghost function BeginCalls(instance: nat, now: nat, cost: Cost, outcome: Outcome, sharing: bool): seq<StoreCall> {
    if !sharing then [StoreCall(instance + 1, now, cost, true)]
    else if outcome.Unreachable? then []
    else [StoreCall(0, now, cost, outcome.Answered?)]
  }

  ghost function ContinueCalls(waiting: map<nat, Waiting>, id: nat, now: nat): seq<StoreCall> {
    if id in waiting then [StoreCall(waiting[id].instance + 1, now, waiting[id].cost, true)] else []
  }

  ghost function CallsOf(waiting: map<nat, Waiting>, x: Incoming, sharing: bool): seq<StoreCall> {
    match x
    case Begin(id, instance, now, cost, outcome) => BeginCalls(instance, now, RequestCost(cost), outcome, sharing)
    case Continue(id, now) => ContinueCalls(waiting, id, now)
  }

  function WaitingAfter(waiting: map<nat, Waiting>, x: Incoming, sharing: bool): map<nat, Waiting> {
    match x
    case Begin(id, instance, now, cost, outcome) =>
      if sharing && !outcome.Answered? then waiting[id := Waiting(instance, RequestCost(cost))] else waiting
    case Continue(id, now) => waiting - {id}
  }

  ghost function Step(p: Progress, x: Incoming, sharing: bool): Progress {
    Progress(p.calls + CallsOf(p.waiting, x, sharing), WaitingAfter(p.waiting, x, sharing))
  }

  ghost function ProgressOf(xs: seq<Incoming>, sharing: bool): Progress {
    if xs == [] then Progress([], map[]) else Step(ProgressOf(xs[..|xs| - 1], sharing), xs[|xs| - 1], sharing)
  }

  /** Every waiting request is at one of `n` instances. */
  ghost predicate WaitsWithin(waiting: map<nat, Waiting>, n: nat) {
    forall id :: id in waiting ==> waiting[id].instance < n
  }

  /** The calls are in order, none is later than `now`, and all are on the stores of `n` instances. */
  ghost predicate InTime(cs: seq<StoreCall>, n: nat, now: nat) {
    && Chronological(cs) && (cs != [] ==> cs[|cs| - 1].now <= now)
    && forall i :: 0 <= i < |cs| ==> cs[i].store <= n
  }

  lemma CallsAreInTime(cs: seq<StoreCall>, made: seq<StoreCall>, n: nat, earlier: nat, now: nat)
    requires InTime(cs, n, earlier) && earlier <= now
    requires |made| <= 1 && (made != [] ==> made[0].now == now && made[0].store <= n)
    ensures InTime(cs + made, n, now)
  {
    if made == [] {
      assert cs + made == cs;
    }
  }

  lemma CallsAreWithin(waiting: map<nat, Waiting>, x: Incoming, sharing: bool, n: nat)
    requires WaitsWithin(waiting, n) && (x.Begin? ==> x.instance < n)
    ensures var made := CallsOf(waiting, x, sharing);
            |made| <= 1 && (made != [] ==> made[0].now == x.now && made[0].store <= n)
  {
  }

  lemma WaitingStaysWithin(waiting: map<nat, Waiting>, x: Incoming, sharing: bool, n: nat)
    requires WaitsWithin(waiting, n) && (x.Begin? ==> x.instance < n)
    ensures WaitsWithin(WaitingAfter(waiting, x, sharing), n)
  {
  }

  ghost predicate Arrivals(xs: seq<Incoming>, n: nat) {
    && (forall i, j :: 0 <= i < j < |xs| ==> xs[i].now <= xs[j].now)
    && forall i :: 0 <= i < |xs| && xs[i].Begin? ==> xs[i].instance < n
  }

  lemma {:induction false} ProgressIsInTime(xs: seq<Incoming>, sharing: bool, n: nat)
    requires Arrivals(xs, n)
    ensures WaitsWithin(ProgressOf(xs, sharing).waiting, n)
    ensures InTime(ProgressOf(xs, sharing).calls, n, if xs == [] then 0 else xs[|xs| - 1].now)
  {
    if xs != [] {
      var front, last := xs[..|xs| - 1], xs[|xs| - 1];
      var p := ProgressOf(front, sharing);
      ProgressIsInTime(front, sharing, n);
      assert front != [] ==> front[|front| - 1].now <= last.now;
      CallsAreWithin(p.waiting, last, sharing, n);
      WaitingStaysWithin(p.waiting, last, sharing, n);
      CallsAreInTime(p.calls, CallsOf(p.waiting, last, sharing), n,
                     if front == [] then 0 else front[|front| - 1].now, last.now);
    }
  }

  lemma {:induction false} AnsweredIsAllShared(xs: seq<Incoming>)
    requires forall i :: 0 <= i < |xs| && xs[i].Begin? ==> xs[i].outcome.Answered?
    ensures AllShared(ProgressOf(xs, true).calls) && ProgressOf(xs, true).waiting == map[]
  {
    if xs != [] { AnsweredIsAllShared(xs[..|xs| - 1]); }
  }

  /** Each request begins once. */
  ghost predicate DistinctRequests(xs: seq<Incoming>) {
    forall i, j :: 0 <= i < j < |xs| && xs[i].Begin? && xs[j].Begin? ==> xs[i].id != xs[j].id
  }

  ghost function Begun(xs: seq<Incoming>): nat {
    if xs == [] then 0 else Begun(xs[..|xs| - 1]) + if xs[|xs| - 1].Begin? then 1 else 0
  }

  ghost function Deciding(cs: seq<StoreCall>): nat {
    if cs == [] then 0 else Deciding(cs[..|cs| - 1]) + if cs[|cs| - 1].decides then 1 else 0
  }

  lemma DecidingOfMore(cs: seq<StoreCall>, made: seq<StoreCall>)
    requires |made| <= 1
    ensures Deciding(cs + made) == Deciding(cs) + if made != [] && made[0].decides then 1 else 0
  {
    if made == [] {
      assert cs + made == cs;
    } else {
      assert (cs + made)[..|cs|] == cs;
    }
  }

  lemma StepDecides(p: Progress, x: Incoming, sharing: bool)
    requires x.Begin? ==> x.id !in p.waiting
    ensures Deciding(Step(p, x, sharing).calls) + |Step(p, x, sharing).waiting.Keys|
         == Deciding(p.calls) + |p.waiting.Keys| + if x.Begin? then 1 else 0
  {
    var after := WaitingAfter(p.waiting, x, sharing);
    DecidingOfMore(p.calls, CallsOf(p.waiting, x, sharing));
    if x.Begin? {
      assert after == p.waiting || after.Keys == p.waiting.Keys + {x.id};
    } else {
      assert after.Keys == p.waiting.Keys - {x.id};
    }
  }

  lemma {:induction false} WaitingHasBegun(xs: seq<Incoming>, sharing: bool, id: nat)
    requires id in ProgressOf(xs, sharing).waiting
    ensures exists i :: 0 <= i < |xs| && xs[i].Begin? && xs[i].id == id
  {
    var front, last := xs[..|xs| - 1], xs[|xs| - 1];
    if last.Begin? && last.id == id {
      assert xs[|xs| - 1].id == id;
    } else {
      WaitingHasBegun(front, sharing, id);
      var i :| 0 <= i < |front| && front[i].Begin? && front[i].id == id;
      assert xs[i] == front[i];
    }
  }

  /** No request goes unmetered: each that began is decided by one call, or waits for its second one. */
  lemma {:induction false} EveryRequestIsDecidedOnce(xs: seq<Incoming>, sharing: bool)
    requires DistinctRequests(xs)
    ensures Deciding(ProgressOf(xs, sharing).calls) + |ProgressOf(xs, sharing).waiting.Keys| == Begun(xs)
  {
    if xs != [] {
      var front, last := xs[..|xs| - 1], xs[|xs| - 1];
      EveryRequestIsDecidedOnce(front, sharing);
      if last.Begin? && last.id in ProgressOf(front, sharing).waiting {
        WaitingHasBegun(front, sharing, last.id);
      }
      StepDecides(ProgressOf(front, sharing), last, sharing);
    }
  }

  /** The request that began with `x` is between its two calls. */
  ghost predicate WaitsFor(waiting: map<nat, Waiting>, x: Incoming)
    requires x.Begin?
  {
    x.id in waiting && waiting[x.id] == Waiting(x.instance, RequestCost(x.cost))
  }

  /** Request `i` has begun without an answer, and nothing more has come of it. */
  ghost predicate Unanswered(xs: seq<Incoming>, i: nat) {
    && i < |xs| && xs[i].Begin? && !xs[i].outcome.Answered?
    && forall k :: i < k < |xs| ==> xs[k].id != xs[i].id
  }

  lemma OthersLeaveItWaiting(waiting: map<nat, Waiting>, x: Incoming, other: Incoming)
    requires x.Begin? && WaitsFor(waiting, x) && other.id != x.id
    ensures WaitsFor(WaitingAfter(waiting, other, true), x)
  {
  }

  lemma {:induction false} WaitsSinceItBegan(xs: seq<Incoming>, i: nat)
    requires Unanswered(xs, i)
    ensures WaitsFor(ProgressOf(xs, true).waiting, xs[i])
    decreases |xs|
  {
    if i < |xs| - 1 {
      WaitsSinceItBegan(xs[..|xs| - 1], i);
      OthersLeaveItWaiting(ProgressOf(xs[..|xs| - 1], true).waiting, xs[i], xs[|xs| - 1]);
    }
  }

  lemma ContinueAfter(xs: seq<Incoming>, x: Incoming, now: nat)
    requires x.Begin? && WaitsFor(ProgressOf(xs, true).waiting, x)
    ensures ProgressOf(xs + [Continue(x.id, now)], true).calls
         == ProgressOf(xs, true).calls + [StoreCall(x.instance + 1, now, RequestCost(x.cost), true)]
  {
    assert (xs + [Continue(x.id, now)])[..|xs|] == xs;
  }

  /** A request the shared store did not answer is decided by its own instance, at its own cost, when it goes on. */
  lemma FallbackDecides(xs: seq<Incoming>, i: nat, now: nat)
    requires Unanswered(xs, i)
    ensures ProgressOf(xs + [Continue(xs[i].id, now)], true).calls
         == ProgressOf(xs, true).calls + [StoreCall(xs[i].instance + 1, now, RequestCost(xs[i].cost), true)]
  {
    WaitsSinceItBegan(xs, i);
    ContinueAfter(xs, xs[i], now);
  }

  /** The cost of the requests let through in `[from, from + windowMs]`. */
  ghost function LetThrough(cs: seq<StoreCall>, admitted: seq<bool>, windowMs: Positive, from: int): nat
    requires |cs| == |admitted|
  {
    if cs == [] then 0
    else
      var n := |cs| - 1;
      LetThrough(cs[..n], admitted[..n], windowMs, from)
      + if admitted[n] && from <= cs[n].now <= from + windowMs then cs[n].cost else 0
  }

  /** The answers so far are those of the model. */
  ghost predicate AnsweredRight(cs: seq<StoreCall>, admitted: seq<bool>, windowMs: Positive, max: nat) {
    |admitted| == |cs| && forall i :: 0 <= i < |cs| ==> admitted[i] == Admitted(cs[..i + 1], windowMs, max)
  }

  lemma OneMoreAnswer(cs: seq<StoreCall>, admitted: seq<bool>, c: StoreCall, one: bool, windowMs: Positive, max: nat)
    requires AnsweredRight(cs, admitted, windowMs, max) && one == Admitted(cs + [c], windowMs, max)
    ensures AnsweredRight(cs + [c], admitted + [one], windowMs, max)
  {
    var all := cs + [c];
    forall i | 0 <= i < |all| ensures (admitted + [one])[i] == Admitted(all[..i + 1], windowMs, max) {
      if i < |cs| {
        assert all[..i + 1] == cs[..i + 1];
      } else {
        assert all[..i + 1] == all;
      }
    }
  }

  lemma {:induction false} LetThroughIsTotal(cs: seq<StoreCall>, admitted: seq<bool>, windowMs: Positive, max: nat,
                                             from: int)
    requires AnsweredRight(cs, admitted, windowMs, max)
    ensures LetThrough(cs, admitted, windowMs, from) == TotalAdmitted(cs, windowMs, max, from)
  {
    if cs != [] {
      var front := cs[..|cs| - 1];
      assert cs[..|cs|] == cs;
      forall i | 0 <= i < |front| ensures admitted[..|front|][i] == Admitted(front[..i + 1], windowMs, max) {
        assert front[..i + 1] == cs[..i + 1];
      }
      LetThroughIsTotal(front, admitted[..|front|], windowMs, max, from);
    }
  }

  /** Limiters of one window length and limit, each with a fallback of its own. */
  ghost predicate Fleet(limits: seq<RateLimit>, windowMs: Positive, max: nat) {
    && (forall i :: 0 <= i < |limits| ==> limits[i].windowMs == windowMs && limits[i].max == max)
    && forall i, j :: 0 <= i < j < |limits| ==> limits[i].fallback != limits[j].fallback
  }

  ghost predicate TookHits(fallback: MemoryRateLimitStore, key: Key, cs: seq<StoreCall>, store: nat,
                           windowMs: Positive, now: nat)
    reads fallback
  {
    fallback.Valid() && fallback.clock <= now && Get(fallback.hits, key, []) == HitsOn(cs, store, windowMs)
  }

  ghost predicate SharedTookHits(shared: FixedWindows?, key: Key, cs: seq<StoreCall>, windowMs: Positive)
    reads shared
  {
    shared != null ==> shared.Valid() && Get(shared.hits, key, []) == HitsOn(cs, 0, windowMs)
  }

  /** Every store has taken the hits of the calls made so far on this key, and no local one is ahead of `now`. */
  ghost predicate Served(limits: seq<RateLimit>, shared: FixedWindows?, key: Key, cs: seq<StoreCall>,
                         windowMs: Positive, now: nat)
    reads shared, set l | l in limits :: l.fallback
  {
    && (forall i :: 0 <= i < |limits| ==> TookHits(limits[i].fallback, key, cs, i + 1, windowMs, now))
    && SharedTookHits(shared, key, cs, windowMs)
  }

  lemma HitsOfOneMore(cs: seq<StoreCall>, c: StoreCall, store: nat, windowMs: Positive)
    ensures HitsOn(cs + [c], store, windowMs) == HitsOn(cs, store, windowMs) + HitOn(c, store, windowMs)
    ensures store != c.store ==> HitsOn(cs + [c], store, windowMs) == HitsOn(cs, store, windowMs)
  {
    assert (cs + [c])[..|cs|] == cs;
  }

  lemma AdmittedByStore(cs: seq<StoreCall>, c: StoreCall, windowMs: Positive, max: nat, h: seq<Hit>)
    requires h == HitsOn(cs + [c], c.store, windowMs) && h != []
    ensures Admitted(cs + [c], windowMs, max) <==> c.decides && Told(h).count <= max
  {
  }

  lemma ServedLater(limits: seq<RateLimit>, shared: FixedWindows?, key: Key, cs: seq<StoreCall>, windowMs: Positive,
                    now: nat, later: nat)
    requires Served(limits, shared, key, cs, windowMs, now) && now <= later
    ensures Served(limits, shared, key, cs, windowMs, later)
  {
    forall i | 0 <= i < |limits| ensures TookHits(limits[i].fallback, key, cs, i + 1, windowMs, later) {
      assert TookHits(limits[i].fallback, key, cs, i + 1, windowMs, now);
    }
  }

  method LocalAt(limit: RateLimit, key: Key, cost: Cost, now: nat, ghost cs: seq<StoreCall>, ghost c: StoreCall)
    returns (admitted: bool)
    requires c.store >= 1 && c.now == now && c.cost == cost && c.decides
    requires TookHits(limit.fallback, key, cs, c.store, limit.windowMs, now)
    modifies limit.fallback
    ensures TookHits(limit.fallback, key, cs + [c], c.store, limit.windowMs, now)
    ensures admitted == Admitted(cs + [c], limit.windowMs, limit.max)
  {
    var decision := limit.AskLocal(key, cost, now);
    admitted := !ReplyTo(decision, limit.max).rejected;
    HitsOfOneMore(cs, c, c.store, limit.windowMs);
    AdmittedByStore(cs, c, limit.windowMs, limit.max, Get(limit.fallback.hits, key, []));
  }

  /** A call on the local store of an instance, with its answer. */
  method CallLocal(limits: seq<RateLimit>, shared: FixedWindows?, key: Key, instance: nat, cost: Cost, now: nat,
                   ghost cs: seq<StoreCall>, ghost windowMs: Positive, ghost max: nat) returns (admitted: bool)
    requires Fleet(limits, windowMs, max) && instance < |limits| && Served(limits, shared, key, cs, windowMs, now)
    modifies limits[instance].fallback
    ensures Served(limits, shared, key, cs + [StoreCall(instance + 1, now, cost, true)], windowMs, now)
    ensures admitted == Admitted(cs + [StoreCall(instance + 1, now, cost, true)], windowMs, max)
  {
    ghost var c := StoreCall(instance + 1, now, cost, true);
    var limit := limits[instance];
    assert TookHits(limit.fallback, key, cs, instance + 1, windowMs, now);
    admitted := LocalAt(limit, key, cost, now, cs, c);
    HitsOfOneMore(cs, c, 0, windowMs);
    forall i | 0 <= i < |limits| && i != instance
      ensures TookHits(limits[i].fallback, key, cs + [c], i + 1, windowMs, now)
    {
      HitsOfOneMore(cs, c, i + 1, windowMs);
      assert old(TookHits(limits[i].fallback, key, cs, i + 1, windowMs, now));
    }
  }

  /** A call on the shared store, by the limiter of an instance; without an answer nothing is let through yet. */
  method CallShared(limits: seq<RateLimit>, shared: FixedWindows, key: Key, instance: nat, cost: Cost, now: nat,
                    outcome: Outcome, ghost cs: seq<StoreCall>, ghost windowMs: Positive, ghost max: nat)
    returns (admitted: bool)
    requires Fleet(limits, windowMs, max) && instance < |limits| && Served(limits, shared, key, cs, windowMs, now)
    requires !outcome.Unreachable?
    modifies shared
    ensures var after := cs + [StoreCall(0, now, cost, outcome.Answered?)];
            Served(limits, shared, key, after, windowMs, now) && admitted == Admitted(after, windowMs, max)
  {
    ghost var c := StoreCall(0, now, cost, outcome.Answered?);
    var limit := limits[instance];
    var decision := limit.AskShared(shared, key, cost, now, outcome);
    admitted := decision.Some? && !ReplyTo(decision.value, limit.max).rejected;
    HitsOfOneMore(cs, c, 0, windowMs);
    AdmittedByStore(cs, c, windowMs, max, Get(shared.hits, key, []));
    forall i | 0 <= i < |limits| ensures TookHits(limits[i].fallback, key, cs + [c], i + 1, windowMs, now) {
      HitsOfOneMore(cs, c, i + 1, windowMs);
      assert old(TookHits(limits[i].fallback, key, cs, i + 1, windowMs, now));
    }
  }

  /** The answers that go with the calls of one step. */
  ghost predicate AnswersOf(cs: seq<StoreCall>, made: seq<StoreCall>, answers: seq<bool>, windowMs: Positive,
                            max: nat)
  {
    |answers| == |made| <= 1 && (made != [] ==> answers[0] == Admitted(cs + made, windowMs, max))
  }

  lemma NoCallNoChange(limits: seq<RateLimit>, shared: FixedWindows?, key: Key, cs: seq<StoreCall>, windowMs: Positive,
                       now: nat)
    requires Served(limits, shared, key, cs, windowMs, now)
    ensures Served(limits, shared, key, cs + [], windowMs, now)
  {
    assert cs + [] == cs;
  }

  /** A request up to and including its call on the shared store. */
  method ServeBegin(limits: seq<RateLimit>, shared: FixedWindows?, key: Key, instance: nat, cost: Cost, now: nat,
                    outcome: Outcome, ghost cs: seq<StoreCall>, ghost windowMs: Positive, ghost max: nat)
    returns (answers: seq<bool>)
    requires Fleet(limits, windowMs, max) && instance < |limits| && Served(limits, shared, key, cs, windowMs, now)
    modifies shared, limits[instance].fallback
    ensures Served(limits, shared, key, cs + BeginCalls(instance, now, cost, outcome, shared != null), windowMs, now)
    ensures AnswersOf(cs, BeginCalls(instance, now, cost, outcome, shared != null), answers, windowMs, max)
  {
    if shared == null {
      var one := CallLocal(limits, shared, key, instance, cost, now, cs, windowMs, max);
      answers := [one];
    } else if outcome.Unreachable? {
      answers := [];
      NoCallNoChange(limits, shared, key, cs, windowMs, now);
    } else {
      var one := CallShared(limits, shared, key, instance, cost, now, outcome, cs, windowMs, max);
      answers := [one];
    }
  }

  /** A request from there on: the local store decides one that is still waiting. */
  method ServeContinue(limits: seq<RateLimit>, shared: FixedWindows?, key: Key, id: nat, waiting: map<nat, Waiting>,
                       now: nat, ghost cs: seq<StoreCall>, ghost windowMs: Positive, ghost max: nat)
    returns (answers: seq<bool>)
    requires Fleet(limits, windowMs, max) && Served(limits, shared, key, cs, windowMs, now)
    requires WaitsWithin(waiting, |limits|)
    modifies set l | l in limits :: l.fallback
    ensures Served(limits, shared, key, cs + ContinueCalls(waiting, id, now), windowMs, now)
    ensures AnswersOf(cs, ContinueCalls(waiting, id, now), answers, windowMs, max)
  {
    ghost var made := ContinueCalls(waiting, id, now);
    if id in waiting {
      var instance, cost := waiting[id].instance, waiting[id].cost;
      assert made == [StoreCall(instance + 1, now, cost, true)];
      assert limits[instance] in limits;
      var one := CallLocal(limits, shared, key, instance, cost, now, cs, windowMs, max);
      answers := [one];
    } else {
      assert made == [];
      NoCallNoChange(limits, shared, key, cs, windowMs, now);
      answers := [];
    }
  }

  /** One step of one request: the calls it makes are those of the model, and so is their answer. */
  method ServeOne(limits: seq<RateLimit>, shared: FixedWindows?, key: Key, x: Incoming, waiting: map<nat, Waiting>,
                  ghost cs: seq<StoreCall>, ghost windowMs: Positive, ghost max: nat)
    returns (answers: seq<bool>)
    requires Fleet(limits, windowMs, max) && Served(limits, shared, key, cs, windowMs, x.now)
    requires (x.Begin? ==> x.instance < |limits|) && WaitsWithin(waiting, |limits|)
    modifies shared, set l | l in limits :: l.fallback
    ensures Served(limits, shared, key, cs + CallsOf(waiting, x, shared != null), windowMs, x.now)
    ensures AnswersOf(cs, CallsOf(waiting, x, shared != null), answers, windowMs, max)
  {
    if x.Begin? {
      assert limits[x.instance] in limits;
      answers := ServeBegin(limits, shared, key, x.instance, RequestCost(x.cost), x.now, x.outcome, cs, windowMs, max);
    } else {
      answers := ServeContinue(limits, shared, key, x.id, waiting, x.now, cs, windowMs, max);
    }
  }

  lemma MoreAnswers(cs: seq<StoreCall>, admitted: seq<bool>, made: seq<StoreCall>, answers: seq<bool>,
                    windowMs: Positive, max: nat)
    requires AnsweredRight(cs, admitted, windowMs, max) && AnswersOf(cs, made, answers, windowMs, max)
    ensures AnsweredRight(cs + made, admitted + answers, windowMs, max)
  {
    if made == [] {
      assert cs + made == cs && admitted + answers == admitted;
    } else {
      assert made == [made[0]] && answers == [answers[0]];
      OneMoreAnswer(cs, admitted, made[0], answers[0], windowMs, max);
    }
  }

  /** Requests of one subject, step by step and in any interleaving: each call is answered as the model answers it. */
  method ServeAll(limits: seq<RateLimit>, shared: FixedWindows?, key: Key, xs: seq<Incoming>,
                  ghost windowMs: Positive, ghost max: nat) returns (admitted: seq<bool>)
    requires Fleet(limits, windowMs, max) && Arrivals(xs, |limits|)
    requires Served(limits, shared, key, [], windowMs, if xs == [] then 0 else xs[0].now)
    modifies shared, set l | l in limits :: l.fallback
    ensures AnsweredRight(ProgressOf(xs, shared != null).calls, admitted, windowMs, max)
  {
    admitted := [];
    var waiting: map<nat, Waiting> := map[];
    assert xs[..0] == [];
    for k := 0 to |xs|
      invariant waiting == ProgressOf(xs[..k], shared != null).waiting
      invariant k < |xs| ==> Served(limits, shared, key, ProgressOf(xs[..k], shared != null).calls, windowMs, xs[k].now)
      invariant AnsweredRight(ProgressOf(xs[..k], shared != null).calls, admitted, windowMs, max)
    {
      ghost var p := ProgressOf(xs[..k], shared != null);
      ArrivalsSoFar(xs, k, |limits|);
      ProgressIsInTime(xs[..k], shared != null, |limits|);
      var answers := ServeOne(limits, shared, key, xs[k], waiting, p.calls, windowMs, max);
      MoreAnswers(p.calls, admitted, CallsOf(p.waiting, xs[k], shared != null), answers, windowMs, max);
      admitted := admitted + answers;
      waiting := WaitingAfter(waiting, xs[k], shared != null);
      if k + 1 < |xs| {
        ServedLater(limits, shared, key, p.calls + CallsOf(p.waiting, xs[k], shared != null), windowMs,
                    xs[k].now, xs[k + 1].now);
      }
    }
    assert xs[..|xs|] == xs;
  }

  lemma ArrivalsSoFar(xs: seq<Incoming>, k: nat, n: nat)
    requires Arrivals(xs, n) && k < |xs|
    ensures Arrivals(xs[..k], n) && xs[..k + 1][..k] == xs[..k]
  {
  }

  /** What is let through is the model's total, and in no interval one window long more than twice the limit a store. */
  ghost predicate LetsThrough(cs: seq<StoreCall>, admitted: seq<bool>, windowMs: Positive, max: nat, stores: nat) {
    && |admitted| == |cs|
    && forall from ::
         && LetThrough(cs, admitted, windowMs, from) == TotalAdmitted(cs, windowMs, max, from)
         && LetThrough(cs, admitted, windowMs, from) <= 2 * max * stores
  }

  /**
   What `N` limiter objects and their shared store let through of one subject, in any interval one
   window long: at most twice the limit for each of `N + 1` stores, and at most twice the limit
   while the shared store answers.
   */
  method Serve(limits: seq<RateLimit>, shared: FixedWindows?, key: Key, xs: seq<Incoming>,
               ghost windowMs: Positive, ghost max: nat) returns (admitted: seq<bool>)
    requires Fleet(limits, windowMs, max) && Arrivals(xs, |limits|)
    requires Served(limits, shared, key, [], windowMs, if xs == [] then 0 else xs[0].now)
    modifies shared, set l | l in limits :: l.fallback
    ensures LetsThrough(ProgressOf(xs, shared != null).calls, admitted, windowMs, max, |limits| + 1)
    ensures shared != null && (forall i :: 0 <= i < |xs| && xs[i].Begin? ==> xs[i].outcome.Answered?) ==>
              LetsThrough(ProgressOf(xs, true).calls, admitted, windowMs, max, 1)
  {
    ghost var cs := ProgressOf(xs, shared != null).calls;
    admitted := ServeAll(limits, shared, key, xs, windowMs, max);
    ProgressIsInTime(xs, shared != null, |limits|);
    if shared != null && forall i :: 0 <= i < |xs| && xs[i].Begin? ==> xs[i].outcome.Answered? {
      AnsweredIsAllShared(xs);
    }
    LetThroughIsBounded(cs, admitted, windowMs, max, |limits|);
  }

  lemma LetThroughIsBounded(cs: seq<StoreCall>, admitted: seq<bool>, windowMs: Positive, max: nat, instances: nat)
    requires AnsweredRight(cs, admitted, windowMs, max)
    requires Chronological(cs) && forall i :: 0 <= i < |cs| ==> cs[i].store <= instances
    ensures LetsThrough(cs, admitted, windowMs, max, instances + 1)
    ensures AllShared(cs) ==> LetsThrough(cs, admitted, windowMs, max, 1)
  {
    forall from: int
      ensures LetThrough(cs, admitted, windowMs, from) == TotalAdmitted(cs, windowMs, max, from)
      ensures TotalAdmitted(cs, windowMs, max, from) <= 2 * max * (instances + 1)
      ensures AllShared(cs) ==> TotalAdmitted(cs, windowMs, max, from) <= 2 * max
    {
      LetThroughIsTotal(cs, admitted, windowMs, max, from);
      AdmissionIsBounded(cs, windowMs, max, from, instances);
    }
  }
}
