/**
 The Redis primitives the services share: a sliding-window counter, a fixed-window counter and
 a claim lock. Every script is one atomic step on one clock, and a key is gone once its
 deadline is reached. Each primitive is proved to answer what a definition over the full
 history of its calls says, so pruning and time-to-live are never observable.
 */
module RedisStore {
  import opened Wrappers
  import opened FixedWindow

  /** Identifiers, digests and names are only ever compared with one another. */
  type Id = nat

  /** What the fingerprint digest of a log identifies: the level is one of the hashed parts. */
  datatype Fingerprint = Fingerprint(projectId: Id, serviceId: Id, digest: Id, fatal: bool)

  /** Each key template is a constructor, so different templates never produce the same key. */
  datatype Key =
    | RateLimitKey(limiter: Id, subject: Id)
    | TenMinuteKey(fingerprint: Fingerprint)
    | FatalFiveMinuteKey(fingerprint: Fingerprint)
    | AlertKey(ruleId: Id, incidentId: Id)

  // ---------------------------------------------------------------- sliding window

  datatype Call = Call(key: Key, member: Id, now: nat, windowMs: Positive)

  datatype SortedSet = Missing | SortedSet(scores: map<Id, nat>, deadline: int)

  ghost predicate InOrder(calls: seq<Call>) {
    forall i, j :: 0 <= i < j < |calls| ==> calls[i].now <= calls[j].now
  }

  /** Every key is used with one window length. */
  ghost predicate OneWidth(calls: seq<Call>, key: Key, windowMs: nat) {
    forall c :: c in calls && c.key == key ==> c.windowMs == windowMs
  }

  /** Definition: the distinct members of the calls on `key` at instants in `(now - windowMs, now]`. */
  ghost function Recent(calls: seq<Call>, key: Key, now: int, windowMs: nat): set<Id> {
    set c | c in calls && c.key == key && now - windowMs < c.now <= now :: c.member
  }

  /** The members and scores a command finds under a key at `now`. */
  function Live(z: SortedSet, now: int): map<Id, nat> {
    if z.SortedSet? && now < z.deadline then z.scores else map[]
  }

  /** `ZREMRANGEBYSCORE` from 0 to `upTo`. */
  function Prune(scores: map<Id, nat>, upTo: int): map<Id, nat> {
    map m | m in scores && !(0 <= scores[m] <= upTo) :: scores[m]
  }

  /** The key after the script's first three commands. */
  function Touch(z: SortedSet, member: Id, now: nat, windowMs: nat): SortedSet {
    SortedSet(Prune(Live(z, now), now - windowMs)[member := now], now + windowMs)
  }

  /** What every run of calls leaves under a key. */
  ghost function Stored(calls: seq<Call>, key: Key): SortedSet {
    if calls == [] then Missing
    else
      var last := calls[|calls| - 1];
      var z := Stored(calls[..|calls| - 1], key);
      if last.key == key then Touch(z, last.member, last.now, last.windowMs) else z
  }

  /** The script's answer: `ZCOUNT` over the closed range from `now - windowMs` to `now`. */
  function CountRange(z: SortedSet, now: nat, windowMs: nat): nat {
    var scores := Live(z, now);
    |set m | m in scores && now - windowMs <= scores[m] <= now|
  }

  ghost predicate Called(calls: seq<Call>, key: Key, member: Id, now: nat) {
    exists c :: c in calls && c.key == key && c.member == member && c.now == now
  }

  /** Every score stored is the instant of a call. */
  ghost predicate Sound(z: SortedSet, calls: seq<Call>, key: Key) {
    z.SortedSet? ==> forall m :: m in z.scores ==> Called(calls, key, m, z.scores[m])
  }

  /** Every call young enough at the last one is stored, with its own instant or a later one. */
  ghost predicate Covers(z: SortedSet, calls: seq<Call>, key: Key, windowMs: nat) {
    && (z.SortedSet? ==> calls != [] && z.deadline <= calls[|calls| - 1].now + windowMs)
    && forall c :: c in calls && c.key == key ==>
         && z.SortedSet? && c.now + windowMs <= z.deadline
         && (z.deadline - 2 * windowMs < c.now ==> c.member in z.scores && c.now <= z.scores[c.member])
  }

  lemma LastIsNewest(calls: seq<Call>)
    requires InOrder(calls) && calls != []
    ensures forall c :: c in calls ==> c.now <= calls[|calls| - 1].now
    ensures InOrder(calls[..|calls| - 1])
    ensures calls == calls[..|calls| - 1] + [calls[|calls| - 1]]
  {
  }

  lemma {:induction false} StoredIsSound(calls: seq<Call>, key: Key)
    ensures Sound(Stored(calls, key), calls, key)
  {
    if calls != [] {
      assert calls == calls[..|calls| - 1] + [calls[|calls| - 1]];
      StoredIsSound(calls[..|calls| - 1], key);
    }
  }

  lemma {:induction false} StoredCovers(calls: seq<Call>, key: Key, windowMs: nat)
    requires InOrder(calls) && OneWidth(calls, key, windowMs)
    ensures Covers(Stored(calls, key), calls, key, windowMs)
  {
    if calls != [] {
      LastIsNewest(calls);
      StoredCovers(calls[..|calls| - 1], key, windowMs);
    }
  }

  /** Just after a call, what is stored is what is counted, and it is young enough. */
  lemma TouchPrunes(z: SortedSet, member: Id, now: nat, windowMs: nat)
    requires windowMs >= 1
    ensures var t := Touch(z, member, now, windowMs);
      Live(t, now) == t.scores && forall m :: m in t.scores ==> now - windowMs < t.scores[m]
  {
  }

  lemma {:induction false} ScoresAreCalls(calls: seq<Call>, windowMs: nat, m: Id)
    requires InOrder(calls) && calls != [] && OneWidth(calls, calls[|calls| - 1].key, windowMs)
    ensures var last := calls[|calls| - 1];
      var z := Stored(calls, last.key);
      && z.SortedSet? && Live(z, last.now) == z.scores
      && (m in z.scores ==> m in Recent(calls, last.key, last.now, windowMs)
                            && last.now - windowMs <= z.scores[m] <= last.now)
  {
    var last := calls[|calls| - 1];
    var z := Stored(calls, last.key);
    LastIsNewest(calls);
    StoredIsSound(calls, last.key);
    TouchPrunes(Stored(calls[..|calls| - 1], last.key), last.member, last.now, windowMs);
    if m in z.scores {
      assert Called(calls, last.key, m, z.scores[m]);
      var c :| c in calls && c.key == last.key && c.member == m && c.now == z.scores[m];
    }
  }

  lemma RecentIsStored(calls: seq<Call>, windowMs: nat, m: Id)
    requires InOrder(calls) && calls != [] && OneWidth(calls, calls[|calls| - 1].key, windowMs)
    requires m in Recent(calls, calls[|calls| - 1].key, calls[|calls| - 1].now, windowMs)
    ensures m in Stored(calls, calls[|calls| - 1].key).scores
  {
    var last := calls[|calls| - 1];
    StoredCovers(calls, last.key, windowMs);
    var c :| c in calls && c.key == last.key && last.now - windowMs < c.now <= last.now && c.member == m;
  }

  lemma RangeIsEverything(z: SortedSet, now: nat, windowMs: nat)
    requires z.SortedSet? && Live(z, now) == z.scores
    requires forall m :: m in z.scores ==> now - windowMs <= z.scores[m] <= now
    ensures CountRange(z, now, windowMs) == |z.scores.Keys|
  {
    assert (set m | m in z.scores && now - windowMs <= z.scores[m] <= now) == z.scores.Keys;
  }

  /** In every run, the answer of the last call is the number of recent distinct members. */
  lemma CountIsRecent(calls: seq<Call>, windowMs: nat)
    requires InOrder(calls) && calls != [] && OneWidth(calls, calls[|calls| - 1].key, windowMs)
    ensures var last := calls[|calls| - 1];
      CountRange(Stored(calls, last.key), last.now, windowMs)
      == |Recent(calls, last.key, last.now, windowMs)|
  {
    var last := calls[|calls| - 1];
    var z := Stored(calls, last.key);
    forall m ensures m in z.scores.Keys <==> m in Recent(calls, last.key, last.now, windowMs) {
      ScoresAreCalls(calls, windowMs, m);
      if m in Recent(calls, last.key, last.now, windowMs) { RecentIsStored(calls, windowMs, m); }
    }
    assert z.scores.Keys == Recent(calls, last.key, last.now, windowMs);
    forall m | m in z.scores ensures last.now - windowMs <= z.scores[m] <= last.now {
      ScoresAreCalls(calls, windowMs, m);
    }
    ScoresAreCalls(calls, windowMs, 0);
    RangeIsEverything(z, last.now, windowMs);
  }

  lemma RecentIsMonotone(calls: seq<Call>, key: Key, earlier: int, later: int, windowMs: nat)
    requires earlier <= later
    requires forall c :: c in calls ==> c.now <= earlier
    ensures Recent(calls, key, later, windowMs) <= Recent(calls, key, earlier, windowMs)
  {
  }

  lemma RecentOfOneMore(calls: seq<Call>, call: Call, windowMs: nat)
    requires windowMs >= 1
    ensures Recent(calls + [call], call.key, call.now, windowMs)
            == Recent(calls, call.key, call.now, windowMs) + {call.member}
  {
    var recent := Recent(calls + [call], call.key, call.now, windowMs);
    forall m ensures m in recent <==> m in Recent(calls, call.key, call.now, windowMs) + {call.member} {
      assert call in calls + [call];
      if m in recent {
        var c :| c in calls + [call] && c.key == call.key && call.now - windowMs < c.now <= call.now && c.member == m;
        assert c != call ==> c in calls;
      }
      if m in Recent(calls, call.key, call.now, windowMs) {
        var c :| c in calls && c.key == call.key && call.now - windowMs < c.now <= call.now && c.member == m;
        assert c in calls + [call];
      }
    }
  }

  lemma SubsetCardinality<T>(a: set<T>, b: set<T>)
    requires a <= b
    ensures |a| <= |b|
  {
    if a != {} {
      var x :| x in a;
      SubsetCardinality(a - {x}, b - {x});
    }
  }

  /** A count grows by at most one per call, and a member still in the window does not make it grow. */
  lemma CountGrowsSlowly(calls: seq<Call>, call: Call, earlier: nat, windowMs: nat)
    requires windowMs >= 1 && earlier <= call.now
    requires forall c :: c in calls ==> c.now <= earlier
    ensures var before := Recent(calls, call.key, earlier, windowMs);
      var after := Recent(calls + [call], call.key, call.now, windowMs);
      && |after| <= |before| + 1
      && (call.member in Recent(calls, call.key, call.now, windowMs) ==> after <= before && |after| <= |before|)
  {
    var before := Recent(calls, call.key, earlier, windowMs);
    RecentOfOneMore(calls, call, windowMs);
    RecentIsMonotone(calls, call.key, earlier, call.now, windowMs);
    SubsetCardinality(Recent(calls, call.key, call.now, windowMs), before);
    SubsetCardinality(Recent(calls, call.key, call.now, windowMs) + {call.member}, before + {call.member});
  }

  // ---------------------------------------------------------------- fixed window

  /** A counter key: without a time to live until `PEXPIRE` gives it one. */
  datatype Counter = NoCounter | Counter(count: int, expires: bool, deadline: int)

  function LiveCounter(c: Counter, now: int): Counter {
    if c.Counter? && c.expires && c.deadline <= now then NoCounter else c
  }

  /** `INCRBY`, then `PEXPIRE` when the new count is the increment itself. */
  function Increment(c: Counter, windowMs: nat, cost: int, now: nat): Counter {
    var live := LiveCounter(c, now);
    var grown := if live.Counter? then live.(count := live.count + cost) else Counter(cost, false, 0);
    if grown.count == cost then grown.(expires := true, deadline := now + windowMs) else grown
  }

  ghost predicate Holds(c: Counter, b: Bucket) {
    match b
    case NoBucket => c.NoCounter?
    case Bucket(count, resetAt) => c == Counter(count, true, resetAt) && count >= 1
  }

  /** Because a cost is at least one, the time to live is set exactly when a window opens, never extended. */
  lemma IncrementFollowsDefinition(c: Counter, h: seq<Hit>, hit: Hit)
    requires Holds(c, Newest(h))
    ensures Holds(Increment(c, hit.windowMs, hit.cost, hit.now), Newest(h + [hit]))
    ensures Told(h + [hit]).resetInMs > 0
  {
    assert (h + [hit])[..|h|] == h;
  }

  // ---------------------------------------------------------------- claims

  datatype Claim = Claim(key: Key, now: nat, ttlMs: nat)

  ghost predicate ClaimsInOrder(h: seq<Claim>) {
    forall i, j :: 0 <= i < j < |h| ==> h[i].now <= h[j].now
  }

  /** The deadline of the newest granted claim on a key, or 0. */
  ghost function HeldUntil(h: seq<Claim>, key: Key): int
  {
    if h == [] then 0
    else
      var last, held := h[|h| - 1], HeldUntil(h[..|h| - 1], key);
      if last.key == key && held <= last.now then last.now + last.ttlMs else held
  }

  /** Whether the last claim of a history is granted: no granted one on its key is still running. */
  ghost predicate Granted(h: seq<Claim>)
    requires h != []
  {
    HeldUntil(h[..|h| - 1], h[|h| - 1].key) <= h[|h| - 1].now
  }

  /** While a granted claim runs, no other claim on its key is granted. */
  lemma {:induction false} RunningClaimExcludes(h: seq<Claim>, k: nat)
    requires ClaimsInOrder(h) && k < |h| && Granted(h[..k + 1])
    ensures h[k].now + h[k].ttlMs <= HeldUntil(h, h[k].key) || h[k].now + h[k].ttlMs <= h[|h| - 1].now
    decreases |h|
  {
    var front, last := h[..|h| - 1], h[|h| - 1];
    if k == |h| - 1 {
      assert h[..k + 1] == h;
    } else {
      assert front[..k + 1] == h[..k + 1];
      RunningClaimExcludes(front, k);
    }
  }

  lemma GrantsAreApart(h: seq<Claim>, i: nat, j: nat)
    requires ClaimsInOrder(h) && i < j < |h| && h[i].key == h[j].key
    requires Granted(h[..i + 1]) && Granted(h[..j + 1])
    ensures h[i].now + h[i].ttlMs <= h[j].now
  {
    var front, upTo := h[..j], h[..j + 1];
    assert upTo[..|upTo| - 1] == front && upTo[|upTo| - 1] == h[j];
    assert front[..i + 1] == h[..i + 1];
    assert ClaimsInOrder(front);
    RunningClaimExcludes(front, i);
    assert front[|front| - 1].now <= h[j].now;
  }

  /** Claim `i` was granted on this key and is still running. */
  ghost predicate RunsAt(h: seq<Claim>, i: nat, key: Key, now: int) {
    i < |h| && h[i].key == key && Granted(h[..i + 1]) && now < h[i].now + h[i].ttlMs
  }

  lemma {:induction false} HeldExactlyWhileRunning(h: seq<Claim>, key: Key, now: nat)
    requires ClaimsInOrder(h) && forall c :: c in h ==> c.now <= now
    ensures now < HeldUntil(h, key) <==> exists i: nat :: RunsAt(h, i, key, now)
  {
    if h != [] {
      var n := |h| - 1;
      var front := h[..n];
      HeldExactlyWhileRunning(front, key, now);
      assert h[..n + 1] == h;
      forall i: nat | i < n ensures RunsAt(h, i, key, now) <==> RunsAt(front, i, key, now) {
        assert front[..i + 1] == h[..i + 1];
      }
      assert RunsAt(h, n, key, now) <==> h[n].key == key && Granted(h) && now < h[n].now + h[n].ttlMs;
    }
  }

  /** A claim is refused exactly when one granted before on its key still runs. */
  lemma RefusedExactlyWhileRunning(h: seq<Claim>)
    requires ClaimsInOrder(h) && h != []
    ensures var front, last := h[..|h| - 1], h[|h| - 1];
      !Granted(h) <==> exists i: nat :: RunsAt(front, i, last.key, last.now)
  {
    HeldExactlyWhileRunning(h[..|h| - 1], h[|h| - 1].key, h[|h| - 1].now);
  }

  // ---------------------------------------------------------------- the shared instance

  function Get<T>(m: map<Key, T>, key: Key, default: T): T {
    if key in m then m[key] else default
  }

  ghost predicate WindowsAgree(windows: map<Key, SortedSet>, calls: seq<Call>, clock: nat) {
    && InOrder(calls) && (calls != [] ==> calls[|calls| - 1].now <= clock)
    && forall key: Key :: Get(windows, key, Missing) == Stored(calls, key)
  }

  ghost predicate CountersAgree(counters: map<Key, Counter>, hits: map<Key, seq<Hit>>) {
    forall key: Key :: Holds(Get(counters, key, NoCounter), Newest(Get(hits, key, [])))
  }

  ghost predicate ClaimsAgree(deadlines: map<Key, int>, claimed: seq<Claim>, clock: nat) {
    && ClaimsInOrder(claimed) && (claimed != [] ==> claimed[|claimed| - 1].now <= clock)
    && forall key: Key :: Get(deadlines, key, 0) == HeldUntil(claimed, key)
  }

  lemma WindowsStillAgree(windows: map<Key, SortedSet>, calls: seq<Call>, clock: nat, call: Call)
    requires WindowsAgree(windows, calls, clock) && clock <= call.now && OneWidth(calls, call.key, call.windowMs)
    ensures var z := Touch(Get(windows, call.key, Missing), call.member, call.now, call.windowMs);
      && WindowsAgree(windows[call.key := z], calls + [call], call.now)
      && CountRange(z, call.now, call.windowMs) == |Recent(calls + [call], call.key, call.now, call.windowMs)|
  {
    assert (calls + [call])[..|calls|] == calls;
    assert Get(windows, call.key, Missing) == Stored(calls, call.key);
    var z := Touch(Get(windows, call.key, Missing), call.member, call.now, call.windowMs);
    forall key: Key
      ensures Get(windows[call.key := z], key, Missing) == Stored(calls + [call], key)
    {
      assert Get(windows, key, Missing) == Stored(calls, key);
    }
    CountIsRecent(calls + [call], call.windowMs);
  }

  lemma CountersStillAgree(counters: map<Key, Counter>, hits: map<Key, seq<Hit>>, key: Key, hit: Hit)
    requires CountersAgree(counters, hits)
    ensures var c := Increment(Get(counters, key, NoCounter), hit.windowMs, hit.cost, hit.now);
      var h := Get(hits, key, []) + [hit];
      && CountersAgree(counters[key := c], hits[key := h])
      && Told(h).resetInMs > 0
      && c == Counter(Told(h).count, true, hit.now + Told(h).resetInMs)
  {
    IncrementFollowsDefinition(Get(counters, key, NoCounter), Get(hits, key, []), hit);
    var c := Increment(Get(counters, key, NoCounter), hit.windowMs, hit.cost, hit.now);
    var h := Get(hits, key, []) + [hit];
    var counters1, hits1 := counters[key := c], hits[key := h];
    forall k: Key ensures Holds(Get(counters1, k, NoCounter), Newest(Get(hits1, k, []))) {
      assert Holds(Get(counters, k, NoCounter), Newest(Get(hits, k, [])));
    }
  }

  function AfterClaim(deadlines: map<Key, int>, claim: Claim): map<Key, int> {
    if Get(deadlines, claim.key, 0) <= claim.now then deadlines[claim.key := claim.now + claim.ttlMs] else deadlines
  }

  lemma ClaimsStillAgree(deadlines: map<Key, int>, claimed: seq<Claim>, clock: nat, claim: Claim)
    requires ClaimsAgree(deadlines, claimed, clock) && clock <= claim.now
    ensures ClaimsAgree(AfterClaim(deadlines, claim), claimed + [claim], claim.now)
    ensures Get(deadlines, claim.key, 0) <= claim.now <==> Granted(claimed + [claim])
  {
    assert (claimed + [claim])[..|claimed|] == claimed;
    assert Get(deadlines, claim.key, 0) == HeldUntil(claimed, claim.key);
    var after := AfterClaim(deadlines, claim);
    forall key: Key ensures Get(after, key, 0) == HeldUntil(claimed + [claim], key) {
      assert Get(deadlines, key, 0) == HeldUntil(claimed, key);
    }
  }

  /**
   The Redis instance on one clock, one class per primitive: their key prefixes are disjoint.
   Ghost fields are the histories the answers are proved against.
   */
  class SlidingWindows {
    var windows: map<Key, SortedSet>
    ghost var calls: seq<Call>
    ghost var clock: nat

    ghost predicate Valid()
      reads this
    {
      WindowsAgree(windows, calls, clock)
    }

    constructor ()
      ensures Valid() && calls == [] && clock == 0
    {
      windows, calls, clock := map[], [], 0;
    }

    /** The sliding-window script answers the number of distinct members of the window. */
    method CountInWindow(key: Key, member: Id, nowMs: nat, windowMs: Positive) returns (count: nat)
      requires Valid() && clock <= nowMs && OneWidth(calls, key, windowMs)
      modifies this
      ensures Valid() && clock == nowMs && calls == old(calls) + [Call(key, member, nowMs, windowMs)]
      ensures count == |Recent(calls, key, nowMs, windowMs)|
    {
      WindowsStillAgree(windows, calls, clock, Call(key, member, nowMs, windowMs));
      // A key past its deadline is gone.
      var scores := Live(Get(windows, key, Missing), nowMs);
      // ZREMRANGEBYSCORE 0 now-window
      scores := Prune(scores, nowMs - windowMs);
      // ZADD now member
      scores := scores[member := nowMs];
      // PEXPIRE window
      windows := windows[key := SortedSet(scores, nowMs + windowMs)];
      // ZCOUNT now-window now
      count := CountRange(windows[key], nowMs, windowMs);
      calls, clock := calls + [Call(key, member, nowMs, windowMs)], nowMs;
    }
  }

  class FixedWindows {
    var counters: map<Key, Counter>
    ghost var hits: map<Key, seq<Hit>>

    ghost predicate Valid()
      reads this
    {
      CountersAgree(counters, hits)
    }

    constructor ()
      ensures Valid() && hits == map[]
    {
      counters, hits := map[], map[];
    }

    /** `answered` tells whether the answer reaches the caller; the script has run either way. */
    method ConsumeFixedWindow(key: Key, windowMs: Positive, cost: Cost, nowMs: nat, ghost answered: bool)
      returns (decision: Decision)
      requires Valid()
      modifies this
      ensures Valid() && hits == old(hits)[key := old(Get(hits, key, [])) + [Hit(nowMs, windowMs, cost, answered)]]
      ensures decision == Told(hits[key])
    {
      CountersStillAgree(counters, hits, key, Hit(nowMs, windowMs, cost, answered));
      var counter := LiveCounter(Get(counters, key, NoCounter), nowMs);
      var count := cost;
      if counter.Counter? {
        count := counter.count + cost;
        counter := counter.(count := count);
      } else {
        counter := Counter(cost, false, 0);
      }
      if count == cost {
        counter := counter.(expires := true, deadline := nowMs + windowMs);
      }
      counters := counters[key := counter];
      var ttl := if counter.expires then counter.deadline - nowMs else -1;
      decision := Decision(count, if ttl > 0 then ttl else windowMs);
      hits := hits[key := Get(hits, key, []) + [Hit(nowMs, windowMs, cost, answered)]];
    }
  }

  class Claims {
    var deadlines: map<Key, int>
    ghost var claimed: seq<Claim>
    ghost var clock: nat

    ghost predicate Valid()
      reads this
    {
      ClaimsAgree(deadlines, claimed, clock)
    }

    constructor ()
      ensures Valid() && claimed == [] && clock == 0
    {
      deadlines, claimed, clock := map[], [], 0;
    }

    /** `SET key 1 PX ttl NX`: granted exactly when no granted claim on the key is still running. */
    method ClaimKey(key: Key, ttlMs: nat, nowMs: nat) returns (granted: bool)
      requires Valid() && clock <= nowMs
      modifies this
      ensures Valid() && clock == nowMs && claimed == old(claimed) + [Claim(key, nowMs, ttlMs)]
      ensures granted <==> Granted(claimed)
    {
      ghost var claim, was := Claim(key, nowMs, ttlMs), deadlines;
      ClaimsStillAgree(deadlines, claimed, clock, claim);
      granted := !(key in deadlines && nowMs < deadlines[key]);
      if granted {
        deadlines := deadlines[key := nowMs + ttlMs];
      }
      assert deadlines == AfterClaim(was, claim);
      claimed, clock := claimed + [claim], nowMs;
    }
  }
}
