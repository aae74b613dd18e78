/**
 Alert dispatch: which rules match an incident event, how a claim throttles each one, and what
 that bounds over the whole history of deliveries.
 */
module AlertDispatching {
  import opened Wrappers
  import opened RedisStore
  import opened Incidents

  datatype Rule = Rule(
    id: Id,
    enabled: bool,
    minSeverity: Severity,
    serviceIds: seq<Id>,
    environments: seq<Id>,
    onCreated: bool,
    onSeverityIncrease: bool,
    onReopened: bool,
    throttleMinutes: int)

  datatype AlertEvent = AlertEvent(trigger: Trigger, severity: Severity, serviceId: Id, environment: Id)

  predicate TriggerEnabled(rule: Rule, trigger: Trigger) {
    match trigger
    case RaiseCreated => rule.onCreated
    case RaiseSeverityIncreased => rule.onSeverityIncrease
    case RaiseReopened => rule.onReopened
  }

  predicate RuleMatches(rule: Rule, event: AlertEvent) {
    && rule.enabled
    && !(Rank(event.severity) < Rank(rule.minSeverity))
    && !(rule.serviceIds != [] && event.serviceId !in rule.serviceIds)
    && !(rule.environments != [] && event.environment !in rule.environments)
    && TriggerEnabled(rule, event.trigger)
  }

  /** The triggers a rule asks for. */
  ghost function Wanted(rule: Rule): set<Trigger> {
    (if rule.onCreated then {RaiseCreated} else {})
    + (if rule.onSeverityIncrease then {RaiseSeverityIncreased} else {})
    + if rule.onReopened then {RaiseReopened} else {}
  }

  ghost predicate InFilter(filter: seq<Id>, id: Id) {
    filter == [] || id in filter
  }

  /** Without filters an enabled rule matches what it asks for; each filter narrows it by its own condition alone. */
  lemma FiltersNarrow(rule: Rule, event: AlertEvent)
    ensures var open := rule.(minSeverity := LOW, serviceIds := [], environments := []);
      && (RuleMatches(open, event) <==> rule.enabled && event.trigger in Wanted(rule))
      && (RuleMatches(rule, event) <==>
            && RuleMatches(open, event)
            && InFilter(rule.serviceIds, event.serviceId) && InFilter(rule.environments, event.environment)
            && (event.severity == rule.minSeverity || IsSeverityIncrease(rule.minSeverity, event.severity)))
  {
    match event.trigger
    case RaiseCreated =>
    case RaiseSeverityIncreased =>
    case RaiseReopened =>
  }

  function ThrottleMs(rule: Rule): nat {
    (if rule.throttleMinutes > 0 then rule.throttleMinutes else 0) * 60000
  }

  // ---------------------------------------------------------------- the history of deliveries

  /** What becomes of one delivery: its claim call, its request, and its audit row. */
  datatype ClaimFate = Answers | AppliedButLost | NotReached
  datatype Fate = Fate(now: nat, claim: ClaimFate, requestOk: bool, rowWritten: bool)

  datatype Delivery = Delivery(ruleId: Id, incidentId: Id, throttleMs: nat, fate: Fate)

  /** `Threw` is a delivery whose claim failed: it is neither attempted nor recorded. */
  datatype Outcome = SENT | FAILED | THROTTLED | Threw

  ghost function ClaimOf(d: Delivery): Claim {
    Claim(AlertKey(d.ruleId, d.incidentId), d.fate.now, d.throttleMs)
  }

  ghost function ClaimsOf(ds: seq<Delivery>): seq<Claim> {
    if ds == [] then []
    else
      var last := ds[|ds| - 1];
      ClaimsOf(ds[..|ds| - 1]) + if last.throttleMs == 0 || last.fate.claim.NotReached? then [] else [ClaimOf(last)]
  }

  /** How the last delivery of a history ends. */
  ghost function Ended(ds: seq<Delivery>): Outcome
    requires ds != []
  {
    var last := ds[|ds| - 1];
    if last.throttleMs > 0 && !last.fate.claim.Answers? then Threw
    else if last.throttleMs > 0 && !(ClaimsOf(ds) != [] && Granted(ClaimsOf(ds))) then THROTTLED
    else if last.fate.requestOk then SENT else FAILED
  }

  ghost predicate Attempted(ds: seq<Delivery>) {
    ds != [] && (Ended(ds) == SENT || Ended(ds) == FAILED)
  }

  /** How one more delivery changes the claims held on a key: an attempt takes a free one, and none is shortened. */
  lemma HeldStep(ds: seq<Delivery>, key: Key)
    requires ds != []
    ensures var last, before, after := ds[|ds| - 1], HeldUntil(ClaimsOf(ds[..|ds| - 1]), key),
        HeldUntil(ClaimsOf(ds), key);
      && before <= after
      && (Attempted(ds) && last.throttleMs > 0 && key == AlertKey(last.ruleId, last.incidentId) ==>
            before <= last.fate.now && after == last.fate.now + last.throttleMs)
  {
    var front, last := ClaimsOf(ds[..|ds| - 1]), ds[|ds| - 1];
    var all := ClaimsOf(ds);
    if last.throttleMs == 0 || last.fate.claim.NotReached? {
      assert all == front;
    } else {
      assert all[..|all| - 1] == front && all[|all| - 1] == ClaimOf(last);
    }
  }

  lemma {:induction false} AttemptIsHeld(ds: seq<Delivery>, i: nat)
    requires i < |ds| && Attempted(ds[..i + 1]) && ds[i].throttleMs > 0
    ensures ds[i].fate.now + ds[i].throttleMs <= HeldUntil(ClaimsOf(ds), AlertKey(ds[i].ruleId, ds[i].incidentId))
    decreases |ds|
  {
    HeldStep(ds, AlertKey(ds[i].ruleId, ds[i].incidentId));
    if i < |ds| - 1 {
      assert ds[..|ds| - 1][..i + 1] == ds[..i + 1];
      AttemptIsHeld(ds[..|ds| - 1], i);
    } else {
      assert ds[..i + 1] == ds;
    }
  }

  /** Attempts of one rule on one incident are at least its throttle apart. */
  lemma AttemptsAreApart(ds: seq<Delivery>, i: nat)
    requires Attempted(ds) && i < |ds| - 1 && Attempted(ds[..i + 1])
    requires var last := ds[|ds| - 1];
      && ds[i].ruleId == last.ruleId && ds[i].incidentId == last.incidentId
      && ds[i].throttleMs > 0 && last.throttleMs > 0
    ensures ds[|ds| - 1].fate.now - ds[i].fate.now >= ds[i].throttleMs
  {
    assert ds[..|ds| - 1][..i + 1] == ds[..i + 1];
    AttemptIsHeld(ds[..|ds| - 1], i);
    HeldStep(ds, AlertKey(ds[i].ruleId, ds[i].incidentId));
  }

  /** The deliveries come in the order of their clock readings. */
  ghost predicate Chronological(ds: seq<Delivery>) {
    forall i, j :: 0 <= i < j < |ds| ==> ds[i].fate.now <= ds[j].fate.now
  }

  /** The claim a delivery makes, unless its rule has no throttle or the call is lost on its way. */
  ghost function ClaimsBy(d: Delivery): seq<Claim> {
    if d.throttleMs == 0 || d.fate.claim.NotReached? then [] else [ClaimOf(d)]
  }

  /** How a delivery ends, by whether nothing stood in the way of its claim. */
  ghost function EndOf(d: Delivery, granted: bool): Outcome {
    if d.throttleMs > 0 && !d.fate.claim.Answers? then Threw
    else if !granted then THROTTLED
    else if d.fate.requestOk then SENT else FAILED
  }

  lemma {:induction false} EndsByItsClaim(ds: seq<Delivery>, d: Delivery)
    ensures ClaimsOf(ds + [d]) == ClaimsOf(ds) + ClaimsBy(d)
    ensures Ended(ds + [d]) == EndOf(d, ClaimsBy(d) == [] || Granted(ClaimsOf(ds) + ClaimsBy(d)))
  {
    assert (ds + [d])[..|ds|] == ds;
  }

  ghost predicate UpTo(ds: seq<Delivery>, clock: nat) {
    Chronological(ds) && (ds != [] ==> ds[|ds| - 1].fate.now <= clock)
  }

  lemma OneMoreUpTo(ds: seq<Delivery>, d: Delivery, clock: nat)
    requires UpTo(ds, clock) && clock <= d.fate.now
    ensures UpTo(ds + [d], d.fate.now)
  {
  }

  /** Delivery `i` was granted a claim on this key, whether or not it learnt so, and the claim still runs. */
  ghost predicate HoldsAt(ds: seq<Delivery>, i: nat, key: Key, now: int) {
    && i < |ds| && AlertKey(ds[i].ruleId, ds[i].incidentId) == key
    && ds[i].throttleMs > 0 && !ds[i].fate.claim.NotReached?
    && Granted(ClaimsOf(ds[..i + 1])) && now < ds[i].fate.now + ds[i].throttleMs
  }

  lemma {:induction false} ClaimsOfOneMore(ds: seq<Delivery>, key: Key)
    requires ds != []
    ensures var n := |ds| - 1;
      var d, before := ds[n], HeldUntil(ClaimsOf(ds[..n]), key);
      HeldUntil(ClaimsOf(ds), key)
      == if d.throttleMs > 0 && !d.fate.claim.NotReached? && AlertKey(d.ruleId, d.incidentId) == key
            && Granted(ClaimsOf(ds))
         then d.fate.now + d.throttleMs else before
  {
    var n := |ds| - 1;
    if ds[n].throttleMs == 0 || ds[n].fate.claim.NotReached? {
      assert ClaimsOf(ds) == ClaimsOf(ds[..n]);
    } else {
      assert ClaimsOf(ds) == ClaimsOf(ds[..n]) + [ClaimOf(ds[n])];
      assert ClaimsOf(ds)[..|ClaimsOf(ds[..n])|] == ClaimsOf(ds[..n]);
    }
  }

  lemma {:induction false} GrantedFindsNothingHeld(ds: seq<Delivery>)
    requires ds != [] && ds[|ds| - 1].throttleMs > 0 && !ds[|ds| - 1].fate.claim.NotReached?
    ensures var n := |ds| - 1;
      Granted(ClaimsOf(ds))
      <==> HeldUntil(ClaimsOf(ds[..n]), AlertKey(ds[n].ruleId, ds[n].incidentId)) <= ds[n].fate.now
  {
    var n := |ds| - 1;
    assert ClaimsOf(ds) == ClaimsOf(ds[..n]) + [ClaimOf(ds[n])];
    assert ClaimsOf(ds)[..|ClaimsOf(ds[..n])|] == ClaimsOf(ds[..n]);
  }

  /** Some delivery holds the key. */
  ghost predicate Held(ds: seq<Delivery>, key: Key, now: int) {
    exists i: nat :: HoldsAt(ds, i, key, now)
  }

  lemma {:induction false} HeldOrHeldBefore(ds: seq<Delivery>, key: Key, now: int)
    requires ds != []
    ensures Held(ds, key, now) <==> HoldsAt(ds, |ds| - 1, key, now) || Held(ds[..|ds| - 1], key, now)
  {
    var front := ds[..|ds| - 1];
    forall i: nat | i < |front| ensures HoldsAt(ds, i, key, now) <==> HoldsAt(front, i, key, now) {
      assert front[..i + 1] == ds[..i + 1];
    }
  }

  lemma {:induction false} HeldUntilOrBefore(ds: seq<Delivery>, key: Key, now: nat)
    requires ds != [] && UpTo(ds, now)
    ensures now < HeldUntil(ClaimsOf(ds), key) <==>
              HoldsAt(ds, |ds| - 1, key, now) || now < HeldUntil(ClaimsOf(ds[..|ds| - 1]), key)
  {
    var n := |ds| - 1;
    ClaimsOfOneMore(ds, key);
    assert ds[..n + 1] == ds;
    if ds[n].throttleMs > 0 && !ds[n].fate.claim.NotReached? {
      GrantedFindsNothingHeld(ds);
    }
  }

  lemma UpToFront(ds: seq<Delivery>, now: nat)
    requires ds != [] && UpTo(ds, now)
    ensures UpTo(ds[..|ds| - 1], ds[|ds| - 1].fate.now) && ds[|ds| - 1].fate.now <= now
    ensures UpTo(ds[..|ds| - 1], now)
  {
    assert |ds| > 1 ==> ds[|ds| - 2].fate.now <= ds[|ds| - 1].fate.now;
  }

  lemma {:induction false} HeldByADelivery(ds: seq<Delivery>, key: Key, now: nat)
    requires UpTo(ds, now)
    ensures now < HeldUntil(ClaimsOf(ds), key) <==> Held(ds, key, now)
    decreases |ds|
  {
    if ds != [] {
      UpToFront(ds, now);
      HeldByADelivery(ds[..|ds| - 1], key, now);
      HeldUntilOrBefore(ds, key, now);
      HeldOrHeldBefore(ds, key, now);
    }
  }

  /**
   How a delivery ends, by the deliveries before it: it throws when its claim call fails, is throttled
   exactly while an earlier claim of its rule and incident runs, and is otherwise SENT or FAILED as its
   request went.
   */
  lemma EndsByHistory(ds: seq<Delivery>)
    requires ds != [] && Chronological(ds)
    ensures var n := |ds| - 1;
      var d, key := ds[n], AlertKey(ds[n].ruleId, ds[n].incidentId);
      && (Ended(ds) == Threw <==> d.throttleMs > 0 && !d.fate.claim.Answers?)
      && (Ended(ds) == THROTTLED <==>
            d.throttleMs > 0 && d.fate.claim.Answers? && Held(ds[..n], key, d.fate.now))
      && (Ended(ds) == SENT ==> d.fate.requestOk) && (Ended(ds) == FAILED ==> !d.fate.requestOk)
  {
    var n := |ds| - 1;
    UpToFront(ds, ds[n].fate.now);
    HeldByADelivery(ds[..n], AlertKey(ds[n].ruleId, ds[n].incidentId), ds[n].fate.now);
    if ds[n].throttleMs > 0 && ds[n].fate.claim.Answers? {
      GrantedFindsNothingHeld(ds);
    }
  }

  /** The attempts of one rule on one incident in `[from, from + length]`, and the instant of the newest. */
  datatype Tally = Tally(count: nat, newest: int)

  ghost predicate CountsIn(ds: seq<Delivery>, ruleId: Id, incidentId: Id, from: int, length: nat) {
    && Attempted(ds) && ds[|ds| - 1].ruleId == ruleId && ds[|ds| - 1].incidentId == incidentId
    && from <= ds[|ds| - 1].fate.now <= from + length
  }

  ghost function Attempts(ds: seq<Delivery>, ruleId: Id, incidentId: Id, from: int, length: nat): Tally {
    if ds == [] then Tally(0, from)
    else
      var before := Attempts(ds[..|ds| - 1], ruleId, incidentId, from, length);
      if CountsIn(ds, ruleId, incidentId, from, length) then Tally(before.count + 1, ds[|ds| - 1].fate.now) else before
  }

  ghost predicate OneThrottle(ds: seq<Delivery>, ruleId: Id, throttleMs: nat) {
    forall d :: d in ds && d.ruleId == ruleId ==> d.throttleMs == throttleMs
  }

  /** `n` throttle windows end to end. */
  ghost function Windows(n: nat, throttleMs: nat): nat {
    if n == 0 then 0 else Windows(n - 1, throttleMs) + throttleMs
  }

  /** What is known of a tally: its attempts are a throttle apart, and the newest one still holds its key. */
  ghost predicate Fits(t: Tally, heldUntil: int, from: int, length: nat, throttleMs: nat) {
    t.count > 0 ==>
      t.newest + throttleMs <= heldUntil && Windows(t.count - 1, throttleMs) <= t.newest - from <= length
  }

  lemma FitsStep(t: Tally, held: int, now: int, heldNext: int, from: int, length: nat, throttleMs: nat)
    requires Fits(t, held, from, length, throttleMs) && held <= heldNext
    ensures Fits(t, heldNext, from, length, throttleMs)
    ensures held <= now && heldNext == now + throttleMs && from <= now <= from + length ==>
              Fits(Tally(t.count + 1, now), heldNext, from, length, throttleMs)
  {
  }

  lemma {:induction false} AttemptsFit(ds: seq<Delivery>, ruleId: Id, incidentId: Id, from: int, length: nat,
                                       throttleMs: nat)
    requires OneThrottle(ds, ruleId, throttleMs) && throttleMs > 0
    ensures Fits(Attempts(ds, ruleId, incidentId, from, length), HeldUntil(ClaimsOf(ds), AlertKey(ruleId, incidentId)),
                 from, length, throttleMs)
  {
    if ds != [] {
      var front, last, key := ds[..|ds| - 1], ds[|ds| - 1], AlertKey(ruleId, incidentId);
      var held, heldNext := HeldUntil(ClaimsOf(front), key), HeldUntil(ClaimsOf(ds), key);
      AttemptsFit(front, ruleId, incidentId, from, length, throttleMs);
      HeldStep(ds, key);
      FitsStep(Attempts(front, ruleId, incidentId, from, length), held, last.fate.now, heldNext, from, length,
          throttleMs);
      assert last in ds;
    }
  }

  lemma {:induction false} WindowsIsProduct(n: nat, throttleMs: nat)
    ensures Windows(n, throttleMs) == n * throttleMs
  {
    if n > 0 { WindowsIsProduct(n - 1, throttleMs); }
  }

  lemma {:induction false} WindowsIsMonotone(m: nat, n: nat, throttleMs: nat)
    requires m <= n
    ensures Windows(m, throttleMs) <= Windows(n, throttleMs)
  {
    if m < n { WindowsIsMonotone(m, n - 1, throttleMs); }
  }

  lemma WindowsBound(n: nat, throttleMs: nat, length: nat)
    requires throttleMs > 0 && Windows(n, throttleMs) <= length
    ensures n <= length / throttleMs
  {
    var q: nat := length / throttleMs;
    var over: nat := q + 1;
    WindowsIsProduct(q, throttleMs);
    assert length < Windows(over, throttleMs);
    if over <= n {
      WindowsIsMonotone(over, n, throttleMs);
      assert false;
    }
  }

  /** A loud incident produces at most one attempt per throttle window, and one more. */
  lemma AttemptsAreBounded(ds: seq<Delivery>, ruleId: Id, incidentId: Id, from: int, length: nat, throttleMs: nat)
    requires OneThrottle(ds, ruleId, throttleMs) && throttleMs > 0
    ensures Attempts(ds, ruleId, incidentId, from, length).count <= length / throttleMs + 1
  {
    AttemptsFit(ds, ruleId, incidentId, from, length, throttleMs);
    var t := Attempts(ds, ruleId, incidentId, from, length);
    if t.count > 0 {
      WindowsBound(t.count - 1, throttleMs, length);
    }
  }

  // ---------------------------------------------------------------- the dispatcher

  datatype DeliveryRow = DeliveryRow(ruleId: Id, incidentId: Id, trigger: Trigger, status: Outcome)

  function Matching(rules: seq<Rule>, event: AlertEvent): (r: seq<Rule>)
    ensures forall x :: x in r <==> x in rules && RuleMatches(x, event)
  {
    if rules == [] then []
    else (if RuleMatches(rules[0], event) then [rules[0]] else []) + Matching(rules[1..], event)
  }

  /** Each matching rule once, in the order of the rules. */
  lemma {:induction false} MatchingConcat(a: seq<Rule>, b: seq<Rule>, event: AlertEvent)
    ensures Matching(a + b, event) == Matching(a, event) + Matching(b, event)
    ensures forall rule :: Matching([rule], event) == if RuleMatches(rule, event) then [rule] else []
  {
    if a == [] {
      assert a + b == b;
      assert forall rule: Rule :: [rule][1..] == [];
    } else {
      assert (a + b)[1..] == a[1..] + b;
      MatchingConcat(a[1..], b, event);
    }
  }

  ghost function DeliveryOf(rule: Rule, incidentId: Id, fate: Fate): Delivery {
    Delivery(rule.id, incidentId, ThrottleMs(rule), fate)
  }

  /** A rule is attempted on an incident at most once in its minutes; one without minutes is always attempted. */
  lemma AttemptsAreMinutesApart(ds: seq<Delivery>, i: nat, rule: Rule, incidentId: Id)
    requires ds != [] && ds[|ds| - 1] == DeliveryOf(rule, incidentId, ds[|ds| - 1].fate)
    ensures rule.throttleMinutes <= 0 ==> Attempted(ds)
    ensures i < |ds| - 1 && ds[i] == DeliveryOf(rule, incidentId, ds[i].fate) && rule.throttleMinutes > 0 &&
            Attempted(ds) && Attempted(ds[..i + 1]) ==>
              ds[|ds| - 1].fate.now - ds[i].fate.now >= 60_000 * rule.throttleMinutes
  {
    if i < |ds| - 1 && ds[i] == DeliveryOf(rule, incidentId, ds[i].fate) && rule.throttleMinutes > 0
       && Attempted(ds) && Attempted(ds[..i + 1]) {
      AttemptsAreApart(ds, i);
    }
  }

  /** It is throttled only by an earlier claim of the same rule and incident within those minutes. */
  lemma ThrottledWithinItsMinutes(ds: seq<Delivery>, rule: Rule, incidentId: Id)
    requires ds != [] && ds[|ds| - 1] == DeliveryOf(rule, incidentId, ds[|ds| - 1].fate)
    requires Chronological(ds) && OneThrottle(ds, rule.id, ThrottleMs(rule)) && Ended(ds) == THROTTLED
    ensures exists i :: 0 <= i < |ds| - 1 && ds[i].ruleId == rule.id && ds[i].incidentId == incidentId
              && ds[|ds| - 1].fate.now - ds[i].fate.now < 60_000 * rule.throttleMinutes
  {
    var n := |ds| - 1;
    EndsByHistory(ds);
    var i: nat :| HoldsAt(ds[..n], i, AlertKey(rule.id, incidentId), ds[n].fate.now);
    assert ds[i] == ds[..n][i] && ds[i] in ds;
  }

  /** The last delivery goes out: it has no throttle, or its claim call answers and no earlier claim is running. */
  ghost predicate GoesOut(ds: seq<Delivery>)
    requires ds != []
  {
    var n := |ds| - 1;
    var d, before := ds[n], ds[..n];
    d.throttleMs == 0
    || (d.fate.claim.Answers?
        && !Held(before, AlertKey(d.ruleId, d.incidentId), d.fate.now))
  }

  /** Definition: how many rules are delivered, unthrottled, by a request that succeeds. */
  ghost function Reached(ds: seq<Delivery>, rules: seq<Rule>, incidentId: Id, fates: seq<Fate>): nat
    requires |rules| <= |fates|
  {
    if rules == [] then 0
    else
      var n := |rules| - 1;
      Reached(ds, rules[..n], incidentId, fates)
      + if GoesOut(Delivered(ds, rules, incidentId, fates)) && fates[n].requestOk then 1 else 0
  }

  lemma {:induction false} DeliveredInOrder(ds: seq<Delivery>, rules: seq<Rule>, incidentId: Id, fates: seq<Fate>,
                                            clock: nat)
    requires |rules| <= |fates| && InTime(fates, clock) && UpTo(ds, clock)
    ensures UpTo(Delivered(ds, rules, incidentId, fates), if rules == [] then clock else fates[|rules| - 1].now)
  {
    if rules != [] {
      var n := |rules| - 1;
      DeliveredInOrder(ds, rules[..n], incidentId, fates, clock);
      assert n > 0 ==> fates[n - 1].now <= fates[n].now;
      OneMoreUpTo(Delivered(ds, rules[..n], incidentId, fates), DeliveryOf(rules[n], incidentId, fates[n]),
                  if n == 0 then clock else fates[n - 1].now);
    }
  }

  /** What is counted as sent is what reached its channel. */
  lemma {:induction false} SentIsReached(ds: seq<Delivery>, rules: seq<Rule>, incidentId: Id, fates: seq<Fate>,
                                         clock: nat)
    requires |rules| <= |fates| && InTime(fates, clock) && UpTo(ds, clock)
    ensures CountSent(Outcomes(ds, rules, incidentId, fates)) == Reached(ds, rules, incidentId, fates)
  {
    if rules != [] {
      var n := |rules| - 1;
      var before, all := Outcomes(ds, rules[..n], incidentId, fates), Delivered(ds, rules, incidentId, fates);
      SentIsReached(ds, rules[..n], incidentId, fates, clock);
      DeliveredInOrder(ds, rules, incidentId, fates, clock);
      EndsByHistory(all);
      assert (before + [Ended(all)])[..n] == before;
      assert all[|all| - 1].fate == fates[n];
    }
  }

  ghost predicate InTime(fates: seq<Fate>, clock: nat) {
    && (fates != [] ==> clock <= fates[0].now)
    && forall i :: 0 < i < |fates| ==> fates[i - 1].now <= fates[i].now
  }

  function CountSent(outcomes: seq<Outcome>): nat {
    if outcomes == [] then 0
    else CountSent(outcomes[..|outcomes| - 1]) + if outcomes[|outcomes| - 1] == SENT then 1 else 0
  }

  /** The history after delivering a list of rules, each with its fate. */
  ghost function Delivered(ds: seq<Delivery>, rules: seq<Rule>, incidentId: Id, fates: seq<Fate>): seq<Delivery>
    requires |rules| <= |fates|
  {
    if rules == [] then ds
    else
      var n := |rules| - 1;
      Delivered(ds, rules[..n], incidentId, fates) + [DeliveryOf(rules[n], incidentId, fates[n])]
  }

  /** The outcomes of those deliveries, one per rule. */
  ghost function Outcomes(ds: seq<Delivery>, rules: seq<Rule>, incidentId: Id, fates: seq<Fate>): (r: seq<Outcome>)
    requires |rules| <= |fates|
    ensures |r| == |rules|
  {
    if rules == [] then []
    else Outcomes(ds, rules[..|rules| - 1], incidentId, fates) + [Ended(Delivered(ds, rules, incidentId, fates))]
  }

  /** The row a delivery leaves, unless its claim threw or its write was lost. */
  ghost function RecordOf(outcome: Outcome, rule: Rule, incidentId: Id, trigger: Trigger,
                          fate: Fate): seq<DeliveryRow> {
    if fate.rowWritten && outcome != Threw then [DeliveryRow(rule.id, incidentId, trigger, outcome)] else []
  }

  /** The rows of those deliveries, in order. */
  ghost function Records(ds: seq<Delivery>, rules: seq<Rule>, incidentId: Id, trigger: Trigger,
                         fates: seq<Fate>): seq<DeliveryRow>
    requires |rules| <= |fates|
  {
    if rules == [] then []
    else
      var n := |rules| - 1;
      Records(ds, rules[..n], incidentId, trigger, fates)
      + RecordOf(Ended(Delivered(ds, rules, incidentId, fates)), rules[n], incidentId, trigger, fates[n])
  }

  /** When every claim call answers, each delivery ends in exactly one of SENT, FAILED and THROTTLED. */
  lemma {:induction false} NoClaimFailureNoThrow(ds: seq<Delivery>, rules: seq<Rule>, incidentId: Id, fates: seq<Fate>)
    requires |rules| <= |fates| && forall i :: 0 <= i < |fates| ==> fates[i].claim.Answers?
    ensures Threw !in Outcomes(ds, rules, incidentId, fates)
  {
    if rules != [] { NoClaimFailureNoThrow(ds, rules[..|rules| - 1], incidentId, fates); }
  }

  ghost predicate RecordedAs(rows: seq<DeliveryRow>, rules: seq<Rule>, outcomes: seq<Outcome>, incidentId: Id,
                             trigger: Trigger) {
    && |rows| == |rules| == |outcomes|
    && forall i :: 0 <= i < |rules| ==> rows[i] == DeliveryRow(rules[i].id, incidentId, trigger, outcomes[i])
  }

  lemma RecordedOneMore(rows: seq<DeliveryRow>, rules: seq<Rule>, outcomes: seq<Outcome>, o: Outcome, incidentId: Id,
                        trigger: Trigger)
    requires rules != [] && RecordedAs(rows, rules[..|rules| - 1], outcomes, incidentId, trigger)
    ensures RecordedAs(rows + [DeliveryRow(rules[|rules| - 1].id, incidentId, trigger, o)], rules, outcomes + [o],
        incidentId, trigger)
  {
  }

  /** When claims answer and rows are written, each matching rule is recorded once, as SENT, FAILED or THROTTLED. */
  lemma {:induction false} EveryRuleIsRecordedOnce(ds: seq<Delivery>, rules: seq<Rule>, incidentId: Id,
                                                   trigger: Trigger, fates: seq<Fate>)
    requires |rules| <= |fates| && forall i :: 0 <= i < |fates| ==> fates[i].claim.Answers? && fates[i].rowWritten
    ensures var outcomes := Outcomes(ds, rules, incidentId, fates);
            && RecordedAs(Records(ds, rules, incidentId, trigger, fates), rules, outcomes, incidentId, trigger)
            && Threw !in outcomes
  {
    NoClaimFailureNoThrow(ds, rules, incidentId, fates);
    if rules != [] {
      var front := rules[..|rules| - 1];
      EveryRuleIsRecordedOnce(ds, front, incidentId, trigger, fates);
      RecordedOneMore(Records(ds, front, incidentId, trigger, fates), rules, Outcomes(ds, front, incidentId, fates),
                      Ended(Delivered(ds, rules, incidentId, fates)), incidentId, trigger);
    }
  }

  lemma OneMoreDelivery(ds: seq<Delivery>, rules: seq<Rule>, n: nat, incidentId: Id, fates: seq<Fate>)
    requires n < |rules| <= |fates|
    ensures var before, outcome := Outcomes(ds, rules[..n], incidentId, fates),
        Ended(Delivered(ds, rules[..n + 1], incidentId, fates));
      var after := Outcomes(ds, rules[..n + 1], incidentId, fates);
      && Delivered(ds, rules[..n + 1], incidentId, fates)
         == Delivered(ds, rules[..n], incidentId, fates) + [DeliveryOf(rules[n], incidentId, fates[n])]
      && CountSent(after) == CountSent(before) + (if outcome == SENT then 1 else 0)
      && (Threw in after <==> Threw in before || outcome == Threw)
  {
    assert rules[..n + 1][..n] == rules[..n];
    var before, outcome := Outcomes(ds, rules[..n], incidentId, fates),
        Ended(Delivered(ds, rules[..n + 1], incidentId, fates));
    assert (before + [outcome])[..n] == before;
  }

  /** Where a dispatch stands after `i` deliveries. */
  ghost predicate Progress(before: seq<Delivery>, rules: seq<Rule>, i: nat, incidentId: Id, fates: seq<Fate>,
                           history: seq<Delivery>, sent: nat, threw: bool)
    requires i <= |rules| <= |fates|
  {
    var outcomes := Outcomes(before, rules[..i], incidentId, fates);
    && history == Delivered(before, rules[..i], incidentId, fates)
    && sent == CountSent(outcomes) && (threw <==> Threw in outcomes)
  }

  lemma OneMoreProgress(before: seq<Delivery>, rules: seq<Rule>, i: nat, incidentId: Id, fates: seq<Fate>,
                        history: seq<Delivery>, sent: nat, threw: bool)
    requires i < |rules| <= |fates| && Progress(before, rules, i, incidentId, fates, history, sent, threw)
    ensures var after := history + [DeliveryOf(rules[i], incidentId, fates[i])];
      && Progress(before, rules, i + 1, incidentId, fates, after,
                  sent + (if Ended(after) == SENT then 1 else 0), threw || Ended(after) == Threw)
      && after == Delivered(before, rules[..i + 1], incidentId, fates)
  {
    OneMoreDelivery(before, rules, i, incidentId, fates);
  }

  lemma OneMoreRecord(before: seq<DeliveryRow>, ds: seq<Delivery>, rules: seq<Rule>, n: nat, incidentId: Id,
                      trigger: Trigger,
                      fates: seq<Fate>)
    requires n < |rules| <= |fates|
    ensures before + Records(ds, rules[..n + 1], incidentId, trigger, fates)
         == before + Records(ds, rules[..n], incidentId, trigger, fates)
            + RecordOf(Ended(Delivered(ds, rules[..n + 1], incidentId, fates)), rules[n], incidentId, trigger, fates[n])
  {
    assert rules[..n + 1][..n] == rules[..n];
  }

  class AlertDispatcher {
    const claims: Claims
    var rows: seq<DeliveryRow>
    ghost var history: seq<Delivery>
    ghost var clock: nat

    ghost predicate Valid()
      reads this, claims
    {
      && claims.Valid() && claims.claimed == ClaimsOf(history) && claims.clock <= clock
      && UpTo(history, clock)
    }

    constructor ()
      ensures Valid() && history == [] && rows == [] && clock == 0 && fresh(claims)
    {
      claims := new Claims();
      rows, history, clock := [], [], 0;
    }

    /** The claim of the throttle window; without an answer nobody learns `claimed`. */
    method ClaimThrottle(rule: Rule, incidentId: Id, fate: Fate) returns (claimed: bool)
      requires claims.Valid() && claims.clock <= fate.now
      modifies claims
      ensures claims.Valid() && claims.clock <= fate.now
      ensures var made := ClaimsBy(DeliveryOf(rule, incidentId, fate));
        && claims.claimed == old(claims.claimed) + made
        && (claimed <==> made == [] || Granted(claims.claimed))
    {
      claimed := true;
      if ThrottleMs(rule) != 0 && !fate.claim.NotReached? {
        claimed := claims.ClaimKey(AlertKey(rule.id, incidentId), ThrottleMs(rule), fate.now);
      }
    }

    /** One matching rule: claim its throttle window, send, record. */
    method Deliver(rule: Rule, incidentId: Id, trigger: Trigger, fate: Fate) returns (outcome: Outcome)
      requires Valid() && clock <= fate.now
      modifies this, claims
      ensures Valid() && clock == fate.now && history == old(history) + [DeliveryOf(rule, incidentId, fate)]
      ensures outcome == Ended(history)
      ensures rows == old(rows) + RecordOf(outcome, rule, incidentId, trigger, fate)
    {
      ghost var d := DeliveryOf(rule, incidentId, fate);
      OneMoreUpTo(history, d, clock);
      EndsByItsClaim(history, d);
      history, clock := history + [d], fate.now;
      var claimed := ClaimThrottle(rule, incidentId, fate);
      if ThrottleMs(rule) != 0 && !fate.claim.Answers? {
        return Threw;
      }
      outcome := if !claimed then THROTTLED else if fate.requestOk then SENT else FAILED;
      assert outcome == EndOf(d, claimed);
      Record(rule, incidentId, trigger, outcome, fate);
    }

    method Record(rule: Rule, incidentId: Id, trigger: Trigger, status: Outcome, fate: Fate)
      requires status != Threw
      modifies this`rows
      ensures rows == old(rows) + RecordOf(status, rule, incidentId, trigger, fate)
    {
      if fate.rowWritten {
        rows := rows + [DeliveryRow(rule.id, incidentId, trigger, status)];
      }
    }

    /**
     Every matching rule is delivered and recorded once; `sent` counts the rules that reached their
     channel, and the dispatch throws exactly when one of its claims does.
     */
    method Dispatch(rules: seq<Rule>, incidentId: Id, event: AlertEvent, fates: seq<Fate>)
      returns (matched: nat, sent: nat, threw: bool)
      requires Valid() && |fates| == |Matching(rules, event)| && InTime(fates, clock)
      modifies this, claims
      ensures Valid() && matched == |Matching(rules, event)|
      ensures history == Delivered(old(history), Matching(rules, event), incidentId, fates)
      ensures var outcomes := Outcomes(old(history), Matching(rules, event), incidentId, fates);
        sent == CountSent(outcomes) && (threw <==> Threw in outcomes)
      ensures sent == Reached(old(history), Matching(rules, event), incidentId, fates)
      ensures rows == old(rows) + Records(old(history), Matching(rules, event), incidentId, event.trigger, fates)
    {
      var matching := Matching(rules, event);
      SentIsReached(history, matching, incidentId, fates, clock);
      matched := |matching|;
      sent, threw := DeliverAll(matching, incidentId, event.trigger, fates);
    }

    method DeliverAll(matching: seq<Rule>, incidentId: Id, trigger: Trigger, fates: seq<Fate>)
      returns (sent: nat, threw: bool)
      requires Valid() && |fates| == |matching| && InTime(fates, clock)
      modifies this, claims
      ensures Valid() && history == Delivered(old(history), matching, incidentId, fates)
      ensures var outcomes := Outcomes(old(history), matching, incidentId, fates);
        sent == CountSent(outcomes) && (threw <==> Threw in outcomes)
      ensures rows == old(rows) + Records(old(history), matching, incidentId, trigger, fates)
    {
      sent, threw := 0, false;
      for i := 0 to |matching|
        invariant Valid() && (i > 0 ==> clock == fates[i - 1].now) && (i == 0 ==> clock == old(clock))
        invariant Progress(old(history), matching, i, incidentId, fates, history, sent, threw)
        invariant rows == old(rows) + Records(old(history), matching[..i], incidentId, trigger, fates)
      {
        OneMoreProgress(old(history), matching, i, incidentId, fates, history, sent, threw);
        OneMoreRecord(old(rows), old(history), matching, i, incidentId, trigger, fates);
        var outcome := Deliver(matching[i], incidentId, trigger, fates[i]);
        threw := threw || outcome == Threw;
        sent := sent + if outcome == SENT then 1 else 0;
      }
      assert matching[..|matching|] == matching;
    }
  }
}
