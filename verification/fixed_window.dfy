/**
 Reference definition of a fixed-window counter over the full history of its calls, and the
 bound it gives on what is admitted in any interval one window long.

 The Redis script and the per-process store are proved to answer what this definition says.
 */
module FixedWindow {
  import opened Wrappers

  type Cost = Positive

  /** One call on one key. `decides` is false for a call whose answer the caller never got. */
  datatype Hit = Hit(now: nat, windowMs: Positive, cost: Cost, decides: bool)

  datatype Bucket = NoBucket | Bucket(count: nat, resetAt: int)

  datatype Decision = Decision(count: nat, resetInMs: int)

  ghost predicate Ordered(h: seq<Hit>) {
    forall i, j :: 0 <= i < j < |h| ==> h[i].now <= h[j].now
  }

  /** The newest window a history opened, and the cost counted in it. Nothing is ever deleted. */
  ghost function Newest(h: seq<Hit>): (b: Bucket)
    ensures h != [] ==> b.Bucket? && h[|h| - 1].now < b.resetAt && b.count >= 1
    ensures h == [] ==> b.NoBucket?
  {
    if h == [] then NoBucket
    else
      var last := h[|h| - 1];
      var b := Newest(h[..|h| - 1]);
      if b.Bucket? && last.now < b.resetAt then Bucket(b.count + last.cost, b.resetAt)
      else Bucket(last.cost, last.now + last.windowMs)
  }

  /** What the last call of a history is told. */
  ghost function Told(h: seq<Hit>): Decision
    requires h != []
  {
    var b := Newest(h);
    Decision(b.count, b.resetAt - h[|h| - 1].now)
  }

  // ---------------------------------------------------------------- the windows of a history

  ghost function Costs(h: seq<Hit>): nat {
    if h == [] then 0 else Costs(h[..|h| - 1]) + h[|h| - 1].cost
  }

  ghost function End(hit: Hit): int {
    hit.now + hit.windowMs
  }

  /** Hit `k` opened the newest window: every later one falls in it, and the window before, if any, was over. */
  ghost predicate Opens(h: seq<Hit>, k: nat)
    decreases |h|
  {
    && k < |h|
    && (forall i :: k <= i < |h| ==> h[i].now < End(h[k]))
    && (k > 0 ==> exists j :: 0 <= j < k && Opens(h[..k], j) && End(h[j]) <= h[k].now)
  }

  lemma {:induction false} SomeHitOpens(h: seq<Hit>) returns (k: nat)
    requires h != [] && Ordered(h)
    ensures Opens(h, k)
  {
    var n := |h| - 1;
    if n == 0 {
      k := 0;
    } else {
      OrderedFront(h);
      k := SomeHitOpens(h[..n]);
      if h[n].now < End(h[k]) {
        assert h[..n][..k] == h[..k];
      } else {
        assert Opens(h[..n], k) && End(h[k]) <= h[n].now;
        k := n;
      }
    }
  }

  lemma CostsOfOneMore(h: seq<Hit>, k: nat)
    requires k < |h|
    ensures Costs(h[k..]) == Costs(h[..|h| - 1][k..]) + h[|h| - 1].cost
  {
    assert h[k..][..|h| - k - 1] == h[..|h| - 1][k..];
  }

  /** What a bucket means: the costs since the hit that opened the newest window, and when that one ends. */
  lemma {:induction false} NewestIsASum(h: seq<Hit>, k: nat)
    requires Opens(h, k)
    ensures Newest(h) == Bucket(Costs(h[k..]), End(h[k]))
    decreases |h|
  {
    var n := |h| - 1;
    var front := h[..n];
    CostsOfOneMore(h, k);
    if k < n {
      assert front[..k] == h[..k];
      NewestIsASum(front, k);
    } else {
      assert front[k..] == [];
      if k > 0 {
        var j :| 0 <= j < k && Opens(h[..k], j) && End(h[j]) <= h[k].now;
        NewestIsASum(front, j);
      }
    }
  }

  /** The costs at instants after `from`. */
  ghost function CostsAfter(h: seq<Hit>, from: int): nat {
    if h == [] then 0 else CostsAfter(h[..|h| - 1], from) + if h[|h| - 1].now > from then h[|h| - 1].cost else 0
  }

  lemma {:induction false} WindowIsRecent(h: seq<Hit>, k: nat, from: int)
    requires k < |h| && forall i :: k <= i < |h| ==> from < h[i].now
    ensures Costs(h[k..]) <= CostsAfter(h, from)
    decreases |h|
  {
    CostsOfOneMore(h, k);
    if k < |h| - 1 {
      WindowIsRecent(h[..|h| - 1], k, from);
    } else {
      assert h[..|h| - 1][k..] == [];
    }
  }

  /** Whoever asked for no more than the limit in the last window's length is within it, whenever windows opened. */
  lemma ModestIsWithin(h: seq<Hit>, windowMs: Positive, max: nat)
    requires h != [] && Ordered(h) && SameWindow(h, windowMs)
    requires CostsAfter(h, h[|h| - 1].now - windowMs) <= max
    ensures Told(h).count <= max
  {
    var k := SomeHitOpens(h);
    NewestIsASum(h, k);
    WindowIsRecent(h, k, h[|h| - 1].now - windowMs);
  }

  /** The cost admitted at instants in `[from, from + windowMs]` by a limit of `max`. */
  ghost function AdmittedCost(h: seq<Hit>, windowMs: nat, max: nat, from: int): nat {
    if h == [] then 0
    else
      var last := h[|h| - 1];
      AdmittedCost(h[..|h| - 1], windowMs, max, from)
      + if last.decides && from <= last.now <= from + windowMs && Told(h).count <= max
        then last.cost else 0
  }

  ghost function Min(a: nat, b: nat): nat {
    if a <= b then a else b
  }

  ghost predicate SameWindow(h: seq<Hit>, windowMs: nat) {
    forall i :: 0 <= i < |h| ==> h[i].windowMs == windowMs
  }

  lemma OrderedFront(h: seq<Hit>)
    requires h != [] && Ordered(h)
    ensures Ordered(h[..|h| - 1])
    ensures |h| > 1 ==> h[|h| - 2].now <= h[|h| - 1].now
  {
  }

  lemma {:induction false} NothingAdmittedBefore(h: seq<Hit>, windowMs: nat, max: nat, from: int)
    requires Ordered(h) && (h != [] ==> h[|h| - 1].now < from)
    ensures AdmittedCost(h, windowMs, max, from) == 0
  {
    if h != [] {
      OrderedFront(h);
      NothingAdmittedBefore(h[..|h| - 1], windowMs, max, from);
    }
  }

  lemma {:induction false} NewestHasOpened(h: seq<Hit>, windowMs: nat)
    requires h != [] && Ordered(h) && SameWindow(h, windowMs)
    ensures Newest(h).Bucket? && Newest(h).resetAt <= h[|h| - 1].now + windowMs
  {
    if |h| > 1 {
      OrderedFront(h);
      NewestHasOpened(h[..|h| - 1], windowMs);
    }
  }

  /** What is admitted so far, by where the newest window opened relative to the interval. */
  ghost predicate Bounded(h: seq<Hit>, windowMs: nat, max: nat, from: int) {
    var b := Newest(h);
    var a := AdmittedCost(h, windowMs, max, from);
    if b.NoBucket? then a == 0
    else
      var start := b.resetAt - windowMs;
      if start <= from then a <= Min(b.count, max)
      else if start <= from + windowMs then a <= max + Min(b.count, max)
      else a <= 2 * max
  }

  /** At most two windows meet an interval one window long, and each admits at most `max`. */
  lemma {:induction false} AdmittedIsBounded(h: seq<Hit>, windowMs: nat, max: nat, from: int)
    requires Ordered(h) && SameWindow(h, windowMs)
    ensures Bounded(h, windowMs, max, from)
    ensures AdmittedCost(h, windowMs, max, from) <= 2 * max
  {
    if h != [] {
      var front, last := h[..|h| - 1], h[|h| - 1];
      OrderedFront(h);
      AdmittedIsBounded(front, windowMs, max, from);
      if last.now < from {
        NothingAdmittedBefore(h, windowMs, max, from);
      } else if front != [] && front[|front| - 1].now < from {
        NothingAdmittedBefore(front, windowMs, max, from);
      }
      NewestHasOpened(h, windowMs);
    }
  }

  /** The bound is reached: a full budget spent at the start of one window and again at the start of the next. */
  lemma BoundIsReached(windowMs: Positive, max: Cost)
    ensures var h := [Hit(0, windowMs, max, true), Hit(windowMs, windowMs, max, true)];
      Ordered(h) && SameWindow(h, windowMs) && AdmittedCost(h, windowMs, max, 0) == 2 * max
  {
    var h := [Hit(0, windowMs, max, true), Hit(windowMs, windowMs, max, true)];
    assert h[..1] == [h[0]] && h[..1][..0] == [];
    assert Newest(h[..1]) == Bucket(max, windowMs);
    assert AdmittedCost(h[..1], windowMs, max, 0) == max;
  }
}
