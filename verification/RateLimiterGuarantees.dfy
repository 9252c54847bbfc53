/**
  What the rate limiter decides over whole histories.
 */
module RateLimiterGuarantees {
  import opened RateLimiter

  /** A call of `consume`, or a pass of the cleanup thread. */
  datatype Event =
    | Call(who: string, cost: real, now: real)
    | Cleanup(now: real)

  /** The steady clock never goes back. */
  ghost predicate InOrder(h: seq<Event>) {
    forall i, j :: 0 <= i <= j < |h| ==> h[i].now <= h[j].now
  }

  function Step(c: Config, t: Table, e: Event): (Table, bool) {
    match e
    case Call(who, cost, now) => Consume(c, t, who, cost, now)
    case Cleanup(now) => (Sweep(c, t, now), false)
  }

  function After(c: Config, t: Table, h: seq<Event>): Table
    decreases |h|
  {
    if h == [] then t else After(c, Step(c, t, h[0]).0, h[1..])
  }

  /** The decision on every event; a cleanup counts as "not granted". */
  function Decisions(c: Config, t: Table, h: seq<Event>): (d: seq<bool>)
    ensures |d| == |h|
    decreases |h|
  {
    if h == [] then [] else [Step(c, t, h[0]).1] + Decisions(c, Step(c, t, h[0]).0, h[1..])
  }

  /** No bucket is ahead of the clock, overfull or in debt. */
  ghost predicate Sound(c: Config, t: Table, now: real) {
    forall who <- t :: t[who].lastRefill <= now && 0.0 <= t[who].tokens <= c.maxTokens
  }

  lemma RefillAdds(c: Config, a: real, b: real)
    ensures Refill(c, a + b) == Refill(c, a) + Refill(c, b)
  {
  }

  lemma RefillGrows(c: Config, a: real)
    requires ValidConfig(c) && a >= 0.0
    ensures Refill(c, a) >= 0.0
  {
  }

  /** Refilling in two steps is refilling once. */
  lemma RefillTwice(c: Config, t: Table, who: string, mid: real, now: real)
    requires ValidConfig(c) && Sound(c, t, mid) && mid <= now
    ensures Available(c, t, who, now) == Min(c.maxTokens, Available(c, t, who, mid) + Refill(c, now - mid))
    ensures 0.0 <= Available(c, t, who, mid) <= Available(c, t, who, now) <= c.maxTokens
  {
    RefillGrows(c, now - mid);
    if who in t {
      var last := t[who].lastRefill;
      RefillAdds(c, mid - last, now - mid);
      RefillGrows(c, mid - last);
      assert (mid - last) + (now - mid) == now - last;
    }
  }

  /** What a call does, in terms of availability alone. */
  lemma ConsumeByAvailability(c: Config, t: Table, who: string, cost: real, now: real)
    requires ValidConfig(c) && Sound(c, t, now)
    ensures var (t', granted) := Consume(c, t, who, cost, now);
            && Sound(c, t', now)
            && (granted <==> ValidCost(c, cost) && cost <= Available(c, t, who, now))
            && (forall other :: Available(c, t', other, now)
                  == Available(c, t, other, now) - if granted && other == who then cost else 0.0)
  {
    RefillTwice(c, t, who, now, now);
    assert Refill(c, 0.0) == 0.0;
  }

  // ----- cleanup -----

  /** Two tables no caller can tell apart from `now` on. */
  ghost predicate SameTo(c: Config, t: Table, u: Table, now: real) {
    forall who :: Available(c, t, who, now) == Available(c, u, who, now)
  }

  predicate SlowCleanup(c: Config) {
    Refill(c, c.idleLimit) >= c.maxTokens
  }

  /** A bucket old enough to be swept is full. */
  lemma SweepChangesNothing(c: Config, t: Table, now: real)
    requires ValidConfig(c) && SlowCleanup(c) && Sound(c, t, now)
    ensures Sound(c, Sweep(c, t, now), now) && SameTo(c, Sweep(c, t, now), t, now)
  {
    forall who ensures Available(c, Sweep(c, t, now), who, now) == Available(c, t, who, now) {
      if who in t && Stale(c, t[who], now) {
        var idle := now - t[who].lastRefill;
        RefillAdds(c, c.idleLimit, idle - c.idleLimit);
        RefillGrows(c, idle - c.idleLimit);
        assert c.idleLimit + (idle - c.idleLimit) == idle;
      }
    }
  }

  // ----- exactness -----

  /** The cost granted to `who` in history `h`, starting from `t`, at or after time `since`. */
  function Granted(c: Config, t: Table, h: seq<Event>, who: string, since: real): real
    decreases |h|
  {
    if h == [] then 0.0
    else
      var (t', granted) := Step(c, t, h[0]);
      (if granted && h[0].Call? && h[0].who == who && since <= h[0].now then h[0].cost else 0.0)
      + Granted(c, t', h[1..], who, since)
  }

  /** How much the window from `since` to `now` still allows after history `h`. */
  function Slack(c: Config, h: seq<Event>, who: string, since: real, now: real): real {
    c.maxTokens + Refill(c, now - since) - Granted(c, map[], h, who, since)
  }

  lemma {:induction false} GrantedSnoc(c: Config, t: Table, h: seq<Event>, e: Event, who: string, since: real)
    ensures Granted(c, t, h + [e], who, since) ==
            Granted(c, t, h, who, since)
            + (if Step(c, After(c, t, h), e).1 && e.Call? && e.who == who && since <= e.now then e.cost else 0.0)
    ensures After(c, t, h + [e]) == Step(c, After(c, t, h), e).0
    decreases |h|
  {
    if h == [] {
      assert ([] + [e])[1..] == [];
    } else {
      assert (h + [e])[1..] == h[1..] + [e];
      GrantedSnoc(c, Step(c, t, h[0]).0, h[1..], e, who, since);
    }
  }

  /** `h` is in time order up to `clock`, and it cleans up only if buckets fill up before they
      may be swept. */
  ghost predicate History(c: Config, h: seq<Event>, clock: real) {
    && InOrder(h)
    && (forall e <- h :: e.now <= clock && (e.Cleanup? ==> SlowCleanup(c)))
  }

  /** The stored tokens, after lazy refill, are the minimum of the slack over all windows. */
  ghost predicate Exact(c: Config, h: seq<Event>, who: string, now: real) {
    var a := Available(c, After(c, map[], h), who, now);
    && (forall since | since <= now :: a <= Slack(c, h, who, since, now))
    && (exists since :: since <= now && a == Slack(c, h, who, since, now))
  }

  lemma {:induction false} NothingGrantedLater(c: Config, t: Table, h: seq<Event>, who: string, since: real)
    requires forall e <- h :: e.now < since
    ensures Granted(c, t, h, who, since) == 0.0
    decreases |h|
  {
    if h != [] {
      NothingGrantedLater(c, Step(c, t, h[0]).0, h[1..], who, since);
    }
  }

  /** Exactness survives the passing of time. */
  lemma ExactLater(c: Config, h: seq<Event>, who: string, mid: real, now: real)
    requires ValidConfig(c) && History(c, h, mid) && mid <= now
    requires Sound(c, After(c, map[], h), mid) && Exact(c, h, who, mid)
    ensures Exact(c, h, who, now)
  {
    var t := After(c, map[], h);
    var a, a' := Available(c, t, who, mid), Available(c, t, who, now);
    RefillTwice(c, t, who, mid, now);
    forall since | since <= now ensures a' <= Slack(c, h, who, since, now) {
      if since <= mid {
        RefillAdds(c, mid - since, now - mid);
        assert (mid - since) + (now - mid) == now - since;
        assert Slack(c, h, who, since, now) == Slack(c, h, who, since, mid) + Refill(c, now - mid);
      } else {
        NothingGrantedLater(c, map[], h, who, since);
        RefillGrows(c, now - since);
      }
    }
    if a' < c.maxTokens || mid == now {
      var since :| since <= mid && a == Slack(c, h, who, since, mid);
      RefillAdds(c, mid - since, now - mid);
      assert (mid - since) + (now - mid) == now - since;
      if mid == now {
        assert a' == Slack(c, h, who, since, now);
      }
      assert a' == Slack(c, h, who, since, now);
    } else {
      NothingGrantedLater(c, map[], h, who, now);
      assert Refill(c, now - now) == 0.0;
      assert a' == Slack(c, h, who, now, now);
    }
  }

  /** Exactness survives a call, and a cleanup. */
  lemma ExactAfterEvent(c: Config, h: seq<Event>, e: Event, who: string)
    requires ValidConfig(c) && (e.Cleanup? ==> SlowCleanup(c))
    requires Sound(c, After(c, map[], h), e.now) && Exact(c, h, who, e.now)
    ensures Sound(c, After(c, map[], h + [e]), e.now) && Exact(c, h + [e], who, e.now)
  {
    var t := After(c, map[], h);
    var now := e.now;
    var spent := if Step(c, t, e).1 && e.Call? && e.who == who then e.cost else 0.0;
    if e.Call? {
      ConsumeByAvailability(c, t, e.who, e.cost, now);
    } else {
      SweepChangesNothing(c, t, now);
    }
    forall since | since <= now
      ensures Slack(c, h + [e], who, since, now) == Slack(c, h, who, since, now) - spent
    {
      GrantedSnoc(c, map[], h, e, who, since);
    }
    GrantedSnoc(c, map[], h, e, who, now);
    var a := Available(c, t, who, now);
    assert Available(c, After(c, map[], h + [e]), who, now) == a - spent;
    var since :| since <= now && a == Slack(c, h, who, since, now);
    assert a - spent == Slack(c, h + [e], who, since, now);
  }

  lemma {:induction false} ExactAlways(c: Config, h: seq<Event>, who: string, now: real)
    requires ValidConfig(c) && History(c, h, now)
    ensures Sound(c, After(c, map[], h), now) && Exact(c, h, who, now)
    decreases |h|
  {
    if h == [] {
      assert Refill(c, now - now) == 0.0;
      assert Slack(c, h, who, now, now) == c.maxTokens;
      forall since | since <= now ensures c.maxTokens <= Slack(c, h, who, since, now) {
        RefillGrows(c, now - since);
      }
    } else {
      var n := |h| - 1;
      var past, e := h[..n], h[n];
      assert h == past + [e];
      assert History(c, past, e.now);
      ExactAlways(c, past, who, e.now);
      ExactAfterEvent(c, past, e, who);
      ExactLater(c, h, who, e.now, now);
    }
  }

  /** What was granted from `since` to `now` plus `cost` is within one full bucket plus the inflow. */
  ghost predicate WindowAllows(c: Config, h: seq<Event>, who: string, cost: real, since: real, now: real) {
    Granted(c, map[], h, who, since) + cost <= c.maxTokens + (now - since) * c.refillRate
  }

  lemma WindowAllowsIff(c: Config, h: seq<Event>, who: string, cost: real, since: real, now: real)
    ensures WindowAllows(c, h, who, cost, since, now) <==> cost <= Slack(c, h, who, since, now)
  {
  }

  /** A call is granted exactly when its cost is valid and every window ending now allows it. */
  lemma GrantedIffEveryWindowAllows(c: Config, h: seq<Event>, who: string, cost: real, now: real)
    requires ValidConfig(c) && History(c, h, now)
    ensures Consume(c, After(c, map[], h), who, cost, now).1 <==>
            && 0.0 < cost <= c.maxTokens
            && forall since | since <= now :: WindowAllows(c, h, who, cost, since, now)
  {
    var t := After(c, map[], h);
    var a := Available(c, t, who, now);
    ExactAlways(c, h, who, now);
    ConsumeByAvailability(c, t, who, cost, now);
    var tight :| tight <= now && a == Slack(c, h, who, tight, now);
    WindowAllowsIff(c, h, who, cost, tight, now);
    if cost <= a {
      forall since | since <= now ensures WindowAllows(c, h, who, cost, since, now) {
        assert a <= Slack(c, h, who, since, now);
        WindowAllowsIff(c, h, who, cost, since, now);
      }
    }
  }

  // ----- rejected calls and cleanups leave no trace -----

  lemma SameLater(c: Config, t: Table, u: Table, mid: real, now: real)
    requires ValidConfig(c) && Sound(c, t, mid) && Sound(c, u, mid) && mid <= now && SameTo(c, t, u, mid)
    ensures Sound(c, t, now) && Sound(c, u, now) && SameTo(c, t, u, now)
  {
    forall who ensures Available(c, t, who, now) == Available(c, u, who, now) {
      RefillTwice(c, t, who, mid, now);
      RefillTwice(c, u, who, mid, now);
    }
  }

  /** The events kept by `keep`. */
  function Thin<T>(h: seq<T>, keep: seq<bool>): seq<T>
    requires |keep| == |h|
  {
    if h == [] then [] else (if keep[0] then [h[0]] else []) + Thin(h[1..], keep[1..])
  }

  /** Deleting any set of rejected calls and of cleanups from a history changes no other decision. */
  lemma {:induction false} NoTrace(c: Config, t: Table, u: Table, h: seq<Event>, keep: seq<bool>, now: real)
    requires ValidConfig(c) && InOrder(h) && (h != [] ==> now <= h[0].now) && |keep| == |h|
    requires Sound(c, t, now) && Sound(c, u, now) && SameTo(c, t, u, now)
    requires (exists e <- h :: e.Cleanup?) ==> SlowCleanup(c)
    requires forall i :: 0 <= i < |h| && !keep[i] ==> !Decisions(c, t, h)[i]
    ensures Decisions(c, u, Thin(h, keep)) == Thin(Decisions(c, t, h), keep)
    decreases |h|
  {
    if h != [] {
      var e := h[0];
      var (t', granted) := Step(c, t, e);
      var d := Decisions(c, t, h);
      assert d[1..] == Decisions(c, t', h[1..]);
      SameLater(c, t, u, now, e.now);
      var u' := if keep[0] then Step(c, u, e).0 else u;
      EventKeepsSame(c, t, u, e, keep[0]);
      forall i | 0 <= i < |h[1..]| && !keep[1..][i] ensures !Decisions(c, t', h[1..])[i] {
        assert !d[i + 1];
      }
      assert (exists e' <- h[1..] :: e'.Cleanup?) ==> (exists e' <- h :: e'.Cleanup?);
      NoTrace(c, t', u', h[1..], keep[1..], e.now);
      if keep[0] {
        assert Thin(h, keep)[1..] == Thin(h[1..], keep[1..]);
      } else {
        assert Thin(h, keep) == Thin(h[1..], keep[1..]);
      }
    }
  }

  lemma EventKeepsSame(c: Config, t: Table, u: Table, e: Event, kept: bool)
    requires ValidConfig(c) && Sound(c, t, e.now) && Sound(c, u, e.now) && SameTo(c, t, u, e.now)
    requires e.Cleanup? ==> SlowCleanup(c)
    requires kept || !Step(c, t, e).1
    ensures Step(c, u, e).1 == Step(c, t, e).1
    ensures var t' := Step(c, t, e).0;
            var u' := if kept then Step(c, u, e).0 else u;
            Sound(c, t', e.now) && Sound(c, u', e.now) && SameTo(c, t', u', e.now)
  {
    match e
    case Call(who, cost, now) =>
      ConsumeByAvailability(c, t, who, cost, now);
      ConsumeByAvailability(c, u, who, cost, now);
    case Cleanup(now) =>
      SweepChangesNothing(c, t, now);
      SweepChangesNothing(c, u, now);
  }

  /** A limiter with cleanups at arbitrary moments decides like one that never cleans up. */
  ghost predicate CleanupInvisible(c: Config) {
    forall h: seq<Event> | InOrder(h) ::
      Decisions(c, map[], Thin(h, Calls(h))) == Thin(Decisions(c, map[], h), Calls(h))
  }

  function Calls(h: seq<Event>): seq<bool> {
    seq(|h|, i requires 0 <= i < |h| => h[i].Call?)
  }

  lemma {:induction false} CleanupsAreNotGranted(c: Config, t: Table, h: seq<Event>, i: nat)
    requires i < |h| && h[i].Cleanup?
    ensures !Decisions(c, t, h)[i]
    decreases |h|
  {
    if i > 0 {
      CleanupsAreNotGranted(c, Step(c, t, h[0]).0, h[1..], i - 1);
    }
  }

  lemma RefillOrder(c: Config, a: real, b: real)
    requires ValidConfig(c)
    ensures a < b <==> Refill(c, a) < Refill(c, b)
  {
  }

  /** A moment when an emptied bucket may be swept although it is not full yet. */
  lemma EarlySweep(c: Config) returns (at: real)
    requires ValidConfig(c) && !SlowCleanup(c)
    ensures at > c.idleLimit && at > 0.0 && Refill(c, at) < c.maxTokens
  {
    var full := c.maxTokens / c.refillRate;
    assert Refill(c, full) == c.maxTokens;
    RefillOrder(c, c.idleLimit, full);
    RefillOrder(c, 0.0, full);
    at := ((if c.idleLimit > 0.0 then c.idleLimit else 0.0) + full) / 2.0;
    RefillOrder(c, at, full);
  }

  /** A full bucket spent at 0, a cleanup at `at`, and a full bucket asked for again. */
  function TwoBursts(c: Config, at: real): seq<Event> {
    [Call("", c.maxTokens, 0.0), Cleanup(at), Call("", c.maxTokens, at)]
  }

  /** The sweep forgets the debt, so both bursts are granted. */
  lemma BothBurstsGranted(c: Config, at: real)
    requires ValidConfig(c) && at > c.idleLimit && at > 0.0
    ensures InOrder(TwoBursts(c, at))
    ensures Decisions(c, map[], TwoBursts(c, at)) == [true, false, true]
    ensures Granted(c, map[], TwoBursts(c, at), "", 0.0) == c.maxTokens + c.maxTokens
  {
    var h := TwoBursts(c, at);
    assert h[1..] == [h[1], h[2]] && h[1..][1..] == [h[2]] && h[1..][1..][1..] == [];
    var one := Step(c, map[], h[0]).0;
    assert one == map["" := Bucket(0.0, 0.0)];
    var two := Step(c, one, h[1]).0;
    assert two == map[];
    assert Decisions(c, two, [h[2]]) == [true];
    assert Granted(c, two, [h[2]], "", 0.0) == c.maxTokens;
    assert Granted(c, one, h[1..], "", 0.0) == c.maxTokens;
    assert Decisions(c, one, h[1..]) == [false, true];
  }

  /** Without the cleanup the second burst is rejected. */
  lemma FastCleanupIsVisible(c: Config)
    requires ValidConfig(c) && !SlowCleanup(c)
    ensures !CleanupInvisible(c)
  {
    var at := EarlySweep(c);
    BothBurstsGranted(c, at);
    var h := TwoBursts(c, at);
    var keep, d := Calls(h), Decisions(c, map[], h);
    assert keep == [true, false, true];
    assert keep[1..] == [false, true] && keep[1..][1..] == [true];
    assert h[1..] == [h[1], h[2]] && h[1..][1..] == [h[2]];
    assert Thin([h[2]], [true]) == [h[2]];
    assert Thin(h, keep) == [h[0], h[2]];
    assert d[1..] == [d[1], d[2]] && d[1..][1..] == [d[2]];
    assert Thin([d[2]], [true]) == [d[2]];
    assert Thin(d, keep) == [true, true];
    var one := Step(c, map[], h[0]).0;
    assert Available(c, one, "", at) == Refill(c, at);
    assert [h[0], h[2]][1..] == [h[2]];
    assert Decisions(c, one, [h[2]]) == [false];
    assert Decisions(c, map[], [h[0], h[2]])[1] == false;
  }

  /** Cleanup is invisible exactly when an idle bucket is full before it may be swept. */
  lemma CleanupInvisibleIff(c: Config)
    requires ValidConfig(c)
    ensures CleanupInvisible(c) <==> c.idleLimit * c.refillRate >= c.maxTokens
  {
    if SlowCleanup(c) {
      forall h: seq<Event> | InOrder(h)
        ensures Decisions(c, map[], Thin(h, Calls(h))) == Thin(Decisions(c, map[], h), Calls(h))
      {
        forall i | 0 <= i < |h| && !Calls(h)[i] ensures !Decisions(c, map[], h)[i] {
          CleanupsAreNotGranted(c, map[], h, i);
        }
        NoTrace(c, map[], map[], h, Calls(h), if h == [] then 0.0 else h[0].now);
      }
    } else {
      FastCleanupIsVisible(c);
    }
  }

  // ----- the budget -----

  /** From `since` to `now` a caller is granted at most one full bucket plus what flowed in. */
  ghost predicate WithinBudget(c: Config, h: seq<Event>, who: string, since: real, now: real) {
    Granted(c, map[], h, who, since) <= c.maxTokens + (now - since) * c.refillRate
  }

  ghost predicate UpTo(h: seq<Event>, now: real) {
    InOrder(h) && forall e <- h :: e.now <= now
  }

  /** No caller gets more than the budget in any window of any history, cleanups included, if
      and only if an idle bucket is full before it may be swept. */
  lemma BudgetHoldsIff(c: Config)
    requires ValidConfig(c)
    ensures (forall h, who, since, now | UpTo(h, now) && since <= now :: WithinBudget(c, h, who, since, now)) <==>
            c.idleLimit * c.refillRate >= c.maxTokens
  {
    if SlowCleanup(c) {
      forall h, who, since, now | UpTo(h, now) && since <= now
        ensures WithinBudget(c, h, who, since, now)
      {
        ExactAlways(c, h, who, now);
        RefillTwice(c, After(c, map[], h), who, now, now);
        assert Available(c, After(c, map[], h), who, now) <= Slack(c, h, who, since, now);
      }
    } else {
      var at := EarlySweep(c);
      BothBurstsGranted(c, at);
      assert UpTo(TwoBursts(c, at), at);
      assert !WithinBudget(c, TwoBursts(c, at), "", 0.0, at);
    }
  }

  // ----- what cleanup keeps -----

  /** A call by `who` that gets as far as its bucket, granted or not. */
  predicate Visits(c: Config, e: Event, who: string) {
    e.Call? && e.who == who && ValidCost(c, e.cost)
  }

  /** A bucket is there since the last visit of its owner; without one, every visit is too old. */
  ghost predicate Tracked(c: Config, h: seq<Event>, t: Table, who: string, clock: real) {
    if who in t
    then
      && (exists e <- h :: Visits(c, e, who) && e.now == t[who].lastRefill)
      && (forall e <- h :: Visits(c, e, who) ==> e.now <= t[who].lastRefill)
    else forall e <- h :: Visits(c, e, who) ==> clock - e.now > c.idleLimit
  }

  lemma {:induction false} AfterSnoc(c: Config, t: Table, h: seq<Event>, e: Event)
    ensures After(c, t, h + [e]) == Step(c, After(c, t, h), e).0
    decreases |h|
  {
    if h == [] {
      assert ([] + [e])[1..] == [];
    } else {
      assert (h + [e])[1..] == h[1..] + [e];
      AfterSnoc(c, Step(c, t, h[0]).0, h[1..], e);
    }
  }

  lemma EventIsTracked(c: Config, h: seq<Event>, t: Table, e: Event, who: string)
    requires Tracked(c, h, t, who, e.now) && forall e' <- h :: e'.now <= e.now
    ensures Tracked(c, h + [e], Step(c, t, e).0, who, e.now)
  {
    var t' := Step(c, t, e).0;
    forall e' <- h + [e] | Visits(c, e', who)
      ensures if who in t' then e'.now <= t'[who].lastRefill else e.now - e'.now > c.idleLimit
    {
      assert e' in h || e' == e;
    }
    if who in t' {
      if Visits(c, e, who) {
        assert (h + [e])[|h|] == e;
      } else {
        var e' :| e' in h && Visits(c, e', who) && e'.now == t[who].lastRefill;
        assert e' in h + [e];
      }
    }
  }

  lemma {:induction false} TrackedAlways(c: Config, h: seq<Event>, who: string, clock: real)
    requires UpTo(h, clock)
    ensures Tracked(c, h, After(c, map[], h), who, clock)
    decreases |h|
  {
    if h != [] {
      var past, e := h[..|h| - 1], h[|h| - 1];
      assert h == past + [e];
      TrackedAlways(c, past, who, e.now);
      EventIsTracked(c, past, After(c, map[], past), e, who);
      AfterSnoc(c, map[], past, e);
    }
  }

  /** After a cleanup, whatever happened before, the table holds exactly the callers that made a
      call with a valid cost, granted or not, within the idle limit, their buckets untouched. */
  lemma CleanupKeepsExactlyTheRecent(c: Config, h: seq<Event>, now: real, who: string)
    requires UpTo(h, now)
    ensures who in After(c, map[], h + [Cleanup(now)]) <==>
            exists e <- h :: e.Call? && e.who == who && 0.0 < e.cost <= c.maxTokens && now - e.now <= c.idleLimit
    ensures var t, t' := After(c, map[], h), After(c, map[], h + [Cleanup(now)]);
            who in t' ==> who in t && t'[who] == t[who]
  {
    var t := After(c, map[], h);
    TrackedAlways(c, h, who, now);
    AfterSnoc(c, map[], h, Cleanup(now));
    if who in t && !Stale(c, t[who], now) {
      var e :| e in h && Visits(c, e, who) && e.now == t[who].lastRefill;
      assert now - e.now <= c.idleLimit;
    }
    forall e <- h | Visits(c, e, who) && now - e.now <= c.idleLimit
      ensures who in After(c, map[], h + [Cleanup(now)])
    {
    }
  }

  /** The default limiter grants nobody more than 50 plus one for every two seconds in any window, and
      its cleanup is never noticed. */
  lemma DefaultLimiterIsSafe(h: seq<Event>, who: string, since: real, now: real)
    requires UpTo(h, now) && since <= now
    ensures CleanupInvisible(DEFAULT_CONFIG)
    ensures Granted(DEFAULT_CONFIG, map[], h, who, since) <= 50.0 + (now - since) / 2.0
  {
    assert 120.0 * 0.5 == 60.0;
    CleanupInvisibleIff(DEFAULT_CONFIG);
    BudgetHoldsIff(DEFAULT_CONFIG);
    assert WithinBudget(DEFAULT_CONFIG, h, who, since, now);
  }
}
