/**
 The admin API's token bucket, over exact reals.

 The reference is the budget the bucket stands for: in any window ending now, admissions stay
 within the burst plus the rate times the window's length. A request is proved to be admitted
 exactly when that leaves every window within its budget, and a refusal's wait to be exact.
 */
module RateLimiter {
  import opened Prelude

  type Time = real

  datatype Config = Config(burst: real, perSec: real)

  datatype Bucket = Bucket(tokens: real, last: Time)

  function Min(a: real, b: real): real {
    if a < b then a else b
  }

  // The tokens a request at `now` finds.
  function Refill(cfg: Config, b: Option<Bucket>, now: Time): real {
    match b
    case None => Min(cfg.burst, cfg.burst + (now - now) * cfg.perSec)
    case Some(b) => Min(cfg.burst, b.tokens + (now - b.last) * cfg.perSec)
  }

  function Take(cfg: Config, b: Option<Bucket>, now: Time): Bucket {
    var tokens := Refill(cfg, b, now);
    Bucket(if tokens >= 1.0 then tokens - 1.0 else tokens, now)
  }

  function Get(buckets: map<string, Bucket>, key: string): Option<Bucket> {
    if key in buckets then Some(buckets[key]) else None
  }

  class Limiter {
    const cfg: Config
    var buckets: map<string, Bucket>

    constructor (burst: nat, rate: nat, window: real)
      requires window > 0.0
      ensures cfg == Config(burst as real, rate as real / window) && buckets == map[]
    {
      cfg := Config(burst as real, rate as real / window);
      buckets := map[];
    }

    method Allow(key: string, now: Time) returns (wait: real, ok: bool)
      requires cfg.perSec != 0.0
      modifies this
      ensures buckets == old(buckets)[key := Take(cfg, Get(old(buckets), key), now)]
      ensures ok <==> Refill(cfg, Get(old(buckets), key), now) >= 1.0
      ensures wait == if ok then 0.0 else (1.0 - Refill(cfg, Get(old(buckets), key), now)) / cfg.perSec
    {
      if key !in buckets {
        buckets := buckets[key := Bucket(cfg.burst, now)];
      }
      var b := buckets[key];
      b := Bucket(Min(cfg.burst, b.tokens + (now - b.last) * cfg.perSec), now);
      assert b.tokens == Refill(cfg, Get(old(buckets), key), now);
      buckets := buckets[key := b];
      if b.tokens >= 1.0 {
        buckets := buckets[key := b.(tokens := b.tokens - 1.0)];
        return 0.0, true;
      }
      return (1.0 - b.tokens) / cfg.perSec, false;
    }
  }

  // ---------------------------------------------------------------------------
  // Histories of requests by many keys
  // ---------------------------------------------------------------------------

  datatype Event = Event(key: string, at: Time)

  function After(cfg: Config, events: seq<Event>): map<string, Bucket> {
    if events == [] then map[]
    else
      var before, e := After(cfg, events[..|events| - 1]), events[|events| - 1];
      before[e.key := Take(cfg, Get(before, e.key), e.at)]
  }

  function TimesOf(events: seq<Event>, key: string): seq<Time> {
    if events == [] then []
    else
      var before, e := TimesOf(events[..|events| - 1], key), events[|events| - 1];
      if e.key == key then before + [e.at] else before
  }

  // One key's bucket after requests at the given times.
  function Run(cfg: Config, times: seq<Time>): Option<Bucket> {
    if times == [] then None
    else Some(Take(cfg, Run(cfg, times[..|times| - 1]), times[|times| - 1]))
  }

  lemma {:induction false} KeysAreIndependent(cfg: Config, events: seq<Event>, key: string)
    ensures Get(After(cfg, events), key) == Run(cfg, TimesOf(events, key))
    decreases |events|
  {
    if events == [] {
    } else {
      var front := events[..|events| - 1];
      KeysAreIndependent(cfg, front, key);
      var before := TimesOf(front, key);
      assert (before + [events[|events| - 1].at])[..|before|] == before;
    }
  }

  predicate Admits(cfg: Config, times: seq<Time>, now: Time) {
    Refill(cfg, Run(cfg, times), now) >= 1.0
  }

  // How many of the requests from the i-th on were admitted.
  function Admitted(cfg: Config, times: seq<Time>, i: nat): nat
    requires i <= |times|
    decreases |times|
  {
    if i == |times| then 0
    else
      var front, last := times[..|times| - 1], times[|times| - 1];
      Admitted(cfg, front, i) + if Admits(cfg, front, last) then 1 else 0
  }

  predicate Monotone(times: seq<Time>, now: Time) {
    && (forall i, j | 0 <= i < j < |times| :: times[i] <= times[j])
    && (forall i | 0 <= i < |times| :: times[i] <= now)
  }

  // What the window from the i-th request to now has left of its budget.
  function Unspent(cfg: Config, times: seq<Time>, now: Time, i: nat): real
    requires i <= |times|
  {
    var start := if i < |times| then times[i] else now;
    cfg.burst + (now - start) * cfg.perSec - Admitted(cfg, times, i) as real
  }

  // ---------------------------------------------------------------------------
  // The same bucket on a clock that ticks once per token
  // ---------------------------------------------------------------------------

  function Tick(cfg: Config, t: Time): Time {
    t * cfg.perSec
  }

  function Ticks(cfg: Config, times: seq<Time>): seq<Time> {
    seq(|times|, i requires 0 <= i < |times| => Tick(cfg, times[i]))
  }

  function Pour(burst: real, b: Option<Bucket>, now: Time): real {
    match b
    case None => burst
    case Some(b) => Min(burst, b.tokens + (now - b.last))
  }

  function PourAll(burst: real, ticks: seq<Time>): Option<Bucket> {
    if ticks == [] then None
    else
      var front, last := PourAll(burst, ticks[..|ticks| - 1]), ticks[|ticks| - 1];
      var tokens := Pour(burst, front, last);
      Some(Bucket(if tokens >= 1.0 then tokens - 1.0 else tokens, last))
  }

  function Poured(burst: real, ticks: seq<Time>, i: nat): nat
    requires i <= |ticks|
    decreases |ticks|
  {
    if i == |ticks| then 0
    else
      var front, last := ticks[..|ticks| - 1], ticks[|ticks| - 1];
      Poured(burst, front, i) + if Pour(burst, PourAll(burst, front), last) >= 1.0 then 1 else 0
  }

  function Rest(burst: real, ticks: seq<Time>, now: Time, i: nat): real
    requires i <= |ticks|
  {
    var start := if i < |ticks| then ticks[i] else now;
    burst + (now - start) - Poured(burst, ticks, i) as real
  }

  lemma Distribute(a: real, b: real, c: real)
    ensures (a - b) * c == a * c - b * c
  {
  }

  lemma {:induction false} SameBucket(cfg: Config, times: seq<Time>)
    ensures PourAll(cfg.burst, Ticks(cfg, times)) == Rescaled(cfg, Run(cfg, times))
  {
    if times == [] {
    } else {
      var front, last := times[..|times| - 1], times[|times| - 1];
      SameBucket(cfg, front);
      assert Ticks(cfg, times)[..|times| - 1] == Ticks(cfg, front);
      SameTokens(cfg, Run(cfg, front), last);
    }
  }

  function Rescaled(cfg: Config, b: Option<Bucket>): Option<Bucket> {
    match b
    case None => None
    case Some(b) => Some(Bucket(b.tokens, Tick(cfg, b.last)))
  }

  lemma SameTokens(cfg: Config, b: Option<Bucket>, now: Time)
    ensures Refill(cfg, b, now) == Pour(cfg.burst, Rescaled(cfg, b), Tick(cfg, now))
  {
    match b
    case None => Distribute(now, now, cfg.perSec);
    case Some(b) => Distribute(now, b.last, cfg.perSec);
  }

  lemma {:induction false} SameAdmitted(cfg: Config, times: seq<Time>, i: nat)
    requires i <= |times|
    ensures Admitted(cfg, times, i) == Poured(cfg.burst, Ticks(cfg, times), i)
    decreases |times|
  {
    if i < |times| {
      var front, last := times[..|times| - 1], times[|times| - 1];
      assert Ticks(cfg, times)[..|times| - 1] == Ticks(cfg, front);
      SameAdmitted(cfg, front, i);
      SameBucket(cfg, front);
      SameTokens(cfg, Run(cfg, front), last);
    }
  }

  lemma SameRest(cfg: Config, times: seq<Time>, now: Time, i: nat)
    requires i <= |times|
    ensures Unspent(cfg, times, now, i) == Rest(cfg.burst, Ticks(cfg, times), Tick(cfg, now), i)
  {
    SameAdmitted(cfg, times, i);
    Distribute(now, if i < |times| then times[i] else now, cfg.perSec);
  }

  /** The bucket holds what the tightest window has left. */
  lemma {:induction false} TightestTick(burst: real, ticks: seq<Time>, now: Time)
    requires Monotone(ticks, now)
    ensures forall i: nat | i <= |ticks| :: Pour(burst, PourAll(burst, ticks), now) <= Rest(burst, ticks, now, i)
    ensures exists i: nat :: i <= |ticks| && Pour(burst, PourAll(burst, ticks), now) == Rest(burst, ticks, now, i)
    decreases |ticks|
  {
    var n := |ticks|;
    assert Rest(burst, ticks, now, n) == burst;
    if ticks == [] {
    } else {
      var front, last := ticks[..n - 1], ticks[n - 1];
      var taken := if Pour(burst, PourAll(burst, front), last) >= 1.0 then 1.0 else 0.0;
      TightestTick(burst, front, last);
      forall i: nat | i < n
        ensures Rest(burst, ticks, now, i) == Rest(burst, front, last, i) + (now - last) - taken
      {
        assert i < n - 1 ==> ticks[i] == front[i];
      }
      var k: nat :| k <= |front| && Pour(burst, PourAll(burst, front), last) == Rest(burst, front, last, k);
    }
  }

  lemma TicksMonotone(cfg: Config, times: seq<Time>, now: Time)
    requires cfg.perSec >= 0.0 && Monotone(times, now)
    ensures Monotone(Ticks(cfg, times), Tick(cfg, now))
  {
    forall i, j | 0 <= i < j < |times|
      ensures Tick(cfg, times[i]) <= Tick(cfg, times[j])
    {
      Scale(times[i], times[j], cfg.perSec);
    }
    forall i | 0 <= i < |times|
      ensures Tick(cfg, times[i]) <= Tick(cfg, now)
    {
      Scale(times[i], now, cfg.perSec);
    }
  }

  lemma Scale(a: real, b: real, c: real)
    requires c >= 0.0 && a <= b
    ensures a * c <= b * c
  {
  }

  // ---------------------------------------------------------------------------
  // Main results
  // ---------------------------------------------------------------------------

  lemma TokensAreTightest(cfg: Config, times: seq<Time>, now: Time)
    requires cfg.perSec >= 0.0 && Monotone(times, now)
    ensures forall i: nat | i <= |times| :: Refill(cfg, Run(cfg, times), now) <= Unspent(cfg, times, now, i)
    ensures exists i: nat :: i <= |times| && Refill(cfg, Run(cfg, times), now) == Unspent(cfg, times, now, i)
  {
    TicksMonotone(cfg, times, now);
    TightestTick(cfg.burst, Ticks(cfg, times), Tick(cfg, now));
    SameBucket(cfg, times);
    SameTokens(cfg, Run(cfg, times), now);
    forall i: nat | i <= |times|
      ensures Unspent(cfg, times, now, i) == Rest(cfg.burst, Ticks(cfg, times), Tick(cfg, now), i)
    {
      SameRest(cfg, times, now, i);
    }
  }

  /** A request is admitted exactly when that leaves every window within its budget. */
  lemma AdmitsExactly(cfg: Config, events: seq<Event>, key: string, now: Time)
    requires cfg.perSec >= 0.0 && Monotone(TimesOf(events, key), now)
    ensures Refill(cfg, Get(After(cfg, events), key), now) >= 1.0
            <==> forall i: nat | i <= |TimesOf(events, key)| :: Unspent(cfg, TimesOf(events, key), now, i) >= 1.0
  {
    KeysAreIndependent(cfg, events, key);
    TokensAreTightest(cfg, TimesOf(events, key), now);
  }

  // How many requests between the two instants, both included, were admitted.
  function AdmittedIn(cfg: Config, times: seq<Time>, a: Time, b: Time): nat {
    if times == [] then 0
    else
      var front, last := times[..|times| - 1], times[|times| - 1];
      AdmittedIn(cfg, front, a, b) + if a <= last <= b && Admits(cfg, front, last) then 1 else 0
  }

  function PouredIn(burst: real, ticks: seq<Time>, a: Time, b: Time): nat {
    if ticks == [] then 0
    else
      var front, last := ticks[..|ticks| - 1], ticks[|ticks| - 1];
      PouredIn(burst, front, a, b) + if a <= last <= b && Pour(burst, PourAll(burst, front), last) >= 1.0 then 1 else 0
  }

  lemma {:induction false} NoMoreAdmitted(cfg: Config, times: seq<Time>, a: Time, b: Time)
    requires cfg.perSec >= 0.0
    ensures AdmittedIn(cfg, times, a, b) <= PouredIn(cfg.burst, Ticks(cfg, times), Tick(cfg, a), Tick(cfg, b))
  {
    if times != [] {
      var front, last := times[..|times| - 1], times[|times| - 1];
      assert Ticks(cfg, times)[..|times| - 1] == Ticks(cfg, front);
      NoMoreAdmitted(cfg, front, a, b);
      SameAdmits(cfg, front, last);
      InWindow(cfg, a, last, b);
    }
  }

  lemma SameAdmits(cfg: Config, times: seq<Time>, now: Time)
    ensures Admits(cfg, times, now) <==> Pour(cfg.burst, PourAll(cfg.burst, Ticks(cfg, times)), Tick(cfg, now)) >= 1.0
  {
    SameBucket(cfg, times);
    SameTokens(cfg, Run(cfg, times), now);
  }

  lemma InWindow(cfg: Config, a: Time, t: Time, b: Time)
    requires cfg.perSec >= 0.0
    ensures a <= t <= b ==> Tick(cfg, a) <= Tick(cfg, t) <= Tick(cfg, b)
  {
    if a <= t <= b {
      Scale(a, t, cfg.perSec);
      Scale(t, b, cfg.perSec);
    }
  }

  // The first tick at or after an instant.
  function FirstFrom(ticks: seq<Time>, a: Time): (i: nat)
    ensures i <= |ticks|
    ensures forall j | 0 <= j < i :: ticks[j] < a
    ensures i < |ticks| ==> a <= ticks[i]
  {
    if ticks == [] then 0
    else
      var i := FirstFrom(ticks[..|ticks| - 1], a);
      if i == |ticks| - 1 && ticks[i] < a then |ticks| else i
  }

  lemma {:induction false} PouredFrom(burst: real, ticks: seq<Time>, a: Time, b: Time)
    requires Monotone(ticks, b)
    ensures PouredIn(burst, ticks, a, b) == Poured(burst, ticks, FirstFrom(ticks, a))
  {
    if ticks != [] {
      var n := |ticks| - 1;
      var front, last := ticks[..n], ticks[n];
      PouredFrom(burst, front, a, b);
      var i := FirstFrom(front, a);
      if i < n {
        assert a <= front[i] <= last;
      }
    }
  }

  lemma {:induction false} TickWindow(burst: real, ticks: seq<Time>, now: Time, a: Time, b: Time)
    requires burst >= 0.0 && Monotone(ticks, now) && a <= b
    ensures PouredIn(burst, ticks, a, b) as real <= burst + (b - a)
    decreases |ticks|
  {
    if ticks == [] || ticks[|ticks| - 1] <= b {
      var i := FirstFrom(ticks, a);
      PouredFrom(burst, ticks, a, b);
      NeverNegative(burst, ticks);
      TightestTick(burst, ticks, b);
      assert Rest(burst, ticks, b, i) >= 0.0;
    } else {
      TickWindow(burst, ticks[..|ticks| - 1], now, a, b);
    }
  }

  /** No window, wherever it starts and ends, admits more than burst + rate * length. */
  lemma WindowBound(cfg: Config, times: seq<Time>, now: Time, a: Time, b: Time)
    requires cfg.perSec >= 0.0 && cfg.burst >= 0.0 && Monotone(times, now) && a <= b
    ensures AdmittedIn(cfg, times, a, b) as real <= cfg.burst + (b - a) * cfg.perSec
  {
    NoMoreAdmitted(cfg, times, a, b);
    TicksMonotone(cfg, times, now);
    InWindow(cfg, a, b, b);
    var ticks, start, end := Ticks(cfg, times), Tick(cfg, a), Tick(cfg, b);
    TickWindow(cfg.burst, ticks, Tick(cfg, now), start, end);
    InSeconds(cfg, AdmittedIn(cfg, times, a, b), PouredIn(cfg.burst, ticks, start, end), a, b);
  }

  lemma InSeconds(cfg: Config, x: nat, y: nat, a: Time, b: Time)
    requires x <= y && y as real <= cfg.burst + (Tick(cfg, b) - Tick(cfg, a))
    ensures x as real <= cfg.burst + (b - a) * cfg.perSec
  {
    Distribute(b, a, cfg.perSec);
  }

  lemma {:induction false} NeverNegative(burst: real, ticks: seq<Time>)
    requires burst >= 0.0 && (ticks != [] ==> Monotone(ticks, ticks[|ticks| - 1]))
    ensures PourAll(burst, ticks).Some? ==> PourAll(burst, ticks).value.tokens >= 0.0
    ensures ticks != [] ==> PourAll(burst, ticks).value.last == ticks[|ticks| - 1]
  {
    if ticks == [] {
    } else {
      NeverNegative(burst, ticks[..|ticks| - 1]);
    }
  }

  /** After a refusal, a lone retry is admitted exactly when the reported wait has passed. */
  lemma RetryExact(cfg: Config, times: seq<Time>, now: Time, later: Time)
    requires cfg.perSec > 0.0 && cfg.burst >= 1.0 && now <= later
    requires !Admits(cfg, times, now)
    ensures var wait := (1.0 - Refill(cfg, Run(cfg, times), now)) / cfg.perSec;
            Admits(cfg, times + [now], later) <==> later - now >= wait
  {
    assert (times + [now])[..|times|] == times;
    RefillLater(cfg, Refill(cfg, Run(cfg, times), now), now, later);
  }

  lemma RefillLater(cfg: Config, tokens: real, now: Time, later: Time)
    requires cfg.perSec > 0.0 && cfg.burst >= 1.0
    ensures Refill(cfg, Some(Bucket(tokens, now)), later) >= 1.0 <==> later - now >= (1.0 - tokens) / cfg.perSec
  {
    var elapsed, missing := later - now, 1.0 - tokens;
    var earned := elapsed * cfg.perSec;
    Divide(elapsed, missing, cfg.perSec);
    assert earned >= missing <==> elapsed >= missing / cfg.perSec;
    var b := Bucket(tokens, now);
    assert later - b.last == elapsed;
    assert Refill(cfg, Some(b), later) == Min(cfg.burst, b.tokens + (later - b.last) * cfg.perSec);
  }

  lemma Divide(a: real, b: real, c: real)
    requires c > 0.0
    ensures a >= b / c <==> a * c >= b
  {
    var q := b / c;
    assert q * c == b;
    if a >= q {
      Scale(q, a, c);
    } else {
      assert (q - a) * c > 0.0;
      Distribute(q, a, c);
    }
  }
}
