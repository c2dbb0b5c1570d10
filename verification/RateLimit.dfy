// The per-peer token bucket, its eviction loop and the advertised wait.
//
// Times are nanoseconds. Token amounts are kept in units of which one request costs UNIT: at n requests a
// minute a bucket gains exactly n units a nanosecond, so nothing is rounded.

module RateLimits {
  import opened Domain

  const SECOND := 1_000_000_000
  const UNIT := 60 * SECOND
  const IDLE := 600 * SECOND

  datatype Bucket = Bucket(tokens: int, last: int)

  type Buckets = map<string, Bucket>

  function Burst(perMinute: nat): int { perMinute * UNIT }

  function Min(a: int, b: int): int { if a < b then a else b }

  // What a peer could spend at time t; a peer without a bucket has a full one.
  function Level(perMinute: nat, m: Buckets, key: string, t: int): int {
    if key !in m then Burst(perMinute)
    else Min(Burst(perMinute), m[key].tokens + (t - m[key].last) * perMinute)
  }

  class RateLimiter {
    var buckets: Buckets
    const perMinute: nat

    constructor (perMinute: nat)
      ensures this.perMinute == perMinute && buckets == map[]
    {
      this.perMinute := perMinute;
      buckets := map[];
    }

    // Refill, then spend one request if there is one; otherwise say how long until there will be.
    method Allow(key: string, now: int) returns (ok: bool, wait: int)
      requires perMinute >= 1
      modifies this
      ensures ok == Answer(perMinute, old(buckets), Request(key, now))
      ensures buckets == Next(perMinute, old(buckets), Request(key, now))
      ensures ok ==> wait == 0
      ensures !ok ==> wait == Wait(perMinute, Level(perMinute, old(buckets), key, now))
      ensures var full := perMinute * 60_000_000_000;
              var refilled := if key in old(buckets)
                              then old(buckets)[key].tokens + (now - old(buckets)[key].last) * perMinute else full;
              var tokens := if refilled > full then full else refilled;
              && (ok <==> tokens >= 60_000_000_000)
              && buckets == old(buckets)[key := Bucket(if ok then tokens - 60_000_000_000 else tokens, now)]
              && (!ok ==> wait == (60_000_000_000 - tokens) / perMinute + 1_000_000_000)
    {
      var b := if key in buckets then buckets[key] else Bucket(Burst(perMinute), now);
      b := b.(tokens := b.tokens + (now - b.last) * perMinute);
      if b.tokens > Burst(perMinute) {
        b := b.(tokens := Burst(perMinute));
      }
      b := b.(last := now);
      if b.tokens >= UNIT {
        buckets := buckets[key := b.(tokens := b.tokens - UNIT)];
        return true, 0;
      }
      buckets := buckets[key := b];
      return false, (UNIT - b.tokens) / perMinute + SECOND;
    }

    // Drop every bucket not touched for ten minutes.
    method Evict(now: int)
      modifies this
      ensures buckets == Next(perMinute, old(buckets), Sweep(now))
      ensures forall k :: k in buckets <==> k in old(buckets) && now - old(buckets)[k].last <= 600_000_000_000
      ensures forall k :: k in buckets ==> buckets[k] == old(buckets)[k]
    {
      var cutoff := now - IDLE;
      var rest := buckets.Keys;
      ghost var start := buckets;
      while rest != {}
        invariant rest <= start.Keys
        invariant buckets == map k | k in start && (k in rest || start[k].last >= cutoff) :: start[k]
        decreases rest
      {
        var k :| k in rest;
        if buckets[k].last < cutoff {
          buckets := buckets - {k};
        }
        rest := rest - {k};
      }
    }
  }

  // The wait in nanoseconds, and the whole seconds the response advertises.
  function Wait(perMinute: nat, level: int): int
    requires perMinute >= 1
  {
    (UNIT - level) / perMinute + SECOND
  }

  function RetryAfter(wait: int): int { wait / SECOND }

  // ---- runs ----

  datatype Event = Request(key: string, t: int) | Sweep(t: int)

  function Answer(perMinute: nat, m: Buckets, e: Event): bool
    requires e.Request?
  {
    Level(perMinute, m, e.key, e.t) >= UNIT
  }

  function Next(perMinute: nat, m: Buckets, e: Event): Buckets {
    match e
    case Request(key, t) =>
      var level := Level(perMinute, m, key, t);
      m[key := Bucket(if level >= UNIT then level - UNIT else level, t)]
    case Sweep(t) => map k | k in m && m[k].last >= t - IDLE :: m[k]
  }

  // The limiter that never forgets a peer.
  function IdealNext(perMinute: nat, m: Buckets, e: Event): Buckets {
    if e.Sweep? then m else Next(perMinute, m, e)
  }

  ghost predicate Timed(events: seq<Event>) { forall i, j :: 0 <= i < j < |events| ==> events[i].t <= events[j].t }

  function After(perMinute: nat, events: seq<Event>, n: nat): Buckets
    requires n <= |events|
  {
    if n == 0 then map[] else Next(perMinute, After(perMinute, events, n - 1), events[n - 1])
  }

  function IdealAfter(perMinute: nat, events: seq<Event>, n: nat): Buckets
    requires n <= |events|
  {
    if n == 0 then map[] else IdealNext(perMinute, IdealAfter(perMinute, events, n - 1), events[n - 1])
  }

  ghost predicate Sound(perMinute: nat, m: Buckets, now: int) {
    forall k :: k in m ==> 0 <= m[k].tokens <= Burst(perMinute) && m[k].last <= now
  }

  lemma RefillNonNegative(perMinute: nat, m: Buckets, key: string, t: int)
    requires perMinute >= 1 && Sound(perMinute, m, t)
    ensures 0 <= Level(perMinute, m, key, t) <= Burst(perMinute)
  {
    if key in m {
      assert (t - m[key].last) * perMinute >= 0;
    }
  }

  lemma NextSound(perMinute: nat, m: Buckets, now: int, e: Event)
    requires perMinute >= 1 && Sound(perMinute, m, now) && now <= e.t
    ensures Sound(perMinute, Next(perMinute, m, e), e.t)
  {
    if e.Request? {
      assert Sound(perMinute, m, e.t);
      RefillNonNegative(perMinute, m, e.key, e.t);
    }
  }

  lemma {:induction false} AfterSound(perMinute: nat, events: seq<Event>, n: nat, now: int)
    requires perMinute >= 1 && Timed(events) && n <= |events| && (n > 0 ==> events[n - 1].t <= now)
    ensures Sound(perMinute, After(perMinute, events, n), now)
    decreases n
  {
    if n > 0 {
      AfterSound(perMinute, events, n - 1, events[n - 1].t);
      NextSound(perMinute, After(perMinute, events, n - 1), events[n - 1].t, events[n - 1]);
    }
  }

  // ---- eviction cannot be observed ----

  // Idle for ten minutes is idle for ten full refills: the forgotten bucket was full.
  lemma IdleIsFull(perMinute: nat, m: Buckets, key: string, t: int, later: int)
    requires Sound(perMinute, m, t) && key in m && m[key].last < t - IDLE && t <= later
    ensures Level(perMinute, m, key, later) == Burst(perMinute)
  {
    assert later - m[key].last >= IDLE;
    assert (later - m[key].last) * perMinute >= IDLE * perMinute;
    assert IDLE * perMinute == 10 * (perMinute * UNIT);
  }

  ghost predicate SameLevels(perMinute: nat, m: Buckets, ideal: Buckets, now: int) {
    forall k, t {:trigger Level(perMinute, m, k, t)} :: t >= now ==>
      Level(perMinute, m, k, t) == Level(perMinute, ideal, k, t)
  }

  lemma NextSameLevels(perMinute: nat, m: Buckets, ideal: Buckets, now: int, e: Event)
    requires perMinute >= 1 && Sound(perMinute, m, now) && SameLevels(perMinute, m, ideal, now) && now <= e.t
    ensures SameLevels(perMinute, Next(perMinute, m, e), IdealNext(perMinute, ideal, e), e.t)
  {
    forall k, t | t >= e.t
      ensures Level(perMinute, Next(perMinute, m, e), k, t) == Level(perMinute, IdealNext(perMinute, ideal, e), k, t) {
      assert Level(perMinute, m, k, t) == Level(perMinute, ideal, k, t);
      if e.Sweep? {
        if k in m && k !in Next(perMinute, m, e) {
          assert Sound(perMinute, m, e.t);
          IdleIsFull(perMinute, m, k, e.t, t);
        }
      } else {
        assert Level(perMinute, m, e.key, e.t) == Level(perMinute, ideal, e.key, e.t);
      }
    }
  }

  // For every run, every request gets the answer it would get if no bucket were ever evicted.
  lemma {:induction false} EvictionUnobservable(perMinute: nat, events: seq<Event>, n: nat, now: int)
    requires perMinute >= 1 && Timed(events) && n <= |events| && (n > 0 ==> events[n - 1].t <= now)
    ensures SameLevels(perMinute, After(perMinute, events, n), IdealAfter(perMinute, events, n), now)
    ensures n < |events| && events[n].Request? && now <= events[n].t ==>
              Answer(perMinute, After(perMinute, events, n), events[n])
                == Answer(perMinute, IdealAfter(perMinute, events, n), events[n])
    decreases n
  {
    if n > 0 {
      var before := if n > 1 then events[n - 2].t else events[n - 1].t;
      EvictionUnobservable(perMinute, events, n - 1, before);
      AfterSound(perMinute, events, n - 1, before);
      NextSameLevels(perMinute, After(perMinute, events, n - 1), IdealAfter(perMinute, events, n - 1), before,
                     events[n - 1]);
    }
  }

  // ---- the rate over any window ----

  // Requests of one peer allowed among events i (inclusive) to j (exclusive).
  function Allowed(perMinute: nat, events: seq<Event>, key: string, i: nat, j: nat): nat
    requires i <= j <= |events|
    decreases j
  {
    if i == j then 0
    else
      var e := events[j - 1];
      Allowed(perMinute, events, key, i, j - 1)
      + (if e.Request? && e.key == key && Answer(perMinute, After(perMinute, events, j - 1), e) then 1 else 0)
  }

  lemma SplitSpan(a: int, b: int, c: int, rate: nat)
    requires a <= b <= c
    ensures (c - a) * rate == (b - a) * rate + (c - b) * rate
    ensures (b - a) * rate >= 0 && (c - b) * rate >= 0
  {
  }

  lemma LevelGrowsAtRate(perMinute: nat, m: Buckets, key: string, t: int, later: int)
    requires t <= later
    ensures Level(perMinute, m, key, later) <= Level(perMinute, m, key, t) + (later - t) * perMinute
  {
    if key in m {
      assert (later - m[key].last) * perMinute == (t - m[key].last) * perMinute + (later - t) * perMinute;
    }
    assert (later - t) * perMinute >= 0;
  }

  // One event: what it spends comes out of the level.
  lemma EventSpends(perMinute: nat, m: Buckets, e: Event, key: string)
    requires perMinute >= 1 && Sound(perMinute, m, e.t)
    ensures Level(perMinute, Next(perMinute, m, e), key, e.t)
            == Level(perMinute, m, key, e.t)
               - (if e.Request? && e.key == key && Answer(perMinute, m, e) then UNIT else 0)
  {
    RefillNonNegative(perMinute, m, key, e.t);
    if e.Sweep? && key in m && key !in Next(perMinute, m, e) {
      IdleIsFull(perMinute, m, key, e.t, e.t);
    }
  }

  lemma {:induction false} SpentIsPaid(perMinute: nat, events: seq<Event>, key: string, i: nat, j: nat, from: int,
                                       to: int)
    requires perMinute >= 1 && Timed(events) && i <= j <= |events| && from <= to
    requires i < j ==> from <= events[i].t && events[j - 1].t <= to
    requires i > 0 ==> events[i - 1].t <= from
    ensures Allowed(perMinute, events, key, i, j) * UNIT + Level(perMinute, After(perMinute, events, j), key, to)
            <= Level(perMinute, After(perMinute, events, i), key, from) + (to - from) * perMinute
    decreases j
  {
    hide Level, Next, Answer, Sound;
    if i == j {
      LevelGrowsAtRate(perMinute, After(perMinute, events, i), key, from, to);
    } else {
      var e := events[j - 1];
      SpentIsPaid(perMinute, events, key, i, j - 1, from, e.t);
      AfterSound(perMinute, events, j - 1, e.t);
      EventSpends(perMinute, After(perMinute, events, j - 1), e, key);
      LevelGrowsAtRate(perMinute, After(perMinute, events, j), key, e.t, to);
      SplitSpan(from, e.t, to, perMinute);
    }
  }

  // In any window of any run, a peer is allowed at most the burst plus the rate times the window's length.
  lemma WindowBound(perMinute: nat, events: seq<Event>, key: string, i: nat, j: nat)
    requires perMinute >= 1 && Timed(events) && i < j <= |events|
    ensures Allowed(perMinute, events, key, i, j) * UNIT
            <= perMinute * UNIT + (events[j - 1].t - events[i].t) * perMinute
  {
    SpentIsPaid(perMinute, events, key, i, j, events[i].t, events[j - 1].t);
    AfterSound(perMinute, events, i, events[i].t);
    AfterSound(perMinute, events, j, events[j - 1].t);
    RefillNonNegative(perMinute, After(perMinute, events, i), key, events[i].t);
    RefillNonNegative(perMinute, After(perMinute, events, j), key, events[j - 1].t);
  }

  // ---- the advertised wait is long enough ----

  lemma WaitSuffices(perMinute: nat, level: int)
    requires perMinute >= 1 && 0 <= level < UNIT
    ensures RetryAfter(Wait(perMinute, level)) * SECOND * perMinute >= UNIT - level
    ensures RetryAfter(Wait(perMinute, level)) >= 1
  {
    var q := (UNIT - level) / perMinute;
    var s := RetryAfter(Wait(perMinute, level));
    assert q >= 0;
    assert s * SECOND >= q + 1;
    assert (q + 1) * perMinute >= UNIT - level;
    MulMonotone(q + 1, s * SECOND, perMinute);
  }

  // And no longer than needed: one second less than advertised is at most what the refill takes.
  lemma WaitIsTight(perMinute: nat, level: int)
    requires perMinute >= 1 && 0 <= level < UNIT
    ensures (RetryAfter(Wait(perMinute, level)) - 1) * SECOND * perMinute <= UNIT - level
  {
    var q := (UNIT - level) / perMinute;
    var s := RetryAfter(Wait(perMinute, level));
    assert s * SECOND <= q + SECOND;
    assert q * perMinute <= UNIT - level;
    MulMonotone((s - 1) * SECOND, q, perMinute);
  }

  // Without requests of its own, a peer's level only rises, through other peers' requests and sweeps alike.
  lemma {:induction false} LevelRises(perMinute: nat, events: seq<Event>, key: string, i: nat, j: nat, from: int,
                                      to: int)
    requires perMinute >= 1 && Timed(events) && i <= j <= |events| && from <= to
    requires i < j ==> from <= events[i].t && events[j - 1].t <= to
    requires i > 0 ==> events[i - 1].t <= from
    requires forall k :: i <= k < j ==> !(events[k].Request? && events[k].key == key)
    ensures Level(perMinute, After(perMinute, events, j), key, to)
            == Min(Burst(perMinute), Level(perMinute, After(perMinute, events, i), key, from) + (to - from) * perMinute)
    decreases j
  {
    hide Level, Next, Answer, Sound;
    if i == j {
      RefillLater(perMinute, After(perMinute, events, i), key, from, to);
    } else {
      var e := events[j - 1];
      LevelRises(perMinute, events, key, i, j - 1, from, e.t);
      AfterSound(perMinute, events, j - 1, e.t);
      EventSpends(perMinute, After(perMinute, events, j - 1), e, key);
      RefillLater(perMinute, After(perMinute, events, j), key, e.t, to);
      SplitSpan(from, e.t, to, perMinute);
    }
  }

  lemma RefillLater(perMinute: nat, m: Buckets, key: string, t: int, later: int)
    requires t <= later
    ensures Level(perMinute, m, key, later)
            == Min(Burst(perMinute), Level(perMinute, m, key, t) + (later - t) * perMinute)
  {
    assert (later - t) * perMinute >= 0;
    if key in m {
      assert (later - m[key].last) * perMinute == (t - m[key].last) * perMinute + (later - t) * perMinute;
    }
  }

  // A denied peer that stays silent for the advertised whole seconds is allowed, whatever others did meanwhile.
  lemma RetryIsHonoured(perMinute: nat, events: seq<Event>, i: nat, j: nat)
    requires perMinute >= 1 && Timed(events) && i < j < |events|
    requires events[i].Request? && events[j].Request? && events[i].key == events[j].key
    requires !Answer(perMinute, After(perMinute, events, i), events[i])
    requires forall k :: i < k < j ==> !(events[k].Request? && events[k].key == events[i].key)
    requires var level := Level(perMinute, After(perMinute, events, i), events[i].key, events[i].t);
             events[j].t >= events[i].t + RetryAfter(Wait(perMinute, level)) * SECOND
    ensures Answer(perMinute, After(perMinute, events, j), events[j])
  {
    var key, t, u := events[i].key, events[i].t, events[j].t;
    var level := Level(perMinute, After(perMinute, events, i), key, t);
    AfterSound(perMinute, events, i, t);
    RefillNonNegative(perMinute, After(perMinute, events, i), key, t);
    EventSpends(perMinute, After(perMinute, events, i), events[i], key);
    LevelRises(perMinute, events, key, i + 1, j, t, u);
    WaitSuffices(perMinute, level);
    MulMonotone(RetryAfter(Wait(perMinute, level)) * SECOND, u - t, perMinute);
    assert perMinute * UNIT >= UNIT;
  }

  // ---- the burst is granted ----

  // Requests of one peer among the first n events.
  function Requested(events: seq<Event>, key: string, n: nat): nat
    requires n <= |events|
  {
    if n == 0 then 0
    else Requested(events, key, n - 1) + if events[n - 1].Request? && events[n - 1].key == key then 1 else 0
  }

  lemma {:induction false} LevelAtLeast(perMinute: nat, events: seq<Event>, key: string, n: nat, now: int)
    requires perMinute >= 1 && Timed(events) && n <= |events| && (n > 0 ==> events[n - 1].t <= now)
    ensures Level(perMinute, After(perMinute, events, n), key, now) >= (perMinute - Requested(events, key, n)) * UNIT
    decreases n
  {
    hide Level, Next, Answer, Sound;
    if n == 0 {
      FullWhenUnknown(perMinute, key, now);
    } else {
      var e := events[n - 1];
      var before := After(perMinute, events, n - 1);
      LevelAtLeast(perMinute, events, key, n - 1, e.t);
      AfterSound(perMinute, events, n - 1, e.t);
      EventSpends(perMinute, before, e, key);
      RefillLater(perMinute, After(perMinute, events, n), key, e.t, now);
      MulMonotone(0, now - e.t, perMinute);
      MulMonotone(perMinute - Requested(events, key, n), perMinute, UNIT);
    }
  }

  lemma FullWhenUnknown(perMinute: nat, key: string, now: int)
    ensures Level(perMinute, map[], key, now) == perMinute * UNIT
  {
  }

  // However close together they come, the first requests of a peer are all allowed, as many as a minute's worth.
  lemma BurstIsGranted(perMinute: nat, events: seq<Event>, n: nat)
    requires perMinute >= 1 && Timed(events) && n < |events| && events[n].Request?
    requires Requested(events, events[n].key, n) < perMinute
    ensures Answer(perMinute, After(perMinute, events, n), events[n])
  {
    LevelAtLeast(perMinute, events, events[n].key, n, events[n].t);
    MulMonotone(1, perMinute - Requested(events, events[n].key, n), UNIT);
  }
}
