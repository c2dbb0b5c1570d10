// Scan events, their hourly rollups, and the queries answered from rollups alone.

module Rollups {
  import opened Domain
  import opened Sorting

  // Scan times are whole seconds since 1970-01-01 00:00 UTC, a Thursday. NO_TIME, the start of year one,
  // is the time value nobody set.
  const NO_TIME := -62135596800

  datatype ScanEvent = ScanEvent(
    codeId: string, occurredAt: int, uaFamily: string, device: string, referrerHost: string, isBot: bool)

  datatype RollupKey = RollupKey(codeId: string, hour: int, dim: string, value: string)

  datatype RollupDelta = RollupDelta(key: RollupKey, count: int)

  type Table = map<RollupKey, int>

  const HOUR := 3600
  const DAY := 86400
  const WEEK := 604800

  const TOTAL := "total"
  const UA_FAMILY := "ua_family"
  const DEVICE_CATEGORY := "device_category"
  const REFERRER_HOST := "referrer_host"
  const IS_BOT := "is_bot"

  const DIMENSIONS: set<string> := {TOTAL, UA_FAMILY, DEVICE_CATEGORY, REFERRER_HOST, IS_BOT}

  function HourOf(t: int): (h: int)
    ensures h <= t < h + HOUR && h % HOUR == 0
  {
    t - t % HOUR
  }

  // The value an event contributes to a dimension.
  function ValueIn(ev: ScanEvent, dim: string): string {
    if dim == UA_FAMILY then ev.uaFamily
    else if dim == DEVICE_CATEGORY then ev.device
    else if dim == REFERRER_HOST then ev.referrerHost
    else if dim == IS_BOT then (if ev.isBot then "true" else "false")
    else ""
  }

  function KeyIn(ev: ScanEvent, dim: string): RollupKey {
    RollupKey(ev.codeId, HourOf(ev.occurredAt), dim, ValueIn(ev, dim))
  }

  // The event is one of those the key counts.
  predicate Feeds(ev: ScanEvent, k: RollupKey) { k.dim in DIMENSIONS && KeyIn(ev, k.dim) == k }

  function Count(events: seq<ScanEvent>, k: RollupKey): nat {
    if events == [] then 0
    else Count(events[..|events| - 1], k) + (if Feeds(events[|events| - 1], k) then 1 else 0)
  }

  function Get<K>(m: map<K, int>, k: K): int { if k in m then m[k] else 0 }

  function Add<K>(m: map<K, int>, k: K, n: int): map<K, int> { m[k := Get(m, k) + n] }

  // The table holds, for every key, the number of events it counts, and no other key.
  ghost predicate Counts(t: Table, events: seq<ScanEvent>) {
    && (forall k {:trigger Count(events, k)} :: Get(t, k) == Count(events, k))
    && (forall k {:trigger k in t} :: k in t ==> Count(events, k) > 0)
  }

  // ---- what a key counts, told from the events' own fields ----

  // The event belongs to the code and the hour, and to the value of the dimension.
  ghost predicate FallsUnder(ev: ScanEvent, k: RollupKey) {
    && ev.codeId == k.codeId && ev.occurredAt - ev.occurredAt % 3600 == k.hour
    && ((k.dim == "total" && k.value == "")
        || (k.dim == "ua_family" && k.value == ev.uaFamily)
        || (k.dim == "device_category" && k.value == ev.device)
        || (k.dim == "referrer_host" && k.value == ev.referrerHost)
        || (k.dim == "is_bot" && k.value == (if ev.isBot then "true" else "false")))
  }

  ghost function EventsUnder(events: seq<ScanEvent>, k: RollupKey): nat {
    |set i: nat | i < |events| && FallsUnder(events[i], k)|
  }

  lemma FeedsMeans(ev: ScanEvent, k: RollupKey)
    ensures Feeds(ev, k) <==> FallsUnder(ev, k)
  {
    assert TOTAL != UA_FAMILY && TOTAL != DEVICE_CATEGORY && TOTAL != REFERRER_HOST && TOTAL != IS_BOT;
    assert UA_FAMILY != DEVICE_CATEGORY && UA_FAMILY != REFERRER_HOST && UA_FAMILY != IS_BOT;
    assert DEVICE_CATEGORY != REFERRER_HOST && DEVICE_CATEGORY != IS_BOT && REFERRER_HOST != IS_BOT;
  }

  lemma {:induction false} CountMeans(events: seq<ScanEvent>, k: RollupKey)
    ensures Count(events, k) == EventsUnder(events, k)
    decreases |events|
  {
    hide FallsUnder, Feeds;
    var all := set i: nat | i < |events| && FallsUnder(events[i], k);
    if events == [] {
      assert all == {};
    } else {
      var n := |events| - 1;
      var head := events[..n];
      CountMeans(head, k);
      FeedsMeans(events[n], k);
      var few := set i: nat | i < |head| && FallsUnder(head[i], k);
      assert all == few + if FallsUnder(events[n], k) then {n} else {};
    }
  }

  // ---- counting does not depend on order or grouping ----

  lemma {:induction false} CountConcat(a: seq<ScanEvent>, b: seq<ScanEvent>, k: RollupKey)
    ensures Count(a + b, k) == Count(a, k) + Count(b, k)
    decreases |b|
  {
    if b == [] {
      assert a + b == a;
    } else {
      assert (a + b)[..|a + b| - 1] == a + b[..|b| - 1];
      CountConcat(a, b[..|b| - 1], k);
    }
  }

  lemma {:induction false} CountRemove(events: seq<ScanEvent>, i: nat, k: RollupKey)
    requires i < |events|
    ensures Count(events, k) == Count(events[..i] + events[i + 1..], k) + (if Feeds(events[i], k) then 1 else 0)
  {
    var head, tail := events[..i], events[i + 1..];
    assert events == head + [events[i]] + tail;
    CountConcat(head + [events[i]], tail, k);
    CountConcat(head, [events[i]], k);
    CountConcat(head, tail, k);
    assert [events[i]][..0] == [];
  }

  lemma MultisetWithout<T>(s: seq<T>, i: nat)
    requires i < |s|
    ensures multiset(s[..i] + s[i + 1..]) == multiset(s) - multiset{s[i]}
  {
    assert s == s[..i] + ([s[i]] + s[i + 1..]);
  }

  lemma RestsMatch<T>(a: seq<T>, b: seq<T>, i: nat)
    requires a != [] && multiset(a) == multiset(b) && i < |b| && b[i] == a[|a| - 1]
    ensures multiset(a[..|a| - 1]) == multiset(b[..i] + b[i + 1..])
  {
    MultisetWithout(a, |a| - 1);
    MultisetWithout(b, i);
    assert a[..|a| - 1] + a[|a|..] == a[..|a| - 1];
  }

  lemma {:induction false} CountPermutation(a: seq<ScanEvent>, b: seq<ScanEvent>, k: RollupKey)
    requires multiset(a) == multiset(b)
    ensures Count(a, k) == Count(b, k)
    decreases |a|
  {
    if a == [] {
      MultisetMembers(a, b);
    } else {
      MultisetMembers(a, b);
      assert a[|a| - 1] in b;
      var i: nat :| i < |b| && b[i] == a[|a| - 1];
      RestsMatch(a, b, i);
      CountPermutation(a[..|a| - 1], b[..i] + b[i + 1..], k);
      CountRemove(b, i, k);
    }
  }

  // Two tables that count the same events in any order and any batching are the same table.
  lemma TableIsDetermined(t: Table, u: Table, a: seq<ScanEvent>, b: seq<ScanEvent>)
    requires Counts(t, a) && Counts(u, b) && multiset(a) == multiset(b)
    ensures t == u
  {
    forall k ensures (k in t <==> k in u) && (k in t ==> t[k] == u[k]) {
      CountPermutation(a, b, k);
      assert Get(t, k) == Count(a, k) && Get(u, k) == Count(b, k);
    }
  }

  // ---- building the deltas of one batch ----

  predicate KeyLess(a: RollupKey, b: RollupKey) {
    if a.codeId != b.codeId then Less(a.codeId, b.codeId)
    else if a.hour != b.hour then a.hour < b.hour
    else if a.dim != b.dim then Less(a.dim, b.dim)
    else Less(a.value, b.value)
  }

  predicate DeltaLess(a: RollupDelta, b: RollupDelta) { KeyLess(a.key, b.key) }

  lemma KeyLessTotal(a: RollupKey, b: RollupKey)
    requires a != b
    ensures KeyLess(a, b) || KeyLess(b, a)
  {
    LessTotal(a.codeId, b.codeId);
    LessTotal(a.dim, b.dim);
    LessTotal(a.value, b.value);
  }

  lemma KeyLessTransitive(a: RollupKey, b: RollupKey, c: RollupKey)
    requires KeyLess(a, b) && KeyLess(b, c)
    ensures KeyLess(a, c)
  {
    if Less(a.codeId, b.codeId) && Less(b.codeId, c.codeId) {
      LessTransitive(a.codeId, b.codeId, c.codeId);
    }
    if Less(a.dim, b.dim) && Less(b.dim, c.dim) {
      LessTransitive(a.dim, b.dim, c.dim);
    }
    if Less(a.value, b.value) && Less(b.value, c.value) {
      LessTransitive(a.value, b.value, c.value);
    }
    LessAsymmetric(a.codeId, b.codeId);
    LessAsymmetric(a.dim, b.dim);
  }

  lemma KeyLessIrreflexive(a: RollupKey)
    ensures !KeyLess(a, a)
  {
    LessAsymmetric(a.value, a.value);
  }

  // The deltas of a batch are exactly its counts, one per key that counts anything.
  ghost predicate DeltasCount(deltas: seq<RollupDelta>, events: seq<ScanEvent>) {
    && (forall i {:trigger deltas[i]} :: 0 <= i < |deltas| ==> deltas[i].count == Count(events, deltas[i].key) > 0)
    && (forall k {:trigger Count(events, k)} :: Count(events, k) > 0 ==>
        exists i :: 0 <= i < |deltas| && deltas[i].key == k)
  }

  // One increment on the total and one per breakdown dimension for every event.
  method BuildRollups(events: seq<ScanEvent>) returns (out: seq<RollupDelta>)
    ensures Ascending(DeltaLess, out)
    ensures DeltasCount(out, events)
    ensures forall i :: 0 <= i < |out| ==> out[i].count == EventsUnder(events, out[i].key) > 0
    ensures forall k :: EventsUnder(events, k) > 0 ==> exists i :: 0 <= i < |out| && out[i].key == k
  {
    var counts: Table := map[];
    for i := 0 to |events|
      invariant Counts(counts, events[..i])
    {
      var ev := events[i];
      assert events[..i + 1][..i] == events[..i];
      CountsBump(counts, events[..i], ev);
      counts := Add(counts, KeyIn(ev, TOTAL), 1);
      counts := Add(counts, KeyIn(ev, UA_FAMILY), 1);
      counts := Add(counts, KeyIn(ev, DEVICE_CATEGORY), 1);
      counts := Add(counts, KeyIn(ev, REFERRER_HOST), 1);
      counts := Add(counts, KeyIn(ev, IS_BOT), 1);
      assert events[..i] + [ev] == events[..i + 1];
    }
    assert events[..|events|] == events;
    var rest := counts.Keys;
    out := [];
    while rest != {}
      invariant rest <= counts.Keys
      invariant forall i :: 0 <= i < |out| ==>
                  out[i].key in counts && out[i].key !in rest && out[i].count == counts[out[i].key]
      invariant forall i, j :: 0 <= i < j < |out| ==> out[i].key != out[j].key
      invariant forall k :: k in counts && k !in rest ==> exists i :: 0 <= i < |out| && out[i].key == k
      decreases rest
    {
      var k :| k in rest;
      ghost var before := out;
      out := out + [RollupDelta(k, counts[k])];
      assert forall i :: 0 <= i < |before| ==> out[i] == before[i];
      assert out[|before|].key == k;
      rest := rest - {k};
    }
    assert DeltasCount(out, events);
    DeltasSortable(out);
    ghost var unsorted := out;
    out := Sort(out, DeltaLess);
    SameDeltas(unsorted, out, events);
    DeltasMean(out, events);
  }

  lemma DeltasMean(deltas: seq<RollupDelta>, events: seq<ScanEvent>)
    requires DeltasCount(deltas, events)
    ensures forall i :: 0 <= i < |deltas| ==> deltas[i].count == EventsUnder(events, deltas[i].key) > 0
    ensures forall k :: EventsUnder(events, k) > 0 ==> exists i :: 0 <= i < |deltas| && deltas[i].key == k
  {
    hide EventsUnder;
    forall k ensures Count(events, k) == EventsUnder(events, k) {
      CountMeans(events, k);
    }
  }

  function Bump(t: Table, ev: ScanEvent): Table {
    Add(Add(Add(Add(Add(t, KeyIn(ev, TOTAL), 1), KeyIn(ev, UA_FAMILY), 1), KeyIn(ev, DEVICE_CATEGORY), 1),
            KeyIn(ev, REFERRER_HOST), 1), KeyIn(ev, IS_BOT), 1)
  }

  // The five increments touch exactly the keys the event feeds, once each.
  lemma CountsBump(t: Table, events: seq<ScanEvent>, ev: ScanEvent)
    requires Counts(t, events)
    ensures Counts(Bump(t, ev), events + [ev])
  {
    assert (events + [ev])[..|events|] == events;
    assert TOTAL != UA_FAMILY && TOTAL != DEVICE_CATEGORY && TOTAL != REFERRER_HOST && TOTAL != IS_BOT;
    assert UA_FAMILY != DEVICE_CATEGORY && UA_FAMILY != REFERRER_HOST && UA_FAMILY != IS_BOT;
    assert DEVICE_CATEGORY != REFERRER_HOST && DEVICE_CATEGORY != IS_BOT && REFERRER_HOST != IS_BOT;
    forall k
      ensures Get(Bump(t, ev), k) == Count(events + [ev], k) && (k in Bump(t, ev) ==> Count(events + [ev], k) > 0) {
      assert Get(t, k) == Count(events, k);
      assert Count(events + [ev], k) == Count(events, k) + if Feeds(ev, k) then 1 else 0;
    }
  }

  lemma DeltasSortable(out: seq<RollupDelta>)
    requires forall i, j :: 0 <= i < j < |out| ==> out[i].key != out[j].key
    ensures Total(DeltaLess, out) && Transitive(DeltaLess, out) && Distinct(out)
  {
    forall x, y | x in out && y in out && x != y ensures DeltaLess(x, y) || DeltaLess(y, x) {
      KeyLessTotal(x.key, y.key);
    }
    forall x, y, z | x in out && y in out && z in out && DeltaLess(x, y) && DeltaLess(y, z) ensures DeltaLess(x, z) {
      KeyLessTransitive(x.key, y.key, z.key);
    }
  }

  lemma SameDeltas(a: seq<RollupDelta>, b: seq<RollupDelta>, events: seq<ScanEvent>)
    requires multiset(a) == multiset(b) && DeltasCount(a, events)
    ensures DeltasCount(b, events)
  {
    MultisetMembers(a, b);
    forall i | 0 <= i < |b| ensures b[i].count == Count(events, b[i].key) > 0 {
      assert b[i] in a;
    }
    forall k | Count(events, k) > 0 ensures exists i :: 0 <= i < |b| && b[i].key == k {
      var i :| 0 <= i < |a| && a[i].key == k;
      assert a[i] in b;
    }
  }

  // ---- applying deltas to the stored table ----

  function Apply(t: Table, deltas: seq<RollupDelta>): Table {
    if deltas == [] then t
    else Add(Apply(t, deltas[..|deltas| - 1]), deltas[|deltas| - 1].key, deltas[|deltas| - 1].count)
  }

  // Applying two runs of deltas is applying their concatenation, so flushing in chunks changes nothing.
  lemma {:induction false} ApplyConcat(t: Table, a: seq<RollupDelta>, b: seq<RollupDelta>)
    ensures Apply(Apply(t, a), b) == Apply(t, a + b)
    decreases |b|
  {
    if b == [] {
      assert a + b == a;
    } else {
      assert (a + b)[..|a + b| - 1] == a + b[..|b| - 1];
      ApplyConcat(t, a, b[..|b| - 1]);
    }
  }

  lemma {:induction false} ApplyDistinct(t: Table, deltas: seq<RollupDelta>)
    requires forall i, j :: 0 <= i < j < |deltas| ==> deltas[i].key != deltas[j].key
    ensures forall i :: 0 <= i < |deltas| ==>
              deltas[i].key in Apply(t, deltas)
                && Apply(t, deltas)[deltas[i].key] == Get(t, deltas[i].key) + deltas[i].count
    ensures forall k :: (forall i :: 0 <= i < |deltas| ==> deltas[i].key != k) ==> (k in Apply(t, deltas) <==> k in t)
    ensures forall k :: k in t && (forall i :: 0 <= i < |deltas| ==> deltas[i].key != k) ==> Apply(t, deltas)[k] == t[k]
    decreases |deltas|
  {
    if deltas != [] {
      ApplyDistinct(t, deltas[..|deltas| - 1]);
    }
  }

  // A batch's deltas move the table from counting the old events to counting the old and the new.
  lemma BatchIsCounted(t: Table, old_: seq<ScanEvent>, events: seq<ScanEvent>, deltas: seq<RollupDelta>)
    requires Counts(t, old_) && DeltasCount(deltas, events) && Ascending(DeltaLess, deltas)
    ensures Counts(Apply(t, deltas), old_ + events)
  {
    forall i, j | 0 <= i < j < |deltas| ensures deltas[i].key != deltas[j].key {
      assert DeltaLess(deltas[i], deltas[j]);
      KeyLessIrreflexive(deltas[i].key);
    }
    ApplyDistinct(t, deltas);
    var u := Apply(t, deltas);
    forall k ensures Get(u, k) == Count(old_ + events, k) && (k in u ==> Count(old_ + events, k) > 0) {
      CountConcat(old_, events, k);
      assert Get(t, k) == Count(old_, k);
      if Count(events, k) > 0 {
        var i :| 0 <= i < |deltas| && deltas[i].key == k;
        assert deltas[i].count == Count(events, k);
      } else {
        assert forall i :: 0 <= i < |deltas| ==> deltas[i].key != k;
      }
    }
  }
}
