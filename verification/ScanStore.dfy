// The analytics half of the in-memory store: raw events, rollups, bucketed queries and pruning.

module ScanStores {
  import opened Domain
  import opened Rollups
  import opened Sorting

  datatype ScanRow = ScanRow(seqNo: int, ev: ScanEvent)

  // What a cleared slot of the event list holds.
  const NO_ROW := ScanRow(0, ScanEvent("", NO_TIME, "", "", "", false))

  datatype BatchError = UnknownCode | Malformed

  datatype Bucket = Hourly | Daily | Weekly

  datatype Query = Query(codeId: string, from: int, to: int, bucket: Bucket)

  datatype Answer = Answer(total: int, series: map<int, int>, breakdowns: map<string, map<string, int>>)

  const BREAKDOWNS: set<string> := {UA_FAMILY, DEVICE_CATEGORY, REFERRER_HOST, IS_BOT}

  // ---- buckets ----

  // Weeks start on Monday: day zero was a Thursday.
  function BucketStart(t: int, b: Bucket): int {
    match b
    case Hourly => t - t % HOUR
    case Daily => t - t % DAY
    case Weekly =>
      var d := t - t % DAY;
      var weekday := (d / DAY + 4) % 7;
      var offset := (weekday + 6) % 7;
      d - offset * DAY
  }

  function Length(b: Bucket): int { match b case Hourly => HOUR case Daily => DAY case Weekly => WEEK }

  // The day number of the Monday on or before day n.
  function MondayOf(n: int): int { 7 * ((n + 3) / 7) - 3 }

  lemma BucketStartIs(t: int, b: Bucket)
    ensures b.Hourly? ==> BucketStart(t, b) == HOUR * (t / HOUR)
    ensures b.Daily? ==> BucketStart(t, b) == DAY * (t / DAY)
    ensures b.Weekly? ==> BucketStart(t, b) == DAY * MondayOf(t / DAY)
  {
    if b.Weekly? {
      var n := t / DAY;
      assert t - t % DAY == DAY * n && (DAY * n) / DAY == n;
      OffsetIs(n);
    }
  }

  lemma OffsetIs(n: int)
    ensures ((n + 4) % 7 + 6) % 7 == (n + 3) % 7 == n - MondayOf(n)
  {
    var a, r := (n + 3) / 7, (n + 3) % 7;
    assert n + 4 == 7 * a + r + 1;
    assert (n + 4) % 7 == if r == 6 then 0 else r + 1;
  }

  // A bucket is an aligned interval holding its time; a week's bucket starts on a Monday at midnight.
  lemma BucketHoldsItsTime(t: int, b: Bucket)
    ensures BucketStart(t, b) <= t < BucketStart(t, b) + Length(b)
    ensures b.Weekly? ==> BucketStart(t, b) % DAY == 0 && (BucketStart(t, b) / DAY + 4) % 7 == 1
  {
    hide BucketStart;
    BucketStartIs(t, b);
    if b.Weekly? {
      var m := MondayOf(t / DAY);
      assert (DAY * m) % DAY == 0 && (DAY * m) / DAY == m;
      assert m + 4 == 7 * ((t / DAY + 3) / 7) + 1;
    }
  }

  // Two times of one bucket have one start, so buckets tile time.
  lemma BucketsTile(t: int, u: int, b: Bucket)
    ensures BucketStart(t, b) == BucketStart(u, b) <==> BucketStart(t, b) <= u < BucketStart(t, b) + Length(b)
  {
    hide BucketStart, MondayOf;
    BucketStartIs(t, b);
    BucketStartIs(u, b);
    if b.Weekly? {
      MondaysTile(t / DAY, u / DAY);
    }
  }

  lemma MondaysTile(m: int, n: int)
    ensures MondayOf(m) == MondayOf(n) <==> MondayOf(m) <= n < MondayOf(m) + 7
  {
    assert 7 * ((n + 3) / 7) <= n + 3 < 7 * ((n + 3) / 7) + 7;
  }

  // ---- sums over tables ----

  datatype Part = All | InBucket(bucket: Bucket, start: int) | WithValue(value: string)

  datatype Filter = Filter(codeId: string, from: int, to: int, dim: string, part: Part)

  predicate Matches(f: Filter, k: RollupKey) {
    && k.codeId == f.codeId && f.from <= k.hour < f.to && k.dim == f.dim
    && (f.part.InBucket? ==> BucketStart(k.hour, f.part.bucket) == f.part.start)
    && (f.part.WithValue? ==> k.value == f.part.value)
  }

  ghost function SumWhere(t: Table, f: Filter): int {
    if t == map[] then 0
    else
      var k :| k in t;
      SumWhere(t - {k}, f) + (if Matches(f, k) then t[k] else 0)
  }

  ghost function SumMap<K>(m: map<K, int>): int {
    if m == map[] then 0
    else
      var k :| k in m;
      SumMap(m - {k}) + m[k]
  }

  lemma {:induction false} SumWhereWithout(t: Table, f: Filter, k: RollupKey)
    requires k in t
    ensures SumWhere(t, f) == SumWhere(t - {k}, f) + (if Matches(f, k) then t[k] else 0)
    decreases |t|
  {
    var c :| c in t && SumWhere(t, f) == SumWhere(t - {c}, f) + (if Matches(f, c) then t[c] else 0);
    if c != k {
      assert |t - {c}| < |t| && |t - {k}| < |t| by { Smaller(t, c); Smaller(t, k); }
      SumWhereWithout(t - {c}, f, k);
      SumWhereWithout(t - {k}, f, c);
      assert (t - {c}) - {k} == (t - {k}) - {c};
    }
  }

  lemma Smaller<K, V>(m: map<K, V>, k: K)
    requires k in m
    ensures |m - {k}| < |m|
  {
    assert (m - {k}).Keys == m.Keys - {k};
    assert |m.Keys - {k}| < |m.Keys|;
    assert |(m - {k}).Keys| == |m - {k}|;
  }

  lemma {:induction false} SumMapWithout<K>(m: map<K, int>, k: K)
    requires k in m
    ensures SumMap(m) == SumMap(m - {k}) + m[k]
    decreases |m|
  {
    var c :| c in m && SumMap(m) == SumMap(m - {c}) + m[c];
    if c != k {
      assert |m - {c}| < |m| && |m - {k}| < |m| by { Smaller(m, c); Smaller(m, k); }
      SumMapWithout(m - {c}, k);
      SumMapWithout(m - {k}, c);
      assert (m - {c}) - {k} == (m - {k}) - {c};
    }
  }

  lemma SumWhereAdd(t: Table, f: Filter, k: RollupKey, n: int)
    ensures SumWhere(Add(t, k, n), f) == SumWhere(t, f) + (if Matches(f, k) then n else 0)
  {
    SumWhereWithout(Add(t, k, n), f, k);
    if k in t {
      SumWhereWithout(t, f, k);
      assert Add(t, k, n) - {k} == t - {k};
    } else {
      assert Add(t, k, n) - {k} == t;
    }
  }

  lemma SumMapAdd<K>(m: map<K, int>, k: K, n: int)
    ensures SumMap(Add(m, k, n)) == SumMap(m) + n
  {
    SumMapWithout(Add(m, k, n), k);
    if k in m {
      SumMapWithout(m, k);
      assert Add(m, k, n) - {k} == m - {k};
    } else {
      assert Add(m, k, n) - {k} == m;
    }
  }

  // ---- the same questions asked of the events ----

  ghost function CountWhere(events: seq<ScanEvent>, f: Filter): nat {
    if events == [] then 0
    else CountWhere(events[..|events| - 1], f)
         + (if f.dim in DIMENSIONS && Matches(f, KeyIn(events[|events| - 1], f.dim)) then 1 else 0)
  }

  // The scans of the queried code whose hour is in range.
  ghost function Scans(events: seq<ScanEvent>, q: Query): nat {
    if events == [] then 0
    else
      var ev := events[|events| - 1];
      Scans(events[..|events| - 1], q)
      + (if ev.codeId == q.codeId && q.from <= HourOf(ev.occurredAt) < q.to then 1 else 0)
  }

  ghost function TableOf(events: seq<ScanEvent>): Table {
    if events == [] then map[] else Bump(TableOf(events[..|events| - 1]), events[|events| - 1])
  }

  lemma {:induction false} TableOfCounts(events: seq<ScanEvent>)
    ensures Counts(TableOf(events), events)
    decreases |events|
  {
    if events != [] {
      TableOfCounts(events[..|events| - 1]);
      CountsBump(TableOf(events[..|events| - 1]), events[..|events| - 1], events[|events| - 1]);
      assert events[..|events| - 1] + [events[|events| - 1]] == events;
    }
  }

  lemma SumWhereBump(t: Table, f: Filter, ev: ScanEvent)
    ensures SumWhere(Bump(t, ev), f)
            == SumWhere(t, f) + (if f.dim in DIMENSIONS && Matches(f, KeyIn(ev, f.dim)) then 1 else 0)
  {
    hide SumWhere, Add;
    assert TOTAL != UA_FAMILY && TOTAL != DEVICE_CATEGORY && TOTAL != REFERRER_HOST && TOTAL != IS_BOT;
    assert UA_FAMILY != DEVICE_CATEGORY && UA_FAMILY != REFERRER_HOST && UA_FAMILY != IS_BOT;
    assert DEVICE_CATEGORY != REFERRER_HOST && DEVICE_CATEGORY != IS_BOT && REFERRER_HOST != IS_BOT;
    var t1 := Add(t, KeyIn(ev, TOTAL), 1);
    var t2 := Add(t1, KeyIn(ev, UA_FAMILY), 1);
    var t3 := Add(t2, KeyIn(ev, DEVICE_CATEGORY), 1);
    var t4 := Add(t3, KeyIn(ev, REFERRER_HOST), 1);
    SumWhereAdd(t, f, KeyIn(ev, TOTAL), 1);
    SumWhereAdd(t1, f, KeyIn(ev, UA_FAMILY), 1);
    SumWhereAdd(t2, f, KeyIn(ev, DEVICE_CATEGORY), 1);
    SumWhereAdd(t3, f, KeyIn(ev, REFERRER_HOST), 1);
    SumWhereAdd(t4, f, KeyIn(ev, IS_BOT), 1);
  }

  lemma {:induction false} TableOfSums(events: seq<ScanEvent>, f: Filter)
    ensures SumWhere(TableOf(events), f) == CountWhere(events, f)
    decreases |events|
  {
    if events != [] {
      TableOfSums(events[..|events| - 1], f);
      SumWhereBump(TableOf(events[..|events| - 1]), f, events[|events| - 1]);
    }
  }

  // Whatever batching produced the table, summing it is counting the events.
  lemma SumsCountEvents(t: Table, events: seq<ScanEvent>, f: Filter)
    requires Counts(t, events)
    ensures SumWhere(t, f) == CountWhere(events, f)
  {
    TableOfCounts(events);
    TableIsDetermined(t, TableOf(events), events, events);
    TableOfSums(events, f);
  }

  lemma {:induction false} EveryDimensionCountsAll(events: seq<ScanEvent>, q: Query, dim: string)
    requires dim in DIMENSIONS
    ensures CountWhere(events, Filter(q.codeId, q.from, q.to, dim, All)) == Scans(events, q)
    decreases |events|
  {
    if events != [] {
      EveryDimensionCountsAll(events[..|events| - 1], q, dim);
    }
  }

  function Concat(batches: seq<seq<ScanEvent>>): seq<ScanEvent> {
    if batches == [] then [] else Concat(batches[..|batches| - 1]) + batches[|batches| - 1]
  }

  // However the same events are cut into batches and ordered, the stored table is the same, and with it every
  // answer.
  lemma BatchingIsInvisible(t: Table, u: Table, a: seq<seq<ScanEvent>>, b: seq<seq<ScanEvent>>, f: Filter)
    requires Counts(t, Concat(a)) && Counts(u, Concat(b)) && multiset(Concat(a)) == multiset(Concat(b))
    ensures t == u && SumWhere(t, f) == CountWhere(Concat(b), f)
  {
    TableIsDetermined(t, u, Concat(a), Concat(b));
    SumsCountEvents(u, Concat(b), f);
  }

  // ---- the store ----

  // What the store asks of a batch of the recorder: known codes, and hours that are set.
  predicate Storable(codeIds: set<string>, batch: seq<ScanEvent>) {
    forall i :: 0 <= i < |batch| ==>
      batch[i].codeId in codeIds && batch[i].occurredAt != NO_TIME && HourOf(batch[i].occurredAt) != NO_TIME
  }

  // The batches that reach the store and are taken.
  function Accepted(codeIds: set<string>, batches: seq<seq<ScanEvent>>, up: seq<bool>): seq<seq<ScanEvent>>
    requires |up| == |batches|
  {
    if batches == [] then []
    else
      var n := |batches| - 1;
      Accepted(codeIds, batches[..n], up[..n]) + (if up[n] && Storable(codeIds, batches[n]) then [batches[n]] else [])
  }

  ghost predicate Older(r: ScanRow, before: int) { r.ev.occurredAt < before }

  // Oldest first: by time, then by insertion.
  predicate RowLess(a: ScanRow, b: ScanRow) {
    a.ev.occurredAt < b.ev.occurredAt || (a.ev.occurredAt == b.ev.occurredAt && a.seqNo < b.seqNo)
  }

  function Aligned(d: RollupDelta): RollupDelta { d.(key := d.key.(hour := HourOf(d.key.hour))) }

  function AlignAll(ds: seq<RollupDelta>): (r: seq<RollupDelta>)
    ensures |r| == |ds|
    ensures forall i :: 0 <= i < |ds| ==> r[i] == Aligned(ds[i])
  {
    seq(|ds|, i requires 0 <= i < |ds| => Aligned(ds[i]))
  }

  ghost predicate EventsOk(codeIds: set<string>, evs: seq<ScanEvent>) {
    forall i :: 0 <= i < |evs| ==> evs[i].codeId in codeIds && evs[i].occurredAt != NO_TIME
  }

  ghost predicate DeltasOk(codeIds: set<string>, deltas: seq<RollupDelta>) {
    forall i {:trigger deltas[i]} :: 0 <= i < |deltas| ==>
      deltas[i].key.codeId in codeIds && deltas[i].key.dim != "" && deltas[i].key.hour != NO_TIME
  }

  class ScanStore {
    var codeIds: set<string>
    var events: seq<ScanRow>
    var nextSeq: int
    var rollups: Table

    ghost predicate Valid()
      reads this
    {
      && (forall i, j :: 0 <= i < j < |events| ==> events[i].seqNo < events[j].seqNo)
      && (forall i :: 0 <= i < |events| ==> events[i].seqNo <= nextSeq)
    }

    constructor (codeIds: set<string>)
      ensures Valid() && events == [] && rollups == map[] && this.codeIds == codeIds
    {
      this.codeIds, events, nextSeq, rollups := codeIds, [], 0, map[];
    }

    ghost predicate Persistable(evs: seq<ScanEvent>, deltas: seq<RollupDelta>)
      reads this
    {
      EventsOk(codeIds, evs) && DeltasOk(codeIds, deltas)
    }

    // The validation pass: everything is examined before anything is written.
    method CheckBatch(evs: seq<ScanEvent>, deltas: seq<RollupDelta>) returns (err: Option<BatchError>)
      ensures err.None? <==> Persistable(evs, deltas)
    {
      for i := 0 to |evs|
        invariant forall j :: 0 <= j < i ==> evs[j].codeId in codeIds && evs[j].occurredAt != NO_TIME
      {
        if evs[i].codeId !in codeIds {
          return Some(UnknownCode);
        }
        if evs[i].occurredAt == NO_TIME {
          return Some(Malformed);
        }
      }
      for i := 0 to |deltas|
        invariant forall j {:trigger deltas[j]} :: 0 <= j < i ==>
                    deltas[j].key.codeId in codeIds && deltas[j].key.dim != "" && deltas[j].key.hour != NO_TIME
      {
        if deltas[i].key.codeId !in codeIds {
          return Some(UnknownCode);
        }
        if deltas[i].key.dim == "" || deltas[i].key.hour == NO_TIME {
          return Some(Malformed);
        }
      }
      err := None;
    }

    // Events and deltas land together or not at all.
    method InsertScanBatch(evs: seq<ScanEvent>, deltas: seq<RollupDelta>) returns (err: Option<BatchError>)
      requires Valid()
      modifies `events, `nextSeq, `rollups
      ensures Valid()
      ensures err.None? <==> old(Persistable(evs, deltas))
      ensures err.Some? ==> events == old(events) && rollups == old(rollups)
      ensures err.None? ==> rollups == Apply(old(rollups), AlignAll(deltas))
      ensures err.None? ==> |events| == |old(events)| + |evs| && events[..|old(events)|] == old(events)
      ensures err.None? ==> forall i :: 0 <= i < |evs| ==> events[|old(events)| + i].ev == evs[i]
    {
      err := CheckBatch(evs, deltas);
      if err.Some? {
        return;
      }
      AppendEvents(evs);
      AddDeltas(deltas);
      err := None;
    }

    method AppendEvents(evs: seq<ScanEvent>)
      requires Valid()
      modifies `events, `nextSeq
      ensures Valid()
      ensures |events| == |old(events)| + |evs| && events[..|old(events)|] == old(events)
      ensures forall i :: 0 <= i < |evs| ==> events[|old(events)| + i].ev == evs[i]
    {
      ghost var before := events;
      for i := 0 to |evs|
        invariant Valid()
        invariant |events| == |before| + i && events[..|before|] == before
        invariant forall j :: 0 <= j < i ==> events[|before| + j].ev == evs[j]
      {
        nextSeq := nextSeq + 1;
        events := events + [ScanRow(nextSeq, evs[i])];
      }
    }

    method AddDeltas(deltas: seq<RollupDelta>)
      modifies `rollups
      ensures rollups == Apply(old(rollups), AlignAll(deltas))
    {
      for i := 0 to |deltas|
        invariant rollups == Apply(old(rollups), AlignAll(deltas)[..i])
      {
        var d := Aligned(deltas[i]);
        rollups := Add(rollups, d.key, d.count);
        assert AlignAll(deltas)[..i + 1][..i] == AlignAll(deltas)[..i];
      }
      assert AlignAll(deltas)[..|deltas|] == AlignAll(deltas);
    }

    // The recorder's write of one batch: a table that counts its events goes on counting them.
    method Flush(batch: seq<ScanEvent>, ghost persisted: seq<ScanEvent>) returns (err: Option<BatchError>)
      requires Valid() && Counts(rollups, persisted)
      modifies `events, `nextSeq, `rollups
      ensures Valid()
      ensures err.None? <==> Storable(codeIds, batch)
      ensures err.None? ==> Counts(rollups, persisted + batch) && |events| == |old(events)| + |batch|
      ensures err.Some? ==> rollups == old(rollups) && events == old(events)
    {
      var deltas := BuildRollups(batch);
      DeltasAreAligned(deltas, batch);
      DeltasPersistable(codeIds, batch, deltas);
      err := InsertScanBatch(batch, deltas);
      if err.None? {
        BatchIsCounted(old(rollups), persisted, batch, deltas);
      }
    }

    // The workers' batches one after the other, in whatever order they arrive. A batch the store cannot take, or
    // that does not reach it, is counted as dropped, and the next one follows.
    method FlushAll(batches: seq<seq<ScanEvent>>, up: seq<bool>, ghost persisted: seq<ScanEvent>) returns (dropped: nat)
      requires Valid() && Counts(rollups, persisted) && |up| == |batches|
      modifies `events, `nextSeq, `rollups
      ensures Valid()
      ensures Counts(rollups, persisted + Concat(Accepted(codeIds, batches, up)))
      ensures dropped + |Concat(Accepted(codeIds, batches, up))| == |Concat(batches)|
    {
      hide Counts, Storable, Accepted, Concat;
      dropped := 0;
      NoBatchYet(codeIds);
      assert batches[..0] == [] && up[..0] == [] && persisted + [] == persisted;
      for i := 0 to |batches|
        invariant Valid() && Counts(rollups, persisted + Concat(Accepted(codeIds, batches[..i], up[..i])))
        invariant dropped + |Concat(Accepted(codeIds, batches[..i], up[..i]))| == |Concat(batches[..i])|
      {
        OneMoreBatch(codeIds, batches, up, i);
        ghost var taken := Concat(Accepted(codeIds, batches[..i], up[..i]));
        assert persisted + taken + batches[i] == persisted + (taken + batches[i]) && taken + [] == taken;
        var ok := false;
        if up[i] {
          var err := Flush(batches[i], persisted + taken);
          ok := err.None?;
        }
        if !ok {
          dropped := dropped + |batches[i]|;
        }
      }
      assert batches[..|batches|] == batches && up[..|up|] == up;
    }

    // Rollups only, over hours in [from, to).
    method QueryAnalytics(q: Query) returns (a: Answer)
      ensures AnswersFor(a, rollups, q)
      ensures a.total == SumMap(a.series) == SumWhere(rollups, Filter(q.codeId, q.from, q.to, TOTAL, All))
      ensures forall b ::
                Get(a.series, b) == SumWhere(rollups, Filter(q.codeId, q.from, q.to, TOTAL, InBucket(q.bucket, b)))
      ensures forall dim :: dim in BREAKDOWNS ==> dim in a.breakdowns
      ensures forall dim :: dim in a.breakdowns && dim != TOTAL ==>
                SumMap(a.breakdowns[dim]) == SumWhere(rollups, Filter(q.codeId, q.from, q.to, dim, All))
      ensures forall dim, v :: dim in a.breakdowns && dim != TOTAL ==>
                Get(a.breakdowns[dim], v) == SumWhere(rollups, Filter(q.codeId, q.from, q.to, dim, WithValue(v)))
    {
      a := Answer(0, map[], map[UA_FAMILY := map[], DEVICE_CATEGORY := map[], REFERRER_HOST := map[], IS_BOT := map[]]);
      ghost var done: Table := map[];
      var rest := rollups.Keys;
      assert AnswersFor(a, done, q);
      while rest != {}
        invariant rest <= rollups.Keys && done.Keys == rollups.Keys - rest
        invariant forall k :: k in done ==> done[k] == rollups[k]
        invariant AnswersFor(a, done, q)
        decreases rest
      {
        var k :| k in rest;
        AddRowKeeps(a, done, q, k, rollups[k]);
        a := AddRow(a, q, k, rollups[k]);
        done := Add(done, k, rollups[k]);
        rest := rest - {k};
      }
      assert done == rollups;
      AnswersMean(a, done, q);
    }

    // The rows a prune removes: the oldest of those before the cutoff, at most limit of them.
    method OldestFirst(before: int, limit: nat) returns (victims: seq<ScanRow>, sorted: seq<ScanRow>)
      requires Valid()
      ensures Ascending(RowLess, sorted) && Distinct(sorted)
      ensures forall r :: r in sorted <==> r in events && Older(r, before)
      ensures |sorted| == OldCount(events, before)
      ensures victims == if |sorted| > limit then sorted[..limit] else sorted
    {
      var rows := [];
      for i := 0 to |events|
        invariant |rows| == OldCount(events[..i], before) <= i
        invariant forall r :: r in rows <==> r in events[..i] && Older(r, before)
        invariant Distinct(rows)
      {
        assert events[..i + 1][..i] == events[..i];
        if events[i].ev.occurredAt < before {
          rows := rows + [events[i]];
        }
      }
      assert events[..|events|] == events;
      RowsSortable(events, rows);
      victims := Sort(rows, RowLess);
      MultisetMembers(victims, rows);
      sorted := victims;
      AscendingRowsDistinct(sorted);
      if |victims| > limit {
        victims := victims[..limit];
      }
    }

    // Deletes at most limit events older than the cutoff, oldest first; rollups are untouched.
    method PruneScanEvents(before: int, limit: int) returns (n: nat)
      requires Valid()
      modifies `events
      ensures Valid()
      ensures n == if limit <= 0 then 0
                   else if limit < OldCount(old(events), before) then limit else OldCount(old(events), before)
      ensures |events| == |old(events)| - n
      ensures exists victims: set<int> :: Pruned(old(events), events, before, victims)
      ensures forall r :: r in events ==> r in old(events)
      ensures forall r, s :: r in old(events) && r !in events && s in events ==>
                && r.ev.occurredAt < before
                && (r.ev.occurredAt < s.ev.occurredAt || (r.ev.occurredAt == s.ev.occurredAt && r.seqNo < s.seqNo))
    {
      hide Ascending, Distinct, Keep, OldCount, RowLess, Numbers;
      ghost var start := events;
      if limit <= 0 {
        NothingPruned(events, before);
        return 0;
      }
      var victims, sorted := OldestFirst(before, limit);
      var drop := Numbers(victims);
      assert victims == sorted[..|victims|];
      VictimsAreOldest(start, sorted, |victims|, before, drop);
      PrefixDistinct(sorted, |victims|);
      KeepLength(start, victims);
      KeepOrder(start, drop, nextSeq);
      var backing := new ScanRow[|events|](i requires 0 <= i < |events| reads this => events[i]);
      assert backing[..] == events;
      var kept := CompactInPlace(backing, drop);
      events := backing[..kept];
      n := |victims|;
      assert Pruned(start, events, before, drop);
      PrunedMeans(start, events, before, drop, nextSeq);
    }
  }

  // The list filtered over its own backing array: kept rows move to the front, never past a row still to be
  // read, and what is left behind them is cleared.
  method CompactInPlace(a: array<ScanRow>, drop: set<int>) returns (n: nat)
    modifies a
    ensures n <= a.Length && a[..n] == Keep(old(a[..]), drop)
    ensures forall i :: n <= i < a.Length ==> a[i] == NO_ROW
  {
    ghost var rows := a[..];
    n := 0;
    for i := 0 to a.Length
      invariant n <= i && a[..n] == Keep(rows[..i], drop)
      invariant a[i..] == rows[i..]
    {
      assert rows[..i + 1][..i] == rows[..i] && a[i] == rows[i];
      if a[i].seqNo !in drop {
        a[n] := a[i];
        n := n + 1;
      }
    }
    assert rows[..a.Length] == rows;
    for i := n to a.Length
      invariant a[..n] == Keep(rows, drop)
      invariant forall j :: n <= j < i ==> a[j] == NO_ROW
    {
      a[i] := NO_ROW;
    }
  }

  lemma NoBatchYet(codeIds: set<string>)
    ensures Concat(Accepted(codeIds, [], [])) == [] && Concat([]) == []
  {
  }

  lemma OneMoreBatch(codeIds: set<string>, batches: seq<seq<ScanEvent>>, up: seq<bool>, i: nat)
    requires |up| == |batches| && i < |batches|
    ensures Concat(batches[..i + 1]) == Concat(batches[..i]) + batches[i]
    ensures Concat(Accepted(codeIds, batches[..i + 1], up[..i + 1]))
            == Concat(Accepted(codeIds, batches[..i], up[..i]))
               + if up[i] && Storable(codeIds, batches[i]) then batches[i] else []
  {
    hide Storable;
    assert batches[..i + 1][..i] == batches[..i] && up[..i + 1][..i] == up[..i];
    var taken := Accepted(codeIds, batches[..i], up[..i]);
    assert (taken + [batches[i]])[..|taken|] == taken && taken + [] == taken;
  }

  lemma PrefixDistinct(rows: seq<ScanRow>, n: nat)
    requires Distinct(rows) && n <= |rows|
    ensures Distinct(rows[..n]) && forall r :: r in rows[..n] ==> r in rows
  {
  }

  lemma DeltasAreAligned(deltas: seq<RollupDelta>, batch: seq<ScanEvent>)
    requires DeltasCount(deltas, batch)
    ensures AlignAll(deltas) == deltas
  {
    forall i | 0 <= i < |deltas| ensures Aligned(deltas[i]) == deltas[i] {
      assert Count(batch, deltas[i].key) > 0;
      CountedHourIsAligned(batch, deltas[i].key);
    }
  }

  // The deltas of a batch are refused only for what is wrong with one of its events.
  lemma DeltasPersistable(codeIds: set<string>, batch: seq<ScanEvent>, deltas: seq<RollupDelta>)
    requires DeltasCount(deltas, batch)
    ensures Storable(codeIds, batch) <==> EventsOk(codeIds, batch) && DeltasOk(codeIds, deltas)
  {
    hide HourOf, ValueIn;
    if Storable(codeIds, batch) {
      forall i {:trigger deltas[i]} | 0 <= i < |deltas|
        ensures deltas[i].key.codeId in codeIds && deltas[i].key.dim != "" && deltas[i].key.hour != NO_TIME {
        var j := FeederOf(batch, deltas[i].key);
        assert KeyIn(batch[j], deltas[i].key.dim) == deltas[i].key;
      }
    }
    if DeltasOk(codeIds, deltas) {
      forall j | 0 <= j < |batch| ensures HourOf(batch[j].occurredAt) != NO_TIME {
        CountedWhenFed(batch, j, KeyIn(batch[j], TOTAL));
        var i :| 0 <= i < |deltas| && deltas[i].key == KeyIn(batch[j], TOTAL);
      }
    }
  }

  lemma {:induction false} FeederOf(batch: seq<ScanEvent>, k: RollupKey) returns (j: nat)
    requires Count(batch, k) > 0
    ensures j < |batch| && Feeds(batch[j], k)
    decreases |batch|
  {
    hide Feeds;
    if Feeds(batch[|batch| - 1], k) {
      j := |batch| - 1;
    } else {
      j := FeederOf(batch[..|batch| - 1], k);
    }
  }

  lemma {:induction false} CountedWhenFed(batch: seq<ScanEvent>, j: nat, k: RollupKey)
    requires j < |batch| && Feeds(batch[j], k)
    ensures Count(batch, k) > 0
    decreases |batch|
  {
    hide Feeds;
    if j < |batch| - 1 {
      CountedWhenFed(batch[..|batch| - 1], j, k);
    }
  }

  lemma {:induction false} CountedHourIsAligned(events: seq<ScanEvent>, k: RollupKey)
    requires Count(events, k) > 0
    ensures HourOf(k.hour) == k.hour
    decreases |events|
  {
    if !Feeds(events[|events| - 1], k) {
      CountedHourIsAligned(events[..|events| - 1], k);
    }
  }

  // ---- the aggregator ----

  // One rollup row folded into the answer, as the aggregator folds it.
  function AddRow(a: Answer, q: Query, k: RollupKey, n: int): Answer {
    if k.codeId != q.codeId || k.hour < q.from || k.hour >= q.to then a
    else if k.dim == TOTAL then
      a.(total := a.total + n, series := Add(a.series, BucketStart(k.hour, q.bucket), n))
    else
      var values := if k.dim in a.breakdowns then a.breakdowns[k.dim] else map[];
      a.(breakdowns := a.breakdowns[k.dim := Add(values, k.value, n)])
  }

  function Values(a: Answer, dim: string): map<string, int> {
    if dim in a.breakdowns then a.breakdowns[dim] else map[]
  }

  ghost predicate SeriesFor(a: Answer, t: Table, q: Query, b: int) {
    Get(a.series, b) == SumWhere(t, Filter(q.codeId, q.from, q.to, TOTAL, InBucket(q.bucket, b)))
  }

  ghost predicate ValueFor(a: Answer, t: Table, q: Query, dim: string, v: string) {
    dim != TOTAL ==> Get(Values(a, dim), v) == SumWhere(t, Filter(q.codeId, q.from, q.to, dim, WithValue(v)))
  }

  ghost predicate BreakdownFor(a: Answer, t: Table, q: Query, dim: string) {
    dim != TOTAL ==> SumMap(Values(a, dim)) == SumWhere(t, Filter(q.codeId, q.from, q.to, dim, All))
  }

  ghost predicate AnswersFor(a: Answer, t: Table, q: Query) {
    && a.total == SumMap(a.series) == SumWhere(t, Filter(q.codeId, q.from, q.to, TOTAL, All))
    && BREAKDOWNS <= a.breakdowns.Keys
    && (forall b :: SeriesFor(a, t, q, b))
    && (forall dim, v :: ValueFor(a, t, q, dim, v))
    && (forall dim :: BreakdownFor(a, t, q, dim))
  }

  lemma AddRowKeeps(a: Answer, t: Table, q: Query, k: RollupKey, n: int)
    requires AnswersFor(a, t, q)
    ensures AnswersFor(AddRow(a, q, k, n), Add(t, k, n), q)
  {
    hide SumWhere, SumMap, BucketStart;
    var a', t' := AddRow(a, q, k, n), Add(t, k, n);
    SumWhereAdd(t, Filter(q.codeId, q.from, q.to, TOTAL, All), k, n);
    SumMapAdd(a.series, BucketStart(k.hour, q.bucket), n);
    SumMapAdd(Values(a, k.dim), k.value, n);
    forall b ensures SeriesFor(a', t', q, b) {
      assert SeriesFor(a, t, q, b);
      SumWhereAdd(t, Filter(q.codeId, q.from, q.to, TOTAL, InBucket(q.bucket, b)), k, n);
    }
    forall dim, v ensures ValueFor(a', t', q, dim, v) {
      assert ValueFor(a, t, q, dim, v);
      SumWhereAdd(t, Filter(q.codeId, q.from, q.to, dim, WithValue(v)), k, n);
    }
    forall dim ensures BreakdownFor(a', t', q, dim) {
      assert BreakdownFor(a, t, q, dim);
      SumWhereAdd(t, Filter(q.codeId, q.from, q.to, dim, All), k, n);
    }
  }

  lemma AnswersMean(a: Answer, t: Table, q: Query)
    requires AnswersFor(a, t, q)
    ensures forall b :: Get(a.series, b) == SumWhere(t, Filter(q.codeId, q.from, q.to, TOTAL, InBucket(q.bucket, b)))
    ensures forall dim :: dim in a.breakdowns && dim != TOTAL ==>
              SumMap(a.breakdowns[dim]) == SumWhere(t, Filter(q.codeId, q.from, q.to, dim, All))
    ensures forall dim, v :: dim in a.breakdowns && dim != TOTAL ==>
              Get(a.breakdowns[dim], v) == SumWhere(t, Filter(q.codeId, q.from, q.to, dim, WithValue(v)))
  {
    forall b ensures Get(a.series, b) == SumWhere(t, Filter(q.codeId, q.from, q.to, TOTAL, InBucket(q.bucket, b))) {
      assert SeriesFor(a, t, q, b);
    }
    forall dim | dim in a.breakdowns && dim != TOTAL
      ensures SumMap(a.breakdowns[dim]) == SumWhere(t, Filter(q.codeId, q.from, q.to, dim, All)) {
      assert BreakdownFor(a, t, q, dim);
    }
    forall dim, v | dim in a.breakdowns && dim != TOTAL
      ensures Get(a.breakdowns[dim], v) == SumWhere(t, Filter(q.codeId, q.from, q.to, dim, WithValue(v))) {
      assert ValueFor(a, t, q, dim, v);
    }
  }

  // When the table counts the persisted events, the total, the series and every breakdown add up to the
  // number of scans in range, for every bucket size.
  lemma EveryAnswerAddsUp(a: Answer, t: Table, events: seq<ScanEvent>, q: Query)
    requires Counts(t, events) && AnswersFor(a, t, q)
    ensures a.total == Scans(events, q) == SumMap(a.series)
    ensures forall dim :: dim in BREAKDOWNS ==> dim in a.breakdowns && SumMap(a.breakdowns[dim]) == Scans(events, q)
    ensures forall b ::
              Get(a.series, b) == CountWhere(events, Filter(q.codeId, q.from, q.to, TOTAL, InBucket(q.bucket, b)))
  {
    SumsCountEvents(t, events, Filter(q.codeId, q.from, q.to, TOTAL, All));
    EveryDimensionCountsAll(events, q, TOTAL);
    forall dim | dim in BREAKDOWNS ensures SumMap(a.breakdowns[dim]) == Scans(events, q) {
      assert BreakdownFor(a, t, q, dim) && dim != TOTAL;
      SumsCountEvents(t, events, Filter(q.codeId, q.from, q.to, dim, All));
      EveryDimensionCountsAll(events, q, dim);
    }
    forall b
      ensures Get(a.series, b) == CountWhere(events, Filter(q.codeId, q.from, q.to, TOTAL, InBucket(q.bucket, b))) {
      assert SeriesFor(a, t, q, b);
      SumsCountEvents(t, events, Filter(q.codeId, q.from, q.to, TOTAL, InBucket(q.bucket, b)));
    }
  }

  ghost predicate InRange(ev: ScanEvent, q: Query) {
    ev.codeId == q.codeId && q.from <= ev.occurredAt - ev.occurredAt % 3600 < q.to
  }

  ghost predicate Hits(ev: ScanEvent, f: Filter) { f.dim in DIMENSIONS && Matches(f, KeyIn(ev, f.dim)) }

  lemma {:induction false} CountWhereMeans(events: seq<ScanEvent>, f: Filter)
    ensures CountWhere(events, f) == |set i: nat | i < |events| && Hits(events[i], f)|
    decreases |events|
  {
    hide Matches, KeyIn;
    var all := set i: nat | i < |events| && Hits(events[i], f);
    if events == [] {
      assert all == {};
    } else {
      var n := |events| - 1;
      var head := events[..n];
      CountWhereMeans(head, f);
      var few := set i: nat | i < |head| && Hits(head[i], f);
      assert all == few + if Hits(events[n], f) then {n} else {};
    }
  }

  lemma HitsMeans(ev: ScanEvent, q: Query, v: string, b: int)
    ensures Hits(ev, Filter(q.codeId, q.from, q.to, TOTAL, All)) <==> InRange(ev, q)
    ensures Hits(ev, Filter(q.codeId, q.from, q.to, TOTAL, InBucket(q.bucket, b)))
            <==> InRange(ev, q) && BucketStart(ev.occurredAt - ev.occurredAt % 3600, q.bucket) == b
    ensures Hits(ev, Filter(q.codeId, q.from, q.to, "ua_family", WithValue(v))) <==> InRange(ev, q) && ev.uaFamily == v
    ensures Hits(ev, Filter(q.codeId, q.from, q.to, "device_category", WithValue(v)))
            <==> InRange(ev, q) && ev.device == v
    ensures Hits(ev, Filter(q.codeId, q.from, q.to, "referrer_host", WithValue(v)))
            <==> InRange(ev, q) && ev.referrerHost == v
    ensures Hits(ev, Filter(q.codeId, q.from, q.to, "is_bot", WithValue(v)))
            <==> InRange(ev, q) && v == if ev.isBot then "true" else "false"
  {
    hide BucketStart;
    assert TOTAL != UA_FAMILY && TOTAL != DEVICE_CATEGORY && TOTAL != REFERRER_HOST && TOTAL != IS_BOT;
    assert UA_FAMILY != DEVICE_CATEGORY && UA_FAMILY != REFERRER_HOST && UA_FAMILY != IS_BOT;
    assert DEVICE_CATEGORY != REFERRER_HOST && DEVICE_CATEGORY != IS_BOT && REFERRER_HOST != IS_BOT;
  }

  // Each number of an answer counts persisted events by their own fields: the total those in range, a point of the
  // series those of its bucket, an entry of a breakdown those with its value in the field the breakdown is named for.
  lemma EveryNumberCountsItsField(a: Answer, t: Table, events: seq<ScanEvent>, q: Query, v: string, b: int)
    requires Counts(t, events) && AnswersFor(a, t, q)
    ensures {"ua_family", "device_category", "referrer_host", "is_bot"} <= a.breakdowns.Keys
    ensures a.total == |set i: nat | i < |events| && InRange(events[i], q)|
    ensures Get(a.series, b)
            == |set i: nat | i < |events| && InRange(events[i], q)
                             && BucketStart(events[i].occurredAt - events[i].occurredAt % 3600, q.bucket) == b|
    ensures Get(a.breakdowns["ua_family"], v)
            == |set i: nat | i < |events| && InRange(events[i], q) && events[i].uaFamily == v|
    ensures Get(a.breakdowns["device_category"], v)
            == |set i: nat | i < |events| && InRange(events[i], q) && events[i].device == v|
    ensures Get(a.breakdowns["referrer_host"], v)
            == |set i: nat | i < |events| && InRange(events[i], q) && events[i].referrerHost == v|
    ensures Get(a.breakdowns["is_bot"], v)
            == |set i: nat | i < |events| && InRange(events[i], q) && v == if events[i].isBot then "true" else "false"|
  {
    assert SeriesFor(a, t, q, b) && ValueFor(a, t, q, "ua_family", v) && ValueFor(a, t, q, "device_category", v);
    assert ValueFor(a, t, q, "referrer_host", v) && ValueFor(a, t, q, "is_bot", v);
    HitsOf(t, events, Filter(q.codeId, q.from, q.to, TOTAL, All));
    HitsOf(t, events, Filter(q.codeId, q.from, q.to, TOTAL, InBucket(q.bucket, b)));
    HitsOf(t, events, Filter(q.codeId, q.from, q.to, "ua_family", WithValue(v)));
    HitsOf(t, events, Filter(q.codeId, q.from, q.to, "device_category", WithValue(v)));
    HitsOf(t, events, Filter(q.codeId, q.from, q.to, "referrer_host", WithValue(v)));
    HitsOf(t, events, Filter(q.codeId, q.from, q.to, "is_bot", WithValue(v)));
    hide Hits, InRange, BucketStart, SumWhere, SumMap, Counts;
    HitSetsAre(events, q, v, b);
  }

  lemma HitsOf(t: Table, events: seq<ScanEvent>, f: Filter)
    requires Counts(t, events)
    ensures SumWhere(t, f) == |set i: nat | i < |events| && Hits(events[i], f)|
  {
    hide Hits, SumWhere;
    SumsCountEvents(t, events, f);
    CountWhereMeans(events, f);
  }

  lemma HitSetsAre(events: seq<ScanEvent>, q: Query, v: string, b: int)
    ensures (set i: nat | i < |events| && Hits(events[i], Filter(q.codeId, q.from, q.to, TOTAL, All)))
            == set i: nat | i < |events| && InRange(events[i], q)
    ensures (set i: nat | i < |events| && Hits(events[i], Filter(q.codeId, q.from, q.to, TOTAL, InBucket(q.bucket, b))))
            == set i: nat | i < |events| && InRange(events[i], q)
                            && BucketStart(events[i].occurredAt - events[i].occurredAt % 3600, q.bucket) == b
    ensures (set i: nat | i < |events| && Hits(events[i], Filter(q.codeId, q.from, q.to, "ua_family", WithValue(v))))
            == set i: nat | i < |events| && InRange(events[i], q) && events[i].uaFamily == v
    ensures (set i: nat
              | i < |events| && Hits(events[i], Filter(q.codeId, q.from, q.to, "device_category", WithValue(v))))
            == set i: nat | i < |events| && InRange(events[i], q) && events[i].device == v
    ensures (set i: nat
              | i < |events| && Hits(events[i], Filter(q.codeId, q.from, q.to, "referrer_host", WithValue(v))))
            == set i: nat | i < |events| && InRange(events[i], q) && events[i].referrerHost == v
    ensures (set i: nat | i < |events| && Hits(events[i], Filter(q.codeId, q.from, q.to, "is_bot", WithValue(v))))
            == set i: nat | i < |events| && InRange(events[i], q) && v == if events[i].isBot then "true" else "false"
  {
    hide Hits, InRange, BucketStart;
    forall i: nat | i < |events|
      ensures Hits(events[i], Filter(q.codeId, q.from, q.to, TOTAL, All)) <==> InRange(events[i], q)
      ensures Hits(events[i], Filter(q.codeId, q.from, q.to, TOTAL, InBucket(q.bucket, b)))
              <==> InRange(events[i], q)
                   && BucketStart(events[i].occurredAt - events[i].occurredAt % 3600, q.bucket) == b
      ensures Hits(events[i], Filter(q.codeId, q.from, q.to, "ua_family", WithValue(v)))
              <==> InRange(events[i], q) && events[i].uaFamily == v
      ensures Hits(events[i], Filter(q.codeId, q.from, q.to, "device_category", WithValue(v)))
              <==> InRange(events[i], q) && events[i].device == v
      ensures Hits(events[i], Filter(q.codeId, q.from, q.to, "referrer_host", WithValue(v)))
              <==> InRange(events[i], q) && events[i].referrerHost == v
      ensures Hits(events[i], Filter(q.codeId, q.from, q.to, "is_bot", WithValue(v)))
              <==> InRange(events[i], q) && v == if events[i].isBot then "true" else "false" {
      HitsMeans(events[i], q, v, b);
    }
  }

  // ---- pruning ----

  ghost function OldCount(rows: seq<ScanRow>, before: int): nat {
    if rows == [] then 0
    else OldCount(rows[..|rows| - 1], before) + (if Older(rows[|rows| - 1], before) then 1 else 0)
  }

  // The rows left when those with the dropped numbers go, in their old order.
  function Keep(rows: seq<ScanRow>, drop: set<int>): seq<ScanRow> {
    if rows == [] then []
    else Keep(rows[..|rows| - 1], drop) + (if rows[|rows| - 1].seqNo in drop then [] else [rows[|rows| - 1]])
  }

  // The victims were old, every surviving old row is younger than every victim, and the rest stays in order.
  ghost predicate Pruned(start: seq<ScanRow>, end: seq<ScanRow>, before: int, drop: set<int>) {
    && end == Keep(start, drop)
    && (forall r :: r in start && r.seqNo in drop ==> Older(r, before))
    && (forall r, s :: r in start && r.seqNo in drop && s in start && s.seqNo !in drop ==> RowLess(r, s))
  }

  lemma PrunedMeans(start: seq<ScanRow>, end: seq<ScanRow>, before: int, drop: set<int>, top: int)
    requires Numbered(start) && (forall i :: 0 <= i < |start| ==> start[i].seqNo <= top)
    requires Pruned(start, end, before, drop)
    ensures forall r :: r in end ==> r in start
    ensures forall r, s :: r in start && r !in end && s in end ==>
              && r.ev.occurredAt < before
              && (r.ev.occurredAt < s.ev.occurredAt || (r.ev.occurredAt == s.ev.occurredAt && r.seqNo < s.seqNo))
  {
    hide Keep;
    KeepOrder(start, drop, top);
  }

  lemma {:induction false} KeepNone(rows: seq<ScanRow>)
    ensures Keep(rows, {}) == rows
    decreases |rows|
  {
    if rows != [] {
      KeepNone(rows[..|rows| - 1]);
    }
  }

  lemma NothingPruned(rows: seq<ScanRow>, before: int)
    ensures Pruned(rows, rows, before, {})
  {
    KeepNone(rows);
  }

  ghost predicate Numbered(rows: seq<ScanRow>) { forall i, j :: 0 <= i < j < |rows| ==> rows[i].seqNo < rows[j].seqNo }

  lemma RowsSortable(rows: seq<ScanRow>, some: seq<ScanRow>)
    requires Numbered(rows) && (forall r :: r in some ==> r in rows)
    ensures Total(RowLess, some) && Transitive(RowLess, some)
  {
    forall x, y | x in some && y in some && x != y ensures RowLess(x, y) || RowLess(y, x) {
      var i :| 0 <= i < |rows| && rows[i] == x;
      var j :| 0 <= j < |rows| && rows[j] == y;
    }
  }

  lemma FirstIsMember(rows: seq<ScanRow>)
    requires rows != []
    ensures exists r :: r in rows
  {
    assert rows[0] in rows;
  }

  lemma AscendingRowsDistinct(rows: seq<ScanRow>)
    requires Ascending(RowLess, rows)
    ensures Distinct(rows)
  {
    forall i, j | 0 <= i < j < |rows| ensures rows[i] != rows[j] {
      assert RowLess(rows[i], rows[j]);
    }
  }

  lemma VictimsAreOldest(rows: seq<ScanRow>, sorted: seq<ScanRow>, n: nat, before: int, drop: set<int>)
    requires Numbered(rows) && n <= |sorted| && Ascending(RowLess, sorted)
    requires forall r :: r in sorted <==> r in rows && Older(r, before)
    requires drop == Numbers(sorted[..n])
    ensures forall r :: r in rows && r.seqNo in drop ==> r in sorted[..n] && Older(r, before)
    ensures forall r, s :: r in rows && r.seqNo in drop && s in rows && s.seqNo !in drop ==> RowLess(r, s)
  {
    forall r | r in rows && r.seqNo in drop ensures r in sorted[..n] && Older(r, before) {
      var v :| v in sorted[..n] && v.seqNo == r.seqNo;
      assert v in sorted;
      var i :| 0 <= i < |rows| && rows[i] == v;
      var j :| 0 <= j < |rows| && rows[j] == r;
    }
    assert forall j :: 0 <= j < n ==> sorted[..n][j] in sorted[..n] && sorted[j].seqNo in drop;
    forall r, s | r in rows && r.seqNo in drop && s in rows && s.seqNo !in drop ensures RowLess(r, s) {
      var i :| 0 <= i < n && sorted[i] == r;
      if Older(s, before) {
        var j :| 0 <= j < |sorted| && sorted[j] == s;
        assert j >= n;
      }
    }
  }

  lemma {:induction false} KeepOrder(rows: seq<ScanRow>, drop: set<int>, top: int)
    requires Numbered(rows) && (forall i :: 0 <= i < |rows| ==> rows[i].seqNo <= top)
    ensures Numbered(Keep(rows, drop))
    ensures forall r :: r in Keep(rows, drop) <==> r in rows && r.seqNo !in drop
    decreases |rows|
  {
    if rows != [] {
      var init := rows[..|rows| - 1];
      KeepOrder(init, drop, top);
      var k := Keep(init, drop);
      assert forall i :: 0 <= i < |k| ==> k[i] in init;
      assert forall r :: r in rows <==> r in init || r == rows[|rows| - 1];
    }
  }

  function Numbers(rows: seq<ScanRow>): set<int> { set r | r in rows :: r.seqNo }

  lemma NumberIdentifies(rows: seq<ScanRow>, r: ScanRow, s: ScanRow)
    requires Numbered(rows) && r in rows && s in rows && r.seqNo == s.seqNo
    ensures r == s
  {
    var i :| 0 <= i < |rows| && rows[i] == r;
    var j :| 0 <= j < |rows| && rows[j] == s;
  }

  // Taking one of the distinct victims out of the list takes its number out of the drop set.
  lemma WithoutVictim(victims: seq<ScanRow>, i: nat)
    requires i < |victims| && Distinct(victims)
    ensures var rest := victims[..i] + victims[i + 1..];
            && Distinct(rest)
            && (forall r :: r in rest ==> r in victims && r != victims[i])
            && Numbers(victims) == Numbers(rest) + {victims[i].seqNo}
  {
    var rest := victims[..i] + victims[i + 1..];
    assert forall r :: r in victims <==> r == victims[i] || r in rest by {
      assert victims == victims[..i] + [victims[i]] + victims[i + 1..];
    }
  }

  // Distinct victims, all present: as many rows go as there are victims.
  lemma {:induction false} KeepLength(rows: seq<ScanRow>, victims: seq<ScanRow>)
    requires Numbered(rows) && Distinct(victims) && (forall r :: r in victims ==> r in rows)
    ensures |Keep(rows, Numbers(victims))| == |rows| - |victims|
    decreases |rows|
  {
    hide Numbers;
    if rows == [] {
      NoVictims(victims, rows);
    } else {
      var last, init := rows[|rows| - 1], rows[..|rows| - 1];
      if last in victims {
        var i: nat :| i < |victims| && victims[i] == last;
        var rest := victims[..i] + victims[i + 1..];
        VictimsInFront(rows, victims, i);
        KeepLength(init, rest);
        KeepIgnores(init, Numbers(rest), last.seqNo);
      } else {
        VictimsAreEarlier(rows, victims);
        KeepLength(init, victims);
      }
    }
  }

  lemma NoVictims(victims: seq<ScanRow>, rows: seq<ScanRow>)
    requires rows == [] && forall r :: r in victims ==> r in rows
    ensures victims == []
  {
    if victims != [] {
      FirstIsMember(victims);
    }
  }

  lemma VictimsInFront(rows: seq<ScanRow>, victims: seq<ScanRow>, i: nat)
    requires Numbered(rows) && Distinct(victims) && (forall r :: r in victims ==> r in rows)
    requires rows != [] && i < |victims| && victims[i] == rows[|rows| - 1]
    ensures var rest, init := victims[..i] + victims[i + 1..], rows[..|rows| - 1];
            && Distinct(rest) && (forall r :: r in rest ==> r in init)
            && Numbers(victims) == Numbers(rest) + {victims[i].seqNo} && victims[i].seqNo in Numbers(victims)
  {
    hide Numbers;
    WithoutVictim(victims, i);
    assert forall r :: r in rows <==> r in rows[..|rows| - 1] || r == rows[|rows| - 1];
  }

  lemma VictimsAreEarlier(rows: seq<ScanRow>, victims: seq<ScanRow>)
    requires Numbered(rows) && (forall r :: r in victims ==> r in rows) && rows != [] && rows[|rows| - 1] !in victims
    ensures (forall r :: r in victims ==> r in rows[..|rows| - 1]) && rows[|rows| - 1].seqNo !in Numbers(victims)
  {
    var last := rows[|rows| - 1];
    assert forall r :: r in rows <==> r in rows[..|rows| - 1] || r == last;
    forall r | r in victims ensures r.seqNo != last.seqNo {
      if r.seqNo == last.seqNo {
        NumberIdentifies(rows, r, last);
      }
    }
  }

  lemma {:induction false} KeepIgnores(rows: seq<ScanRow>, drop: set<int>, n: int)
    requires forall i :: 0 <= i < |rows| ==> rows[i].seqNo != n
    ensures Keep(rows, drop) == Keep(rows, drop + {n})
    decreases |rows|
  {
    if rows != [] {
      KeepIgnores(rows[..|rows| - 1], drop, n);
    }
  }
}
