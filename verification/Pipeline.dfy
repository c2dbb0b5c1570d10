// The recorder over the store its workers write to: what the table counts, along every interleaving.

module Pipelines {
  import opened Rollups
  import opened ScanStores
  import opened Recorders

  // A move of the pipeline. Whether the transaction of an insert goes through, the store decides.
  datatype Move = Take(step: Step<ScanEvent>) | Write(w: nat, up: bool)

  // The table counts exactly the events the recorder holds for persisted, in some order.
  ghost predicate Backs(t: Table, s: State<ScanEvent>, evs: seq<ScanEvent>) {
    multiset(evs) == s.persisted && Counts(t, evs)
  }

  ghost predicate Backed(t: Table, s: State<ScanEvent>) { exists evs :: Backs(t, s, evs) }

  // The table gained the batch.
  ghost predicate Gains(t: Table, evs: seq<ScanEvent>, batch: seq<ScanEvent>, u: Table) {
    Counts(t, evs) && Counts(u, evs + batch)
  }

  ghost predicate Written(t: Table, batch: seq<ScanEvent>, u: Table) { exists evs :: Gains(t, evs, batch, u) }

  // What a step of the recorder does to the table, and which batches the store takes.
  ghost predicate StepWrites(codeIds: set<string>, s: State<ScanEvent>, step: Step<ScanEvent>, t: Table, u: Table) {
    && Enabled(s, step)
    && (if step.Insert? && step.ok
        then Storable(codeIds, s.workers[step.w].batch) && Written(t, s.workers[step.w].batch, u) else u == t)
  }

  // A run of the recorder together with the table after each of its steps.
  ghost predicate Wired(codeIds: set<string>, states: seq<State<ScanEvent>>, steps: seq<Step<ScanEvent>>,
                        tables: seq<Table>) {
    && |tables| == |states| == |steps| + 1 && Run(states, steps) && tables[0] == map[]
    && forall i {:trigger steps[i]} :: 0 <= i < |steps| ==>
         StepWrites(codeIds, states[i], steps[i], tables[i], tables[i + 1])
  }

  // ---- the table is backed along every run ----

  lemma StepKeepsBacked(codeIds: set<string>, s: State<ScanEvent>, step: Step<ScanEvent>, t: Table, u: Table)
    requires StepWrites(codeIds, s, step, t, u) && Backed(t, s)
    ensures Backed(u, Do(s, step))
  {
    hide Counts, Storable;
    var evs :| Backs(t, s, evs);
    if step.Insert? && step.ok {
      var batch := s.workers[step.w].batch;
      var other :| Gains(t, other, batch, u);
      SameCounts(t, other, evs, batch, u);
      assert Backs(u, Do(s, step), evs + batch);
    } else {
      assert Backs(u, Do(s, step), evs);
    }
  }

  // Which list of the counted events the new batch is appended to makes no difference.
  lemma SameCounts(t: Table, a: seq<ScanEvent>, b: seq<ScanEvent>, batch: seq<ScanEvent>, u: Table)
    requires Counts(t, a) && Counts(t, b) && Counts(u, a + batch)
    ensures Counts(u, b + batch)
  {
    forall k: RollupKey ensures Count(a + batch, k) == Count(b + batch, k) {
      CountConcat(a, batch, k);
      CountConcat(b, batch, k);
      assert Get(t, k) == Count(a, k) == Count(b, k);
    }
    forall k: RollupKey {:trigger Count(b + batch, k)} ensures Get(u, k) == Count(b + batch, k) {
      assert Get(u, k) == Count(a + batch, k);
    }
  }

  // At every moment of every interleaving the table counts the persisted events and no others.
  lemma {:induction false} RunIsBacked(codeIds: set<string>, states: seq<State<ScanEvent>>, steps: seq<Step<ScanEvent>>,
                                       tables: seq<Table>, n: nat)
    requires Wired(codeIds, states, steps, tables) && n < |states|
    ensures Backed(tables[n], states[n])
    decreases n
  {
    hide StepWrites, Backed, Do, Enabled;
    if n == 0 {
      NothingBacked(states[0]);
    } else {
      RunIsBacked(codeIds, states, steps, tables, n - 1);
      assert StepWrites(codeIds, states[n - 1], steps[n - 1], tables[n - 1], tables[n]);
      assert states[n] == Do(states[n - 1], steps[n - 1]);
      StepKeepsBacked(codeIds, states[n - 1], steps[n - 1], tables[n - 1], tables[n]);
    }
  }

  lemma NothingBacked(s: State<ScanEvent>)
    requires Init(s)
    ensures Backed(map[], s)
  {
    assert Backs(map[], s, []);
  }

  // After a clean close every recorded scan is either counted by every answer or stands in the drop counter.
  lemma EveryScanIsCountedOrDropped(codeIds: set<string>, states: seq<State<ScanEvent>>, steps: seq<Step<ScanEvent>>,
                                    tables: seq<Table>, n: nat, a: Answer, q: Query) returns (evs: seq<ScanEvent>)
    requires Wired(codeIds, states, steps, tables) && n < |states| && AllExited(states[n])
    requires AnswersFor(a, tables[n], q)
    ensures multiset(evs) + states[n].lost == states[n].recorded && |states[n].recorded| == |evs| + states[n].dropped
    ensures a.total == Scans(evs, q) == SumMap(a.series)
    ensures forall dim :: dim in BREAKDOWNS ==> dim in a.breakdowns && SumMap(a.breakdowns[dim]) == Scans(evs, q)
    ensures states[n].dropped == 0 ==> multiset(evs) == states[n].recorded
    ensures {"ua_family", "device_category", "referrer_host", "is_bot"} <= a.breakdowns.Keys
    ensures forall v :: Get(a.breakdowns["ua_family"], v)
                        == |set i: nat | i < |evs| && InRange(evs[i], q) && evs[i].uaFamily == v|
    ensures forall v :: Get(a.breakdowns["device_category"], v)
                        == |set i: nat | i < |evs| && InRange(evs[i], q) && evs[i].device == v|
    ensures forall v :: Get(a.breakdowns["referrer_host"], v)
                        == |set i: nat | i < |evs| && InRange(evs[i], q) && evs[i].referrerHost == v|
    ensures forall v :: Get(a.breakdowns["is_bot"], v)
                        == |set i: nat | i < |evs| && InRange(evs[i], q)
                                         && v == if evs[i].isBot then "true" else "false"|
  {
    hide Run, Counts, AnswersFor, StepWrites, InRange;
    RunIsBacked(codeIds, states, steps, tables, n);
    evs :| Backs(tables[n], states[n], evs);
    CleanClose(states, steps, n);
    EveryAnswerAddsUp(a, tables[n], evs, q);
    EveryNumberCountsItsField(a, tables[n], evs, q, "", 0);
    forall v
      ensures Get(a.breakdowns["ua_family"], v)
              == |set i: nat | i < |evs| && InRange(evs[i], q) && evs[i].uaFamily == v|
      ensures Get(a.breakdowns["device_category"], v)
              == |set i: nat | i < |evs| && InRange(evs[i], q) && evs[i].device == v|
      ensures Get(a.breakdowns["referrer_host"], v)
              == |set i: nat | i < |evs| && InRange(evs[i], q) && evs[i].referrerHost == v|
      ensures Get(a.breakdowns["is_bot"], v)
              == |set i: nat | i < |evs| && InRange(evs[i], q) && v == if evs[i].isBot then "true" else "false"| {
      EveryNumberCountsItsField(a, tables[n], evs, q, v, 0);
    }
  }

  // ---- driving the store ----

  // Any sequence of moves, those that are possible carried out in turn against the store.
  method Drive(store: ScanStore, start: State<ScanEvent>, moves: seq<Move>)
    returns (s: State<ScanEvent>, ghost states: seq<State<ScanEvent>>, ghost steps: seq<Step<ScanEvent>>,
             ghost tables: seq<Table>)
    requires store.Valid() && store.rollups == map[] && Init(start)
    modifies store`events, store`nextSeq, store`rollups
    ensures store.Valid() && Wired(store.codeIds, states, steps, tables)
    ensures s == states[|states| - 1] && store.rollups == tables[|tables| - 1] && Backed(store.rollups, s)
  {
    hide Init, Do, Enabled, Counts, Backed, StepWrites, Storable, Run;
    s, states, steps, tables := start, [start], [], [map[]];
    NothingBacked(start);
    NothingWired(store.codeIds, start);
    for i := 0 to |moves|
      invariant store.Valid() && Wired(store.codeIds, states, steps, tables) && Backed(store.rollups, s)
      invariant s == states[|states| - 1] && store.rollups == tables[|tables| - 1]
    {
      var step := if moves[i].Take? then moves[i].step else Insert(moves[i].w, false);
      if Enabled(s, step) && (step.Insert? ==> moves[i].Write?) {
        ghost var before := store.rollups;
        if moves[i].Write? && moves[i].up {
          step := WriteBatch(store, s, moves[i].w);
        } else {
          NothingWritten(store.codeIds, s, step, before);
        }
        StepKeepsBacked(store.codeIds, s, step, before, store.rollups);
        WiredExtends(store.codeIds, states, steps, tables, step, store.rollups);
        states, steps, tables := states + [Do(s, step)], steps + [step], tables + [store.rollups];
        s := Do(s, step);
      }
    }
  }

  // The transaction of one insert reaches the store.
  method WriteBatch(store: ScanStore, s: State<ScanEvent>, w: nat) returns (step: Step<ScanEvent>)
    requires store.Valid() && Enabled(s, Insert(w, false)) && Backed(store.rollups, s)
    modifies store`events, store`nextSeq, store`rollups
    ensures store.Valid() && (step == Insert(w, true) || step == Insert(w, false)) && Enabled(s, step)
    ensures step.ok <==> Storable(store.codeIds, s.workers[w].batch)
    ensures StepWrites(store.codeIds, s, step, old(store.rollups), store.rollups)
  {
    hide Counts, Storable;
    ghost var evs :| Backs(store.rollups, s, evs);
    ghost var before := store.rollups;
    var err := store.Flush(s.workers[w].batch, evs);
    step := Insert(w, err.None?);
    if err.None? {
      assert Gains(before, evs, s.workers[w].batch, store.rollups);
    }
  }

  lemma NothingWritten(codeIds: set<string>, s: State<ScanEvent>, step: Step<ScanEvent>, t: Table)
    requires Enabled(s, step) && (step.Insert? ==> !step.ok)
    ensures StepWrites(codeIds, s, step, t, t)
  {
  }

  lemma NothingWired(codeIds: set<string>, s: State<ScanEvent>)
    requires Init(s)
    ensures Wired(codeIds, [s], [], [map[]])
  {
  }

  lemma WiredExtends(codeIds: set<string>, states: seq<State<ScanEvent>>, steps: seq<Step<ScanEvent>>,
                     tables: seq<Table>, step: Step<ScanEvent>, u: Table)
    requires Wired(codeIds, states, steps, tables)
    requires StepWrites(codeIds, states[|states| - 1], step, tables[|tables| - 1], u)
    ensures Wired(codeIds, states + [Do(states[|states| - 1], step)], steps + [step], tables + [u])
  {
    hide Init, Do;
    assert Enabled(states[|states| - 1], step);
    hide Enabled, StepWrites;
    var last := |steps|;
    forall i {:trigger (steps + [step])[i]} | 0 <= i < last + 1
      ensures var all := states + [Do(states[last], step)];
              Enabled(all[i], (steps + [step])[i]) && all[i + 1] == Do(all[i], (steps + [step])[i])
              && StepWrites(codeIds, all[i], (steps + [step])[i], (tables + [u])[i], (tables + [u])[i + 1]) {
      if i < last {
        assert Enabled(states[i], steps[i]) && StepWrites(codeIds, states[i], steps[i], tables[i], tables[i + 1]);
      }
    }
  }
}
