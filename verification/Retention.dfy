// The retention job: prune in batches until a call removes nothing.

module Retentions {
  import opened Rollups
  import opened ScanStores

  // What is left of the raw events once everything older than the cutoff is gone.
  function Younger(rows: seq<ScanRow>, before: int): seq<ScanRow> {
    if rows == [] then []
    else Younger(rows[..|rows| - 1], before)
         + (if rows[|rows| - 1].ev.occurredAt < before then [] else [rows[|rows| - 1]])
  }

  lemma {:induction false} YoungerConcat(a: seq<ScanRow>, b: seq<ScanRow>, before: int)
    ensures Younger(a + b, before) == Younger(a, before) + Younger(b, before)
    decreases |b|
  {
    if b == [] {
      assert a + b == a;
    } else {
      assert (a + b)[..|a + b| - 1] == a + b[..|b| - 1];
      YoungerConcat(a, b[..|b| - 1], before);
    }
  }

  // Dropping old rows does not change which rows are young.
  lemma {:induction false} PruneKeepsYounger(rows: seq<ScanRow>, before: int, drop: set<int>)
    requires forall r :: r in rows && r.seqNo in drop ==> Older(r, before)
    ensures Younger(Keep(rows, drop), before) == Younger(rows, before)
    decreases |rows|
  {
    if rows != [] {
      var init, last := rows[..|rows| - 1], rows[|rows| - 1];
      PruneKeepsYounger(init, before, drop);
      YoungerConcat(Keep(init, drop), if last.seqNo in drop then [] else [last], before);
      assert [last][..0] == [];
    }
  }

  lemma {:induction false} OldAndYoung(rows: seq<ScanRow>, before: int)
    ensures OldCount(rows, before) + |Younger(rows, before)| == |rows|
    ensures OldCount(rows, before) == 0 ==> Younger(rows, before) == rows
    decreases |rows|
  {
    if rows != [] {
      OldAndYoung(rows[..|rows| - 1], before);
      assert rows == rows[..|rows| - 1] + [rows[|rows| - 1]];
    }
  }

  lemma {:induction false} YoungAreKept(rows: seq<ScanRow>, before: int)
    ensures forall r :: r in Younger(rows, before) <==> r in rows && r.ev.occurredAt >= before
    decreases |rows|
  {
    if rows != [] {
      YoungAreKept(rows[..|rows| - 1], before);
      assert forall r :: r in rows <==> r in rows[..|rows| - 1] || r == rows[|rows| - 1];
    }
  }

  class Retention {
    const days: int
    const batch: int

    constructor (days: int, batch: int)
      ensures this.days == days && this.batch == (if batch <= 0 then 1000 else batch)
      ensures this.batch > 0
    {
      this.days := days;
      this.batch := if batch <= 0 then 1000 else batch;
    }

    // Removes all and only the events older than the window, keeps the rest in order, and reports how many went.
    method RunOnce(store: ScanStore, now: int) returns (total: nat)
      requires store.Valid() && batch > 0
      modifies store`events
      ensures store.Valid()
      ensures days <= 0 ==> total == 0 && store.events == old(store.events)
      ensures days > 0 ==> store.events == Younger(old(store.events), now - days * DAY)
      ensures days > 0 ==> total == OldCount(old(store.events), now - days * DAY)
      ensures days > 0 ==> total == |old(store.events)| - |store.events|
      ensures days > 0 ==>
                forall r :: r in store.events <==> r in old(store.events) && r.ev.occurredAt >= now - days * 86_400
    {
      hide Younger, OldCount;
      total := 0;
      if days <= 0 {
        return;
      }
      var before := now - days * DAY;
      ghost var start := store.events;
      OldAndYoung(start, before);
      YoungAreKept(start, before);
      while true
        invariant store.Valid()
        invariant Younger(store.events, before) == Younger(start, before)
        invariant total + |store.events| == |start|
        decreases |store.events|
      {
        var n := PruneOnce(store, before);
        total := total + n;
        if n == 0 {
          return;
        }
      }
    }

    method PruneOnce(store: ScanStore, before: int) returns (n: nat)
      requires store.Valid() && batch > 0
      modifies store`events
      ensures store.Valid()
      ensures Younger(store.events, before) == Younger(old(store.events), before)
      ensures n + |store.events| == |old(store.events)|
      ensures n == 0 ==> Younger(store.events, before) == store.events
    {
      hide Keep, Younger, OldCount;
      ghost var current := store.events;
      n := store.PruneScanEvents(before, batch);
      ghost var drop :| Pruned(current, store.events, before, drop);
      PruneKeepsYounger(current, before, drop);
      OldAndYoung(current, before);
      OldAndYoung(store.events, before);
    }
  }
}
