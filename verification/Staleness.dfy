// How stale a cached answer can be when a lookup's steps are split around mutations and other lookups.
//
// Cache keys are independent, so one key is followed. A mutator changes the store's answer and invalidates
// the key later; a resolver misses, reads the store later, and fills the cache later still.

module Staleness {
  import opened Domain

  // CacheTTL in microseconds.
  const TTL: Time := 30_000_000

  // missedAt and readAt are the moments the filling call missed and read the store; an entry's expiry is set
  // when the entry is created, and overwriting a live entry does not move it.
  datatype Entry<A> = Entry(answer: A, missedAt: Time, readAt: Time, filledAt: Time, exp: Time)

  datatype Pending<A> = Missed(missedAt: Time) | Holding(missedAt: Time, readAt: Time, answer: A)

  datatype State<A> = State(now: Time, stored: A, entry: Option<Entry<A>>, pending: map<nat, Pending<A>>)

  datatype Event<A> =
    | Change(answer: A, t: Time)
    | Invalidate(t: Time)
    | Miss(call: nat, t: Time)
    | Read(call: nat, t: Time)
    | Fill(call: nat, t: Time)
    | Hit(t: Time)
    | Drop(t: Time)

  predicate Live<A>(s: State<A>, t: Time) { s.entry.Some? && t < s.entry.value.exp }

  // A call that missed reads whenever it comes to it, even if another call has filled the cache by then.
  predicate EventOk<A>(s: State<A>, e: Event<A>) {
    && s.now <= e.t
    && (e.Miss? ==> e.call !in s.pending && !Live(s, e.t))
    && (e.Read? ==> e.call in s.pending && s.pending[e.call].Missed?)
    && (e.Fill? ==> e.call in s.pending && s.pending[e.call].Holding?)
    && (e.Hit? ==> Live(s, e.t))
  }

  function Next<A>(s: State<A>, e: Event<A>): State<A>
    requires EventOk(s, e)
  {
    match e
    case Change(answer, t) => s.(now := t, stored := answer)
    case Invalidate(t) => s.(now := t, entry := None)
    case Miss(call, t) => s.(now := t, pending := s.pending[call := Missed(t)])
    case Read(call, t) =>
      s.(now := t, pending := s.pending[call := Holding(s.pending[call].missedAt, t, s.stored)])
    case Fill(call, t) =>
      var p := s.pending[call];
      var exp := if Live(s, t) then s.entry.value.exp else t + TTL;
      s.(now := t, entry := Some(Entry(p.answer, p.missedAt, p.readAt, t, exp)), pending := s.pending - {call})
    case Hit(t) => s.(now := t)
    case Drop(t) => s.(now := t, entry := None)
  }

  ghost predicate Run<A>(states: seq<State<A>>, events: seq<Event<A>>) {
    && |states| == |events| + 1 && states[0].entry.None? && states[0].pending == map[]
    && forall i {:trigger events[i]} :: 0 <= i < |events| ==>
         EventOk(states[i], events[i]) && states[i + 1] == Next(states[i], events[i])
  }

  // Some earlier moment of the run had this store answer at this time.
  ghost predicate WasStored<A>(states: seq<State<A>>, n: nat, answer: A, t: Time)
    requires n < |states|
  {
    exists m {:trigger states[m]} :: 0 <= m <= n && states[m].now == t && states[m].stored == answer
  }

  // What a call carries was the store's answer when it read, after it missed.
  ghost predicate CallTraced<A>(states: seq<State<A>>, n: nat, p: Pending<A>)
    requires n < |states|
  {
    && p.missedAt <= states[n].now
    && (p.Holding? ==> p.missedAt <= p.readAt <= states[n].now && WasStored(states, n, p.answer, p.readAt))
  }

  ghost predicate EntryTraced<A>(states: seq<State<A>>, n: nat, e: Entry<A>)
    requires n < |states|
  {
    e.missedAt <= e.readAt <= e.filledAt <= states[n].now && e.exp <= e.filledAt + TTL
    && WasStored(states, n, e.answer, e.readAt)
  }

  ghost predicate Traced<A>(states: seq<State<A>>, n: nat)
    requires n < |states|
  {
    && (forall call :: call in states[n].pending ==> CallTraced(states, n, states[n].pending[call]))
    && (states[n].entry.Some? ==> EntryTraced(states, n, states[n].entry.value))
  }

  lemma StillStored<A>(states: seq<State<A>>, n: nat, answer: A, t: Time)
    requires n + 1 < |states| && WasStored(states, n, answer, t)
    ensures WasStored(states, n + 1, answer, t)
  {
    var m :| 0 <= m <= n && states[m].now == t && states[m].stored == answer;
    assert states[m].stored == answer;
  }

  lemma NextCallTraced<A>(states: seq<State<A>>, e: Event<A>, n: nat, call: nat)
    requires n + 1 < |states| && Traced(states, n) && EventOk(states[n], e) && states[n + 1] == Next(states[n], e)
    requires call in states[n + 1].pending
    ensures CallTraced(states, n + 1, states[n + 1].pending[call])
  {
    var s, t := states[n], states[n + 1];
    if call in s.pending && t.pending[call] == s.pending[call] {
      assert CallTraced(states, n, s.pending[call]);
      if s.pending[call].Holding? {
        StillStored(states, n, s.pending[call].answer, s.pending[call].readAt);
      }
    } else if e.Read? {
      assert CallTraced(states, n, s.pending[call]);
      assert states[n + 1].stored == s.stored;
    }
  }

  lemma NextEntryTraced<A>(states: seq<State<A>>, e: Event<A>, n: nat)
    requires n + 1 < |states| && Traced(states, n) && EventOk(states[n], e) && states[n + 1] == Next(states[n], e)
    requires states[n + 1].entry.Some?
    ensures EntryTraced(states, n + 1, states[n + 1].entry.value)
  {
    var s := states[n];
    if e.Fill? {
      assert CallTraced(states, n, s.pending[e.call]);
      StillStored(states, n, s.pending[e.call].answer, s.pending[e.call].readAt);
    } else {
      StillStored(states, n, s.entry.value.answer, s.entry.value.readAt);
    }
  }

  lemma {:induction false} RunIsTraced<A>(states: seq<State<A>>, events: seq<Event<A>>, n: nat)
    requires Run(states, events) && n < |states|
    ensures Traced(states, n)
    decreases n
  {
    hide CallTraced, EntryTraced, EventOk, Next;
    if n > 0 {
      RunIsTraced(states, events, n - 1);
      var e := events[n - 1];
      assert EventOk(states[n - 1], e) && states[n] == Next(states[n - 1], e);
      forall call | call in states[n].pending ensures CallTraced(states, n, states[n].pending[call]) {
        NextCallTraced(states, e, n - 1, call);
      }
      if states[n].entry.Some? {
        NextEntryTraced(states, e, n - 1);
      }
    }
  }

  // Every cached answer was the store's answer at a moment within the filling call, and less than the TTL plus the
  // time that call was in flight ago, whatever mutations, invalidations and other lookups slipped in between.
  lemma HitIsBoundedlyStale<A>(states: seq<State<A>>, events: seq<Event<A>>, n: nat)
    requires Run(states, events) && n < |events| && events[n].Hit?
    ensures states[n].entry.Some?
    ensures var e := states[n].entry.value;
            exists m {:trigger states[m]} :: 0 <= m <= n && states[m].stored == e.answer
              && e.missedAt <= states[m].now <= e.filledAt
              && states[m].now > events[n].t - 30_000_000 - (e.filledAt - e.missedAt)
  {
    RunIsTraced(states, events, n);
    assert EventOk(states[n], events[n]);
    var e := states[n].entry.value;
    assert EntryTraced(states, n, e);
    var m :| 0 <= m <= n && states[m].now == e.readAt && states[m].stored == e.answer;
    assert states[m].now > events[n].t - TTL - (e.filledAt - e.missedAt);
  }

  // An answer that had to be looked up was the store's answer at a moment within the call itself.
  lemma MissIsFresh<A>(states: seq<State<A>>, events: seq<Event<A>>, n: nat)
    requires Run(states, events) && n < |events| && events[n].Fill?
    ensures var p := states[n].pending[events[n].call];
            p.missedAt <= p.readAt <= events[n].t
            && exists m {:trigger states[m]} :: 0 <= m <= n && states[m].stored == p.answer && states[m].now == p.readAt
  {
    RunIsTraced(states, events, n);
    assert EventOk(states[n], events[n]);
    assert CallTraced(states, n, states[n].pending[events[n].call]);
  }

  // ---- what invalidation achieves ----

  // Nothing took the cached answer away or replaced it between event k and event n.
  ghost predicate KeptSince<A>(events: seq<Event<A>>, k: nat, n: nat)
    requires n <= |events|
  {
    forall i {:trigger events[i]} :: k < i < n ==> !events[i].Invalidate? && !events[i].Drop? && !events[i].Fill?
  }

  lemma {:induction false} EntryWasFilled<A>(states: seq<State<A>>, events: seq<Event<A>>, n: nat) returns (k: nat)
    requires Run(states, events) && n < |states| && states[n].entry.Some?
    ensures k < n && events[k].Fill? && events[k].call in states[k].pending
    ensures states[k].pending[events[k].call].Holding?
    ensures KeptSince(events, k, n) && states[n].entry.value.answer == states[k].pending[events[k].call].answer
    ensures states[n].entry.value.readAt == states[k].pending[events[k].call].readAt
    decreases n
  {
    var e := events[n - 1];
    assert EventOk(states[n - 1], e) && states[n] == Next(states[n - 1], e);
    if e.Fill? {
      k := n - 1;
    } else {
      k := EntryWasFilled(states, events, n - 1);
    }
  }

  // A hit is answered by the last fill before it, and nothing invalidated the key since: what an invalidation removed
  // is never answered again, only what a call brings back that had read before it.
  lemma HitIsTheLastFill<A>(states: seq<State<A>>, events: seq<Event<A>>, n: nat) returns (k: nat)
    requires Run(states, events) && n < |events| && events[n].Hit?
    ensures k < n && events[k].Fill? && events[k].call in states[k].pending
    ensures states[k].pending[events[k].call].Holding?
    ensures states[n].entry.Some? && states[n].entry.value.answer == states[k].pending[events[k].call].answer
    ensures KeptSince(events, k, n)
  {
    assert EventOk(states[n], events[n]);
    k := EntryWasFilled(states, events, n);
  }
}
