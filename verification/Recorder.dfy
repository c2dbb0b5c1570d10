// The asynchronous scan pipeline: a bounded channel, several workers, closing and draining, as the
// atomic steps of an interleaving. The pipeline never looks inside an event, so events are of any type E.

module Recorders {
  // Where a worker stands. Got: an event has left the channel and is not yet in the batch. Settling: the
  // store has answered and the in-flight counter is about to be lowered by n.
  datatype Pc<E> = Selecting | Got(ev: E) | Inserting(leaving: bool) | Settling(n: nat, leaving: bool) | Exited

  datatype Worker<E> = Worker(batch: seq<E>, pc: Pc<E>)

  // recorded, persisted and lost are bookkeeping over the whole run: every event ever passed to Record,
  // every event the store accepted, every event the drop counter stands for. sending holds the events of
  // Record calls that have seen the recorder open and still hold the read lock.
  datatype State<E(==)> = State(
    capacity: nat, batchSize: nat,
    queue: seq<E>, closed: bool, workers: seq<Worker<E>>, inflight: int, dropped: nat,
    sending: multiset<E>,
    recorded: multiset<E>, persisted: multiset<E>, lost: multiset<E>)

  datatype Step<E> =
    | Enter(ev: E)          // Record takes the read lock and looks at closed
    | Send(ev: E)           // ... the channel has room
    | Overflow(ev: E)       // ... the channel is full
    | Close                         // takes the write lock, marks closed, closes the channel
    | Receive(w: nat)
    | Append(w: nat)
    | SeeClosed(w: nat)             // the channel is closed and empty
    | Tick(w: nat)
    | Insert(w: nat, ok: bool)      // the store transaction ends
    | Settle(w: nat)

  ghost predicate Init<E>(s: State<E>) {
    && s.capacity > 0 && s.batchSize > 0 && |s.workers| > 0
    && s.queue == [] && !s.closed && s.inflight == 0 && s.dropped == 0
    && (forall i :: 0 <= i < |s.workers| ==> s.workers[i] == Worker([], Selecting))
    && s.sending == s.recorded == s.persisted == s.lost == multiset{}
  }

  predicate Enabled<E(==)>(s: State<E>, step: Step<E>) {
    match step
    case Enter(_) => true
    case Send(ev) => ev in s.sending && |s.queue| < s.capacity
    case Overflow(ev) => ev in s.sending && |s.queue| >= s.capacity
    case Close => |s.sending| == 0
    case Receive(w) => w < |s.workers| && s.workers[w].pc.Selecting? && |s.queue| > 0
    case Append(w) => w < |s.workers| && s.workers[w].pc.Got?
    case SeeClosed(w) => w < |s.workers| && s.workers[w].pc.Selecting? && |s.queue| == 0 && s.closed
    case Tick(w) => w < |s.workers| && s.workers[w].pc.Selecting?
    case Insert(w, _) => w < |s.workers| && s.workers[w].pc.Inserting?
    case Settle(w) => w < |s.workers| && s.workers[w].pc.Settling?
  }

  // Flushing an empty batch does nothing, so a worker with nothing to write leaves or stays at once.
  function StartFlush<E(==)>(batch: seq<E>, leaving: bool): Worker<E> {
    if |batch| == 0 then Worker([], if leaving then Exited else Selecting) else Worker(batch, Inserting(leaving))
  }

  function With<E(==)>(s: State<E>, w: nat, worker: Worker<E>): State<E>
    requires w < |s.workers|
  {
    s.(workers := s.workers[w := worker])
  }

  function Do<E(==)>(s: State<E>, step: Step<E>): (t: State<E>)
    requires Enabled(s, step)
    ensures |t.workers| == |s.workers|
  {
    match step
    case Enter(ev) =>
      if s.closed then s.(recorded := s.recorded + multiset{ev}, lost := s.lost + multiset{ev},
                          dropped := s.dropped + 1)
      else s.(recorded := s.recorded + multiset{ev}, sending := s.sending + multiset{ev})
    case Send(ev) => s.(sending := s.sending - multiset{ev}, queue := s.queue + [ev])
    case Overflow(ev) => s.(sending := s.sending - multiset{ev}, lost := s.lost + multiset{ev},
                            dropped := s.dropped + 1)
    case Close => s.(closed := true)
    case Receive(w) => With(s, w, s.workers[w].(pc := Got(s.queue[0]))).(queue := s.queue[1..])
    case Append(w) =>
      var batch := s.workers[w].batch + [s.workers[w].pc.ev];
      var worker := if |batch| >= s.batchSize then StartFlush(batch, false) else Worker(batch, Selecting);
      With(s, w, worker).(inflight := s.inflight + 1)
    case SeeClosed(w) => With(s, w, StartFlush(s.workers[w].batch, true))
    case Tick(w) => With(s, w, StartFlush(s.workers[w].batch, false))
    case Insert(w, ok) =>
      var batch := s.workers[w].batch;
      var t := With(s, w, Worker([], Settling(|batch|, s.workers[w].pc.leaving)));
      if ok then t.(persisted := s.persisted + multiset(batch))
      else t.(lost := s.lost + multiset(batch), dropped := s.dropped + |batch|)
    case Settle(w) =>
      var worker := Worker([], if s.workers[w].pc.leaving then Exited else Selecting);
      With(s, w, worker).(inflight := s.inflight - s.workers[w].pc.n)
  }

  function Unflushed<E(==)>(s: State<E>): int { |s.queue| + s.inflight }

  predicate WorkerStep<E(==)>(step: Step<E>) {
    step.Receive? || step.Append? || step.SeeClosed? || step.Tick? || step.Insert? || step.Settle?
  }

  // ---- what the workers hold ----

  function Held<E(==)>(w: Worker<E>): multiset<E> {
    multiset(w.batch) + (if w.pc.Got? then multiset{w.pc.ev} else multiset{})
  }

  function HeldBy<E(==)>(ws: seq<Worker<E>>): multiset<E> {
    if ws == [] then multiset{} else HeldBy(ws[..|ws| - 1]) + Held(ws[|ws| - 1])
  }

  function InFlight<E(==)>(w: Worker<E>): nat { if w.pc.Settling? then w.pc.n else |w.batch| }

  // What all workers amount to under one measure.
  ghost function Tally<E>(ws: seq<Worker<E>>, f: Worker<E> -> nat): nat {
    if ws == [] then 0 else Tally(ws[..|ws| - 1], f) + f(ws[|ws| - 1])
  }

  // The measures: copies of one event held, events in flight, and events just received.
  ghost function CopiesOf<E>(e: E): Worker<E> -> nat { (w: Worker<E>) => Held(w)[e] }

  ghost function Flights<E>(): Worker<E> -> nat { (w: Worker<E>) => InFlight(w) }

  ghost function Arrivals<E>(): Worker<E> -> nat { (w: Worker<E>) => if w.pc.Got? then 1 else 0 }

  lemma {:induction false} CopiesAreHeld<E>(ws: seq<Worker<E>>, e: E)
    ensures HeldBy(ws)[e] == Tally(ws, CopiesOf(e))
    decreases |ws|
  {
    if ws != [] {
      CopiesAreHeld(ws[..|ws| - 1], e);
    }
  }

  // Replacing one worker changes any measure by that worker's share.
  lemma {:induction false} TallyUpdate<E>(ws: seq<Worker<E>>, i: nat, w: Worker<E>, f: Worker<E> -> nat)
    requires i < |ws|
    ensures Tally(ws[i := w], f) + f(ws[i]) == Tally(ws, f) + f(w)
    decreases |ws|
  {
    var us := ws[i := w];
    if i < |ws| - 1 {
      TallyUpdate(ws[..|ws| - 1], i, w, f);
      assert us[..|us| - 1] == ws[..|ws| - 1][i := w];
    } else {
      assert us[..|us| - 1] == ws[..|ws| - 1];
    }
  }

  // ---- the invariant of every interleaving ----

  ghost predicate WorkerOk<E>(s: State<E>, w: Worker<E>) {
    && (w.pc.Inserting? ==> |w.batch| > 0)
    && (w.pc.Settling? || w.pc.Exited? ==> |w.batch| == 0)
    && (w.pc.Exited? || (w.pc.Inserting? && w.pc.leaving) || (w.pc.Settling? && w.pc.leaving) ==>
        s.closed && |s.queue| == 0)
  }

  ghost predicate WorkersOk<E>(s: State<E>) { forall i :: 0 <= i < |s.workers| ==> WorkerOk(s, s.workers[i]) }

  // Every copy of an event is in exactly one place.
  ghost predicate Placed<E>(s: State<E>, e: E) {
    s.recorded[e] == s.persisted[e] + s.lost[e] + multiset(s.queue)[e] + s.sending[e] + Tally(s.workers, CopiesOf(e))
  }

  // Every recorded event is somewhere, and the counters count what they stand for.
  ghost predicate Conserved<E(!new)>(s: State<E>) {
    && (forall e :: Placed(s, e))
    && s.dropped == |s.lost|
    && s.inflight == Tally(s.workers, Flights())
  }

  ghost predicate Inv<E(!new)>(s: State<E>) {
    && s.capacity > 0 && s.batchSize > 0 && |s.workers| > 0
    && |s.queue| <= s.capacity
    && Conserved(s)
    && (s.closed ==> |s.sending| == 0)
    && WorkersOk(s)
  }

  lemma {:induction false} IdleWorkersHoldNothing<E(!new)>(ws: seq<Worker<E>>)
    requires forall i :: 0 <= i < |ws| ==> ws[i].batch == [] && (ws[i].pc.Selecting? || ws[i].pc.Exited?)
    ensures HeldBy(ws) == multiset{} && Tally(ws, Flights()) == 0
    ensures forall e :: Tally(ws, CopiesOf(e)) == 0
    decreases |ws|
  {
    if ws != [] {
      IdleWorkersHoldNothing(ws[..|ws| - 1]);
    }
  }

  lemma InitSatisfiesInv<E(!new)>(s: State<E>)
    requires Init(s)
    ensures Inv(s)
  {
    IdleWorkersHoldNothing(s.workers);
  }

  lemma QueueCopies<E>(q: seq<E>, e: E)
    requires q != []
    ensures multiset(q)[e] == multiset(q[1..])[e] + (if q[0] == e then 1 else 0)
  {
    assert q == [q[0]] + q[1..];
  }

  lemma CallerStepPlaces<E(!new)>(s: State<E>, step: Step<E>, e: E)
    requires !WorkerStep(step) && Enabled(s, step) && Placed(s, e)
    ensures Placed(Do(s, step), e)
  {
    hide Tally;
  }

  lemma ReceivePlaces<E(!new)>(s: State<E>, w: nat, e: E)
    requires Enabled(s, Receive(w)) && Placed(s, e)
    ensures Placed(Do(s, Receive(w)), e)
  {
    hide Tally;
    TallyUpdate(s.workers, w, Do(s, Receive(w)).workers[w], CopiesOf(e));
    QueueCopies(s.queue, e);
  }

  lemma AppendPlaces<E(!new)>(s: State<E>, w: nat, e: E)
    requires Enabled(s, Append(w)) && Placed(s, e)
    ensures Placed(Do(s, Append(w)), e)
  {
    hide Tally;
    TallyUpdate(s.workers, w, Do(s, Append(w)).workers[w], CopiesOf(e));
  }

  lemma FlushStartPlaces<E(!new)>(s: State<E>, step: Step<E>, e: E)
    requires (step.SeeClosed? || step.Tick?) && Enabled(s, step) && Placed(s, e)
    ensures Placed(Do(s, step), e)
  {
    hide Tally;
    TallyUpdate(s.workers, step.w, Do(s, step).workers[step.w], CopiesOf(e));
  }

  lemma InsertPlaces<E(!new)>(s: State<E>, w: nat, ok: bool, e: E)
    requires Enabled(s, Insert(w, ok)) && Placed(s, e)
    ensures Placed(Do(s, Insert(w, ok)), e)
  {
    hide Tally;
    TallyUpdate(s.workers, w, Do(s, Insert(w, ok)).workers[w], CopiesOf(e));
  }

  lemma SettlePlaces<E(!new)>(s: State<E>, w: nat, e: E)
    requires Enabled(s, Settle(w)) && Placed(s, e) && WorkerOk(s, s.workers[w])
    ensures Placed(Do(s, Settle(w)), e)
  {
    hide Tally;
    TallyUpdate(s.workers, w, Do(s, Settle(w)).workers[w], CopiesOf(e));
  }

  lemma StepPlaces<E(!new)>(s: State<E>, step: Step<E>, e: E)
    requires Enabled(s, step) && Placed(s, e)
    requires WorkerStep(step) ==> WorkerOk(s, s.workers[step.w])
    ensures Placed(Do(s, step), e)
  {
    hide Placed, Do, WorkerOk;
    match step
    case Receive(w) => ReceivePlaces(s, w, e);
    case Append(w) => AppendPlaces(s, w, e);
    case SeeClosed(_) => FlushStartPlaces(s, step, e);
    case Tick(_) => FlushStartPlaces(s, step, e);
    case Insert(w, ok) => InsertPlaces(s, w, ok, e);
    case Settle(w) => SettlePlaces(s, w, e);
    case _ => CallerStepPlaces(s, step, e);
  }

  lemma StepCounts<E(!new)>(s: State<E>, step: Step<E>)
    requires Enabled(s, step) && s.dropped == |s.lost| && s.inflight == Tally(s.workers, Flights())
    requires WorkerStep(step) ==> WorkerOk(s, s.workers[step.w])
    ensures Do(s, step).dropped == |Do(s, step).lost|
    ensures Do(s, step).inflight == Tally(Do(s, step).workers, Flights())
  {
    hide Tally;
    if WorkerStep(step) {
      var worker := Do(s, step).workers[step.w];
      TallyUpdate(s.workers, step.w, worker, Flights());
      assert Do(s, step).workers == s.workers[step.w := worker];
    }
  }

  lemma StepConserves<E(!new)>(s: State<E>, step: Step<E>)
    requires Inv(s) && Enabled(s, step)
    ensures Conserved(Do(s, step))
  {
    hide Placed, WorkerOk;
    forall e ensures Placed(Do(s, step), e) {
      StepPlaces(s, step, e);
    }
    StepCounts(s, step);
  }

  // A closed, empty channel stays closed and empty.
  lemma DrainedStays<E(!new)>(s: State<E>, step: Step<E>)
    requires (s.closed ==> |s.sending| == 0) && Enabled(s, step) && s.closed && |s.queue| == 0
    ensures Do(s, step).closed && |Do(s, step).queue| == 0
  {
  }

  lemma SteppedWorkerOk<E(!new)>(s: State<E>, step: Step<E>)
    requires Enabled(s, step) && WorkerStep(step) && WorkerOk(s, s.workers[step.w])
    ensures WorkerOk(Do(s, step), Do(s, step).workers[step.w])
  {
  }

  lemma OthersUnchanged<E(!new)>(s: State<E>, step: Step<E>, i: nat)
    requires Enabled(s, step) && i < |s.workers| && !(WorkerStep(step) && step.w == i)
    ensures Do(s, step).workers[i] == s.workers[i]
  {
  }

  lemma StepKeepsWorker<E(!new)>(s: State<E>, step: Step<E>, i: nat)
    requires (s.closed ==> |s.sending| == 0) && Enabled(s, step) && i < |s.workers| && WorkerOk(s, s.workers[i])
    requires WorkerStep(step) ==> WorkerOk(s, s.workers[step.w])
    ensures WorkerOk(Do(s, step), Do(s, step).workers[i])
  {
    hide Do, Enabled;
    if WorkerStep(step) && step.w == i {
      SteppedWorkerOk(s, step);
    } else {
      OthersUnchanged(s, step, i);
      if s.closed && |s.queue| == 0 {
        DrainedStays(s, step);
      }
    }
  }

  lemma StepKeepsWorkers<E(!new)>(s: State<E>, step: Step<E>)
    requires (s.closed ==> |s.sending| == 0) && Enabled(s, step) && WorkersOk(s)
    ensures WorkersOk(Do(s, step))
  {
    hide WorkerOk, Do;
    forall i | 0 <= i < |s.workers| ensures WorkerOk(Do(s, step), Do(s, step).workers[i]) {
      StepKeepsWorker(s, step, i);
    }
  }

  lemma StepKeepsChannel<E(!new)>(s: State<E>, step: Step<E>)
    requires |s.queue| <= s.capacity && (s.closed ==> |s.sending| == 0) && Enabled(s, step)
    ensures var t := Do(s, step);
            t.capacity == s.capacity && t.batchSize == s.batchSize && |t.queue| <= t.capacity
            && (t.closed ==> |t.sending| == 0)
  {
  }

  lemma StepPreservesInv<E(!new)>(s: State<E>, step: Step<E>)
    requires Inv(s) && Enabled(s, step)
    ensures Inv(Do(s, step))
  {
    hide Conserved, WorkersOk, Do, Enabled;
    StepConserves(s, step);
    StepKeepsChannel(s, step);
    StepKeepsWorkers(s, step);
  }

  // ---- whole runs ----

  ghost predicate Run<E(!new)>(states: seq<State<E>>, steps: seq<Step<E>>) {
    && |states| == |steps| + 1
    && Init(states[0])
    && forall i {:trigger steps[i]} :: 0 <= i < |steps| ==>
         Enabled(states[i], steps[i]) && states[i + 1] == Do(states[i], steps[i])
  }

  lemma {:induction false} RunPreservesInv<E(!new)>(states: seq<State<E>>, steps: seq<Step<E>>, n: nat)
    requires Run(states, steps) && n < |states|
    ensures Inv(states[n])
    decreases n
  {
    if n == 0 {
      InitSatisfiesInv(states[0]);
    } else {
      RunPreservesInv(states, steps, n - 1);
      assert Enabled(states[n - 1], steps[n - 1]);
      StepPreservesInv(states[n - 1], steps[n - 1]);
    }
  }

  // In every interleaving each event passed to Record is persisted, counted as dropped, in the channel, on
  // its way in, or held by exactly one worker.
  lemma RunConserves<E(!new)>(states: seq<State<E>>, steps: seq<Step<E>>, n: nat)
    requires Run(states, steps) && n < |states|
    ensures states[n].recorded == states[n].persisted + states[n].lost + multiset(states[n].queue)
                                  + states[n].sending + HeldBy(states[n].workers)
    ensures |states[n].recorded| == |states[n].persisted| + states[n].dropped + |states[n].queue|
                                    + |states[n].sending| + |HeldBy(states[n].workers)|
  {
    RunPreservesInv(states, steps, n);
    PlacedEverywhere(states[n]);
  }

  lemma PlacedEverywhere<E(!new)>(s: State<E>)
    requires Conserved(s)
    ensures s.recorded == s.persisted + s.lost + multiset(s.queue) + s.sending + HeldBy(s.workers)
  {
    forall e ensures s.recorded[e] == (s.persisted + s.lost + multiset(s.queue) + s.sending + HeldBy(s.workers))[e] {
      assert Placed(s, e);
      CopiesAreHeld(s.workers, e);
    }
  }

  lemma {:induction false} ClosedStays<E(!new)>(states: seq<State<E>>, steps: seq<Step<E>>, m: nat, n: nat)
    requires Run(states, steps) && m <= n < |states| && states[m].closed
    ensures states[n].closed
    decreases n
  {
    if m < n {
      ClosedStays(states, steps, m, n - 1);
      assert Enabled(states[n - 1], steps[n - 1]);
    }
  }

  // Nothing is ever sent on the closed channel.
  lemma NoSendAfterClose<E(!new)>(states: seq<State<E>>, steps: seq<Step<E>>, i: nat, j: nat)
    requires Run(states, steps) && i < j < |steps| && steps[i].Close?
    ensures !steps[j].Send?
  {
    assert Enabled(states[i], steps[i]) && states[i + 1].closed;
    ClosedStays(states, steps, i + 1, j);
    RunPreservesInv(states, steps, j);
    assert Enabled(states[j], steps[j]);
  }

  // An event is given up only where the program gives one up: the recorder is closed, the channel is full, or the
  // store refused the batch it was in.
  lemma LostOnlyWhen<E(!new)>(states: seq<State<E>>, steps: seq<Step<E>>, n: nat)
    requires Run(states, steps) && n < |steps| && states[n + 1].dropped != states[n].dropped
    ensures (steps[n].Enter? && states[n].closed) || (steps[n].Overflow? && |states[n].queue| == states[n].capacity)
            || (steps[n].Insert? && !steps[n].ok)
    ensures states[n + 1].dropped
            == states[n].dropped + if steps[n].Insert? then |states[n].workers[steps[n].w].batch| else 1
  {
    RunPreservesInv(states, steps, n);
    assert Enabled(states[n], steps[n]);
    hide Conserved, WorkersOk;
  }

  // ---- batches ----

  // A worker still collecting holds less than a full batch, and none ever holds more.
  ghost predicate BatchFits<E>(s: State<E>, w: Worker<E>) {
    if w.pc.Selecting? || w.pc.Got? then |w.batch| < s.batchSize else |w.batch| <= s.batchSize
  }

  lemma StepKeepsBatches<E(!new)>(s: State<E>, step: Step<E>, i: nat)
    requires s.batchSize > 0 && Enabled(s, step) && i < |s.workers| && BatchFits(s, s.workers[i])
    requires WorkerStep(step) ==> BatchFits(s, s.workers[step.w])
    ensures BatchFits(Do(s, step), Do(s, step).workers[i])
  {
    if !(WorkerStep(step) && step.w == i) {
      OthersUnchanged(s, step, i);
    }
  }

  lemma {:induction false} BatchesStaySmall<E(!new)>(states: seq<State<E>>, steps: seq<Step<E>>, n: nat, i: nat)
    requires Run(states, steps) && n < |states| && i < |states[n].workers|
    ensures BatchFits(states[n], states[n].workers[i])
    decreases n
  {
    hide BatchFits, Do, Enabled;
    if n == 0 {
      assert BatchFits(states[0], states[0].workers[i]) by { EmptyBatchFits(states[0], i); }
    } else {
      assert Enabled(states[n - 1], steps[n - 1]) && states[n] == Do(states[n - 1], steps[n - 1]);
      RunPreservesInv(states, steps, n - 1);
      BatchesStaySmall(states, steps, n - 1, i);
      if WorkerStep(steps[n - 1]) {
        StepWorkerExists(states[n - 1], steps[n - 1]);
        BatchesStaySmall(states, steps, n - 1, steps[n - 1].w);
      }
      StepKeepsBatches(states[n - 1], steps[n - 1], i);
    }
  }

  lemma EmptyBatchFits<E>(s: State<E>, i: nat)
    requires Init(s) && i < |s.workers|
    ensures BatchFits(s, s.workers[i])
  {
  }

  lemma StepWorkerExists<E>(s: State<E>, step: Step<E>)
    requires Enabled(s, step) && WorkerStep(step)
    ensures step.w < |s.workers|
  {
  }

  ghost predicate AllExited<E>(s: State<E>) { forall i :: 0 <= i < |s.workers| ==> s.workers[i].pc.Exited? }

  // A clean close leaves nothing behind: the channel is empty, Unflushed is zero, and every recorded event
  // was persisted or counted as dropped.
  lemma CleanClose<E(!new)>(states: seq<State<E>>, steps: seq<Step<E>>, n: nat)
    requires Run(states, steps) && n < |states| && AllExited(states[n])
    ensures states[n].closed && states[n].queue == [] && Unflushed(states[n]) == 0
    ensures states[n].recorded == states[n].persisted + states[n].lost
    ensures |states[n].recorded| == |states[n].persisted| + states[n].dropped
  {
    RunPreservesInv(states, steps, n);
    var s := states[n];
    forall i | 0 <= i < |s.workers| ensures s.workers[i].batch == [] && s.closed && s.queue == [] {
      assert WorkerOk(s, s.workers[i]);
    }
    assert s.workers[0].pc.Exited?;
    assert WorkerOk(s, s.workers[0]);
    IdleWorkersHoldNothing(s.workers);
    PlacedEverywhere(s);
  }

  // Unflushed misses an accepted event at most while a worker has it in hand and not yet in its batch.
  lemma UnflushedCounts<E(!new)>(states: seq<State<E>>, steps: seq<Step<E>>, n: nat)
    requires Run(states, steps) && n < |states|
    ensures Unflushed(states[n]) >= 0
    ensures |states[n].queue| + |HeldBy(states[n].workers)|
            <= Unflushed(states[n]) + Tally(states[n].workers, Arrivals())
  {
    RunPreservesInv(states, steps, n);
    HeldFitsInFlight(states[n], states[n].workers);
  }

  lemma {:induction false} HeldFitsInFlight<E>(s: State<E>, ws: seq<Worker<E>>)
    requires forall i :: 0 <= i < |ws| ==> WorkerOk(s, ws[i])
    ensures |HeldBy(ws)| <= Tally(ws, Flights()) + Tally(ws, Arrivals())
    decreases |ws|
  {
    if ws != [] {
      HeldFitsInFlight(s, ws[..|ws| - 1]);
      assert WorkerOk(s, ws[|ws| - 1]);
    }
  }

  // ---- draining ends ----

  function Weight<E(==)>(w: Worker<E>): nat {
    match w.pc
    case Selecting => 3 * |w.batch| + 1
    case Got(_) => 3 * |w.batch| + 5
    case Inserting(_) => 3 * |w.batch|
    case Settling(_, _) => 2
    case Exited => 0
  }

  ghost function Weights<E>(): Worker<E> -> nat { (w: Worker<E>) => Weight(w) }

  ghost function Remaining<E>(s: State<E>): nat { 5 * |s.queue| + Tally(s.workers, Weights()) }

  predicate IdleTick<E(==)>(s: State<E>, step: Step<E>) {
    step.Tick? && step.w < |s.workers| && |s.workers[step.w].batch| == 0
  }

  // Once closed, every worker step but an idle tick brings the end nearer and nothing pushes it away.
  lemma DrainingAdvances<E(!new)>(s: State<E>, step: Step<E>)
    requires Inv(s) && s.closed && Enabled(s, step)
    ensures Remaining(Do(s, step)) <= Remaining(s)
    ensures WorkerStep(step) && !IdleTick(s, step) ==> Remaining(Do(s, step)) < Remaining(s)
  {
    hide Conserved, Tally, Do, Enabled, Weight, WorkersOk, IdleTick;
    if WorkerStep(step) {
      assert WorkerOk(s, s.workers[step.w]) by { WorkerOfStep(s, step); }
      StepWeight(s, step);
      TallyUpdate(s.workers, step.w, Do(s, step).workers[step.w], Weights());
    } else {
      CallersAddNothing(s, step);
    }
  }

  lemma WorkerOfStep<E(!new)>(s: State<E>, step: Step<E>)
    requires WorkersOk(s) && Enabled(s, step) && WorkerStep(step)
    ensures step.w < |s.workers| && WorkerOk(s, s.workers[step.w])
  {
  }

  lemma CallersAddNothing<E(!new)>(s: State<E>, step: Step<E>)
    requires s.closed && |s.sending| == 0 && Enabled(s, step) && !WorkerStep(step)
    ensures Do(s, step).queue == s.queue && Do(s, step).workers == s.workers
  {
  }

  // What one worker step does to the weight of its worker and of the channel.
  lemma StepWeight<E(!new)>(s: State<E>, step: Step<E>)
    requires Enabled(s, step) && WorkerStep(step) && WorkerOk(s, s.workers[step.w])
    ensures Do(s, step).workers == s.workers[step.w := Do(s, step).workers[step.w]]
    ensures Weight(Do(s, step).workers[step.w]) + 5 * |Do(s, step).queue| <= Weight(s.workers[step.w]) + 5 * |s.queue|
    ensures !IdleTick(s, step) ==>
              Weight(Do(s, step).workers[step.w]) + 5 * |Do(s, step).queue| < Weight(s.workers[step.w]) + 5 * |s.queue|
  {
    hide Do, Enabled, Weight, WorkerOk;
    match step
    case Receive(w) => ReceiveWeight(s, w);
    case Append(w) => AppendWeight(s, w);
    case SeeClosed(w) => FlushStartWeight(s, step);
    case Tick(w) => FlushStartWeight(s, step);
    case Insert(w, ok) => InsertWeight(s, w, ok);
    case Settle(w) => SettleWeight(s, w);
  }

  lemma ReceiveWeight<E(!new)>(s: State<E>, w: nat)
    requires Enabled(s, Receive(w))
    ensures var t := Do(s, Receive(w));
            t.workers == s.workers[w := t.workers[w]]
            && Weight(t.workers[w]) + 5 * |t.queue| < Weight(s.workers[w]) + 5 * |s.queue|
  {
  }

  lemma AppendWeight<E(!new)>(s: State<E>, w: nat)
    requires Enabled(s, Append(w))
    ensures var t := Do(s, Append(w));
            t.workers == s.workers[w := t.workers[w]] && t.queue == s.queue
            && Weight(t.workers[w]) < Weight(s.workers[w])
  {
  }

  lemma FlushStartWeight<E(!new)>(s: State<E>, step: Step<E>)
    requires (step.SeeClosed? || step.Tick?) && Enabled(s, step)
    ensures var t := Do(s, step);
            t.workers == s.workers[step.w := t.workers[step.w]] && t.queue == s.queue
            && Weight(t.workers[step.w]) <= Weight(s.workers[step.w])
            && (!IdleTick(s, step) ==> Weight(t.workers[step.w]) < Weight(s.workers[step.w]))
  {
  }

  lemma InsertWeight<E(!new)>(s: State<E>, w: nat, ok: bool)
    requires Enabled(s, Insert(w, ok)) && WorkerOk(s, s.workers[w])
    ensures var t := Do(s, Insert(w, ok));
            t.workers == s.workers[w := t.workers[w]] && t.queue == s.queue
            && Weight(t.workers[w]) < Weight(s.workers[w])
  {
  }

  lemma SettleWeight<E(!new)>(s: State<E>, w: nat)
    requires Enabled(s, Settle(w)) && WorkerOk(s, s.workers[w])
    ensures var t := Do(s, Settle(w));
            t.workers == s.workers[w := t.workers[w]] && t.queue == s.queue
            && Weight(t.workers[w]) < Weight(s.workers[w])
  {
  }

  // While a worker is still running after the close, it has a step that is not an idle tick, so the drain
  // cannot get stuck before every worker has exited.
  lemma DrainingNeverStuck<E(!new)>(s: State<E>, w: nat)
    requires Inv(s) && s.closed && w < |s.workers| && !s.workers[w].pc.Exited?
    ensures exists step :: WorkerStep(step) && step.w == w && Enabled(s, step) && !IdleTick(s, step)
  {
    var step := match s.workers[w].pc
      case Selecting => if s.queue != [] then Receive(w) else SeeClosed(w)
      case Got(_) => Append(w)
      case Inserting(_) => Insert(w, true)
      case Settling(_, _) => Settle(w)
      case Exited => Tick(w);
    assert Enabled(s, step) && WorkerStep(step) && !IdleTick(s, step);
  }
}
