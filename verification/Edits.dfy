// Requests whose store calls are interleaved with other requests': runs, what a run may change, and lost races.

module Edits {
  import opened Domain
  import opened Namespace
  import opened Drivers
  import opened Inputs
  import opened Blobs
  import opened Resolutions
  import opened Creation

  datatype EditResult = Updated(code: Code) | Failed(error: ServiceError)

  // The writes a request other than a creation issues. The service refuses to change a direct code's
  // destination or state before it reaches the store.
  predicate Permitted(db: Tables, op: Op) {
    && (op.UpdateDestination? || op.SetCodeState? || op.DeleteCode? || op.ReleaseAlias?)
    && (op.UpdateDestination? || op.SetCodeState? ==> op.id in db.codes ==> db.codes[op.id].mode != CodeMode.Direct)
  }

  // `end` is what the operations of the run, own and foreign, in this order make of `start`.
  ghost predicate RunTo(start: Tables, run: seq<Op>, end: Tables) {
    OpsOk(run) && end == After(start, run, |run|)
  }

  // A complete request of somebody else, done between two store calls of this one: an edit, or one attempt to
  // create a code.
  datatype Foreign = Edit(op: Op) | Creation(userId: string, input: CreateInput, draw: Draw)

  // The store operation is one the other request issues.
  ghost predicate Issues(e: Foreign, op: Op) {
    match e
    case Edit(own) => op == own
    case Creation(userId, _, d) =>
      op.CreateCodes? && |op.q.rows| == 1 && op.q.rows[0].id == d.id && op.q.rows[0].userId == userId
  }

  ghost predicate FromOthers(op: Op, others: seq<seq<Foreign>>) {
    exists j, i :: 0 <= j < |others| && 0 <= i < |others[j]| && Issues(others[j][i], op)
  }

  // Ids that other requests draw.
  ghost predicate ForeignId(others: seq<seq<Foreign>>, id: string) {
    exists j, i :: 0 <= j < |others| && 0 <= i < |others[j]| && others[j][i].Creation? && others[j][i].draw.id == id
  }

  ghost predicate GrownByOthers(before: set<string>, after: set<string>, others: seq<seq<Foreign>>) {
    forall id :: id in after && id !in before ==> ForeignId(others, id)
  }

  // No other request draws one of these ids.
  ghost predicate Apart(others: seq<seq<Foreign>>, ids: set<string>) {
    forall id :: id in ids ==> !ForeignId(others, id)
  }

  // Every operation of the run outside `mine` was issued by another request.
  ghost predicate RestIsForeign(run: seq<Op>, mine: set<nat>, others: seq<seq<Foreign>>) {
    forall k: nat {:trigger run[k]} :: k < |run| && k !in mine ==> FromOthers(run[k], others)
  }

  // The store went through this state on the way.
  ghost predicate OnPath(start: Tables, run: seq<Op>, db: Tables) {
    OpsOk(run) && exists m: nat :: m <= |run| && db == After(start, run, m)
  }

  // The run has exactly one write of its own, it is `op`, and the store accepted it.
  ghost predicate OneOwnWrite(start: Tables, run: seq<Op>, mine: set<nat>, op: Op) {
    OpsOk(run) && exists m: nat :: m < |run| && mine == {m} && run[m] == op && Succeeds(After(start, run, m), op)
  }

  // That one write inserts the row with this id.
  ghost predicate OwnCreation(start: Tables, run: seq<Op>, mine: set<nat>, id: string) {
    exists op: Op :: op.CreateCodes? && |op.q.rows| == 1 && op.q.rows[0].id == id && OneOwnWrite(start, run, mine, op)
  }

  // Started from `start`, the store went through these states without breaking what the service promises.
  ghost predicate Kept(start: Tables, end: Tables) { Evolves(start, end) && DirectFrozen(start, end) }

  // Nobody else writes.
  ghost predicate Quiet(others: seq<seq<Foreign>>) { forall j :: 0 <= j < |others| ==> others[j] == [] }

  lemma DrawsStayFresh(used: set<string>, more: set<string>, flying: set<string>, draws: seq<Draw>,
                       others: seq<seq<Foreign>>)
    requires FreshDraws(used + flying, draws) && Apart(others, Ids(draws)) && GrownByOthers(used, more, others)
    ensures FreshDraws(more + flying, draws)
  {
    hide ForeignId, GeneratedShape;
    forall k {:trigger draws[k]} | 0 <= k < |draws| ensures FreshDraw(more + flying, draws[k]) {
      assert FreshDraw(used + flying, draws[k]) && draws[k].id in Ids(draws);
    }
  }

  lemma FewerUsed(used: set<string>, less: set<string>, draws: seq<Draw>)
    requires FreshDraws(used, draws) && less <= used
    ensures FreshDraws(less, draws)
  {
    hide GeneratedShape;
    forall k {:trigger draws[k]} | 0 <= k < |draws| ensures FreshDraw(less, draws[k]) {
      assert FreshDraw(used, draws[k]);
    }
  }

  lemma NotGrown(used: set<string>, others: seq<seq<Foreign>>)
    ensures GrownByOthers(used, used, others)
  {
  }

  lemma GrownTransitive(a: set<string>, b: set<string>, c: set<string>, others: seq<seq<Foreign>>)
    requires GrownByOthers(a, b, others) && GrownByOthers(b, c, others)
    ensures GrownByOthers(a, c, others)
  {
    hide ForeignId;
  }

  lemma ForeignDraw(others: seq<seq<Foreign>>, j: nat, i: nat)
    requires j < |others| && i < |others[j]| && others[j][i].Creation?
    ensures ForeignId(others, others[j][i].draw.id)
  {
  }

  // ---- runs ----

  lemma {:induction false} AfterLonger(db: Tables, run: seq<Op>, longer: seq<Op>, n: nat)
    requires OpsOk(run) && OpsOk(longer) && n <= |run| && run <= longer
    ensures After(db, longer, n) == After(db, run, n)
    decreases n
  {
    hide Step;
    if n > 0 {
      AfterLonger(db, run, longer, n - 1);
      assert longer[n - 1] == run[n - 1];
    }
  }

  lemma RunExtends(start: Tables, run: seq<Op>, db: Tables, op: Op)
    requires RunTo(start, run, db) && OpOk(op)
    ensures RunTo(start, run + [op], Step(db, op)) && After(start, run + [op], |run|) == db
  {
    hide Step;
    AfterLonger(start, run, run + [op], |run|);
    AfterStep(start, run + [op], |run|);
  }

  lemma OwnWrite(start: Tables, run: seq<Op>, db: Tables, op: Op)
    requires RunTo(start, run, db) && OpOk(op) && Succeeds(db, op)
    ensures RunTo(start, run + [op], Step(db, op)) && OneOwnWrite(start, run + [op], {|run|}, op)
  {
    hide Succeeds;
    RunExtends(start, run, db, op);
    assert (run + [op])[|run|] == op;
  }

  lemma OwnWriteStays(start: Tables, run: seq<Op>, longer: seq<Op>, end: Tables, mine: set<nat>, op: Op)
    requires OneOwnWrite(start, run, mine, op) && run <= longer && RunTo(start, longer, end)
    ensures OneOwnWrite(start, longer, mine, op)
  {
    hide Succeeds;
    var m: nat :| m < |run| && mine == {m} && run[m] == op && Succeeds(After(start, run, m), op);
    AfterLonger(start, run, longer, m);
    assert longer[m] == run[m];
  }

  lemma QuietRound(others: seq<seq<Foreign>>, j: nat)
    requires j < |others|
    ensures Quiet(others) ==> others[j] == []
  {
  }

  lemma NothingYet(start: Tables, others: seq<seq<Foreign>>)
    ensures RunTo(start, [], start) && Kept(start, start) && RestIsForeign([], {}, others) && OnPath(start, [], start)
  {
    assert After(start, [], 0) == start;
  }

  lemma HereOnPath(start: Tables, run: seq<Op>, db: Tables)
    requires RunTo(start, run, db)
    ensures OnPath(start, run, db)
  {
  }

  lemma StillOnPath(start: Tables, run: seq<Op>, longer: seq<Op>, db: Tables)
    requires OnPath(start, run, db) && OpsOk(longer) && run <= longer
    ensures OnPath(start, longer, db)
  {
    var m: nat :| m <= |run| && db == After(start, run, m);
    AfterLonger(start, run, longer, m);
  }

  lemma AllStillOnPath(start: Tables, run: seq<Op>, longer: seq<Op>, db: Tables, seen: seq<Tables>)
    requires RunTo(start, longer, db) && run <= longer
    requires forall k {:trigger seen[k]} :: 0 <= k < |seen| ==> OnPath(start, run, seen[k])
    ensures forall k {:trigger seen[k]} :: 0 <= k < |seen| ==> OnPath(start, longer, seen[k])
  {
    hide OnPath;
    forall k {:trigger seen[k]} | 0 <= k < |seen| ensures OnPath(start, longer, seen[k]) {
      StillOnPath(start, run, longer, seen[k]);
    }
  }

  // Any two stores of a run, in the order the run went through them, are related as every run keeps them.
  lemma OnPathEvolves(start: Tables, run: seq<Op>, db: Tables)
    requires OnPath(start, run, db)
    ensures Evolves(start, db) && (Inv(start) ==> Inv(db))
  {
    hide Inv, Evolves;
    var m: nat :| m <= |run| && db == After(start, run, m);
    AfterStart(start, run);
    RunEvolves(start, run, 0, m);
    if Inv(start) {
      RunPreservesInv(start, run, m);
    }
  }

  lemma EndEvolves(start: Tables, run: seq<Op>, db: Tables, end: Tables)
    requires OnPath(start, run, db) && RunTo(start, run, end)
    ensures Evolves(db, end)
  {
    hide Evolves;
    var m: nat :| m <= |run| && db == After(start, run, m);
    RunEvolves(start, run, m, |run|);
  }

  lemma KeptStep(db: Tables, op: Op)
    requires OpOk(op) && Permitted(db, op)
    ensures Kept(db, Step(db, op))
  {
    StepEvolves(db, op);
  }

  lemma KeptCreation(db: Tables, q: Request)
    requires q.Ok()
    ensures Kept(db, Step(db, CreateCodes(q)))
  {
    StepEvolves(db, CreateCodes(q));
    if Succeeds(db, CreateCodes(q)) {
      forall id | id in db.codes ensures id in InsertAll(db, q).codes && InsertAll(db, q).codes[id] == db.codes[id] {
        CreatedRowsAreNew(db, q, id);
      }
    }
  }

  lemma KeptReflexive(a: Tables)
    ensures Kept(a, a)
  {
  }

  lemma PermittedIsOk(db: Tables, op: Op)
    requires Permitted(db, op)
    ensures OpOk(op) && !op.CreateCodes? && CreatesTrimmed(op)
  {
  }

  lemma IssuedByOther(others: seq<seq<Foreign>>, j: nat, i: nat, op: Op)
    requires j < |others| && i < |others[j]| && Issues(others[j][i], op)
    ensures FromOthers(op, others)
  {
  }

  // The keys a successful edit invalidates are the edited row's own, read before or after the write.
  lemma WrittenRow(db: Tables, op: Op)
    requires Permitted(db, op) && !op.ReleaseAlias? && Succeeds(db, op)
    ensures op.id in Step(db, op).codes && Invalidated(db, op) == {CacheKey(Step(db, op).codes[op.id].shortCode)}
  {
  }

  lemma ReleaseTouchesNoRow(db: Tables, alias: string, now: Time)
    ensures Step(db, ReleaseAlias(alias, now)).codes == db.codes && Invalidated(db, ReleaseAlias(alias, now)) == {}
  {
  }

  lemma KeptTransitive(a: Tables, b: Tables, c: Tables)
    requires Kept(a, b) && Kept(b, c)
    ensures Kept(a, c)
  {
    EvolvesTransitive(a, b, c);
    forall id | id in a.codes && a.codes[id].mode == CodeMode.Direct
      ensures id in c.codes && c.codes[id].destination == a.codes[id].destination
              && (c.codes[id].state == a.codes[id].state || c.codes[id].state == Deleted) {
      assert RowEvolves(a.codes[id], b.codes[id]);
    }
  }

  lemma KeptRow(a: Tables, b: Tables, id: string)
    requires Kept(a, b) && id in a.codes
    ensures id in b.codes && RowEvolves(a.codes[id], b.codes[id])
  {
  }

  // A row once read is still there, still its owner's, still in its mode and under its short code.
  lemma StillThere(a: Tables, b: Tables, id: string, userId: string)
    requires Kept(a, b)
    ensures Owned(a, id, userId) ==>
              && Owned(b, id, userId) && b.codes[id].mode == a.codes[id].mode
              && b.codes[id].shortCode == a.codes[id].shortCode && a.codes[id].version <= b.codes[id].version
  {
    if id in a.codes {
      KeptRow(a, b, id);
    }
  }

  lemma ForeignRest(run: seq<Op>, longer: seq<Op>, mine: set<nat>, others: seq<seq<Foreign>>)
    requires RestIsForeign(run, mine, others) && run <= longer
    requires forall k :: |run| <= k < |longer| ==> FromOthers(longer[k], others)
    ensures RestIsForeign(longer, mine, others)
  {
    hide FromOthers;
    forall k: nat {:trigger longer[k]} | k < |longer| && k !in mine ensures FromOthers(longer[k], others) {
      if k < |run| {
        assert longer[k] == run[k];
      }
    }
  }

  lemma ForeignAdded(run: seq<Op>, mine: set<nat>, others: seq<seq<Foreign>>, j: nat, i: nat, op: Op)
    requires RestIsForeign(run, mine, others) && j < |others| && i < |others[j]| && Issues(others[j][i], op)
    ensures RestIsForeign(run + [op], mine, others)
  {
    IssuedByOther(others, j, i, op);
    hide Issues;
    assert forall k :: |run| <= k < |run + [op]| ==> (run + [op])[k] == op;
    ForeignRest(run, run + [op], mine, others);
  }

  // What landing an own row adds to the run.
  lemma OwnLanding(start: Tables, run: seq<Op>, db: Tables, c: Code, d: Draw, others: seq<seq<Foreign>>)
    requires RunTo(start, run, db) && RestIsForeign(run, {}, others) && Succeeds(db, CreateCodes(LandRequest(c, d)))
    ensures var longer := run + [CreateCodes(LandRequest(c, d))];
            && RunTo(start, longer, Step(db, CreateCodes(LandRequest(c, d)))) && RestIsForeign(longer, {|run|}, others)
            && OwnCreation(start, longer, {|run|}, c.id) && OnPath(start, longer, db)
  {
    hide Succeeds, Step, RestIsForeign;
    var op := CreateCodes(LandRequest(c, d));
    assert op.q.rows[0] == c;
    RestAndMine(run, others, op);
    OwnWrite(start, run, db, op);
    HereOnPath(start, run, db);
    hide RunTo, OneOwnWrite, OnPath;
    RunsOk(start, run + [op], Step(db, op));
    StillOnPath(start, run, run + [op], db);
  }

  lemma RunsOk(start: Tables, run: seq<Op>, db: Tables)
    requires RunTo(start, run, db)
    ensures OpsOk(run)
  {
  }

  lemma RestAndMine(run: seq<Op>, others: seq<seq<Foreign>>, op: Op)
    requires RestIsForeign(run, {}, others)
    ensures RestIsForeign(run + [op], {|run|}, others)
  {
    hide FromOthers;
    forall k: nat {:trigger (run + [op])[k]} | k < |run| + 1 && k !in {|run|}
      ensures FromOthers((run + [op])[k], others) {
      assert (run + [op])[k] == run[k];
    }
  }

  // The row's destination, version and time of change, and nothing else.
  ghost predicate WroteDestination(before: Tables, after: Tables, id: string, dest: string, now: Time) {
    && id in before.codes
    && after == before.(codes := before.codes[id := before.codes[id].(
         destination := dest, version := before.codes[id].version + 1, updatedAt := now)])
  }

  lemma UpdateWrites(db: Tables, id: string, userId: string, dest: string, v: int, now: Time)
    requires Owned(db, id, userId)
    ensures var op := UpdateDestination(id, userId, dest, v, now);
            Refusal(db, op).None? ==> WroteDestination(db, Step(db, op), id, dest, now)
  {
    DestinationWritten(db, id, userId, dest, v, now);
  }

  // A write the store accepts at its turn is exactly one the row's version and state allow.
  lemma UpdateAccepted(db: Tables, id: string, userId: string, dest: string, v: int, now: Time)
    requires Owned(db, id, userId)
    ensures var op := UpdateDestination(id, userId, dest, v, now);
            && (Refusal(db, op).None? <==> db.codes[id].state != Deleted && db.codes[id].version == v)
            && (Refusal(db, op).None? <==> Succeeds(db, op)) && (Refusal(db, op).Some? ==> Step(db, op) == db)
            && (db.codes[id].mode != CodeMode.Direct ==> Permitted(db, op)) && OpOk(op)
  {
  }

  lemma StateAccepted(db: Tables, id: string, userId: string, state: CodeState, now: Time)
    requires Owned(db, id, userId)
    ensures var op := SetCodeState(id, userId, state, now);
            && (Refusal(db, op).None? <==> (state == Active || state == Disabled) && db.codes[id].state != Deleted)
            && (Refusal(db, op) == Some(BadState) <==> state != Active && state != Disabled)
            && (Refusal(db, op) == Some(StoreError.Conflict) ==> db.codes[id].state == Deleted)
            && (Refusal(db, op).None? || Refusal(db, op) == Some(BadState)
                || Refusal(db, op) == Some(StoreError.Conflict))
            && (Refusal(db, op).None? <==> Succeeds(db, op)) && (Refusal(db, op).Some? ==> Step(db, op) == db)
            && (db.codes[id].mode != CodeMode.Direct ==> Permitted(db, op)) && OpOk(op)
  {
  }

  lemma DeletionAccepted(db: Tables, id: string, userId: string, now: Time)
    requires Owned(db, id, userId)
    ensures var op := DeleteCode(id, userId, now);
            && Refusal(db, op).None? && Succeeds(db, op) && Permitted(db, op) && OpOk(op)
            && Step(db, op).codes[id].state == Deleted && Step(db, op).reservations == db.reservations
  {
  }

  // An update that conflicts with the version just read lost to somebody else's mutation of that row.
  lemma LostRace(a: Tables, b: Tables, id: string, userId: string, dest: string, now: Time)
    requires Kept(a, b) && Owned(a, id, userId) && a.codes[id].state != Deleted
    requires Refusal(b, UpdateDestination(id, userId, dest, a.codes[id].version, now)).Some?
    ensures Owned(b, id, userId) && b.codes[id].version > a.codes[id].version
  {
    KeptRow(a, b, id);
  }

  // ---- what a write does to images and cached answers ----

  lemma EvolvedSameImage(cfg: Config, c: Code, d: Code)
    requires RowEvolves(c, d) && (c.mode == CodeMode.Direct ==> d.destination == c.destination)
    ensures SameImage(cfg, c, d)
  {
  }

  lemma WriteAddsNoRow(db: Tables, op: Op)
    requires OpOk(op) && Permitted(db, op)
    ensures Step(db, op).codes.Keys == db.codes.Keys
  {
  }

  lemma WriteKeepsImages(cfg: Config, db: Tables, op: Op, flying: map<string, Code>, blobs: map<string, Blob>)
    requires OpOk(op) && Permitted(db, op) && BlobsMatch(cfg, db.codes + flying, blobs)
    ensures BlobsMatch(cfg, Step(db, op).codes + flying, blobs) && Step(db, op).codes.Keys == db.codes.Keys
  {
    hide BlobsMatch, Step, Permitted, RowEvolves, SameImage;
    var before, after := db.codes + flying, Step(db, op).codes + flying;
    KeptStep(db, op);
    WriteAddsNoRow(db, op);
    forall id | id in before ensures SameImage(cfg, before[id], after[id]) {
      if id in flying {
        SameImageReflexive(cfg, before[id]);
      } else {
        EvolvedSameImage(cfg, before[id], after[id]);
      }
    }
    SameImagesMatch(cfg, before, after, blobs);
  }

  // A write invalidates nothing yet: until it does, the edited key is unsettled.
  lemma WriteKeepsCache(db: Tables, op: Op, cache: map<string, Resolution>, unsettled: set<string>)
    requires OpOk(op) && Permitted(db, op) && Inv(db) && Trimmed(db) && CacheAgrees(db, cache - unsettled)
    ensures var key := if Succeeds(db, op) && !op.ReleaseAlias? then Invalidated(db, op) else {};
            && Inv(Step(db, op)) && Trimmed(Step(db, op))
            && CacheAgrees(Step(db, op), cache - (unsettled + key))
  {
    hide Inv, Trimmed, CacheAgrees, Invalidated, Succeeds, Step, CreatesTrimmed, Permitted;
    PermittedIsOk(db, op);
    if op.ReleaseAlias? {
      ReleaseTouchesNoRow(db, op.alias, op.now);
    }
    StepPreservesInv(db, op);
    StepKeepsTrimmed(db, op);
    MutationKeepsAgreement(db, op, cache - unsettled);
    assert cache - unsettled - Invalidated(db, op) == cache - (unsettled + Invalidated(db, op));
    assert cache - unsettled == cache - (unsettled + {});
  }

  lemma InvalidationKeepsAgreement(db: Tables, cache: map<string, Resolution>, unsettled: set<string>,
                                   keys: set<string>)
    requires CacheAgrees(db, cache - unsettled)
    ensures CacheAgrees(db, (cache - keys) - (unsettled - keys))
  {
  }
}
