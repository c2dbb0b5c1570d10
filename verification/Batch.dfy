// A batch of creations: what each item is, what the whole batch inserts, and what sending it again returns.
//
// Other requests write while a batch is checked and rendered: item i is checked against the stores of views[i],
// and the rendered rows meet yet another store.

module Batches {
  import opened Domain
  import opened Namespace
  import opened Drivers
  import opened Inputs
  import opened Blobs
  import opened Resolutions
  import opened Creation
  import opened Edits

  datatype BatchResult = Created(code: Code) | Existing(code: Code) | Rejected(error: ServiceError)

  // Before anything is rendered an item is either answered or a candidate for insertion.
  datatype Class = Answer(result: BatchResult) | Candidate(p: Prepared)

  predicate UsesRef(in_: CreateInput) { 0 < |in_.clientRef| <= MAX_REF_LEN }

  predicate SameTarget(c: Code, in_: CreateInput) {
    c.destination == Trim(in_.destination) && ModeOf(c.mode) == ModeOf(in_.mode)
  }

  ghost predicate RefSeen(items: seq<CreateInput>, i: nat, ref: string)
    requires i <= |items|
  {
    exists j {:trigger items[j]} :: 0 <= j < i && UsesRef(items[j]) && items[j].clientRef == ref
  }

  ghost function RefRow(db: Tables, userId: string, ref: string): Code
    requires RefUsed(db, userId, ref)
  {
    var id :| id in db.codes && HasRef(db.codes[id], userId, ref);
    db.codes[id]
  }

  // The stores in which one item's client ref and, later, its alias were looked up.
  datatype View = View(refs: Tables, names: Tables)

  // The batch as it was sent, and the stores its items were checked against.
  datatype Sent = Sent(cfg: Config, userId: string, items: seq<CreateInput>, views: seq<View>)

  function Longer(b: Sent, more: View): Sent { b.(views := b.views + [more]) }

  // How a batch request went: what its items met, what they were, the store its transaction met and how that ended,
  // and all writes in between.
  datatype Trace = Trace(
    b: Sent, plans: seq<Class>, seen: Tables, outcome: Option<Option<StoreError>>, run: seq<Op>, mine: set<nat>)

  ghost predicate ViewsOnPath(start: Tables, run: seq<Op>, views: seq<View>) {
    forall k {:trigger views[k]} :: 0 <= k < |views| ==>
      OnPath(start, run, views[k].refs) && OnPath(start, run, views[k].names)
  }

  // Nothing was written between the first check and the last.
  ghost predicate OneView(views: seq<View>, db: Tables) {
    forall k {:trigger views[k]} :: 0 <= k < |views| ==> views[k] == View(db, db)
  }

  // The request wrote nothing itself, or one batch.
  ghost predicate OwnBatch(start: Tables, run: seq<Op>, mine: set<nat>) {
    mine == {} || exists q: Request :: OneOwnWrite(start, run, mine, CreateCodes(q))
  }

  // The rows answered as created are all that came.
  ghost predicate Gained(before: Tables, after: Tables, results: seq<BatchResult>) {
    && (forall id :: id in before.codes ==> id in after.codes && after.codes[id] == before.codes[id])
    && (forall id :: id in after.codes && id !in before.codes ==>
          exists i :: 0 <= i < |results| && results[i].Created? && results[i].code.id == id)
  }

  ghost predicate Viewed(b: Sent, n: nat) { n <= |b.items| && n <= |b.views| }

  ghost predicate AliasSeen(b: Sent, i: nat, alias: string)
    requires Viewed(b, i)
    decreases i, 0
  {
    i > 0 && (TakesAlias(b, i - 1, alias) || AliasSeen(b, i - 1, alias))
  }

  ghost predicate TakesAlias(b: Sent, j: nat, alias: string)
    requires Viewed(b, j + 1)
    decreases j, 2
  {
    var c := ClassOf(b, j);
    c.Candidate? && c.p.isAlias && c.p.shortCode == alias
  }

  // What an item's client ref decides on its own.
  ghost function ByRef(db: Tables, userId: string, items: seq<CreateInput>, i: nat): Option<Class>
    requires i < |items|
  {
    var in_ := items[i];
    if !UsesRef(in_) then None
    else if RefSeen(items, i, in_.clientRef) then Some(Answer(Rejected(DuplicateRef)))
    else if RefUsed(db, userId, in_.clientRef) then
      var c := RefRow(db, userId, in_.clientRef);
      Some(Answer(if SameTarget(c, in_) then Existing(c) else Rejected(RefConflict(c.id))))
    else None
  }

  function ByName(prep: Preparation, taken: bool): Class {
    match prep
    case Refused(e) => Answer(Rejected(Invalid(e)))
    case Ready(p) => if p.isAlias && taken then Answer(Rejected(StoreRefused(AliasTaken))) else Candidate(p)
  }

  // The outcome of the checks made before rendering, item by item in input order.
  ghost function ClassOf(b: Sent, i: nat): Class
    requires Viewed(b, i + 1)
    decreases i, 1
  {
    match ByRef(b.views[i].refs, b.userId, b.items, i)
    case Some(c) => c
    case None =>
      var prep := Prepare(b.cfg, b.userId, b.items[i]);
      ByName(prep, prep.Ready? && (AliasSeen(b, i, prep.p.shortCode) || !Available(b.views[i].names, prep.p.shortCode)))
  }

  ghost predicate Classes(b: Sent, plans: seq<Class>) {
    Viewed(b, |plans|) && forall i {:trigger plans[i]} :: 0 <= i < |plans| ==> plans[i] == ClassOf(b, i)
  }

  // ---- what candidates have in common ----

  lemma RefRowIsUnique(db: Tables, userId: string, ref: string, id: string)
    requires Inv(db) && ref != "" && id in db.codes && HasRef(db.codes[id], userId, ref)
    ensures RefUsed(db, userId, ref) && RefRow(db, userId, ref) == db.codes[id]
  {
    var row := RefRow(db, userId, ref);
    var other :| other in db.codes && row == db.codes[other];
    assert HasRef(row, userId, ref);
    assert SameRef(db.codes[other], db.codes[id]);
  }

  // ---- what the checks before rendering decide, item by item ----

  // The item is the first of its batch with its ref, and the ref is one the service honours.
  ghost predicate FirstWithRef(items: seq<CreateInput>, i: nat)
    requires i < |items|
  {
    0 < |items[i].clientRef| <= 128 && forall j :: 0 <= j < i ==> items[j].clientRef != items[i].clientRef
  }

  ghost predicate HeldBy(db: Tables, id: string, userId: string, ref: string) {
    id in db.codes && db.codes[id].userId == userId && db.codes[id].clientRef == ref
  }

  // The first item of a batch to use a ref that a row of the user carries already: the row as existing if it has
  // the item's destination and mode, and a conflict naming it otherwise.
  lemma KnownRefDecides(b: Sent, i: nat, id: string)
    requires Viewed(b, i + 1) && Inv(b.views[i].refs)
    requires FirstWithRef(b.items, i) && HeldBy(b.views[i].refs, id, b.userId, b.items[i].clientRef)
    ensures var c, in_ := b.views[i].refs.codes[id], b.items[i];
            ClassOf(b, i)
            == Answer(if c.destination == Trim(in_.destination)
                         && c.mode == (if in_.mode == NoMode then Dynamic else in_.mode)
                      then Existing(c) else Rejected(RefConflict(id)))
  {
    KnownRef(b.views[i].refs, b.userId, b.items, i, id);
    hide Inv, ByRef, Prepare, ByName, AliasSeen, Available, Trim;
  }

  lemma KnownRef(db: Tables, userId: string, items: seq<CreateInput>, i: nat, id: string)
    requires i < |items| && Inv(db) && 0 < |items[i].clientRef| <= 128
    requires forall j :: 0 <= j < i ==> items[j].clientRef != items[i].clientRef
    requires id in db.codes && db.codes[id].userId == userId && db.codes[id].clientRef == items[i].clientRef
    ensures var c, in_ := db.codes[id], items[i];
            ByRef(db, userId, items, i)
            == Some(Answer(if c.destination == Trim(in_.destination)
                              && c.mode == (if in_.mode == NoMode then Dynamic else in_.mode)
                           then Existing(c) else Rejected(RefConflict(id))))
  {
    hide Inv, Trim, Lower, RefRow, RowOk;
    RowIsSound(db, id);
    assert HasRef(db.codes[id], userId, items[i].clientRef);
    RefRowIsUnique(db, userId, items[i].clientRef, id);
  }

  // A ref used by an earlier item already is an error, whoever carries it.
  lemma RepeatedRefDecides(b: Sent, i: nat, j: nat)
    requires Viewed(b, i + 1) && j < i && 0 < |b.items[i].clientRef| <= 128
    requires b.items[j].clientRef == b.items[i].clientRef
    ensures ClassOf(b, i) == Answer(Rejected(DuplicateRef))
  {
    hide Prepare, ByName, AliasSeen, Available, Trim;
    assert UsesRef(b.items[j]);
  }

  ghost predicate TakenBefore(b: Sent, i: nat, alias: string)
    requires Viewed(b, i)
  {
    exists j :: 0 <= j < i && TakesAlias(b, j, alias)
  }

  // Without a ref that decides, an item is refused for its input, for an alias that is reserved or that an earlier
  // item of the batch takes, or is left to insert.
  lemma InputDecides(b: Sent, i: nat)
    requires Viewed(b, i + 1)
    requires |b.items[i].clientRef| > 128
             || b.items[i].clientRef == ""
             || ((forall j :: 0 <= j < i ==> b.items[j].clientRef != b.items[i].clientRef)
                 && forall id :: id in b.views[i].refs.codes ==>
                      b.views[i].refs.codes[id].userId != b.userId
                      || b.views[i].refs.codes[id].clientRef != b.items[i].clientRef)
    ensures var prep := Prepare(b.cfg, b.userId, b.items[i]);
            ClassOf(b, i)
            == (if prep.Refused? then Answer(Rejected(Invalid(prep.error)))
                else if b.items[i].alias != ""
                        && (!Available(b.views[i].names, prep.p.shortCode) || TakenBefore(b, i, prep.p.shortCode))
                then Answer(Rejected(StoreRefused(AliasTaken))) else Candidate(prep.p))
  {
    hide Prepare, AliasSeen, TakenBefore, Available, ByRef, ByName, ClassOf, Lower, Trim;
    RefDecidesNothing(b.views[i].refs, b.userId, b.items, i);
    ClassByName(b, i);
    NameDecides(b, i);
  }

  lemma ClassByName(b: Sent, i: nat)
    requires Viewed(b, i + 1) && ByRef(b.views[i].refs, b.userId, b.items, i) == None
    ensures var prep := Prepare(b.cfg, b.userId, b.items[i]);
            ClassOf(b, i)
            == ByName(prep, prep.Ready? && (AliasSeen(b, i, prep.p.shortCode)
                                            || !Available(b.views[i].names, prep.p.shortCode)))
  {
    hide Prepare, AliasSeen, Available, ByRef, ByName;
  }

  lemma NameDecides(b: Sent, i: nat)
    requires Viewed(b, i + 1)
    ensures var prep := Prepare(b.cfg, b.userId, b.items[i]);
            ByName(prep, prep.Ready? && (AliasSeen(b, i, prep.p.shortCode)
                                         || !Available(b.views[i].names, prep.p.shortCode)))
            == (if prep.Refused? then Answer(Rejected(Invalid(prep.error)))
                else if b.items[i].alias != ""
                        && (!Available(b.views[i].names, prep.p.shortCode) || TakenBefore(b, i, prep.p.shortCode))
                then Answer(Rejected(StoreRefused(AliasTaken))) else Candidate(prep.p))
  {
    hide Prepare, AliasSeen, TakenBefore, Available;
    var prep := Prepare(b.cfg, b.userId, b.items[i]);
    if prep.Ready? {
      PreparedChoices(b.cfg, b.userId, b.items[i], prep.p);
      AliasSeenBy(b, i, prep.p.shortCode);
    }
  }

  lemma RefDecidesNothing(db: Tables, userId: string, items: seq<CreateInput>, i: nat)
    requires i < |items|
    requires |items[i].clientRef| > 128
             || items[i].clientRef == ""
             || ((forall j :: 0 <= j < i ==> items[j].clientRef != items[i].clientRef)
                 && forall id :: id in db.codes ==>
                      db.codes[id].userId != userId || db.codes[id].clientRef != items[i].clientRef)
    ensures ByRef(db, userId, items, i) == None
  {
    hide Trim;
  }

  lemma {:induction false} AliasSeenBy(b: Sent, i: nat, alias: string)
    requires Viewed(b, i)
    ensures AliasSeen(b, i, alias) <==> TakenBefore(b, i, alias)
    decreases i
  {
    hide ClassOf, TakesAlias;
    if i > 0 {
      AliasSeenBy(b, i - 1, alias);
      assert AliasSeen(b, i, alias) <==> TakesAlias(b, i - 1, alias) || AliasSeen(b, i - 1, alias);
    }
  }

  lemma CandidateFacts(b: Sent, i: nat)
    requires Viewed(b, i + 1) && ClassOf(b, i).Candidate?
    ensures var p := ClassOf(b, i).p;
            && Prepare(b.cfg, b.userId, b.items[i]) == Ready(p) && p.clientRef == b.items[i].clientRef
            && (p.clientRef != "" ==> UsesRef(b.items[i]) && !RefSeen(b.items, i, p.clientRef))
            && RefFree(b.views[i].refs, b.userId, p.clientRef)
            && (p.isAlias ==> Available(b.views[i].names, p.shortCode) && !AliasSeen(b, i, p.shortCode))
  {
  }

  lemma {:induction false} EarlierAliasIsSeen(b: Sent, i: nat, j: nat, alias: string)
    requires i < j && Viewed(b, j) && TakesAlias(b, i, alias)
    ensures AliasSeen(b, j, alias)
    decreases j
  {
    hide ClassOf, TakesAlias;
    if i < j - 1 {
      EarlierAliasIsSeen(b, i, j - 1, alias);
    }
  }

  // Whatever the stores the items were checked against, no two items left to insert share a ref or an alias.
  lemma CandidatesDiffer(b: Sent, i: nat, j: nat)
    requires i < j && Viewed(b, j + 1) && ClassOf(b, i).Candidate? && ClassOf(b, j).Candidate?
    ensures var p, q := ClassOf(b, i).p, ClassOf(b, j).p;
            && (p.clientRef != "" ==> p.clientRef != q.clientRef)
            && (p.isAlias && q.isAlias ==> p.shortCode != q.shortCode)
  {
    CandidateFacts(b, i);
    CandidateFacts(b, j);
    var p, q := ClassOf(b, i).p, ClassOf(b, j).p;
    assert p.isAlias ==> TakesAlias(b, i, p.shortCode);
    assert b.items[i].clientRef == p.clientRef;
    hide ClassOf;
    assert p.clientRef != "" ==> RefSeen(b.items, j, p.clientRef);
    if p.isAlias {
      EarlierAliasIsSeen(b, i, j, p.shortCode);
    }
  }

  lemma CandidateIsPrepared(b: Sent, plans: seq<Class>, i: nat)
    requires Classes(b, plans) && i < |plans| && plans[i].Candidate?
    ensures PreparedOk(plans[i].p) && b.userId != ""
  {
    assert plans[i] == ClassOf(b, i);
    CandidateFacts(b, i);
    hide ClassOf, Prepare, Canonical;
  }

  // ---- the rows of a batch ----

  function WithRows(codes: map<string, Code>, rows: seq<Code>): map<string, Code> {
    if rows == [] then codes else WithRows(codes, rows[1..])[rows[0].id := rows[0]]
  }

  ghost predicate FreshRows(used: set<string>, rows: seq<Code>) {
    && (forall k {:trigger rows[k]} :: 0 <= k < |rows| ==> rows[k].id !in used)
    && (forall j, k {:trigger rows[j], rows[k]} :: 0 <= j < k < |rows| ==> rows[j].id != rows[k].id)
  }

  lemma NotUsedYet(used: set<string>, rows: seq<Code>)
    requires FreshRows(used, rows)
    ensures forall k {:trigger rows[k]} :: 0 <= k < |rows| ==> rows[k].id !in used
  {
  }

  lemma FreshSlice(used: set<string>, rows: seq<Code>, k: nat)
    requires FreshRows(used, rows) && k <= |rows|
    ensures FreshRows(used, rows[k..])
  {
    var rest := rows[k..];
    assert forall j :: 0 <= j < |rest| ==> rest[j] == rows[k + j];
  }

  lemma {:induction false} WithRowsKeys(codes: map<string, Code>, rows: seq<Code>)
    requires FreshRows(codes.Keys, rows)
    ensures forall id :: id in WithRows(codes, rows) <==> id in codes || exists k :: 0 <= k < |rows| && rows[k].id == id
    ensures forall id :: id in codes ==> WithRows(codes, rows)[id] == codes[id]
    ensures forall k :: 0 <= k < |rows| ==> WithRows(codes, rows)[rows[k].id] == rows[k]
    decreases |rows|
  {
    if rows != [] {
      var rest := rows[1..];
      FreshSlice(codes.Keys, rows, 1);
      WithRowsKeys(codes, rest);
      assert forall k :: 1 <= k < |rows| ==> rows[k] == rest[k - 1];
    }
  }

  lemma {:induction false} WithRowsAppend(codes: map<string, Code>, rows: seq<Code>, c: Code)
    requires FreshRows(codes.Keys, rows + [c])
    ensures WithRows(codes, rows + [c]) == WithRows(codes, rows)[c.id := c]
    decreases |rows|
  {
    var all := rows + [c];
    assert all[|rows|] == c;
    if rows != [] {
      assert all[1..] == rows[1..] + [c];
      assert all[0] == rows[0] && rows[0].id != c.id;
      FreshSlice(codes.Keys, all, 1);
      WithRowsAppend(codes, rows[1..], c);
    } else {
      assert all[1..] == [];
    }
  }

  // What was on its way before the batch is no stored row either.
  lemma FlyingBelow(flying: map<string, Code>, rows: seq<Code>)
    requires FreshRows(flying.Keys, rows)
    ensures flying.Keys <= WithRows(flying, rows).Keys
  {
    WithRowsKeys(flying, rows);
  }

  lemma WithRowsFront(codes: map<string, Code>, rows: seq<Code>, k: nat)
    requires k < |rows| && FreshRows(codes.Keys, rows)
    ensures rows[k].id in WithRows(codes, rows[k..]) && WithRows(codes, rows[k..])[rows[k].id] == rows[k]
    ensures WithRows(codes, rows[k..]) - {rows[k].id} == WithRows(codes, rows[k + 1..])
  {
    assert rows[k..][1..] == rows[k + 1..] && rows[k..][0] == rows[k];
    var rest := rows[k + 1..];
    assert forall j :: 0 <= j < |rest| ==> rest[j] == rows[k + 1 + j];
    FreshSlice(codes.Keys, rows, k + 1);
    WithRowsKeys(codes, rest);
  }

  // Once the store has all rows of the batch, their images are those of the persisted rows.
  lemma PersistedBatchMatches(cfg: Config, db: Tables, q: Request, flying: map<string, Code>, blobs: map<string, Blob>)
    requires q.Ok() && Admissible(db, q) && FreshRows(flying.Keys, q.rows) && db.codes.Keys !! flying.Keys
    requires forall k {:trigger q.rows[k]} :: 0 <= k < |q.rows| ==>
               q.rows[k].id !in db.codes && Canonical(q.rows[k].shortCode) && q.rows[k].mode != NoMode
    requires BlobsMatch(cfg, db.codes + WithRows(flying, q.rows), blobs)
    ensures BlobsMatch(cfg, InsertAll(db, q).codes + flying, blobs) && InsertAll(db, q).codes.Keys !! flying.Keys
  {
    hide BlobsMatch, SameImage, WithRows, InsertAll, Canonical, Admissible, FreshRows, RowOf, Lower, Trim;
    BatchIdsMove(db, q, flying);
    var before, after := db.codes + WithRows(flying, q.rows), InsertAll(db, q).codes + flying;
    forall id | id in before ensures SameImage(cfg, before[id], after[id]) {
      BatchRowMoves(db, q, flying, id);
      if before[id] == after[id] {
        SameImageReflexive(cfg, before[id]);
      } else {
        var k :| 0 <= k < |q.rows| && before[id] == q.rows[k] && after[id] == q.Row(k);
        assert Lower(q.rows[k].shortCode) == q.rows[k].shortCode by { NotEmptyIfCanonical(q.rows[k].shortCode); }
        PersistedSameImage(cfg, q.rows[k], q.now, q.drawn[k]);
      }
    }
    SameImagesMatch(cfg, before, after, blobs);
  }

  // The rows of the batch leave the rows on their way and join the store's, under the same ids.
  lemma BatchIdsMove(db: Tables, q: Request, flying: map<string, Code>)
    requires q.Ok() && Admissible(db, q) && FreshRows(flying.Keys, q.rows) && db.codes.Keys !! flying.Keys
    ensures InsertAll(db, q).codes.Keys !! flying.Keys
    ensures (db.codes + WithRows(flying, q.rows)).Keys == (InsertAll(db, q).codes + flying).Keys
  {
    hide RowOf, WithRows, InsertAll, Admissible, FreshRows;
    InsertedBatch(db, q);
    WithRowsKeys(flying, q.rows);
    NotUsedYet(flying.Keys, q.rows);
    var before, after := db.codes + WithRows(flying, q.rows), InsertAll(db, q).codes + flying;
    forall id ensures id in before <==> id in after {
    }
  }

  // Every row either stays as it was or is the persisted form of a row of the batch.
  lemma BatchRowMoves(db: Tables, q: Request, flying: map<string, Code>, id: string)
    requires q.Ok() && Admissible(db, q) && FreshRows(flying.Keys, q.rows) && db.codes.Keys !! flying.Keys
    requires forall k {:trigger q.rows[k]} :: 0 <= k < |q.rows| ==> q.rows[k].id !in db.codes
    requires id in db.codes + WithRows(flying, q.rows) && id in InsertAll(db, q).codes + flying
    ensures var before, after := (db.codes + WithRows(flying, q.rows))[id], (InsertAll(db, q).codes + flying)[id];
            before == after || exists k :: 0 <= k < |q.rows| && before == q.rows[k] && after == q.Row(k)
  {
    hide RowOf, WithRows, InsertAll, Admissible, FreshRows;
    InsertedBatch(db, q);
    WithRowsKeys(flying, q.rows);
    if id in db.codes {
      assert id !in WithRows(flying, q.rows) && InsertAll(db, q).codes[id] == db.codes[id];
    } else if id in flying {
      assert id in WithRows(flying, q.rows) && WithRows(flying, q.rows)[id] == flying[id];
    } else {
      var k :| 0 <= k < |q.rows| && q.rows[k].id == id;
      assert InsertAll(db, q).codes[id] == q.Row(k) && WithRows(flying, q.rows)[id] == q.rows[k];
    }
  }

  // ---- when the one transaction goes through ----

  // The candidates whose images were produced, by input position.
  ghost predicate ReadyAt(plans: seq<Class>, draws: seq<Draw>, i: nat)
    requires |plans| == |draws|
  {
    i < |plans| && plans[i].Candidate? && Renders(plans[i].p, draws[i])
  }

  ghost predicate NothingReady(plans: seq<Class>, draws: seq<Draw>)
    requires |plans| == |draws|
  {
    forall i: nat {:trigger ReadyAt(plans, draws, i)} :: i < |plans| ==> !ReadyAt(plans, draws, i)
  }

  // Every code the batch needs is free, and no two rows need the same one.
  ghost predicate CodesFree(db: Tables, plans: seq<Class>, draws: seq<Draw>)
    requires |plans| == |draws|
  {
    && (forall i: nat {:trigger ReadyAt(plans, draws, i)} ::
          ReadyAt(plans, draws, i) ==> !Taken(db, CodeFor(plans[i].p, draws[i])))
    && (forall i: nat, j: nat {:trigger ReadyAt(plans, draws, i), ReadyAt(plans, draws, j)} ::
          i < j && ReadyAt(plans, draws, i) && ReadyAt(plans, draws, j)
          ==> CodeFor(plans[i].p, draws[i]) != CodeFor(plans[j].p, draws[j]))
  }

  ghost predicate RefsFree(db: Tables, userId: string, plans: seq<Class>, draws: seq<Draw>)
    requires |plans| == |draws|
  {
    forall i: nat {:trigger ReadyAt(plans, draws, i)} ::
      ReadyAt(plans, draws, i) ==> RefFree(db, userId, plans[i].p.clientRef)
  }

  // Somebody else took the item's ref after it was checked.
  ghost predicate LostRef(b: Sent, plans: seq<Class>, draws: seq<Draw>, db: Tables, i: nat)
    requires |plans| == |draws| == |b.items| && Viewed(b, |plans|)
  {
    && ReadyAt(plans, draws, i) && plans[i].p.clientRef != ""
    && RefUsed(db, b.userId, plans[i].p.clientRef) && !RefUsed(b.views[i].refs, b.userId, plans[i].p.clientRef)
  }

  // How the one transaction ends that meets the store db. A refusal for a ref is always a lost race.
  ghost predicate Verdict(b: Sent, plans: seq<Class>, draws: seq<Draw>, db: Tables, up: bool,
                          outcome: Option<Option<StoreError>>)
    requires |plans| == |draws| == |b.items| && Viewed(b, |plans|)
  {
    && (outcome.None? <==>
          NothingReady(plans, draws) || (up && CodesFree(db, plans, draws) && RefsFree(db, b.userId, plans, draws)))
    && (outcome == Some(None) <==> !NothingReady(plans, draws) && !up)
    && (outcome.Some? && outcome.value.Some? ==>
          || (outcome.value.value == AliasTaken && !CodesFree(db, plans, draws))
          || (outcome.value.value == ClientRefTaken && exists i: nat :: LostRef(b, plans, draws, db, i)))
  }

  // A ref the batch still needs is used exactly when somebody else took it since its item was checked...
  lemma RefsLostExactly(b: Sent, plans: seq<Class>, draws: seq<Draw>, db: Tables)
    requires Classes(b, plans) && |plans| == |draws| == |b.items|
    ensures RefsFree(db, b.userId, plans, draws) <==> !exists i: nat :: LostRef(b, plans, draws, db, i)
  {
    hide ClassOf, Renders;
    forall i: nat | ReadyAt(plans, draws, i)
      ensures RefFree(db, b.userId, plans[i].p.clientRef) <==> !LostRef(b, plans, draws, db, i) {
      assert plans[i] == ClassOf(b, i);
      CandidateFacts(b, i);
    }
  }

  // ... and as long as every code is free, that is what the caller is told, and the only thing.
  lemma LostRacesAreReported(b: Sent, plans: seq<Class>, draws: seq<Draw>, db: Tables,
                             outcome: Option<Option<StoreError>>)
    requires Classes(b, plans) && |plans| == |draws| == |b.items| && Verdict(b, plans, draws, db, true, outcome)
    requires !NothingReady(plans, draws) && CodesFree(db, plans, draws)
    ensures outcome == (if exists i: nat :: LostRef(b, plans, draws, db, i) then Some(Some(ClientRefTaken)) else None)
  {
    hide Classes, NothingReady, CodesFree, RefsFree, LostRef;
    RefsLostExactly(b, plans, draws, db);
  }

  // rows[k] is the rendered row of the item at position at[k]; every ready item has its row.
  ghost predicate RowsOfBatch(userId: string, plans: seq<Class>, draws: seq<Draw>, rows: seq<Code>, at: seq<nat>,
                              n: nat)
    requires |plans| == |draws| && n <= |plans|
  {
    && |rows| == |at|
    && (forall k {:trigger at[k]} :: 0 <= k < |at| ==>
          (at[k] < n && ReadyAt(plans, draws, at[k])
           && RowFrom(rows[k], userId, plans[at[k]].p, CodeFor(plans[at[k]].p, draws[at[k]]), draws[at[k]])))
    && (forall j, k {:trigger at[j], at[k]} :: 0 <= j < k < |at| ==> at[j] < at[k])
    && (forall i: nat {:trigger ReadyAt(plans, draws, i)} :: i < n && ReadyAt(plans, draws, i) ==> i in at)
  }

  // A batch whose items are classified and whose candidates are rendered.
  datatype Work = Work(b: Sent, plans: seq<Class>, draws: seq<Draw>, rows: seq<Code>, at: seq<nat>)

  ghost predicate Planned(w: Work) {
    && Classes(w.b, w.plans) && |w.plans| == |w.b.items| == |w.draws| && w.b.userId != ""
    && RowsOfBatch(w.b.userId, w.plans, w.draws, w.rows, w.at, |w.plans|)
  }

  ghost predicate Built(w: Work, used: set<string>) { Planned(w) && FreshDraws(used, w.draws) }

  lemma RowAt(w: Work, k: nat)
    requires Planned(w) && k < |w.rows|
    ensures |w.at| == |w.rows| && w.at[k] < |w.plans| == |w.draws| && ReadyAt(w.plans, w.draws, w.at[k])
    ensures RowFrom(w.rows[k], w.b.userId, w.plans[w.at[k]].p, CodeFor(w.plans[w.at[k]].p, w.draws[w.at[k]]),
                    w.draws[w.at[k]])
  {
    hide Classes, RowFrom, Renders;
    assert w.at[k] == w.at[k];
  }

  lemma RowFacts(w: Work, used: set<string>, k: nat)
    requires Built(w, used) && k < |w.rows|
    ensures |w.at| == |w.rows| && w.at[k] < |w.plans| == |w.draws|
    ensures var c, i := w.rows[k], w.at[k];
            && ReadyAt(w.plans, w.draws, i) && c.id == w.draws[i].id && c.id !in used && c.userId == w.b.userId
            && c.shortCode == CodeFor(w.plans[i].p, w.draws[i]) && c.clientRef == w.plans[i].p.clientRef
            && Complete(c) && Canonical(c.shortCode) && c.mode != NoMode
            && RowFrom(c, w.b.userId, w.plans[i].p, c.shortCode, w.draws[i])
  {
    RowAt(w, k);
    hide Classes, Canonical, GeneratedShape, LogoKeyFor, BlobKeyFor, Renders, StylingFor, RowsOfBatch;
    PlannedCode(w, used, w.at[k]);
  }

  lemma PlannedCode(w: Work, used: set<string>, i: nat)
    requires Built(w, used) && i < |w.plans| && w.plans[i].Candidate?
    ensures |w.draws| == |w.plans| && w.draws[i].id != "" && w.draws[i].id !in used && w.b.userId != ""
    ensures var code := CodeFor(w.plans[i].p, w.draws[i]);
            Canonical(code) && code != "" && w.plans[i].p.mode != NoMode
  {
    hide Classes, Canonical, GeneratedShape, RowsOfBatch, CodeFor;
    assert FreshDraw(used, w.draws[i]);
    CandidateIsPrepared(w.b, w.plans, i);
    CodeIsCanonical(w.plans[i].p, w.draws[i]);
    NotEmptyIfCanonical(CodeFor(w.plans[i].p, w.draws[i]));
  }

  lemma NotEmptyIfCanonical(s: string)
    requires Canonical(s)
    ensures s != "" && Lower(s) == s && Trim(s) == s
  {
  }

  lemma RowsDiffer(w: Work, used: set<string>, j: nat, k: nat)
    requires Built(w, used) && j < k < |w.rows|
    ensures |w.at| == |w.rows| && w.at[j] < w.at[k] && w.rows[j].id != w.rows[k].id
    ensures w.rows[j].clientRef != "" ==> w.rows[j].clientRef != w.rows[k].clientRef
  {
    RowFacts(w, used, j);
    RowFacts(w, used, k);
    assert w.at[j] < w.at[k];
    PlansDiffer(w, used, w.at[j], w.at[k]);
    hide Classes, RowFrom, Canonical, RowsOfBatch, Renders, FreshDraws;
  }

  lemma PlansDiffer(w: Work, used: set<string>, i: nat, j: nat)
    requires Built(w, used) && i < j < |w.plans| == |w.draws| && w.plans[i].Candidate? && w.plans[j].Candidate?
    ensures w.draws[i].id != w.draws[j].id
    ensures w.plans[i].p.clientRef != "" ==> w.plans[i].p.clientRef != w.plans[j].p.clientRef
  {
    hide ClassOf, RowsOfBatch;
    assert w.draws[i].id != w.draws[j].id;
    assert w.plans[i] == ClassOf(w.b, i) && w.plans[j] == ClassOf(w.b, j);
    CandidatesDiffer(w.b, i, j);
  }

  lemma BuiltRows(w: Work, used: set<string>)
    requires Built(w, used)
    ensures |w.rows| == |w.at| && FreshRows(used, w.rows)
    ensures forall k {:trigger w.rows[k]} :: 0 <= k < |w.rows| ==>
              w.rows[k].id !in used && Canonical(w.rows[k].shortCode) && w.rows[k].mode != NoMode
  {
    hide Planned, FreshDraws, Canonical, RowFrom, ReadyAt;
    assert |w.rows| == |w.at| by { SameLengths(w); }
    forall k | 0 <= k < |w.rows|
      ensures w.rows[k].id !in used && Canonical(w.rows[k].shortCode) && w.rows[k].mode != NoMode {
      RowFacts(w, used, k);
    }
    forall j, k | 0 <= j < k < |w.rows| ensures w.rows[j].id != w.rows[k].id {
      RowsDiffer(w, used, j, k);
    }
  }

  lemma BuiltIsPlanned(w: Work, used: set<string>)
    requires Built(w, used)
    ensures Planned(w)
  {
  }

  lemma SameLengths(w: Work)
    requires Planned(w)
    ensures |w.rows| == |w.at| && |w.plans| == |w.draws| == |w.b.items| && Viewed(w.b, |w.plans|) && w.b.userId != ""
  {
  }

  lemma RowAdmittedExactly(w: Work, db: Tables, k: nat)
    requires Built(w, db.codes.Keys) && k < |w.rows|
    ensures Admits(db, w.rows[k]) <==>
            !Taken(db, w.rows[k].shortCode) && RefFree(db, w.b.userId, w.rows[k].clientRef)
  {
    hide Built, Canonical, RowFrom, ReadyAt;
    RowFacts(w, db.codes.Keys, k);
  }

  lemma RowsCompatibleExactly(w: Work, used: set<string>, j: nat, k: nat)
    requires Built(w, used) && j < k < |w.rows|
    ensures Compatible(w.rows[j], w.rows[k]) <==> w.rows[j].shortCode != w.rows[k].shortCode
  {
    hide Built, RowFrom, ReadyAt, Lower, Trim;
    RowFacts(w, used, j);
    RowFacts(w, used, k);
    RowsDiffer(w, used, j, k);
  }

  lemma RowOfReady(w: Work, i: nat) returns (k: nat)
    requires Planned(w) && ReadyAt(w.plans, w.draws, i)
    ensures k < |w.rows| && |w.at| == |w.rows| && w.at[k] == i
  {
    hide RowFrom, Renders, Classes;
    assert i in w.at;
    k :| 0 <= k < |w.at| && w.at[k] == i;
  }

  lemma EarlierRowFirst(w: Work, j: nat, k: nat)
    requires Planned(w) && j < |w.rows| && k < |w.rows| && |w.at| == |w.rows| && w.at[j] < w.at[k]
    ensures j < k
  {
    hide RowFrom, ReadyAt, Classes;
  }

  lemma FreeIsAdmissible(w: Work, db: Tables, now: Time, drawn: seq<string>)
    requires Built(w, db.codes.Keys) && |w.plans| == |w.draws|
    requires CodesFree(db, w.plans, w.draws) && RefsFree(db, w.b.userId, w.plans, w.draws)
    ensures Admissible(db, Request(w.rows, now, drawn))
  {
    hide Built, Canonical, RowFrom, ReadyAt, Admits, Compatible, Taken, RefFree;
    var used := db.codes.Keys;
    forall k | 0 <= k < |w.rows| ensures Admits(db, w.rows[k]) {
      RowFacts(w, used, k);
      RowAdmittedExactly(w, db, k);
    }
    forall j, k | 0 <= j < k < |w.rows| ensures Compatible(w.rows[j], w.rows[k]) {
      RowFacts(w, used, j);
      RowFacts(w, used, k);
      RowsDiffer(w, used, j, k);
      RowsCompatibleExactly(w, used, j, k);
    }
  }

  lemma AdmissibleIsFree(w: Work, db: Tables, now: Time, drawn: seq<string>)
    requires Built(w, db.codes.Keys) && |w.plans| == |w.draws| && Admissible(db, Request(w.rows, now, drawn))
    ensures CodesFree(db, w.plans, w.draws) && RefsFree(db, w.b.userId, w.plans, w.draws)
  {
    hide Planned, FreshDraws, Canonical, RowFrom, Renders, Admits, Compatible, Taken, RefFree;
    var q, used := Request(w.rows, now, drawn), db.codes.Keys;
    forall i: nat | ReadyAt(w.plans, w.draws, i)
      ensures !Taken(db, CodeFor(w.plans[i].p, w.draws[i])) && RefFree(db, w.b.userId, w.plans[i].p.clientRef) {
      var k := RowOfReady(w, i);
      RowFacts(w, used, k);
      assert Admits(db, q.rows[k]);
      RowAdmittedExactly(w, db, k);
    }
    forall i: nat, j: nat | i < j && ReadyAt(w.plans, w.draws, i) && ReadyAt(w.plans, w.draws, j)
      ensures CodeFor(w.plans[i].p, w.draws[i]) != CodeFor(w.plans[j].p, w.draws[j]) {
      var k := RowOfReady(w, i);
      var l := RowOfReady(w, j);
      EarlierRowFirst(w, k, l);
      RowFacts(w, used, k);
      RowFacts(w, used, l);
      assert Compatible(q.rows[k], q.rows[l]);
      RowsCompatibleExactly(w, used, k, l);
    }
  }

  // The transaction is admissible exactly when every code and every ref the rendered items need is still free,
  // and no two of them need one code: ids are fresh, and refs differ since the items were checked.
  lemma BatchAcceptedExactly(w: Work, db: Tables, now: Time, drawn: seq<string>)
    requires Built(w, db.codes.Keys) && |w.plans| == |w.draws|
    ensures Admissible(db, Request(w.rows, now, drawn)) <==>
            CodesFree(db, w.plans, w.draws) && RefsFree(db, w.b.userId, w.plans, w.draws)
  {
    hide Built, Admissible, CodesFree, RefsFree;
    if CodesFree(db, w.plans, w.draws) && RefsFree(db, w.b.userId, w.plans, w.draws) {
      FreeIsAdmissible(w, db, now, drawn);
    }
    if Admissible(db, Request(w.rows, now, drawn)) {
      AdmissibleIsFree(w, db, now, drawn);
    }
  }

  // The reason a row is refused: its code is taken, or its ref.
  lemma RowRefusedFor(w: Work, db: Tables, now: Time, drawn: seq<string>, k: nat)
    requires Built(w, db.codes.Keys) && |w.plans| == |w.draws| && k < |w.rows|
    ensures var fault := MapRowFault(db, Request(w.rows, now, drawn), k);
            || fault.None?
            || (fault == Some(AliasTaken) && !CodesFree(db, w.plans, w.draws))
            || (fault == Some(ClientRefTaken) && !RefFree(db, w.b.userId, w.rows[k].clientRef))
  {
    hide Built, Canonical, RowFrom, CodesFree, Taken, ReadyAt;
    var q, used := Request(w.rows, now, drawn), db.codes.Keys;
    RowFacts(w, used, k);
    forall j | 0 <= j < k
      ensures w.rows[j].id != w.rows[k].id
              && (w.rows[k].clientRef != "" ==> !HasRef(w.rows[j], w.rows[k].userId, w.rows[k].clientRef)) {
      RowsDiffer(w, used, j, k);
    }
    if MapRowFault(db, q, k) == Some(AliasTaken) {
      RowCodeNotFree(w, db, now, drawn, k);
    }
  }

  lemma RowCodeNotFree(w: Work, db: Tables, now: Time, drawn: seq<string>, k: nat)
    requires Built(w, db.codes.Keys) && |w.plans| == |w.draws| && k < |w.rows|
    requires Taken(db, w.rows[k].shortCode) || exists j :: 0 <= j < k && Key(w.rows[j]) == Key(w.rows[k])
    ensures !CodesFree(db, w.plans, w.draws)
  {
    hide Built, RowFrom, ReadyAt, Taken, Lower, Trim;
    var used := db.codes.Keys;
    RowFacts(w, used, k);
    if j :| 0 <= j < k && Key(w.rows[j]) == Key(w.rows[k]) {
      RowFacts(w, used, j);
      RowsDiffer(w, used, j, k);
    }
  }

  // A ref that was free when the item was checked and is used now was taken in between.
  lemma RefLost(w: Work, db: Tables, k: nat)
    requires Built(w, db.codes.Keys) && |w.plans| == |w.draws| == |w.b.items| && Viewed(w.b, |w.plans|) && k < |w.rows|
    requires !RefFree(db, w.b.userId, w.rows[k].clientRef)
    ensures |w.at| == |w.rows| && LostRef(w.b, w.plans, w.draws, db, w.at[k])
  {
    RowFacts(w, db.codes.Keys, k);
    RowRefWasFree(w, w.at[k]);
    hide Built, ClassOf, RowFrom, Canonical;
  }

  lemma RowRefWasFree(w: Work, i: nat)
    requires Planned(w) && |w.plans| == |w.draws| && Viewed(w.b, |w.plans|) && i < |w.plans| && w.plans[i].Candidate?
    ensures RefFree(w.b.views[i].refs, w.b.userId, w.plans[i].p.clientRef)
  {
    hide RowsOfBatch;
    assert w.plans[i] == ClassOf(w.b, i);
    hide ClassOf;
    CandidateFacts(w.b, i);
  }

  lemma {:induction false} RefusalHasReason(w: Work, db: Tables, now: Time, drawn: seq<string>, n: nat)
    requires Built(w, db.codes.Keys) && |w.plans| == |w.draws| == |w.b.items| && Viewed(w.b, |w.plans|) && n <= |w.rows|
    ensures var fault := MapFault(db, Request(w.rows, now, drawn), n);
            || fault.None?
            || (fault == Some(AliasTaken) && !CodesFree(db, w.plans, w.draws))
            || (fault == Some(ClientRefTaken) && exists i: nat :: LostRef(w.b, w.plans, w.draws, db, i))
    decreases n
  {
    hide Built, MapRowFault, CodesFree, LostRef, RefFree;
    if n > 0 {
      RefusalHasReason(w, db, now, drawn, n - 1);
      RowRefusedFor(w, db, now, drawn, n - 1);
      if !RefFree(db, w.b.userId, w.rows[n - 1].clientRef) {
        RefLost(w, db, n - 1);
      }
    }
  }

  // ---- what the caller gets back ----

  // outcome: how the one transaction ended; None means it went through.
  ghost predicate Answers(userId: string, plans: seq<Class>, draws: seq<Draw>, outcome: Option<Option<StoreError>>,
                          after: Tables, i: nat, r: BatchResult)
    requires |plans| == |draws| && i < |plans|
  {
    match plans[i]
    case Answer(a) => r == a
    case Candidate(p) =>
      if !Renders(p, draws[i]) then r == Unrendered(plans[i], draws[i])
      else if outcome.Some? then r == Rejected(BatchRefused(outcome.value))
      else
        && r.Created? && r.code.id == draws[i].id && r.code.id in after.codes && after.codes[r.code.id] == r.code
        && Carries(r.code, userId, p) && r.code.shortCode == CodeFor(p, draws[i])
  }

  // The answer an item keeps when it contributes no row, and the answer of one that does.
  function Unrendered(plan: Class, d: Draw): BatchResult {
    match plan
    case Answer(a) => a
    case Candidate(_) => Rejected(if d.rendered.None? then RenderFailed else BlobFailed)
  }

  function Inserted(outcome: Option<Option<StoreError>>, c: Code, now: Time, drawn: string): BatchResult {
    match outcome
    case None => Created(RowOf(c, now, drawn))
    case Some(e) => Rejected(BatchRefused(e))
  }

  // ---- steps of the batch methods ----

  lemma OneMoreRef(items: seq<CreateInput>, i: nat, r: string)
    requires i < |items|
    ensures RefSeen(items, i + 1, r) <==> RefSeen(items, i, r) || (UsesRef(items[i]) && items[i].clientRef == r)
  {
    if RefSeen(items, i + 1, r) {
      var j :| 0 <= j < i + 1 && UsesRef(items[j]) && items[j].clientRef == r;
      assert j == i || RefSeen(items, i, r);
    }
    if UsesRef(items[i]) && items[i].clientRef == r {
      assert RefSeen(items, i + 1, r);
    }
  }

  lemma OneMoreSeen(b: Sent, i: nat)
    requires Viewed(b, i + 1)
    ensures forall r :: RefSeen(b.items, i + 1, r) <==>
              RefSeen(b.items, i, r) || (UsesRef(b.items[i]) && b.items[i].clientRef == r)
    ensures forall a :: AliasSeen(b, i + 1, a) <==> AliasSeen(b, i, a) || TakesAlias(b, i, a)
  {
    hide RefSeen, ClassOf;
    forall r
      ensures RefSeen(b.items, i + 1, r) <==>
                RefSeen(b.items, i, r) || (UsesRef(b.items[i]) && b.items[i].clientRef == r) {
      OneMoreRef(b.items, i, r);
    }
  }

  // What was decided of the first items stays decided when later items are checked against later stores.
  lemma {:induction false} ViewsExtend(b: Sent, more: View, i: nat)
    requires Viewed(b, i)
    ensures forall a :: AliasSeen(Longer(b, more), i, a) == AliasSeen(b, i, a)
    ensures i > 0 ==> ClassOf(Longer(b, more), i - 1) == ClassOf(b, i - 1)
    decreases i
  {
    if i > 0 {
      ViewsExtend(b, more, i - 1);
      SameClass(b, Longer(b, more), i - 1);
      hide ClassOf;
      forall a ensures AliasSeen(Longer(b, more), i, a) == AliasSeen(b, i, a) {
        assert TakesAlias(Longer(b, more), i - 1, a) == TakesAlias(b, i - 1, a);
      }
    }
  }

  lemma SameClass(b: Sent, d: Sent, i: nat)
    requires Viewed(b, i + 1) && Viewed(d, i + 1)
    requires d.cfg == b.cfg && d.userId == b.userId && d.items == b.items && d.views[i] == b.views[i]
    requires forall a :: AliasSeen(d, i, a) == AliasSeen(b, i, a)
    ensures ClassOf(d, i) == ClassOf(b, i)
  {
    hide Prepare, AliasSeen, RefSeen;
  }

  lemma ClassesExtend(b: Sent, more: View, plans: seq<Class>, c: Class)
    requires Classes(b, plans) && |b.views| == |plans| < |b.items|
    requires c == ClassOf(Longer(b, more), |plans|)
    ensures Classes(Longer(b, more), plans + [c])
  {
    hide ClassOf;
    var d := Longer(b, more);
    forall i {:trigger (plans + [c])[i]} | 0 <= i < |plans| + 1 ensures (plans + [c])[i] == ClassOf(d, i) {
      if i < |plans| {
        assert plans[i] == ClassOf(b, i);
        ViewsExtend(b, more, i + 1);
      }
    }
  }

  lemma NothingSeenYet(cfg: Config, userId: string, items: seq<CreateInput>)
    ensures forall r :: !RefSeen(items, 0, r)
    ensures forall a :: !AliasSeen(Sent(cfg, userId, items, []), 0, a)
    ensures Classes(Sent(cfg, userId, items, []), [])
  {
  }

  lemma OneMoreView(start: Tables, run: seq<Op>, views: seq<View>, view: View)
    requires ViewsOnPath(start, run, views) && OnPath(start, run, view.refs) && OnPath(start, run, view.names)
    ensures ViewsOnPath(start, run, views + [view])
    ensures forall db :: OneView(views, db) && view == View(db, db) ==> OneView(views + [view], db)
  {
    hide OnPath;
  }

  lemma ViewsStillOnPath(start: Tables, run: seq<Op>, longer: seq<Op>, db: Tables, views: seq<View>)
    requires RunTo(start, longer, db) && run <= longer && ViewsOnPath(start, run, views)
    ensures ViewsOnPath(start, longer, views)
  {
    hide OnPath;
    forall k {:trigger views[k]} | 0 <= k < |views|
      ensures OnPath(start, longer, views[k].refs) && OnPath(start, longer, views[k].names) {
      StillOnPath(start, run, longer, views[k].refs);
      StillOnPath(start, run, longer, views[k].names);
    }
  }

  // A request without a user asks the store nothing.
  ghost function UnaskedTrace(cfg: Config, userId: string, items: seq<CreateInput>, db: Tables): Trace {
    Trace(Sent(cfg, userId, items, seq(|items|, _ => View(db, db))),
          seq(|items|, _ => Answer(Rejected(Invalid(UserRequired)))), db, Some(None), [], {})
  }

  lemma NothingAsked(cfg: Config, userId: string, items: seq<CreateInput>, db: Tables, results: seq<BatchResult>,
                     others: seq<seq<Foreign>>)
    ensures var t := UnaskedTrace(cfg, userId, items, db);
            && ViewsOnPath(db, t.run, t.b.views) && OneView(t.b.views, db) && OwnBatch(db, t.run, t.mine)
            && Gained(db, db, results) && GrownByOthers(db.codes.Keys, db.codes.Keys, others)
  {
    NothingYet(db, []);
  }

  // The one transaction, if the store accepted it, is the request's own write.
  lemma BatchRun(start: Tables, run: seq<Op>, seen: Tables, q: Request, landed: bool, after: Tables,
                 others: seq<seq<Foreign>>) returns (longer: seq<Op>, mine: set<nat>)
    requires RunTo(start, run, seen) && Kept(start, seen) && RestIsForeign(run, {}, others)
    requires if landed then Succeeds(seen, CreateCodes(q)) && after == Step(seen, CreateCodes(q)) else after == seen
    ensures RunTo(start, longer, after) && Kept(start, after) && RestIsForeign(longer, mine, others)
    ensures run <= longer && OnPath(start, longer, seen) && OwnBatch(start, longer, mine) && (!landed ==> mine == {})
  {
    hide Succeeds, Step, RunTo, Kept, RestIsForeign, OneOwnWrite, OnPath;
    HereOnPath(start, run, seen);
    longer, mine := run, {};
    if landed {
      var op := CreateCodes(q);
      KeptCreation(seen, q) by { SuccessIsOk(seen, q); }
      KeptTransitive(start, seen, after);
      OwnWrite(start, run, seen, op) by { SuccessIsOk(seen, q); }
      RestAndMine(run, others, op);
      longer, mine := run + [op], {|run|};
      StillOnPath(start, run, longer, seen) by { RunsOk(start, longer, after); }
    }
  }

  lemma SuccessIsOk(db: Tables, q: Request)
    requires Succeeds(db, CreateCodes(q))
    ensures q.Ok() && OpOk(CreateCodes(q))
  {
  }

  lemma RowsOfBatchNone(userId: string, plans: seq<Class>, draws: seq<Draw>)
    requires |plans| == |draws|
    ensures RowsOfBatch(userId, plans, draws, [], [], 0)
  {
  }

  lemma RowsOfBatchSkip(userId: string, plans: seq<Class>, draws: seq<Draw>, rows: seq<Code>, at: seq<nat>, n: nat)
    requires |plans| == |draws| && n < |plans| && RowsOfBatch(userId, plans, draws, rows, at, n)
    requires !ReadyAt(plans, draws, n)
    ensures RowsOfBatch(userId, plans, draws, rows, at, n + 1)
  {
    hide RowFrom, ReadyAt;
  }

  lemma RowsOfBatchAdd(userId: string, plans: seq<Class>, draws: seq<Draw>, rows: seq<Code>, at: seq<nat>, n: nat,
                       c: Code)
    requires |plans| == |draws| && n < |plans| && RowsOfBatch(userId, plans, draws, rows, at, n)
    requires ReadyAt(plans, draws, n)
    requires RowFrom(c, userId, plans[n].p, CodeFor(plans[n].p, draws[n]), draws[n])
    ensures RowsOfBatch(userId, plans, draws, rows + [c], at + [n], n + 1)
  {
    hide RowFrom, Renders;
    var more := at + [n];
    forall i: nat | i < n + 1 && ReadyAt(plans, draws, i) ensures i in more {
      if i == n {
        assert more[|at|] == n;
      } else {
        assert i in at;
      }
    }
  }

  lemma RowsOfBatchShape(userId: string, plans: seq<Class>, draws: seq<Draw>, rows: seq<Code>, at: seq<nat>, n: nat)
    requires |plans| == |draws| && n <= |plans| && RowsOfBatch(userId, plans, draws, rows, at, n)
    ensures |rows| == |at| && forall k :: 0 <= k < |at| ==> at[k] < n
    ensures rows == [] <==> forall i: nat {:trigger ReadyAt(plans, draws, i)} :: i < n ==> !ReadyAt(plans, draws, i)
    ensures forall j, k {:trigger at[j], at[k]} :: 0 <= j < k < |at| ==> at[j] < at[k]
    ensures forall i: nat :: i < n && i !in at ==> !ReadyAt(plans, draws, i)
  {
    hide RowFrom, ReadyAt;
    if rows != [] {
      assert ReadyAt(plans, draws, at[0]);
    }
  }

  lemma NoRows(flying: map<string, Code>)
    ensures WithRows(flying, []) == flying && FreshRows(flying.Keys, [])
  {
  }

  lemma NewIdIsFresh(flying: map<string, Code>, rows: seq<Code>, at: seq<nat>, draws: seq<Draw>, i: nat)
    requires FreshRows(flying.Keys, rows) && |rows| == |at| && i < |draws| && draws[i].id !in flying
    requires forall k :: 0 <= k < |at| ==> at[k] < i
    requires forall k {:trigger rows[k]} :: 0 <= k < |rows| ==> rows[k].id == draws[at[k]].id
    requires forall j, k {:trigger draws[j], draws[k]} :: 0 <= j < k < |draws| ==> draws[j].id != draws[k].id
    ensures draws[i].id !in WithRows(flying, rows)
    ensures forall c: Code :: c.id == draws[i].id ==> FreshRows(flying.Keys, rows + [c])
  {
    WithRowsKeys(flying, rows);
    hide WithRows;
    forall k | 0 <= k < |rows| ensures rows[k].id != draws[i].id {
      var j := at[k];
      assert draws[j].id != draws[i].id;
    }
    forall c: Code | c.id == draws[i].id ensures FreshRows(flying.Keys, rows + [c]) {
      var all := rows + [c];
      assert forall k :: 0 <= k < |rows| ==> all[k] == rows[k];
    }
  }

  lemma BatchCacheAgrees(db: Tables, q: Request, cache: map<string, Resolution>)
    requires db.driver.MapStore? && Inv(db) && Trimmed(db) && CacheAgrees(db, cache) && q.Ok() && Admissible(db, q)
    requires forall k {:trigger q.rows[k]} :: 0 <= k < |q.rows| ==> Canonical(q.rows[k].shortCode)
    ensures var gone := set k | 0 <= k < |q.rows| :: CacheKey(q.rows[k].shortCode);
            Inv(InsertAll(db, q)) && Trimmed(InsertAll(db, q)) && CacheAgrees(InsertAll(db, q), cache - gone)
  {
    hide Inv, Trimmed, CacheAgrees, Admissible, Lower, Trim;
    var op := CreateCodes(q);
    var gone := set k | 0 <= k < |q.rows| :: CacheKey(q.rows[k].shortCode);
    assert CreatesTrimmed(op) && Invalidated(db, op) == gone by {
      assert forall k {:trigger q.rows[k]} :: 0 <= k < |q.rows| ==>
               Lower(q.rows[k].shortCode) == q.rows[k].shortCode && Trim(q.rows[k].shortCode) == q.rows[k].shortCode;
    }
    assert Succeeds(db, op) && Step(db, op) == InsertAll(db, q);
    hide CreatesTrimmed, Invalidated, Succeeds, Step;
    StepPreservesInv(db, op);
    MutationKeepsAgreement(db, op, cache);
    StepKeepsTrimmed(db, op);
  }

  // What the joint invariant needs once the batch landed and its keys are invalidated.
  lemma BatchSettles(cfg: Config, db: Tables, w: Work, q: Request, flying: map<string, Code>,
                     cache: map<string, Resolution>, unsettled: set<string>, blobs: map<string, Blob>)
    requires db.driver.MapStore? && Inv(db) && Trimmed(db) && CacheAgrees(db, cache - unsettled)
    requires Built(w, db.codes.Keys) && q.rows == w.rows && q.Ok() && Admissible(db, q)
    requires FreshRows(flying.Keys, q.rows) && db.codes.Keys !! WithRows(flying, q.rows).Keys
    requires BlobsMatch(cfg, db.codes + WithRows(flying, q.rows), blobs)
    ensures var after, gone := InsertAll(db, q), set k | 0 <= k < |q.rows| :: CacheKey(q.rows[k].shortCode);
            && Inv(after) && Trimmed(after) && CacheAgrees(after, (cache - gone) - unsettled)
            && after.codes.Keys !! flying.Keys && BlobsMatch(cfg, after.codes + flying, blobs)
  {
    hide Inv, Trimmed, CacheAgrees, BlobsMatch, Built, Admissible, WithRows, FreshRows, Canonical, InsertAll, CacheKey;
    BuiltRows(w, db.codes.Keys);
    FlyingBelow(flying, q.rows);
    PersistedBatchMatches(cfg, db, q, flying, blobs);
    BatchCacheAgrees(db, q, cache - unsettled);
    var gone := set k | 0 <= k < |q.rows| :: CacheKey(q.rows[k].shortCode);
    assert (cache - unsettled) - gone == (cache - gone) - unsettled;
  }

  lemma QuietAnswers(userId: string, plans: seq<Class>, draws: seq<Draw>, outcome: Option<Option<StoreError>>,
                     after: Tables, i: nat)
    requires |plans| == |draws| && i < |plans| && !ReadyAt(plans, draws, i)
    ensures Answers(userId, plans, draws, outcome, after, i, Unrendered(plans[i], draws[i]))
  {
  }

  lemma NothingToInsert(db: Tables, q: Request, flying: map<string, Code>)
    requires q.Ok() && q.rows == []
    ensures Admissible(db, q) && InsertAll(db, q) == db && WithRows(flying, q.rows) == flying
  {
  }

  // What a transaction that went through, or did not, left behind.
  ghost predicate Landed(w: Work, db: Tables, outcome: Option<Option<StoreError>>, now: Time, drawn: seq<string>,
                         after: Tables) {
    && |drawn| == |w.rows|
    && (if outcome.None?
        then Admissible(db, Request(w.rows, now, drawn)) && after == InsertAll(db, Request(w.rows, now, drawn))
        else after == db)
  }

  lemma RowAnswers(w: Work, db: Tables, outcome: Option<Option<StoreError>>, now: Time, drawn: seq<string>,
                   after: Tables, k: nat)
    requires Built(w, db.codes.Keys) && Landed(w, db, outcome, now, drawn, after) && k < |w.rows|
    ensures |w.at| == |w.rows| && w.at[k] < |w.plans| == |w.draws|
    ensures Answers(w.b.userId, w.plans, w.draws, outcome, after, w.at[k], Inserted(outcome, w.rows[k], now, drawn[k]))
  {
    hide Built, RowFrom, RowOf, Carries, Lower, Trim, InsertAll;
    RowFacts(w, db.codes.Keys, k);
    var i := w.at[k];
    if outcome.None? {
      var q := Request(w.rows, now, drawn);
      InsertedBatch(db, q);
      assert q.Row(k) == RowOf(w.rows[k], now, drawn[k]);
      PersistedCarries(w.b.userId, w.plans[i].p, w.rows[k].shortCode, w.draws[i], w.rows[k], now, drawn[k]);
    }
  }

  // What an answer says of the item it is given for.
  lemma AnswerMeans(b: Sent, plans: seq<Class>, draws: seq<Draw>, outcome: Option<Option<StoreError>>, after: Tables,
                    i: nat, r: BatchResult)
    requires Classes(b, plans) && |plans| == |b.items| == |draws| && i < |b.items| && Inv(b.views[i].refs)
    requires Answers(b.userId, plans, draws, outcome, after, i, r)
    ensures r.Existing? ==>
              && r.code.id in b.views[i].refs.codes && b.views[i].refs.codes[r.code.id] == r.code
              && r.code.userId == b.userId && r.code.clientRef == b.items[i].clientRef != ""
              && r.code.destination == Trim(b.items[i].destination)
              && r.code.mode == (if b.items[i].mode == NoMode then Dynamic else b.items[i].mode)
    ensures r.Created? ==>
              && Asked(r.code, b.userId, b.items[i]) && r.code.id == draws[i].id
              && r.code.id in after.codes && after.codes[r.code.id] == r.code
              && r.code.shortCode == (if b.items[i].alias != "" then Lower(Trim(b.items[i].alias)) else draws[i].code)
    ensures ClassOf(b, i).Answer? ==> r == ClassOf(b, i).result
    ensures ClassOf(b, i).Candidate? ==>
              if draws[i].rendered.None? then r == Rejected(RenderFailed)
              else if (b.items[i].logo != "" && !draws[i].logoPut) || !draws[i].imagePut then r == Rejected(BlobFailed)
              else if outcome.Some? then r == Rejected(BatchRefused(outcome.value))
              else r.Created?
  {
    assert plans[i] == ClassOf(b, i);
    if plans[i].Answer? {
      if r.Existing? {
        ExistingMeans(b, i, r.code);
      } else {
        hide Prepare, AliasSeen, RefSeen, Trim, Lower, Available, SameTarget, RefUsed;
      }
    } else {
      CandidateFacts(b, i);
      PreparedChoices(b.cfg, b.userId, b.items[i], plans[i].p);
      hide ClassOf, Prepare, Carries, Asked, Trim, Lower;
      if r.Created? {
        CarriesAsked(b.cfg, b.userId, b.items[i], plans[i].p, r.code);
      }
    }
  }

  lemma ExistingMeans(b: Sent, i: nat, c: Code)
    requires Viewed(b, i + 1) && Inv(b.views[i].refs) && ClassOf(b, i) == Answer(Existing(c))
    ensures c.id in b.views[i].refs.codes && b.views[i].refs.codes[c.id] == c
    ensures c.userId == b.userId && c.clientRef == b.items[i].clientRef != ""
    ensures c.destination == Trim(b.items[i].destination)
    ensures c.mode == (if b.items[i].mode == NoMode then Dynamic else b.items[i].mode)
  {
    assert ByRef(b.views[i].refs, b.userId, b.items, i) == Some(Answer(Existing(c))) by {
      hide ByRef, Prepare, AliasSeen, Available, Inv;
    }
    hide ClassOf, Inv;
    ExistingByRef(b.views[i].refs, b.userId, b.items, i, c);
  }

  lemma ExistingByRef(db: Tables, userId: string, items: seq<CreateInput>, i: nat, c: Code)
    requires i < |items| && Inv(db) && ByRef(db, userId, items, i) == Some(Answer(Existing(c)))
    ensures c.id in db.codes && db.codes[c.id] == c && c.userId == userId && c.clientRef == items[i].clientRef != ""
    ensures c.destination == Trim(items[i].destination)
    ensures c.mode == (if items[i].mode == NoMode then Dynamic else items[i].mode)
  {
    hide Inv, RefSeen, Trim;
    var id :| id in db.codes && HasRef(db.codes[id], userId, items[i].clientRef) && db.codes[id] == c;
    RowIsSound(db, id);
  }

  lemma RowIsSound(db: Tables, id: string)
    requires Inv(db) && id in db.codes
    ensures RowOk(id, db.codes[id]) && db.codes[id].id == id && db.codes[id].mode != NoMode
  {
    assert RowOk(id, db.codes[id]);
    hide Lower;
  }

  // Every item has its answer, and the store gained exactly the rows answered as created.
  lemma EveryItemAnswered(w: Work, db: Tables, outcome: Option<Option<StoreError>>, now: Time, drawn: seq<string>,
                          after: Tables, results: seq<BatchResult>)
    requires Built(w, db.codes.Keys) && Landed(w, db, outcome, now, drawn, after)
    requires |results| == |w.plans| == |w.draws| && |w.rows| == |w.at|
    requires forall k :: 0 <= k < |w.at| ==>
               w.at[k] < |w.plans| && results[w.at[k]] == Inserted(outcome, w.rows[k], now, drawn[k])
    requires forall i: nat :: i < |w.plans| && i !in w.at ==> results[i] == Unrendered(w.plans[i], w.draws[i])
    ensures forall i :: 0 <= i < |w.plans| ==> Answers(w.b.userId, w.plans, w.draws, outcome, after, i, results[i])
    ensures Gained(db, after, results)
  {
    hide Answers, Classes, FreshDraws, Admissible, RowsOfBatch, Unrendered, InsertAll, RowFrom, ReadyAt, RowOf;
    RowsOfBatchShape(w.b.userId, w.plans, w.draws, w.rows, w.at, |w.plans|);
    forall i: nat | i < |w.plans| ensures Answers(w.b.userId, w.plans, w.draws, outcome, after, i, results[i]) {
      if i in w.at {
        var k :| 0 <= k < |w.at| && w.at[k] == i;
        RowAnswers(w, db, outcome, now, drawn, after, k);
      } else {
        QuietAnswers(w.b.userId, w.plans, w.draws, outcome, after, i);
      }
    }
    if outcome.None? {
      BatchGains(w, db, outcome, now, drawn, after, results);
    }
  }

  lemma BatchGains(w: Work, db: Tables, outcome: Option<Option<StoreError>>, now: Time, drawn: seq<string>,
                   after: Tables, results: seq<BatchResult>)
    requires outcome.None? && Landed(w, db, outcome, now, drawn, after) && |w.rows| == |w.at|
    requires forall k :: 0 <= k < |w.at| ==>
               w.at[k] < |results| && results[w.at[k]] == Inserted(outcome, w.rows[k], now, drawn[k])
    ensures Gained(db, after, results)
  {
    hide Admissible, InsertAll, RowOf;
    InsertedBatch(db, Request(w.rows, now, drawn));
    forall id | id in after.codes && id !in db.codes
      ensures exists i :: 0 <= i < |results| && results[i].Created? && results[i].code.id == id {
      var k :| 0 <= k < |w.rows| && w.rows[k].id == id;
      RowIdentity(w.rows[k], now, drawn[k]);
      assert results[w.at[k]].Created?;
    }
  }

  // ---- sending a batch again ----

  predicate Answered(r: BatchResult) { r.Created? || r.Existing? }

  // The answer to an item whose ref this row carries.
  function Resent(row: Code, destination: string): BatchResult {
    if row.destination == destination then Existing(row) else Rejected(RefConflict(row.id))
  }

  // Once a row carries an item's ref and mode, the item is answered with that row or with a conflict naming it,
  // as its destination is still the item's or not, as long as the item is the first in its batch to use the ref.
  lemma ResendFindsRow(b: Sent, i: nat, id: string)
    requires Viewed(b, i + 1) && Inv(b.views[i].refs)
    requires UsesRef(b.items[i]) && !RefSeen(b.items, i, b.items[i].clientRef)
    requires id in b.views[i].refs.codes && HasRef(b.views[i].refs.codes[id], b.userId, b.items[i].clientRef)
    requires ModeOf(b.views[i].refs.codes[id].mode) == ModeOf(b.items[i].mode)
    ensures ClassOf(b, i) == Answer(Resent(b.views[i].refs.codes[id], Trim(b.items[i].destination)))
  {
    hide Inv, RefSeen, Prepare, ByName, AliasSeen, Available, Trim;
    RefRowIsUnique(b.views[i].refs, b.userId, b.items[i].clientRef, id);
  }

  // A code answered for an item carries the item's ref, destination and mode.
  lemma AnsweredCarriesItem(b: Sent, plans: seq<Class>, draws: seq<Draw>, outcome: Option<Option<StoreError>>,
                            after: Tables, i: nat, r: BatchResult)
    requires Classes(b, plans) && |plans| == |b.items| == |draws| && i < |b.items| && UsesRef(b.items[i])
    requires Answers(b.userId, plans, draws, outcome, after, i, r) && Answered(r)
    ensures HasRef(r.code, b.userId, b.items[i].clientRef) && SameTarget(r.code, b.items[i])
    ensures !RefSeen(b.items, i, b.items[i].clientRef)
    ensures r.Existing? ==> exists id :: id in b.views[i].refs.codes && b.views[i].refs.codes[id] == r.code
    ensures r.Created? ==> r.code.id in after.codes && after.codes[r.code.id] == r.code
  {
    assert plans[i] == ClassOf(b, i);
    if plans[i].Candidate? {
      CandidateFacts(b, i);
      PreparedTarget(b.cfg, b.userId, b.items[i], plans[i].p);
      hide Prepare;
    } else {
      hide Prepare;
      assert RefUsed(b.views[i].refs, b.userId, b.items[i].clientRef);
      var id :| id in b.views[i].refs.codes && HasRef(b.views[i].refs.codes[id], b.userId, b.items[i].clientRef)
                && b.views[i].refs.codes[id] == r.code;
    }
  }

  lemma PreparedTarget(cfg: Config, userId: string, in_: CreateInput, p: Prepared)
    requires Prepare(cfg, userId, in_) == Ready(p)
    ensures p.mode == ModeOf(in_.mode) && ModeOf(p.mode) == p.mode && p.destination == Trim(in_.destination)
    ensures p.clientRef == in_.clientRef
  {
    hide Prepare;
  }

  // Whatever happened in between, an item that got a code gets that code's row as it is when the item is checked
  // again, or a conflict naming it once somebody changed its destination.
  lemma ResentIsExisting(b: Sent, plans: seq<Class>, draws: seq<Draw>, outcome: Option<Option<StoreError>>,
                         after: Tables, i: nat, r: BatchResult, again: Sent)
    requires Classes(b, plans) && |plans| == |b.items| == |draws| && i < |b.items| && UsesRef(b.items[i])
    requires Answers(b.userId, plans, draws, outcome, after, i, r) && Answered(r)
    requires again.userId == b.userId && again.items == b.items && Viewed(again, i + 1) && Inv(again.views[i].refs)
    requires r.code.id in again.views[i].refs.codes && RowEvolves(r.code, again.views[i].refs.codes[r.code.id])
    ensures ClassOf(again, i) == Answer(Resent(again.views[i].refs.codes[r.code.id], r.code.destination))
  {
    hide ClassOf, Inv, Answers, Classes;
    AnsweredCarriesItem(b, plans, draws, outcome, after, i, r);
    ResendFindsRow(again, i, r.code.id);
  }

  lemma PlannedAnswer(b: Sent, plans: seq<Class>, draws: seq<Draw>, outcome: Option<Option<StoreError>>,
                      after: Tables, i: nat, r: BatchResult)
    requires Classes(b, plans) && |plans| == |b.items| == |draws| && i < |b.items|
    requires Answers(b.userId, plans, draws, outcome, after, i, r) && ClassOf(b, i).Answer?
    ensures r == ClassOf(b, i).result
  {
    hide ClassOf;
    assert plans[i] == ClassOf(b, i);
  }

  // The row as it became: same identity, and the very same row while its version stands.
  ghost predicate Later(c: Code, db: Tables) { c.id in db.codes && RowEvolves(c, db.codes[c.id]) }

  lemma LaterThen(c: Code, db: Tables, after: Tables)
    requires Later(c, db) && Evolves(db, after)
    ensures Later(c, after)
  {
  }

  lemma LaterStill(c: Code, db: Tables, after: Tables)
    requires Later(c, db) && Kept(db, after)
    ensures Later(c, after)
  {
    LaterThen(c, db, after);
  }

  lemma UneditedIsExisting(c: Code, db: Tables)
    requires Later(c, db) && db.codes[c.id].version == c.version
    ensures Resent(db.codes[c.id], c.destination) == Existing(c)
  {
  }

  // What was answered for an item is in the store the request left, edited at most.
  lemma AnsweredStays(start: Tables, t: Trace, draws: seq<Draw>, after: Tables, results: seq<BatchResult>, i: nat)
    requires Classes(t.b, t.plans) && |t.plans| == |t.b.items| == |draws| == |results| == |t.b.views| && i < |draws|
    requires Answers(t.b.userId, t.plans, draws, t.outcome, after, i, results[i]) && Answered(results[i])
    requires UsesRef(t.b.items[i]) && Inv(start)
    requires RunTo(start, t.run, after) && ViewsOnPath(start, t.run, t.b.views)
    ensures Later(results[i].code, after)
  {
    hide Classes, Answers, RunTo, OnPath, Inv;
    AnsweredCarriesItem(t.b, t.plans, draws, t.outcome, after, i, results[i]);
    if results[i].Existing? {
      var view, c := t.b.views[i].refs, results[i].code;
      var id :| id in view.codes && view.codes[id] == c;
      assert OnPath(start, t.run, t.b.views[i].refs);
      OnPathEvolves(start, t.run, view);
      EndEvolves(start, t.run, view, after);
      RowIsSound(view, id);
    }
  }

  lemma ViewIsLater(start: Tables, t: Trace, i: nat)
    requires ViewsOnPath(start, t.run, t.b.views) && i < |t.b.views| && Inv(start)
    ensures Evolves(start, t.b.views[i].refs) && Inv(t.b.views[i].refs)
  {
    hide OnPath, Evolves, Inv;
    assert OnPath(start, t.run, t.b.views[i].refs);
    OnPathEvolves(start, t.run, t.b.views[i].refs);
  }

  // What the caller of a batch may read off the answers, against the stores its items were checked against.
  lemma BatchMeans(start: Tables, t: Trace, draws: seq<Draw>, after: Tables, results: seq<BatchResult>)
    requires Inv(start) && ViewsOnPath(start, t.run, t.b.views) && Classes(t.b, t.plans)
    requires |t.plans| == |t.b.items| == |draws| == |results| == |t.b.views|
    requires forall i :: 0 <= i < |results| ==> Answers(t.b.userId, t.plans, draws, t.outcome, after, i, results[i])
    ensures forall i :: 0 <= i < |results| && results[i].Existing? ==>
              && results[i].code.id in t.b.views[i].refs.codes
              && t.b.views[i].refs.codes[results[i].code.id] == results[i].code
              && results[i].code.userId == t.b.userId && results[i].code.clientRef == t.b.items[i].clientRef != ""
              && results[i].code.destination == Trim(t.b.items[i].destination)
              && results[i].code.mode == (if t.b.items[i].mode == NoMode then Dynamic else t.b.items[i].mode)
    ensures forall i, id {:trigger HeldBy(t.b.views[i].refs, id, t.b.userId, t.b.items[i].clientRef)} ::
              (0 <= i < |results| && FirstWithRef(t.b.items, i)
               && HeldBy(t.b.views[i].refs, id, t.b.userId, t.b.items[i].clientRef)) ==>
                results[i] == (if t.b.views[i].refs.codes[id].destination == Trim(t.b.items[i].destination)
                                  && t.b.views[i].refs.codes[id].mode
                                     == (if t.b.items[i].mode == NoMode then Dynamic else t.b.items[i].mode)
                               then Existing(t.b.views[i].refs.codes[id]) else Rejected(RefConflict(id)))
    ensures forall i, j :: (0 <= j < i < |results| && 0 < |t.b.items[i].clientRef| <= 128
                            && t.b.items[j].clientRef == t.b.items[i].clientRef) ==>
              results[i] == Rejected(DuplicateRef)
    ensures forall i :: 0 <= i < |results| && results[i].Created? ==>
              && Asked(results[i].code, t.b.userId, t.b.items[i]) && results[i].code.id == draws[i].id
              && results[i].code.id in after.codes && after.codes[results[i].code.id] == results[i].code
              && results[i].code.shortCode
                 == (if t.b.items[i].alias != "" then Lower(Trim(t.b.items[i].alias)) else draws[i].code)
  {
    hide Inv, ViewsOnPath, Answers, Asked, Trim, Lower, ClassOf, Evolves;
    forall i | 0 <= i < |results|
      ensures Inv(t.b.views[i].refs) && Viewed(t.b, i + 1) && t.plans[i] == ClassOf(t.b, i) {
      ViewIsLater(start, t, i);
    }
    forall i | 0 <= i < |results|
      ensures results[i].Existing? ==>
                && results[i].code.id in t.b.views[i].refs.codes
                && t.b.views[i].refs.codes[results[i].code.id] == results[i].code
                && results[i].code.userId == t.b.userId && results[i].code.clientRef == t.b.items[i].clientRef != ""
                && results[i].code.destination == Trim(t.b.items[i].destination)
                && results[i].code.mode == (if t.b.items[i].mode == NoMode then Dynamic else t.b.items[i].mode)
      ensures results[i].Created? ==>
                && Asked(results[i].code, t.b.userId, t.b.items[i]) && results[i].code.id == draws[i].id
                && results[i].code.id in after.codes && after.codes[results[i].code.id] == results[i].code
                && results[i].code.shortCode
                   == (if t.b.items[i].alias != "" then Lower(Trim(t.b.items[i].alias)) else draws[i].code) {
      AnswerMeans(t.b, t.plans, draws, t.outcome, after, i, results[i]);
    }
    forall i, id {:trigger HeldBy(t.b.views[i].refs, id, t.b.userId, t.b.items[i].clientRef)}
      | 0 <= i < |results| && FirstWithRef(t.b.items, i)
        && HeldBy(t.b.views[i].refs, id, t.b.userId, t.b.items[i].clientRef)
      ensures results[i] == (if t.b.views[i].refs.codes[id].destination == Trim(t.b.items[i].destination)
                                && t.b.views[i].refs.codes[id].mode
                                   == (if t.b.items[i].mode == NoMode then Dynamic else t.b.items[i].mode)
                             then Existing(t.b.views[i].refs.codes[id]) else Rejected(RefConflict(id))) {
      KnownRefDecides(t.b, i, id);
      PlannedAnswer(t.b, t.plans, draws, t.outcome, after, i, results[i]);
    }
    forall i, j | 0 <= j < i < |results| && 0 < |t.b.items[i].clientRef| <= 128
      && t.b.items[j].clientRef == t.b.items[i].clientRef
      ensures results[i] == Rejected(DuplicateRef) {
      RepeatedRefDecides(t.b, i, j);
      PlannedAnswer(t.b, t.plans, draws, t.outcome, after, i, results[i]);
    }
  }

  // ---- drawing ids for two batches ----

  lemma SplitDraws(used: set<string>, draws: seq<Draw>, more: seq<Draw>, others: seq<seq<Foreign>>,
                   between: seq<seq<Foreign>>, othersAgain: seq<seq<Foreign>>)
    requires FreshDraws(used, draws + more) && Apart(others, Ids(draws + more))
    requires Apart(between, Ids(draws + more)) && Apart(othersAgain, Ids(draws + more))
    ensures FreshDraws(used, draws) && FreshDraws(used, more) && Apart(others, Ids(draws)) && Apart(others, Ids(more))
    ensures Apart(between, Ids(more)) && Apart(othersAgain, Ids(more))
    ensures forall i, j :: 0 <= i < |draws| && 0 <= j < |more| ==> draws[i].id != more[j].id
  {
    hide ForeignId, GeneratedShape;
    var all := draws + more;
    assert forall i :: 0 <= i < |draws| ==> all[i] == draws[i];
    assert forall j :: 0 <= j < |more| ==> all[|draws| + j] == more[j];
    assert Ids(draws) <= Ids(all) && Ids(more) <= Ids(all);
  }

  // Only drawn ids are answered as created.
  lemma CreatedAreDrawn(t: Trace, draws: seq<Draw>, after: Tables, results: seq<BatchResult>)
    requires |t.plans| == |t.b.items| == |draws| == |results|
    requires if t.b.userId == "" then forall i :: 0 <= i < |results| ==> results[i].Rejected?
             else Classes(t.b, t.plans)
                  && forall i :: 0 <= i < |results| ==>
                       Answers(t.b.userId, t.plans, draws, t.outcome, after, i, results[i])
    ensures forall i :: 0 <= i < |results| && results[i].Created? ==> results[i].code.id == draws[i].id
  {
    hide ClassOf, Answers;
    forall i | 0 <= i < |results| && results[i].Created? ensures results[i].code.id == draws[i].id {
      assert t.plans[i] == ClassOf(t.b, i);
      CreatedIsDrawn(t, draws, after, i, results[i]);
    }
  }

  lemma CreatedIsDrawn(t: Trace, draws: seq<Draw>, after: Tables, i: nat, r: BatchResult)
    requires |t.plans| == |t.b.items| == |draws| && i < |draws| && Viewed(t.b, i + 1) && t.plans[i] == ClassOf(t.b, i)
    requires Answers(t.b.userId, t.plans, draws, t.outcome, after, i, r) && r.Created?
    ensures r.code.id == draws[i].id
  {
    hide Prepare, AliasSeen, RefSeen, Carries, Renders;
  }

  lemma MoreStayFresh(t: Trace, draws: seq<Draw>, more: seq<Draw>, start: set<string>, flying: set<string>,
                      after: Tables, others: seq<seq<Foreign>>, results: seq<BatchResult>)
    requires FreshDraws(start + flying, more) && Apart(others, Ids(more))
    requires GrownByOthers(start, t.seen.codes.Keys, others)
    requires |results| == |draws| && Gained(t.seen, after, results)
    requires forall i :: 0 <= i < |results| && results[i].Created? ==> results[i].code.id == draws[i].id
    requires forall i, j :: 0 <= i < |draws| && 0 <= j < |more| ==> draws[i].id != more[j].id
    ensures FreshDraws(after.codes.Keys + flying, more)
  {
    hide ForeignId, GeneratedShape;
    DrawsStayFresh(start, t.seen.codes.Keys, flying, more, others);
    forall k {:trigger more[k]} | 0 <= k < |more| ensures FreshDraw(after.codes.Keys + flying, more[k]) {
      assert FreshDraw(t.seen.codes.Keys + flying, more[k]);
    }
  }
}
