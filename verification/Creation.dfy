// One creation attempt: what it draws, when it wins, and what it does to rows, images and cached answers.

module Creation {
  import opened Domain
  import opened Namespace
  import opened Drivers
  import opened Inputs
  import opened Blobs
  import opened Resolutions

  datatype ServiceError =
    | Invalid(input: InputError) | RenderFailed | BlobFailed | StoreRefused(store: StoreError) | Unavailable
    | DirectImmutable | NotOwned | VersionConflict(expected: int, actual: int) | KeptLosing
    | DuplicateRef | RefConflict(existing: string) | BatchRefused(reason: Option<StoreError>) | Undecided

  // Everything one creation attempt draws from outside: the random id and short code, whether the renderer and
  // the two blob writes succeed, whether the store can be reached, and the clock.
  datatype Draw = Draw(
    id: string, code: string, rendered: Option<string>, logoPut: bool, imagePut: bool, up: bool,
    etag: string, stylingId: string, now: Time)

  datatype Made = Row(code: Code) | Broken(error: ServiceError)

  datatype CreateResult = Done(code: Code) | Failed(error: ServiceError)

  const ATTEMPTS := 5
  const LAST_WRITE_WINS := 3

  function Ids(draws: seq<Draw>): set<string> { set k | 0 <= k < |draws| :: draws[k].id }

  ghost predicate FreshDraws(used: set<string>, draws: seq<Draw>) {
    && (forall k {:trigger draws[k]} :: 0 <= k < |draws| ==> FreshDraw(used, draws[k]))
    && (forall j, k {:trigger draws[j], draws[k]} :: 0 <= j < k < |draws| ==> draws[j].id != draws[k].id)
  }

  ghost predicate FreshDraw(used: set<string>, d: Draw) { d.id !in used && d.id != "" && GeneratedShape(d.code) }

  // The image and, if there is a logo, the logo could be produced and stored.
  predicate Renders(p: Prepared, d: Draw) { d.rendered.Some? && (p.logo != "" ==> d.logoPut) && d.imagePut }

  // The row a preparation turns into under a chosen short code.
  ghost predicate RowFrom(c: Code, userId: string, p: Prepared, shortCode: string, d: Draw) {
    && c.id == d.id && c.shortCode == shortCode && c.isAlias == p.isAlias && c.userId == userId
    && c.mode == p.mode && c.clientRef == p.clientRef && c.destination == p.destination
    && c.state == Active && c.version == 0 && c.deletedAt.None?
    && c.createdAt == d.now && c.updatedAt == d.now
    && c.blobKey == BlobKeyFor(d.id) && c.blobETag == d.etag && c.styling == StylingFor(p, d)
  }

  // The requested styling with the level the renderer encoded and the key of the stored logo.
  function StylingFor(p: Prepared, d: Draw): Styling {
    p.styling.(
      ecLevelEffective :=
        if d.rendered.Some? && d.rendered.value != "" then d.rendered.value else p.styling.ecLevelEffective,
      logoBlobKey := if p.logo == "" then p.styling.logoBlobKey else LogoKeyFor(d.id))
  }

  // What a caller sees of a created row.
  ghost predicate Carries(c: Code, userId: string, p: Prepared) {
    && c.userId == userId && c.isAlias == p.isAlias && c.mode == p.mode && c.clientRef == p.clientRef
    && c.destination == p.destination && c.state == Active && c.version == 1 && c.deletedAt == None
    && SameLook(p.styling, c.styling)
  }

  // The same in the words of the request: what was asked for, defaults filled in.
  ghost predicate Asked(c: Code, userId: string, in_: CreateInput) {
    && c.userId == userId && c.clientRef == in_.clientRef && c.destination == Trim(in_.destination)
    && c.mode == (if in_.mode == NoMode then Dynamic else in_.mode)
    && c.state == Active && c.version == 1 && c.deletedAt == None && c.isAlias == (in_.alias != "")
    && c.styling.fgColor == (if in_.styling.fgColor == "" then "#000000" else in_.styling.fgColor)
    && c.styling.bgColor == (if in_.styling.bgColor == "" then "#FFFFFF" else in_.styling.bgColor)
    && c.styling.moduleShape == (if in_.styling.moduleShape == "" then "square" else in_.styling.moduleShape)
    && c.styling.marginModules == (if in_.styling.marginModules == 0 then 4 else in_.styling.marginModules)
    && c.styling.sizePx == (if in_.styling.sizePx == 0 then 512 else in_.styling.sizePx)
    && c.styling.ecLevel == (if in_.styling.ecLevel == "" then "M" else in_.styling.ecLevel)
    && c.styling.logoScale == (if in_.logo == "" then 0.0
                               else if in_.styling.logoScale == 0.0 then 0.15 else in_.styling.logoScale)
  }

  // What Prepare guarantees of everything it returns.
  ghost predicate PreparedOk(p: Prepared) {
    && (p.mode == Dynamic || p.mode == CodeMode.Direct) && p.styling.logoBlobKey == ""
    && (p.isAlias ==> Canonical(p.shortCode))
  }

  function CodeFor(p: Prepared, d: Draw): string { if p.isAlias then p.shortCode else d.code }

  ghost predicate Collides(db: Tables, p: Prepared, d: Draw) {
    !p.isAlias && Renders(p, d) && d.up && Taken(db, CodeFor(p, d))
  }

  ghost predicate RefFree(db: Tables, userId: string, ref: string) { ref != "" ==> !RefUsed(db, userId, ref) }

  ghost predicate Wins(db: Tables, userId: string, p: Prepared, d: Draw) {
    Renders(p, d) && d.up && !Taken(db, CodeFor(p, d)) && RefFree(db, userId, p.clientRef)
  }

  // Why an attempt that neither wins nor collides ends the creation.
  ghost function StopError(db: Tables, p: Prepared, d: Draw): ServiceError {
    if !Renders(p, d) then (if d.rendered.None? then RenderFailed else BlobFailed)
    else if !d.up then Unavailable
    else StoreRefused(if Taken(db, CodeFor(p, d)) then AliasTaken else ClientRefTaken)
  }

  // How a creation ends whose attempt k met the store seen[k]: the first attempt that does not collide decides.
  ghost predicate Concludes(seen: seq<Tables>, userId: string, p: Prepared, draws: seq<Draw>, r: CreateResult)
    requires |draws| == ATTEMPTS
  {
    var tries := if p.isAlias then 1 else ATTEMPTS;
    var last := |seen| - 1;
    && 0 < |seen| <= tries
    && (forall k {:trigger seen[k]} :: 0 <= k < last ==> Collides(seen[k], p, draws[k]))
    && (r.Done? <==> Wins(seen[last], userId, p, draws[last]))
    && (r.Failed? ==>
          if Collides(seen[last], p, draws[last]) then |seen| == tries && r.error == StoreRefused(AliasTaken)
          else r.error == StopError(seen[last], p, draws[last]))
  }

  // Through the service a direct code's destination never changes, and its state only ever becomes deleted.
  ghost predicate DirectFrozen(db: Tables, after: Tables) {
    forall id :: id in db.codes && db.codes[id].mode == CodeMode.Direct ==>
      id in after.codes && after.codes[id].destination == db.codes[id].destination
      && (after.codes[id].state == db.codes[id].state || after.codes[id].state == Deleted)
  }

  datatype AttemptEnd = Win | Collision | Stop(error: ServiceError)

  function Placeholder(): Code {
    Code("", "", false, "", NoMode, "", "", Unset, Styling("", "", "", "", 0, 0, "", "", "", 0.0),
         "", "", 0, 0, 0, None)
  }

  // ---- inserting one row ----

  // The request that lands one row.
  function LandRequest(c: Code, d: Draw): Request { Request([c], d.now, [d.stylingId]) }

  lemma WinsOrCollides(db: Tables, userId: string, p: Prepared, d: Draw)
    ensures !(Wins(db, userId, p, d) && Collides(db, p, d))
  {
  }

  lemma PreparationOk(cfg: Config, userId: string, in_: CreateInput)
    requires Prepare(cfg, userId, in_).Ready?
    ensures PreparedOk(Prepare(cfg, userId, in_).p) && userId != ""
  {
    hide Prepare, Canonical;
  }

  lemma CodeIsCanonical(p: Prepared, d: Draw)
    requires GeneratedShape(d.code) && (p.isAlias ==> Canonical(p.shortCode))
    ensures Canonical(CodeFor(p, d))
  {
    hide GeneratedShape, Canonical;
    if !p.isAlias {
      GeneratedIsCanonical(d.code);
    }
  }

  lemma SingleInsert(db: Tables, userId: string, p: Prepared, code: string, d: Draw, c: Code)
    requires db.driver.MapStore? && RowFrom(c, userId, p, code, d)
    requires c.id !in db.codes && c.id != "" && userId != "" && code != ""
    ensures var fault := MapFault(db, LandRequest(c, d), 1);
            && fault == (if Taken(db, code) then Some(AliasTaken)
                         else if !RefFree(db, userId, p.clientRef) then Some(ClientRefTaken) else None)
            && (fault.None? <==> Succeeds(db, CreateCodes(LandRequest(c, d))))
  {
    hide Lower;
    var q := LandRequest(c, d);
    MapAcceptsExactlyAdmissible(db, q, 1);
    AdmissibleWhole(db, q);
    assert MapFault(db, q, 0).None?;
    assert MapFault(db, q, 1) == MapRowFault(db, q, 0);
  }

  // The persisted row has the image of the row that was rendered.
  lemma PersistedSameImage(cfg: Config, c: Code, now: Time, drawn: string)
    requires Lower(c.shortCode) == c.shortCode && c.mode != NoMode
    ensures SameImage(cfg, c, RowOf(c, now, drawn))
  {
    hide Lower;
  }

  lemma PersistedCarries(userId: string, p: Prepared, code: string, d: Draw, c: Code, now: Time, drawn: string)
    requires RowFrom(c, userId, p, code, d) && Lower(code) == code && c.mode != NoMode
    ensures Carries(RowOf(c, now, drawn), userId, p)
    ensures RowOf(c, now, drawn).shortCode == code && RowOf(c, now, drawn).id == d.id
  {
    hide Lower, LogoKeyFor, BlobKeyFor;
  }

  // What inserting the row of an attempt does: refused for its code or its ref, or landed as persisted.
  lemma LandedRow(cfg: Config, db: Tables, userId: string, p: Prepared, code: string, d: Draw, c: Code)
    requires db.driver.MapStore? && RowFrom(c, userId, p, code, d) && PreparedOk(p) && c.id !in db.codes
    requires userId != "" && d.id != "" && code == CodeFor(p, d) && Canonical(code)
    ensures c.id == d.id && c.shortCode == code
    ensures MapFault(db, LandRequest(c, d), 1)
            == (if Taken(db, code) then Some(AliasTaken)
                else if !RefFree(db, userId, p.clientRef) then Some(ClientRefTaken) else None)
    ensures var op := CreateCodes(LandRequest(c, d));
            if MapFault(db, LandRequest(c, d), 1).None?
            then Succeeds(db, op) && Step(db, op).codes == db.codes[c.id := RowOf(c, d.now, d.stylingId)]
            else Step(db, op) == db
    ensures var row := RowOf(c, d.now, d.stylingId);
            row.id == c.id && row.shortCode == code && SameImage(cfg, c, row) && Carries(row, userId, p)
  {
    hide Lower, Trim, BlobKeyFor, LogoKeyFor, StylingFor, MapFault, Taken;
    SingleInsert(db, userId, p, code, d, c);
    PersistedSameImage(cfg, c, d.now, d.stylingId);
    PersistedCarries(userId, p, code, d, c, d.now, d.stylingId);
    hide Succeeds, Carries, RowOf, SameImage, RowFrom, Effect;
    RowIdentity(c, d.now, d.stylingId);
    if Succeeds(db, CreateCodes(LandRequest(c, d))) {
      SingleStep(db, c, d.now, d.stylingId);
    }
  }

  lemma CarriesAsked(cfg: Config, userId: string, in_: CreateInput, p: Prepared, c: Code)
    requires Prepare(cfg, userId, in_) == Ready(p) && Carries(c, userId, p)
    ensures Asked(c, userId, in_)
  {
    hide Trim, NormalizeAlias, AliasShape, GeneratedShape, Capacity;
  }

  lemma PreparedChoices(cfg: Config, userId: string, in_: CreateInput, p: Prepared)
    requires Prepare(cfg, userId, in_) == Ready(p)
    ensures p.logo == in_.logo && p.clientRef == in_.clientRef && p.isAlias == (in_.alias != "")
    ensures in_.alias != "" ==> p.shortCode == Lower(Trim(in_.alias))
  {
    hide Trim, Lower, AliasShape, GeneratedShape, Capacity, FillStyling;
  }

  // Why an attempt at a request ends as it does, in the order things can go wrong.
  lemma AttemptMeans(cfg: Config, db: Tables, userId: string, in_: CreateInput, p: Prepared, d: Draw)
    requires Prepare(cfg, userId, in_) == Ready(p)
    ensures var code := Lower(if in_.alias != "" then Lower(Trim(in_.alias)) else d.code);
            if d.rendered.None? then
              !Wins(db, userId, p, d) && !Collides(db, p, d) && StopError(db, p, d) == RenderFailed
            else if (in_.logo != "" && !d.logoPut) || !d.imagePut then
              !Wins(db, userId, p, d) && !Collides(db, p, d) && StopError(db, p, d) == BlobFailed
            else if !d.up then
              !Wins(db, userId, p, d) && !Collides(db, p, d) && StopError(db, p, d) == Unavailable
            else if code in db.reservations && db.reservations[code].releasedAt == None then
              && !Wins(db, userId, p, d) && Collides(db, p, d) == (in_.alias == "")
              && (in_.alias != "" ==> StopError(db, p, d) == StoreRefused(AliasTaken))
            else if in_.clientRef != "" && exists id :: id in db.codes && db.codes[id].userId == userId
                                                        && db.codes[id].clientRef == in_.clientRef then
              !Wins(db, userId, p, d) && !Collides(db, p, d) && StopError(db, p, d) == StoreRefused(ClientRefTaken)
            else Wins(db, userId, p, d)
  {
    hide Prepare, Trim, Lower, RefUsed;
    PreparedChoices(cfg, userId, in_, p);
    RefUsedMeans(db, userId, in_.clientRef);
  }

  lemma RefUsedMeans(db: Tables, userId: string, ref: string)
    ensures RefUsed(db, userId, ref)
            <==> exists id :: id in db.codes && db.codes[id].userId == userId && db.codes[id].clientRef == ref
  {
    if id :| id in db.codes && HasRef(db.codes[id], userId, ref) {
      assert db.codes[id].userId == userId && db.codes[id].clientRef == ref;
    }
    if id :| id in db.codes && db.codes[id].userId == userId && db.codes[id].clientRef == ref {
      assert HasRef(db.codes[id], userId, ref);
    }
  }

  // How a creation ends, told from the request, the draws and the stores its attempts met: five attempts for a
  // generated code, one for an alias, each but the last lost to a reserved code; the last decides.
  lemma ConcludesMeans(cfg: Config, seen: seq<Tables>, userId: string, in_: CreateInput, p: Prepared, draws: seq<Draw>,
                       r: CreateResult)
    requires Prepare(cfg, userId, in_) == Ready(p) && |draws| == ATTEMPTS && Concludes(seen, userId, p, draws, r)
    ensures 0 < |seen| <= if in_.alias != "" then 1 else 5
    ensures forall k :: 0 <= k < |seen| - 1 ==>
              && Lower(draws[k].code) in seen[k].reservations
              && seen[k].reservations[Lower(draws[k].code)].releasedAt == None
    ensures var d, db := draws[|seen| - 1], seen[|seen| - 1];
            var code := Lower(if in_.alias != "" then Lower(Trim(in_.alias)) else d.code);
            if d.rendered.None? then r == CreateResult.Failed(RenderFailed)
            else if (in_.logo != "" && !d.logoPut) || !d.imagePut then r == CreateResult.Failed(BlobFailed)
            else if !d.up then r == CreateResult.Failed(Unavailable)
            else if code in db.reservations && db.reservations[code].releasedAt == None then
              r == CreateResult.Failed(StoreRefused(AliasTaken)) && (in_.alias == "" ==> |seen| == 5)
            else if in_.clientRef != "" && exists id :: id in db.codes && db.codes[id].userId == userId
                                                        && db.codes[id].clientRef == in_.clientRef then
              r == CreateResult.Failed(StoreRefused(ClientRefTaken))
            else r.Done?
  {
    PreparedChoices(cfg, userId, in_, p);
    hide Prepare, Wins, Collides, StopError, Trim, Lower;
    AttemptMeans(cfg, seen[|seen| - 1], userId, in_, p, draws[|seen| - 1]);
    WinsOrCollides(seen[|seen| - 1], userId, p, draws[|seen| - 1]);
    forall k | 0 <= k < |seen| - 1
      ensures Lower(draws[k].code) in seen[k].reservations
              && seen[k].reservations[Lower(draws[k].code)].releasedAt == None {
      AttemptMeans(cfg, seen[k], userId, in_, p, draws[k]);
      assert Collides(seen[k], p, draws[k]);
    }
  }

  lemma SameImageReflexive(cfg: Config, c: Code)
    ensures SameImage(cfg, c, c)
  {
  }

  lemma RowFromParts(c: Code, userId: string, p: Prepared, code: string, d: Draw)
    requires RowFrom(c, userId, p, code, d)
    ensures c.shortCode == code && c.mode == p.mode && c.id == d.id && c.clientRef == p.clientRef && c.userId == userId
  {
  }

  // The row of a rendered attempt: the request's choices under the drawn id, its key, the level the renderer reports
  // and, if there is a logo, where that lies.
  lemma RowAsRendered(c: Code, userId: string, p: Prepared, code: string, d: Draw)
    requires RowFrom(c, userId, p, code, d) && p.styling.logoBlobKey == ""
    ensures c.id == d.id && c.shortCode == code && c.isAlias == p.isAlias && c.userId == userId && c.mode == p.mode
    ensures c.clientRef == p.clientRef && c.destination == p.destination && c.state == Active && c.deletedAt == None
    ensures c.createdAt == d.now && c.updatedAt == d.now && c.blobKey == BlobKeyFor(d.id) && c.blobETag == d.etag
    ensures c.styling.logoBlobKey == (if p.logo == "" then "" else LogoKeyFor(d.id))
    ensures c.styling.ecLevelEffective
            == (if d.rendered.Some? && d.rendered.value != "" then d.rendered.value else p.styling.ecLevelEffective)
    ensures c.styling == p.styling.(ecLevelEffective := c.styling.ecLevelEffective,
                                    logoBlobKey := c.styling.logoBlobKey)
  {
    hide BlobKeyFor, LogoKeyFor;
  }

  // ---- rows on their way: images stored, row not inserted yet ----

  // A row that landed leaves the rows on their way; the images it has are still the right ones.
  lemma LandedMatches(cfg: Config, codes: map<string, Code>, flying: map<string, Code>, c: Code, row: Code,
                      blobs: map<string, Blob>)
    requires c.id in flying && flying[c.id] == c && c.id !in codes && row.id == c.id && SameImage(cfg, c, row)
    requires BlobsMatch(cfg, codes + flying, blobs)
    ensures BlobsMatch(cfg, codes[row.id := row] + (flying - {c.id}), blobs)
  {
    hide BlobsMatch, SameImage;
    var before, after := codes + flying, codes[row.id := row] + (flying - {c.id});
    assert before.Keys == after.Keys;
    forall id | id in before ensures SameImage(cfg, before[id], after[id]) {
      if id != c.id {
        SameImageReflexive(cfg, before[id]);
      }
    }
    SameImagesMatch(cfg, before, after, blobs);
  }

  lemma FlyingExtends(codes: map<string, Code>, flying: map<string, Code>, c: Code)
    requires c.id !in codes && c.id !in flying
    ensures (codes + flying)[c.id := c] == codes + flying[c.id := c]
  {
  }

  lemma FlyingShrinks(codes: map<string, Code>, flying: map<string, Code>, c: Code)
    requires c.id !in codes && c.id in flying && flying[c.id] == c
    ensures codes + flying == (codes + (flying - {c.id}))[c.id := c]
    ensures c.id !in codes + (flying - {c.id})
  {
  }

  // ---- the cache ----

  lemma CreatedCacheAgrees(db: Tables, d: Draw, c: Code, cache: map<string, Resolution>)
    requires Inv(db) && Trimmed(db) && CacheAgrees(db, cache) && Canonical(c.shortCode)
    requires Succeeds(db, CreateCodes(LandRequest(c, d)))
    ensures var after := Step(db, CreateCodes(LandRequest(c, d)));
            Inv(after) && Trimmed(after) && CacheAgrees(after, cache - {CacheKey(c.shortCode)})
  {
    hide Lower, Trim, Inv, Trimmed, CacheAgrees, Succeeds, Step;
    var op := CreateCodes(LandRequest(c, d));
    assert op.q.rows[0] == c;
    assert CreatesTrimmed(op) && Invalidated(db, op) == {CacheKey(c.shortCode)};
    StepPreservesInv(db, op);
    MutationKeepsAgreement(db, op, cache);
    StepKeepsTrimmed(db, op);
  }
}
