// The code lifecycle: a service over a metadata store, a blob store and the resolver cache, with other requests'
// store calls in between its own.

module Services {
  import opened Domain
  import opened Namespace
  import opened Drivers
  import opened MemStores
  import opened Inputs
  import opened Blobs
  import opened Resolutions
  import opened Creation
  import opened Batches
  import opened Edits

  class Service {
    const store: MemStore
    var blobs: map<string, Blob>
    var cache: map<string, Resolution>
    const cfg: Config
    // Rows whose images are stored and which are not inserted yet.
    ghost var inFlight: map<string, Code>
    // Cache keys of edited rows whose invalidation is still to come.
    ghost var unsettled: set<string>

    ghost function Db(): Tables
      reads store
    {
      store.Db()
    }

    // Ids of rows stored or on their way.
    ghost function Used(): set<string>
      reads this, store
    {
      Db().codes.Keys + inFlight.Keys
    }

    // The joint invariant of store, blobs and cache, which holds between any two calls.
    ghost predicate Valid()
      reads this, store
    {
      && store.Valid()
      && Trimmed(Db())
      && CacheAgrees(Db(), cache - unsettled)
      && Db().codes.Keys !! inFlight.Keys && BlobsMatch(cfg, Db().codes + inFlight, blobs)
    }

    constructor (store: MemStore, cfg: Config)
      requires store.Valid() && store.Db() == Empty(MapStore)
      ensures Valid() && this.store == store && this.cfg == cfg && Db() == Empty(MapStore)
      ensures inFlight == map[] && unsettled == {}
    {
      this.store, this.cfg, blobs, cache, inFlight, unsettled := store, cfg, map[], map[], map[], {};
    }

    // ---- images ----

    // Render, store the logo and the image, and build the row. Whatever was written is removed on failure.
    method Materialise(userId: string, p: Prepared, shortCode: string, d: Draw) returns (m: Made)
      requires Valid() && d.id !in Used() && p.styling.logoBlobKey == ""
      modifies `blobs, `inFlight
      ensures Valid()
      ensures m.Row? <==> Renders(p, d)
      ensures m.Row? ==> RowFrom(m.code, userId, p, shortCode, d) && inFlight == old(inFlight)[d.id := m.code]
      ensures m.Row? ==> blobs - KeysOf(m.code) == old(blobs) && m.code.blobKey in blobs
      ensures m.Row? ==>
                blobs[m.code.blobKey]
                == Picture(if p.mode == CodeMode.Direct then p.destination else cfg.baseRaw + "/r/" + shortCode,
                           p.styling, p.logo, p.autoRaise)
      ensures m.Broken? ==> blobs == old(blobs) && inFlight == old(inFlight)
      ensures m.Broken? ==> m.error == if d.rendered.None? then RenderFailed else BlobFailed
    {
      hide Inv, Trimmed, CacheAgrees, EmailIndex, CodeIndex, RefIndex;
      hide BlobsMatch, RowFrom, KeysOf, Renders;
      m := StoreImages(userId, p, shortCode, d, Db().codes + inFlight);
      if m.Row? {
        RowFromParts(m.code, userId, p, shortCode, d);
        FlyingExtends(Db().codes, inFlight, m.code);
        inFlight := inFlight[d.id := m.code];
      }
    }

    method StoreImages(userId: string, p: Prepared, shortCode: string, d: Draw, ghost rows: map<string, Code>)
      returns (m: Made)
      requires BlobsMatch(cfg, rows, blobs) && d.id !in rows && p.styling.logoBlobKey == ""
      modifies `blobs
      ensures m.Row? <==> Renders(p, d)
      ensures m.Row? ==> RowFrom(m.code, userId, p, shortCode, d) && BlobsMatch(cfg, rows[d.id := m.code], blobs)
      ensures m.Row? ==> blobs - KeysOf(m.code) == old(blobs) && m.code.blobKey in blobs
      ensures m.Row? ==>
                blobs[m.code.blobKey]
                == Picture(if p.mode == CodeMode.Direct then p.destination else cfg.baseRaw + "/r/" + shortCode,
                           p.styling, p.logo, p.autoRaise)
      ensures m.Broken? ==> blobs == old(blobs) && m.error == if d.rendered.None? then RenderFailed else BlobFailed
    {
      hide BlobsMatch, BlobKeyFor, LogoKeyFor, KeysOf;
      var blobKey, logoKey := BlobKeyFor(d.id), LogoKeyFor(d.id);
      KeysIdentify(d.id, d.id);
      FreshIdHasNoBlobs(cfg, rows, blobs, d.id);
      ghost var before := blobs;
      var content := if p.mode == CodeMode.Direct then p.destination else ScanUrl(cfg, shortCode);
      if d.rendered.None? {
        return Broken(RenderFailed);
      }
      var styling := p.styling;
      if d.rendered.value != "" {
        styling := styling.(ecLevelEffective := d.rendered.value);
      }
      if p.logo != "" {
        if !d.logoPut {
          return Broken(BlobFailed);
        }
        blobs := blobs[logoKey := LogoBytes(p.logo)];
        styling := styling.(logoBlobKey := logoKey);
      }
      if !d.imagePut {
        if p.logo != "" {
          blobs := blobs - {logoKey};
        }
        assert blobs == before;
        return Broken(BlobFailed);
      }
      blobs := blobs[blobKey := Picture(content, p.styling, p.logo, p.autoRaise)];
      var c := Code(d.id, shortCode, p.isAlias, userId, p.mode, p.clientRef, p.destination, Active, styling,
                    blobKey, d.etag, 0, d.now, d.now, None);
      assert c.styling == StylingFor(p, d);
      RowObjectsAdded(before, c, LogoBytes(p.logo), blobs[blobKey], blobs);
      assert RowBlobs(cfg, c, blobs);
      hide RowBlobs, StylingFor;
      AddRowBlobs(cfg, rows, before, c, blobs);
      m := Row(c);
    }

    // The row will not be inserted: its image and its logo go.
    method RemoveBlobs(c: Code)
      requires Valid() && c.id in inFlight && inFlight[c.id] == c
      modifies `blobs, `inFlight
      ensures Valid() && blobs == old(blobs) - KeysOf(c) && inFlight == old(inFlight) - {c.id}
    {
      hide Inv, Trimmed, CacheAgrees, EmailIndex, CodeIndex, RefIndex, BlobsMatch;
      FlyingShrinks(Db().codes, inFlight, c);
      RemoveRowBlobs(cfg, Db().codes + (inFlight - {c.id}), blobs, c);
      ghost var before := blobs;
      blobs := blobs - {c.blobKey};
      if c.styling.logoBlobKey != "" {
        blobs := blobs - {c.styling.logoBlobKey};
      }
      assert blobs == before - KeysOf(c);
      inFlight := inFlight - {c.id};
    }

    // ---- creating one code ----

    // Generated codes retry on a collision, up to five times; an alias never does. Other requests write between
    // the image and the insert of every attempt.
    method Create(userId: string, in_: CreateInput, draws: seq<Draw>, others: seq<seq<Foreign>>)
      returns (r: CreateResult, ghost seen: seq<Tables>, ghost run: seq<Op>, ghost mine: set<nat>)
      requires Valid() && |draws| == |others| == ATTEMPTS && FreshDraws(Used(), draws) && Apart(others, Ids(draws))
      modifies this, store
      ensures Valid() && inFlight == old(inFlight) && unsettled <= old(unsettled) && Kept(old(Db()), Db())
      ensures RunTo(old(Db()), run, Db()) && RestIsForeign(run, mine, others)
      ensures match Prepare(cfg, userId, in_)
              case Refused(e) => r == CreateResult.Failed(Invalid(e)) && run == []
              case Ready(p) => Concludes(seen, userId, p, draws, r) && (r.Done? ==> Carries(r.code, userId, p))
      ensures forall k :: 0 <= k < |seen| ==>
                OnPath(old(Db()), run, seen[k]) && (Quiet(others) ==> seen[k] == old(Db()))
      ensures r.Failed? ==> mine == {} && (Quiet(others) ==> Db() == old(Db()) && blobs == old(blobs))
      ensures r.Done? ==> OwnCreation(old(Db()), run, mine, r.code.id)
      ensures r.Done? ==> r.code.id !in seen[|seen| - 1].codes
                          && Db().codes == seen[|seen| - 1].codes[r.code.id := r.code]
      ensures r.Done? ==> Asked(r.code, userId, in_) && r.code.id == draws[|seen| - 1].id
      ensures r.Done? ==>
                r.code.shortCode == if in_.alias != "" then Lower(Trim(in_.alias)) else draws[|seen| - 1].code
      ensures Prepare(cfg, userId, in_).Ready? ==> 0 < |seen| <= if in_.alias != "" then 1 else 5
      ensures Prepare(cfg, userId, in_).Ready? ==>
                forall k :: 0 <= k < |seen| - 1 ==>
                  && Lower(draws[k].code) in seen[k].reservations
                  && seen[k].reservations[Lower(draws[k].code)].releasedAt == None
      ensures Prepare(cfg, userId, in_).Ready? ==>
                var d, db := draws[|seen| - 1], seen[|seen| - 1];
                var code := Lower(if in_.alias != "" then Lower(Trim(in_.alias)) else d.code);
                if d.rendered.None? then r == CreateResult.Failed(RenderFailed)
                else if (in_.logo != "" && !d.logoPut) || !d.imagePut then r == CreateResult.Failed(BlobFailed)
                else if !d.up then r == CreateResult.Failed(Unavailable)
                else if code in db.reservations && db.reservations[code].releasedAt == None then
                  r == CreateResult.Failed(StoreRefused(AliasTaken)) && (in_.alias == "" ==> |seen| == 5)
                else if in_.clientRef != "" && exists id :: id in db.codes && db.codes[id].userId == userId
                                                            && db.codes[id].clientRef == in_.clientRef then
                  r == CreateResult.Failed(StoreRefused(ClientRefTaken))
                else r.Done?
    {
      hide Valid, Prepare, Carries, FreshDraws, Canonical, Concludes, Kept, RunTo, RestIsForeign, OnPath, Quiet;
      hide OwnCreation;
      var prep := Prepare(cfg, userId, in_);
      if prep.Refused? {
        NothingYet(Db(), others);
        r, seen, run, mine := CreateResult.Failed(Invalid(prep.error)), [], [], {};
        return;
      }
      r, seen, run, mine := CreatePrepared(userId, prep.p, draws, others);
      hide Asked, Trim, Lower;
      ConcludesMeans(cfg, seen, userId, in_, prep.p, draws, r);
      PreparedChoices(cfg, userId, in_, prep.p);
      if r.Done? {
        CarriesAsked(cfg, userId, in_, prep.p, r.code);
      }
    }

    method CreatePrepared(userId: string, p: Prepared, draws: seq<Draw>, others: seq<seq<Foreign>>)
      returns (r: CreateResult, ghost seen: seq<Tables>, ghost run: seq<Op>, ghost mine: set<nat>)
      requires Valid() && |draws| == |others| == ATTEMPTS && FreshDraws(Used(), draws) && Apart(others, Ids(draws))
      requires userId != "" && PreparedOk(p)
      modifies this, store
      ensures Valid() && inFlight == old(inFlight) && unsettled <= old(unsettled) && Kept(old(Db()), Db())
      ensures RunTo(old(Db()), run, Db()) && RestIsForeign(run, mine, others)
      ensures Concludes(seen, userId, p, draws, r) && (r.Done? ==> Carries(r.code, userId, p))
      ensures forall k :: 0 <= k < |seen| ==>
                OnPath(old(Db()), run, seen[k]) && (Quiet(others) ==> seen[k] == old(Db()))
      ensures r.Failed? ==> mine == {} && (Quiet(others) ==> Db() == old(Db()) && blobs == old(blobs))
      ensures r.Done? ==> OwnCreation(old(Db()), run, mine, r.code.id)
      ensures r.Done? ==> r.code.id !in seen[|seen| - 1].codes
                          && Db().codes == seen[|seen| - 1].codes[r.code.id := r.code]
      ensures r.Done? ==> r.code.id == draws[|seen| - 1].id && r.code.shortCode == CodeFor(p, draws[|seen| - 1])
    {
      hide Valid, Collides, Wins, Carries, FreshDraw, PreparedOk, StopError, Kept, RunTo, RestIsForeign, OnPath;
      hide Quiet, OwnCreation;
      hide ForeignId;
      ghost var start := Db();
      ghost var tables;
      seen, run, mine := [], [], {};
      NothingYet(start, others);
      var tries := if p.isAlias then 1 else ATTEMPTS;
      var last := Undecided;
      for i := 0 to tries
        invariant Valid() && inFlight == old(inFlight) && unsettled <= old(unsettled) && Kept(start, Db())
        invariant RunTo(start, run, Db()) && RestIsForeign(run, {}, others) && mine == {}
        invariant Quiet(others) ==> Db() == start && blobs == old(blobs)
        invariant GrownByOthers(old(Db()).codes.Keys, Db().codes.Keys, others)
        invariant |seen| == i && forall k {:trigger seen[k]} :: 0 <= k < i ==> Collides(seen[k], p, draws[k])
        invariant forall k {:trigger seen[k]} :: 0 <= k < i ==>
                    OnPath(start, run, seen[k]) && (Quiet(others) ==> seen[k] == start)
        invariant i > 0 ==> last == StoreRefused(AliasTaken)
      {
        DrawsStayFresh(old(Db()).codes.Keys, Db().codes.Keys, inFlight.Keys, draws, others);
        ghost var shorter := run;
        var end, made;
        end, made, tables, run, mine := Attempt(userId, p, draws[i], others, i, start, run);
        WinsOrCollides(tables, userId, p, draws[i]);
        AllStillOnPath(start, shorter, run, Db(), seen);
        seen := seen + [tables];
        if end.Win? {
          return Done(made), seen, run, mine;
        }
        if end.Stop? {
          return CreateResult.Failed(end.error), seen, run, mine;
        }
        last := StoreRefused(AliasTaken);
      }
      WinsOrCollides(seen[tries - 1], userId, p, draws[tries - 1]);
      r := CreateResult.Failed(last);
    }

    // One attempt: materialise, insert, and undo the images when the insert is refused.
    method Attempt(userId: string, p: Prepared, d: Draw, others: seq<seq<Foreign>>, j: nat,
                   ghost start: Tables, ghost run: seq<Op>)
      returns (end: AttemptEnd, row: Code, ghost seen: Tables, ghost longer: seq<Op>, ghost mine: set<nat>)
      requires Valid() && FreshDraw(Used(), d) && userId != "" && PreparedOk(p) && j < |others|
      requires RunTo(start, run, Db()) && Kept(start, Db()) && RestIsForeign(run, {}, others)
      modifies this, store
      ensures Valid() && inFlight == old(inFlight) && unsettled <= old(unsettled) && Kept(start, Db())
      ensures RunTo(start, longer, Db()) && RestIsForeign(longer, mine, others) && run <= longer
      ensures OnPath(start, longer, seen) && (Quiet(others) ==> seen == old(Db()))
      ensures end.Win? <==> Wins(seen, userId, p, d)
      ensures end.Collision? <==> Collides(seen, p, d)
      ensures end.Stop? ==> end.error == StopError(seen, p, d)
      ensures !end.Win? ==> Db() == seen && mine == {} && (Quiet(others) ==> blobs == old(blobs))
      ensures !end.Win? ==> GrownByOthers(old(Db()).codes.Keys, Db().codes.Keys, others)
      ensures end.Win? ==> row.id !in seen.codes && Db().codes == seen.codes[row.id := row] && Carries(row, userId, p)
      ensures end.Win? ==> OwnCreation(start, longer, mine, row.id)
      ensures end.Win? ==> row.id == d.id && row.shortCode == CodeFor(p, d)
    {
      hide Valid, BlobsMatch, RowFrom, Canonical, RowOf, KeysOf, Carries, Succeeds, Step, Kept, RunTo, RestIsForeign;
      hide OnPath, Quiet;
      hide GrownByOthers, OwnCreation;
      ghost var images := blobs;
      var code := CodeFor(p, d);
      CodeIsCanonical(p, d);
      row, longer, mine := Placeholder(), run, {};
      QuietRound(others, j);
      var made := Materialise(userId, p, code, d);
      if made.Broken? {
        seen := Db();
        NotGrown(seen.codes.Keys, others);
        HereOnPath(start, run, seen);
        return Stop(made.error), row, seen, longer, mine;
      }
      var c := made.code;
      RowFromParts(c, userId, p, code, d);
      longer := InterfereFrom(others, j, start, run, {});
      seen := Db();
      HereOnPath(start, longer, seen);
      end, row := Land(userId, p, code, d, c);
      if end.Win? {
        OwnLanding(start, longer, seen, c, d, others);
        KeptCreation(seen, LandRequest(c, d));
        KeptTransitive(start, seen, Db());
        longer, mine := longer + [CreateCodes(LandRequest(c, d))], {|longer|};
      }
    }

    // Insert the row of stored images; when the store refuses it, its images go.
    method Land(userId: string, p: Prepared, code: string, d: Draw, c: Code) returns (end: AttemptEnd, row: Code)
      requires Valid() && c.id in inFlight && inFlight[c.id] == c
      requires RowFrom(c, userId, p, code, d) && Renders(p, d) && PreparedOk(p)
      requires userId != "" && d.id != "" && code == CodeFor(p, d) && Canonical(code)
      modifies this, store
      ensures Valid() && inFlight == old(inFlight) - {c.id} && unsettled == old(unsettled)
      ensures end.Win? <==> Wins(old(Db()), userId, p, d)
      ensures end.Collision? <==> Collides(old(Db()), p, d)
      ensures end.Stop? ==> end.error == StopError(old(Db()), p, d)
      ensures !end.Win? ==> Db() == old(Db()) && blobs == old(blobs) - KeysOf(c)
      ensures end.Win? ==>
                blobs == old(blobs) && row.id == c.id && row.id !in old(Db()).codes && Carries(row, userId, p)
      ensures end.Win? ==> Db().codes == old(Db()).codes[row.id := row]
      ensures end.Win? ==> row.id == d.id && row.shortCode == code
      ensures end.Win? ==> Succeeds(old(Db()), CreateCodes(LandRequest(c, d)))
      ensures end.Win? ==> Db() == Step(old(Db()), CreateCodes(LandRequest(c, d)))
    {
      hide Inv, Trimmed, CacheAgrees, EmailIndex, CodeIndex, RefIndex, BlobsMatch;
      hide RowFrom, Canonical, RowOf, KeysOf, Carries, Succeeds, Effect, Renders, Lower, Trim, SameImage;
      ghost var before := Db();
      row := Placeholder();
      if !d.up {
        RemoveBlobs(c);
        return Stop(Unavailable), row;
      }
      LandedRow(cfg, before, userId, p, code, d, c);
      var err := store.CreateCodes(Request([c], d.now, [d.stylingId]));
      if err.None? {
        row := RowOf(c, d.now, d.stylingId);
        LandedMatches(cfg, before.codes, inFlight, c, row, blobs);
        CreatedCacheAgrees(before, d, c, cache - unsettled);
        assert (cache - unsettled) - {CacheKey(code)} == (cache - {CacheKey(code)}) - unsettled;
        cache := cache - {CacheKey(code)};
        inFlight := inFlight - {c.id};
        return Win, row;
      }
      RemoveBlobs(c);
      if err.value == AliasTaken && !p.isAlias {
        return Collision, row;
      }
      return Stop(StoreRefused(err.value)), row;
    }

    // ---- creating many codes ----

    // Every item gets its answer, in input order; the rendered candidates go into one store transaction, and if
    // that is refused every one of their images is removed again. Other requests write before each item's two
    // lookups and before the transaction.
    method CreateBatch(userId: string, items: seq<CreateInput>, draws: seq<Draw>, up: bool, now: Time,
                       others: seq<seq<Foreign>>)
      returns (results: seq<BatchResult>, ghost t: Trace)
      requires Valid() && |draws| == |items| && |others| == 2 * |items| + 1
      requires FreshDraws(Used(), draws) && Apart(others, Ids(draws))
      modifies this, store
      ensures Valid() && inFlight == old(inFlight) && unsettled <= old(unsettled) && Kept(old(Db()), Db())
      ensures RunTo(old(Db()), t.run, Db()) && RestIsForeign(t.run, t.mine, others)
      ensures OwnBatch(old(Db()), t.run, t.mine)
      ensures t.b == Sent(cfg, userId, items, t.b.views) && |results| == |t.plans| == |items| == |t.b.views|
      ensures ViewsOnPath(old(Db()), t.run, t.b.views) && OnPath(old(Db()), t.run, t.seen)
      ensures userId == "" ==> t.run == [] && t.outcome == Some(None)
                               && forall i :: 0 <= i < |items| ==> results[i] == Rejected(Invalid(UserRequired))
      ensures userId != "" ==> Classes(t.b, t.plans) && Verdict(t.b, t.plans, draws, t.seen, up, t.outcome)
      ensures userId != "" ==>
                forall i :: 0 <= i < |items| ==> Answers(userId, t.plans, draws, t.outcome, Db(), i, results[i])
      ensures userId != "" ==> forall i :: 0 <= i < |items| && results[i].Existing? ==>
                && results[i].code.id in t.b.views[i].refs.codes
                && t.b.views[i].refs.codes[results[i].code.id] == results[i].code
                && results[i].code.userId == userId && results[i].code.clientRef == items[i].clientRef != ""
                && results[i].code.destination == Trim(items[i].destination)
                && results[i].code.mode == (if items[i].mode == NoMode then Dynamic else items[i].mode)
      ensures userId != "" ==>
                forall i, id {:trigger HeldBy(t.b.views[i].refs, id, userId, items[i].clientRef)} ::
                  (0 <= i < |items| && FirstWithRef(items, i)
                   && HeldBy(t.b.views[i].refs, id, userId, items[i].clientRef)) ==>
                  results[i] == (if t.b.views[i].refs.codes[id].destination == Trim(items[i].destination)
                                    && t.b.views[i].refs.codes[id].mode
                                       == (if items[i].mode == NoMode then Dynamic else items[i].mode)
                                 then Existing(t.b.views[i].refs.codes[id]) else Rejected(RefConflict(id)))
      ensures userId != "" ==>
                forall i, j :: (0 <= j < i < |items| && 0 < |items[i].clientRef| <= 128
                                && items[j].clientRef == items[i].clientRef) ==> results[i] == Rejected(DuplicateRef)
      ensures userId != "" ==> forall i :: 0 <= i < |items| && results[i].Created? ==>
                && Asked(results[i].code, userId, items[i]) && results[i].code.id == draws[i].id
                && results[i].code.id in Db().codes && Db().codes[results[i].code.id] == results[i].code
                && results[i].code.shortCode
                   == (if items[i].alias != "" then Lower(Trim(items[i].alias)) else draws[i].code)
      ensures Gained(t.seen, Db(), results) && (t.outcome.Some? ==> Db() == t.seen && t.mine == {})
      ensures GrownByOthers(old(Db()).codes.Keys, t.seen.codes.Keys, others)
      ensures Quiet(others) ==> OneView(t.b.views, old(Db())) && t.seen == old(Db())
    {
      hide Valid, Classes, FreshDraws, Kept, RunTo, RestIsForeign, OnPath, Quiet, GrownByOthers, Apart;
      hide RowsOfBatch, Verdict, Answers, Landed, OwnBatch, ViewsOnPath, OneView, Gained, FreshRows, WithRows;
      ghost var start := Db();
      if userId == "" {
        results := seq(|items|, i requires 0 <= i < |items| => Rejected(Invalid(UserRequired)));
        t := UnaskedTrace(cfg, userId, items, start);
        NothingYet(start, others);
        NothingAsked(cfg, userId, items, start, results, others);
        return;
      }
      StoreIsSound();
      results, t := CreateOwned(userId, items, draws, up, now, others);
      hide Asked, Trim, Lower;
      BatchMeans(start, t, draws, Db(), results);
    }

    method CreateOwned(userId: string, items: seq<CreateInput>, draws: seq<Draw>, up: bool, now: Time,
                       others: seq<seq<Foreign>>)
      returns (results: seq<BatchResult>, ghost t: Trace)
      requires Valid() && |draws| == |items| && |others| == 2 * |items| + 1 && userId != ""
      requires FreshDraws(Used(), draws) && Apart(others, Ids(draws))
      modifies this, store
      ensures Valid() && inFlight == old(inFlight) && unsettled <= old(unsettled) && Kept(old(Db()), Db())
      ensures RunTo(old(Db()), t.run, Db()) && RestIsForeign(t.run, t.mine, others)
      ensures OwnBatch(old(Db()), t.run, t.mine)
      ensures t.b == Sent(cfg, userId, items, t.b.views) && |results| == |t.plans| == |items| == |t.b.views|
      ensures ViewsOnPath(old(Db()), t.run, t.b.views) && OnPath(old(Db()), t.run, t.seen)
      ensures Classes(t.b, t.plans) && Verdict(t.b, t.plans, draws, t.seen, up, t.outcome)
      ensures forall i :: 0 <= i < |items| ==> Answers(userId, t.plans, draws, t.outcome, Db(), i, results[i])
      ensures Gained(t.seen, Db(), results) && (t.outcome.Some? ==> Db() == t.seen && t.mine == {})
      ensures GrownByOthers(old(Db()).codes.Keys, t.seen.codes.Keys, others)
      ensures Quiet(others) ==> OneView(t.b.views, old(Db())) && t.seen == old(Db())
    {
      hide Valid, Classes, FreshDraws, Kept, RunTo, RestIsForeign, OnPath, Quiet, GrownByOthers, Apart, Succeeds, Step;
      hide RowsOfBatch, Verdict, Answers, Landed, OwnBatch, ViewsOnPath, OneView, Gained, FreshRows, WithRows;
      ghost var start, flying := Db(), inFlight;
      var plans;
      ghost var views, run;
      plans, views, run := Classify(userId, items, others);
      ghost var b, asked, checked := Sent(cfg, userId, items, views), run, Db();
      DrawsStayFresh(start.codes.Keys, checked.codes.Keys, flying.Keys, draws, others);
      var rows, at := RenderAll(userId, b, plans, draws);
      run := InterfereFrom(others, 2 * |items|, start, run, {});
      ghost var seen, w := Db(), Work(b, plans, draws, rows, at);
      DrawsStayFresh(checked.codes.Keys, seen.codes.Keys, flying.Keys, draws, others);
      FewerUsed(seen.codes.Keys + flying.Keys, seen.codes.Keys, draws);
      GrownTransitive(start.codes.Keys, checked.codes.Keys, seen.codes.Keys, others);
      RowsOfBatchShape(userId, plans, draws, rows, at, |plans|);
      var drawn := seq(|rows|, k requires 0 <= k < |rows| => draws[at[k]].stylingId);
      QuietRound(others, 2 * |items|);
      HereOnPath(start, run, seen);
      var outcome;
      outcome := InsertRows(w, rows, up, now, drawn, flying);
      results := Report(plans, draws, rows, at, outcome, now, drawn);
      EveryItemAnswered(w, seen, outcome, now, drawn, Db(), results);
      ghost var mine;
      run, mine := BatchRun(start, run, seen, Request(rows, now, drawn), outcome.None? && rows != [], Db(), others);
      t := Trace(b, plans, seen, outcome, run, mine);
      ViewsStillOnPath(start, asked, run, Db(), views);
    }

    // Resolve client refs, validate, and check aliases, item by item, while others write.
    method Classify(userId: string, items: seq<CreateInput>, others: seq<seq<Foreign>>)
      returns (plans: seq<Class>, ghost views: seq<View>, ghost run: seq<Op>)
      requires Valid() && |others| == 2 * |items| + 1
      modifies this, store
      ensures Valid() && inFlight == old(inFlight) && unsettled <= old(unsettled) && Kept(old(Db()), Db())
      ensures RunTo(old(Db()), run, Db()) && RestIsForeign(run, {}, others)
      ensures GrownByOthers(old(Db()).codes.Keys, Db().codes.Keys, others)
      ensures |plans| == |views| == |items| && Classes(Sent(cfg, userId, items, views), plans)
      ensures ViewsOnPath(old(Db()), run, views)
      ensures Quiet(others) ==> OneView(views, old(Db())) && Db() == old(Db())
    {
      hide Valid, Classes, Kept, RunTo, RestIsForeign, OnPath, Quiet, GrownByOthers, RefSeen, AliasSeen, ClassOf;
      ghost var start := Db();
      plans, views, run := [], [], [];
      var seenRef: set<string>, seenAlias: set<string> := {}, {};
      NothingYet(start, others);
      assert GrownByOthers(start.codes.Keys, start.codes.Keys, others) by { NotGrown(start.codes.Keys, others); }
      NothingSeenYet(cfg, userId, items);
      for i := 0 to |items|
        invariant Valid() && inFlight == old(inFlight) && unsettled <= old(unsettled) && Kept(start, Db())
        invariant RunTo(start, run, Db()) && RestIsForeign(run, {}, others)
        invariant GrownByOthers(start.codes.Keys, Db().codes.Keys, others)
        invariant |plans| == |views| == i && Classes(Sent(cfg, userId, items, views), plans)
        invariant ViewsOnPath(start, run, views) && (Quiet(others) ==> OneView(views, start) && Db() == start)
        invariant forall r :: r in seenRef <==> RefSeen(items, i, r)
        invariant forall a :: a in seenAlias <==> AliasSeen(Sent(cfg, userId, items, views), i, a)
      {
        ghost var b, shorter, before := Sent(cfg, userId, items, views), run, Db();
        var class_;
        ghost var view;
        class_, view, run := ClassifyOne(b, userId, items, i, seenRef, seenAlias, others, start, run);
        GrownTransitive(start.codes.Keys, before.codes.Keys, Db().codes.Keys, others);
        ViewsStillOnPath(start, shorter, run, Db(), views);
        OneMoreView(start, run, views, view);
        ClassesExtend(b, view, plans, class_);
        ViewsExtend(b, view, i);
        OneMoreSeen(Longer(b, view), i);
        views, plans := views + [view], plans + [class_];
        if UsesRef(items[i]) {
          seenRef := seenRef + {items[i].clientRef};
        }
        if class_.Candidate? && class_.p.isAlias {
          seenAlias := seenAlias + {class_.p.shortCode};
        }
      }
    }

    method ClassifyOne(ghost b: Sent, userId: string, items: seq<CreateInput>, i: nat, seenRef: set<string>,
                       seenAlias: set<string>, others: seq<seq<Foreign>>, ghost start: Tables, ghost run: seq<Op>)
      returns (c: Class, ghost view: View, ghost longer: seq<Op>)
      requires Valid() && i < |items| && b == Sent(cfg, userId, items, b.views) && |b.views| == i
      requires RunTo(start, run, Db()) && Kept(start, Db()) && RestIsForeign(run, {}, others) && 2 * i + 1 < |others|
      requires forall r :: r in seenRef <==> RefSeen(items, i, r)
      requires forall a :: a in seenAlias <==> AliasSeen(b, i, a)
      modifies this, store
      ensures Valid() && inFlight == old(inFlight) && unsettled <= old(unsettled) && Kept(start, Db())
      ensures RunTo(start, longer, Db()) && RestIsForeign(longer, {}, others) && run <= longer
      ensures GrownByOthers(old(Db()).codes.Keys, Db().codes.Keys, others)
      ensures c == ClassOf(Longer(b, view), i)
      ensures OnPath(start, longer, view.refs) && OnPath(start, longer, view.names)
      ensures Quiet(others) ==> view == View(old(Db()), old(Db())) && Db() == old(Db())
    {
      hide Valid, Kept, RunTo, RestIsForeign, OnPath, Quiet, GrownByOthers, RefSeen, AliasSeen, Prepare, Inv, ByRef;
      hide ByName;
      QuietRound(others, 2 * i);
      QuietRound(others, 2 * i + 1);
      longer := InterfereFrom(others, 2 * i, start, run, {});
      ghost var refs, shorter := Db(), longer;
      HereOnPath(start, longer, refs);
      var known := FindRef(userId, items, i, seenRef);
      if known.Some? {
        view := View(refs, refs);
        return known.value, view, longer;
      }
      var prep := Prepare(cfg, userId, items[i]);
      longer := InterfereFrom(others, 2 * i + 1, start, longer, {});
      GrownTransitive(old(Db()).codes.Keys, refs.codes.Keys, Db().codes.Keys, others);
      StillOnPath(start, shorter, longer, refs) by { RunsOk(start, longer, Db()); }
      HereOnPath(start, longer, Db());
      view := View(refs, Db());
      ViewsExtend(b, view, i);
      c := CheckAlias(prep, seenAlias);
    }

    // The answer an item's client ref decides on its own, if it does.
    method FindRef(userId: string, items: seq<CreateInput>, i: nat, seenRef: set<string>) returns (known: Option<Class>)
      requires Valid() && i < |items|
      requires forall r :: r in seenRef <==> RefSeen(items, i, r)
      ensures known == ByRef(Db(), userId, items, i)
    {
      hide Trimmed, CacheAgrees, BlobsMatch, EmailIndex, CodeIndex, RefIndex, RefSeen, Inv;
      var in_ := items[i];
      if !UsesRef(in_) {
        return None;
      }
      if in_.clientRef in seenRef {
        return Some(Answer(Rejected(DuplicateRef)));
      }
      var existing := store.GetCodeByClientRef(userId, in_.clientRef);
      if existing.None? {
        return None;
      }
      RefRowIsUnique(Db(), userId, in_.clientRef, existing.value.id);
      if existing.value.destination == Trim(in_.destination) && ModeOf(existing.value.mode) == ModeOf(in_.mode) {
        return Some(Answer(Existing(existing.value)));
      }
      known := Some(Answer(Rejected(RefConflict(existing.value.id))));
    }

    method CheckAlias(prep: Preparation, seenAlias: set<string>) returns (c: Class)
      requires Valid()
      ensures c == ByName(prep, prep.Ready? && (prep.p.shortCode in seenAlias || !Available(Db(), prep.p.shortCode)))
    {
      hide Trimmed, CacheAgrees, BlobsMatch, EmailIndex, CodeIndex, RefIndex, Inv, Available;
      if prep.Refused? {
        return Answer(Rejected(Invalid(prep.error)));
      }
      if prep.p.isAlias {
        if prep.p.shortCode in seenAlias {
          return Answer(Rejected(StoreRefused(AliasTaken)));
        }
        var free := store.IsAliasAvailable(prep.p.shortCode);
        if !free {
          return Answer(Rejected(StoreRefused(AliasTaken)));
        }
      }
      c := Candidate(prep.p);
    }

    // Produce the images of every candidate that can be rendered.
    method RenderAll(userId: string, ghost b: Sent, plans: seq<Class>, draws: seq<Draw>)
      returns (rows: seq<Code>, at: seq<nat>)
      requires Valid() && b.userId == userId && |plans| == |draws| == |b.items| && FreshDraws(Used(), draws)
      requires b.userId != ""
      requires Classes(b, plans)
      modifies `blobs, `inFlight
      ensures Valid() && inFlight == WithRows(old(inFlight), rows) && FreshRows(old(inFlight).Keys, rows)
      ensures RowsOfBatch(b.userId, plans, draws, rows, at, |plans|)
    {
      hide Valid, Renders, RowFrom, RowsOfBatch, Classes, WithRows, GeneratedShape;
      ghost var flying := inFlight;
      rows, at := [], [];
      RowsOfBatchNone(b.userId, plans, draws);
      NoRows(flying);
      for i := 0 to |plans|
        invariant Valid() && RowsOfBatch(b.userId, plans, draws, rows, at, i) && |rows| == |at|
        invariant FreshRows(flying.Keys, rows) && inFlight == WithRows(flying, rows)
        invariant forall k :: 0 <= k < |at| ==> at[k] < i
        invariant forall k {:trigger rows[k]} :: 0 <= k < |rows| ==> rows[k].id == draws[at[k]].id
      {
        if plans[i].Candidate? {
          var p := plans[i].p;
          CandidateIsPrepared(b, plans, i);
          assert FreshDraw(old(Used()), draws[i]);
          NewIdIsFresh(flying, rows, at, draws, i);
          var code := CodeFor(p, draws[i]);
          var made := Materialise(userId, p, code, draws[i]);
          if made.Row? {
            RowFromParts(made.code, b.userId, p, code, draws[i]);
            WithRowsAppend(flying, rows, made.code);
            RowsOfBatchAdd(b.userId, plans, draws, rows, at, i, made.code);
            rows, at := rows + [made.code], at + [i];
          } else {
            RowsOfBatchSkip(b.userId, plans, draws, rows, at, i);
          }
        } else {
          RowsOfBatchSkip(b.userId, plans, draws, rows, at, i);
        }
      }
    }

    // The one transaction; None means it went through, or that there was nothing to insert.
    method InsertRows(ghost w: Work, rows: seq<Code>, up: bool, now: Time, drawn: seq<string>,
                      ghost flying: map<string, Code>)
      returns (outcome: Option<Option<StoreError>>)
      requires Valid() && Built(w, Db().codes.Keys) && w.rows == rows && |drawn| == |rows|
      requires inFlight == WithRows(flying, rows) && FreshRows(flying.Keys, rows)
      modifies this, store
      ensures Valid() && inFlight == flying && unsettled == old(unsettled)
      ensures |w.plans| == |w.draws| == |w.b.items| && Viewed(w.b, |w.plans|)
      ensures Verdict(w.b, w.plans, w.draws, old(Db()), up, outcome) && Landed(w, old(Db()), outcome, now, drawn, Db())
      ensures if outcome.None? && rows != []
              then Succeeds(old(Db()), CreateCodes(Request(rows, now, drawn)))
                   && Db() == Step(old(Db()), CreateCodes(Request(rows, now, drawn)))
              else Db() == old(Db())
    {
      hide Valid, Classes, RowsOfBatch, FreshDraws, Built, LostRef, Accepts, ReadyAt;
      hide Admissible, CodesFree, RefsFree, WithRows, FreshRows, InsertAll, MapFault;
      ghost var before, q := Db(), Request(rows, now, drawn);
      assert Planned(w) by { BuiltIsPlanned(w, before.codes.Keys); }
      SameLengths(w);
      BatchAcceptedExactly(w, before, now, drawn);
      RowsOfBatchShape(w.b.userId, w.plans, w.draws, rows, w.at, |w.plans|);
      if |rows| == 0 {
        NothingToInsert(before, q, flying);
        return None;
      }
      if !up {
        UndoRows(rows, flying);
        return Some(None);
      }
      RefusalHasReason(w, before, now, drawn, |rows|);
      var err := InsertBatch(w, rows, now, drawn, flying);
      outcome := if err.Some? then Some(err) else None;
    }

    // The store call, and what follows it either way.
    method InsertBatch(ghost w: Work, rows: seq<Code>, now: Time, drawn: seq<string>, ghost flying: map<string, Code>)
      returns (err: Option<StoreError>)
      requires Valid() && Built(w, Db().codes.Keys) && w.rows == rows && |drawn| == |rows|
      requires inFlight == WithRows(flying, rows) && FreshRows(flying.Keys, rows)
      modifies this, store
      ensures Valid() && inFlight == flying && unsettled == old(unsettled)
      ensures err == MapFault(old(Db()), Request(rows, now, drawn), |rows|)
      ensures err.None? <==> Admissible(old(Db()), Request(rows, now, drawn))
      ensures if err.None?
              then Succeeds(old(Db()), CreateCodes(Request(rows, now, drawn)))
                   && Db() == Step(old(Db()), CreateCodes(Request(rows, now, drawn)))
                   && Db() == InsertAll(old(Db()), Request(rows, now, drawn))
              else Db() == old(Db())
    {
      hide Inv, Trimmed, CacheAgrees, BlobsMatch, EmailIndex, CodeIndex, RefIndex, MapFault, SqlFault;
      hide Built, Admissible, WithRows, FreshRows, Canonical, InsertAll;
      ghost var before, q := Db(), Request(rows, now, drawn);
      DriverDecides(before, q);
      err := store.CreateCodes(Request(rows, now, drawn));
      if err.Some? {
        UndoRows(rows, flying);
        return;
      }
      BatchSettles(cfg, before, w, q, flying, cache, unsettled, blobs);
      InvalidateRows(rows);
      inFlight := flying;
    }

    // Drop the images of rows that were never inserted, in order.
    method UndoRows(rows: seq<Code>, ghost flying: map<string, Code>)
      requires Valid() && FreshRows(flying.Keys, rows) && inFlight == WithRows(flying, rows)
      modifies `blobs, `inFlight
      ensures Valid() && inFlight == flying
    {
      hide Valid, KeysOf;
      for k := 0 to |rows|
        invariant Valid() && inFlight == WithRows(flying, rows[k..])
      {
        WithRowsFront(flying, rows, k);
        RemoveBlobs(rows[k]);
      }
    }

    method InvalidateRows(rows: seq<Code>)
      modifies `cache
      ensures cache == old(cache) - set k | 0 <= k < |rows| :: CacheKey(rows[k].shortCode)
    {
      hide CacheKey;
      ghost var gone: set<string> := {};
      for k := 0 to |rows|
        invariant forall s :: s in gone <==> exists j :: 0 <= j < k && CacheKey(rows[j].shortCode) == s
        invariant cache == old(cache) - gone
      {
        gone := gone + {CacheKey(rows[k].shortCode)};
        cache := cache - {CacheKey(rows[k].shortCode)};
      }
      assert gone == set k | 0 <= k < |rows| :: CacheKey(rows[k].shortCode);
    }

    // Put each item's answer at its input position.
    method Report(plans: seq<Class>, draws: seq<Draw>, rows: seq<Code>, at: seq<nat>,
                  outcome: Option<Option<StoreError>>, now: Time, drawn: seq<string>)
      returns (results: seq<BatchResult>)
      requires |plans| == |draws| && |rows| == |at| == |drawn|
      requires forall k :: 0 <= k < |at| ==> at[k] < |plans|
      requires forall j, k {:trigger at[j], at[k]} :: 0 <= j < k < |at| ==> at[j] < at[k]
      ensures |results| == |plans|
      ensures forall i: nat :: i < |plans| && i !in at ==> results[i] == Unrendered(plans[i], draws[i])
      ensures forall k :: 0 <= k < |at| ==> results[at[k]] == Inserted(outcome, rows[k], now, drawn[k])
    {
      hide Unrendered, Inserted;
      results := seq(|plans|, i requires 0 <= i < |plans| => Unrendered(plans[i], draws[i]));
      for k := 0 to |rows|
        invariant |results| == |plans|
        invariant forall i: nat :: i < |plans| && i !in at[..k] ==> results[i] == Unrendered(plans[i], draws[i])
        invariant forall j :: 0 <= j < k ==> results[at[j]] == Inserted(outcome, rows[j], now, drawn[j])
      {
        assert at[..k + 1] == at[..k] + [at[k]];
        results := results[at[k] := Inserted(outcome, rows[k], now, drawn[k])];
      }
      assert at[..|rows|] == at;
    }

    // ---- other requests ----

    // One complete request of somebody else, if it gets as far as the store.
    method InterfereOnce(e: Foreign) returns (ghost op: Option<Op>)
      requires Valid()
      modifies this, store
      ensures Valid() && inFlight == old(inFlight) && unsettled <= old(unsettled) && Kept(old(Db()), Db())
      ensures op.None? ==> Db() == old(Db())
      ensures op.Some? ==> OpOk(op.value) && Issues(e, op.value) && Db() == Step(old(Db()), op.value)
      ensures forall id :: id in Db().codes && id !in old(Db()).codes ==> e.Creation? && e.draw.id == id
    {
      hide Inv, Trimmed, CacheAgrees, EmailIndex, CodeIndex, RefIndex, BlobsMatch;
      hide Step, Evolves, DirectFrozen, Permitted, OpOk, Prepare, Canonical, RowFrom, Renders, Carries;
      KeptReflexive(Db());
      op := None;
      match e {
        case Edit(own) =>
          if Permitted(Tables(MapStore, store.users, store.codes, store.reservations), own) {
            ghost var before := Db();
            PermittedIsOk(before, own);
            var _ := WriteAndInvalidate(own);
            op := Some(own);
          }
        case Creation(userId, input, d) =>
          var prep := Prepare(cfg, userId, input);
          if prep.Ready? && d.id != "" && BlobKeyFor(d.id) !in blobs && GeneratedShape(d.code) {
            KeyUnused(cfg, Db().codes + inFlight, blobs, d.id);
            PreparationOk(cfg, userId, input);
            op := CreateOnce(userId, prep.p, d);
          }
      }
    }

    // One attempt of somebody else to create a code.
    method CreateOnce(userId: string, p: Prepared, d: Draw) returns (ghost op: Option<Op>)
      requires Valid() && FreshDraw(Used(), d) && userId != "" && PreparedOk(p)
      modifies this, store
      ensures Valid() && inFlight == old(inFlight) && unsettled == old(unsettled) && Kept(old(Db()), Db())
      ensures op.None? ==> Db() == old(Db())
      ensures op.Some? ==> op.value.CreateCodes? && |op.value.q.rows| == 1 && OpOk(op.value)
      ensures op.Some? ==> op.value.q.rows[0].id == d.id && op.value.q.rows[0].userId == userId
      ensures op.Some? ==> Db() == Step(old(Db()), op.value)
      ensures forall id :: id in Db().codes && id !in old(Db()).codes ==> id == d.id
    {
      hide Valid, Canonical, RowFrom, Carries, Succeeds, Step, Kept, Renders, Wins, Collides;
      ghost var before := Db();
      op := None;
      KeptReflexive(before);
      var code := CodeFor(p, d);
      CodeIsCanonical(p, d);
      var made := Materialise(userId, p, code, d);
      if made.Row? {
        var c := made.code;
        RowFromParts(c, userId, p, code, d);
        var end, row := Land(userId, p, code, d, c);
        if end.Win? {
          op := Some(CreateCodes(LandRequest(c, d)));
          KeptCreation(before, LandRequest(c, d));
        }
      }
    }

    // What other requests do while this one is between two store calls.
    method InterfereFrom(others: seq<seq<Foreign>>, j: nat, ghost start: Tables, ghost run: seq<Op>,
                         ghost mine: set<nat>)
      returns (ghost longer: seq<Op>)
      requires Valid() && j < |others|
      requires RunTo(start, run, Db()) && Kept(start, Db()) && RestIsForeign(run, mine, others)
      modifies this, store
      ensures Valid() && inFlight == old(inFlight) && unsettled <= old(unsettled)
      ensures Kept(start, Db()) && Kept(old(Db()), Db())
      ensures RunTo(start, longer, Db()) && RestIsForeign(longer, mine, others) && run <= longer
      ensures GrownByOthers(old(Db()).codes.Keys, Db().codes.Keys, others)
      ensures others[j] == [] ==> Db() == old(Db()) && blobs == old(blobs)
    {
      hide Valid, Kept, Step, RunTo, RestIsForeign, ForeignId, OpOk, Issues;
      longer := run;
      ghost var before := Db();
      KeptReflexive(before);
      for i := 0 to |others[j]|
        invariant Valid() && inFlight == old(inFlight) && unsettled <= old(unsettled)
        invariant Kept(start, Db()) && Kept(before, Db())
        invariant RunTo(start, longer, Db()) && RestIsForeign(longer, mine, others) && run <= longer
        invariant GrownByOthers(before.codes.Keys, Db().codes.Keys, others)
        invariant i == 0 ==> Db() == before && blobs == old(blobs)
      {
        ghost var mid := Db();
        ghost var op;
        op := InterfereOnce(others[j][i]);
        KeptTransitive(before, mid, Db());
        KeptTransitive(start, mid, Db());
        if others[j][i].Creation? {
          ForeignDraw(others, j, i);
        }
        if op.Some? {
          RunExtends(start, longer, mid, op.value);
          ForeignAdded(longer, mine, others, j, i, op.value);
          longer := longer + [op.value];
        }
      }
    }

    // As seen by a request about one code.
    method InterfereWith(others: seq<seq<Foreign>>, j: nat, ghost start: Tables, ghost run: seq<Op>,
                         ghost mine: set<nat>,
                         ghost id: string, ghost userId: string)
      returns (ghost longer: seq<Op>)
      requires Valid() && j < |others|
      requires RunTo(start, run, Db()) && Kept(start, Db()) && RestIsForeign(run, mine, others)
      requires Owned(Db(), id, userId)
      modifies this, store
      ensures Valid() && inFlight == old(inFlight) && unsettled <= old(unsettled)
      ensures Kept(start, Db()) && Kept(old(Db()), Db())
      ensures RunTo(start, longer, Db()) && RestIsForeign(longer, mine, others) && run <= longer
      ensures Owned(Db(), id, userId) && Db().codes[id].mode == old(Db()).codes[id].mode
      ensures Db().codes[id].shortCode == old(Db()).codes[id].shortCode
      ensures Db().codes[id].version >= old(Db()).codes[id].version
      ensures old(Db()).codes[id].state == Deleted ==> Db().codes[id].state == Deleted
      ensures others[j] == [] ==> Db() == old(Db())
    {
      hide Valid, Step, RunTo, RestIsForeign, Kept, GrownByOthers;
      ghost var before := Db();
      longer := InterfereFrom(others, j, start, run, mine);
      KeptRow(before, Db(), id);
      StillThere(before, Db(), id, userId);
    }

    // ---- editing one code ----

    // One store write. The cached answer of the edited row stays until somebody invalidates its key.
    method Write(op: Op) returns (err: Option<StoreError>)
      requires Valid() && Permitted(Db(), op)
      modifies `unsettled, store
      ensures Valid() && Kept(old(Db()), Db())
      ensures err == Refusal(old(Db()), op) && Db() == Step(old(Db()), op)
      ensures if err.None? && !op.ReleaseAlias?
              then op.id in Db().codes && unsettled == old(unsettled) + {CacheKey(Db().codes[op.id].shortCode)}
              else unsettled == old(unsettled)
    {
      hide Inv, Trimmed, CacheAgrees, BlobsMatch, EmailIndex, CodeIndex, RefIndex;
      hide Step, Evolves, DirectFrozen, Refusal, Succeeds, CacheKey;
      ghost var before := Db();
      KeptStep(before, op);
      WriteKeepsImages(cfg, before, op, inFlight, blobs);
      WriteKeepsCache(before, op, cache, unsettled);
      RefusedExactlyWhenFailing(before, op);
      match op {
        case UpdateDestination(id, userId, dest, expected, now) =>
          err := store.UpdateDestination(id, userId, dest, expected, now);
        case SetCodeState(id, userId, state, now) => err := store.SetCodeState(id, userId, state, now);
        case DeleteCode(id, userId, now) => err := store.DeleteCode(id, userId, now);
        case ReleaseAlias(alias, now) => err := store.ReleaseAlias(alias, now);
      }
      if err.None? && !op.ReleaseAlias? {
        WrittenRow(before, op);
        unsettled := unsettled + {CacheKey(Db().codes[op.id].shortCode)};
      } else {
        assert unsettled + {} == unsettled;
      }
    }

    method Invalidate(shortCode: string)
      requires Valid()
      modifies `cache, `unsettled
      ensures Valid() && unsettled == old(unsettled) - {CacheKey(shortCode)}
      ensures cache == old(cache) - {CacheKey(shortCode)}
    {
      hide Inv, Trimmed, CacheAgrees, BlobsMatch, EmailIndex, CodeIndex, RefIndex, CacheKey;
      InvalidationKeepsAgreement(Db(), cache, unsettled, {CacheKey(shortCode)});
      cache := cache - {CacheKey(shortCode)};
      unsettled := unsettled - {CacheKey(shortCode)};
    }

    // A whole edit of somebody else.
    method WriteAndInvalidate(op: Op) returns (err: Option<StoreError>)
      requires Valid() && Permitted(Db(), op)
      modifies `cache, `unsettled, store
      ensures Valid() && unsettled <= old(unsettled) && Kept(old(Db()), Db())
      ensures err == Refusal(old(Db()), op) && Db() == Step(old(Db()), op) && Db().codes.Keys == old(Db()).codes.Keys
    {
      hide Valid, Step, Kept, Refusal, CacheKey;
      WriteAddsNoRow(Db(), op);
      err := Write(op);
      if err.None? && !op.ReleaseAlias? {
        Invalidate(store.codes[op.id].shortCode);
      }
    }

    method Get(id: string, userId: string) returns (c: Option<Code>)
      requires Valid()
      ensures c == if Owned(Db(), id, userId) then Some(Db().codes[id]) else None
      ensures c.Some? <==> id in Db().codes && Db().codes[id].userId == userId
    {
      hide Inv, Trimmed, CacheAgrees, BlobsMatch, EmailIndex, CodeIndex, RefIndex;
      c := store.GetCodeByID(id, userId);
    }

    // Rows are never removed, so a row once read can be read again.
    method ReadOwned(id: string, userId: string) returns (c: Code)
      requires Valid() && Owned(Db(), id, userId)
      ensures c == Db().codes[id]
    {
      hide Valid;
      var found := Get(id, userId);
      c := found.value;
    }

    method ReleaseAlias(alias: string, now: Time) returns (err: Option<StoreError>)
      requires Valid()
      modifies `unsettled, store
      ensures Valid() && Db().codes == old(Db()).codes && unsettled == old(unsettled)
      ensures err == Refusal(old(Db()), Op.ReleaseAlias(alias, now))
      ensures Db() == Step(old(Db()), Op.ReleaseAlias(alias, now))
      ensures var key, ledger := Lower(alias), old(Db()).reservations;
              if key !in ledger || ledger[key].releasedAt != None then
                err == Some(NotFound) && Db() == old(Db())
              else
                && ledger[key].codeId in old(Db()).codes
                && if old(Db()).codes[ledger[key].codeId].state != Deleted
                   then err == Some(StoreError.Conflict) && Db() == old(Db())
                   else err == None
                        && Db() == old(Db()).(reservations := ledger[key := ledger[key].(releasedAt := Some(now))])
    {
      hide Valid, Refusal, Step, Kept, Lower;
      StoreIsSound();
      ReleaseWritten(Db(), alias, now);
      RefusalOfRelease(Db(), alias, now);
      ReleaseTouchesNoRow(Db(), alias, now);
      err := Write(Op.ReleaseAlias(alias, now));
    }

    // With an expected version: one attempt at that version. Without: read the version and write, three times
    // at most. Other requests write before every attempt's write, before every re-read and before the last read.
    method UpdateDestination(id: string, userId: string, dest: string, expected: int, nows: seq<Time>,
                             others: seq<seq<Foreign>>)
      returns (r: EditResult, ghost run: seq<Op>, ghost mine: set<nat>)
      requires Valid() && |nows| == LAST_WRITE_WINS && |others| == 2 * LAST_WRITE_WINS
      modifies this, store
      ensures Valid() && inFlight == old(inFlight) && unsettled <= old(unsettled) && Kept(old(Db()), Db())
      ensures RunTo(old(Db()), run, Db()) && RestIsForeign(run, mine, others)
      ensures r.Failed? ==> mine == {}
      ensures r.Updated? ==> id in Db().codes && r.code == Db().codes[id]
      ensures r.Updated? ==> exists v: int, now: Time ::
                OneOwnWrite(old(Db()), run, mine, Op.UpdateDestination(id, userId, Trim(dest), v, now))
                && (expected > 0 ==> v == expected)
      ensures r == EditResult.Failed(StoreRefused(NotFound)) <==> !Owned(old(Db()), id, userId)
      ensures r == EditResult.Failed(DirectImmutable) <==>
                Owned(old(Db()), id, userId) && old(Db()).codes[id].mode == CodeMode.Direct
      ensures r == EditResult.Failed(Invalid(InvalidDestination)) <==>
                Owned(old(Db()), id, userId) && old(Db()).codes[id].mode != CodeMode.Direct
                  && !cfg.destinationOk(Trim(dest))
      ensures r.Failed? && r.error.VersionConflict? ==>
                (id in Db().codes && r.error.actual == Db().codes[id].version
                 && (if expected > 0 then r.error.expected == expected else Db().codes[id].state == Deleted))
      ensures r == EditResult.Failed(KeptLosing) ==>
                expected <= 0 && id in Db().codes
                  && Db().codes[id].version >= old(Db()).codes[id].version + 3
      ensures Quiet(others) ==>
                (r.Updated? <==>
                 && id in old(Db()).codes && old(Db()).codes[id].userId == userId
                 && old(Db()).codes[id].mode != CodeMode.Direct && old(Db()).codes[id].state != Deleted
                 && (expected > 0 ==> old(Db()).codes[id].version == expected) && cfg.destinationOk(Trim(dest)))
      ensures Quiet(others) && r.Updated? ==>
                && r.code.destination == Trim(dest) && r.code.version == old(Db()).codes[id].version + 1
                && r.code == old(Db()).codes[id].(destination := Trim(dest), version := r.code.version,
                                                  updatedAt := nows[0])
                && Db() == old(Db()).(codes := old(Db()).codes[id := r.code])
    {
      hide Valid, Step, RunTo, RestIsForeign, Permitted, Refusal, OpOk, Succeeds, OneOwnWrite, Kept;
      ghost var start := Db();
      run, mine := [], {};
      NothingYet(start, others);
      var found := Get(id, userId);
      if found.None? {
        return EditResult.Failed(StoreRefused(NotFound)), run, mine;
      }
      var cur := found.value;
      if cur.mode == CodeMode.Direct {
        return EditResult.Failed(DirectImmutable), run, mine;
      }
      if !cfg.destinationOk(Trim(dest)) {
        return EditResult.Failed(Invalid(InvalidDestination)), run, mine;
      }
      r, run, mine := UpdateWhileLosing(id, userId, Trim(dest), expected, cur, nows, others);
    }

    // The attempts, from the row as first read.
    method UpdateWhileLosing(id: string, userId: string, dest: string, expected: int, first: Code, nows: seq<Time>,
                             others: seq<seq<Foreign>>)
      returns (r: EditResult, ghost run: seq<Op>, ghost mine: set<nat>)
      requires Valid() && |nows| == LAST_WRITE_WINS && |others| == 2 * LAST_WRITE_WINS
      requires Owned(Db(), id, userId) && first == Db().codes[id] && first.mode != CodeMode.Direct
      modifies this, store
      ensures Valid() && inFlight == old(inFlight) && unsettled <= old(unsettled) && Kept(old(Db()), Db())
      ensures RunTo(old(Db()), run, Db()) && RestIsForeign(run, mine, others)
      ensures Owned(Db(), id, userId)
      ensures r.Failed? ==> mine == {} && (r.error.VersionConflict? || r.error == KeptLosing)
      ensures r.Updated? ==> r.code == Db().codes[id]
      ensures r.Updated? ==> exists v: int, now: Time ::
                OneOwnWrite(old(Db()), run, mine, Op.UpdateDestination(id, userId, dest, v, now))
                && (expected > 0 ==> v == expected)
      ensures r.Failed? && r.error.VersionConflict? ==>
                (r.error.actual == Db().codes[id].version
                 && (if expected > 0 then r.error.expected == expected else Db().codes[id].state == Deleted))
      ensures r == EditResult.Failed(KeptLosing) ==>
                expected <= 0 && Db().codes[id].version >= first.version + LAST_WRITE_WINS
      ensures Quiet(others) ==>
                (r.Updated? <==> first.state != Deleted && (expected > 0 ==> first.version == expected))
      ensures Quiet(others) && r.Updated? ==> WroteDestination(old(Db()), Db(), id, dest, nows[0])
    {
      hide Valid, Step, RunTo, RestIsForeign, Permitted, Refusal, OpOk, Succeeds, OneOwnWrite, Kept, WroteDestination;
      ghost var start := Db();
      var cur := first;
      run, mine := [], {};
      NothingYet(start, others);
      var attempts := if expected <= 0 then LAST_WRITE_WINS else 1;
      for i := 0 to attempts
        invariant Valid() && inFlight == old(inFlight) && unsettled <= old(unsettled) && Kept(start, Db())
        invariant RunTo(start, run, Db()) && RestIsForeign(run, {}, others) && mine == {}
        invariant Owned(Db(), id, userId) && Db().codes[id].mode != CodeMode.Direct
        invariant Db().codes[id].version >= start.codes[id].version + i
        invariant i == 0 ==> Db() == start && cur == start.codes[id]
        invariant i > 0 ==> expected <= 0 && !Quiet(others)
      {
        if i > 0 {
          run := InterfereWith(others, 2 * i - 1, start, run, mine, id, userId);
          cur := ReadOwned(id, userId);
        }
        var done: Option<EditResult>;
        done, run, mine := UpdateOnce(id, userId, dest, expected, cur, nows[i], others, 2 * i, start, run);
        if done.Some? {
          return done.value, run, mine;
        }
      }
      r := EditResult.Failed(KeptLosing);
    }

    // One attempt after `cur` was read: None means the version moved on and another attempt may follow.
    method UpdateOnce(id: string, userId: string, dest: string, expected: int, cur: Code, now: Time,
                      others: seq<seq<Foreign>>, j: nat, ghost start: Tables, ghost run: seq<Op>)
      returns (done: Option<EditResult>, ghost longer: seq<Op>, ghost mine: set<nat>)
      requires Valid() && j < |others| && RunTo(start, run, Db()) && Kept(start, Db()) && RestIsForeign(run, {}, others)
      requires Owned(Db(), id, userId) && cur == Db().codes[id] && cur.mode != CodeMode.Direct
      modifies this, store
      ensures Valid() && inFlight == old(inFlight) && unsettled <= old(unsettled) && Kept(start, Db())
      ensures RunTo(start, longer, Db()) && RestIsForeign(longer, mine, others)
      ensures Owned(Db(), id, userId) && Db().codes[id].mode != CodeMode.Direct
      ensures done.None? ==> mine == {} && expected <= 0 && !Quiet(others) && Db().codes[id].version > cur.version
      ensures done.Some? && done.value.Updated? ==> done.value.code == Db().codes[id]
      ensures done.Some? && done.value.Updated? ==>
                OneOwnWrite(start, longer, mine,
                            Op.UpdateDestination(id, userId, dest, if expected > 0 then expected else cur.version, now))
      ensures done.Some? && done.value.Failed? ==> mine == {} && done.value.error.VersionConflict?
      ensures done.Some? && done.value.Failed? ==> done.value.error.actual == Db().codes[id].version
      ensures done.Some? && done.value.Failed? ==>
                (if expected > 0 then done.value.error.expected == expected else Db().codes[id].state == Deleted)
      ensures Quiet(others) && done.Some? ==>
                (done.value.Updated? <==> cur.state != Deleted && (expected > 0 ==> cur.version == expected))
      ensures Quiet(others) && done.Some? && done.value.Updated? ==>
                WroteDestination(old(Db()), Db(), id, dest, now)
    {
      hide Valid, Step, RunTo, RestIsForeign, Permitted, Refusal, OpOk, Succeeds, OneOwnWrite, Kept, Quiet, CacheKey;
      hide WroteDestination;
      ghost var read := Db();
      mine := {};
      longer := InterfereWith(others, j, start, run, mine, id, userId);
      ghost var here := Db();
      QuietRound(others, j);
      QuietRound(others, |others| - 1);
      var v := if expected > 0 then expected else cur.version;
      UpdateAccepted(here, id, userId, dest, v, now);
      UpdateWrites(here, id, userId, dest, v, now);
      var op := Op.UpdateDestination(id, userId, dest, v, now);
      var err := Write(op);
      KeptTransitive(start, here, Db());
      StillThere(here, Db(), id, userId);
      if err.None? {
        Invalidate(cur.shortCode);
        RunExtends(start, longer, here, op);
        OwnWrite(start, longer, here, op);
        RestAndMine(longer, others, op);
        mine := {|longer|};
        ghost var written := longer + [op];
        longer := InterfereWith(others, |others| - 1, start, written, mine, id, userId);
        OwnWriteStays(start, written, longer, Db(), mine, op);
        var after := ReadOwned(id, userId);
        return Some(Updated(after)), longer, mine;
      }
      if expected > 0 || cur.state == Deleted {
        longer := InterfereWith(others, |others| - 1, start, longer, mine, id, userId);
        var latest := ReadOwned(id, userId);
        return Some(EditResult.Failed(VersionConflict(v, latest.version))), longer, mine;
      }
      LostRace(read, here, id, userId, dest, now);
      done := None;
    }

    // The cached answer is invalidated after the row was read again, under the short code read.
    method SetState(id: string, userId: string, state: CodeState, now: Time, others: seq<seq<Foreign>>)
      returns (r: EditResult, ghost run: seq<Op>, ghost mine: set<nat>)
      requires Valid() && |others| == 2
      modifies this, store
      ensures Valid() && inFlight == old(inFlight) && unsettled <= old(unsettled) && Kept(old(Db()), Db())
      ensures RunTo(old(Db()), run, Db()) && RestIsForeign(run, mine, others)
      ensures r.Failed? ==> mine == {}
      ensures r.Updated? ==> Owned(Db(), id, userId) && r.code == Db().codes[id]
      ensures r.Updated? ==> OneOwnWrite(old(Db()), run, mine, Op.SetCodeState(id, userId, state, now))
      ensures r == EditResult.Failed(StoreRefused(NotFound)) <==> !Owned(old(Db()), id, userId)
      ensures r == EditResult.Failed(DirectImmutable) <==>
                Owned(old(Db()), id, userId) && old(Db()).codes[id].mode == CodeMode.Direct
      ensures r == EditResult.Failed(StoreRefused(BadState)) <==>
                && Owned(old(Db()), id, userId) && old(Db()).codes[id].mode != CodeMode.Direct
                && state != Active && state != Disabled
      ensures r == EditResult.Failed(StoreRefused(StoreError.Conflict)) ==>
                Owned(Db(), id, userId) && Db().codes[id].state == Deleted
      ensures Quiet(others) ==>
                (r.Updated? <==>
                 && id in old(Db()).codes && old(Db()).codes[id].userId == userId
                 && old(Db()).codes[id].mode != CodeMode.Direct && old(Db()).codes[id].state != Deleted
                 && (state == Active || state == Disabled))
      ensures Quiet(others) && r.Updated? ==>
                && r.code.state == state && r.code.version == old(Db()).codes[id].version + 1
                && r.code == old(Db()).codes[id].(state := state, version := r.code.version, updatedAt := now)
                && Db() == old(Db()).(codes := old(Db()).codes[id := r.code])
    {
      hide Valid, Step, RunTo, RestIsForeign, Permitted, Refusal, OpOk, Succeeds, OneOwnWrite, Kept, Quiet, CacheKey;
      ghost var start := Db();
      run, mine := [], {};
      NothingYet(start, others);
      QuietRound(others, 0);
      var found := Get(id, userId);
      if found.None? {
        return EditResult.Failed(StoreRefused(NotFound)), run, mine;
      }
      if found.value.mode == CodeMode.Direct {
        return EditResult.Failed(DirectImmutable), run, mine;
      }
      run := InterfereWith(others, 0, start, run, mine, id, userId);
      ghost var here := Db();
      var op := Op.SetCodeState(id, userId, state, now);
      QuietRound(others, 1);
      StateAccepted(here, id, userId, state, now);
      StateWritten(here, id, userId, state, now);
      var err := Write(op);
      KeptTransitive(start, here, Db());
      StillThere(here, Db(), id, userId);
      if err.Some? {
        return EditResult.Failed(StoreRefused(err.value)), run, mine;
      }
      RunExtends(start, run, here, op);
      OwnWrite(start, run, here, op);
      RestAndMine(run, others, op);
      ghost var written := run + [op];
      mine := {|run|};
      run := InterfereWith(others, 1, start, written, mine, id, userId);
      OwnWriteStays(start, written, run, Db(), mine, op);
      var after := ReadOwned(id, userId);
      Invalidate(after.shortCode);
      r := Updated(after);
    }

    // The row, its image and its reservation stay; only the state says the code is gone.
    method Delete(id: string, userId: string, now: Time, others: seq<seq<Foreign>>)
      returns (err: Option<ServiceError>, ghost run: seq<Op>, ghost mine: set<nat>)
      requires Valid() && |others| == 1
      modifies this, store
      ensures Valid() && inFlight == old(inFlight) && unsettled <= old(unsettled) && Kept(old(Db()), Db())
      ensures RunTo(old(Db()), run, Db()) && RestIsForeign(run, mine, others)
      ensures err == if Owned(old(Db()), id, userId) then None else Some(StoreRefused(NotFound))
      ensures err.None? ==> Owned(Db(), id, userId) && Db().codes[id].state == Deleted
      ensures err.None? ==> OneOwnWrite(old(Db()), run, mine, Op.DeleteCode(id, userId, now))
      ensures err.Some? ==> mine == {}
      ensures Quiet(others) && err.None? ==>
                Db() == if old(Db()).codes[id].state == Deleted then old(Db())
                        else old(Db()).(codes := old(Db()).codes[id := old(Db()).codes[id].(
                          state := Deleted, deletedAt := Some(now), version := old(Db()).codes[id].version + 1,
                          updatedAt := now)])
      ensures Quiet(others) ==> Db().reservations == old(Db()).reservations
    {
      hide Valid, Step, RunTo, RestIsForeign, Permitted, Refusal, OpOk, Succeeds, OneOwnWrite, Kept, Quiet, CacheKey;
      ghost var start := Db();
      run, mine := [], {};
      NothingYet(start, others);
      QuietRound(others, 0);
      var found := Get(id, userId);
      if found.None? {
        return Some(StoreRefused(NotFound)), run, mine;
      }
      run := InterfereWith(others, 0, start, run, mine, id, userId);
      ghost var here := Db();
      var op := Op.DeleteCode(id, userId, now);
      DeletionAccepted(here, id, userId, now);
      DeletionWritten(here, id, userId, now);
      var refused := Write(op);
      KeptTransitive(start, here, Db());
      StillThere(here, Db(), id, userId);
      Invalidate(found.value.shortCode);
      RunExtends(start, run, here, op);
      OwnWrite(start, run, here, op);
      RestAndMine(run, others, op);
      mine := {|run|};
      run := run + [op];
      err := None;
    }

    // ---- scans ----

    // At most one store lookup; unknown codes are remembered as negatives. The scan leaves the cache right exactly
    // when cache and store look under one key, the key was cached or is about to be invalidated anyway, or what is
    // filed under it lands unrecorded.
    method Resolve(shortCode: string) returns (r: Resolution)
      requires Valid()
      modifies `cache
      ensures CacheKey(shortCode) !in old(cache) ==> Observe(r) == Resolutions.Direct(Db(), shortCode)
      ensures CacheKey(shortCode) in old(cache) && CacheKey(shortCode) !in unsettled ==>
                (Observe(r) == Resolutions.Direct(Db(), shortCode) <==>
                 KeysMeet(Db(), shortCode) || AtKey(Db(), CacheKey(shortCode)) == Landing(None))
      ensures Valid() <==> KeysMeet(Db(), shortCode) || CacheKey(shortCode) in old(cache)
                           || CacheKey(shortCode) in unsettled || AtKey(Db(), CacheKey(shortCode)) == Landing(None)
      ensures Scan(r, cache) == Resolutions.Resolve(Db(), old(cache), shortCode)
      ensures var key := Lower(Trim(shortCode));
              && key in cache && cache[key] == r && (key in old(cache) ==> cache == old(cache))
              && (key !in old(cache) ==> cache == old(cache)[key := r])
    {
      hide Inv, Trimmed, CacheAgrees, BlobsMatch, EmailIndex, CodeIndex, RefIndex;
      hide Resolutions.Direct, Observe, Lookup, CacheKey, Trim, AtKey, KeysMeet;
      ScanWhileUnsettled(Db(), cache, unsettled, shortCode);
      StoreIsSound();
      ScanFills(Db(), cache, shortCode);
      KeyOfCache(shortCode);
      if CacheKey(shortCode) in cache {
        return cache[CacheKey(shortCode)];
      }
      var found := store.GetCodeByShortCode(shortCode);
      if found.None? {
        r := NEGATIVE;
        cache := cache[CacheKey(shortCode) := r];
      } else {
        r := Resolution(found.value.id, found.value.destination, found.value.state, true);
        cache := cache[CacheKey(found.value.shortCode) := r];
      }
    }

    // The scan itself: record a row that is not deleted, redirect to an active one, and land on anything else. Looked
    // up, or cached under a key that is settled, the visitor goes where the row that holds the short code says.
    method HandleScan(shortCode: string) returns (location: Option<string>, recorded: Option<string>)
      requires Valid()
      modifies `cache
      ensures Lower(Trim(shortCode)) !in old(cache)
              || (Trim(shortCode) == shortCode && Lower(shortCode) !in unsettled) ==>
                var key, db := Lower(shortCode), Db();
                if key in db.reservations && db.reservations[key].releasedAt == None
                then db.reservations[key].codeId in db.codes
                     && var c := db.codes[db.reservations[key].codeId];
                        location == (if c.state == Active then Some(c.destination) else None)
                        && recorded == (if c.state == Deleted then None else Some(c.id))
                else location == None && recorded == None
    {
      hide Inv, Trimmed, CacheAgrees, BlobsMatch, EmailIndex, CodeIndex, RefIndex;
      hide Lookup, Lower, Trim, AtKey, Resolutions.Resolve, KeysMeet;
      StoreIsSound();
      ScanSeesRow(Db(), Lower(shortCode));
      KeysMeetExactly(Db(), shortCode);
      var res := Resolve(shortCode);
      recorded := if res.found && res.state != Deleted then Some(res.codeId) else None;
      location := if res.found && res.state == Active then Some(res.destination) else None;
    }

    // ---- sending a batch twice ----

    // Whatever other requests do meanwhile, every item with a client ref that got a code the first time gets that
    // code's row as it is when the item is checked again, or a conflict naming it once its destination was changed;
    // an unedited code comes back unchanged.
    method SendTwice(userId: string, items: seq<CreateInput>, draws: seq<Draw>, more: seq<Draw>, up: bool,
                     upAgain: bool,
                     now: Time, later: Time, others: seq<seq<Foreign>>, between: seq<Foreign>,
                     othersAgain: seq<seq<Foreign>>)
      returns (first: seq<BatchResult>, second: seq<BatchResult>, ghost again: seq<View>)
      requires Valid() && |draws| == |more| == |items| && |others| == |othersAgain| == 2 * |items| + 1
      requires FreshDraws(Used(), draws + more)
      requires Apart(others, Ids(draws + more)) && Apart([between], Ids(draws + more))
      requires Apart(othersAgain, Ids(draws + more))
      modifies this, store
      ensures Valid() && |first| == |second| == |items| == |again|
      ensures forall i :: 0 <= i < |items| && UsesRef(items[i]) && Answered(first[i]) ==>
                && Later(first[i].code, again[i].refs)
                && second[i] == Resent(again[i].refs.codes[first[i].code.id], first[i].code.destination)
                && (again[i].refs.codes[first[i].code.id].version == first[i].code.version ==>
                      second[i] == Existing(first[i].code))
    {
      hide Valid, Classes, Verdict, Answers, Gained, FreshDraws, ViewsOnPath, OnPath, OneView, OwnBatch, Quiet;
      hide RunTo, RestIsForeign, Kept, Apart, GrownByOthers, ClassOf, UsesRef, Resent, RowEvolves;
      ghost var start, flying := Db(), inFlight.Keys;
      ghost var t, u, run;
      SplitDraws(Used(), draws, more, others, [between], othersAgain);
      StoreIsSound();
      first, t := CreateBatch(userId, items, draws, up, now, others);
      ghost var mid := Db();
      StoreIsSound();
      CreatedAreDrawn(t, draws, mid, first);
      MoreStayFresh(t, draws, more, start.codes.Keys, flying, mid, others, first);
      NothingYet(mid, [between]);
      run := InterfereFrom([between], 0, mid, [], {});
      ghost var reached := Db();
      StoreIsSound();
      DrawsStayFresh(mid.codes.Keys, reached.codes.Keys, flying, more, [between]);
      second, u := CreateBatch(userId, items, more, upAgain, later, othersAgain);
      again := u.b.views;
      forall i | 0 <= i < |items| && UsesRef(items[i]) && Answered(first[i])
        ensures Later(first[i].code, again[i].refs)
                && second[i] == Resent(again[i].refs.codes[first[i].code.id], first[i].code.destination)
                && (again[i].refs.codes[first[i].code.id].version == first[i].code.version ==>
                      second[i] == Existing(first[i].code)) {
        AnsweredStays(start, t, draws, mid, first, i);
        LaterStill(first[i].code, mid, reached);
        ViewIsLater(reached, u, i);
        LaterThen(first[i].code, reached, again[i].refs);
        ResentIsExisting(t.b, t.plans, draws, t.outcome, mid, i, first[i], u.b);
        PlannedAnswer(u.b, u.plans, more, u.outcome, Db(), i, second[i]);
        if again[i].refs.codes[first[i].code.id].version == first[i].code.version {
          UneditedIsExisting(first[i].code, again[i].refs);
        }
      }
    }

    lemma StoreIsSound()
      requires Valid()
      ensures Inv(Db())
    {
      hide Inv, Trimmed, CacheAgrees, BlobsMatch, EmailIndex, CodeIndex, RefIndex;
    }
  }
}
