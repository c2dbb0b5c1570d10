// The resolver cache against the store, up to what a scan can observe.

module Resolutions {
  import opened Domain
  import opened Namespace

  datatype Resolution = Resolution(codeId: string, destination: string, state: CodeState, found: bool)

  const NEGATIVE := Resolution("", "", Unset, false)

  // What the scan handler does with a resolution: where it sends the visitor, and which code it records.
  datatype Observed = Redirect(destination: string, scanned: string) | Landing(recorded: Option<string>)

  function Observe(r: Resolution): Observed {
    if r.found && r.state == Active then Redirect(r.destination, r.codeId)
    else if r.found && r.state != Deleted then Landing(Some(r.codeId))
    else Landing(None)
  }

  function ResolutionOf(found: Option<Code>): Resolution {
    match found
    case None => NEGATIVE
    case Some(c) => Resolution(c.id, c.destination, c.state, true)
  }

  // What a scan sees of the row that holds a key.
  function AtKey(db: Tables, key: string): Observed { Observe(ResolutionOf(Holder(db, key))) }

  // What a scan sees when it asks the store.
  function Direct(db: Tables, shortCode: string): (o: Observed)
    ensures o == AtKey(db, Fold(db.driver, shortCode))
  {
    Observe(ResolutionOf(Lookup(db, shortCode)))
  }

  // What a scan of a key comes to, told from the tables: only an active row redirects, to its own destination and
  // recorded as itself; any other row but a deleted one lands and is recorded; a deleted row and a key nobody holds
  // land unrecorded.
  lemma ScanSeesRow(db: Tables, key: string)
    requires Inv(db)
    ensures if key in db.reservations && db.reservations[key].releasedAt == None
            then db.reservations[key].codeId in db.codes
                 && var c := db.codes[db.reservations[key].codeId];
                    c.shortCode == key
                    && (AtKey(db, key) == Redirect(c.destination, c.id) <==> c.state == Active)
                    && (AtKey(db, key) == Landing(Some(c.id)) <==> c.state != Active && c.state != Deleted)
                    && (AtKey(db, key) == Landing(None) <==> c.state == Deleted)
            else AtKey(db, key) == Landing(None)
  {
    if KeyTaken(db, key) {
      HolderWhenTaken(db, key);
    }
    hide Inv;
  }

  // The same for the rows themselves, under their own short codes.
  lemma ScanOfRow(db: Tables, id: string)
    requires Inv(db) && id in db.codes && db.codes[id].state != Deleted
    ensures var c, o := db.codes[id], Direct(db, db.codes[id].shortCode);
            o == if c.state == Active then Redirect(c.destination, id) else Landing(Some(id))
  {
    LookupFindsLive(db, id);
    assert RowOk(id, db.codes[id]);
    hide Inv, Lookup;
  }

  // The cache trims and lower-cases; the store folds as its driver does and never trims.
  function CacheKey(shortCode: string): string { Lower(Trim(shortCode)) }

  lemma KeyOfCache(shortCode: string)
    ensures CacheKey(shortCode) == Lower(Trim(shortCode))
  {
  }

  predicate KeysMeet(db: Tables, shortCode: string) { CacheKey(shortCode) == Fold(db.driver, shortCode) }

  // Which short codes those are: free of outer white space, and folded alike by the driver and by Go.
  lemma KeysMeetExactly(db: Tables, shortCode: string)
    ensures KeysMeet(db, shortCode) <==> Trim(shortCode) == shortCode && Fold(db.driver, shortCode) == Lower(shortCode)
  {
    if KeysMeet(db, shortCode) {
      assert |Trim(shortCode)| == |shortCode|;
    }
  }

  ghost predicate CacheAgrees(db: Tables, cache: map<string, Resolution>) {
    forall k :: k in cache ==> Observe(cache[k]) == AtKey(db, k)
  }

  // Every stored short code is free of outer space, as every alias and generated code is.
  ghost predicate Trimmed(db: Tables) {
    forall id :: id in db.codes ==> Trim(db.codes[id].shortCode) == db.codes[id].shortCode
  }

  ghost predicate CreatesTrimmed(op: Op) {
    op.CreateCodes? ==> forall i :: 0 <= i < |op.q.rows| ==>
      Trim(Lower(op.q.rows[i].shortCode)) == Lower(op.q.rows[i].shortCode)
  }

  // The keys the service invalidates after the operation succeeded. Releasing an alias invalidates nothing.
  ghost function Invalidated(db: Tables, op: Op): set<string>
    requires OpOk(op)
  {
    match op
    case CreateCodes(q) => set i | 0 <= i < |q.rows| :: CacheKey(Lower(q.rows[i].shortCode))
    case UpdateDestination(id, _, _, _, _) => if id in db.codes then {CacheKey(db.codes[id].shortCode)} else {}
    case SetCodeState(id, _, _, _) => if id in db.codes then {CacheKey(db.codes[id].shortCode)} else {}
    case DeleteCode(id, _, _) => if id in db.codes then {CacheKey(db.codes[id].shortCode)} else {}
    case _ => {}
  }

  // ---- mutations ----

  lemma EditLeavesOthers(db: Tables, id: string, c: Code, key: string)
    requires Inv(db) && id in db.codes && key != db.codes[id].shortCode
    ensures Holder(db.(codes := db.codes[id := c]), key) == Holder(db, key)
  {
    if KeyTaken(db, key) {
      assert ReservationOk(key, db.reservations[key], db.codes);
    }
  }

  lemma CreateLeavesOthers(db: Tables, q: Request, key: string)
    requires Inv(db) && q.Ok() && Admissible(db, q)
    requires forall i :: 0 <= i < |q.rows| ==> Key(q.rows[i]) != key
    ensures Holder(InsertAll(db, q), key) == Holder(db, key)
  {
    InsertedKeys(db, q, |q.rows|);
    if key in db.reservations {
      assert ReservationOk(key, db.reservations[key], db.codes);
      hide Inv;
      CreatedRowsAreNew(db, q, db.reservations[key].codeId);
    }
  }

  // Releasing turns a deleted row's answer into "not found": both land, neither is recorded.
  lemma ReleaseIsUnobservable(db: Tables, alias: string, now: Time, key: string)
    requires Inv(db) && Succeeds(db, ReleaseAlias(alias, now))
    ensures AtKey(Effect(db, ReleaseAlias(alias, now)), key) == AtKey(db, key)
  {
    hide Inv, Lower;
    if key == Lower(alias) {
      HolderWhenTaken(db, key);
    }
  }

  lemma StoredKey(db: Tables, id: string)
    requires Inv(db) && Trimmed(db) && id in db.codes
    ensures CacheKey(db.codes[id].shortCode) == db.codes[id].shortCode
  {
    assert RowOk(id, db.codes[id]);
  }

  // After any operation, dropping the keys it invalidates leaves every other answer as the store's.
  lemma StepLeavesOthers(db: Tables, op: Op, key: string)
    requires OpOk(op) && Inv(db) && Trimmed(db) && CreatesTrimmed(op)
    requires Succeeds(db, op) ==> key !in Invalidated(db, op)
    ensures AtKey(Step(db, op), key) == AtKey(db, key)
  {
    hide Inv, CacheKey, Lower, Trim;
    if Succeeds(db, op) {
      match op
      case CreateUser(u, at) =>
      case CreateCodes(q) =>
        hide Admissible, SchemaFirst;
        forall i | 0 <= i < |q.rows| ensures Key(q.rows[i]) != key {
          CreatedKey(q, i);
          assert CacheKey(Lower(q.rows[i].shortCode)) in Invalidated(db, op);
        }
        CreateLeavesOthers(db, q, key);
      case ReleaseAlias(alias, now) => ReleaseIsUnobservable(db, alias, now, key);
      case _ =>
        StoredKey(db, op.id);
        EditLeavesOthers(db, op.id, Step(db, op).codes[op.id], key);
        assert Step(db, op) == db.(codes := db.codes[op.id := Step(db, op).codes[op.id]]);
    }
  }

  lemma CreatedKey(q: Request, i: nat)
    requires i < |q.rows| && Trim(Lower(q.rows[i].shortCode)) == Lower(q.rows[i].shortCode)
    ensures CacheKey(Lower(q.rows[i].shortCode)) == Key(q.rows[i])
  {
    LowerIdempotent(q.rows[i].shortCode);
  }

  lemma MutationKeepsAgreement(db: Tables, op: Op, cache: map<string, Resolution>)
    requires OpOk(op) && Inv(db) && Trimmed(db) && CreatesTrimmed(op) && CacheAgrees(db, cache)
    ensures CacheAgrees(Step(db, op), if Succeeds(db, op) then cache - Invalidated(db, op) else cache)
  {
    hide Inv, Trimmed, CreatesTrimmed, Invalidated, Succeeds, Step, AtKey;
    forall k | k in cache && (Succeeds(db, op) ==> k !in Invalidated(db, op))
      ensures Observe(cache[k]) == AtKey(Step(db, op), k) {
      StepLeavesOthers(db, op, k);
    }
  }

  lemma StepKeepsTrimmed(db: Tables, op: Op)
    requires OpOk(op) && Trimmed(db) && CreatesTrimmed(op)
    ensures Trimmed(Step(db, op))
  {
    forall id | id in Step(db, op).codes
      ensures Trim(Step(db, op).codes[id].shortCode) == Step(db, op).codes[id].shortCode {
      if id in db.codes {
        StepEvolves(db, op);
        assert RowEvolves(db.codes[id], Step(db, op).codes[id]);
      } else {
        InsertedCodes(db, op.q, |op.q.rows|);
      }
    }
  }

  // ---- scans ----

  datatype Scan = Scan(answer: Resolution, cache: map<string, Resolution>)

  // Answer from the cache; on a miss ask the store once and remember the answer, negative ones included.
  function Resolve(db: Tables, cache: map<string, Resolution>, shortCode: string): Scan {
    if CacheKey(shortCode) in cache then Scan(cache[CacheKey(shortCode)], cache)
    else
      match Lookup(db, shortCode)
      case None => Scan(NEGATIVE, cache[CacheKey(shortCode) := NEGATIVE])
      case Some(c) =>
        var r := ResolutionOf(Some(c));
        Scan(r, cache[CacheKey(c.shortCode) := r])
  }

  // A short code that resolves at all is one the cache files under the store's own key.
  lemma ResolvedKeysMeet(db: Tables, shortCode: string)
    requires Inv(db) && Trimmed(db) && Lookup(db, shortCode).Some?
    ensures KeysMeet(db, shortCode) && Lookup(db, shortCode).value.shortCode == CacheKey(shortCode)
    ensures CacheKey(CacheKey(shortCode)) == CacheKey(shortCode)
  {
    hide Inv, Lower, Trim, Fold;
    var key := Fold(db.driver, shortCode);
    HolderWhenTaken(db, key);
    FoldIsLowerOrUnstored(db.driver, shortCode);
    TrimLowerCommute(shortCode);
  }

  // A scan leaves the cache in agreement exactly when cache and store look under one key, the cache knew the
  // short code already, or what is filed under the cache's key lands unrecorded anyway.
  lemma ScanKeepsAgreementExactly(db: Tables, cache: map<string, Resolution>, shortCode: string)
    requires Inv(db) && Trimmed(db) && CacheAgrees(db, cache)
    ensures CacheAgrees(db, Resolve(db, cache, shortCode).cache) <==>
            KeysMeet(db, shortCode) || CacheKey(shortCode) in cache || AtKey(db, CacheKey(shortCode)) == Landing(None)
  {
    hide Inv, Trimmed, Lower, Trim, CacheKey, Fold;
    var key := CacheKey(shortCode);
    if key !in cache {
      var after := Resolve(db, cache, shortCode).cache;
      if Lookup(db, shortCode).Some? {
        ResolvedKeysMeet(db, shortCode);
      } else {
        assert after == cache[key := NEGATIVE] && Observe(after[key]) == Landing(None);
      }
    }
  }

  // And it is answered as the store would answer exactly when the keys meet, the short code had to be looked up,
  // or what is filed under the cache's key lands unrecorded anyway.
  lemma ScanAnswersExactly(db: Tables, cache: map<string, Resolution>, shortCode: string)
    requires Inv(db) && Trimmed(db) && CacheAgrees(db, cache)
    ensures Observe(Resolve(db, cache, shortCode).answer) == Direct(db, shortCode) <==>
            KeysMeet(db, shortCode) || CacheKey(shortCode) !in cache || AtKey(db, CacheKey(shortCode)) == Landing(None)
  {
    hide Inv, Trimmed, Lower, Trim, CacheKey, Fold;
    if Lookup(db, shortCode).Some? {
      ResolvedKeysMeet(db, shortCode);
    }
  }

  // The same while some keys are still to be invalidated: a scan of those is free to leave anything.
  lemma ScanWhileUnsettled(db: Tables, cache: map<string, Resolution>, unsettled: set<string>, shortCode: string)
    requires Inv(db) && Trimmed(db) && CacheAgrees(db, cache - unsettled)
    ensures CacheAgrees(db, Resolve(db, cache, shortCode).cache - unsettled) <==>
            || KeysMeet(db, shortCode) || CacheKey(shortCode) in cache || CacheKey(shortCode) in unsettled
            || AtKey(db, CacheKey(shortCode)) == Landing(None)
    ensures CacheKey(shortCode) !in cache ==> Observe(Resolve(db, cache, shortCode).answer) == Direct(db, shortCode)
    ensures CacheKey(shortCode) in cache && CacheKey(shortCode) !in unsettled ==>
              (Observe(Resolve(db, cache, shortCode).answer) == Direct(db, shortCode) <==>
               KeysMeet(db, shortCode) || AtKey(db, CacheKey(shortCode)) == Landing(None))
  {
    hide Inv, Trimmed, CacheAgrees, CacheKey, KeysMeet, AtKey, Direct, Observe;
    var key := CacheKey(shortCode);
    var settled := cache - unsettled;
    ScanKeepsAgreementExactly(db, settled, shortCode);
    ScanAnswersExactly(db, settled, shortCode);
    ScanFills(db, cache, shortCode);
    ScanFills(db, settled, shortCode);
    if key in unsettled {
      assert Resolve(db, cache, shortCode).cache - unsettled == settled;
    } else if key !in cache {
      assert Resolve(db, cache, shortCode).cache - unsettled == Resolve(db, settled, shortCode).cache;
    }
  }

  // A scan that misses files its answer under the key it missed.
  lemma ScanFills(db: Tables, cache: map<string, Resolution>, shortCode: string)
    requires Inv(db) && Trimmed(db)
    ensures var after := Resolve(db, cache, shortCode);
            && after.answer == (if CacheKey(shortCode) in cache then cache[CacheKey(shortCode)]
                                else ResolutionOf(Lookup(db, shortCode)))
            && after.cache == (if CacheKey(shortCode) in cache then cache
                               else cache[CacheKey(shortCode) := after.answer])
  {
    hide Inv, Trimmed, CacheKey, Lower, Trim, Fold;
    if Lookup(db, shortCode).Some? {
      ResolvedKeysMeet(db, shortCode);
    }
  }

  // One scan through a key that does not meet hides a live code from every scan after it.
  lemma StrayScanHides(db: Tables, id: string, stray: string)
    requires Inv(db) && Trimmed(db) && id in db.codes && db.codes[id].state == Active
    requires CacheKey(stray) == db.codes[id].shortCode && !KeysMeet(db, stray)
    ensures var cache := Resolve(db, map[], stray).cache;
            var code := db.codes[id].shortCode;
            && Direct(db, code) == Redirect(db.codes[id].destination, db.codes[id].id)
            && Observe(Resolve(db, cache, code).answer) == Landing(None)
  {
    LookupFindsLive(db, id);
    StoredKey(db, id);
    hide Inv, Trimmed, Lower, Trim, CacheKey, Fold;
    if Lookup(db, stray).Some? {
      ResolvedKeysMeet(db, stray);
    }
  }

  // ---- sequential runs ----

  // Expire stands for the TTL and the size bound: any entries may vanish at any time.
  datatype Event = Mutate(op: Op) | Visit(shortCode: string) | Expire(keys: set<string>)

  datatype State = State(db: Tables, cache: map<string, Resolution>)

  // A scan may come with any short code whose keys meet.
  ghost predicate EventOk(s: State, e: Event) {
    && (e.Mutate? ==> OpOk(e.op) && CreatesTrimmed(e.op))
    && (e.Visit? ==> KeysMeet(s.db, e.shortCode))
  }

  ghost function Next(s: State, e: Event): State
    requires EventOk(s, e)
  {
    match e
    case Mutate(op) => State(Step(s.db, op), if Succeeds(s.db, op) then s.cache - Invalidated(s.db, op) else s.cache)
    case Visit(sc) => s.(cache := Resolve(s.db, s.cache, sc).cache)
    case Expire(keys) => s.(cache := s.cache - keys)
  }

  ghost predicate Sound(s: State) { Inv(s.db) && Trimmed(s.db) && CacheAgrees(s.db, s.cache) }

  lemma NextPreservesSound(s: State, e: Event)
    requires EventOk(s, e) && Sound(s)
    ensures Sound(Next(s, e))
  {
    hide Inv, Trimmed, CacheAgrees, CreatesTrimmed, Invalidated, Succeeds, Step, Resolve, KeysMeet;
    match e
    case Mutate(op) =>
      StepPreservesInv(s.db, op);
      StepKeepsTrimmed(s.db, op);
      MutationKeepsAgreement(s.db, op, s.cache);
    case Visit(sc) => ScanKeepsAgreementExactly(s.db, s.cache, sc);
    case Expire(keys) => SmallerCache(s.db, s.cache, keys);
  }

  lemma SmallerCache(db: Tables, cache: map<string, Resolution>, keys: set<string>)
    requires CacheAgrees(db, cache)
    ensures CacheAgrees(db, cache - keys)
  {
  }

  ghost predicate Run(states: seq<State>, events: seq<Event>) {
    && |states| == |events| + 1 && Sound(states[0])
    && forall i {:trigger events[i]} :: 0 <= i < |events| ==>
         EventOk(states[i], events[i]) && states[i + 1] == Next(states[i], events[i])
  }

  lemma {:induction false} RunIsSound(states: seq<State>, events: seq<Event>, n: nat)
    requires Run(states, events) && n < |states|
    ensures Sound(states[n])
    decreases n
  {
    hide Sound, Next, EventOk;
    if n > 0 {
      RunIsSound(states, events, n - 1);
      assert EventOk(states[n - 1], events[n - 1]) && states[n] == Next(states[n - 1], events[n - 1]);
      NextPreservesSound(states[n - 1], events[n - 1]);
    }
  }

  // In every sequential run, every scan does what a direct store lookup would have made it do: same redirect
  // or landing, same record decision, although releasing an alias invalidates nothing.
  lemma EveryScanIsDirect(states: seq<State>, events: seq<Event>, n: nat)
    requires Run(states, events) && n < |events| && events[n].Visit?
    ensures Observe(Resolve(states[n].db, states[n].cache, events[n].shortCode).answer)
            == Direct(states[n].db, events[n].shortCode)
  {
    RunIsSound(states, events, n);
    assert EventOk(states[n], events[n]);
    hide Inv, Trimmed, Resolve, Direct, CacheAgrees, KeysMeet;
    ScanAnswersExactly(states[n].db, states[n].cache, events[n].shortCode);
  }

  // And so, in every such run, a scan redirects exactly to the active row that holds its key, and records exactly a
  // row that is not deleted.
  lemma EveryScanSeesRow(states: seq<State>, events: seq<Event>, n: nat)
    requires Run(states, events) && n < |events| && events[n].Visit?
    ensures var db, key := states[n].db, Trim(events[n].shortCode);
            var o := Observe(Resolve(db, states[n].cache, events[n].shortCode).answer);
            key == events[n].shortCode
            && if Lower(key) in db.reservations && db.reservations[Lower(key)].releasedAt == None
               then db.reservations[Lower(key)].codeId in db.codes
                    && var c := db.codes[db.reservations[Lower(key)].codeId];
                       o == (if c.state == Active then Redirect(c.destination, c.id)
                             else if c.state == Deleted then Landing(None) else Landing(Some(c.id)))
               else o == Landing(None)
  {
    RunIsSound(states, events, n);
    EveryScanIsDirect(states, events, n);
    assert EventOk(states[n], events[n]);
    KeysMeetExactly(states[n].db, events[n].shortCode);
    hide Inv, Trimmed, Resolve, CacheAgrees, AtKey, Observe, Trim, Lower;
    ScanSeesRow(states[n].db, Lower(events[n].shortCode));
  }

  // ---- a short code whose keys do not meet ----

  const KIT := Code("cod_1", "kit", true, "usr_1", Dynamic, "", "https://example.com", Active,
                    Styling("sty_1", "", "", "", 0, 0, "", "", "", 0.0), "", "", 0, 0, 0, None)

  const KIT_OPS: seq<Op> := [
    CreateUser(User("usr_1", "a@example.com", "", false, 0, "", 0, None), 1), CreateCodes(Request([KIT], 2, [""]))]

  lemma KitStore(driver: Driver)
    ensures OpsOk(KIT_OPS)
    ensures var db := After(Empty(driver), KIT_OPS, 2);
            Inv(db) && Trimmed(db) && db.codes == map["cod_1" := RowOf(KIT, 2, "")] && db.driver == driver
    ensures RowOf(KIT, 2, "").shortCode == "kit" && RowOf(KIT, 2, "").state == Active
  {
    hide Fold, Lower, Trim;
    PlainIsFolded("kit");
    KitTrimmed();
    assert OpsOk(KIT_OPS);
    AfterStart(Empty(driver), KIT_OPS);
    AfterStep(Empty(driver), KIT_OPS, 0);
    AfterStep(Empty(driver), KIT_OPS, 1);
    KitOwner(driver);
    var d1 := After(Empty(driver), KIT_OPS, 1);
    KitRow(d1);
    KitSound(driver);
    hide After, Step;
    assert After(Empty(driver), KIT_OPS, 2) == Step(d1, KIT_OPS[1]);
  }

  lemma KitSound(driver: Driver)
    requires OpsOk(KIT_OPS)
    ensures Inv(After(Empty(driver), KIT_OPS, 2))
  {
    hide After, Fold, Lower, Step;
    RunPreservesInv(Empty(driver), KIT_OPS, 2);
  }

  lemma KitOwner(driver: Driver)
    ensures var d := Step(Empty(driver), KIT_OPS[0]);
            d.driver == driver && d.codes == map[] && d.reservations == map[] && "usr_1" in d.users
  {
    hide Fold;
    assert !EmailUsed(Empty(driver), "a@example.com");
  }

  lemma KitRow(d: Tables)
    requires d.codes == map[] && d.reservations == map[] && "usr_1" in d.users
    ensures Step(d, KIT_OPS[1]) == Insert(d, RowOf(KIT, 2, ""), 2)
  {
    hide Lower, RowOf;
    var q := Request([KIT], 2, [""]);
    assert q.rows[0] == KIT && q.Row(0) == RowOf(KIT, 2, "");
    assert Admissible(d, q) && SchemaRow(d, q, 0);
    SingleStep(d, KIT, 2, "");
  }

  lemma KitTrimmed()
    ensures Trim("kit") == "kit"
  {
    NothingToTrim("kit");
  }

  lemma SpacesTrimmed(letters: string, space: char)
    requires letters != "" && !IsSpace(letters[0]) && !IsSpace(letters[|letters| - 1]) && IsSpace(space)
    ensures Trim([space] + letters) == letters && Trim(letters + [space]) == letters
  {
    hide IsSpace;
    assert ([space] + letters)[1..] == letters;
    assert TrimLeft([space] + letters) == letters;
    var s := letters + [space];
    assert TrimLeft(s) == s && s[..|s| - 1] == letters;
    assert TrimRight(s) == TrimRight(letters);
  }

  // A scan the cache files under "kit" and the store looks up under anything else.
  lemma StrayHidesKit(driver: Driver, stray: string)
    requires CacheKey(stray) == "kit" && Fold(driver, stray) != "kit"
    ensures OpsOk(KIT_OPS)
    ensures var db := After(Empty(driver), KIT_OPS, 2);
            && Direct(db, "kit") == Redirect("https://example.com", "cod_1")
            && Observe(Resolve(db, Resolve(db, map[], stray).cache, "kit").answer) == Landing(None)
  {
    KitStore(driver);
    hide After, Inv, Trimmed, RowOf, CacheKey, Fold, Resolve, Direct;
    RowOfKit();
    StrayScanHides(After(Empty(driver), KIT_OPS, 2), "cod_1", stray);
  }

  lemma RowOfKit()
    ensures RowOf(KIT, 2, "").id == "cod_1" && RowOf(KIT, 2, "").destination == "https://example.com"
  {
    hide Lower;
  }

  // Before or after "kit", any white space hides the live code from every scan after it, whichever the driver.
  lemma StraySpaceHides(driver: Driver, space: char, stray: string)
    requires IsSpace(space) && (stray == [space] + "kit" || stray == "kit" + [space])
    ensures OpsOk(KIT_OPS)
    ensures var db := After(Empty(driver), KIT_OPS, 2);
            && Direct(db, "kit") == Redirect("https://example.com", "cod_1")
            && Observe(Resolve(db, Resolve(db, map[], stray).cache, "kit").answer) == Landing(None)
  {
    PlainIsFolded("kit");
    SpacesTrimmed("kit", space);
    hide After, Resolve, Direct, Trim, Lower, IsSpace;
    assert |Fold(driver, stray)| == 4;
    StrayHidesKit(driver, stray);
  }

  // On the relational store a letter outside ASCII that lower-cases into "kit" hides it as well.
  lemma StrayLetterHides()
    ensures OpsOk(KIT_OPS)
    ensures var db := After(Empty(Relational), KIT_OPS, 2);
            && Direct(db, "kit") == Redirect("https://example.com", "cod_1")
            && Observe(Resolve(db, Resolve(db, map[], [KELVIN] + "it").cache, "kit").answer) == Landing(None)
  {
    var stray := [KELVIN] + "it";
    NothingToTrim(stray);
    LowerCharFacts('i');
    LowerCharFacts('t');
    assert Lower(stray) == "kit" && AsciiLower(stray)[0] == KELVIN;
    hide After, Resolve, Direct, Trim, Lower;
    StrayHidesKit(Relational, stray);
  }
}
