// Running the same operations against both stores.

module Simulation {
  import opened Domain
  import opened Namespace
  import opened Drivers
  import opened MemStores
  import opened SqliteStores

  // The two stores hold the same rows and the same ledger.
  ghost predicate SameRows(m: Tables, s: Tables) { m.driver.MapStore? && s == m.(driver := Relational) }

  // The operation meets no constraint that only one driver has: owners exist and styling profiles are new, and
  // a new user's email does not clash with another by the case of a letter outside ASCII alone.
  ghost predicate Common(db: Tables, op: Op)
    requires OpOk(op)
  {
    && (op.CreateCodes? && Admissible(db, op.q) ==> SchemaFirst(db, op.q, |op.q.rows|))
    && (op.CreateUser? && op.user.id != "" && op.user.email != "" && op.user.id !in db.users ==>
          !ClashesByCase(db.users, op.user.email))
  }

  lemma AdmissibleOnBoth(m: Tables, s: Tables, q: Request)
    requires SameRows(m, s) && q.Ok()
    ensures Admissible(m, q) == Admissible(s, q) && SchemaFirst(m, q, |q.rows|) == SchemaFirst(s, q, |q.rows|)
  {
    assert forall i :: 0 <= i < |q.rows| ==> Admits(m, q.rows[i]) == Admits(s, q.rows[i]);
    assert forall i :: 0 <= i < |q.rows| ==> SchemaRow(m, q, i) == SchemaRow(s, q, i);
    hide Admits, Compatible, SchemaRow;
  }

  lemma {:induction false} SameInsert(m: Tables, s: Tables, q: Request, n: nat)
    requires SameRows(m, s) && q.Ok() && n <= |q.rows|
    ensures SameRows(InsertFirst(m, q, n), InsertFirst(s, q, n))
    decreases n
  {
    hide RowOf;
    if n > 0 {
      SameInsert(m, s, q, n - 1);
    }
  }

  // From the same rows, the stores agree on an operation exactly when it is common to both, and then they hold
  // the same rows again.
  lemma StoresStepTogether(m: Tables, s: Tables, op: Op)
    requires SameRows(m, s) && OpOk(op)
    ensures (Succeeds(m, op) <==> Succeeds(s, op)) <==> Common(m, op)
    ensures Common(m, op) ==> SameRows(Step(m, op), Step(s, op))
  {
    match op
    case CreateUser(u, _) =>
      hide Fold;
      AsciiClashIsClash(m.users, u.email);
    case CreateCodes(q) =>
      hide Admissible, SchemaFirst;
      AdmissibleOnBoth(m, s, q);
      SameInsert(m, s, q, |q.rows|);
    case _ =>
  }

  // ---- reads ----

  datatype Query = ByCode(shortCode: string) | Free(alias: string) | ById(id: string, userId: string)
    | ByRef(owner: string, ref: string)

  datatype Found = Row(code: Option<Code>) | Yes(free: bool)

  ghost predicate AnswersQuery(db: Tables, q: Query, f: Found) {
    match q
    case ByCode(sc) => f == Row(Lookup(db, sc))
    case Free(alias) => f == Yes(Available(db, alias))
    case ById(id, userId) => f == Row(if Owned(db, id, userId) then Some(db.codes[id]) else None)
    case ByRef(owner, ref) =>
      && f.Row? && (f.code.Some? <==> ref != "" && RefUsed(db, owner, ref))
      && (f.code.Some? ==>
            f.code.value.id in db.codes && db.codes[f.code.value.id] == f.code.value
              && HasRef(f.code.value, owner, ref))
  }

  method AskMap(m: MemStore, q: Query) returns (f: Found)
    requires m.Valid()
    ensures AnswersQuery(m.Db(), q, f)
  {
    hide Inv, Lookup, Available;
    match q {
      case ByCode(sc) =>
        var r := m.GetCodeByShortCode(sc);
        f := Row(r);
      case Free(alias) =>
        var ok := m.IsAliasAvailable(alias);
        f := Yes(ok);
      case ById(id, userId) =>
        var r := m.GetCodeByID(id, userId);
        f := Row(r);
      case ByRef(owner, ref) =>
        var r := m.GetCodeByClientRef(owner, ref);
        f := Row(r);
    }
  }

  method AskSqlite(s: SqliteStore, q: Query) returns (f: Found)
    requires s.Valid()
    ensures AnswersQuery(s.Db(), q, f)
  {
    hide Inv, Lookup, Available;
    match q {
      case ByCode(sc) =>
        var r := s.GetCodeByShortCode(sc);
        f := Row(r);
      case Free(alias) =>
        var ok := s.IsAliasAvailable(alias);
        f := Yes(ok);
      case ById(id, userId) =>
        var r := s.GetCodeByID(id, userId);
        f := Row(r);
      case ByRef(owner, ref) =>
        var r := s.GetCodeByClientRef(owner, ref);
        f := Row(r);
    }
  }

  // A short code is compared alike by both drivers, or the map store finds nothing under it either.
  ghost predicate AskedAlike(db: Tables, q: Query) {
    && (q.ByCode? ==> AsciiLower(q.shortCode) == Lower(q.shortCode) || !Taken(db, q.shortCode))
    && (q.Free? ==> AsciiLower(q.alias) == Lower(q.alias) || !Taken(db, q.alias))
  }

  lemma OneRefRow(db: Tables, i: string, j: string, owner: string, ref: string)
    requires Inv(db) && ref != "" && i in db.codes && j in db.codes
    requires HasRef(db.codes[i], owner, ref) && HasRef(db.codes[j], owner, ref)
    ensures i == j
  {
    assert SameRef(db.codes[i], db.codes[j]);
  }

  // From the same rows, every question has one answer on both stores, except a short code they fold differently
  // and the map store knows.
  lemma ReadsAgreeExactly(m: Tables, s: Tables, q: Query, f: Found, g: Found)
    requires SameRows(m, s) && Inv(m) && Inv(s) && AnswersQuery(m, q, f) && AnswersQuery(s, q, g)
    ensures f == g <==> AskedAlike(m, q)
  {
    match q
    case ByCode(sc) =>
      KeysApartDiffer(m, s, sc);
    case Free(alias) =>
      KeysApartDiffer(m, s, alias);
    case ById(_, _) =>
    case ByRef(owner, ref) =>
      if f.code.Some? && g.code.Some? {
        OneRefRow(m, f.code.value.id, g.code.value.id, owner, ref);
      }
  }

  lemma KeysApartDiffer(m: Tables, s: Tables, sc: string)
    requires SameRows(m, s) && Inv(m) && Inv(s)
    ensures Lookup(m, sc) == Lookup(s, sc) <==> AsciiLower(sc) == Lower(sc) || !Taken(m, sc)
    ensures Available(m, sc) == Available(s, sc) <==> AsciiLower(sc) == Lower(sc) || !Taken(m, sc)
    ensures Lookup(m, sc).Some? <==> Taken(m, sc)
  {
    OtherFoldIsFree(s, sc);
    if Taken(m, sc) {
      HolderWhenTaken(m, Lower(sc));
    }
    hide Inv;
  }

  // ---- running both ----

  datatype Call = Write(op: Op) | Read(q: Query)

  datatype Reply = Done(ok: bool) | Answer(found: Found)

  ghost predicate CallOk(c: Call) { c.Write? ==> OpOk(c.op) }

  ghost predicate CallsOk(calls: seq<Call>) { forall i {:trigger calls[i]} :: 0 <= i < |calls| ==> CallOk(calls[i]) }

  ghost function Next(db: Tables, c: Call): Tables
    requires CallOk(c)
  {
    if c.Write? then Step(db, c.op) else db
  }

  ghost function Later(db: Tables, calls: seq<Call>, n: nat): Tables
    requires CallsOk(calls) && n <= |calls|
    decreases n
  {
    if n == 0 then db else Next(Later(db, calls, n - 1), calls[n - 1])
  }

  ghost predicate CommonCall(db: Tables, c: Call)
    requires CallOk(c)
  {
    if c.Write? then Common(db, c.op) else AskedAlike(db, c.q)
  }

  ghost predicate CommonRun(start: Tables, calls: seq<Call>) {
    CallsOk(calls) && forall i {:trigger calls[i]} :: 0 <= i < |calls| ==> CommonCall(Later(start, calls, i), calls[i])
  }

  method WriteMap(m: MemStore, op: Op) returns (ok: bool)
    requires m.Valid() && OpOk(op)
    modifies m
    ensures m.Valid() && m.Db() == Step(old(m.Db()), op) && ok == Succeeds(old(m.Db()), op)
  {
    hide Inv, Succeeds, Step, Refusal, MapFault, EmailIndex, CodeIndex, RefIndex;
    if !op.CreateCodes? {
      RefusedExactlyWhenFailing(m.Db(), op);
    } else {
      DriverDecides(m.Db(), op.q);
    }
    var err: Option<StoreError>;
    match op {
      case CreateUser(u, at) => err := m.CreateUser(u, at);
      case CreateCodes(q) => err := m.CreateCodes(q);
      case UpdateDestination(id, user, dest, expected, now) =>
        err := m.UpdateDestination(id, user, dest, expected, now);
      case SetCodeState(id, user, state, now) => err := m.SetCodeState(id, user, state, now);
      case DeleteCode(id, user, now) => err := m.DeleteCode(id, user, now);
      case ReleaseAlias(alias, now) => err := m.ReleaseAlias(alias, now);
    }
    ok := err.None?;
  }

  method WriteSqlite(s: SqliteStore, op: Op) returns (ok: bool)
    requires s.Valid() && OpOk(op)
    modifies s
    ensures s.Valid() && s.Db() == Step(old(s.Db()), op) && ok == Succeeds(old(s.Db()), op)
  {
    hide Inv, Succeeds, Step, Refusal, SqlFault;
    if !op.CreateCodes? {
      RefusedExactlyWhenFailing(s.Db(), op);
    } else {
      DriverDecides(s.Db(), op.q);
    }
    var err: Option<StoreError>;
    match op {
      case CreateUser(u, at) => err := s.CreateUser(u, at);
      case CreateCodes(q) => err := s.CreateCodes(q);
      case UpdateDestination(id, user, dest, expected, now) =>
        err := s.UpdateDestination(id, user, dest, expected, now);
      case SetCodeState(id, user, state, now) => err := s.SetCodeState(id, user, state, now);
      case DeleteCode(id, user, now) => err := s.DeleteCode(id, user, now);
      case ReleaseAlias(alias, now) => err := s.ReleaseAlias(alias, now);
    }
    ok := err.None?;
  }

  // One call on both: the same reply, and the same rows afterwards.
  method CallBoth(m: MemStore, s: SqliteStore, c: Call) returns (x: Reply, y: Reply)
    requires m.Valid() && s.Valid() && SameRows(m.Db(), s.Db()) && CallOk(c) && CommonCall(m.Db(), c)
    modifies m, s
    ensures m.Valid() && s.Valid() && SameRows(m.Db(), s.Db()) && m.Db() == Next(old(m.Db()), c)
    ensures x == y && Replies(old(m.Db()), c, x)
  {
    hide Inv, Succeeds, Step, Common, AskedAlike, AnswersQuery, EmailIndex, CodeIndex, RefIndex, SameRows;
    match c {
      case Write(op) =>
        StoresStepTogether(m.Db(), s.Db(), op);
        var e := WriteMap(m, op);
        var f := WriteSqlite(s, op);
        return Done(e), Done(f);
      case Read(q) =>
        var e := AskMap(m, q);
        var f := AskSqlite(s, q);
        ReadsAgreeExactly(m.Db(), s.Db(), q, e, f);
        return Answer(e), Answer(f);
    }
  }

  // The reply is the step's outcome, or an answer to the question.
  ghost predicate Replies(db: Tables, c: Call, r: Reply)
    requires CallOk(c)
  {
    if c.Write? then r == Done(Succeeds(db, c.op)) else r.Answer? && AnswersQuery(db, c.q, r.found)
  }

  ghost predicate AllReplied(start: Tables, calls: seq<Call>, replies: seq<Reply>)
    requires CallsOk(calls) && |replies| <= |calls|
  {
    forall i {:trigger replies[i]} :: 0 <= i < |replies| ==> Replies(Later(start, calls, i), calls[i], replies[i])
  }

  // For every run of common calls the two stores give the same replies, reads and writes alike, and end with the
  // same rows and the same ledger.
  method RunBoth(m: MemStore, s: SqliteStore, calls: seq<Call>, ghost start: Tables)
    returns (xs: seq<Reply>, ys: seq<Reply>)
    requires m.Valid() && s.Valid() && m.Db() == start && SameRows(start, s.Db()) && CommonRun(start, calls)
    modifies m, s
    ensures m.Valid() && s.Valid() && m.Db() == Later(start, calls, |calls|) && SameRows(m.Db(), s.Db())
    ensures xs == ys && |xs| == |calls| && AllReplied(start, calls, xs)
  {
    hide Inv, CallOk, CommonCall, SameRows, Next, Replies, EmailIndex, CodeIndex, RefIndex;
    xs, ys := [], [];
    for i := 0 to |calls|
      invariant m.Valid() && s.Valid() && m.Db() == Later(start, calls, i) && SameRows(m.Db(), s.Db())
      invariant xs == ys && |xs| == i && AllReplied(start, calls, xs)
    {
      assert CallOk(calls[i]) && CommonCall(Later(start, calls, i), calls[i]);
      var x, y := CallBoth(m, s, calls[i]);
      OneMoreReply(start, calls, xs, x);
      xs, ys := xs + [x], ys + [y];
    }
  }

  lemma OneMoreReply(start: Tables, calls: seq<Call>, replies: seq<Reply>, r: Reply)
    requires CallsOk(calls) && |replies| < |calls| && AllReplied(start, calls, replies)
    requires CallOk(calls[|replies|]) && Replies(Later(start, calls, |replies|), calls[|replies|], r)
    ensures AllReplied(start, calls, replies + [r])
  {
    hide Replies;
  }

  // ---- the drivers may name different errors ----

  const CLASH_STYLING := Styling("s1", "", "", "", 4, 512, "M", "M", "", 0.0)
  const CLASH_OLD := Code("a", "x", true, "u", Dynamic, "r", "", Deleted, CLASH_STYLING, "", "", 2, 1, 1, Some(1))
  const CLASH_NEW := CLASH_OLD.(id := "b", state := Active, styling := CLASH_STYLING.(id := "s2"))
  const CLASH_DB := Tables(Relational,
    map["u" := User("u", "e", "", false, 0, "", 1, None)], map["a" := CLASH_OLD], map["x" := Reservation("a", 1, None)])

  lemma ClashStoreIsSound()
    ensures Inv(CLASH_DB)
  {
    PlainIsFolded("x");
    hide Lower, Fold;
  }

  // A row that breaks both the short-code and the client-ref rule: the map store meets the reservation
  // first, the relational store the unique index on refs.
  lemma ErrorKindsMayDiffer()
    ensures Inv(CLASH_DB)
    ensures MapFault(CLASH_DB, Request([CLASH_NEW], 5, [""]), 1) == Some(AliasTaken)
    ensures SqlFault(CLASH_DB, Request([CLASH_NEW], 5, [""])) == Some(ClientRefTaken)
  {
    ClashStoreIsSound();
    hide Inv, Lower, Fold;
    var q := Request([CLASH_NEW], 5, [""]);
    PlainIsFolded("x");
    assert HasRef(CLASH_DB.codes["a"], "u", "r");
    assert RefUsed(CLASH_DB, "u", "r");
    assert MapRowFault(CLASH_DB, q, 0) == Some(AliasTaken);
    assert MapFault(CLASH_DB, q, 0).None?;
    assert !HasLiveRow(CLASH_DB, "x");
    assert SqlRowFault(CLASH_DB, q.Row(0)) == Some(ClientRefTaken);
    assert InsertFirst(CLASH_DB, q, 0) == CLASH_DB;
    assert SqlFaultFirst(CLASH_DB, q, 0).None?;
    assert SqlFaultFirst(CLASH_DB, q, 1) == Some(ClientRefTaken);
  }

  // ---- operations that are not common ----

  // On empty stores, a row whose owner does not exist goes through on the map store alone.
  lemma UnknownOwnerSplits()
    ensures Inv(Empty(MapStore)) && Inv(Empty(Relational))
    ensures MapFault(Empty(MapStore), Request([CLASH_NEW], 5, [""]), 1).None?
    ensures SqlFault(Empty(Relational), Request([CLASH_NEW], 5, [""])) == Some(NotFound)
  {
    hide Lower;
    var q := Request([CLASH_NEW], 5, [""]);
    assert MapFault(Empty(MapStore), q, 0).None? && MapRowFault(Empty(MapStore), q, 0).None?;
    var db := Empty(Relational);
    assert InsertFirst(db, q, 0) == db && SqlFaultFirst(db, q, 0).None?;
    assert !HasLiveRow(db, q.Row(0).shortCode) && !RefUsed(db, "u", "r");
    assert SqlRowFault(db, q.Row(0)) == Some(NotFound);
    assert SqlFaultFirst(db, q, 1) == Some(NotFound);
  }

  function KelvinUser(id: string, letter: char): User { User(id, [letter], "", false, 0, "", 1, None) }

  // Emails that differ in the Kelvin sign alone: the map store refuses the second user, the relational one does not.
  lemma EmailCaseSplits(m: Tables, s: Tables)
    requires m == Empty(MapStore).(users := map["u" := KelvinUser("u", 'k')]) && SameRows(m, s)
    ensures Inv(m) && Inv(s)
    ensures !Succeeds(m, CreateUser(KelvinUser("v", KELVIN), 5)) && Succeeds(s, CreateUser(KelvinUser("v", KELVIN), 5))
  {
    LowerCharFacts('k');
    assert LowerChar(KELVIN) == 'k' == LowerChar('k');
    assert Lower([KELVIN]) == Lower(['k']);
    assert AsciiLower([KELVIN])[0] != AsciiLower(['k'])[0];
    assert Fold(MapStore, m.users["u"].email) == Fold(MapStore, [KELVIN]);
  }
}
