// The metadata tables and their atomic steps: the meaning both store drivers are proved against.

module Namespace {
  import opened Domain

  // The rows of one store, and the driver whose rules its queries and constraints follow.
  datatype Tables = Tables(
    driver: Driver, users: map<string, User>, codes: map<string, Code>, reservations: map<string, Reservation>)

  function Empty(d: Driver): Tables { Tables(d, map[], map[], map[]) }

  // ---- reading the ledger ----

  predicate KeyTaken(db: Tables, key: string) { key in db.reservations && db.reservations[key].releasedAt.None? }

  // Creating and releasing lower-case the short code in Go, whatever the driver.
  predicate Taken(db: Tables, shortCode: string) { KeyTaken(db, Lower(shortCode)) }

  // The row that owns the unreleased reservation of a key.
  function Holder(db: Tables, key: string): Option<Code> {
    if KeyTaken(db, key) && db.reservations[key].codeId in db.codes
    then Some(db.codes[db.reservations[key].codeId]) else None
  }

  // Looking a short code up folds it as the driver compares texts.
  function Lookup(db: Tables, shortCode: string): Option<Code> { Holder(db, Fold(db.driver, shortCode)) }

  predicate Available(db: Tables, shortCode: string) { !KeyTaken(db, Fold(db.driver, shortCode)) }

  predicate HasRef(c: Code, userId: string, ref: string) { c.userId == userId && c.clientRef == ref }

  ghost predicate RefUsed(db: Tables, userId: string, ref: string) {
    exists id :: id in db.codes && HasRef(db.codes[id], userId, ref)
  }

  ghost predicate EmailTaken(d: Driver, users: map<string, User>, email: string) {
    exists id :: id in users && Fold(d, users[id].email) == Fold(d, email)
  }

  ghost predicate EmailUsed(db: Tables, email: string) { EmailTaken(db.driver, db.users, email) }

  // ---- the invariant of every reachable store ----

  ghost predicate RowOk(id: string, c: Code) {
    && c.id == id && id != "" && c.userId != "" && c.version >= 1
    && c.shortCode == Lower(c.shortCode) && c.shortCode != ""
    && c.state != Unset && c.mode != NoMode
  }

  // Every row is in the ledger; a live row owns the unreleased reservation of its short code.
  ghost predicate LedgerHas(id: string, c: Code, ledger: map<string, Reservation>) {
    && c.shortCode in ledger
    && (c.state != Deleted ==> ledger[c.shortCode].releasedAt.None? && ledger[c.shortCode].codeId == id)
  }

  // Every reservation points at a row that carries its short code; once released, at a deleted one.
  ghost predicate ReservationOk(key: string, r: Reservation, codes: map<string, Code>) {
    && r.codeId in codes
    && codes[r.codeId].shortCode == key
    && (r.releasedAt.Some? ==> codes[r.codeId].state == Deleted)
  }

  predicate SameRef(c: Code, d: Code) {
    c.clientRef != "" && c.clientRef == d.clientRef && c.userId == d.userId
  }

  ghost predicate RefsUnique(codes: map<string, Code>) {
    forall i, j {:trigger SameRef(codes[i], codes[j])} :: i in codes && j in codes && SameRef(codes[i], codes[j]) ==>
      i == j
  }

  predicate SameEmail(d: Driver, u: User, v: User) { Fold(d, u.email) == Fold(d, v.email) }

  ghost predicate UsersOk(d: Driver, users: map<string, User>) {
    && (forall id :: id in users ==> users[id].id == id != "" && users[id].email != "")
    && (forall i, j {:trigger SameEmail(d, users[i], users[j])} ::
          i in users && j in users && SameEmail(d, users[i], users[j]) ==> i == j)
  }

  ghost predicate LedgerOk(db: Tables) {
    && (forall id :: id in db.codes ==> LedgerHas(id, db.codes[id], db.reservations))
    && (forall key :: key in db.reservations ==> ReservationOk(key, db.reservations[key], db.codes))
  }

  ghost predicate RowsOk(codes: map<string, Code>) { forall id :: id in codes ==> RowOk(id, codes[id]) }

  predicate SameStyling(c: Code, d: Code) { c.styling.id == d.styling.id }

  // What only the relational schema demands: owners exist, no two rows share a styling profile.
  ghost predicate SchemaOk(db: Tables) {
    && (forall id :: id in db.codes ==> db.codes[id].userId in db.users)
    && (forall i, j {:trigger SameStyling(db.codes[i], db.codes[j])} ::
          i in db.codes && j in db.codes && SameStyling(db.codes[i], db.codes[j]) ==> i == j)
  }

  ghost predicate Inv(db: Tables) {
    && RowsOk(db.codes) && LedgerOk(db) && RefsUnique(db.codes) && UsersOk(db.driver, db.users)
    && (db.driver.Relational? ==> SchemaOk(db))
  }

  // ---- creating rows ----

  function OrTime(t: Time, d: Time): Time { if t == ZERO_TIME then d else t }

  // The row as persisted: lower-cased short code, every default applied, version one.
  function RowOf(c: Code, now: Time, drawnStyling: string): Code {
    var created := OrTime(c.createdAt, now);
    c.(shortCode := Lower(c.shortCode),
       createdAt := created,
       updatedAt := OrTime(c.updatedAt, created),
       state := if c.state == Unset then Active else c.state,
       mode := if c.mode == NoMode then Dynamic else c.mode,
       styling := if c.styling.id == "" then c.styling.(id := drawnStyling) else c.styling,
       version := 1,
       deletedAt := None)
  }

  function Insert(db: Tables, row: Code, now: Time): Tables {
    db.(codes := db.codes[row.id := row],
        reservations := db.reservations[row.shortCode := Reservation(row.id, now, None)])
  }

  // A request carries its rows, the clock and the random styling ids drawn for rows that name none.
  datatype Request = Request(rows: seq<Code>, now: Time, drawn: seq<string>) {
    predicate Ok() { |drawn| == |rows| }

    function Row(i: nat): Code
      requires Ok() && i < |rows|
    {
      RowOf(rows[i], now, drawn[i])
    }
  }

  function InsertFirst(db: Tables, q: Request, n: nat): (r: Tables)
    requires q.Ok() && n <= |q.rows|
    ensures r.users == db.users && r.driver == db.driver
    decreases n
  {
    if n == 0 then db else Insert(InsertFirst(db, q, n - 1), q.Row(n - 1), q.now)
  }

  function InsertAll(db: Tables, q: Request): Tables
    requires q.Ok()
  {
    InsertFirst(db, q, |q.rows|)
  }

  ghost predicate Complete(c: Code) { c.id != "" && c.shortCode != "" && c.userId != "" }

  // What one row needs of the store it joins.
  ghost predicate Admits(db: Tables, c: Code) {
    && Complete(c)
    && c.id !in db.codes
    && !Taken(db, c.shortCode)
    && (c.clientRef != "" ==> !RefUsed(db, c.userId, c.clientRef))
  }

  ghost predicate Compatible(c: Code, d: Code) {
    && c.id != d.id
    && Lower(c.shortCode) != Lower(d.shortCode)
    && (c.clientRef != "" ==> c.clientRef != d.clientRef || c.userId != d.userId)
  }

  // A batch may be inserted: each row fits the store and no two rows of the batch collide.
  ghost predicate Admissible(db: Tables, q: Request) {
    && (forall i :: 0 <= i < |q.rows| ==> Admits(db, q.rows[i]))
    && (forall i, j {:trigger Compatible(q.rows[i], q.rows[j])} :: 0 <= i < j < |q.rows| ==>
        Compatible(q.rows[i], q.rows[j]))
  }

  ghost predicate AdmissibleFirst(db: Tables, q: Request, n: nat)
    requires n <= |q.rows|
  {
    (forall i {:trigger Admits(db, q.rows[i])} :: 0 <= i < n ==> Admits(db, q.rows[i])) && Disjoint(q, n)
  }

  // The constraints only the relational schema has: owners exist, styling profiles are new.
  ghost predicate StylingUsed(db: Tables, stylingId: string) {
    exists id :: id in db.codes && db.codes[id].styling.id == stylingId
  }

  ghost predicate SchemaRow(db: Tables, q: Request, i: nat)
    requires q.Ok() && i < |q.rows|
  {
    && q.rows[i].userId in db.users
    && !StylingUsed(db, q.Row(i).styling.id)
    && (forall j :: 0 <= j < i ==> q.Row(j).styling.id != q.Row(i).styling.id)
  }

  ghost predicate SchemaFirst(db: Tables, q: Request, n: nat)
    requires q.Ok() && n <= |q.rows|
  {
    forall i {:trigger SchemaRow(db, q, i)} :: 0 <= i < n ==> SchemaRow(db, q, i)
  }

  ghost predicate Accepts(db: Tables, q: Request)
    requires q.Ok()
  {
    Admissible(db, q) && (db.driver.Relational? ==> SchemaFirst(db, q, |q.rows|))
  }

  // ---- the steps ----

  datatype Op =
    | CreateUser(user: User, at: Time)
    | CreateCodes(q: Request)
    | UpdateDestination(id: string, userId: string, dest: string, expected: int, now: Time)
    | SetCodeState(id: string, userId: string, state: CodeState, now: Time)
    | DeleteCode(id: string, userId: string, now: Time)
    | ReleaseAlias(alias: string, now: Time)

  predicate Owned(db: Tables, id: string, userId: string) {
    id in db.codes && db.codes[id].userId == userId
  }

  ghost predicate OpOk(op: Op) { op.CreateCodes? ==> op.q.Ok() }

  // The operation changes the store. Every refusal leaves the store as it was.
  ghost predicate Succeeds(db: Tables, op: Op) {
    match op
    case CreateUser(u, _) => u.id != "" && u.email != "" && u.id !in db.users && !EmailUsed(db, u.email)
    case CreateCodes(q) => q.Ok() && Accepts(db, q)
    case UpdateDestination(id, user, _, expected, _) =>
      Owned(db, id, user) && db.codes[id].state != Deleted && db.codes[id].version == expected
    case SetCodeState(id, user, state, _) =>
      (state == Active || state == Disabled) && Owned(db, id, user) && db.codes[id].state != Deleted
    case DeleteCode(id, user, _) => Owned(db, id, user)
    case ReleaseAlias(alias, _) =>
      Taken(db, alias) && (Holder(db, Lower(alias)).Some? ==> Holder(db, Lower(alias)).value.state == Deleted)
  }

  function Touched(db: Tables, id: string, c: Code, now: Time): Tables
    requires id in db.codes
  {
    db.(codes := db.codes[id := c.(version := db.codes[id].version + 1, updatedAt := now)])
  }

  ghost function Effect(db: Tables, op: Op): Tables
    requires OpOk(op) && Succeeds(db, op)
  {
    match op
    case CreateUser(u, at) =>
      db.(users := db.users[u.id := u.(createdAt := OrTime(u.createdAt, at))])
    case CreateCodes(q) => InsertAll(db, q)
    case UpdateDestination(id, _, dest, _, now) =>
      Touched(db, id, db.codes[id].(destination := dest), now)
    case SetCodeState(id, _, state, now) =>
      Touched(db, id, db.codes[id].(state := state), now)
    case DeleteCode(id, _, now) =>
      if db.codes[id].state == Deleted then db
      else Touched(db, id, db.codes[id].(state := Deleted, deletedAt := Some(now)), now)
    case ReleaseAlias(alias, now) =>
      var key := Lower(alias);
      db.(reservations := db.reservations[key := db.reservations[key].(releasedAt := Some(now))])
  }

  ghost function Step(db: Tables, op: Op): Tables
    requires OpOk(op)
  {
    if Succeeds(db, op) then Effect(db, op) else db
  }

  ghost predicate OpsOk(ops: seq<Op>) { forall i :: 0 <= i < |ops| ==> OpOk(ops[i]) }

  // The store after the first n operations of a run.
  ghost function After(db: Tables, ops: seq<Op>, n: nat): Tables
    requires OpsOk(ops) && n <= |ops|
    decreases n
  {
    if n == 0 then db else Step(After(db, ops, n - 1), ops[n - 1])
  }

  lemma AfterStart(db: Tables, ops: seq<Op>)
    requires OpsOk(ops)
    ensures After(db, ops, 0) == db
  {
  }

  lemma AfterStep(db: Tables, ops: seq<Op>, n: nat)
    requires OpsOk(ops) && n < |ops|
    ensures After(db, ops, n + 1) == Step(After(db, ops, n), ops[n])
  {
  }

  // ---- batches ----

  function Key(c: Code): string { Lower(c.shortCode) }

  ghost predicate Disjoint(q: Request, n: nat)
    requires n <= |q.rows|
  {
    forall i, j {:trigger Compatible(q.rows[i], q.rows[j])} :: 0 <= i < j < n ==> Compatible(q.rows[i], q.rows[j])
  }

  lemma RowIdentity(c: Code, now: Time, drawn: string)
    ensures RowOf(c, now, drawn).id == c.id && RowOf(c, now, drawn).shortCode == Key(c)
  {
  }

  // A batch adds exactly its own rows to the table of codes...
  lemma {:induction false} InsertedCodes(db: Tables, q: Request, n: nat)
    requires q.Ok() && n <= |q.rows| && Disjoint(q, n)
    ensures forall i :: 0 <= i < n ==> q.rows[i].id in InsertFirst(db, q, n).codes
    ensures forall i :: 0 <= i < n ==> InsertFirst(db, q, n).codes[q.rows[i].id] == q.Row(i)
    ensures forall id :: id in InsertFirst(db, q, n).codes ==>
              id in db.codes || exists i :: 0 <= i < n && q.rows[i].id == id
    ensures forall id :: id in db.codes ==> id in InsertFirst(db, q, n).codes
    ensures forall id :: id in db.codes && (forall i :: 0 <= i < n ==> q.rows[i].id != id)
                         ==> InsertFirst(db, q, n).codes[id] == db.codes[id]
    decreases n
  {
    hide RowOf;
    if n > 0 {
      RowIdentity(q.rows[n - 1], q.now, q.drawn[n - 1]);
      InsertedCodes(db, q, n - 1);
      forall i | 0 <= i < n - 1 ensures q.rows[i].id != q.rows[n - 1].id {
        assert Compatible(q.rows[i], q.rows[n - 1]);
      }
    }
  }

  // ... and reserves exactly their short codes.
  lemma {:induction false} InsertedKeys(db: Tables, q: Request, n: nat)
    requires q.Ok() && n <= |q.rows| && Disjoint(q, n)
    ensures forall i :: 0 <= i < n ==> Key(q.rows[i]) in InsertFirst(db, q, n).reservations
    ensures forall i :: 0 <= i < n ==>
              InsertFirst(db, q, n).reservations[Key(q.rows[i])] == Reservation(q.rows[i].id, q.now, None)
    ensures forall k :: k in InsertFirst(db, q, n).reservations ==>
              k in db.reservations || exists i :: 0 <= i < n && Key(q.rows[i]) == k
    ensures forall k :: k in db.reservations ==> k in InsertFirst(db, q, n).reservations
    ensures forall k :: k in db.reservations && (forall i :: 0 <= i < n ==> Key(q.rows[i]) != k)
                        ==> InsertFirst(db, q, n).reservations[k] == db.reservations[k]
    decreases n
  {
    hide RowOf;
    if n > 0 {
      RowIdentity(q.rows[n - 1], q.now, q.drawn[n - 1]);
      InsertedKeys(db, q, n - 1);
      forall i | 0 <= i < n - 1 ensures Key(q.rows[i]) != Key(q.rows[n - 1]) {
        assert Compatible(q.rows[i], q.rows[n - 1]);
      }
    }
  }

  lemma RefAfterPrefix(db: Tables, q: Request, n: nat, userId: string, ref: string)
    requires q.Ok() && n <= |q.rows| && Disjoint(q, n)
    requires forall i :: 0 <= i < n ==> q.rows[i].id !in db.codes
    ensures RefUsed(InsertFirst(db, q, n), userId, ref)
            <==> RefUsed(db, userId, ref) || exists i :: 0 <= i < n && HasRef(q.rows[i], userId, ref)
  {
    hide InsertFirst;
    InsertedCodes(db, q, n);
    var mid := InsertFirst(db, q, n);
    assert forall id :: id in db.codes ==> mid.codes[id] == db.codes[id];
    assert forall i :: 0 <= i < n ==> HasRef(q.rows[i], userId, ref) == HasRef(mid.codes[q.rows[i].id], userId, ref);
  }

  lemma TakenAfterPrefix(db: Tables, q: Request, n: nat, c: Code)
    requires q.Ok() && n <= |q.rows| && Disjoint(q, n)
    ensures Taken(InsertFirst(db, q, n), c.shortCode)
            <==> Taken(db, c.shortCode) || exists i :: 0 <= i < n && Key(q.rows[i]) == Key(c)
  {
    hide InsertFirst, Lower;
    InsertedKeys(db, q, n);
  }

  // Admitting a row after a prefix of its batch is admitting it before, plus agreeing with that prefix.
  lemma AdmitsAfterPrefix(db: Tables, q: Request, n: nat, c: Code)
    requires q.Ok() && n <= |q.rows| && Disjoint(q, n)
    requires forall i :: 0 <= i < n ==> Admits(db, q.rows[i])
    ensures Admits(InsertFirst(db, q, n), c)
            <==> Admits(db, c) && (forall i :: 0 <= i < n ==> Compatible(c, q.rows[i]))
  {
    hide InsertFirst, Lower;
    var mid := InsertFirst(db, q, n);
    assert c.id in mid.codes <==> c.id in db.codes || exists i :: 0 <= i < n && q.rows[i].id == c.id by {
      InsertedCodes(db, q, n);
    }
    assert Taken(mid, c.shortCode)
      <==> Taken(db, c.shortCode) || exists i :: 0 <= i < n && Key(q.rows[i]) == Key(c) by {
      TakenAfterPrefix(db, q, n, c);
    }
    assert RefUsed(mid, c.userId, c.clientRef)
           <==> RefUsed(db, c.userId, c.clientRef)
                || exists i :: 0 <= i < n && HasRef(q.rows[i], c.userId, c.clientRef) by {
      RefAfterPrefix(db, q, n, c.userId, c.clientRef);
    }
  }

  lemma CompatibleSymmetric(c: Code, d: Code)
    requires Compatible(c, d)
    ensures Compatible(d, c)
  {
  }

  lemma RowOfOk(c: Code, now: Time, drawn: string)
    requires Complete(c)
    ensures RowOk(c.id, RowOf(c, now, drawn))
    ensures Key(RowOf(c, now, drawn)) == Key(c) == RowOf(c, now, drawn).shortCode
  {
    LowerIdempotent(c.shortCode);
  }

  lemma InsertKeepsLedger(db: Tables, row: Code, now: Time)
    requires Inv(db) && !Taken(db, row.shortCode) && row.id !in db.codes && row.shortCode == Lower(row.shortCode)
    ensures LedgerOk(Insert(db, row, now))
  {
    var after := Insert(db, row, now);
    forall id | id in after.codes ensures LedgerHas(id, after.codes[id], after.reservations) {
      if id != row.id {
        assert LedgerHas(id, db.codes[id], db.reservations);
      }
    }
    forall key | key in after.reservations ensures ReservationOk(key, after.reservations[key], after.codes) {
      if key != row.shortCode {
        assert ReservationOk(key, db.reservations[key], db.codes);
      }
    }
  }

  lemma InsertKeepsRefs(codes: map<string, Code>, row: Code)
    requires RefsUnique(codes) && row.id !in codes
    requires row.clientRef != "" ==> forall id :: id in codes ==> !HasRef(codes[id], row.userId, row.clientRef)
    ensures RefsUnique(codes[row.id := row])
  {
    assert forall id :: id in codes ==> !SameRef(codes[id], row) && !SameRef(row, codes[id]) by {
      assert forall id :: id in codes && row.clientRef != "" ==> !HasRef(codes[id], row.userId, row.clientRef);
    }
  }

  // The relational schema admits the row; the map store has no such constraint.
  ghost predicate SchemaAdmits(db: Tables, row: Code) {
    db.driver.Relational? ==> row.userId in db.users && !StylingUsed(db, row.styling.id)
  }

  lemma InsertKeepsSchema(db: Tables, row: Code, now: Time)
    requires SchemaOk(db) && row.id !in db.codes && row.userId in db.users && !StylingUsed(db, row.styling.id)
    ensures SchemaOk(Insert(db, row, now))
  {
    var after := Insert(db, row, now);
    forall i, j {:trigger SameStyling(after.codes[i], after.codes[j])}
      | i in after.codes && j in after.codes && SameStyling(after.codes[i], after.codes[j])
      ensures i == j {
      assert i != row.id && j != row.id ==> SameStyling(db.codes[i], db.codes[j]);
    }
  }

  lemma RowOkKey(id: string, c: Code)
    requires RowOk(id, c)
    ensures c.shortCode == Lower(c.shortCode) && c.id == id
  {
  }

  lemma InsertPreservesInv(db: Tables, row: Code, now: Time)
    requires Inv(db) && Admits(db, row) && RowOk(row.id, row) && SchemaAdmits(db, row)
    ensures Inv(Insert(db, row, now))
  {
    hide SchemaOk, LedgerOk, RefsUnique, StylingUsed, UsersOk, RowOk;
    RowOkKey(row.id, row);
    InsertKeepsLedger(db, row, now);
    InsertKeepsRefs(db.codes, row);
    if db.driver.Relational? {
      InsertKeepsSchema(db, row, now);
    }
  }

  lemma AdmitsNext(db: Tables, q: Request, n: nat)
    requires q.Ok() && n < |q.rows| && AdmissibleFirst(db, q, n + 1)
    ensures Admits(InsertFirst(db, q, n), q.rows[n])
  {
    forall i | 0 <= i < n ensures Admits(db, q.rows[i]) && Compatible(q.rows[n], q.rows[i]) {
      assert Admits(db, q.rows[i]) && Compatible(q.rows[i], q.rows[n]);
      CompatibleSymmetric(q.rows[i], q.rows[n]);
    }
    assert Admits(db, q.rows[n]);
    AdmitsAfterPrefix(db, q, n, q.rows[n]);
  }

  lemma AdmissibleIsFirst(db: Tables, q: Request, n: nat)
    requires n <= |q.rows| && Admissible(db, q)
    ensures AdmissibleFirst(db, q, n)
  {
  }

  lemma BatchAdmitsNext(db: Tables, q: Request, n: nat)
    requires q.Ok() && n < |q.rows| && Admissible(db, q)
    ensures Admits(InsertFirst(db, q, n), q.rows[n])
  {
    AdmissibleIsFirst(db, q, n + 1);
    AdmitsNext(db, q, n);
  }

  lemma StylingAfterPrefix(db: Tables, q: Request, n: nat, stylingId: string)
    requires q.Ok() && n <= |q.rows| && Disjoint(q, n)
    requires forall i :: 0 <= i < n ==> q.rows[i].id !in db.codes
    ensures StylingUsed(InsertFirst(db, q, n), stylingId)
            <==> StylingUsed(db, stylingId) || exists i :: 0 <= i < n && q.Row(i).styling.id == stylingId
  {
    hide RowOf, InsertFirst;
    InsertedCodes(db, q, n);
    var mid := InsertFirst(db, q, n);
    assert forall id :: id in db.codes ==> mid.codes[id] == db.codes[id];
    assert forall i :: 0 <= i < n ==> mid.codes[q.rows[i].id] == q.Row(i);
  }

  lemma AdmittedRowsAreNew(db: Tables, q: Request, n: nat)
    requires n <= |q.rows| && AdmissibleFirst(db, q, n)
    ensures Disjoint(q, n) && forall i :: 0 <= i < n ==> q.rows[i].id !in db.codes
  {
    forall i | 0 <= i < n ensures q.rows[i].id !in db.codes {
      assert Admits(db, q.rows[i]);
    }
  }

  lemma SchemaAfterPrefix(db: Tables, q: Request, n: nat)
    requires q.Ok() && n < |q.rows| && AdmissibleFirst(db, q, n)
    ensures SchemaRow(db, q, n)
            <==> q.Row(n).userId in InsertFirst(db, q, n).users
                 && !StylingUsed(InsertFirst(db, q, n), q.Row(n).styling.id)
  {
    AdmittedRowsAreNew(db, q, n);
    StylingAfterPrefix(db, q, n, q.Row(n).styling.id);
    hide InsertFirst, StylingUsed, AdmissibleFirst;
  }

  lemma AdmitsRowOf(db: Tables, c: Code, now: Time, drawn: string)
    requires Admits(db, c)
    ensures Admits(db, RowOf(c, now, drawn))
  {
    LowerIdempotent(c.shortCode);
  }

  lemma NextRowPreservesInv(db: Tables, c: Code, now: Time, drawn: string)
    requires Inv(db) && Admits(db, c) && SchemaAdmits(db, RowOf(c, now, drawn))
    ensures Inv(Insert(db, RowOf(c, now, drawn), now))
  {
    RowOfOk(c, now, drawn);
    AdmitsRowOf(db, c, now, drawn);
    hide Inv, SchemaAdmits, Admits, RowOf;
    InsertPreservesInv(db, RowOf(c, now, drawn), now);
  }

  lemma {:induction false} PrefixPreservesInv(db: Tables, q: Request, n: nat)
    requires q.Ok() && n <= |q.rows| && Inv(db) && AdmissibleFirst(db, q, n)
    requires db.driver.Relational? ==> SchemaFirst(db, q, n)
    ensures Inv(InsertFirst(db, q, n))
    decreases n
  {
    hide Inv, Admits, RowOf, Compatible, SchemaRow, StylingUsed;
    if n > 0 {
      PrefixPreservesInv(db, q, n - 1);
      AdmitsNext(db, q, n - 1);
      SchemaAfterPrefix(db, q, n - 1);
      NextRowPreservesInv(InsertFirst(db, q, n - 1), q.rows[n - 1], q.now, q.drawn[n - 1]);
    }
  }

  lemma InsertAllPreservesInv(db: Tables, q: Request)
    requires q.Ok() && Inv(db) && Accepts(db, q)
    ensures Inv(InsertAll(db, q))
  {
    hide Inv, SchemaFirst;
    AdmissibleIsFirst(db, q, |q.rows|);
    hide Admissible, AdmissibleFirst;
    PrefixPreservesInv(db, q, |q.rows|);
  }

  lemma SingleStep(db: Tables, c: Code, now: Time, drawn: string)
    requires Succeeds(db, CreateCodes(Request([c], now, [drawn])))
    ensures Step(db, CreateCodes(Request([c], now, [drawn]))) == Insert(db, RowOf(c, now, drawn), now)
  {
    var q := Request([c], now, [drawn]);
    assert InsertFirst(db, q, 0) == db;
    assert InsertFirst(db, q, 1) == Insert(InsertFirst(db, q, 0), q.Row(0), now);
  }

  // ---- the other steps ----

  lemma TouchKeepsLedger(db: Tables, id: string, row: Code)
    requires LedgerOk(db) && id in db.codes
    requires row.shortCode == db.codes[id].shortCode && (db.codes[id].state == Deleted ==> row.state == Deleted)
    ensures LedgerOk(db.(codes := db.codes[id := row]))
  {
    var after := db.(codes := db.codes[id := row]);
    assert LedgerHas(id, db.codes[id], db.reservations);
    forall i | i in after.codes ensures LedgerHas(i, after.codes[i], after.reservations) {
      assert LedgerHas(i, db.codes[i], db.reservations);
    }
    forall key | key in after.reservations ensures ReservationOk(key, after.reservations[key], after.codes) {
      assert ReservationOk(key, db.reservations[key], db.codes);
    }
  }

  lemma TouchKeepsRefs(codes: map<string, Code>, id: string, row: Code)
    requires RefsUnique(codes) && id in codes && row.clientRef == codes[id].clientRef && row.userId == codes[id].userId
    ensures RefsUnique(codes[id := row])
  {
    assert forall i :: i in codes ==> SameRef(codes[i], row) == SameRef(codes[i], codes[id])
                                      && SameRef(row, codes[i]) == SameRef(codes[id], codes[i]);
  }

  lemma TouchKeepsSchema(db: Tables, id: string, row: Code)
    requires id in db.codes && row.userId == db.codes[id].userId && row.styling == db.codes[id].styling
    ensures SchemaOk(db) ==> SchemaOk(db.(codes := db.codes[id := row]))
  {
    if SchemaOk(db) {
      var after := db.codes[id := row];
      forall i, j {:trigger SameStyling(after[i], after[j])}
        | i in after && j in after && SameStyling(after[i], after[j])
        ensures i == j {
        assert SameStyling(db.codes[i], db.codes[j]);
      }
    }
  }

  lemma TouchPreservesInv(db: Tables, id: string, c: Code, now: Time)
    requires Inv(db) && id in db.codes
    requires SameIdentity(db.codes[id], c) && c.state != Unset
    requires db.codes[id].state == Deleted ==> c.state == Deleted
    ensures Inv(Touched(db, id, c, now))
  {
    var row := Touched(db, id, c, now).codes[id];
    assert RowOk(id, db.codes[id]);
    assert RowOk(id, row);
    hide RowOk, LedgerOk, RefsUnique, UsersOk, SchemaOk;
    TouchKeepsLedger(db, id, row);
    TouchKeepsRefs(db.codes, id, row);
    TouchKeepsSchema(db, id, row);
  }

  lemma ReleasePreservesInv(db: Tables, alias: string, now: Time)
    requires Inv(db) && Succeeds(db, ReleaseAlias(alias, now))
    ensures Inv(Effect(db, ReleaseAlias(alias, now)))
  {
    var key := Lower(alias);
    var after := Effect(db, ReleaseAlias(alias, now));
    assert ReservationOk(key, db.reservations[key], db.codes);
    assert Holder(db, key) == Some(db.codes[db.reservations[key].codeId]);
    forall id | id in after.codes ensures LedgerHas(id, after.codes[id], after.reservations) {
      assert LedgerHas(id, db.codes[id], db.reservations);
    }
  }

  lemma NewUserPreservesInv(db: Tables, u: User, at: Time)
    requires Inv(db) && Succeeds(db, CreateUser(u, at))
    ensures Inv(Effect(db, CreateUser(u, at)))
  {
    hide RowsOk, LedgerHas, ReservationOk, RefsUnique, Fold;
  }

  lemma EditPreservesInv(db: Tables, op: Op)
    requires Inv(db) && Succeeds(db, op) && (op.UpdateDestination? || op.SetCodeState? || op.DeleteCode?)
    ensures Inv(Effect(db, op))
  {
    assert RowOk(op.id, db.codes[op.id]);
    hide Inv;
    match op
    case UpdateDestination(id, _, dest, _, now) =>
      TouchPreservesInv(db, id, db.codes[id].(destination := dest), now);
    case SetCodeState(id, _, state, now) =>
      TouchPreservesInv(db, id, db.codes[id].(state := state), now);
    case DeleteCode(id, _, now) =>
      if db.codes[id].state != Deleted {
        TouchPreservesInv(db, id, db.codes[id].(state := Deleted, deletedAt := Some(now)), now);
      }
  }

  // Every step keeps the namespace invariant.
  lemma StepPreservesInv(db: Tables, op: Op)
    requires OpOk(op) && Inv(db)
    ensures Inv(Step(db, op))
  {
    hide Inv, Effect, Accepts;
    if Succeeds(db, op) {
      match op
      case CreateUser(u, at) => NewUserPreservesInv(db, u, at);
      case CreateCodes(q) =>
        InsertAllPreservesInv(db, q);
        CreationEffect(db, q);
      case ReleaseAlias(alias, now) => ReleasePreservesInv(db, alias, now);
      case _ => EditPreservesInv(db, op);
    }
  }

  lemma CreationEffect(db: Tables, q: Request)
    requires Succeeds(db, CreateCodes(q))
    ensures Effect(db, CreateCodes(q)) == InsertAll(db, q)
  {
  }

  // The invariant holds after every run that starts from the empty store.
  lemma {:induction false} RunPreservesInv(db: Tables, ops: seq<Op>, n: nat)
    requires OpsOk(ops) && n <= |ops| && Inv(db)
    ensures Inv(After(db, ops, n))
    decreases n
  {
    if n > 0 {
      RunPreservesInv(db, ops, n - 1);
      StepPreservesInv(After(db, ops, n - 1), ops[n - 1]);
    }
  }

  // In every reachable store a short code has at most one live row.
  lemma ReachableHasOneLiveRow(driver: Driver, ops: seq<Op>, n: nat, i: string, j: string)
    requires OpsOk(ops) && n <= |ops|
    requires var db := After(Empty(driver), ops, n);
             && i in db.codes && j in db.codes && db.codes[i].shortCode == db.codes[j].shortCode
             && db.codes[i].state != Deleted && db.codes[j].state != Deleted
    ensures i == j
  {
    RunPreservesInv(Empty(driver), ops, n);
    var db := After(Empty(driver), ops, n);
    assert LedgerHas(i, db.codes[i], db.reservations) && LedgerHas(j, db.codes[j], db.reservations);
  }

  // In every reachable store a user has at most one code per client ref, deleted ones included.
  lemma ReachableRefsAreUnique(driver: Driver, ops: seq<Op>, n: nat, i: string, j: string)
    requires OpsOk(ops) && n <= |ops|
    requires var db := After(Empty(driver), ops, n);
             && i in db.codes && j in db.codes && db.codes[i].userId == db.codes[j].userId
             && db.codes[i].clientRef == db.codes[j].clientRef != ""
    ensures i == j
  {
    RunPreservesInv(Empty(driver), ops, n);
    assert SameRef(After(Empty(driver), ops, n).codes[i], After(Empty(driver), ops, n).codes[j]);
  }

  // ---- what an operation leaves in the tables ----

  // A user is stored as given, with the creation time filled in.
  lemma UserStored(db: Tables, u: User, at: Time)
    ensures Succeeds(db, CreateUser(u, at))
            <==> u.id != "" && u.email != "" && u.id !in db.users
                 && forall id :: id in db.users ==> Fold(db.driver, db.users[id].email) != Fold(db.driver, u.email)
    ensures Succeeds(db, CreateUser(u, at)) ==>
              Step(db, CreateUser(u, at))
              == db.(users := db.users[u.id := u.(createdAt := if u.createdAt == 0 then at else u.createdAt)])
  {
    hide Fold;
  }

  // What is persisted of a row: everything the caller chose, the code lower-cased, and the defaults.
  lemma RowPersisted(c: Code, now: Time, drawn: string)
    ensures var r := RowOf(c, now, drawn);
            && r.id == c.id && r.isAlias == c.isAlias && r.userId == c.userId && r.clientRef == c.clientRef
            && r.destination == c.destination && r.blobKey == c.blobKey && r.blobETag == c.blobETag
            && r.shortCode == Lower(c.shortCode) && r.version == 1 && r.deletedAt == None
            && (c.state != Unset ==> r.state == c.state) && (c.state == Unset ==> r.state == Active)
            && (c.mode != NoMode ==> r.mode == c.mode) && (c.mode == NoMode ==> r.mode == Dynamic)
            && (c.styling.id != "" ==> r.styling == c.styling)
            && (c.styling.id == "" ==> r.styling == c.styling.(id := drawn))
            && (c.createdAt != 0 ==> r.createdAt == c.createdAt) && (c.createdAt == 0 ==> r.createdAt == now)
            && (c.updatedAt != 0 ==> r.updatedAt == c.updatedAt) && (c.updatedAt == 0 ==> r.updatedAt == r.createdAt)
  {
    hide Lower;
  }

  // An update is accepted from the owner of a row that is not deleted, at its version, and writes the destination.
  lemma DestinationWritten(db: Tables, id: string, userId: string, dest: string, expected: int, now: Time)
    ensures var op := UpdateDestination(id, userId, dest, expected, now);
            if id in db.codes && db.codes[id].userId == userId && db.codes[id].state != Deleted
               && db.codes[id].version == expected
            then Succeeds(db, op)
                 && Step(db, op)
                    == db.(codes := db.codes[id := db.codes[id].(destination := dest, version := expected + 1,
                                                                 updatedAt := now)])
            else !Succeeds(db, op) && Step(db, op) == db
  {
  }

  // A change of state is accepted from the owner of a row that is not deleted, and writes the state.
  lemma StateWritten(db: Tables, id: string, userId: string, state: CodeState, now: Time)
    ensures var op := SetCodeState(id, userId, state, now);
            if (state == Active || state == Disabled)
               && id in db.codes && db.codes[id].userId == userId && db.codes[id].state != Deleted
            then Succeeds(db, op)
                 && Step(db, op)
                    == db.(codes := db.codes[id := db.codes[id].(state := state, version := db.codes[id].version + 1,
                                                                 updatedAt := now)])
            else !Succeeds(db, op) && Step(db, op) == db
  {
  }

  // A deletion is accepted from the owner, dates the row once, and leaves every reservation.
  lemma DeletionWritten(db: Tables, id: string, userId: string, now: Time)
    ensures var op := DeleteCode(id, userId, now);
            if id in db.codes && db.codes[id].userId == userId && db.codes[id].state != Deleted
            then Succeeds(db, op)
                 && Step(db, op)
                    == db.(codes := db.codes[id := db.codes[id].(state := Deleted, deletedAt := Some(now),
                                                                 version := db.codes[id].version + 1,
                                                                 updatedAt := now)])
            else Step(db, op) == db && (Succeeds(db, op) <==> id in db.codes && db.codes[id].userId == userId)
  {
  }

  // A release is accepted for an unreleased reservation of a deleted row, and dates that reservation alone.
  lemma ReleaseWritten(db: Tables, alias: string, now: Time)
    requires Inv(db)
    ensures var op, key := ReleaseAlias(alias, now), Lower(alias);
            if key in db.reservations && db.reservations[key].releasedAt == None
               && db.reservations[key].codeId in db.codes && db.codes[db.reservations[key].codeId].state == Deleted
            then Succeeds(db, op)
                 && Step(db, op)
                    == db.(reservations := db.reservations[key := db.reservations[key].(releasedAt := Some(now))])
            else !Succeeds(db, op) && Step(db, op) == db
  {
    if KeyTaken(db, Lower(alias)) {
      HolderWhenTaken(db, Lower(alias));
    }
    hide Inv, Lower;
  }

  // ---- what the namespace means to a caller ----

  // "Not taken", "resolves to nothing" and "a fresh row may have it" are one condition, for every short code
  // the driver folds as Go lower-cases it; any other short code always looks free to the driver.
  lemma AvailabilityIsOneCondition(db: Tables, c: Code, now: Time, drawn: string)
    requires Inv(db) && Complete(c) && c.id !in db.codes
    requires c.clientRef != "" ==> !RefUsed(db, c.userId, c.clientRef)
    requires SchemaAdmits(db, RowOf(c, now, drawn))
    ensures Succeeds(db, CreateCodes(Request([c], now, [drawn]))) <==> !Taken(db, c.shortCode)
    ensures Lookup(db, c.shortCode).None? <==> Available(db, c.shortCode)
    ensures Available(db, c.shortCode) <==>
              !Taken(db, c.shortCode) || Fold(db.driver, c.shortCode) != Lower(c.shortCode)
  {
    OtherFoldIsFree(db, c.shortCode);
    if !Available(db, c.shortCode) {
      HolderWhenTaken(db, Fold(db.driver, c.shortCode));
    }
    var q := Request([c], now, [drawn]);
    assert q.rows[0] == c && q.Row(0) == RowOf(c, now, drawn);
    hide Inv, RowOf, Fold;
    assert Admissible(db, q) <==> Admits(db, c);
    assert db.driver.Relational? ==> SchemaRow(db, q, 0);
  }

  lemma HolderWhenTaken(db: Tables, key: string)
    requires Inv(db) && KeyTaken(db, key)
    ensures db.reservations[key].codeId in db.codes && Holder(db, key) == Some(db.codes[db.reservations[key].codeId])
    ensures Holder(db, key).value.shortCode == key && Lower(key) == key
  {
    assert ReservationOk(key, db.reservations[key], db.codes);
    assert RowOk(db.reservations[key].codeId, db.codes[db.reservations[key].codeId]);
  }

  // Only lower-cased keys are ever reserved.
  lemma OtherFoldIsFree(db: Tables, shortCode: string)
    requires Inv(db)
    ensures Fold(db.driver, shortCode) != Lower(shortCode) ==> Available(db, shortCode)
  {
    FoldIsLowerOrUnstored(db.driver, shortCode);
    if KeyTaken(db, Fold(db.driver, shortCode)) {
      HolderWhenTaken(db, Fold(db.driver, shortCode));
    }
  }

  // A live row is what its own short code resolves to.
  lemma LookupFindsLive(db: Tables, id: string)
    requires Inv(db) && id in db.codes && db.codes[id].state != Deleted
    ensures Lookup(db, db.codes[id].shortCode) == Some(db.codes[id])
  {
    assert RowOk(id, db.codes[id]) && LedgerHas(id, db.codes[id], db.reservations);
    FoldIsLowerOrUnstored(db.driver, db.codes[id].shortCode);
  }

  // ---- what no step may change ----

  // Only the destination, the state and the bookkeeping of an edit may differ.
  predicate SameIdentity(c: Code, d: Code) {
    d == c.(destination := d.destination, state := d.state, version := d.version, updatedAt := d.updatedAt,
            deletedAt := d.deletedAt)
  }

  // A row keeps its identity, only ever gains versions, and is frozen once deleted.
  predicate RowEvolves(c: Code, d: Code) {
    && SameIdentity(c, d)
    && c.version <= d.version
    && (c.version == d.version || c.state == Deleted ==> d == c)
  }

  ghost predicate Evolves(db: Tables, after: Tables) {
    && (forall id :: id in db.users ==> id in after.users && after.users[id] == db.users[id])
    && (forall id :: id in db.codes ==> id in after.codes && RowEvolves(db.codes[id], after.codes[id]))
  }

  lemma CreatedRowsAreNew(db: Tables, q: Request, id: string)
    requires q.Ok() && Admissible(db, q) && id in db.codes
    ensures id in InsertAll(db, q).codes && InsertAll(db, q).codes[id] == db.codes[id]
  {
    InsertedCodes(db, q, |q.rows|);
    forall i | 0 <= i < |q.rows| ensures q.rows[i].id != id {
      assert Admits(db, q.rows[i]);
    }
  }

  // A batch leaves every row it finds and adds its own.
  lemma InsertedBatch(db: Tables, q: Request)
    requires q.Ok() && Admissible(db, q)
    ensures forall id :: id in db.codes ==> id in InsertAll(db, q).codes && InsertAll(db, q).codes[id] == db.codes[id]
    ensures forall k :: 0 <= k < |q.rows| ==>
              q.rows[k].id in InsertAll(db, q).codes && InsertAll(db, q).codes[q.rows[k].id] == q.Row(k)
    ensures forall id :: id in InsertAll(db, q).codes ==>
              id in db.codes || exists k :: 0 <= k < |q.rows| && q.rows[k].id == id
  {
    hide RowOf, InsertFirst;
    InsertedCodes(db, q, |q.rows|);
    forall id | id in db.codes ensures id in InsertAll(db, q).codes && InsertAll(db, q).codes[id] == db.codes[id] {
      CreatedRowsAreNew(db, q, id);
    }
  }

  lemma StepEvolves(db: Tables, op: Op)
    requires OpOk(op)
    ensures Evolves(db, Step(db, op))
  {
    forall id | id in db.codes ensures id in Step(db, op).codes && RowEvolves(db.codes[id], Step(db, op).codes[id]) {
      if op.CreateCodes? && Succeeds(db, op) {
        CreatedRowsAreNew(db, op.q, id);
      }
    }
  }

  lemma EvolvesTransitive(a: Tables, b: Tables, c: Tables)
    requires Evolves(a, b) && Evolves(b, c)
    ensures Evolves(a, c)
  {
  }

  lemma {:induction false} RunEvolves(db: Tables, ops: seq<Op>, m: nat, n: nat)
    requires OpsOk(ops) && m <= n <= |ops|
    ensures Evolves(After(db, ops, m), After(db, ops, n))
    decreases n
  {
    if m < n {
      RunEvolves(db, ops, m, n - 1);
      StepEvolves(After(db, ops, n - 1), ops[n - 1]);
      EvolvesTransitive(After(db, ops, m), After(db, ops, n - 1), After(db, ops, n));
    }
  }

  // ---- versions count mutations ----

  // The operation changes this row: a successful edit, or the deletion of a row not yet deleted.
  ghost predicate Mutates(db: Tables, op: Op, id: string) {
    && (op.UpdateDestination? || op.SetCodeState? || op.DeleteCode?)
    && op.id == id && Succeeds(db, op)
    && db.codes[id].state != Deleted
  }

  ghost function Mutations(db: Tables, ops: seq<Op>, m: nat, n: nat, id: string): nat
    requires OpsOk(ops) && m <= n <= |ops|
    decreases n
  {
    if m == n then 0
    else Mutations(db, ops, m, n - 1, id) + (if Mutates(After(db, ops, n - 1), ops[n - 1], id) then 1 else 0)
  }

  lemma StepVersion(db: Tables, op: Op, id: string)
    requires OpOk(op) && id in db.codes
    ensures id in Step(db, op).codes
    ensures Step(db, op).codes[id].version == db.codes[id].version + (if Mutates(db, op, id) then 1 else 0)
  {
    if op.CreateCodes? && Succeeds(db, op) {
      CreatedRowsAreNew(db, op.q, id);
    }
  }

  lemma {:induction false} VersionCountsMutations(db: Tables, ops: seq<Op>, m: nat, n: nat, id: string)
    requires OpsOk(ops) && m <= n <= |ops| && id in After(db, ops, m).codes
    ensures id in After(db, ops, n).codes
    ensures After(db, ops, n).codes[id].version == After(db, ops, m).codes[id].version + Mutations(db, ops, m, n, id)
    decreases n
  {
    if m < n {
      VersionCountsMutations(db, ops, m, n - 1, id);
      StepVersion(After(db, ops, n - 1), ops[n - 1], id);
    }
  }

  lemma CreationSetsVersionOne(db: Tables, op: Op, id: string)
    requires OpOk(op) && id !in db.codes && id in Step(db, op).codes
    ensures Step(db, op).codes[id].version == 1
  {
    InsertedCodes(db, op.q, |op.q.rows|);
  }

  // A row created at step m has version one plus its mutations, whatever ran in between.
  lemma VersionIsOnePlusMutations(driver: Driver, ops: seq<Op>, m: nat, n: nat, id: string)
    requires OpsOk(ops) && m < n <= |ops|
    requires id !in After(Empty(driver), ops, m).codes && id in After(Empty(driver), ops, m + 1).codes
    ensures id in After(Empty(driver), ops, n).codes
    ensures After(Empty(driver), ops, n).codes[id].version == 1 + Mutations(Empty(driver), ops, m + 1, n, id)
  {
    CreationSetsVersionOne(After(Empty(driver), ops, m), ops[m], id);
    VersionCountsMutations(Empty(driver), ops, m + 1, n, id);
  }

  // Optimistic concurrency: an expected version is spent by the first update that wins with it.
  lemma OneWinnerPerVersion(db: Tables, ops: seq<Op>, i: nat, j: nat)
    requires OpsOk(ops) && i < j < |ops|
    requires ops[i].UpdateDestination? && ops[j].UpdateDestination?
    requires ops[i].id == ops[j].id && ops[i].expected == ops[j].expected
    requires Succeeds(After(db, ops, i), ops[i])
    ensures !Succeeds(After(db, ops, j), ops[j])
  {
    var id := ops[i].id;
    StepVersion(After(db, ops, i), ops[i], id);
    assert Mutates(After(db, ops, i), ops[i], id);
    assert After(db, ops, i + 1) == Step(After(db, ops, i), ops[i]);
    VersionCountsMutations(db, ops, i + 1, j, id);
  }
}
