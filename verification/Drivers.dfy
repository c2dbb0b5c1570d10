// What each store driver reports when it refuses an operation, and when the two drivers agree.

module Drivers {
  import opened Domain
  import opened Namespace

  // ---- single-row operations: both drivers report the same error ----

  ghost function Refusal(db: Tables, op: Op): Option<StoreError>
    requires !op.CreateCodes?
  {
    match op
    case CreateUser(u, _) =>
      if u.id == "" || u.email == "" then Some(Required)
      else if u.id in db.users || EmailUsed(db, u.email) then Some(Conflict) else None
    case UpdateDestination(id, user, _, expected, _) =>
      if !Owned(db, id, user) then Some(NotFound)
      else if db.codes[id].state == Deleted || db.codes[id].version != expected then Some(Conflict) else None
    case SetCodeState(id, user, state, _) =>
      if state != Active && state != Disabled then Some(BadState)
      else if !Owned(db, id, user) then Some(NotFound)
      else if db.codes[id].state == Deleted then Some(Conflict) else None
    case DeleteCode(id, user, _) => if Owned(db, id, user) then None else Some(NotFound)
    case ReleaseAlias(alias, _) =>
      if !Taken(db, alias) then Some(NotFound)
      else if Holder(db, Lower(alias)).Some? && Holder(db, Lower(alias)).value.state != Deleted then Some(Conflict)
      else None
  }

  lemma RefusedExactlyWhenFailing(db: Tables, op: Op)
    requires !op.CreateCodes?
    ensures Refusal(db, op).None? <==> Succeeds(db, op)
  {
  }

  // Which error it is: unknown and other people's rows are "not found", deleted and moved ones a conflict.
  lemma RefusalOfEdit(db: Tables, op: Op)
    requires op.UpdateDestination? || op.SetCodeState? || op.DeleteCode?
    ensures Refusal(db, op) == Some(BadState) <==> op.SetCodeState? && op.state != Active && op.state != Disabled
    ensures Refusal(db, op) != Some(BadState) ==>
              (Refusal(db, op) == Some(NotFound) <==> op.id !in db.codes || db.codes[op.id].userId != op.userId)
    ensures op.id in db.codes && db.codes[op.id].userId == op.userId && Refusal(db, op) != Some(BadState) ==>
              (Refusal(db, op) == Some(StoreError.Conflict) <==>
               !op.DeleteCode?
               && (db.codes[op.id].state == Deleted
                   || (op.UpdateDestination? && db.codes[op.id].version != op.expected)))
    ensures Refusal(db, op).None? || Refusal(db, op).value in {BadState, NotFound, StoreError.Conflict}
  {
  }

  // A code nobody holds is not found; one that a row not deleted holds is a conflict.
  lemma RefusalOfRelease(db: Tables, alias: string, now: Time)
    requires Inv(db)
    ensures var e, key := Refusal(db, ReleaseAlias(alias, now)), Lower(alias);
            if key !in db.reservations || db.reservations[key].releasedAt != None then e == Some(NotFound)
            else
              && db.reservations[key].codeId in db.codes
              && e == if db.codes[db.reservations[key].codeId].state == Deleted then None else Some(StoreError.Conflict)
  {
    if KeyTaken(db, Lower(alias)) {
      HolderWhenTaken(db, Lower(alias));
    }
    hide Inv, Lower;
  }

  lemma RefusalOfUser(db: Tables, u: User, at: Time)
    ensures var e := Refusal(db, CreateUser(u, at));
            if u.id == "" || u.email == "" then e == Some(Required)
            else if u.id in db.users
                    || exists id :: id in db.users && Fold(db.driver, db.users[id].email) == Fold(db.driver, u.email)
            then e == Some(StoreError.Conflict) else e == None
  {
    hide Fold;
  }

  // ---- batches on the map store: every row is checked against the store and the rows before it ----

  ghost function MapRowFault(db: Tables, q: Request, i: nat): Option<StoreError>
    requires i < |q.rows|
  {
    var c := q.rows[i];
    if !Complete(c) then Some(Required)
    else if c.id in db.codes || (exists j :: 0 <= j < i && q.rows[j].id == c.id) then Some(Conflict)
    else if Taken(db, c.shortCode) || (exists j :: 0 <= j < i && Key(q.rows[j]) == Key(c)) then Some(AliasTaken)
    else if c.clientRef != "" && (RefUsed(db, c.userId, c.clientRef)
                                  || exists j :: 0 <= j < i && HasRef(q.rows[j], c.userId, c.clientRef))
    then Some(ClientRefTaken)
    else None
  }

  ghost function MapFault(db: Tables, q: Request, n: nat): Option<StoreError>
    requires n <= |q.rows|
    decreases n
  {
    if n == 0 then None
    else if MapFault(db, q, n - 1).Some? then MapFault(db, q, n - 1)
    else MapRowFault(db, q, n - 1)
  }

  lemma MapRowAdmitted(db: Tables, q: Request, i: nat)
    requires i < |q.rows|
    ensures MapRowFault(db, q, i).None?
            <==> Admits(db, q.rows[i])
                 && (forall j {:trigger Compatible(q.rows[j], q.rows[i])} :: 0 <= j < i ==>
                       Compatible(q.rows[j], q.rows[i]))
  {
    var c := q.rows[i];
    if MapRowFault(db, q, i).None? {
      forall j | 0 <= j < i ensures Compatible(q.rows[j], c) {
        assert q.rows[j].id != c.id && Key(q.rows[j]) != Key(c);
        assert c.clientRef != "" ==> !HasRef(q.rows[j], c.userId, c.clientRef);
      }
    } else if Admits(db, c) {
      if j :| 0 <= j < i && (q.rows[j].id == c.id || Key(q.rows[j]) == Key(c)
                             || (c.clientRef != "" && HasRef(q.rows[j], c.userId, c.clientRef))) {
        assert !Compatible(q.rows[j], c);
      }
    }
  }

  // The map store accepts a batch exactly when its rows fit the store and one another.
  lemma {:induction false} MapAcceptsExactlyAdmissible(db: Tables, q: Request, n: nat)
    requires n <= |q.rows|
    ensures MapFault(db, q, n).None? <==> AdmissibleFirst(db, q, n)
    decreases n
  {
    hide Admits, Compatible, MapRowFault;
    if n > 0 {
      MapAcceptsExactlyAdmissible(db, q, n - 1);
      MapRowAdmitted(db, q, n - 1);
    }
  }

  lemma AdmissibleWhole(db: Tables, q: Request)
    ensures AdmissibleFirst(db, q, |q.rows|) <==> Admissible(db, q)
  {
    if AdmissibleFirst(db, q, |q.rows|) {
      assert forall i :: 0 <= i < |q.rows| ==> Admits(db, q.rows[i]);
    }
  }

  // ---- batches on the relational store: rows are inserted one by one and rolled back together ----

  ghost predicate LiveRow(db: Tables, key: string, id: string) {
    id in db.codes && db.codes[id].shortCode == key && db.codes[id].state != Deleted
  }

  ghost predicate HasLiveRow(db: Tables, key: string) { exists id :: LiveRow(db, key, id) }

  // The constraint the insertion of one row violates first.
  ghost function SqlRowFault(db: Tables, row: Code): Option<StoreError> {
    if StylingUsed(db, row.styling.id) then Some(Conflict)
    else if row.id in db.codes then Some(Conflict)
    else if row.state != Deleted && HasLiveRow(db, row.shortCode) then Some(AliasTaken)
    else if row.clientRef != "" && RefUsed(db, row.userId, row.clientRef) then Some(ClientRefTaken)
    else if row.userId !in db.users then Some(NotFound)
    else if Taken(db, row.shortCode) then Some(AliasTaken)
    else None
  }

  ghost function SqlFaultFirst(db: Tables, q: Request, n: nat): Option<StoreError>
    requires q.Ok() && n <= |q.rows|
    decreases n
  {
    if n == 0 then None
    else if SqlFaultFirst(db, q, n - 1).Some? then SqlFaultFirst(db, q, n - 1)
    else SqlRowFault(InsertFirst(db, q, n - 1), q.Row(n - 1))
  }

  ghost function SqlFault(db: Tables, q: Request): Option<StoreError>
    requires q.Ok()
  {
    if exists i :: 0 <= i < |q.rows| && !Complete(q.rows[i]) then Some(Required)
    else SqlFaultFirst(db, q, |q.rows|)
  }

  lemma LiveRowIsTaken(db: Tables, key: string, id: string)
    requires Inv(db) && LiveRow(db, key, id)
    ensures KeyTaken(db, key) && Taken(db, key)
  {
    assert RowOk(id, db.codes[id]) && LedgerHas(id, db.codes[id], db.reservations);
  }

  // One row: the schema refuses exactly what the namespace refuses, plus its own constraints.
  lemma SqlRowAccepted(db: Tables, row: Code)
    requires Inv(db) && Complete(row)
    ensures SqlRowFault(db, row).None?
            <==> Admits(db, row) && row.userId in db.users && !StylingUsed(db, row.styling.id)
  {
    if id :| LiveRow(db, row.shortCode, id) {
      LiveRowIsTaken(db, row.shortCode, id);
    }
  }

  lemma RowAdmittedAsRequested(db: Tables, c: Code, now: Time, drawn: string)
    requires Complete(c)
    ensures Complete(RowOf(c, now, drawn)) && Admits(db, RowOf(c, now, drawn)) == Admits(db, c)
  {
    LowerIdempotent(c.shortCode);
  }

  lemma NextAdmissible(db: Tables, q: Request, n: nat)
    requires q.Ok() && n < |q.rows| && AdmissibleFirst(db, q, n)
    ensures Admits(InsertFirst(db, q, n), q.rows[n]) <==> AdmissibleFirst(db, q, n + 1)
  {
    assert forall i :: 0 <= i < n ==> Admits(db, q.rows[i]);
    AdmitsAfterPrefix(db, q, n, q.rows[n]);
    NextDisjoint(q, n);
    hide Admits, Compatible, Disjoint;
    if Disjoint(q, n + 1) && Admits(db, q.rows[n]) {
      assert forall i {:trigger Admits(db, q.rows[i])} :: 0 <= i < n + 1 ==> Admits(db, q.rows[i]);
    }
    if AdmissibleFirst(db, q, n + 1) {
      assert Admits(db, q.rows[n]);
    }
  }

  lemma SqlNextAccepted(db: Tables, q: Request, n: nat)
    requires q.Ok() && n < |q.rows| && Inv(InsertFirst(db, q, n)) && Complete(q.rows[n])
    requires AdmissibleFirst(db, q, n)
    ensures SqlRowFault(InsertFirst(db, q, n), q.Row(n)).None?
            <==> AdmissibleFirst(db, q, n + 1) && SchemaRow(db, q, n)
  {
    hide Inv, AdmissibleFirst, SchemaRow, SqlRowFault, Admits, Complete, StylingUsed, RowOf;
    RowAdmittedAsRequested(InsertFirst(db, q, n), q.rows[n], q.now, q.drawn[n]);
    SqlRowAccepted(InsertFirst(db, q, n), q.Row(n));
    NextAdmissible(db, q, n);
    SchemaAfterPrefix(db, q, n);
  }

  lemma NextDisjoint(q: Request, n: nat)
    requires n < |q.rows| && Disjoint(q, n)
    ensures Disjoint(q, n + 1) <==> forall i :: 0 <= i < n ==> Compatible(q.rows[n], q.rows[i])
  {
    if Disjoint(q, n + 1) {
      forall i | 0 <= i < n ensures Compatible(q.rows[n], q.rows[i]) {
        assert Compatible(q.rows[i], q.rows[n]);
      }
    }
    if forall i :: 0 <= i < n ==> Compatible(q.rows[n], q.rows[i]) {
      forall i | 0 <= i < n ensures Compatible(q.rows[i], q.rows[n]) {
        assert Compatible(q.rows[n], q.rows[i]);
      }
    }
  }

  lemma {:induction false} SqlFirstAccepted(db: Tables, q: Request, n: nat)
    requires q.Ok() && n <= |q.rows| && Inv(db)
    requires forall i :: 0 <= i < |q.rows| ==> Complete(q.rows[i])
    ensures SqlFaultFirst(db, q, n).None? <==> AdmissibleFirst(db, q, n) && SchemaFirst(db, q, n)
    decreases n
  {
    hide AdmissibleFirst, SqlRowFault, SchemaRow, Inv;
    if n == 0 {
      assert AdmissibleFirst(db, q, 0) by { EmptyBatchAdmissible(db, q); }
    } else {
      SqlFirstAccepted(db, q, n - 1);
      if AdmissibleFirst(db, q, n - 1) && SchemaFirst(db, q, n - 1) {
        PrefixPreservesInv(db, q, n - 1);
        SqlNextAccepted(db, q, n - 1);
      }
      AdmissibleShrinks(db, q, n - 1);
    }
  }

  lemma EmptyBatchAdmissible(db: Tables, q: Request)
    ensures AdmissibleFirst(db, q, 0)
  {
  }

  lemma AdmissibleShrinks(db: Tables, q: Request, n: nat)
    requires n < |q.rows|
    ensures AdmissibleFirst(db, q, n + 1) ==> AdmissibleFirst(db, q, n)
  {
  }

  // A batch is accepted by the relational store exactly when the map store accepts it, every owner
  // exists and every styling profile is new. On other batches only the map store goes ahead.
  lemma StoresAcceptTogether(db: Tables, q: Request)
    requires q.Ok() && Inv(db)
    ensures SqlFault(db, q).None? <==> MapFault(db, q, |q.rows|).None? && SchemaFirst(db, q, |q.rows|)
  {
    MapAcceptsExactlyAdmissible(db, q, |q.rows|);
    if forall i :: 0 <= i < |q.rows| ==> Complete(q.rows[i]) {
      SqlFirstAccepted(db, q, |q.rows|);
    } else {
      var i :| 0 <= i < |q.rows| && !Complete(q.rows[i]);
      assert !Admits(db, q.rows[i]);
    }
  }

  // Each driver's own check decides its own step.
  lemma DriverDecides(db: Tables, q: Request)
    requires q.Ok() && Inv(db)
    ensures db.driver.MapStore? ==> (MapFault(db, q, |q.rows|).None? <==> Succeeds(db, CreateCodes(q)))
    ensures db.driver.Relational? ==> (SqlFault(db, q).None? <==> Succeeds(db, CreateCodes(q)))
  {
    hide Inv, Admissible, AdmissibleFirst, SchemaFirst, MapFault, SqlFault;
    StoresAcceptTogether(db, q);
    MapAcceptsExactlyAdmissible(db, q, |q.rows|);
    AdmissibleWhole(db, q);
  }

  // ---- emails ----

  // Two emails that differ only in the case of a letter outside ASCII clash in the map store alone.
  ghost predicate ClashesByCase(users: map<string, User>, email: string) {
    EmailTaken(MapStore, users, email) && !EmailTaken(Relational, users, email)
  }

  lemma AsciiClashIsClash(users: map<string, User>, email: string)
    ensures EmailTaken(Relational, users, email) ==> EmailTaken(MapStore, users, email)
  {
    if id :| id in users && AsciiLower(users[id].email) == AsciiLower(email) {
      FoldsAgree(users[id].email);
      FoldsAgree(email);
      assert Fold(MapStore, users[id].email) == Fold(MapStore, email);
    }
  }
}
