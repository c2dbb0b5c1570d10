// The relational store: tables, unique indexes, foreign keys and transactions that roll back.

module SqliteStores {
  import opened Domain
  import opened Namespace
  import opened Drivers

  class SqliteStore {
    var users: map<string, User>
    var codes: map<string, Code>
    var aliasReservations: map<string, Reservation>

    ghost function Db(): Tables
      reads this
    {
      Tables(Relational, users, codes, aliasReservations)
    }

    ghost predicate Valid()
      reads this
    {
      Inv(Db())
    }

    constructor ()
      ensures Valid() && Db() == Empty(Relational)
    {
      users, codes, aliasReservations := map[], map[], map[];
    }

    method CreateUser(u: User, now: Time) returns (err: Option<StoreError>)
      requires Valid()
      modifies this
      ensures Valid()
      ensures err == Refusal(old(Db()), Op.CreateUser(u, now))
      ensures Db() == Step(old(Db()), Op.CreateUser(u, now))
    {
      hide Inv;
      ghost var before := Db();
      if u.id == "" || u.email == "" {
        return Some(Required);
      }
      var sameEmail := set id | id in users && AsciiLower(users[id].email) == AsciiLower(u.email);
      assert EmailUsed(before, u.email) <==> sameEmail != {} by {
        if id :| id in users && AsciiLower(users[id].email) == AsciiLower(u.email) {
          assert id in sameEmail;
        }
      }
      if u.id in users || sameEmail != {} {
        return Some(Conflict);
      }
      users := users[u.id := u.(createdAt := OrTime(u.createdAt, now))];
      err := None;
      StepPreservesInv(before, Op.CreateUser(u, now));
    }

    // One transaction for the batch: the first failing row undoes every row before it.
    method CreateCodes(q: Request) returns (err: Option<StoreError>)
      requires Valid() && q.Ok()
      modifies this
      ensures Valid()
      ensures err == SqlFault(old(Db()), q)
      ensures Db() == Step(old(Db()), Op.CreateCodes(q))
    {
      hide Inv, Admissible, RowOf, Complete, SqlRowFault, SqlFaultFirst, Succeeds, SchemaFirst;
      ghost var before := Db();
      DriverDecides(before, q);
      for i := 0 to |q.rows|
        invariant forall j :: 0 <= j < i ==> Complete(q.rows[j])
      {
        var c := q.rows[i];
        assert Complete(c) <==> !(c.id == "" || c.shortCode == "" || c.userId == "") by { CompleteMeans(c); }
        if c.id == "" || c.shortCode == "" || c.userId == "" {
          return Some(Required);
        }
      }
      var savedCodes, savedReservations := codes, aliasReservations;
      assert SqlFaultFirst(before, q, 0).None? by { NoFaultYet(before, q); }
      for i := 0 to |q.rows|
        invariant Db() == InsertFirst(before, q, i)
        invariant SqlFaultFirst(before, q, i).None?
      {
        FaultStep(before, q, i);
        RowKey(q, i);
        err := InsertCode(q.Row(i), q.now);
        if err.Some? {
          codes, aliasReservations := savedCodes, savedReservations;
          SqlFaultStays(before, q, i + 1, |q.rows|);
          return;
        }
      }
      err := None;
      StepPreservesInv(before, Op.CreateCodes(q));
    }

    // Styling profile, code row, then the reservation upsert that re-arms only a released row. On an
    // error the tables may be left half written: the caller rolls back.
    method InsertCode(row: Code, now: Time) returns (err: Option<StoreError>)
      requires row.shortCode == Lower(row.shortCode)
      modifies this
      ensures users == old(users)
      ensures err == SqlRowFault(old(Db()), row)
      ensures err.None? ==> Db() == Insert(old(Db()), row, now)
    {
      var sameStyling := set id | id in codes && codes[id].styling.id == row.styling.id;
      assert StylingUsed(Db(), row.styling.id) <==> sameStyling != {} by {
        if id :| id in codes && codes[id].styling.id == row.styling.id {
          assert id in sameStyling;
        }
      }
      if sameStyling != {} {
        return Some(Conflict);
      }
      if row.id in codes {
        return Some(Conflict);
      }
      var live := LiveRows(row.shortCode);
      if row.state != Deleted && live != {} {
        return Some(AliasTaken);
      }
      var sameRef := set id | id in codes && codes[id].userId == row.userId && codes[id].clientRef == row.clientRef;
      assert RefUsed(Db(), row.userId, row.clientRef) <==> sameRef != {} by {
        if id :| id in codes && HasRef(codes[id], row.userId, row.clientRef) {
          assert id in sameRef;
        }
        if id :| id in sameRef {
          assert HasRef(codes[id], row.userId, row.clientRef);
        }
      }
      if row.clientRef != "" && sameRef != {} {
        return Some(ClientRefTaken);
      }
      if row.userId !in users {
        return Some(NotFound);
      }
      codes := codes[row.id := row];
      if row.shortCode in aliasReservations && aliasReservations[row.shortCode].releasedAt.None? {
        return Some(AliasTaken);
      }
      aliasReservations := aliasReservations[row.shortCode := Reservation(row.id, now, None)];
      err := None;
    }

    // SELECT over codes WHERE short_code = key AND state <> 'deleted'.
    method LiveRows(key: string) returns (live: set<string>)
      ensures live == set id | id in codes && codes[id].shortCode == key && codes[id].state != Deleted
      ensures live != {} <==> HasLiveRow(Db(), key)
    {
      live := set id | id in codes && codes[id].shortCode == key && codes[id].state != Deleted;
      if id :| LiveRow(Db(), key, id) {
        assert id in live;
      }
      if id :| id in live {
        assert LiveRow(Db(), key, id);
      }
    }

    // Live rows first, then the newest; deleted rows only while they hold their reservation.
    method GetCodeByShortCode(shortCode: string) returns (r: Option<Code>)
      requires Valid()
      ensures r == Lookup(Db(), shortCode)
    {
      hide Inv, Lookup;
      var key := AsciiLower(shortCode);
      var rest := set id | id in codes && codes[id].shortCode == key
                           && (codes[id].state != Deleted || HoldsReservation(id, key));
      assert forall id :: id in rest <==> Candidate(Db(), key, id);
      if rest == {} {
        CandidateIsLookup(Db(), shortCode);
        return None;
      }
      var best :| best in rest;
      rest := rest - {best};
      while rest != {}
        invariant Candidate(Db(), key, best)
        invariant forall id :: id in rest ==> Candidate(Db(), key, id)
        decreases rest
      {
        var id :| id in rest;
        if SortsBefore(codes[id], codes[best]) {
          best := id;
        }
        rest := rest - {id};
      }
      CandidateIsLookup(Db(), shortCode);
      r := Some(codes[best]);
    }

    predicate HoldsReservation(id: string, key: string)
      reads this
    {
      key in aliasReservations && aliasReservations[key].releasedAt.None? && aliasReservations[key].codeId == id
    }

    method GetCodeByID(id: string, userId: string) returns (r: Option<Code>)
      requires Valid()
      ensures r == if Owned(Db(), id, userId) then Some(Db().codes[id]) else None
    {
      hide Inv;
      r := if id in codes && codes[id].userId == userId then Some(codes[id]) else None;
    }

    // A query on the unique index of refs; at most one row answers it.
    method GetCodeByClientRef(userId: string, ref: string) returns (r: Option<Code>)
      requires Valid()
      ensures r.Some? <==> ref != "" && RefUsed(Db(), userId, ref)
      ensures r.Some? ==> r.value.id in Db().codes && Db().codes[r.value.id] == r.value && HasRef(r.value, userId, ref)
    {
      hide RefsUnique, UsersOk, LedgerOk, SchemaOk;
      var found := set id | id in codes && codes[id].userId == userId && codes[id].clientRef == ref;
      if id :| id in codes && HasRef(codes[id], userId, ref) {
        assert id in found;
      }
      if ref == "" || found == {} {
        return None;
      }
      var id :| id in found;
      assert HasRef(codes[id], userId, ref) && RowOk(id, codes[id]);
      r := Some(codes[id]);
    }

    method IsAliasAvailable(shortCode: string) returns (ok: bool)
      requires Valid()
      ensures ok == Available(Db(), shortCode)
    {
      hide Inv;
      var key := AsciiLower(shortCode);
      var live := LiveRows(key);
      if id :| LiveRow(Db(), key, id) {
        LiveRowIsTaken(Db(), key, id);
      }
      ok := live == {} && !(key in aliasReservations && aliasReservations[key].releasedAt.None?);
    }

    // A guarded UPDATE; when it touches no row, a second query tells "not yours" from "lost the race".
    method UpdateDestination(id: string, userId: string, dest: string, expected: int, now: Time)
      returns (err: Option<StoreError>)
      requires Valid()
      modifies this
      ensures Valid()
      ensures err == Refusal(old(Db()), Op.UpdateDestination(id, userId, dest, expected, now))
      ensures Db() == Step(old(Db()), Op.UpdateDestination(id, userId, dest, expected, now))
      ensures err.None? ==>
                && id in old(codes) && old(codes)[id].userId == userId && old(codes)[id].state != Deleted
                && codes == old(codes)[id := old(codes)[id].(destination := dest, version := expected + 1,
                                                             updatedAt := now)]
      ensures err.Some? ==> codes == old(codes)
    {
      hide Inv;
      StepPreservesInv(Db(), Op.UpdateDestination(id, userId, dest, expected, now));
      if id in codes && codes[id].userId == userId && codes[id].version == expected && codes[id].state != Deleted {
        codes := codes[id := codes[id].(destination := dest, version := codes[id].version + 1, updatedAt := now)];
        return None;
      }
      var exists_ := id in codes && codes[id].userId == userId;
      err := if exists_ then Some(Conflict) else Some(NotFound);
    }

    method SetCodeState(id: string, userId: string, state: CodeState, now: Time) returns (err: Option<StoreError>)
      requires Valid()
      modifies this
      ensures Valid()
      ensures err == Refusal(old(Db()), Op.SetCodeState(id, userId, state, now))
      ensures Db() == Step(old(Db()), Op.SetCodeState(id, userId, state, now))
      ensures err.None? ==>
                && id in old(codes) && old(codes)[id].userId == userId && old(codes)[id].state != Deleted
                && codes == old(codes)[id := old(codes)[id].(state := state, version := old(codes)[id].version + 1,
                                                             updatedAt := now)]
      ensures err.Some? ==> codes == old(codes)
    {
      hide Inv;
      StepPreservesInv(Db(), Op.SetCodeState(id, userId, state, now));
      if state != Active && state != Disabled {
        return Some(BadState);
      }
      if id in codes && codes[id].userId == userId && codes[id].state != Deleted {
        codes := codes[id := codes[id].(state := state, version := codes[id].version + 1, updatedAt := now)];
        return None;
      }
      var exists_ := id in codes && codes[id].userId == userId;
      err := if exists_ then Some(Conflict) else Some(NotFound);
    }

    method DeleteCode(id: string, userId: string, now: Time) returns (err: Option<StoreError>)
      requires Valid()
      modifies this
      ensures Valid()
      ensures err == Refusal(old(Db()), Op.DeleteCode(id, userId, now))
      ensures Db() == Step(old(Db()), Op.DeleteCode(id, userId, now))
      ensures err.None? ==>
                && id in old(codes) && old(codes)[id].userId == userId
                && codes == if old(codes)[id].state == Deleted then old(codes)
                            else old(codes)[id := old(codes)[id].(state := Deleted, deletedAt := Some(now),
                                                                  version := old(codes)[id].version + 1,
                                                                  updatedAt := now)]
    {
      hide Inv;
      StepPreservesInv(Db(), Op.DeleteCode(id, userId, now));
      if id in codes && codes[id].userId == userId && codes[id].state != Deleted {
        codes := codes[id := codes[id].(state := Deleted, deletedAt := Some(now),
                                        version := codes[id].version + 1, updatedAt := now)];
        return None;
      }
      var exists_ := id in codes && codes[id].userId == userId;
      err := if exists_ then None else Some(NotFound);
    }

    method ReleaseAlias(alias: string, now: Time) returns (err: Option<StoreError>)
      requires Valid()
      modifies this
      ensures Valid()
      ensures err == Refusal(old(Db()), Op.ReleaseAlias(alias, now))
      ensures Db() == Step(old(Db()), Op.ReleaseAlias(alias, now))
    {
      hide Inv;
      StepPreservesInv(Db(), Op.ReleaseAlias(alias, now));
      var key := Lower(alias);
      if !(key in aliasReservations && aliasReservations[key].releasedAt.None?) {
        return Some(NotFound);
      }
      OwnerIsTheLiveRow(Db(), alias);
      var live := LiveRows(key);
      if live != {} {
        return Some(Conflict);
      }
      aliasReservations := aliasReservations[key := aliasReservations[key].(releasedAt := Some(now))];
      err := None;
    }
  }

  // ---- what the queries denote ----

  // The rows the short-code query may return.
  ghost predicate Candidate(db: Tables, key: string, id: string) {
    && id in db.codes && db.codes[id].shortCode == key
    && (db.codes[id].state != Deleted
        || (key in db.reservations && db.reservations[key].releasedAt.None? && db.reservations[key].codeId == id))
  }

  predicate SortsBefore(c: Code, d: Code) {
    if (c.state == Deleted) != (d.state == Deleted) then d.state == Deleted else c.createdAt > d.createdAt
  }

  // The query has at most one candidate, the row the ledger names, so its ordering never matters.
  lemma CandidateIsLookup(db: Tables, shortCode: string)
    requires Inv(db) && db.driver.Relational?
    ensures forall id :: Candidate(db, AsciiLower(shortCode), id) <==>
              id in db.codes && Lookup(db, shortCode) == Some(db.codes[id])
    ensures Lookup(db, shortCode).Some? ==> Candidate(db, AsciiLower(shortCode), Lookup(db, shortCode).value.id)
  {
    var key := AsciiLower(shortCode);
    forall id ensures Candidate(db, key, id) <==> id in db.codes && Holder(db, key) == Some(db.codes[id]) {
      CandidateIsHolder(db, key, id);
    }
    if Lookup(db, shortCode).Some? {
      HolderWhenTaken(db, key);
      assert RowOk(db.reservations[key].codeId, db.codes[db.reservations[key].codeId]);
    }
  }

  lemma CandidateIsHolder(db: Tables, key: string, id: string)
    requires Inv(db)
    ensures Candidate(db, key, id) <==> id in db.codes && Holder(db, key) == Some(db.codes[id])
  {
    if id in db.codes {
      assert RowOk(id, db.codes[id]) && LedgerHas(id, db.codes[id], db.reservations);
    }
    if KeyTaken(db, key) {
      HolderWhenTaken(db, key);
      assert RowOk(db.reservations[key].codeId, db.codes[db.reservations[key].codeId]);
    }
    hide Inv;
  }

  // Counting live rows of a reserved code and looking at the reservation's owner give one answer.
  lemma OwnerIsTheLiveRow(db: Tables, alias: string)
    requires Inv(db) && Taken(db, alias)
    ensures Holder(db, Lower(alias)).Some?
    ensures HasLiveRow(db, Lower(alias)) <==> Holder(db, Lower(alias)).value.state != Deleted
  {
    var key := Lower(alias);
    var owner := db.reservations[key].codeId;
    HolderWhenTaken(db, key);
    if id :| LiveRow(db, key, id) {
      assert LedgerHas(id, db.codes[id], db.reservations);
      assert id == owner;
    }
    if Holder(db, key).value.state != Deleted {
      assert LiveRow(db, key, owner);
    }
  }

  // ---- small steps of the batch loop ----

  lemma CompleteMeans(c: Code)
    ensures Complete(c) <==> !(c.id == "" || c.shortCode == "" || c.userId == "")
  {
  }

  lemma NoFaultYet(db: Tables, q: Request)
    requires q.Ok()
    ensures SqlFaultFirst(db, q, 0).None?
  {
  }

  lemma FaultStep(db: Tables, q: Request, i: nat)
    requires q.Ok() && i < |q.rows| && SqlFaultFirst(db, q, i).None?
    ensures SqlFaultFirst(db, q, i + 1) == SqlRowFault(InsertFirst(db, q, i), q.Row(i))
  {
  }

  lemma RowKey(q: Request, i: nat)
    requires q.Ok() && i < |q.rows|
    ensures q.Row(i).shortCode == Lower(q.Row(i).shortCode)
  {
    LowerIdempotent(q.rows[i].shortCode);
  }

  lemma {:induction false} SqlFaultStays(db: Tables, q: Request, m: nat, n: nat)
    requires q.Ok() && m <= n <= |q.rows| && SqlFaultFirst(db, q, m).Some?
    ensures SqlFaultFirst(db, q, n) == SqlFaultFirst(db, q, m)
    decreases n
  {
    hide SqlRowFault, InsertFirst;
    if m < n {
      SqlFaultStays(db, q, m, n - 1);
    }
  }
}
