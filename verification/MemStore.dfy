// The in-memory store: hash maps by id plus secondary indexes by email, short code and client ref.

module MemStores {
  import opened Domain
  import opened Namespace
  import opened Drivers

  datatype RefKey = RefKey(userId: string, ref: string)

  class MemStore {
    var users: map<string, User>
    var emails: map<string, string>
    var codes: map<string, Code>
    var byCode: map<string, string>
    var byRef: map<RefKey, string>
    var reservations: map<string, Reservation>

    ghost function Db(): Tables
      reads this
    {
      Tables(MapStore, users, codes, reservations)
    }

    ghost predicate Valid()
      reads this
    {
      Inv(Db()) && EmailIndex(emails, users) && CodeIndex(byCode, reservations) && RefIndex(byRef, codes)
    }

    constructor ()
      ensures Valid() && Db() == Empty(MapStore)
    {
      users, emails, codes, byCode, byRef, reservations := map[], map[], map[], map[], map[], map[];
    }

    method CreateUser(u: User, now: Time) returns (err: Option<StoreError>)
      requires Valid()
      modifies this
      ensures Valid()
      ensures err == Refusal(old(Db()), Op.CreateUser(u, now))
      ensures Db() == Step(old(Db()), Op.CreateUser(u, now))
    {
      hide Inv, CodeIndex, RefIndex;
      ghost var before := Db();
      if u.id == "" || u.email == "" {
        return Some(Required);
      }
      var key := Lower(u.email);
      assert key in emails <==> EmailUsed(before, u.email) by {
        EmailIndexed(emails, users, u.email);
      }
      if u.id in users || key in emails {
        return Some(Conflict);
      }
      var cp := u.(createdAt := OrTime(u.createdAt, now));
      EmailIndexGrows(emails, users, cp);
      users := users[cp.id := cp];
      emails := emails[key := cp.id];
      err := None;
      StepPreservesInv(before, Op.CreateUser(u, now));
    }

    method CreateCodes(q: Request) returns (err: Option<StoreError>)
      requires Valid() && q.Ok()
      modifies this
      ensures Valid()
      ensures err == MapFault(old(Db()), q, |q.rows|)
      ensures Db() == Step(old(Db()), Op.CreateCodes(q))
    {
      hide Inv, EmailIndex, CodeIndex, RefIndex, Succeeds;
      err := CheckBatch(q);
      DriverDecides(Db(), q);
      if err.Some? {
        return;
      }
      AcceptedIsAdmissible(Db(), q);
      WriteBatch(q);
    }

    // The first pass: every row against the store and the rows before it, writing nothing.
    method CheckBatch(q: Request) returns (err: Option<StoreError>)
      requires Valid() && q.Ok()
      ensures err == MapFault(Db(), q, |q.rows|)
    {
      hide Inv, EmailIndex, CodeIndex, RefIndex, Seen, MapRowFault;
      var seenId: set<string>, seenCode: set<string>, seenRef: set<RefKey> := {}, {}, {};
      assert Seen(q, 0, seenId, seenCode, seenRef) by { NothingSeen(q); }
      for i := 0 to |q.rows|
        invariant MapFault(Db(), q, i).None? && Seen(q, i, seenId, seenCode, seenRef)
      {
        var c := q.rows[i];
        err := CheckRow(q, i, seenId, seenCode, seenRef, c);
        if err.Some? {
          FaultStays(Db(), q, i + 1, |q.rows|);
          return;
        }
        OneMoreRowSeen(q, i, seenId, seenCode, seenRef);
        if c.clientRef != "" {
          seenRef := seenRef + {RefKey(c.userId, c.clientRef)};
        }
        seenId, seenCode := seenId + {c.id}, seenCode + {Lower(c.shortCode)};
      }
      err := None;
    }

    method CheckRow(ghost q: Request, ghost i: nat, seenId: set<string>, seenCode: set<string>, seenRef: set<RefKey>,
                    c: Code)
      returns (err: Option<StoreError>)
      requires Valid() && i < |q.rows| && c == q.rows[i] && Seen(q, i, seenId, seenCode, seenRef)
      ensures err == MapRowFault(Db(), q, i)
    {
      hide Inv, EmailIndex, CodeIndex, RefIndex, Lower;
      CodeIndexed(byCode, Db(), c.shortCode);
      if c.clientRef != "" {
        RefIndexed(byRef, codes, c.userId, c.clientRef);
      }
      err := MapRowFaultOf(c, seenId, seenCode, seenRef);
    }

    // The order in which one row is examined.
    function MapRowFaultOf(c: Code, seenId: set<string>, seenCode: set<string>,
                           seenRef: set<RefKey>): Option<StoreError>
      reads this
    {
      var key := Lower(c.shortCode);
      if c.id == "" || c.shortCode == "" || c.userId == "" then Some(Required)
      else if c.id in codes || c.id in seenId then Some(Conflict)
      else if key in byCode || key in seenCode then Some(AliasTaken)
      else if key in reservations && reservations[key].releasedAt.None? then Some(AliasTaken)
      else if c.clientRef != "" && (RefKey(c.userId, c.clientRef) in byRef || RefKey(c.userId, c.clientRef) in seenRef)
      then Some(ClientRefTaken)
      else None
    }

    // The second pass: one row, both indexes and the ledger at a time.
    method WriteBatch(q: Request)
      requires Valid() && q.Ok() && Admissible(Db(), q)
      modifies this
      ensures Valid() && Db() == InsertAll(old(Db()), q)
    {
      hide Inv, Admissible, Admits, EmailIndex, CodeIndex, RefIndex, RowOf, Insert;
      ghost var before := Db();
      for i := 0 to |q.rows|
        invariant Db() == InsertFirst(before, q, i)
        invariant Valid()
      {
        BatchAdmitsNext(before, q, i);
        RowOfOk(q.rows[i], q.now, q.drawn[i]) by { CompleteIfAdmitted(Db(), q.rows[i]); }
        RowAdmittedAsRequested(Db(), q.rows[i], q.now, q.drawn[i]) by { CompleteIfAdmitted(Db(), q.rows[i]); }
        WriteRow(q.Row(i), q.now);
      }
    }

    method WriteRow(row: Code, now: Time)
      requires Valid() && Admits(Db(), row) && RowOk(row.id, row)
      modifies this
      ensures Valid() && Db() == Insert(old(Db()), row, now)
    {
      hide Inv;
      InsertPreservesInv(Db(), row, now);
      IndexesAfterInsert(byCode, byRef, Db(), row, now);
      codes := codes[row.id := row];
      byCode := byCode[row.shortCode := row.id];
      if row.clientRef != "" {
        byRef := byRef[RefKey(row.userId, row.clientRef) := row.id];
      }
      reservations := reservations[row.shortCode := Reservation(row.id, now, None)];
    }

    method GetCodeByShortCode(shortCode: string) returns (r: Option<Code>)
      requires Valid()
      ensures r == Lookup(Db(), shortCode)
    {
      hide Inv, EmailIndex, RefIndex;
      var key := Lower(shortCode);
      if key !in byCode {
        return None;
      }
      HolderWhenTaken(Db(), key);
      r := Some(codes[byCode[key]]);
    }

    method GetCodeByID(id: string, userId: string) returns (r: Option<Code>)
      requires Valid()
      ensures r == if Owned(Db(), id, userId) then Some(Db().codes[id]) else None
    {
      r := if id in codes && codes[id].userId == userId then Some(codes[id]) else None;
    }

    // The caller's code carrying the ref, deleted rows included.
    method GetCodeByClientRef(userId: string, ref: string) returns (r: Option<Code>)
      requires Valid()
      ensures r.Some? <==> ref != "" && RefUsed(Db(), userId, ref)
      ensures r.Some? ==> r.value.id in Db().codes && Db().codes[r.value.id] == r.value && HasRef(r.value, userId, ref)
    {
      hide Inv;
      if RefKey(userId, ref) !in byRef || ref == "" {
        if ref != "" {
          RefIndexed(byRef, codes, userId, ref);
        }
        return None;
      }
      assert RowOk(byRef[RefKey(userId, ref)], codes[byRef[RefKey(userId, ref)]]) by {
        RowsOfInv(Db());
      }
      r := Some(codes[byRef[RefKey(userId, ref)]]);
    }

    method IsAliasAvailable(shortCode: string) returns (ok: bool)
      requires Valid()
      ensures ok == Available(Db(), shortCode)
    {
      hide Inv, EmailIndex, RefIndex;
      var key := Lower(shortCode);
      ok := key !in byCode && !(key in reservations && reservations[key].releasedAt.None?);
    }

    method UpdateDestination(id: string, userId: string, dest: string, expected: int, now: Time)
      returns (err: Option<StoreError>)
      requires Valid()
      modifies this
      ensures Valid()
      ensures err == Refusal(old(Db()), Op.UpdateDestination(id, userId, dest, expected, now))
      ensures Db() == Step(old(Db()), Op.UpdateDestination(id, userId, dest, expected, now))
      ensures err.None? ==>
                && id in old(codes) && old(codes)[id].userId == userId && old(codes)[id].state != Deleted
                && codes == old(codes)[id := old(codes)[id].(destination := dest, version := expected + 1,
                                                             updatedAt := now)]
      ensures err.Some? ==> codes == old(codes)
    {
      hide Inv;
      ghost var before := Db();
      if !(id in codes && codes[id].userId == userId) {
        return Some(NotFound);
      }
      if codes[id].state == Deleted || codes[id].version != expected {
        return Some(Conflict);
      }
      var c := codes[id].(destination := dest, version := codes[id].version + 1, updatedAt := now);
      SameRefsAfterEdit(byRef, codes, id, c);
      codes := codes[id := c];
      err := None;
      StepPreservesInv(before, Op.UpdateDestination(id, userId, dest, expected, now));
    }

    method SetCodeState(id: string, userId: string, state: CodeState, now: Time) returns (err: Option<StoreError>)
      requires Valid()
      modifies this
      ensures Valid()
      ensures err == Refusal(old(Db()), Op.SetCodeState(id, userId, state, now))
      ensures Db() == Step(old(Db()), Op.SetCodeState(id, userId, state, now))
      ensures err.None? ==>
                && id in old(codes) && old(codes)[id].userId == userId && old(codes)[id].state != Deleted
                && codes == old(codes)[id := old(codes)[id].(state := state, version := old(codes)[id].version + 1,
                                                             updatedAt := now)]
      ensures err.Some? ==> codes == old(codes)
    {
      hide Inv;
      ghost var before := Db();
      if state != Active && state != Disabled {
        return Some(BadState);
      }
      if !(id in codes && codes[id].userId == userId) {
        return Some(NotFound);
      }
      if codes[id].state == Deleted {
        return Some(Conflict);
      }
      var c := codes[id].(state := state, version := codes[id].version + 1, updatedAt := now);
      SameRefsAfterEdit(byRef, codes, id, c);
      codes := codes[id := c];
      err := None;
      StepPreservesInv(before, Op.SetCodeState(id, userId, state, now));
    }

    method DeleteCode(id: string, userId: string, now: Time) returns (err: Option<StoreError>)
      requires Valid()
      modifies this
      ensures Valid()
      ensures err == Refusal(old(Db()), Op.DeleteCode(id, userId, now))
      ensures Db() == Step(old(Db()), Op.DeleteCode(id, userId, now))
      ensures err.None? ==>
                && id in old(codes) && old(codes)[id].userId == userId
                && codes == if old(codes)[id].state == Deleted then old(codes)
                            else old(codes)[id := old(codes)[id].(state := Deleted, deletedAt := Some(now),
                                                                  version := old(codes)[id].version + 1,
                                                                  updatedAt := now)]
    {
      hide Inv;
      ghost var before := Db();
      if !(id in codes && codes[id].userId == userId) {
        return Some(NotFound);
      }
      err := None;
      if codes[id].state == Deleted {
        return;
      }
      var c := codes[id].(state := Deleted, deletedAt := Some(now), version := codes[id].version + 1, updatedAt := now);
      SameRefsAfterEdit(byRef, codes, id, c);
      codes := codes[id := c];
      StepPreservesInv(before, Op.DeleteCode(id, userId, now));
    }

    // The ledger row stays, marked released; the index entry goes, so the short code no longer resolves.
    method ReleaseAlias(alias: string, now: Time) returns (err: Option<StoreError>)
      requires Valid()
      modifies this
      ensures Valid()
      ensures err == Refusal(old(Db()), Op.ReleaseAlias(alias, now))
      ensures Db() == Step(old(Db()), Op.ReleaseAlias(alias, now))
    {
      hide Inv, EmailIndex, RefIndex;
      ghost var before := Db();
      var key := Lower(alias);
      if !(key in reservations && reservations[key].releasedAt.None?) {
        return Some(NotFound);
      }
      if reservations[key].codeId in codes && codes[reservations[key].codeId].state != Deleted {
        return Some(Conflict);
      }
      StepPreservesInv(before, Op.ReleaseAlias(alias, now));
      IndexAfterRelease(byCode, before, key, now);
      reservations := reservations[key := reservations[key].(releasedAt := Some(now))];
      if key in byCode && byCode[key] in codes && codes[byCode[key]].state == Deleted {
        byCode := byCode - {key};
      }
      err := None;
    }
  }

  // What the three sets of a batch check hold after its first n rows.
  ghost predicate Seen(q: Request, n: nat, seenId: set<string>, seenCode: set<string>, seenRef: set<RefKey>)
    requires n <= |q.rows|
  {
    && (forall s :: s in seenId <==> exists j :: 0 <= j < n && q.rows[j].id == s)
    && (forall s :: s in seenCode <==> exists j :: 0 <= j < n && Key(q.rows[j]) == s)
    && (forall u, r :: r != "" ==> (RefKey(u, r) in seenRef <==> exists j :: 0 <= j < n && HasRef(q.rows[j], u, r)))
  }

  lemma NothingSeen(q: Request)
    ensures Seen(q, 0, {}, {}, {})
  {
  }

  lemma OneMoreRowSeen(q: Request, n: nat, seenId: set<string>, seenCode: set<string>, seenRef: set<RefKey>)
    requires n < |q.rows| && Seen(q, n, seenId, seenCode, seenRef)
    ensures var c := q.rows[n];
            Seen(q, n + 1, seenId + {c.id}, seenCode + {Lower(c.shortCode)},
                 if c.clientRef != "" then seenRef + {RefKey(c.userId, c.clientRef)} else seenRef)
  {
    hide Lower;
  }

  // ---- the secondary indexes ----

  ghost predicate EmailIndex(emails: map<string, string>, users: map<string, User>) {
    && (forall e :: e in emails ==> emails[e] in users && Lower(users[emails[e]].email) == e)
    && (forall id :: id in users ==> Lower(users[id].email) in emails)
  }

  // A short code is indexed exactly while its reservation is unreleased, under the row that holds it.
  ghost predicate CodeIndex(byCode: map<string, string>, ledger: map<string, Reservation>) {
    && (forall k :: k in byCode ==> k in ledger && ledger[k].releasedAt.None? && byCode[k] == ledger[k].codeId)
    && (forall k :: k in ledger && ledger[k].releasedAt.None? ==> k in byCode)
  }

  ghost predicate RefIndex(byRef: map<RefKey, string>, codes: map<string, Code>) {
    && (forall k :: k in byRef ==> k.ref != "" && byRef[k] in codes && HasRef(codes[byRef[k]], k.userId, k.ref))
    && (forall id :: id in codes && codes[id].clientRef != "" ==>
        RefKey(codes[id].userId, codes[id].clientRef) in byRef)
  }

  lemma AcceptedIsAdmissible(db: Tables, q: Request)
    requires Succeeds(db, CreateCodes(q))
    ensures q.Ok() && Admissible(db, q) && Step(db, CreateCodes(q)) == InsertAll(db, q)
  {
  }

  lemma RowsOfInv(db: Tables)
    requires Inv(db)
    ensures RowsOk(db.codes)
  {
  }

  lemma EmailIndexed(emails: map<string, string>, users: map<string, User>, email: string)
    requires EmailIndex(emails, users)
    ensures Lower(email) in emails <==> exists id :: id in users && Lower(users[id].email) == Lower(email)
  {
  }

  lemma EmailIndexGrows(emails: map<string, string>, users: map<string, User>, u: User)
    requires EmailIndex(emails, users) && u.id !in users && Lower(u.email) !in emails
    ensures EmailIndex(emails[Lower(u.email) := u.id], users[u.id := u])
  {
  }

  lemma CodeIndexed(byCode: map<string, string>, db: Tables, shortCode: string)
    requires CodeIndex(byCode, db.reservations)
    ensures Lower(shortCode) in byCode <==> Taken(db, shortCode)
  {
  }

  lemma RefIndexed(byRef: map<RefKey, string>, codes: map<string, Code>, userId: string, ref: string)
    requires RefIndex(byRef, codes) && ref != ""
    ensures RefKey(userId, ref) in byRef <==> exists id :: id in codes && HasRef(codes[id], userId, ref)
  {
    if id :| id in codes && HasRef(codes[id], userId, ref) {
      assert RefKey(codes[id].userId, codes[id].clientRef) == RefKey(userId, ref);
    }
  }

  lemma SameRefsAfterEdit(byRef: map<RefKey, string>, codes: map<string, Code>, id: string, c: Code)
    requires RefIndex(byRef, codes) && id in codes && c.userId == codes[id].userId && c.clientRef == codes[id].clientRef
    ensures RefIndex(byRef, codes[id := c])
  {
  }

  lemma IndexesAfterInsert(byCode: map<string, string>, byRef: map<RefKey, string>, db: Tables, row: Code, now: Time)
    requires CodeIndex(byCode, db.reservations) && RefIndex(byRef, db.codes) && Admits(db, row)
    ensures CodeIndex(byCode[row.shortCode := row.id], Insert(db, row, now).reservations)
    ensures RefIndex(if row.clientRef != "" then byRef[RefKey(row.userId, row.clientRef) := row.id] else byRef,
                     Insert(db, row, now).codes)
  {
    RefIndexAfterInsert(byRef, db.codes, row) by { FreshWhenAdmitted(db, row); }
    hide RefIndex;
  }

  lemma FreshWhenAdmitted(db: Tables, row: Code)
    requires Admits(db, row)
    ensures row.id !in db.codes
  {
  }

  lemma RefIndexAfterInsert(byRef: map<RefKey, string>, codes: map<string, Code>, row: Code)
    requires RefIndex(byRef, codes) && row.id !in codes
    ensures RefIndex(if row.clientRef != "" then byRef[RefKey(row.userId, row.clientRef) := row.id] else byRef,
                     codes[row.id := row])
  {
  }

  lemma IndexAfterRelease(byCode: map<string, string>, db: Tables, key: string, now: Time)
    requires CodeIndex(byCode, db.reservations) && Inv(db) && key in db.reservations
    requires db.reservations[key].releasedAt.None?
    ensures key in byCode && byCode[key] == db.reservations[key].codeId && byCode[key] in db.codes
    ensures CodeIndex(byCode - {key}, db.reservations[key := db.reservations[key].(releasedAt := Some(now))])
  {
    assert ReservationOk(key, db.reservations[key], db.codes);
  }

  lemma CompleteIfAdmitted(db: Tables, c: Code)
    requires Admits(db, c)
    ensures Complete(c)
  {
  }

  lemma {:induction false} FaultStays(db: Tables, q: Request, m: nat, n: nat)
    requires m <= n <= |q.rows| && MapFault(db, q, m).Some?
    ensures MapFault(db, q, n) == MapFault(db, q, m)
    decreases n
  {
    if m < n {
      FaultStays(db, q, m, n - 1);
    }
  }
}
