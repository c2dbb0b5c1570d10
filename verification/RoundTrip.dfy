// Exporting a store and importing the archive into an empty one: when it succeeds, and what it rebuilds.

module RoundTrips {
  import opened Domain
  import opened Namespace
  import opened Stores
  import opened Resolutions
  import opened Rollups
  import opened ScanStores
  import opened Archives
  import opened Imports

  // ---- what the exported store must look like ----

  // No two rows, live or deleted, carry one short code.
  ghost predicate CodesDiffer(db: Tables) {
    forall i, j :: i in db.codes && j in db.codes && i != j ==> db.codes[i].shortCode != db.codes[j].shortCode
  }

  ghost predicate EmailsDiffer(target: Driver, users: map<string, User>) {
    forall i, j {:trigger SameEmail(target, users[i], users[j])} ::
      i in users && j in users && SameEmail(target, users[i], users[j]) ==> i == j
  }

  // What the importing driver needs of the exported rows: emails it tells apart, no short code used twice and, of
  // the relational one, owners that exist and no shared styling profile.
  ghost predicate Importable(target: Driver, db: Tables) {
    EmailsDiffer(target, db.users) && CodesDiffer(db) && (target.Relational? ==> SchemaOk(db))
  }

  // Into a store of the same driver only the short codes matter.
  lemma SameDriverImports(db: Tables)
    requires Inv(db)
    ensures Importable(db.driver, db) <==> CodesDiffer(db)
  {
    hide LedgerOk, RowsOk, RefsUnique, Fold;
  }

  // Emails that Go tells apart when lower-cased SQLite tells apart as well; the converse can fail.
  lemma RelationalTakesAllEmails(db: Tables)
    requires Inv(db)
    ensures EmailsDiffer(Relational, db.users)
  {
    hide LedgerOk, RowsOk, RefsUnique, Lower, AsciiLower;
    forall i, j {:trigger SameEmail(Relational, db.users[i], db.users[j])}
      | i in db.users && j in db.users && SameEmail(Relational, db.users[i], db.users[j])
      ensures i == j {
      FoldsAgree(db.users[i].email);
      FoldsAgree(db.users[j].email);
      assert SameEmail(db.driver, db.users[i], db.users[j]);
    }
  }

  // Every creation time and styling id was filled in when the row was persisted.
  ghost predicate Stamped(db: Tables) {
    && (forall id :: id in db.users ==> db.users[id].createdAt != ZERO_TIME)
    && (forall id :: id in db.codes ==>
          && db.codes[id].createdAt != ZERO_TIME && db.codes[id].updatedAt != ZERO_TIME
          && db.codes[id].styling.id != "")
  }

  ghost predicate TableOk(t: Table, codes: set<string>) {
    forall k :: k in t ==> WellFormed(RollupDelta(k, t[k]), codes) && HourOf(k.hour) == k.hour
  }

  // ---- what the import makes of it ----

  // The imported row: same but for the version and, if it was deleted, the times of the edit that deleted it.
  predicate Restores(c: Code, r: Code) {
    && r == c.(version := r.version, updatedAt := r.updatedAt, deletedAt := r.deletedAt)
    && r.version == (if c.state == Deleted then 2 else 1)
    && (c.state == Deleted ==> r.deletedAt == Some(r.updatedAt))
    && (c.state != Deleted ==> r.updatedAt == c.updatedAt && r.deletedAt.None?)
  }

  // Every account as it was, but for its password.
  ghost predicate UsersRebuilt(users: map<string, User>, after: map<string, User>) {
    && after.Keys == users.Keys
    && forall id :: id in users ==>
         && after[id].id == users[id].id && after[id].email == users[id].email && after[id].isAdmin == users[id].isAdmin
         && after[id].tokenVersion == users[id].tokenVersion && after[id].source == users[id].source
         && after[id].createdAt == users[id].createdAt && after[id].lastLoginAt == users[id].lastLoginAt
         && after[id].passwordHash == ""
  }

  ghost predicate RowsRebuilt(codes: map<string, Code>, after: map<string, Code>) {
    after.Keys == codes.Keys && forall id :: id in codes ==> Restores(codes[id], after[id])
  }

  ghost predicate LedgerRebuilt(ledger: map<string, Reservation>, after: map<string, Reservation>) {
    && after.Keys == ledger.Keys
    && forall k :: k in ledger ==>
         after[k].codeId == ledger[k].codeId && after[k].releasedAt.Some? == ledger[k].releasedAt.Some?
  }

  ghost predicate Rebuilt(db: Tables, after: Tables) {
    && UsersRebuilt(db.users, after.users) && RowsRebuilt(db.codes, after.codes)
    && LedgerRebuilt(db.reservations, after.reservations)
  }

  // ---- users ----

  ghost predicate UsersSoFar(users: map<string, User>, ks: seq<string>, n: nat, after: map<string, User>)
    requires n <= |ks|
  {
    && (forall id :: id in after <==> id in ks[..n])
    && (forall id :: id in after ==> id in users && after[id] == ExportedUser(users[id]))
  }

  ghost predicate EmailsFirst(target: Driver, users: map<string, User>, ks: seq<string>, n: nat)
    requires n <= |ks| && forall i :: 0 <= i < |ks| ==> ks[i] in users
  {
    forall i, j {:trigger ks[i], ks[j]} :: 0 <= i < j < n ==> !SameEmail(target, users[ks[i]], users[ks[j]])
  }

  // The next user is refused exactly for an email an earlier one has.
  lemma NextUser(db: Tables, ks: seq<string>, n: nat, d: Tables, now: Time)
    requires Inv(db) && Stamped(db) && Enumerates(ks, db.users.Keys) && n < |ks| && UsersSoFar(db.users, ks, n, d.users)
    requires (forall i :: 0 <= i < |ks| ==> ks[i] in db.users) && EmailsFirst(d.driver, db.users, ks, n)
    ensures var op := UserOp(ExportedUser(db.users[ks[n]]), now);
            && (Succeeds(d, op) <==> EmailsFirst(d.driver, db.users, ks, n + 1))
            && (Succeeds(d, op) ==>
                  UsersSoFar(db.users, ks, n + 1, Step(d, op).users) && Step(d, op) == d.(users := Step(d, op).users))
  {
    hide Fold, EmailsFirst, EmailUsed;
    var u := db.users[ks[n]];
    assert u.id == ks[n] != "" && u.email != "";
    assert ks[..n + 1] == ks[..n] + [ks[n]];
    assert ks[n] !in ks[..n];
    hide Inv, Stamped;
    NextEmail(db.users, ks, n, d);
    SameEmailUsed(d, u);
  }

  lemma SameEmailUsed(d: Tables, u: User)
    ensures EmailUsed(d, ExportedUser(u).email) == EmailUsed(d, u.email)
  {
  }

  lemma NextEmail(users: map<string, User>, ks: seq<string>, n: nat, d: Tables)
    requires n < |ks| && UsersSoFar(users, ks, n, d.users)
    requires (forall i :: 0 <= i < |ks| ==> ks[i] in users) && EmailsFirst(d.driver, users, ks, n)
    ensures EmailUsed(d, users[ks[n]].email) <==> !EmailsFirst(d.driver, users, ks, n + 1)
  {
    hide Fold;
    if EmailUsed(d, users[ks[n]].email) {
      var id :| id in d.users && Fold(d.driver, d.users[id].email) == Fold(d.driver, users[ks[n]].email);
      var i :| 0 <= i < n && ks[i] == id;
      assert SameEmail(d.driver, users[ks[i]], users[ks[n]]);
    } else {
      forall i | 0 <= i < n ensures !SameEmail(d.driver, users[ks[i]], users[ks[n]]) {
        assert ks[i] in ks[..n];
      }
    }
  }

  lemma NoUsersYet(target: Driver, users: map<string, User>, ks: seq<string>)
    requires forall i :: 0 <= i < |ks| ==> ks[i] in users
    ensures UsersSoFar(users, ks, 0, map[]) && EmailsFirst(target, users, ks, 0)
  {
  }

  lemma FewerEmails(target: Driver, users: map<string, User>, ks: seq<string>, n: nat)
    requires n < |ks| && forall i :: 0 <= i < |ks| ==> ks[i] in users
    ensures EmailsFirst(target, users, ks, n + 1) ==> EmailsFirst(target, users, ks, n)
  {
  }

  lemma {:induction false} UsersImported(target: Driver, db: Tables, ks: seq<string>, n: nat, a: Ambient)
    requires Inv(db) && Stamped(db) && Enumerates(ks, db.users.Keys) && n <= |ks|
    requires forall i :: 0 <= i < |ks| ==> ks[i] in db.users
    ensures ImportUsers(Empty(target), UserRows(db.users, ks), n, a).Some? <==> EmailsFirst(target, db.users, ks, n)
    ensures ImportUsers(Empty(target), UserRows(db.users, ks), n, a).Some? ==>
              var d := ImportUsers(Empty(target), UserRows(db.users, ks), n, a).value;
              d == Empty(target).(users := d.users) && UsersSoFar(db.users, ks, n, d.users)
    decreases n
  {
    hide Inv, Stamped, Succeeds, Step, UserOp, UsersSoFar, Enumerates, EmailsFirst;
    if n == 0 {
      NoUsersYet(target, db.users, ks);
    } else {
      UsersImported(target, db, ks, n - 1, a);
      FewerEmails(target, db.users, ks, n - 1);
      if EmailsFirst(target, db.users, ks, n - 1) {
        NextUser(db, ks, n - 1, ImportUsers(Empty(target), UserRows(db.users, ks), n - 1, a).value, a.clock(n - 1));
      }
    }
  }

  lemma EmailsMeanDiffer(target: Driver, users: map<string, User>, ks: seq<string>)
    requires Enumerates(ks, users.Keys) && forall i :: 0 <= i < |ks| ==> ks[i] in users
    ensures EmailsFirst(target, users, ks, |ks|) <==> EmailsDiffer(target, users)
  {
    hide Fold;
    if EmailsFirst(target, users, ks, |ks|) {
      forall x, y {:trigger SameEmail(target, users[x], users[y])} | x in users && y in users && x != y
        ensures !SameEmail(target, users[x], users[y]) {
        assert x in ks && y in ks;
        var i, j :| 0 <= i < |ks| && 0 <= j < |ks| && ks[i] == x && ks[j] == y;
        assert if i < j then !SameEmail(target, users[ks[i]], users[ks[j]])
          else !SameEmail(target, users[ks[j]], users[ks[i]]);
      }
    }
  }

  // ---- codes ----

  ghost predicate DifferFirst(db: Tables, ks: seq<string>, n: nat)
    requires n <= |ks| && forall i :: 0 <= i < |ks| ==> ks[i] in db.codes
  {
    forall i, j {:trigger ks[i], ks[j]} :: 0 <= i < j < n ==> db.codes[ks[i]].shortCode != db.codes[ks[j]].shortCode
  }

  // What the relational store asks on top: owners that exist and styling profiles of their own.
  ghost predicate SchemaKept(db: Tables, ks: seq<string>, n: nat)
    requires n <= |ks| && forall i :: 0 <= i < |ks| ==> ks[i] in db.codes
  {
    && (forall i {:trigger ks[i]} :: 0 <= i < n ==> db.codes[ks[i]].userId in db.users)
    && (forall i, j {:trigger ks[i], ks[j]} :: 0 <= i < j < n ==> !SameStyling(db.codes[ks[i]], db.codes[ks[j]]))
  }

  ghost predicate FitFirst(target: Driver, db: Tables, ks: seq<string>, n: nat)
    requires n <= |ks| && forall i :: 0 <= i < |ks| ==> ks[i] in db.codes
  {
    DifferFirst(db, ks, n) && (target.Relational? ==> SchemaKept(db, ks, n))
  }

  ghost predicate CodesSoFar(db: Tables, ks: seq<string>, n: nat, d: Tables)
    requires n <= |ks| && forall i :: 0 <= i < |ks| ==> ks[i] in db.codes
  {
    RowsSoFar(db.codes, ks, n, d.codes) && LedgerSoFar(db.codes, d)
  }

  ghost predicate RowsSoFar(codes: map<string, Code>, ks: seq<string>, n: nat, after: map<string, Code>)
    requires n <= |ks|
  {
    && (forall id :: id in after <==> id in ks[..n])
    && (forall id :: id in after ==> id in codes && Restores(codes[id], after[id]))
  }

  // Every row that is back holds its short code, and nothing else is reserved.
  ghost predicate LedgerSoFar(codes: map<string, Code>, d: Tables) {
    && (forall id :: id in d.codes ==> id in codes && Holds(id, codes[id].shortCode, d.reservations))
    && (forall s :: s in d.reservations ==>
        BelongsTo(s, d.reservations[s], codes) && d.reservations[s].codeId in d.codes)
  }

  ghost predicate Holds(id: string, s: string, ledger: map<string, Reservation>) {
    s in ledger && ledger[s].codeId == id && ledger[s].releasedAt.None?
  }

  ghost predicate BelongsTo(s: string, r: Reservation, codes: map<string, Code>) {
    r.codeId in codes && codes[r.codeId].shortCode == s
  }

  // The next row fits, except perhaps for its short code, its owner or its styling profile.
  lemma NextCodeFits(db: Tables, ks: seq<string>, n: nat, d: Tables, now: Time, drawn: string)
    requires Inv(db) && n < |ks| && ks[n] in db.codes && ks[n] !in ks[..n] && RowsSoFar(db.codes, ks, n, d.codes)
    requires db.codes[ks[n]].styling.id != ""
    ensures Succeeds(d, Op.CreateCodes(CodeRequest(db.codes[ks[n]], now, drawn))) <==>
            !Taken(d, db.codes[ks[n]].shortCode)
            && (d.driver.Relational? ==>
                  db.codes[ks[n]].userId in d.users && !StylingUsed(d, db.codes[ks[n]].styling.id))
  {
    var c := db.codes[ks[n]];
    assert RowOk(ks[n], c);
    hide Inv, Lower;
    var q := CodeRequest(c, now, drawn);
    assert q.rows[0] == Recreated(c) && q.Row(0) == RowOf(Recreated(c), now, drawn);
    assert q.Row(0).styling.id == c.styling.id;
    assert Admissible(d, q) <==> Admits(d, Recreated(c));
    assert d.driver.Relational? ==> (SchemaFirst(d, q, 1) <==> SchemaRow(d, q, 0));
    assert c.clientRef != "" ==> !RefUsed(d, c.userId, c.clientRef) by {
      RefStaysFree(db, ks, n, d);
    }
  }

  lemma NextCodeSchema(db: Tables, ks: seq<string>, n: nat, d: Tables)
    requires n < |ks| && (forall i :: 0 <= i < |ks| ==> ks[i] in db.codes) && RowsSoFar(db.codes, ks, n, d.codes)
    requires d.users.Keys == db.users.Keys && SchemaKept(db, ks, n)
    ensures db.codes[ks[n]].userId in d.users && !StylingUsed(d, db.codes[ks[n]].styling.id) <==>
              SchemaKept(db, ks, n + 1)
  {
    var s := db.codes[ks[n]].styling.id;
    if StylingUsed(d, s) {
      var id :| id in d.codes && d.codes[id].styling.id == s;
      assert Restores(db.codes[id], d.codes[id]);
      var i :| 0 <= i < n && ks[i] == id;
      assert SameStyling(db.codes[ks[i]], db.codes[ks[n]]);
    } else {
      forall i | 0 <= i < n ensures !SameStyling(db.codes[ks[i]], db.codes[ks[n]]) {
        assert ks[i] in ks[..n];
        assert Restores(db.codes[ks[i]], d.codes[ks[i]]);
      }
    }
  }

  lemma RefStaysFree(db: Tables, ks: seq<string>, n: nat, d: Tables)
    requires Inv(db) && n < |ks| && ks[n] in db.codes && ks[n] !in ks[..n] && RowsSoFar(db.codes, ks, n, d.codes)
    ensures var c := db.codes[ks[n]]; c.clientRef != "" ==> !RefUsed(d, c.userId, c.clientRef)
  {
    var c := db.codes[ks[n]];
    if c.clientRef != "" {
      forall id | id in d.codes ensures !HasRef(d.codes[id], c.userId, c.clientRef) {
        assert Restores(db.codes[id], d.codes[id]) && id != ks[n];
        assert !SameRef(db.codes[id], db.codes[ks[n]]);
      }
    }
  }

  // ... which is taken exactly when an earlier row had it.
  lemma NextCodeTaken(db: Tables, ks: seq<string>, n: nat, d: Tables)
    requires n < |ks| && (forall i :: 0 <= i < |ks| ==> ks[i] in db.codes)
    requires Lower(db.codes[ks[n]].shortCode) == db.codes[ks[n]].shortCode
    requires CodesSoFar(db, ks, n, d) && DifferFirst(db, ks, n)
    ensures Taken(d, db.codes[ks[n]].shortCode) <==> !DifferFirst(db, ks, n + 1)
  {
    hide Restores;
    var s := db.codes[ks[n]].shortCode;
    if Taken(d, s) {
      assert BelongsTo(s, d.reservations[s], db.codes);
      var id := d.reservations[s].codeId;
      assert id in ks[..n];
      var i :| 0 <= i < n && ks[i] == id;
      assert db.codes[ks[i]].shortCode == db.codes[ks[n]].shortCode;
    } else {
      forall i | 0 <= i < n ensures db.codes[ks[i]].shortCode != s {
        assert ks[i] in ks[..n];
        assert Holds(ks[i], db.codes[ks[i]].shortCode, d.reservations);
      }
    }
  }

  lemma NextCodeRestored(c: Code, d: Tables, now: Time, drawn: string)
    requires RowOk(c.id, c) && c.createdAt != ZERO_TIME && c.updatedAt != ZERO_TIME && c.styling.id != ""
    requires c.deletedAt.Some? ==> c.state == Deleted
    requires Succeeds(d, Op.CreateCodes(CodeRequest(c, now, drawn)))
    ensures ImportCode(d, c, now, drawn).Some?
    ensures var e := ImportCode(d, c, now, drawn).value;
            && c.id in e.codes
            && e == d.(codes := d.codes[c.id := e.codes[c.id]],
                       reservations := d.reservations[c.shortCode := Reservation(c.id, now, None)])
            && Restores(c, e.codes[c.id])
  {
    CreatedRow(d, c, now, drawn);
    var row := RowOf(Recreated(c), now, drawn);
    assert row.id == c.id && row.shortCode == c.shortCode;
    var mid := Insert(d, row, now);
    if c.state == Deleted {
      assert Succeeds(mid, Op.DeleteCode(c.id, c.userId, now));
      var e := Step(mid, Op.DeleteCode(c.id, c.userId, now));
      assert e.codes == d.codes[c.id := e.codes[c.id]];
    } else {
      assert mid.codes == d.codes[c.id := mid.codes[c.id]];
    }
  }

  lemma RowsSoFarExtend(codes: map<string, Code>, ks: seq<string>, n: nat, before: map<string, Code>, r: Code)
    requires n < |ks| && ks[n] in codes && RowsSoFar(codes, ks, n, before) && Restores(codes[ks[n]], r)
    ensures RowsSoFar(codes, ks, n + 1, before[ks[n] := r])
  {
    hide Restores;
    assert ks[..n + 1] == ks[..n] + [ks[n]];
  }

  lemma LedgerSoFarExtends(db: Tables, ks: seq<string>, n: nat, d: Tables, r: Code, now: Time)
    requires n < |ks| && (forall i :: 0 <= i < |ks| ==> ks[i] in db.codes) && CodesSoFar(db, ks, n, d)
    requires DifferFirst(db, ks, n + 1)
    ensures var s := db.codes[ks[n]].shortCode;
            LedgerSoFar(db.codes, d.(codes := d.codes[ks[n] := r],
                                     reservations := d.reservations[s := Reservation(ks[n], now, None)]))
  {
    hide Restores;
    var s := db.codes[ks[n]].shortCode;
    forall id | id in d.codes ensures db.codes[id].shortCode != s {
      assert id in ks[..n];
      var i :| 0 <= i < n && ks[i] == id;
      assert db.codes[ks[i]].shortCode != db.codes[ks[n]].shortCode;
    }
    forall id | id in d.codes
      ensures Holds(id, db.codes[id].shortCode, d.reservations[s := Reservation(ks[n], now, None)]) {
      assert Holds(id, db.codes[id].shortCode, d.reservations);
    }
  }

  // Deleted rows, and only they, carry a deletion time.
  ghost predicate DeletionsDated(db: Tables) {
    forall id :: id in db.codes ==> (db.codes[id].deletedAt.Some? ==> db.codes[id].state == Deleted)
  }

  lemma {:induction false} CodesImported(db: Tables, base: Tables, ks: seq<string>, n: nat, a: Ambient)
    requires Inv(db) && Stamped(db) && DeletionsDated(db) && Enumerates(ks, db.codes.Keys) && n <= |ks|
    requires forall i :: 0 <= i < |ks| ==> ks[i] in db.codes
    requires base.codes == map[] && base.reservations == map[] && base.users.Keys == db.users.Keys
    ensures ImportCodes(base, CodeRows(db.codes, ks), n, a).Some? <==> FitFirst(base.driver, db, ks, n)
    ensures ImportCodes(base, CodeRows(db.codes, ks), n, a).Some? ==>
              var d := ImportCodes(base, CodeRows(db.codes, ks), n, a).value;
              d.users == base.users && d.driver == base.driver && CodesSoFar(db, ks, n, d)
    decreases n
  {
    hide Inv, Stamped, Succeeds, Step, Restores, CodesSoFar, Insert, RowOf, ImportCode, DeletionsDated, FitFirst;
    hide Enumerates;
    var rows := CodeRows(db.codes, ks);
    if n == 0 {
      NoCodesYet(db, ks, base);
    } else {
      CodesImported(db, base, ks, n - 1, a);
      ShorterFits(base.driver, db, ks, n - 1);
      if FitFirst(base.driver, db, ks, n - 1) {
        NextCode(db, ks, n - 1, ImportCodes(base, rows, n - 1, a).value, a.clock(n - 1), a.drawn(n - 1));
      }
    }
  }

  lemma ShorterFits(target: Driver, db: Tables, ks: seq<string>, n: nat)
    requires n < |ks| && forall i :: 0 <= i < |ks| ==> ks[i] in db.codes
    ensures FitFirst(target, db, ks, n + 1) ==> FitFirst(target, db, ks, n)
  {
  }

  lemma NewKey(ks: seq<string>, dom: set<string>, n: nat)
    requires Enumerates(ks, dom) && n < |ks|
    ensures ks[n] !in ks[..n]
  {
  }

  lemma NextCode(db: Tables, ks: seq<string>, n: nat, d: Tables, now: Time, drawn: string)
    requires Inv(db) && Stamped(db) && DeletionsDated(db) && Enumerates(ks, db.codes.Keys) && n < |ks|
    requires (forall i :: 0 <= i < |ks| ==> ks[i] in db.codes) && CodesSoFar(db, ks, n, d)
    requires d.users.Keys == db.users.Keys && FitFirst(d.driver, db, ks, n)
    ensures var r := ImportCode(d, db.codes[ks[n]], now, drawn);
            && (r.Some? <==> FitFirst(d.driver, db, ks, n + 1))
            && (r.Some? ==>
                  r.value.users == d.users && r.value.driver == d.driver && CodesSoFar(db, ks, n + 1, r.value))
  {
    hide Inv, Stamped, Succeeds, Step, Restores, Insert, RowOf, ImportCode, DeletionsDated, DifferFirst, SchemaKept;
    hide Enumerates, RowsSoFar, LedgerSoFar, Taken, StylingUsed;
    var c := db.codes[ks[n]];
    StampedRow(db, ks[n]);
    NewKey(ks, db.codes.Keys, n);
    NextCodeFits(db, ks, n, d, now, drawn);
    NextCodeTaken(db, ks, n, d);
    if d.driver.Relational? {
      NextCodeSchema(db, ks, n, d);
    }
    if FitFirst(d.driver, db, ks, n + 1) {
      NextCodeRestored(c, d, now, drawn);
      var e := ImportCode(d, c, now, drawn).value;
      RowsSoFarExtend(db.codes, ks, n, d.codes, e.codes[c.id]);
      LedgerSoFarExtends(db, ks, n, d, e.codes[c.id], now);
    } else {
      RefusedCode(d, c, now, drawn);
    }
  }

  lemma NoCodesYet(db: Tables, ks: seq<string>, base: Tables)
    requires base.codes == map[] && base.reservations == map[] && forall i :: 0 <= i < |ks| ==> ks[i] in db.codes
    ensures CodesSoFar(db, ks, 0, base) && FitFirst(base.driver, db, ks, 0)
  {
  }

  lemma StampedRow(db: Tables, id: string)
    requires Inv(db) && Stamped(db) && DeletionsDated(db) && id in db.codes
    ensures var c := db.codes[id];
            && c.id == id && RowOk(c.id, c) && c.createdAt != ZERO_TIME && c.updatedAt != ZERO_TIME
            && c.styling.id != "" && (c.deletedAt.Some? ==> c.state == Deleted)
  {
    assert RowOk(id, db.codes[id]);
  }

  lemma RefusedCode(d: Tables, c: Code, now: Time, drawn: string)
    requires !Succeeds(d, Op.CreateCodes(CodeRequest(c, now, drawn)))
    ensures ImportCode(d, c, now, drawn).None?
  {
  }

  // ---- reservations ----

  ghost predicate ReleasesSoFar(db: Tables, ks: seq<string>, n: nat, d0: Tables, d: Tables)
    requires n <= |ks|
  {
    && d == d0.(reservations := d.reservations) && d.reservations.Keys == d0.reservations.Keys
    && forall k :: k in d.reservations ==>
         (d.reservations[k].codeId == d0.reservations[k].codeId
          && (d.reservations[k].releasedAt.Some? <==>
              k in ks[..n] && k in db.reservations && db.reservations[k].releasedAt.Some?))
  }

  // Once every row is back and no two share a code, each key's reservation belongs to the row it belonged to.
  lemma LedgerOfRows(db: Tables, ks: seq<string>, d0: Tables, key: string)
    requires Inv(db) && CodesDiffer(db) && Enumerates(ks, db.codes.Keys)
    requires (forall i :: 0 <= i < |ks| ==> ks[i] in db.codes)
    requires CodesSoFar(db, ks, |ks|, d0)
    ensures key in d0.reservations <==> key in db.reservations
    ensures key in db.reservations ==>
              && d0.reservations[key].codeId == db.reservations[key].codeId && d0.reservations[key].releasedAt.None?
              && Lower(key) == key
              && db.reservations[key].codeId in d0.codes && db.reservations[key].codeId in db.codes
              && (db.reservations[key].releasedAt.Some? ==> d0.codes[db.reservations[key].codeId].state == Deleted)
  {
    assert ks[..|ks|] == ks;
    if key in db.reservations {
      assert ReservationOk(key, db.reservations[key], db.codes);
      var id := db.reservations[key].codeId;
      assert RowOk(id, db.codes[id]);
      assert id in d0.codes && Restores(db.codes[id], d0.codes[id]) && Holds(id, key, d0.reservations);
    }
    if key in d0.reservations {
      assert BelongsTo(key, d0.reservations[key], db.codes);
      assert LedgerHas(d0.reservations[key].codeId, db.codes[d0.reservations[key].codeId], db.reservations);
    }
  }

  lemma ReleaseGoesThrough(d: Tables, key: string, now: Time)
    requires key in d.reservations && d.reservations[key].releasedAt.None? && Lower(key) == key
    requires d.reservations[key].codeId in d.codes && d.codes[d.reservations[key].codeId].state == Deleted
    ensures Succeeds(d, Op.ReleaseAlias(key, now))
    ensures Step(d, Op.ReleaseAlias(key, now))
            == d.(reservations := d.reservations[key := d.reservations[key].(releasedAt := Some(now))])
  {
  }

  lemma ReleasesExtend(db: Tables, ks: seq<string>, n: nat, d0: Tables, d: Tables, now: Time)
    requires n < |ks| && ks[n] !in ks[..n] && ks[n] in db.reservations && ks[n] in d.reservations
    requires ReleasesSoFar(db, ks, n, d0, d)
    ensures db.reservations[ks[n]].releasedAt.None? ==> ReleasesSoFar(db, ks, n + 1, d0, d)
    ensures db.reservations[ks[n]].releasedAt.Some? ==>
              var released := d.reservations[ks[n]].(releasedAt := Some(now));
              ReleasesSoFar(db, ks, n + 1, d0, d.(reservations := d.reservations[ks[n] := released]))
  {
    assert ks[..n + 1] == ks[..n] + [ks[n]];
  }

  lemma NextRelease(db: Tables, cs: seq<string>, ks: seq<string>, n: nat, d0: Tables, d: Tables, codeIds: set<string>,
                    now: Time)
    requires Inv(db) && CodesDiffer(db) && Enumerates(cs, db.codes.Keys)
    requires (forall i :: 0 <= i < |cs| ==> cs[i] in db.codes)
    requires CodesSoFar(db, cs, |cs|, d0) && codeIds == db.codes.Keys
    requires Enumerates(ks, db.reservations.Keys) && n < |ks| && ks[n] in db.reservations
    requires ReleasesSoFar(db, ks, n, d0, d)
    ensures var r := ImportReservation(d, LedgerRowOf(ks[n], db.reservations[ks[n]]), codeIds, now);
            r.Some? && ReleasesSoFar(db, ks, n + 1, d0, r.value)
  {
    hide Inv, CodesSoFar, CodesDiffer, Enumerates, Succeeds, Step, ReleasesSoFar;
    var key := ks[n];
    LedgerOfRows(db, cs, d0, key);
    NewKey(ks, db.reservations.Keys, n);
    ReleasedAlready(db, ks, n, d0, d, key);
    ReleasesExtend(db, ks, n, d0, d, now);
    if db.reservations[key].releasedAt.Some? {
      ReleaseGoesThrough(d, key, now);
    }
  }

  lemma ReleasedAlready(db: Tables, ks: seq<string>, n: nat, d0: Tables, d: Tables, key: string)
    requires n <= |ks| && ReleasesSoFar(db, ks, n, d0, d) && key in d0.reservations && key !in ks[..n]
    ensures d.codes == d0.codes && key in d.reservations && d.reservations[key].codeId == d0.reservations[key].codeId
    ensures d.reservations[key].releasedAt.None?
  {
  }

  lemma {:induction false} ReservationsImported(db: Tables, cs: seq<string>, ks: seq<string>, n: nat, d0: Tables,
                                                codeIds: set<string>, a: Ambient)
    requires Inv(db) && CodesDiffer(db) && Enumerates(cs, db.codes.Keys)
    requires (forall i :: 0 <= i < |cs| ==> cs[i] in db.codes)
    requires CodesSoFar(db, cs, |cs|, d0) && codeIds == db.codes.Keys
    requires Enumerates(ks, db.reservations.Keys) && n <= |ks| && forall i :: 0 <= i < |ks| ==> ks[i] in db.reservations
    ensures var r := ImportReservations(d0, LedgerRows(db.reservations, ks), n, codeIds, a);
            r.Some? && ReleasesSoFar(db, ks, n, d0, r.value)
    decreases n
  {
    hide Inv, CodesSoFar, CodesDiffer, ImportReservation, ReleasesSoFar, Enumerates;
    if n == 0 {
      NoReleasesYet(db, cs, ks, d0);
    } else {
      ReservationsImported(db, cs, ks, n - 1, d0, codeIds, a);
      var d := ImportReservations(d0, LedgerRows(db.reservations, ks), n - 1, codeIds, a).value;
      NextRelease(db, cs, ks, n - 1, d0, d, codeIds, a.clock(n - 1));
    }
  }

  lemma NoReleasesYet(db: Tables, cs: seq<string>, ks: seq<string>, d0: Tables)
    requires Inv(db) && CodesDiffer(db) && Enumerates(cs, db.codes.Keys)
    requires (forall i :: 0 <= i < |cs| ==> cs[i] in db.codes)
    requires CodesSoFar(db, cs, |cs|, d0)
    ensures ReleasesSoFar(db, ks, 0, d0, d0)
  {
    hide Inv, CodesSoFar, CodesDiffer, Enumerates;
    forall k | k in d0.reservations ensures d0.reservations[k].releasedAt.None? {
      LedgerOfRows(db, cs, d0, k);
    }
  }

  // ---- rollups ----

  lemma {:induction false} AllKept(rows: seq<RollupDelta>, codeIds: set<string>)
    requires forall i :: 0 <= i < |rows| ==> rows[i].key.codeId in codeIds
    ensures Kept(rows, codeIds) == rows
    decreases |rows|
  {
    if rows != [] {
      AllKept(rows[..|rows| - 1], codeIds);
      assert rows == rows[..|rows| - 1] + [rows[|rows| - 1]];
    }
  }

  lemma RowsPersistable(t: Table, codes: set<string>, ks: seq<RollupKey>)
    requires TableOk(t, codes) && forall i :: 0 <= i < |ks| ==> ks[i] in t
    ensures forall i :: 0 <= i < |ks| ==> WellFormed(DeltaRows(t, ks)[i], codes)
    ensures AlignAll(DeltaRows(t, ks)) == DeltaRows(t, ks)
  {
    var rows := DeltaRows(t, ks);
    forall i | 0 <= i < |ks| ensures WellFormed(rows[i], codes) && Aligned(rows[i]) == rows[i] {
      assert ks[i] in t;
    }
  }

  lemma AppliedRowsAreTable(t: Table, ks: seq<RollupKey>)
    requires Enumerates(ks, t.Keys) && forall i :: 0 <= i < |ks| ==> ks[i] in t
    ensures Apply(map[], DeltaRows(t, ks)) == t
  {
    var rows := DeltaRows(t, ks);
    ApplyDistinct(map[], rows);
    hide Apply;
    var u := Apply(map[], rows);
    forall k ensures (k in u <==> k in t) && (k in t ==> u[k] == t[k]) {
      if k in t {
        assert k in ks;
        var i :| 0 <= i < |ks| && ks[i] == k;
        assert rows[i].key == k;
      } else {
        assert forall i :: 0 <= i < |rows| ==> rows[i].key != k;
      }
    }
  }

  lemma RollupsImported(t: Table, codes: set<string>, ks: seq<RollupKey>)
    requires TableOk(t, codes) && Enumerates(ks, t.Keys) && forall i :: 0 <= i < |ks| ==> ks[i] in t
    ensures ImportRollups(map[], codes, DeltaRows(t, ks), codes) == Some(t)
  {
    hide Apply, Enumerates, TableOk, AlignAll;
    RowsPersistable(t, codes, ks);
    AllKept(DeltaRows(t, ks), codes);
    AppliedRowsAreTable(t, ks);
  }

  // ---- the round trip ----

  lemma DifferMeansDiffer(db: Tables, ks: seq<string>)
    requires Enumerates(ks, db.codes.Keys) && forall i :: 0 <= i < |ks| ==> ks[i] in db.codes
    ensures DifferFirst(db, ks, |ks|) <==> CodesDiffer(db)
  {
    if DifferFirst(db, ks, |ks|) {
      forall x, y | x in db.codes && y in db.codes && x != y ensures db.codes[x].shortCode != db.codes[y].shortCode {
        assert x in ks && y in ks;
        var i, j :| 0 <= i < |ks| && 0 <= j < |ks| && ks[i] == x && ks[j] == y;
        assert if i < j then db.codes[ks[i]].shortCode != db.codes[ks[j]].shortCode
          else db.codes[ks[j]].shortCode != db.codes[ks[i]].shortCode;
      }
    }
  }

  // An entry list is read front to back.
  lemma ReadFront(t: Target, entries: seq<Entry>, a: Ambient)
    requires entries != []
    ensures ReadAll(t, entries, a) ==
            match ReadEntry(t, entries[0], a)
            case None => None
            case Some(u) => ReadAll(u, entries[1..], a)
  {
  }

  lemma ReadDump(t: Target, e: seq<Entry>, a: Ambient)
    requires |e| == 6 && e[0].Manifest? && e[0].version == FORMAT_VERSION && e[2].Tokens?
    ensures var t1 := t.(sawManifest := true);
            ReadAll(t, e, a) ==
            match ReadEntry(t1, e[1], a)
            case None => None
            case Some(t2) =>
              match ReadEntry(t2, e[3], a)
              case None => None
              case Some(t3) =>
                match ReadEntry(t3, e[4], a)
                case None => None
                case Some(t4) => ReadEntry(t4, e[5], a)
  {
    hide ImportUsers, ImportCodes, ImportReservations, ImportRollups;
    assert e[1..][0] == e[1] && e[1..][1..] == e[2..];
    assert e[2..][0] == e[2] && e[2..][1..] == e[3..];
    assert e[3..][0] == e[3] && e[3..][1..] == e[4..];
    assert e[4..][0] == e[4] && e[4..][1..] == e[5..];
    assert e[5..][0] == e[5] && e[5..][1..] == [];
    ReadFront(t, e, a);
    var t1 := t.(sawManifest := true);
    assert ReadEntry(t, e[0], a) == Some(t1);
    ReadFront(t1, e[1..], a);
    if ReadEntry(t1, e[1], a).Some? {
      var t2 := ReadEntry(t1, e[1], a).value;
      ReadFront(t2, e[2..], a);
      ReadFront(t2, e[3..], a);
      if ReadEntry(t2, e[3], a).Some? {
        var t3 := ReadEntry(t2, e[3], a).value;
        ReadFront(t3, e[4..], a);
        if ReadEntry(t3, e[4], a).Some? {
          ReadFront(ReadEntry(t3, e[4], a).value, e[5..], a);
        }
      }
    }
  }

  lemma AllReleasesRebuild(db: Tables, cs: seq<string>, ks: seq<string>, d0: Tables, d: Tables)
    requires Inv(db) && CodesDiffer(db) && Enumerates(cs, db.codes.Keys)
    requires (forall i :: 0 <= i < |cs| ==> cs[i] in db.codes)
    requires CodesSoFar(db, cs, |cs|, d0) && Enumerates(ks, db.reservations.Keys) && ReleasesSoFar(db, ks, |ks|, d0, d)
    ensures RowsRebuilt(db.codes, d.codes) && LedgerRebuilt(db.reservations, d.reservations)
  {
    hide Inv, CodesDiffer, RowsSoFar, LedgerSoFar, Enumerates, Restores;
    AllRowsBack(db, cs, d0);
    hide CodesSoFar;
    forall k ensures (k in d0.reservations <==> k in db.reservations)
                     && (k in db.reservations ==> d0.reservations[k].codeId == db.reservations[k].codeId) {
      LedgerOfRows(db, cs, d0, k);
    }
    AllKeysSeen(ks, db.reservations.Keys);
  }

  lemma AllKeysSeen(ks: seq<string>, dom: set<string>)
    requires Enumerates(ks, dom)
    ensures forall k :: k in ks[..|ks|] <==> k in dom
  {
    assert ks[..|ks|] == ks;
  }

  lemma AllRowsBack(db: Tables, cs: seq<string>, d0: Tables)
    requires Enumerates(cs, db.codes.Keys) && RowsSoFar(db.codes, cs, |cs|, d0.codes)
    ensures RowsRebuilt(db.codes, d0.codes)
  {
    hide Restores;
    AllKeysSeen(cs, db.codes.Keys);
  }

  lemma CoveredKeys(db: Tables, table: Table, o: Order)
    requires Covers(o, db, table)
    ensures forall i :: 0 <= i < |o.users| ==> o.users[i] in db.users
    ensures forall i :: 0 <= i < |o.codes| ==> o.codes[i] in db.codes
    ensures forall i :: 0 <= i < |o.ledger| ==> o.ledger[i] in db.reservations
    ensures forall i :: 0 <= i < |o.rollups| ==> o.rollups[i] in table
  {
  }

  // Where an import stands after the users, and after the codes.
  ghost predicate UsersIn(target: Driver, db: Tables, t: Target) {
    && t.sawManifest && t.codeIds == {} && t.table == map[]
    && t.db == Empty(target).(users := t.db.users) && UsersRebuilt(db.users, t.db.users)
  }

  ghost predicate CodesIn(target: Driver, db: Tables, ks: seq<string>, t: Target)
    requires forall i :: 0 <= i < |ks| ==> ks[i] in db.codes
  {
    && t.sawManifest && t.codeIds == db.codes.Keys && t.table == map[] && t.db.driver == target
    && UsersRebuilt(db.users, t.db.users) && CodesSoFar(db, ks, |ks|, t.db)
  }

  lemma UsersEntry(target: Driver, db: Tables, ks: seq<string>, a: Ambient)
    requires Inv(db) && Stamped(db) && Enumerates(ks, db.users.Keys) && forall i :: 0 <= i < |ks| ==> ks[i] in db.users
    ensures var r := ReadEntry(Target(Empty(target), {}, map[], true), Users(UserRows(db.users, ks)), a);
            && (r.Some? <==> EmailsDiffer(target, db.users)) && (r.Some? ==> UsersIn(target, db, r.value))
  {
    hide Inv, Stamped, Enumerates, ImportUsers, EmailsDiffer, UsersSoFar, UsersRebuilt, EmailsFirst;
    UsersImported(target, db, ks, |ks|, a);
    EmailsMeanDiffer(target, db.users, ks);
    if EmailsDiffer(target, db.users) {
      AllUsersRebuilt(db, ks, ImportUsers(Empty(target), UserRows(db.users, ks), |ks|, a).value.users);
    }
  }

  lemma CodesEntry(target: Driver, db: Tables, ks: seq<string>, t: Target, a: Ambient)
    requires Inv(db) && Stamped(db) && DeletionsDated(db) && Enumerates(ks, db.codes.Keys)
    requires (forall i :: 0 <= i < |ks| ==> ks[i] in db.codes) && UsersIn(target, db, t)
    ensures var r := ReadEntry(t, Codes(CodeRows(db.codes, ks)), a);
            && (r.Some? <==> CodesDiffer(db) && (target.Relational? ==> SchemaOk(db)))
            && (r.Some? ==> CodesIn(target, db, ks, r.value))
  {
    var rows := CodeRows(db.codes, ks);
    CodesRead(t, rows, a);
    AfterUsers(target, db, t);
    ImportedIds(db, ks);
    hide Inv, Stamped, DeletionsDated, Enumerates, ImportCodes, CodesSoFar, CodesDiffer, SchemaOk, UsersRebuilt;
    hide FitFirst;
    hide ReadEntry, UsersIn;
    CodesImported(db, t.db, ks, |ks|, a);
    FitMeans(target, db, ks);
    hide CodeRows;
  }

  lemma CodesRead(t: Target, rows: seq<Code>, a: Ambient)
    requires t.codeIds == {}
    ensures ReadEntry(t, Codes(rows), a) ==
            match ImportCodes(t.db, rows, |rows|, a)
            case None => None
            case Some(d) => Some(t.(db := d, codeIds := set i | 0 <= i < |rows| :: rows[i].id))
  {
    hide ImportCodes;
    assert {} + (set i | 0 <= i < |rows| :: rows[i].id) == set i | 0 <= i < |rows| :: rows[i].id;
  }

  lemma AfterUsers(target: Driver, db: Tables, t: Target)
    requires UsersIn(target, db, t)
    ensures t.sawManifest && t.codeIds == {} && t.table == map[] && t.db.driver == target
    ensures UsersRebuilt(db.users, t.db.users)
    ensures t.db.codes == map[] && t.db.reservations == map[] && t.db.users.Keys == db.users.Keys
  {
  }

  lemma FitMeans(target: Driver, db: Tables, ks: seq<string>)
    requires Enumerates(ks, db.codes.Keys) && forall i :: 0 <= i < |ks| ==> ks[i] in db.codes
    ensures FitFirst(target, db, ks, |ks|) <==> CodesDiffer(db) && (target.Relational? ==> SchemaOk(db))
  {
    hide Enumerates, DifferFirst, SchemaKept, CodesDiffer, SchemaOk;
    DifferMeansDiffer(db, ks);
    SchemaMeansOk(db, ks);
  }

  lemma SchemaMeansOk(db: Tables, ks: seq<string>)
    requires Enumerates(ks, db.codes.Keys) && forall i :: 0 <= i < |ks| ==> ks[i] in db.codes
    ensures SchemaKept(db, ks, |ks|) <==> SchemaOk(db)
  {
    if SchemaKept(db, ks, |ks|) {
      forall id | id in db.codes ensures db.codes[id].userId in db.users {
        assert id in ks;
        var i :| 0 <= i < |ks| && ks[i] == id;
      }
      forall x, y {:trigger SameStyling(db.codes[x], db.codes[y])}
        | x in db.codes && y in db.codes && x != y
        ensures !SameStyling(db.codes[x], db.codes[y]) {
        assert x in ks && y in ks;
        var i, j :| 0 <= i < |ks| && 0 <= j < |ks| && ks[i] == x && ks[j] == y;
        assert if i < j then !SameStyling(db.codes[ks[i]], db.codes[ks[j]])
          else !SameStyling(db.codes[ks[j]], db.codes[ks[i]]);
      }
    }
  }

  lemma LedgerEntry(target: Driver, db: Tables, cs: seq<string>, ks: seq<string>, t: Target, a: Ambient)
    requires Inv(db) && CodesDiffer(db) && Enumerates(cs, db.codes.Keys)
    requires (forall i :: 0 <= i < |cs| ==> cs[i] in db.codes)
    requires Enumerates(ks, db.reservations.Keys) && (forall i :: 0 <= i < |ks| ==> ks[i] in db.reservations)
    requires CodesIn(target, db, cs, t)
    ensures var r := ReadEntry(t, Reservations(LedgerRows(db.reservations, ks)), a);
            && r.Some? && Rebuilt(db, r.value.db) && r.value.db.driver == target && r.value == t.(db := r.value.db)
            && r.value.db.codes.Keys == db.codes.Keys
  {
    hide Inv, CodesDiffer, Enumerates, ImportReservations, CodesSoFar, ReleasesSoFar, UsersRebuilt, RowsRebuilt;
    hide LedgerRebuilt;
    ReservationsImported(db, cs, ks, |ks|, t.db, t.codeIds, a);
    var d := ImportReservations(t.db, LedgerRows(db.reservations, ks), |ks|, t.codeIds, a).value;
    AllReleasesRebuild(db, cs, ks, t.db, d);
    OnlyLedger(db, ks, t.db, d);
    SameKeys(db, d);
  }

  lemma OnlyLedger(db: Tables, ks: seq<string>, d0: Tables, d: Tables)
    requires ReleasesSoFar(db, ks, |ks|, d0, d)
    ensures d.users == d0.users && d.driver == d0.driver
  {
  }

  lemma RollupsEntry(table: Table, ks: seq<RollupKey>, t: Target, a: Ambient)
    requires TableOk(table, t.codeIds) && Enumerates(ks, table.Keys) && (forall i :: 0 <= i < |ks| ==> ks[i] in table)
    requires t.table == map[] && t.codeIds == t.db.codes.Keys
    ensures ReadEntry(t, ScanRollups(DeltaRows(table, ks)), a) == Some(t.(table := table))
  {
    hide TableOk, Enumerates, ImportRollups;
    RollupsImported(table, t.codeIds, ks);
  }

  // Importing the archive of a store into an empty one goes through exactly when the importing driver can tell
  // its rows apart, deleted ones included; it then rebuilds users, rows, ledger and rollups, whatever order the
  // tables were enumerated in.
  lemma RoundTrip(target: Driver, db: Tables, table: Table, o: Order, entries: seq<Entry>, a: Ambient)
    requires Inv(db) && Stamped(db) && DeletionsDated(db) && TableOk(table, db.codes.Keys)
    requires Covers(o, db, table) && IsDump(entries, db, table, o)
    ensures ReadAll(Target(Empty(target), {}, map[], false), entries, a).Some? <==> Importable(target, db)
    ensures Importable(target, db) ==>
              var t := ReadAll(Target(Empty(target), {}, map[], false), entries, a).value;
              t.sawManifest && t.table == table && Rebuilt(db, t.db) && t.db.driver == target
  {
    CoveredKeys(db, table, o);
    hide Inv, Stamped, TableOk, Rebuilt, CodesDiffer, EmailsDiffer, SchemaOk, DeletionsDated, Enumerates, ReadAll;
    hide ReadEntry;
    hide UserRows, CodeRows, LedgerRows, DeltaRows, UsersIn, CodesIn, Empty;
    ReadDump(Target(Empty(target), {}, map[], false), entries, a);
    UsersEntry(target, db, o.users, a);
    var r1 := ReadEntry(Target(Empty(target), {}, map[], true), entries[1], a);
    if r1.Some? {
      CodesEntry(target, db, o.codes, r1.value, a);
      var r2 := ReadEntry(r1.value, entries[3], a);
      if r2.Some? {
        LedgerEntry(target, db, o.codes, o.ledger, r2.value, a);
        CodesInParts(target, db, o.codes, r2.value);
        RollupsEntry(table, o.rollups, ReadEntry(r2.value, entries[4], a).value, a);
      }
    }
  }

  lemma CodesInParts(target: Driver, db: Tables, ks: seq<string>, t: Target)
    requires (forall i :: 0 <= i < |ks| ==> ks[i] in db.codes) && CodesIn(target, db, ks, t)
    ensures t.sawManifest && t.codeIds == db.codes.Keys && t.table == map[]
  {
  }

  lemma AllUsersRebuilt(db: Tables, ks: seq<string>, after: map<string, User>)
    requires Enumerates(ks, db.users.Keys) && UsersSoFar(db.users, ks, |ks|, after)
    ensures UsersRebuilt(db.users, after)
  {
    assert ks[..|ks|] == ks;
  }

  lemma ImportedIds(db: Tables, ks: seq<string>)
    requires Inv(db) && Enumerates(ks, db.codes.Keys) && forall i :: 0 <= i < |ks| ==> ks[i] in db.codes
    ensures (set i | 0 <= i < |ks| :: CodeRows(db.codes, ks)[i].id) == db.codes.Keys
  {
    var rows := CodeRows(db.codes, ks);
    forall i | 0 <= i < |ks| ensures rows[i].id == ks[i] {
      assert RowOk(ks[i], db.codes[ks[i]]);
    }
    forall id | id in db.codes ensures exists i :: 0 <= i < |ks| && rows[i].id == id {
      assert id in ks;
      var i :| 0 <= i < |ks| && ks[i] == id;
      assert rows[i].id == id;
    }
  }

  lemma SameKeys(db: Tables, d: Tables)
    requires RowsRebuilt(db.codes, d.codes)
    ensures d.codes.Keys == db.codes.Keys
  {
  }

  // ---- what a rebuilt store answers ----

  // Every key is as taken and as resolved as before, and every client ref as used; asked of the same driver, every
  // string is answered as before.
  lemma RebuiltAnswersAlike(db: Tables, after: Tables, s: string, userId: string)
    requires Rebuilt(db, after)
    ensures KeyTaken(after, s) == KeyTaken(db, s) && AtKey(after, s) == AtKey(db, s)
    ensures after.driver == db.driver ==>
              Resolutions.Direct(after, s) == Resolutions.Direct(db, s) && Available(after, s) == Available(db, s)
    ensures RefUsed(after, userId, s) == RefUsed(db, userId, s)
    ensures forall id :: id in db.codes && HasRef(db.codes[id], userId, s) ==>
              id in after.codes && HasRef(after.codes[id], userId, s)
  {
    KeyAnswersAlike(db, after, s);
    KeyAnswersAlike(db, after, Fold(db.driver, s));
    hide AtKey, Fold, KeyTaken;
    if RefUsed(db, userId, s) {
      var id :| id in db.codes && HasRef(db.codes[id], userId, s);
      assert Restores(db.codes[id], after.codes[id]) && HasRef(after.codes[id], userId, s);
    }
    if RefUsed(after, userId, s) {
      var id :| id in after.codes && HasRef(after.codes[id], userId, s);
      assert Restores(db.codes[id], after.codes[id]) && HasRef(db.codes[id], userId, s);
    }
  }

  lemma KeyAnswersAlike(db: Tables, after: Tables, key: string)
    requires Rebuilt(db, after)
    ensures KeyTaken(after, key) == KeyTaken(db, key) && AtKey(after, key) == AtKey(db, key)
  {
    if KeyTaken(db, key) && db.reservations[key].codeId in db.codes {
      assert Restores(db.codes[db.reservations[key].codeId], after.codes[db.reservations[key].codeId]);
    }
  }

  // ---- which stores qualify ----

  // The operation's own clock readings and random ids are not the zero values.
  ghost predicate OpStamped(op: Op)
    requires OpOk(op)
  {
    match op
    case CreateUser(_, at) => at != ZERO_TIME
    case CreateCodes(q) =>
      q.now != ZERO_TIME && forall i {:trigger q.drawn[i]} :: 0 <= i < |q.drawn| ==> q.drawn[i] != ""
    case UpdateDestination(_, _, _, _, now) => now != ZERO_TIME
    case SetCodeState(_, _, _, now) => now != ZERO_TIME
    case DeleteCode(_, _, now) => now != ZERO_TIME
    case ReleaseAlias(_, now) => now != ZERO_TIME
  }

  ghost predicate RowStamped(c: Code) {
    && c.createdAt != ZERO_TIME && c.updatedAt != ZERO_TIME && c.styling.id != ""
    && (c.deletedAt.Some? ==> c.state == Deleted)
  }

  ghost predicate Exportable(db: Tables) { Stamped(db) && DeletionsDated(db) }

  lemma CreationStamps(db: Tables, q: Request)
    requires q.Ok() && Admissible(db, q) && Exportable(db) && OpStamped(Op.CreateCodes(q))
    ensures Exportable(InsertAll(db, q))
  {
    hide RowOf;
    InsertedCodes(db, q, |q.rows|);
    var after := InsertAll(db, q);
    forall id | id in after.codes ensures RowStamped(after.codes[id]) {
      if id in db.codes {
        CreatedRowsAreNew(db, q, id);
      } else {
        var i :| 0 <= i < |q.rows| && q.rows[i].id == id;
        RowOfStamped(q.rows[i], q.now, q.drawn[i]);
        assert after.codes[id] == q.Row(i);
      }
    }
  }

  lemma RowOfStamped(c: Code, now: Time, drawn: string)
    requires now != ZERO_TIME && drawn != ""
    ensures RowStamped(RowOf(c, now, drawn))
  {
  }

  lemma StepKeepsExportable(db: Tables, op: Op)
    requires OpOk(op) && OpStamped(op) && Exportable(db)
    ensures Exportable(Step(db, op))
  {
    if op.CreateCodes? && Succeeds(db, op) {
      CreationStamps(db, op.q);
    }
  }

  // Every store reached by stamped operations may be exported and, if no short code was re-used, imported into
  // a store of the same driver: in the relational one owners exist and styling profiles differ along every run.
  lemma {:induction false} ReachableIsExportable(driver: Driver, ops: seq<Op>, n: nat)
    requires OpsOk(ops) && n <= |ops| && forall i {:trigger ops[i]} :: 0 <= i < |ops| ==> OpStamped(ops[i])
    ensures var db := After(Empty(driver), ops, n);
            Inv(db) && Exportable(db) && db.driver == driver && (Importable(driver, db) <==> CodesDiffer(db))
    decreases n
  {
    hide Inv, Exportable, Step, OpStamped, Importable, CodesDiffer;
    if n == 0 {
      EmptyIsExportable(driver);
    } else {
      ReachableIsExportable(driver, ops, n - 1);
      StepKeepsExportable(After(Empty(driver), ops, n - 1), ops[n - 1]);
      StepPreservesInv(After(Empty(driver), ops, n - 1), ops[n - 1]);
      StepKeepsDriver(After(Empty(driver), ops, n - 1), ops[n - 1]);
    }
    SameDriverImports(After(Empty(driver), ops, n));
  }

  lemma StepKeepsDriver(db: Tables, op: Op)
    requires OpOk(op)
    ensures Step(db, op).driver == db.driver
  {
  }

  lemma EmptyIsExportable(driver: Driver)
    ensures Exportable(Empty(driver)) && Inv(Empty(driver))
  {
  }

  // A table that counts events of known codes passes the import's own checks.
  lemma CountedTableOk(t: Table, events: seq<ScanEvent>, codes: set<string>)
    requires Counts(t, events)
    requires forall ev :: ev in events ==> ev.codeId in codes && HourOf(ev.occurredAt) != NO_TIME
    ensures TableOk(t, codes)
  {
    forall k | k in t ensures WellFormed(RollupDelta(k, t[k]), codes) && HourOf(k.hour) == k.hour {
      assert Count(events, k) > 0;
      var ev := SomeFeeder(events, k);
    }
  }

  lemma {:induction false} SomeFeeder(events: seq<ScanEvent>, k: RollupKey) returns (ev: ScanEvent)
    requires Count(events, k) > 0
    ensures ev in events && Feeds(ev, k)
    decreases |events|
  {
    if Feeds(events[|events| - 1], k) {
      ev := events[|events| - 1];
    } else {
      ev := SomeFeeder(events[..|events| - 1], k);
    }
  }

  // Creating a row under a short code the ledger already knows, released by then, is the only step that makes
  // a store's archive impossible to import, and it always does.
  lemma ReuseBreaksImport(db: Tables, op: Op)
    requires OpOk(op) && Inv(db) && CodesDiffer(db)
    ensures CodesDiffer(Step(db, op)) <==>
            !(op.CreateCodes? && Succeeds(db, op)
              && exists i :: 0 <= i < |op.q.rows| && Key(op.q.rows[i]) in db.reservations)
  {
    if op.CreateCodes? && Succeeds(db, op) {
      ReuseInBatch(db, op.q);
    } else {
      NoNewCodes(db, op);
    }
  }

  lemma NoNewCodes(db: Tables, op: Op)
    requires OpOk(op) && CodesDiffer(db) && !(op.CreateCodes? && Succeeds(db, op))
    ensures CodesDiffer(Step(db, op))
  {
  }

  lemma ReuseInBatch(db: Tables, q: Request)
    requires q.Ok() && Inv(db) && CodesDiffer(db) && Admissible(db, q)
    ensures CodesDiffer(InsertAll(db, q)) <==> forall i :: 0 <= i < |q.rows| ==> Key(q.rows[i]) !in db.reservations
  {
    hide Inv;
    var after := InsertAll(db, q);
    InsertedCodes(db, q, |q.rows|);
    forall id | id in db.codes ensures after.codes[id] == db.codes[id] {
      CreatedRowsAreNew(db, q, id);
    }
    if i :| 0 <= i < |q.rows| && Key(q.rows[i]) in db.reservations {
      var old_ := db.reservations[Key(q.rows[i])].codeId;
      assert old_ in db.codes && db.codes[old_].shortCode == Key(q.rows[i]) by { OwnerOf(db, Key(q.rows[i])); }
      assert Admits(db, q.rows[i]);
      assert after.codes[q.rows[i].id] == q.Row(i) && q.Row(i).shortCode == Key(q.rows[i]);
      assert q.rows[i].id != old_;
    } else {
      forall x, y | x in after.codes && y in after.codes && x != y
        ensures after.codes[x].shortCode != after.codes[y].shortCode {
        NewCodesDiffer(db, q, x, y);
      }
    }
  }

  lemma OwnerOf(db: Tables, key: string)
    requires Inv(db) && key in db.reservations
    ensures db.reservations[key].codeId in db.codes && db.codes[db.reservations[key].codeId].shortCode == key
  {
    assert ReservationOk(key, db.reservations[key], db.codes);
  }

  lemma NewCodesDiffer(db: Tables, q: Request, x: string, y: string)
    requires q.Ok() && Inv(db) && CodesDiffer(db) && Admissible(db, q) && x != y && x in InsertAll(db, q).codes
    requires y in InsertAll(db, q).codes
    requires forall i :: 0 <= i < |q.rows| ==> Key(q.rows[i]) !in db.reservations
    ensures InsertAll(db, q).codes[x].shortCode != InsertAll(db, q).codes[y].shortCode
  {
    hide Inv, InsertAll, Admits, RowOf;
    var after := InsertAll(db, q);
    KeyOfRow(db, q, x);
    KeyOfRow(db, q, y);
    if x !in db.codes && y !in db.codes {
      var i :| 0 <= i < |q.rows| && q.rows[i].id == x && after.codes[x].shortCode == Key(q.rows[i]);
      var j :| 0 <= j < |q.rows| && q.rows[j].id == y && after.codes[y].shortCode == Key(q.rows[j]);
      assert if i < j then Compatible(q.rows[i], q.rows[j]) else Compatible(q.rows[j], q.rows[i]);
    }
  }

  lemma KeyOfRow(db: Tables, q: Request, id: string)
    requires q.Ok() && Inv(db) && Admissible(db, q) && id in InsertAll(db, q).codes
    ensures id in db.codes ==> InsertAll(db, q).codes[id] == db.codes[id] && db.codes[id].shortCode in db.reservations
    ensures id !in db.codes ==> exists i ::
              0 <= i < |q.rows| && q.rows[i].id == id && InsertAll(db, q).codes[id].shortCode == Key(q.rows[i])
  {
    if id in db.codes {
      CreatedRowsAreNew(db, q, id);
      assert LedgerHas(id, db.codes[id], db.reservations);
    } else {
      hide Inv;
      InsertedCodes(db, q, |q.rows|);
      var i :| 0 <= i < |q.rows| && q.rows[i].id == id;
      assert InsertAll(db, q).codes[id] == q.Row(i);
    }
  }

  // ---- a short code used twice ----

  function Promo(id: string, dest: string): Code {
    Code(id, "promo", true, "usr_1", Dynamic, "", dest, Active, Styling("", "", "", "", 0, 0, "", "", "", 0.0),
         "", "", 0, 0, 0, None)
  }

  // Creates its user, then "promo", deletes and releases it, and creates it again.
  const REUSE: seq<Op> := [
    Op.CreateUser(User("usr_1", "a@example.com", "", false, 0, "", 0, None), 1),
    Op.CreateCodes(CodeRequest(Promo("cod_1", "https://example.com/a"), 2, "sty_1")),
    Op.DeleteCode("cod_1", "usr_1", 3),
    Op.ReleaseAlias("promo", 4),
    Op.CreateCodes(CodeRequest(Promo("cod_2", "https://example.com/b"), 5, "sty_2"))]

  // One row, under "promo".
  ghost predicate HasPromo(d: Tables) {
    && "usr_1" in d.users && d.codes.Keys == {"cod_1"} && d.codes["cod_1"].userId == "usr_1"
    && d.codes["cod_1"].shortCode == "promo" && d.codes["cod_1"].styling.id == "sty_1"
    && d.reservations.Keys == {"promo"} && d.reservations["promo"].codeId == "cod_1"
  }

  lemma PromoRow(id: string, dest: string, now: Time, drawn: string)
    ensures var r := RowOf(Recreated(Promo(id, dest)), now, drawn);
            r.id == id && r.shortCode == "promo" == Lower("promo") && r.userId == "usr_1" && r.state == Active
            && r.styling.id == drawn
  {
    PlainIsFolded("promo");
    hide Lower;
  }

  lemma PromoCreated(d: Tables, id: string, dest: string, now: Time, drawn: string)
    requires "usr_1" in d.users && id != "" && id !in d.codes && !Taken(d, "promo") && !StylingUsed(d, drawn)
    ensures var op := Op.CreateCodes(CodeRequest(Promo(id, dest), now, drawn));
            Succeeds(d, op) && Step(d, op) == Insert(d, RowOf(Recreated(Promo(id, dest)), now, drawn), now)
  {
    PromoRow(id, dest, now, drawn);
    hide Lower, RowOf, StylingUsed;
    var q := CodeRequest(Promo(id, dest), now, drawn);
    assert q.rows[0] == Recreated(Promo(id, dest)) && q.Row(0) == RowOf(q.rows[0], now, drawn);
    assert Admissible(d, q) && SchemaRow(d, q, 0);
    SingleStep(d, Recreated(Promo(id, dest)), now, drawn);
  }

  lemma ReuseFirst(driver: Driver)
    ensures Succeeds(Empty(driver), REUSE[0])
    ensures var d1 := Step(Empty(driver), REUSE[0]); Succeeds(d1, REUSE[1])
    ensures var d2 := Step(Step(Empty(driver), REUSE[0]), REUSE[1]);
            HasPromo(d2) && d2.codes["cod_1"].state == Active && d2.reservations["promo"].releasedAt.None?
  {
    hide Fold, RowOf;
    assert !EmailUsed(Empty(driver), "a@example.com");
    var d1 := Step(Empty(driver), REUSE[0]);
    assert d1.codes == map[] && d1.reservations == map[] && "usr_1" in d1.users;
    PromoRow("cod_1", "https://example.com/a", 2, "sty_1");
    PromoCreated(d1, "cod_1", "https://example.com/a", 2, "sty_1");
  }

  lemma ReuseMiddle(d: Tables)
    requires HasPromo(d) && d.codes["cod_1"].state == Active && d.reservations["promo"].releasedAt.None?
    ensures Succeeds(d, REUSE[2]) && Succeeds(Step(d, REUSE[2]), REUSE[3])
    ensures var d4 := Step(Step(d, REUSE[2]), REUSE[3]); HasPromo(d4) && !Taken(d4, "promo")
  {
    PlainIsFolded("promo");
    hide Lower;
    var d3 := Step(d, REUSE[2]);
    assert HasPromo(d3) && d3.codes["cod_1"].state == Deleted && d3.reservations == d.reservations;
  }

  lemma ReuseLast(d: Tables)
    requires HasPromo(d) && !Taken(d, "promo")
    ensures Succeeds(d, REUSE[4]) && !CodesDiffer(Step(d, REUSE[4]))
  {
    hide RowOf;
    PromoRow("cod_2", "https://example.com/b", 5, "sty_2");
    PromoCreated(d, "cod_2", "https://example.com/b", 5, "sty_2");
    var after := Step(d, REUSE[4]);
    assert after.codes["cod_1"].shortCode == after.codes["cod_2"].shortCode;
  }

  // Such stores are reached by ordinary operations, every one of which either driver accepts.
  lemma ReuseIsReachable(driver: Driver)
    ensures OpsOk(REUSE) && (forall i {:trigger REUSE[i]} :: 0 <= i < 5 ==> OpStamped(REUSE[i]))
    ensures forall i {:trigger REUSE[i]} :: 0 <= i < 5 ==> Succeeds(After(Empty(driver), REUSE, i), REUSE[i])
    ensures !Importable(driver, After(Empty(driver), REUSE, 5)) && !CodesDiffer(After(Empty(driver), REUSE, 5))
  {
    hide Succeeds, Step, CodesDiffer;
    ReuseStamped();
    AfterStart(Empty(driver), REUSE);
    AfterStep(Empty(driver), REUSE, 0);
    AfterStep(Empty(driver), REUSE, 1);
    AfterStep(Empty(driver), REUSE, 2);
    AfterStep(Empty(driver), REUSE, 3);
    AfterStep(Empty(driver), REUSE, 4);
    hide After;
    ReuseFirst(driver);
    ReuseMiddle(After(Empty(driver), REUSE, 2));
    ReuseLast(After(Empty(driver), REUSE, 4));
  }

  lemma ReuseStamped()
    ensures OpsOk(REUSE) && forall i {:trigger REUSE[i]} :: 0 <= i < 5 ==> OpStamped(REUSE[i])
  {
  }

  // ---- end to end ----

  // Write the archive of one store and read it into another, empty one, of whichever driver each is.
  method CopyStore(src: Store, srcScans: ScanStore, dst: Store, dstScans: ScanStore, tokensOf: string -> seq<string>,
                   a: Ambient)
    returns (err: Option<ImportError>)
    requires src.Valid() && Exportable(src.Db()) && TableOk(srcScans.rollups, src.Db().codes.Keys)
    requires dst.Valid() && dst.Db() == Empty(dst.Db().driver) && dstScans.Valid() && dstScans.rollups == map[]
    requires src.Repr() !! dst.Repr() && srcScans != dstScans
    modifies dst.Repr(), dstScans
    ensures err.None? <==> Importable(dst.Db().driver, src.Db())
    ensures src.Db() == old(src.Db()) && dst.Db().driver == old(dst.Db()).driver
    ensures err.None? ==> Rebuilt(src.Db(), dst.Db()) && dstScans.rollups == srcScans.rollups
    ensures dst.Valid() && dstScans.Valid()
  {
    hide Stamped, DeletionsDated, TableOk, Rebuilt, Importable, ReadAll, Covers, IsDump, Inv;
    StoreIsSound(src);
    var entries, o := Write(src, srcScans, tokensOf);
    RoundTrip(dst.Db().driver, src.Db(), srcScans.rollups, o, entries, a);
    err := Read(dst, dstScans, entries, false, a);
  }

  lemma StoreIsSound(st: Store)
    requires st.Valid()
    ensures Inv(st.Db())
  {
  }
}
