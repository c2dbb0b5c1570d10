// Replaying an archive through the public operations of a store.

module Imports {
  import opened Domain
  import opened Namespace
  import opened Drivers
  import opened Stores
  import opened Rollups
  import opened ScanStores
  import opened Archives

  datatype ImportError = NotEmpty | WrongVersion | NoManifest | RowRefused(refused: StoreError)
    | RollupRefused(reason: BatchError)

  // The import's own clock readings and random styling ids, one per row.
  datatype Ambient = Ambient(clock: nat -> Time, drawn: nat -> string)

  // What an import has made of the store so far; codeIds are the codes it created.
  datatype Target = Target(db: Tables, codeIds: set<string>, table: Table, sawManifest: bool)

  const FLUSH_EVERY := 500

  // ---- what each file does, row after row; None when a row is refused ----

  function UserOp(u: User, now: Time): Op { Op.CreateUser(u.(passwordHash := ""), now) }

  ghost function ImportUsers(db: Tables, rows: seq<User>, n: nat, a: Ambient): Option<Tables>
    requires n <= |rows|
    decreases n
  {
    if n == 0 then Some(db)
    else match ImportUsers(db, rows, n - 1, a)
      case None => None
      case Some(d) =>
        var op := UserOp(rows[n - 1], a.clock(n - 1));
        if Succeeds(d, op) then Some(Step(d, op)) else None
  }

  // A code is created as it was, a deleted one as disabled first.
  function Recreated(c: Code): Code {
    c.(mode := if c.mode == NoMode then Dynamic else c.mode, state := if c.state == Deleted then Disabled else c.state)
  }

  function CodeRequest(c: Code, now: Time, drawn: string): Request { Request([Recreated(c)], now, [drawn]) }

  ghost function ImportCode(db: Tables, c: Code, now: Time, drawn: string): Option<Tables> {
    var create := Op.CreateCodes(CodeRequest(c, now, drawn));
    if !Succeeds(db, create) then None
    else if c.state == Deleted then Some(Step(Step(db, create), Op.DeleteCode(c.id, c.userId, now)))
    else Some(Step(db, create))
  }

  ghost function ImportCodes(db: Tables, rows: seq<Code>, n: nat, a: Ambient): Option<Tables>
    requires n <= |rows|
    decreases n
  {
    if n == 0 then Some(db)
    else match ImportCodes(db, rows, n - 1, a)
      case None => None
      case Some(d) => ImportCode(d, rows[n - 1], a.clock(n - 1), a.drawn(n - 1))
  }

  // Only released reservations of codes in this archive are replayed.
  ghost function ImportReservation(db: Tables, r: LedgerRow, codeIds: set<string>, now: Time): Option<Tables> {
    if r.releasedAt.None? || r.codeId !in codeIds then Some(db)
    else if Succeeds(db, Op.ReleaseAlias(r.shortCode, now)) then Some(Step(db, Op.ReleaseAlias(r.shortCode, now)))
    else None
  }

  ghost function ImportReservations(db: Tables, rows: seq<LedgerRow>, n: nat, codeIds: set<string>,
                                    a: Ambient): Option<Tables>
    requires n <= |rows|
    decreases n
  {
    if n == 0 then Some(db)
    else match ImportReservations(db, rows, n - 1, codeIds, a)
      case None => None
      case Some(d) => ImportReservation(d, rows[n - 1], codeIds, a.clock(n - 1))
  }

  function Kept(rows: seq<RollupDelta>, codeIds: set<string>): seq<RollupDelta> {
    if rows == [] then []
    else Kept(rows[..|rows| - 1], codeIds)
         + (if rows[|rows| - 1].key.codeId in codeIds then [rows[|rows| - 1]] else [])
  }

  predicate WellFormed(d: RollupDelta, codes: set<string>) {
    d.key.codeId in codes && d.key.dim != "" && d.key.hour != NO_TIME
  }

  // As if all kept rows were inserted at once.
  ghost function ImportRollups(table: Table, codes: set<string>, rows: seq<RollupDelta>,
                               codeIds: set<string>): Option<Table> {
    if forall d :: d in Kept(rows, codeIds) ==> WellFormed(d, codes)
    then Some(Apply(table, AlignAll(Kept(rows, codeIds)))) else None
  }

  ghost function ReadEntry(t: Target, e: Entry, a: Ambient): Option<Target> {
    match e
    case Manifest(version, _) => if version == FORMAT_VERSION then Some(t.(sawManifest := true)) else None
    case Users(rows) => (match ImportUsers(t.db, rows, |rows|, a) case None => None case Some(d) => Some(t.(db := d)))
    case Codes(rows) =>
      (match ImportCodes(t.db, rows, |rows|, a)
       case None => None
       case Some(d) => Some(t.(db := d, codeIds := t.codeIds + set i | 0 <= i < |rows| :: rows[i].id)))
    case Reservations(rows) =>
      (match ImportReservations(t.db, rows, |rows|, t.codeIds, a) case None => None case Some(d) => Some(t.(db := d)))
    case ScanRollups(rows) =>
      (match ImportRollups(t.table, t.db.codes.Keys, rows, t.codeIds)
       case None => None
       case Some(m) => Some(t.(table := m)))
    case Tokens(_) => Some(t)
    case Other(_) => Some(t)
  }

  ghost function ReadAll(t: Target, entries: seq<Entry>, a: Ambient): Option<Target>
    decreases |entries|
  {
    if entries == [] then Some(t)
    else match ReadEntry(t, entries[0], a) case None => None case Some(u) => ReadAll(u, entries[1..], a)
  }

  // ---- the import itself ----

  method ReadUsers(st: Store, rows: seq<User>, a: Ambient) returns (err: Option<ImportError>)
    requires st.Valid()
    modifies st.Repr()
    ensures st.Valid()
    ensures match ImportUsers(old(st.Db()), rows, |rows|, a)
            case None => err.Some?
            case Some(d) => err.None? && st.Db() == d
  {
    hide Store.Valid, Store.Db, Refusal, Succeeds, Step;
    ghost var start := st.Db();
    for i := 0 to |rows|
      invariant st.Valid() && ImportUsers(start, rows, i, a) == Some(st.Db())
    {
      RefusedExactlyWhenFailing(st.Db(), UserOp(rows[i], a.clock(i)));
      var refused := st.CreateUser(rows[i].(passwordHash := ""), a.clock(i));
      if refused.Some? {
        UsersStayRefused(start, rows, i + 1, |rows|, a);
        return Some(RowRefused(refused.value));
      }
    }
    err := None;
  }

  lemma {:induction false} UsersStayRefused(db: Tables, rows: seq<User>, m: nat, n: nat, a: Ambient)
    requires m <= n <= |rows| && ImportUsers(db, rows, m, a).None?
    ensures ImportUsers(db, rows, n, a).None?
    decreases n
  {
    hide Succeeds, Step;
    if m < n {
      UsersStayRefused(db, rows, m, n - 1, a);
    }
  }

  method ReadCodes(st: Store, rows: seq<Code>, a: Ambient) returns (err: Option<ImportError>)
    requires st.Valid()
    modifies st.Repr()
    ensures st.Valid()
    ensures match ImportCodes(old(st.Db()), rows, |rows|, a)
            case None => err.Some?
            case Some(d) => err.None? && st.Db() == d
  {
    hide Store.Valid, Store.Db, ImportCode;
    ghost var start := st.Db();
    for i := 0 to |rows|
      invariant st.Valid() && ImportCodes(start, rows, i, a) == Some(st.Db())
    {
      err := ReadCode(st, rows[i], a.clock(i), a.drawn(i));
      if err.Some? {
        CodesStayRefused(start, rows, i + 1, |rows|, a);
        return;
      }
    }
    err := None;
  }

  method ReadCode(st: Store, row: Code, now: Time, drawn: string) returns (err: Option<ImportError>)
    requires st.Valid()
    modifies st.Repr()
    ensures st.Valid()
    ensures match ImportCode(old(st.Db()), row, now, drawn)
            case None => err.Some?
            case Some(d) => err.None? && st.Db() == d
  {
    hide Store.Valid, Store.Db, Succeeds, Step, Refusal;
    var c := row;
    if c.mode == NoMode {
      c := c.(mode := Dynamic);
    }
    var deleted := c.state == Deleted;
    if deleted {
      c := c.(state := Disabled);
    }
    assert c == Recreated(row);
    var q := Request([c], now, [drawn]);
    var refused := st.CreateCodes(q);
    if refused.Some? {
      return Some(RowRefused(refused.value));
    }
    if deleted {
      refused := st.DeleteCode(c.id, c.userId, now);
      NewRowDeletable(old(st.Db()), row, now, drawn);
    }
    err := None;
  }

  lemma CreatedRow(db: Tables, c: Code, now: Time, drawn: string)
    requires Succeeds(db, Op.CreateCodes(CodeRequest(c, now, drawn)))
    ensures Step(db, Op.CreateCodes(CodeRequest(c, now, drawn))) == Insert(db, RowOf(Recreated(c), now, drawn), now)
  {
    SingleStep(db, Recreated(c), now, drawn);
  }

  lemma NewRowDeletable(db: Tables, c: Code, now: Time, drawn: string)
    requires Succeeds(db, Op.CreateCodes(CodeRequest(c, now, drawn)))
    ensures Refusal(Step(db, Op.CreateCodes(CodeRequest(c, now, drawn))), Op.DeleteCode(c.id, c.userId, now)).None?
  {
    CreatedRow(db, c, now, drawn);
  }

  lemma {:induction false} CodesStayRefused(db: Tables, rows: seq<Code>, m: nat, n: nat, a: Ambient)
    requires m <= n <= |rows| && ImportCodes(db, rows, m, a).None?
    ensures ImportCodes(db, rows, n, a).None?
    decreases n
  {
    hide ImportCode;
    if m < n {
      CodesStayRefused(db, rows, m, n - 1, a);
    }
  }

  method ReadReservations(st: Store, rows: seq<LedgerRow>, codeIds: set<string>, a: Ambient)
    returns (err: Option<ImportError>)
    requires st.Valid()
    modifies st.Repr()
    ensures st.Valid()
    ensures match ImportReservations(old(st.Db()), rows, |rows|, codeIds, a)
            case None => err.Some?
            case Some(d) => err.None? && st.Db() == d
  {
    hide Store.Valid, Store.Db, Succeeds, Step, Refusal;
    ghost var start := st.Db();
    for i := 0 to |rows|
      invariant st.Valid() && ImportReservations(start, rows, i, codeIds, a) == Some(st.Db())
    {
      if rows[i].releasedAt.Some? && rows[i].codeId in codeIds {
        RefusedExactlyWhenFailing(st.Db(), Op.ReleaseAlias(rows[i].shortCode, a.clock(i)));
        var refused := st.ReleaseAlias(rows[i].shortCode, a.clock(i));
        if refused.Some? {
          ReservationsStayRefused(start, rows, i + 1, |rows|, codeIds, a);
          return Some(RowRefused(refused.value));
        }
      }
    }
    err := None;
  }

  lemma {:induction false} ReservationsStayRefused(db: Tables, rows: seq<LedgerRow>, m: nat, n: nat,
                                                   codeIds: set<string>, a: Ambient)
    requires m <= n <= |rows| && ImportReservations(db, rows, m, codeIds, a).None?
    ensures ImportReservations(db, rows, n, codeIds, a).None?
    decreases n
  {
    hide ImportReservation;
    if m < n {
      ReservationsStayRefused(db, rows, m, n - 1, codeIds, a);
    }
  }

  // Rows are collected and flushed 500 at a time; the chunks add up to one insertion of all kept rows.
  method ReadRollups(scans: ScanStore, rows: seq<RollupDelta>, codeIds: set<string>) returns (err: Option<ImportError>)
    requires scans.Valid()
    modifies scans`events, scans`nextSeq, scans`rollups
    ensures scans.Valid()
    ensures match ImportRollups(old(scans.rollups), scans.codeIds, rows, codeIds)
            case None => err.Some?
            case Some(t) => err.None? && scans.rollups == t
  {
    ghost var start := scans.rollups;
    ghost var done: seq<RollupDelta> := [];
    var batch: seq<RollupDelta> := [];
    assert AlignAll([]) == [];
    for i := 0 to |rows|
      invariant scans.Valid() && |batch| < FLUSH_EVERY
      invariant Kept(rows[..i], codeIds) == done + batch
      invariant scans.rollups == Apply(start, AlignAll(done))
      invariant forall d :: d in done ==> WellFormed(d, scans.codeIds)
    {
      assert rows[..i + 1][..i] == rows[..i];
      KeptPrefix(rows, i + 1, codeIds);
      if rows[i].key.codeId in codeIds {
        batch := batch + [rows[i]];
        assert Kept(rows[..i + 1], codeIds) == done + batch;
        if |batch| >= FLUSH_EVERY {
          err := FlushRollups(scans, batch, done, start);
          if err.Some? {
            return;
          }
          done := done + batch;
          batch := [];
        }
      }
    }
    assert rows[..|rows|] == rows;
    err := FlushRollups(scans, batch, done, start);
  }

  method FlushRollups(scans: ScanStore, batch: seq<RollupDelta>, ghost done: seq<RollupDelta>, ghost start: Table)
    returns (err: Option<ImportError>)
    requires scans.Valid() && scans.rollups == Apply(start, AlignAll(done))
    modifies scans`events, scans`nextSeq, scans`rollups
    ensures scans.Valid()
    ensures err.None? <==> forall d :: d in batch ==> WellFormed(d, scans.codeIds)
    ensures err.None? ==> scans.rollups == Apply(start, AlignAll(done + batch))
  {
    if |batch| == 0 {
      assert done + batch == done;
      return None;
    }
    assert scans.Persistable([], batch) <==> forall d :: d in batch ==> WellFormed(d, scans.codeIds) by {
      assert forall i :: 0 <= i < |batch| ==> batch[i] in batch;
    }
    var refused := scans.InsertScanBatch([], batch);
    if refused.Some? {
      return Some(RollupRefused(refused.value));
    }
    err := None;
    assert AlignAll(done + batch) == AlignAll(done) + AlignAll(batch);
    ApplyConcat(start, AlignAll(done), AlignAll(batch));
  }

  // What is kept of a prefix is kept of the whole.
  lemma {:induction false} KeptPrefix(rows: seq<RollupDelta>, n: nat, codeIds: set<string>)
    requires n <= |rows|
    ensures forall d :: d in Kept(rows[..n], codeIds) ==> d in Kept(rows, codeIds)
    decreases |rows|
  {
    if n < |rows| {
      assert rows[..|rows| - 1][..n] == rows[..n];
      KeptPrefix(rows[..|rows| - 1], n, codeIds);
    } else {
      assert rows[..n] == rows;
    }
  }

  // Files are recognised by name, in the order the archive holds them. The two halves of the store share its
  // code rows, so the analytics half learns of the codes created before the rollups arrive.
  method Read(st: Store, scans: ScanStore, entries: seq<Entry>, force: bool, a: Ambient)
    returns (err: Option<ImportError>)
    requires st.Valid() && scans.Valid()
    modifies st.Repr(), scans
    ensures st.Valid() && scans.Valid()
    ensures !force && |old(st.Db()).users| > 0 ==>
              err == Some(NotEmpty) && st.Db() == old(st.Db()) && scans.rollups == old(scans.rollups)
    ensures force || |old(st.Db()).users| == 0 ==>
              match ReadAll(Target(old(st.Db()), {}, old(scans.rollups), false), entries, a)
              case None => err.Some?
              case Some(t) =>
                st.Db() == t.db && scans.rollups == t.table && err == if t.sawManifest then None else Some(NoManifest)
  {
    hide Store.Valid, Store.Db, ImportUsers, ImportCodes, ImportReservations, ImportRollups;
    if !force && |st.Users()| > 0 {
      return Some(NotEmpty);
    }
    ghost var start := Target(st.Db(), {}, scans.rollups, false);
    var manifest := false;
    var codeIds: set<string> := {};
    for i := 0 to |entries|
      invariant st.Valid() && scans.Valid()
      invariant ReadAll(start, entries, a)
                == ReadAll(Target(st.Db(), codeIds, scans.rollups, manifest), entries[i..], a)
    {
      assert entries[i..][0] == entries[i] && entries[i..][1..] == entries[i + 1..];
      err := None;
      match entries[i] {
        case Manifest(version, _) =>
          if version != FORMAT_VERSION {
            return Some(WrongVersion);
          }
          manifest := true;
        case Users(rows) => err := ReadUsers(st, rows, a);
        case Codes(rows) =>
          err := ReadCodes(st, rows, a);
          codeIds := codeIds + set k | 0 <= k < |rows| :: rows[k].id;
        case Reservations(rows) => err := ReadReservations(st, rows, codeIds, a);
        case ScanRollups(rows) =>
          scans.codeIds := st.Codes().Keys;
          err := ReadRollups(scans, rows, codeIds);
        case Tokens(_) =>
        case Other(_) =>
      }
      if err.Some? {
        return;
      }
    }
    err := if manifest then None else Some(NoManifest);
  }
}
