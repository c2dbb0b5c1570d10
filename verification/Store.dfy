// Either store behind the operations an archive is written and replayed with.

module Stores {
  import opened Domain
  import opened Namespace
  import opened Drivers
  import opened MemStores
  import opened SqliteStores

  datatype Store = Maps(maps: MemStore) | Sqlite(tables: SqliteStore) {
    ghost function Repr(): set<object> { if Maps? then {maps} else {tables} }

    ghost function Db(): Tables
      reads Repr()
    {
      if Maps? then maps.Db() else tables.Db()
    }

    ghost predicate Valid()
      reads Repr()
    {
      if Maps? then maps.Valid() else tables.Valid()
    }

    function Users(): (r: map<string, User>)
      reads Repr()
      ensures r == Db().users
    {
      if Maps? then maps.users else tables.users
    }

    function Codes(): (r: map<string, Code>)
      reads Repr()
      ensures r == Db().codes
    {
      if Maps? then maps.codes else tables.codes
    }

    function Ledger(): (r: map<string, Reservation>)
      reads Repr()
      ensures r == Db().reservations
    {
      if Maps? then maps.reservations else tables.aliasReservations
    }

    method CreateUser(u: User, now: Time) returns (err: Option<StoreError>)
      requires Valid()
      modifies Repr()
      ensures Valid() && err == Refusal(old(Db()), Op.CreateUser(u, now))
      ensures Db() == Step(old(Db()), Op.CreateUser(u, now))
    {
      hide Inv, EmailIndex, CodeIndex, RefIndex, Refusal, Step;
      match this {
        case Maps(m) => err := m.CreateUser(u, now);
        case Sqlite(s) => err := s.CreateUser(u, now);
      }
    }

    // Which error is reported depends on the driver, whether there is one only on the store's rows.
    method CreateCodes(q: Request) returns (err: Option<StoreError>)
      requires Valid() && q.Ok()
      modifies Repr()
      ensures Valid() && (err.None? <==> Succeeds(old(Db()), Op.CreateCodes(q)))
      ensures Db() == Step(old(Db()), Op.CreateCodes(q))
    {
      hide Inv, EmailIndex, CodeIndex, RefIndex, Succeeds, Step, MapFault, SqlFault;
      DriverDecides(Db(), q);
      match this {
        case Maps(m) => err := m.CreateCodes(q);
        case Sqlite(s) => err := s.CreateCodes(q);
      }
    }

    method DeleteCode(id: string, userId: string, now: Time) returns (err: Option<StoreError>)
      requires Valid()
      modifies Repr()
      ensures Valid() && err == Refusal(old(Db()), Op.DeleteCode(id, userId, now))
      ensures Db() == Step(old(Db()), Op.DeleteCode(id, userId, now))
    {
      hide Inv, EmailIndex, CodeIndex, RefIndex, Refusal, Step;
      match this {
        case Maps(m) => err := m.DeleteCode(id, userId, now);
        case Sqlite(s) => err := s.DeleteCode(id, userId, now);
      }
    }

    method ReleaseAlias(alias: string, now: Time) returns (err: Option<StoreError>)
      requires Valid()
      modifies Repr()
      ensures Valid() && err == Refusal(old(Db()), Op.ReleaseAlias(alias, now))
      ensures Db() == Step(old(Db()), Op.ReleaseAlias(alias, now))
    {
      hide Inv, EmailIndex, CodeIndex, RefIndex, Refusal, Step;
      match this {
        case Maps(m) => err := m.ReleaseAlias(alias, now);
        case Sqlite(s) => err := s.ReleaseAlias(alias, now);
      }
    }
  }
}
