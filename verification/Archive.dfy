// The archive of a whole store, and writing one.

module Archives {
  import opened Domain
  import opened Namespace
  import opened Stores
  import opened Rollups
  import opened ScanStores
  import opened Sorting

  datatype LedgerRow = LedgerRow(shortCode: string, codeId: string, reservedAt: Time, releasedAt: Option<Time>)

  // The files of an archive, in the order they are met. Tokens are listed but carry no secret.
  datatype Entry =
    | Manifest(version: string, counts: map<string, nat>)
    | Users(users: seq<User>)
    | Tokens(tokens: seq<string>)
    | Codes(codes: seq<Code>)
    | Reservations(rows: seq<LedgerRow>)
    | ScanRollups(rollups: seq<RollupDelta>)
    | Other(name: string)

  const FORMAT_VERSION := "1"

  // The order in which the rows of each table were enumerated.
  datatype Order = Order(users: seq<string>, codes: seq<string>, ledger: seq<string>, rollups: seq<RollupKey>)

  ghost predicate Enumerates<K(!new)>(ks: seq<K>, dom: set<K>) { Distinct(ks) && forall k :: k in ks <==> k in dom }

  ghost predicate Covers(o: Order, db: Tables, table: Table) {
    && Enumerates(o.users, db.users.Keys) && Enumerates(o.codes, db.codes.Keys)
    && Enumerates(o.ledger, db.reservations.Keys) && Enumerates(o.rollups, table.Keys)
  }

  // A user is exported without the password hash.
  function ExportedUser(u: User): User { u.(passwordHash := "") }

  ghost function UserRows(users: map<string, User>, ks: seq<string>): (r: seq<User>)
    requires forall i :: 0 <= i < |ks| ==> ks[i] in users
    ensures |r| == |ks| && forall i :: 0 <= i < |ks| ==> r[i] == ExportedUser(users[ks[i]])
  {
    seq(|ks|, i requires 0 <= i < |ks| => ExportedUser(users[ks[i]]))
  }

  ghost function CodeRows(codes: map<string, Code>, ks: seq<string>): (r: seq<Code>)
    requires forall i :: 0 <= i < |ks| ==> ks[i] in codes
    ensures |r| == |ks| && forall i :: 0 <= i < |ks| ==> r[i] == codes[ks[i]]
  {
    seq(|ks|, i requires 0 <= i < |ks| => codes[ks[i]])
  }

  function LedgerRowOf(key: string, r: Reservation): LedgerRow { LedgerRow(key, r.codeId, r.reservedAt, r.releasedAt) }

  ghost function LedgerRows(ledger: map<string, Reservation>, ks: seq<string>): (r: seq<LedgerRow>)
    requires forall i :: 0 <= i < |ks| ==> ks[i] in ledger
    ensures |r| == |ks| && forall i :: 0 <= i < |ks| ==> r[i] == LedgerRowOf(ks[i], ledger[ks[i]])
  {
    seq(|ks|, i requires 0 <= i < |ks| => LedgerRowOf(ks[i], ledger[ks[i]]))
  }

  ghost function DeltaRows(table: Table, ks: seq<RollupKey>): (r: seq<RollupDelta>)
    requires forall i :: 0 <= i < |ks| ==> ks[i] in table
    ensures |r| == |ks| && forall i :: 0 <= i < |ks| ==> r[i] == RollupDelta(ks[i], table[ks[i]])
  {
    seq(|ks|, i requires 0 <= i < |ks| => RollupDelta(ks[i], table[ks[i]]))
  }

  // The archive of a store, row by row in the given order, with the row counts in its manifest.
  ghost predicate IsDump(entries: seq<Entry>, db: Tables, table: Table, o: Order)
    requires Covers(o, db, table)
  {
    && |entries| == 6
    && entries[2].Tokens?
    && entries[0] == Manifest(FORMAT_VERSION,
                              map["users" := |o.users|, "api_tokens" := |entries[2].tokens|, "codes" := |o.codes|,
                                                 "alias_reservations" := |o.ledger|, "scan_rollups" := |o.rollups|])
    && entries[1] == Users(UserRows(db.users, o.users))
    && entries[3] == Codes(CodeRows(db.codes, o.codes))
    && entries[4] == Reservations(LedgerRows(db.reservations, o.ledger))
    && entries[5] == ScanRollups(DeltaRows(table, o.rollups))
  }

  // The same rows field by field: accounts without their password hash, codes and rollups as they are, and the
  // ledger with its dates.
  ghost predicate SaysWhatIsThere(entries: seq<Entry>, db: Tables, table: Table, o: Order)
    requires Covers(o, db, table)
  {
    && |entries| == 6 && entries[0].Manifest? && entries[1].Users? && entries[2].Tokens? && entries[3].Codes?
    && entries[4].Reservations? && entries[5].ScanRollups?
    && |entries[1].users| == |o.users| && |entries[3].codes| == |o.codes|
    && |entries[4].rows| == |o.ledger| && |entries[5].rollups| == |o.rollups|
    && (forall i {:trigger o.users[i]} :: 0 <= i < |o.users| ==>
          var u, r := db.users[o.users[i]], entries[1].users[i];
          && r.id == u.id && r.email == u.email && r.isAdmin == u.isAdmin && r.tokenVersion == u.tokenVersion
          && r.source == u.source && r.createdAt == u.createdAt && r.lastLoginAt == u.lastLoginAt
          && r.passwordHash == "")
    && (forall i {:trigger o.codes[i]} :: 0 <= i < |o.codes| ==> entries[3].codes[i] == db.codes[o.codes[i]])
    && (forall i {:trigger o.ledger[i]} :: 0 <= i < |o.ledger| ==>
          var l, r := db.reservations[o.ledger[i]], entries[4].rows[i];
          && r.shortCode == o.ledger[i] && r.codeId == l.codeId
          && r.reservedAt == l.reservedAt && r.releasedAt == l.releasedAt)
    && (forall i {:trigger o.rollups[i]} :: 0 <= i < |o.rollups| ==>
          entries[5].rollups[i].key == o.rollups[i] && entries[5].rollups[i].count == table[o.rollups[i]])
    && entries[0].version == "1" && entries[0].counts.Keys
       == {"users", "api_tokens", "codes", "alias_reservations", "scan_rollups"}
    && entries[0].counts["users"] == |entries[1].users| && entries[0].counts["codes"] == |entries[3].codes|
    && entries[0].counts["alias_reservations"] == |entries[4].rows|
    && entries[0].counts["scan_rollups"] == |entries[5].rollups|
    && entries[0].counts["api_tokens"] == |entries[2].tokens|
  }

  lemma DumpSaysWhatIsThere(entries: seq<Entry>, db: Tables, table: Table, o: Order)
    requires Covers(o, db, table) && IsDump(entries, db, table, o)
    ensures SaysWhatIsThere(entries, db, table, o)
  {
  }

  // ---- walking a table in key order ----

  ghost predicate Linear<K(!new)>(less: (K, K) -> bool) {
    && (forall x, y {:trigger less(x, y)} :: x != y ==> less(x, y) || less(y, x))
    && (forall x, y, z {:trigger less(x, y), less(y, z)} :: less(x, y) && less(y, z) ==> less(x, z))
  }

  method InOrder<K(!new, ==)>(dom: set<K>, less: (K, K) -> bool) returns (ks: seq<K>)
    requires Linear(less)
    ensures Enumerates(ks, dom) && Ascending(less, ks)
  {
    ks := [];
    var rest := dom;
    while rest != {}
      invariant rest <= dom && Distinct(ks)
      invariant forall k :: k in ks <==> k in dom && k !in rest
      decreases rest
    {
      var k :| k in rest;
      ks := ks + [k];
      rest := rest - {k};
    }
    ghost var unsorted := ks;
    ks := Sort(ks, less);
    MultisetMembers(ks, unsorted);
    SortedStaysDistinct(ks, unsorted);
  }

  lemma SortedStaysDistinct<K(!new)>(a: seq<K>, b: seq<K>)
    requires multiset(a) == multiset(b) && Distinct(b)
    ensures Distinct(a)
  {
    DistinctCounts(b);
    forall i, j | 0 <= i < j < |a| ensures a[i] != a[j] {
      assert a == a[..j] + ([a[j]] + a[j + 1..]);
      assert a[i] in a[..j];
      assert multiset(a)[a[j]] == multiset(a[..j])[a[j]] + multiset([a[j]] + a[j + 1..])[a[j]];
    }
  }

  lemma {:induction false} DistinctCounts<K(!new)>(b: seq<K>)
    requires Distinct(b)
    ensures forall k :: multiset(b)[k] <= 1
    decreases |b|
  {
    if b != [] {
      var head, last := b[..|b| - 1], b[|b| - 1];
      DistinctCounts(head);
      assert b == head + [last];
      assert last !in head;
      assert multiset(head)[last] == 0;
    }
  }

  lemma KeysAreLinear()
    ensures Linear(Less) && Linear(KeyLess)
  {
    forall x, y | x != y ensures Less(x, y) || Less(y, x) {
      LessTotal(x, y);
    }
    forall x, y, z | Less(x, y) && Less(y, z) ensures Less(x, z) {
      LessTransitive(x, y, z);
    }
    forall x, y | x != y ensures KeyLess(x, y) || KeyLess(y, x) {
      KeyLessTotal(x, y);
    }
    forall x, y, z | KeyLess(x, y) && KeyLess(y, z) ensures KeyLess(x, z) {
      KeyLessTransitive(x, y, z);
    }
  }

  // ---- writing ----

  // One table after the other, row by row, counting; the manifest is written last and read first.
  method Write(st: Store, scans: ScanStore, tokensOf: string -> seq<string>) returns (entries: seq<Entry>, o: Order)
    ensures Covers(o, st.Db(), scans.rollups) && IsDump(entries, st.Db(), scans.rollups, o)
    ensures SaysWhatIsThere(entries, st.Db(), scans.rollups, o)
    ensures Ascending(Less, o.users) && Ascending(Less, o.codes) && Ascending(Less, o.ledger)
    ensures Ascending(KeyLess, o.rollups)
  {
    hide IsDump, SaysWhatIsThere, Less, KeyLess;
    entries, o := WriteTables(st.Users(), st.Codes(), st.Ledger(), scans.rollups, tokensOf, st.Db());
    DumpSaysWhatIsThere(entries, st.Db(), scans.rollups, o);
  }

  method WriteTables(users: map<string, User>, codes: map<string, Code>, ledger: map<string, Reservation>, table: Table,
                     tokensOf: string -> seq<string>, ghost db: Tables)
    returns (entries: seq<Entry>, o: Order)
    requires db.users == users && db.codes == codes && db.reservations == ledger
    ensures Covers(o, db, table) && IsDump(entries, db, table, o)
    ensures Ascending(Less, o.users) && Ascending(Less, o.codes) && Ascending(Less, o.ledger)
    ensures Ascending(KeyLess, o.rollups)
  {
    KeysAreLinear();
    hide Less, KeyLess, Linear, Ascending;
    var userIds := InOrder(users.Keys, Less);
    var codeIds := InOrder(codes.Keys, Less);
    var keys := InOrder(ledger.Keys, Less);
    var rollupKeys := InOrder(table.Keys, KeyLess);
    o := Order(userIds, codeIds, keys, rollupKeys);
    var userRows, tokens := WriteUsers(users, userIds, tokensOf);
    var codeRows := WriteCodes(codes, codeIds);
    var ledgerRows := WriteLedger(ledger, keys);
    var rollups := WriteRollups(table, rollupKeys);
    var counts: map<string, nat> := map["users" := |userRows|, "api_tokens" := |tokens|, "codes" := |codeRows|,
                                        "alias_reservations" := |ledgerRows|, "scan_rollups" := |rollups|];
    entries := [Manifest(FORMAT_VERSION, counts), Users(userRows), Tokens(tokens), Codes(codeRows),
                Reservations(ledgerRows), ScanRollups(rollups)];
  }

  method WriteUsers(users: map<string, User>, ids: seq<string>, tokensOf: string -> seq<string>)
    returns (rows: seq<User>, tokens: seq<string>)
    requires forall i :: 0 <= i < |ids| ==> ids[i] in users
    ensures rows == UserRows(users, ids)
  {
    rows, tokens := [], [];
    for i := 0 to |ids|
      invariant rows == UserRows(users, ids)[..i]
    {
      rows, tokens := rows + [ExportedUser(users[ids[i]])], tokens + tokensOf(ids[i]);
    }
  }

  method WriteCodes(codes: map<string, Code>, ids: seq<string>) returns (rows: seq<Code>)
    requires forall i :: 0 <= i < |ids| ==> ids[i] in codes
    ensures rows == CodeRows(codes, ids)
  {
    rows := [];
    for i := 0 to |ids|
      invariant rows == CodeRows(codes, ids)[..i]
    {
      rows := rows + [codes[ids[i]]];
    }
  }

  method WriteLedger(ledger: map<string, Reservation>, keys: seq<string>) returns (rows: seq<LedgerRow>)
    requires forall i :: 0 <= i < |keys| ==> keys[i] in ledger
    ensures rows == LedgerRows(ledger, keys)
  {
    rows := [];
    for i := 0 to |keys|
      invariant rows == LedgerRows(ledger, keys)[..i]
    {
      rows := rows + [LedgerRowOf(keys[i], ledger[keys[i]])];
    }
  }

  method WriteRollups(table: Table, keys: seq<RollupKey>) returns (rows: seq<RollupDelta>)
    requires forall i :: 0 <= i < |keys| ==> keys[i] in table
    ensures rows == DeltaRows(table, keys)
  {
    rows := [];
    for i := 0 to |keys|
      invariant rows == DeltaRows(table, keys)[..i]
    {
      rows := rows + [RollupDelta(keys[i], table[keys[i]])];
    }
  }
}
