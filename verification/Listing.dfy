// Keyset pagination: newest first, a page at a time, while other callers create, edit and delete.

module Listing {
  import opened Domain
  import opened Namespace
  import opened Sorting

  datatype Position = Position(createdAt: Time, id: string)

  // The driver decides how destinations are compared.
  datatype Filter = Filter(
    driver: Driver, userId: string, createdAfter: Option<Time>, createdBefore: Option<Time>, destination: string,
    limit: int, cursor: Option<Position>)

  datatype Page = Page(rows: seq<Code>, next: Option<Position>)

  const DEFAULT_LIMIT := 50

  function PositionOf(c: Code): Position { Position(c.createdAt, c.id) }

  // The listing order: newer first, ties broken by the greater id.
  predicate Before(p: Position, q: Position) {
    p.createdAt > q.createdAt || (p.createdAt == q.createdAt && Less(q.id, p.id))
  }

  predicate ListedBefore(c: Code, d: Code) { Before(PositionOf(c), PositionOf(d)) }

  predicate Contains(s: string, part: string) {
    part <= s || (s != "" && Contains(s[1..], part))
  }

  // The rows a listing with this filter is about, wherever its cursor stands.
  predicate Listed(c: Code, f: Filter) {
    && c.userId == f.userId && c.state != Deleted
    && (f.createdAfter.Some? ==> c.createdAt > f.createdAfter.value)
    && (f.createdBefore.Some? ==> c.createdAt < f.createdBefore.value)
    && (f.destination != "" ==> Contains(Fold(f.driver, c.destination), Fold(f.driver, f.destination)))
  }

  predicate Selected(c: Code, f: Filter) {
    Listed(c, f) && (f.cursor.Some? ==> Before(f.cursor.value, PositionOf(c)))
  }

  lemma {:induction false} ContainsLowered(s: string, part: string)
    requires Contains(s, part)
    ensures Contains(Lower(s), Lower(part))
    decreases |s|
  {
    if part <= s {
      assert Lower(part) == Lower(s)[..|part|];
    } else {
      ContainsLowered(s[1..], part);
      assert Lower(s)[1..] == Lower(s[1..]);
    }
  }

  // What the relational store lists the map store lists as well.
  lemma RelationalListsNoMore(c: Code, f: Filter)
    requires Listed(c, f.(driver := Relational))
    ensures Listed(c, f.(driver := MapStore))
  {
    if f.destination != "" {
      ContainsLowered(AsciiLower(c.destination), AsciiLower(f.destination));
      FoldsAgree(c.destination);
      FoldsAgree(f.destination);
    }
  }

  function Limit(f: Filter): (n: nat)
    ensures n > 0
  {
    if f.limit <= 0 then DEFAULT_LIMIT else f.limit
  }

  // A page holds the first selected rows in order; the cursor of the next page is its last row, and there is
  // one exactly when rows were left over.
  ghost predicate IsPage(codes: map<string, Code>, f: Filter, p: Page) {
    && (forall c :: c in p.rows ==> c.id in codes && codes[c.id] == c && Selected(c, f))
    && Ascending(ListedBefore, p.rows)
    && |p.rows| <= Limit(f)
    && (forall id :: id in codes && Selected(codes[id], f) ==>
          codes[id] in p.rows || (p.next.Some? && Before(p.next.value, PositionOf(codes[id]))))
    && (p.next.Some? ==> |p.rows| == Limit(f) && p.next.value == PositionOf(p.rows[|p.rows| - 1])
                         && exists id :: id in codes && Selected(codes[id], f) && codes[id] !in p.rows)
  }

  // ---- what a page shows, told from the rows' own fields ----

  // Newer rows come first, and of rows of one moment those with the greater id.
  ghost predicate Newer(createdAt: Time, id: string, c: Code) {
    createdAt > c.createdAt || (createdAt == c.createdAt && Less(c.id, id))
  }

  // The user's own, not deleted, created strictly between the bounds, with the text somewhere in the destination,
  // and older than where the last page ended.
  ghost predicate Wanted(c: Code, f: Filter) {
    && c.userId == f.userId && c.state != Deleted
    && (f.createdAfter.Some? ==> f.createdAfter.value < c.createdAt)
    && (f.createdBefore.Some? ==> c.createdAt < f.createdBefore.value)
    && (f.destination != "" ==> HasText(f.driver, c.destination, f.destination))
    && (f.cursor.Some? ==> Newer(f.cursor.value.createdAt, f.cursor.value.id, c))
  }

  ghost predicate HasText(driver: Driver, s: string, part: string) { exists i: nat :: TextAt(driver, s, part, i) }

  // From position i on, the text reads the part, as the driver compares texts.
  ghost predicate TextAt(driver: Driver, s: string, part: string, i: nat) {
    i + |part| <= |s| && Fold(driver, s[i..i + |part|]) == Fold(driver, part)
  }

  ghost predicate PartAt(s: string, part: string, i: nat) { i + |part| <= |s| && s[i..i + |part|] == part }

  lemma {:induction false} ContainsMeans(s: string, part: string)
    ensures Contains(s, part) <==> exists i: nat :: PartAt(s, part, i)
    decreases |s|
  {
    if part <= s {
      assert PartAt(s, part, 0);
    } else if s != "" {
      ContainsMeans(s[1..], part);
      if i: nat :| PartAt(s[1..], part, i) {
        assert PartAt(s, part, i + 1);
      }
      if i: nat :| PartAt(s, part, i) {
        assert i > 0 && PartAt(s[1..], part, i - 1);
      }
    }
  }

  lemma PartOfFolded(driver: Driver, s: string, part: string, i: nat)
    ensures PartAt(Fold(driver, s), Fold(driver, part), i) <==> TextAt(driver, s, part, i)
  {
    if i + |part| <= |s| {
      assert Fold(driver, s)[i..i + |part|] == Fold(driver, s[i..i + |part|]);
    }
  }

  lemma SelectedMeans(c: Code, f: Filter)
    ensures Selected(c, f) <==> Wanted(c, f)
  {
    hide Less, Fold, Contains, PartAt, TextAt;
    ContainsMeans(Fold(f.driver, c.destination), Fold(f.driver, f.destination));
    forall i: nat
      ensures PartAt(Fold(f.driver, c.destination), Fold(f.driver, f.destination), i)
              <==> TextAt(f.driver, c.destination, f.destination, i) {
      PartOfFolded(f.driver, c.destination, f.destination, i);
    }
  }

  lemma PageMeans(codes: map<string, Code>, f: Filter, p: Page)
    requires IsPage(codes, f, p)
    ensures forall c :: c in p.rows ==> c.id in codes && codes[c.id] == c && Wanted(c, f)
    ensures forall i, j :: 0 <= i < j < |p.rows| ==> Newer(p.rows[i].createdAt, p.rows[i].id, p.rows[j])
    ensures |p.rows| <= if f.limit <= 0 then 50 else f.limit
    ensures forall id :: id in codes && Wanted(codes[id], f) ==>
              codes[id] in p.rows || (p.next.Some? && Newer(p.next.value.createdAt, p.next.value.id, codes[id]))
    ensures p.next.Some? ==>
              && |p.rows| == (if f.limit <= 0 then 50 else f.limit)
              && p.next.value.createdAt == p.rows[|p.rows| - 1].createdAt
              && p.next.value.id == p.rows[|p.rows| - 1].id
              && exists id :: id in codes && Wanted(codes[id], f) && codes[id] !in p.rows
  {
    hide Wanted, Selected, Less;
    forall c ensures Selected(c, f) <==> Wanted(c, f) {
      SelectedMeans(c, f);
    }
    forall i, j | 0 <= i < j < |p.rows| ensures Newer(p.rows[i].createdAt, p.rows[i].id, p.rows[j]) {
      assert ListedBefore(p.rows[i], p.rows[j]);
    }
  }

  // ---- the order ----

  lemma BeforeTotal(p: Position, q: Position)
    ensures p == q || Before(p, q) || Before(q, p)
  {
    LessTotal(p.id, q.id);
  }

  lemma BeforeTransitive(p: Position, q: Position, r: Position)
    requires Before(p, q) && Before(q, r)
    ensures Before(p, r)
  {
    if Less(q.id, p.id) && Less(r.id, q.id) {
      LessTransitive(r.id, q.id, p.id);
    }
  }

  lemma BeforeIrreflexive(p: Position)
    ensures !Before(p, p)
  {
    LessAsymmetric(p.id, p.id);
  }

  lemma RowsSortable(codes: map<string, Code>, rows: seq<Code>)
    requires forall c :: c in rows ==> c.id in codes && codes[c.id] == c
    ensures Total(ListedBefore, rows) && Transitive(ListedBefore, rows)
  {
    forall x, y | x in rows && y in rows && x != y ensures ListedBefore(x, y) || ListedBefore(y, x) {
      BeforeTotal(PositionOf(x), PositionOf(y));
    }
    forall x, y, z | x in rows && y in rows && z in rows && ListedBefore(x, y) && ListedBefore(y, z)
      ensures ListedBefore(x, z) {
      BeforeTransitive(PositionOf(x), PositionOf(y), PositionOf(z));
    }
  }

  // ---- producing one page ----

  method SelectRows(codes: map<string, Code>, f: Filter) returns (rows: seq<Code>)
    requires RowsOk(codes)
    ensures forall c :: c in rows ==> c.id in codes && codes[c.id] == c && Selected(c, f)
    ensures forall id :: id in codes && Selected(codes[id], f) ==> codes[id] in rows
    ensures Distinct(rows)
  {
    hide Selected;
    rows := [];
    var rest := codes.Keys;
    while rest != {}
      invariant rest <= codes.Keys
      invariant forall c :: c in rows ==> c.id in codes && c.id !in rest && codes[c.id] == c && Selected(c, f)
      invariant forall id :: id in codes && id !in rest && Selected(codes[id], f) ==> codes[id] in rows
      invariant Distinct(rows)
      decreases rest
    {
      var id :| id in rest;
      assert RowOk(id, codes[id]);
      if Selected(codes[id], f) {
        rows := rows + [codes[id]];
      }
      rest := rest - {id};
    }
  }

  // Scan the rows, keep the selected ones, sort, cut to the limit and name the last row as the cursor.
  method ListPage(codes: map<string, Code>, f: Filter) returns (p: Page)
    requires RowsOk(codes)
    ensures IsPage(codes, f, p)
    ensures forall c :: c in p.rows ==> c.id in codes && codes[c.id] == c && Wanted(c, f)
    ensures forall i, j :: 0 <= i < j < |p.rows| ==> Newer(p.rows[i].createdAt, p.rows[i].id, p.rows[j])
    ensures |p.rows| <= if f.limit <= 0 then 50 else f.limit
    ensures forall id :: id in codes && Wanted(codes[id], f) ==>
              codes[id] in p.rows || (p.next.Some? && Newer(p.next.value.createdAt, p.next.value.id, codes[id]))
    ensures p.next.Some? ==>
              && |p.rows| == (if f.limit <= 0 then 50 else f.limit)
              && p.next.value.createdAt == p.rows[|p.rows| - 1].createdAt
              && p.next.value.id == p.rows[|p.rows| - 1].id
              && exists id :: id in codes && Wanted(codes[id], f) && codes[id] !in p.rows
  {
    hide Selected, ListedBefore, IsPage, Ascending, Distinct, Cut, Wanted, Newer;
    var rows := SelectRows(codes, f);
    RowsSortable(codes, rows);
    var sorted := Sort(rows, ListedBefore);
    MultisetMembers(sorted, rows);
    p := Cut(sorted, Limit(f));
    CutIsPage(codes, f, sorted, p);
    PageMeans(codes, f, p);
  }

  function Cut(sorted: seq<Code>, limit: nat): Page
    requires limit > 0
  {
    if |sorted| > limit then Page(sorted[..limit], Some(PositionOf(sorted[limit - 1]))) else Page(sorted, None)
  }

  lemma CutIsPage(codes: map<string, Code>, f: Filter, sorted: seq<Code>, p: Page)
    requires RowsOk(codes) && Ascending(ListedBefore, sorted) && p == Cut(sorted, Limit(f))
    requires forall c :: c in sorted ==> c.id in codes && codes[c.id] == c && Selected(c, f)
    requires forall id :: id in codes && Selected(codes[id], f) ==> codes[id] in sorted
    ensures IsPage(codes, f, p)
  {
    var n := Limit(f);
    if |sorted| > n {
      forall id | id in codes && Selected(codes[id], f)
        ensures codes[id] in p.rows || Before(p.next.value, PositionOf(codes[id]))
      {
        var i :| 0 <= i < |sorted| && sorted[i] == codes[id];
        if i < n {
          assert p.rows[i] == codes[id];
        } else {
          assert ListedBefore(sorted[n - 1], sorted[i]);
        }
      }
      assert sorted[n] in sorted;
      if sorted[n] in p.rows {
        var i :| 0 <= i < n && sorted[i] == sorted[n];
        assert ListedBefore(sorted[i], sorted[n]);
        BeforeIrreflexive(PositionOf(sorted[n]));
      }
      assert Selected(codes[sorted[n].id], f);
    }
  }

  // ---- walking all pages while the store changes ----

  // stores[i] is the store page i was read from; each page starts where the one before it ended, and the
  // store only evolves in between.
  ghost predicate Walk(stores: seq<Tables>, f: Filter, pages: seq<Page>) {
    && |stores| == |pages| && f.cursor.None?
    && (forall i {:trigger pages[i]} :: 0 <= i < |pages| ==>
          IsPage(stores[i].codes, f.(cursor := CursorAt(pages, i)), pages[i]))
    && (forall i {:trigger pages[i]} :: 0 <= i < |pages| - 1 ==> pages[i].next.Some?)
    && (forall i {:trigger stores[i]} :: 0 < i < |stores| ==> Evolves(stores[i - 1], stores[i]))
  }

  function CursorAt(pages: seq<Page>, i: nat): Option<Position>
    requires i <= |pages|
  {
    if i == 0 then None else pages[i - 1].next
  }

  function AllRows(pages: seq<Page>, n: nat): seq<Code>
    requires n <= |pages|
  {
    if n == 0 then [] else AllRows(pages, n - 1) + pages[n - 1].rows
  }

  lemma WalkShape(stores: seq<Tables>, f: Filter, pages: seq<Page>)
    requires Walk(stores, f, pages)
    ensures |stores| == |pages|
  {
  }

  lemma PageOfWalk(stores: seq<Tables>, f: Filter, pages: seq<Page>, i: nat)
    requires Walk(stores, f, pages) && i < |pages|
    ensures IsPage(stores[i].codes, f.(cursor := CursorAt(pages, i)), pages[i])
    ensures i < |pages| - 1 ==> pages[i].next.Some?
    ensures i > 0 ==> CursorAt(pages, i).Some?
  {
    hide IsPage, Evolves;
    if i > 0 {
      assert pages[i - 1].next.Some?;
    }
  }

  // What a page promises about its own rows.
  lemma PageRows(codes: map<string, Code>, f: Filter, p: Page)
    requires IsPage(codes, f, p)
    ensures Ascending(ListedBefore, p.rows)
    ensures forall j :: 0 <= j < |p.rows| ==> p.rows[j].id in codes && codes[p.rows[j].id] == p.rows[j]
    ensures f.cursor.Some? ==> forall j :: 0 <= j < |p.rows| ==> Before(f.cursor.value, PositionOf(p.rows[j]))
    ensures p.next.Some? ==> p.rows != [] && p.next.value == PositionOf(p.rows[|p.rows| - 1])
  {
    assert forall j :: 0 <= j < |p.rows| ==> p.rows[j] in p.rows;
    assert forall j :: 0 <= j < |p.rows| ==> Selected(p.rows[j], f);
    hide Ascending;
  }

  // A listed row ahead of the cursor is on the page or ahead of the next cursor.
  lemma PageVisits(codes: map<string, Code>, f: Filter, p: Page, id: string)
    requires IsPage(codes, f, p) && id in codes && Selected(codes[id], f)
    ensures codes[id] in p.rows || (p.next.Some? && Before(p.next.value, PositionOf(codes[id])))
  {
  }

  // The pages read so far are one strictly descending list that ends at the cursor.
  lemma {:induction false} WalkDescends(stores: seq<Tables>, f: Filter, pages: seq<Page>, n: nat)
    requires Walk(stores, f, pages) && n <= |pages|
    ensures Ascending(ListedBefore, AllRows(pages, n))
    ensures 0 < n < |pages| ==> EndsAt(AllRows(pages, n), CursorAt(pages, n))
    decreases n
  {
    hide Walk, IsPage, Ascending, EndsAt;
    WalkShape(stores, f, pages);
    if n == 0 {
      EmptyAscends();
    } else {
      WalkDescends(stores, f, pages, n - 1);
      PageOfWalk(stores, f, pages, n - 1);
      PageRows(stores[n - 1].codes, f.(cursor := CursorAt(pages, n - 1)), pages[n - 1]);
      ExtendDescent(AllRows(pages, n - 1), CursorAt(pages, n - 1), pages[n - 1]) by {
        if n == 1 {
          assert AllRows(pages, 0) == [];
        }
      }
    }
  }

  lemma EmptyAscends()
    ensures Ascending(ListedBefore, [])
  {
  }

  ghost predicate EndsAt(rows: seq<Code>, cursor: Option<Position>) {
    rows != [] && cursor == Some(PositionOf(rows[|rows| - 1]))
  }

  lemma ExtendDescent(done: seq<Code>, cursor: Option<Position>, page: Page)
    requires Ascending(ListedBefore, done) && Ascending(ListedBefore, page.rows)
    requires done != [] ==> EndsAt(done, cursor)
    requires cursor.Some? ==> forall j :: 0 <= j < |page.rows| ==> Before(cursor.value, PositionOf(page.rows[j]))
    requires page.next.Some? ==> page.rows != [] && page.next.value == PositionOf(page.rows[|page.rows| - 1])
    ensures Ascending(ListedBefore, done + page.rows)
    ensures page.next.Some? ==> EndsAt(done + page.rows, page.next)
  {
    forall i, j | 0 <= i < |done| && 0 <= j < |page.rows| ensures ListedBefore(done[i], page.rows[j]) {
      var last := done[|done| - 1];
      if i < |done| - 1 {
        assert ListedBefore(done[i], last);
        BeforeTransitive(PositionOf(done[i]), PositionOf(last), PositionOf(page.rows[j]));
      }
    }
    AscendingConcat(done, page.rows);
  }

  lemma AscendingConcat(a: seq<Code>, b: seq<Code>)
    requires Ascending(ListedBefore, a) && Ascending(ListedBefore, b)
    requires forall i, j :: 0 <= i < |a| && 0 <= j < |b| ==> ListedBefore(a[i], b[j])
    ensures Ascending(ListedBefore, a + b)
  {
    hide ListedBefore;
    var s := a + b;
    forall i, j | 0 <= i < j < |s| ensures ListedBefore(s[i], s[j]) {
      if i < |a| <= j {
        assert ListedBefore(a[i], b[j - |a|]);
      } else if |a| <= i {
        assert ListedBefore(b[i - |a|], b[j - |a|]);
      } else {
        assert ListedBefore(a[i], a[j]);
      }
    }
  }

  // The row is there, matches and keeps its place, in every store of the walk.
  ghost predicate StaysListed(stores: seq<Tables>, f: Filter, at: Position) {
    forall i {:trigger stores[i]} :: 0 <= i < |stores| ==>
      at.id in stores[i].codes && Listed(stores[i].codes[at.id], f) && PositionOf(stores[i].codes[at.id]) == at
  }

  ghost predicate Visited(rows: seq<Code>, id: string) { exists k :: 0 <= k < |rows| && rows[k].id == id }

  lemma VisitedGrows(a: seq<Code>, b: seq<Code>, id: string)
    requires Visited(a, id) || Visited(b, id)
    ensures Visited(a + b, id)
  {
    if k :| 0 <= k < |a| && a[k].id == id {
      assert (a + b)[k].id == id;
    } else {
      var k :| 0 <= k < |b| && b[k].id == id;
      assert (a + b)[|a| + k].id == id;
    }
  }

  // One page: a listed row ahead of its cursor is on it, or ahead of where it ends.
  lemma PageAdvances(codes: map<string, Code>, f: Filter, cursor: Option<Position>, p: Page, at: Position)
    requires IsPage(codes, f.(cursor := cursor), p)
    requires at.id in codes && Listed(codes[at.id], f) && PositionOf(codes[at.id]) == at
    requires cursor.Some? ==> Before(cursor.value, at)
    ensures Visited(p.rows, at.id) || (p.next.Some? && Before(p.next.value, at))
  {
    var row := codes[at.id];
    assert Selected(row, f.(cursor := cursor)) by {
      hide IsPage;
    }
    PageVisits(codes, f.(cursor := cursor), p, at.id);
    hide IsPage;
    if row in p.rows {
      var k :| 0 <= k < |p.rows| && p.rows[k] == row;
      assert p.rows[k].id == at.id;
    }
  }

  // Before the walk ends, a row that stays listed has been visited or still lies ahead of the cursor.
  lemma {:induction false} VisitedOrAhead(stores: seq<Tables>, f: Filter, pages: seq<Page>, n: nat, at: Position)
    requires Walk(stores, f, pages) && n <= |pages| && StaysListed(stores, f, at)
    ensures Visited(AllRows(pages, n), at.id) || n == 0
            || (CursorAt(pages, n).Some? && Before(CursorAt(pages, n).value, at))
    decreases n
  {
    hide Walk, IsPage, Visited, Listed, StaysListed, Before, PositionOf;
    if n > 0 {
      VisitedOrAhead(stores, f, pages, n - 1, at);
      WalkShape(stores, f, pages);
      StaysListedAt(stores, f, at, n - 1);
      PageOfWalk(stores, f, pages, n - 1);
      if Visited(AllRows(pages, n - 1), at.id) {
        VisitedGrows(AllRows(pages, n - 1), pages[n - 1].rows, at.id);
      } else {
        PageAdvances(stores[n - 1].codes, f, CursorAt(pages, n - 1), pages[n - 1], at);
        if Visited(pages[n - 1].rows, at.id) {
          VisitedGrows(AllRows(pages, n - 1), pages[n - 1].rows, at.id);
        }
      }
    }
  }

  lemma StaysListedAt(stores: seq<Tables>, f: Filter, at: Position, i: nat)
    requires StaysListed(stores, f, at) && i < |stores|
    ensures at.id in stores[i].codes && Listed(stores[i].codes[at.id], f) && PositionOf(stores[i].codes[at.id]) == at
  {
  }

  lemma DescentMeans(rows: seq<Code>)
    requires Ascending(ListedBefore, rows)
    ensures forall i, j :: 0 <= i < j < |rows| ==> Newer(rows[i].createdAt, rows[i].id, rows[j])
  {
    forall i, j | 0 <= i < j < |rows| ensures Newer(rows[i].createdAt, rows[i].id, rows[j]) {
      assert ListedBefore(rows[i], rows[j]);
    }
  }

  // A finished walk: strictly descending, newest first, and every code that was there and matched the filter from the
  // first page to the last has been visited.
  lemma FullWalkVisitsAll(stores: seq<Tables>, f: Filter, pages: seq<Page>, at: Position)
    requires Walk(stores, f, pages) && |pages| > 0 && pages[|pages| - 1].next.None?
    requires StaysListed(stores, f, at)
    ensures Ascending(ListedBefore, AllRows(pages, |pages|))
    ensures forall i, j {:trigger AllRows(pages, |pages|)[i], AllRows(pages, |pages|)[j]} ::
              0 <= i < j < |AllRows(pages, |pages|)| ==>
                Newer(AllRows(pages, |pages|)[i].createdAt, AllRows(pages, |pages|)[i].id, AllRows(pages, |pages|)[j])
    ensures Visited(AllRows(pages, |pages|), at.id)
  {
    hide Walk, StaysListed, Visited, Ascending, AllRows;
    WalkDescends(stores, f, pages, |pages|);
    DescentMeans(AllRows(pages, |pages|));
    VisitedOrAhead(stores, f, pages, |pages|, at);
  }

  ghost predicate StoredAt(stores: seq<Tables>, i: nat, c: Code) {
    i < |stores| && c.id in stores[i].codes && stores[i].codes[c.id] == c
  }

  lemma {:induction false} WalkRowsAreStored(stores: seq<Tables>, f: Filter, pages: seq<Page>, n: nat, k: nat)
    returns (i: nat)
    requires Walk(stores, f, pages) && n <= |pages| && k < |AllRows(pages, n)|
    ensures StoredAt(stores, i, AllRows(pages, n)[k])
    decreases n
  {
    hide Walk, IsPage;
    WalkShape(stores, f, pages);
    if k < |AllRows(pages, n - 1)| {
      i := WalkRowsAreStored(stores, f, pages, n - 1, k);
    } else {
      i := n - 1;
      PageOfWalk(stores, f, pages, n - 1);
      PageRows(stores[n - 1].codes, f.(cursor := CursorAt(pages, n - 1)), pages[n - 1]);
    }
  }

  lemma {:induction false} StoresEvolve(stores: seq<Tables>, f: Filter, pages: seq<Page>, i: nat, j: nat)
    requires Walk(stores, f, pages) && i < j < |stores|
    ensures Evolves(stores[i], stores[j])
    decreases j
  {
    hide Evolves, IsPage;
    assert Evolves(stores[j - 1], stores[j]);
    if i < j - 1 {
      StoresEvolve(stores, f, pages, i, j - 1);
      EvolvesTransitive(stores[i], stores[j - 1], stores[j]);
    }
  }

  lemma SamePlace(stores: seq<Tables>, f: Filter, pages: seq<Page>, i: nat, c: Code, j: nat, d: Code)
    requires Walk(stores, f, pages) && StoredAt(stores, i, c) && StoredAt(stores, j, d) && c.id == d.id
    ensures PositionOf(c) == PositionOf(d)
  {
    hide Walk;
    if i < j {
      StoresEvolve(stores, f, pages, i, j);
    } else if j < i {
      StoresEvolve(stores, f, pages, j, i);
    }
  }

  // No code is listed twice, even when it was edited between two pages: its place in the order never moves.
  lemma NoCodeTwice(stores: seq<Tables>, f: Filter, pages: seq<Page>, k: nat, l: nat)
    requires Walk(stores, f, pages) && k < l < |AllRows(pages, |pages|)|
    ensures AllRows(pages, |pages|)[k].id != AllRows(pages, |pages|)[l].id
  {
    hide Walk, StoredAt, AllRows;
    var rows := AllRows(pages, |pages|);
    WalkDescends(stores, f, pages, |pages|);
    assert ListedBefore(rows[k], rows[l]);
    if rows[k].id == rows[l].id {
      var i := WalkRowsAreStored(stores, f, pages, |pages|, k);
      var j := WalkRowsAreStored(stores, f, pages, |pages|, l);
      SamePlace(stores, f, pages, i, rows[k], j, rows[l]);
      BeforeIrreflexive(PositionOf(rows[k]));
    }
  }
}
