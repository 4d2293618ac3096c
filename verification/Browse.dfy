/** Listing memories page by page: filters, the keyset condition on (order value, id), and one
    row fetched beyond the page to tell whether there is more. */
module BrowsePage {
  import opened Wrappers
  import opened Sorting
  import StoreModel

  datatype Row = Row(env: nat, status: StoreModel.Status, kind: string, tags: set<string>,
                     createdAt: int, updatedAt: int, expiresAt: Option<int>)

  /** The table one statement sees and the server clock it sees it at. */
  datatype View = View(rows: map<nat, Row>, now: int)

  datatype OrderField = CreatedAt | UpdatedAt

  /** Empty lists mean "not given", as in the program. */
  datatype Request = Request(envs: seq<nat>, statuses: seq<StoreModel.Status>, kinds: seq<string>, tags: seq<string>,
                             createdAfter: Option<int>, createdBefore: Option<int>, updatedAfter: Option<int>,
                             includeExpired: bool, orderBy: OrderField, descending: bool, limit: nat)

  /** An order value with the id as tie-break: what a cursor holds, and what places a hit. */
  datatype Mark = Mark(value: int, id: nat)

  datatype Page = Page(hits: seq<Mark>, next: Option<Mark>, more: bool)

  predicate Visible(status: StoreModel.Status, wanted: seq<StoreModel.Status>) {
    if wanted == [] then status == StoreModel.Proposed || status == StoreModel.Active else status in wanted
  }

  predicate Matches(r: Row, req: Request, now: int) {
    && r.env in req.envs
    && Visible(r.status, req.statuses)
    && (req.includeExpired || r.expiresAt.None? || r.expiresAt.value > now)
    && (req.kinds == [] || r.kind in req.kinds)
    && (req.createdAfter.Some? ==> r.createdAt >= req.createdAfter.value)
    && (req.createdBefore.Some? ==> r.createdAt < req.createdBefore.value)
    && (req.updatedAfter.Some? ==> r.updatedAt >= req.updatedAfter.value)
    && (req.tags == [] || exists tag :: tag in req.tags && tag in r.tags)
  }

  function OrderValue(r: Row, field: OrderField): int {
    if field.UpdatedAt? then r.updatedAt else r.createdAt
  }

  predicate Less(a: Mark, b: Mark) {
    a.value < b.value || (a.value == b.value && a.id < b.id)
  }

  /** `a` is listed before `b`. */
  predicate Before(descending: bool, a: Mark, b: Mark) {
    if descending then Less(b, a) else Less(a, b)
  }

  predicate UpTo(a: Mark, b: Mark) { a == b || Less(a, b) }

  predicate DownTo(a: Mark, b: Mark) { a == b || Less(b, a) }

  lemma OrdersAreTotal()
    ensures TotalOrder(UpTo) && TotalOrder(DownTo)
  {}

  /** The mark of a matching row, after the cursor if there is one. */
  predicate Due(v: View, req: Request, after: Option<Mark>, m: Mark) {
    && m.id in v.rows && m.value == OrderValue(v.rows[m.id], req.orderBy)
    && Matches(v.rows[m.id], req, v.now)
    && (after.Some? ==> Before(req.descending, after.value, m))
  }

  ghost predicate Ascends(descending: bool, s: seq<Mark>) {
    forall i, j :: 0 <= i < j < |s| ==> Before(descending, s[i], s[j])
  }

  /** What a page promises: due rows in order; a due row that is not on it comes after all that
      are, the page is then full, and `more` says so; the cursor marks the last hit. */
  ghost predicate IsPage(v: View, req: Request, after: Option<Mark>, p: Page) {
    && |p.hits| <= req.limit && Ascends(req.descending, p.hits)
    && (forall m :: m in p.hits ==> Due(v, req, after, m))
    && (forall m :: Due(v, req, after, m) && m !in p.hits ==> LeftOver(req, p, m))
    && (p.more ==> |p.hits| == req.limit && exists m :: Due(v, req, after, m) && m !in p.hits)
    && p.next == if p.more && p.hits != [] then Some(p.hits[|p.hits| - 1]) else None
  }

  ghost predicate LeftOver(req: Request, p: Page, m: Mark) {
    p.more && forall h :: h in p.hits ==> Before(req.descending, h, m)
  }

  /** The rows the WHERE clause leaves, in the order in which the table yields them. */
  method Select(v: View, req: Request, after: Option<Mark>) returns (found: seq<Mark>)
    ensures Distinct(found) && forall m :: m in found <==> Due(v, req, after, m)
  {
    found := [];
    var rest := v.rows.Keys;
    while rest != {}
      invariant rest <= v.rows.Keys && Distinct(found)
      invariant forall m :: m in found <==> Due(v, req, after, m) && m.id !in rest
      decreases |rest|
    {
      var id :| id in rest;
      var m := Mark(OrderValue(v.rows[id], req.orderBy), id);
      if Due(v, req, after, m) { found := found + [m]; }
      rest := rest - {id};
    }
  }

  /** ORDER BY the order value and the id, both in the request's direction. */
  method OrderRows(found: seq<Mark>, descending: bool) returns (rows: seq<Mark>)
    requires Distinct(found)
    ensures Ascends(descending, rows) && forall m :: m in rows <==> m in found
  {
    var le := if descending then DownTo else UpTo;
    rows := Sort(le, found);
    OrdersAreTotal();
    SortIsSorted(le, found);
    SameElements(rows, found);
    DistinctIgnoresOrder(found, rows);
    forall i, j | 0 <= i < j < |rows| ensures Before(descending, rows[i], rows[j]) {
      assert le(rows[i], rows[j]) && rows[i] != rows[j];
    }
  }

  /** One request: LIMIT one more than the page holds, then cut. */
  method Browse(v: View, req: Request, after: Option<Mark>) returns (p: Page)
    requires req.limit >= 1
    ensures IsPage(v, req, after, p)
  {
    if req.envs == [] { return Page([], None, false); }
    var found := Select(v, req, after);
    var ordered := OrderRows(found, req.descending);
    var rows := if |ordered| > req.limit + 1 then ordered[..req.limit + 1] else ordered;
    var more := |rows| > req.limit;
    var hits := if more then rows[..req.limit] else rows;
    p := Page(hits, if more && hits != [] then Some(hits[|hits| - 1]) else None, more);
    CutIsPage(v, req, after, ordered, p);
  }

  lemma CutIsPage(v: View, req: Request, after: Option<Mark>, ordered: seq<Mark>, p: Page)
    requires req.limit >= 1 && Ascends(req.descending, ordered)
    requires forall m :: m in ordered <==> Due(v, req, after, m)
    requires p.more <==> |ordered| > req.limit
    requires p.hits == if |ordered| > req.limit then ordered[..req.limit] else ordered
    requires p.next == if p.more then Some(p.hits[|p.hits| - 1]) else None
    ensures IsPage(v, req, after, p)
  {
    forall m | Due(v, req, after, m) && m !in p.hits ensures LeftOver(req, p, m) {
      var j :| 0 <= j < |ordered| && ordered[j] == m;
      assert forall k :: 0 <= k < |p.hits| ==> p.hits[k] == ordered[k];
    }
    if p.more {
      var m := ordered[req.limit];
      assert forall j :: 0 <= j < req.limit ==> Before(req.descending, ordered[j], m);
      assert Due(v, req, after, m) && m !in p.hits;
    }
  }
}

/** Following cursors: each page is requested against whatever the table is by then. */
module BrowseSessions {
  import opened Wrappers
  import opened Sorting
  import opened BrowsePage
  import StoreModel

  ghost function CursorAt(pages: seq<Page>, i: nat): Option<Mark>
    requires i <= |pages|
  {
    if i == 0 then None else pages[i - 1].next
  }

  /** Page `i` answers the request with the cursor of the page before; a page follows only if
      it said there is more. */
  ghost predicate PageAt(views: seq<View>, req: Request, pages: seq<Page>, i: nat)
    requires i < |views| == |pages|
  {
    IsPage(views[i], req, CursorAt(pages, i), pages[i]) && (i > 0 ==> pages[i - 1].more)
  }

  ghost predicate Session(views: seq<View>, req: Request, pages: seq<Page>) {
    && |views| == |pages| && req.limit >= 1
    && (forall i :: 0 <= i < |pages| ==> PageAt(views, req, pages, i))
  }

  ghost predicate Finished(pages: seq<Page>) {
    pages != [] && !pages[|pages| - 1].more
  }

  /** All hits, page after page. */
  ghost function Listing(pages: seq<Page>): seq<Mark> {
    if pages == [] then [] else Listing(pages[..|pages| - 1]) + pages[|pages| - 1].hits
  }

  lemma SessionPrefix(views: seq<View>, req: Request, pages: seq<Page>)
    requires Session(views, req, pages) && pages != []
    ensures Session(views[..|views| - 1], req, pages[..|pages| - 1])
  {
    var n := |pages| - 1;
    forall i | 0 <= i < n ensures PageAt(views[..n], req, pages[..n], i) {
      assert PageAt(views, req, pages, i) && CursorAt(pages[..n], i) == CursorAt(pages, i);
    }
  }

  /** What the last page is asked for: rows after the last hit of the page before, which is full. */
  lemma LastPage(views: seq<View>, req: Request, pages: seq<Page>)
    requires Session(views, req, pages) && |pages| > 1
    ensures var n := |pages| - 1;
            && var hits := pages[..n][n - 1].hits;
            && pages[n - 1].more && |hits| == req.limit && CursorAt(pages, n) == Some(hits[|hits| - 1])
            && forall h :: h in pages[n].hits ==> Before(req.descending, hits[|hits| - 1], h)
  {
    var n := |pages| - 1;
    assert PageAt(views, req, pages, n) && PageAt(views, req, pages, n - 1);
    forall h | h in pages[n].hits ensures Before(req.descending, CursorAt(pages, n).value, h) {
      assert Due(views[n], req, CursorAt(pages, n), h);
    }
  }

  lemma LastHits(views: seq<View>, req: Request, pages: seq<Page>)
    requires Session(views, req, pages) && pages != []
    ensures var p := pages[|pages| - 1];
            Ascends(req.descending, p.hits) && (p.more ==> p.hits != [] && p.next == Some(p.hits[|p.hits| - 1]))
  {
    assert PageAt(views, req, pages, |pages| - 1);
  }

  lemma AppendAscends(descending: bool, a: seq<Mark>, b: seq<Mark>)
    requires Ascends(descending, a) && Ascends(descending, b)
    requires a != [] ==> forall m :: m in b ==> Before(descending, a[|a| - 1], m)
    ensures Ascends(descending, a + b)
  {
    var c := a + b;
    forall i, j | 0 <= i < j < |c| ensures Before(descending, c[i], c[j]) {
      if i < |a| <= j { assert c[j] in b && (i < |a| - 1 ==> Before(descending, a[i], a[|a| - 1])); }
    }
  }

  /** Whatever happens to the table, the marks returned keep ascending: no (value, id) pair twice. */
  lemma {:induction false} ListingAscends(views: seq<View>, req: Request, pages: seq<Page>)
    requires Session(views, req, pages)
    ensures Ascends(req.descending, Listing(pages))
    ensures pages != [] && pages[|pages| - 1].more ==>
              Listing(pages) != [] && pages[|pages| - 1].next == Some(Listing(pages)[|Listing(pages)| - 1])
    decreases |pages|
  {
    if pages != [] {
      var n := |pages| - 1;
      SessionPrefix(views, req, pages);
      ListingAscends(views[..n], req, pages[..n]);
      LastHits(views, req, pages);
      if n > 0 { LastPage(views, req, pages); }
      AppendAscends(req.descending, Listing(pages[..n]), pages[n].hits);
    }
  }

  /** Every page but the last is full. */
  lemma {:induction false} PagesAreFull(views: seq<View>, req: Request, pages: seq<Page>)
    requires Session(views, req, pages) && pages != []
    ensures |Listing(pages)| == (|pages| - 1) * req.limit + |pages[|pages| - 1].hits|
    decreases |pages|
  {
    var n := |pages| - 1;
    if n > 0 {
      SessionPrefix(views, req, pages);
      PagesAreFull(views[..n], req, pages[..n]);
      LastPage(views, req, pages);
      assert (n - 1) * req.limit + req.limit == n * req.limit;
    } else {
      assert Listing(pages[..0]) == [];
    }
  }

  // ------------------------------------------------------------ without concurrent changes

  /** The filtered table in order. */
  ghost predicate IsListing(v: View, req: Request, s: seq<Mark>) {
    Ascends(req.descending, s) && forall m :: m in s <==> Due(v, req, None, m)
  }

  lemma {:induction false} ListingUnique(v: View, req: Request, a: seq<Mark>, b: seq<Mark>)
    requires IsListing(v, req, a) && IsListing(v, req, b)
    ensures a == b
  {
    SameAscending(req.descending, a, b);
  }

  lemma {:induction false} SameAscending(descending: bool, a: seq<Mark>, b: seq<Mark>)
    requires Ascends(descending, a) && Ascends(descending, b) && forall m :: m in a <==> m in b
    ensures a == b
  {
    assert a != [] ==> a[0] in b;
    assert b != [] ==> b[0] in a;
    if a != [] {
      assert !Before(descending, a[0], b[0]) && !Before(descending, b[0], a[0]);
      assert a[0] == b[0];
      assert a == [a[0]] + a[1..] && b == [a[0]] + b[1..];
      assert forall i :: 0 < i < |a| ==> Before(descending, a[0], a[i]);
      assert forall i :: 0 < i < |b| ==> Before(descending, a[0], b[i]);
      assert a[0] !in a[1..] && a[0] !in b[1..];
      forall m | m in a[1..] ensures m in b[1..] { assert m in a && m != a[0]; }
      forall m | m in b[1..] ensures m in a[1..] { assert m in b && m != a[0]; }
      SameAscending(descending, a[1..], b[1..]);
    }
  }

  /** The rows still to come, in a table that stays the same: after every mark so far. */
  ghost predicate Remaining(v: View, req: Request, listed: seq<Mark>, more: bool) {
    forall m :: Due(v, req, None, m) && m !in listed ==> more && After(req, listed, m)
  }

  ghost predicate After(req: Request, listed: seq<Mark>, m: Mark) {
    forall h :: h in listed ==> Before(req.descending, h, m)
  }

  /** With nothing changing, an unfinished session has returned the first rows of the filtered
      table and a finished one all of it. */
  lemma {:induction false} StaticSession(v: View, views: seq<View>, req: Request, pages: seq<Page>)
    requires Session(views, req, pages) && pages != [] && forall w :: w in views ==> w == v
    ensures forall m :: m in Listing(pages) ==> Due(v, req, None, m)
    ensures Remaining(v, req, Listing(pages), pages[|pages| - 1].more)
    decreases |pages|
  {
    var n := |pages| - 1;
    assert views[n] in views && PageAt(views, req, pages, n);
    var page, after, before := pages[n], CursorAt(pages, n), Listing(pages[..n]);
    if n > 0 {
      SessionPrefix(views, req, pages);
      assert forall w :: w in views[..n] ==> w in views;
      StaticSession(v, views[..n], req, pages[..n]);
      ListingAscends(views[..n], req, pages[..n]);
      LastPage(views, req, pages);
      forall m | Due(v, req, None, m) && m !in before + page.hits
        ensures page.more && After(req, before + page.hits, m)
      {
        assert pages[..n][n - 1].more && After(req, before, m) && before[|before| - 1] in before;
        assert Due(v, req, after, m) && LeftOver(req, page, m);
      }
    } else {
      assert before == [];
      forall m | Due(v, req, None, m) && m !in before + page.hits
        ensures page.more && After(req, before + page.hits, m)
      {
        assert LeftOver(req, page, m);
      }
    }
  }

  /** The concatenated pages are the filtered table sorted by (value, id). */
  lemma StaticListing(v: View, views: seq<View>, req: Request, pages: seq<Page>)
    requires Session(views, req, pages) && Finished(pages) && forall w :: w in views ==> w == v
    ensures IsListing(v, req, Listing(pages))
  {
    StaticSession(v, views, req, pages);
    ListingAscends(views, req, pages);
  }

  /** The loop ends: every page but the last uses up `limit` rows of the table. */
  lemma StaticSessionEnds(v: View, views: seq<View>, req: Request, pages: seq<Page>)
    requires Session(views, req, pages) && pages != [] && forall w :: w in views ==> w == v
    ensures (|pages| - 1) * req.limit <= |v.rows|
    ensures |pages| <= |v.rows| + 1
  {
    ListingAscends(views, req, pages);
    PagesAreFull(views, req, pages);
    StaticSession(v, views, req, pages);
    var all := Listing(pages);
    var ids := seq(|all|, i requires 0 <= i < |all| => all[i].id);
    forall i | 0 <= i < |ids| ensures ids[i] in v.rows && all[i] == MarkIn(v, req, ids[i]) { assert all[i] in all; }
    forall i, j | 0 <= i < j < |ids| ensures ids[i] != ids[j] { assert Before(req.descending, all[i], all[j]); }
    DistinctFits(ids, v.rows.Keys);
    assert |v.rows| == |v.rows.Keys|;
    AtLeast(|pages| - 1, req.limit);
  }

  lemma AtLeast(k: nat, limit: nat)
    requires limit >= 1
    ensures k <= k * limit
  {}

  lemma {:induction false} DistinctFits(ids: seq<nat>, s: set<nat>)
    requires Distinct(ids) && forall i :: 0 <= i < |ids| ==> ids[i] in s
    ensures |ids| <= |s|
    decreases |ids|
  {
    if ids != [] {
      var n := |ids| - 1;
      DistinctFits(ids[..n], s - {ids[n]});
    }
  }

  // ------------------------------------------------------------ with concurrent changes

  /** The mark of a row in a view. */
  ghost function MarkIn(v: View, req: Request, id: nat): Mark
    requires id in v.rows
  {
    Mark(OrderValue(v.rows[id], req.orderBy), id)
  }

  /** From one page to the next the row, while it is there, never moves towards the start. */
  ghost predicate NeverBack(views: seq<View>, req: Request, id: nat) {
    forall i, j :: 0 <= i < j < |views| && id in views[i].rows && id in views[j].rows ==>
      !Before(req.descending, MarkIn(views[j], req, id), MarkIn(views[i], req, id))
  }

  /** Nor, in this case, towards the end. */
  ghost predicate NeverAhead(views: seq<View>, req: Request, id: nat) {
    forall i, j :: 0 <= i < j < |views| && id in views[i].rows && id in views[j].rows ==>
      !Before(req.descending, MarkIn(views[i], req, id), MarkIn(views[j], req, id))
  }

  /** `created_at` is never updated and ids are not used again. */
  ghost predicate CreationFixed(views: seq<View>) {
    forall i, j, id :: 0 <= i < |views| && 0 <= j < |views| && id in views[i].rows && id in views[j].rows ==>
      views[i].rows[id].createdAt == views[j].rows[id].createdAt
  }

  /** Present and matching in every view. */
  ghost predicate Throughout(views: seq<View>, req: Request, id: nat) {
    forall i :: 0 <= i < |views| ==> id in views[i].rows && Matches(views[i].rows[id], req, views[i].now)
  }

  ghost predicate Returned(pages: seq<Page>, id: nat) {
    exists m :: m in Listing(pages) && m.id == id
  }

  /** Where two hits came from: in page order. */
  lemma {:induction false} Locate(pages: seq<Page>, i: nat, j: nat) returns (p: nat, q: nat)
    requires i <= j < |Listing(pages)|
    ensures p <= q < |pages| && Listing(pages)[i] in pages[p].hits && Listing(pages)[j] in pages[q].hits
    decreases |pages|
  {
    var n := |pages| - 1;
    var before := Listing(pages[..n]);
    if j < |before| { p, q := Locate(pages[..n], i, j); }
    else if i < |before| {
      var r: nat;
      p, r := Locate(pages[..n], i, i);
      q := n;
    } else {
      p, q := n, n;
    }
  }

  /** A row that does not move towards the end is returned at most once. */
  lemma ReturnedAtMostOnce(views: seq<View>, req: Request, pages: seq<Page>, i: nat, j: nat)
    requires Session(views, req, pages) && i < j < |Listing(pages)|
    requires NeverAhead(views, req, Listing(pages)[i].id)
    ensures Listing(pages)[i].id != Listing(pages)[j].id
  {
    var a, b := Listing(pages)[i], Listing(pages)[j];
    ListingAscends(views, req, pages);
    var p, q := Locate(pages, i, j);
    assert PageAt(views, req, pages, p) && PageAt(views, req, pages, q);
    assert Due(views[p], req, CursorAt(pages, p), a) && Due(views[q], req, CursorAt(pages, q), b);
    assert Before(req.descending, a, b);
    assert a == MarkIn(views[p], req, a.id) && b == MarkIn(views[q], req, b.id);
  }

  /** The row comes after the cursor of the page. */
  ghost predicate Ahead(v: View, req: Request, page: Page, id: nat) {
    page.next.Some? && id in v.rows && Before(req.descending, page.next.value, MarkIn(v, req, id))
  }

  /** Between page `i` and the next the row moves back over the cursor it was ahead of. */
  ghost predicate JumpsBack(views: seq<View>, req: Request, pages: seq<Page>, id: nat, i: nat)
    requires |views| == |pages|
  {
    i + 1 < |pages| && Ahead(views[i], req, pages[i], id) && !Ahead(views[i + 1], req, pages[i], id)
  }

  ghost predicate NeverJumpsBack(views: seq<View>, req: Request, pages: seq<Page>, id: nat)
    requires |views| == |pages|
  {
    forall i: nat {:trigger JumpsBack(views, req, pages, id, i)} :: !JumpsBack(views, req, pages, id, i)
  }

  lemma NoMoveNoJump(views: seq<View>, req: Request, pages: seq<Page>, id: nat)
    requires |views| == |pages| && Throughout(views, req, id) && NeverBack(views, req, id)
    ensures NeverJumpsBack(views, req, pages, id)
  {}

  /** The page has the row. */
  ghost predicate OnPage(page: Page, id: nat) {
    exists m :: m in page.hits && m.id == id
  }

  lemma HitsTheRow(views: seq<View>, req: Request, pages: seq<Page>, i: nat, m: Mark)
    requires Session(views, req, pages) && i < |pages| && m in pages[i].hits
    ensures m.id in views[i].rows && m == MarkIn(views[i], req, m.id)
    ensures !Ahead(views[i], req, pages[i], m.id)
  {
    assert PageAt(views, req, pages, i);
    assert Due(views[i], req, CursorAt(pages, i), m);
    var k :| 0 <= k < |pages[i].hits| && pages[i].hits[k] == m;
    assert k < |pages[i].hits| - 1 ==> Before(req.descending, m, pages[i].hits[|pages[i].hits| - 1]);
  }

  /** One page: a matching row that was ahead of the cursor asked with is on it or still ahead. */
  lemma OnPageOrAhead(views: seq<View>, req: Request, pages: seq<Page>, i: nat, id: nat)
    requires Session(views, req, pages) && i < |pages| && id in views[i].rows
             && Matches(views[i].rows[id], req, views[i].now)
    requires i > 0 ==> Ahead(views[i], req, pages[i - 1], id)
    ensures OnPage(pages[i], id) || Ahead(views[i], req, pages[i], id)
  {
    var m := MarkIn(views[i], req, id);
    assert PageAt(views, req, pages, i) && Due(views[i], req, CursorAt(pages, i), m);
    if m !in pages[i].hits { assert LeftOver(req, pages[i], m); }
  }

  /** From any page on, a row ahead of its cursor that does not jump back is returned or stays ahead. */
  lemma {:induction false} StaysAhead(views: seq<View>, req: Request, pages: seq<Page>, id: nat, i: nat, j: nat)
    requires Session(views, req, pages) && Throughout(views, req, id) && NeverJumpsBack(views, req, pages, id)
    requires i <= j < |pages| && (i > 0 ==> Ahead(views[i], req, pages[i - 1], id))
    ensures Ahead(views[j], req, pages[j], id) || exists k :: i <= k <= j && OnPage(pages[k], id)
    decreases j
  {
    if j == i { OnPageOrAhead(views, req, pages, i, id); }
    else {
      StaysAhead(views, req, pages, id, i, j - 1);
      if Ahead(views[j - 1], req, pages[j - 1], id) {
        assert !JumpsBack(views, req, pages, id, j - 1);
        OnPageOrAhead(views, req, pages, j, id);
      }
    }
  }

  lemma {:induction false} OnPageIsReturned(pages: seq<Page>, k: nat, m: Mark)
    requires k < |pages| && m in pages[k].hits
    ensures m in Listing(pages)
    decreases |pages|
  {
    if k < |pages| - 1 { OnPageIsReturned(pages[..|pages| - 1], k, m); }
  }

  lemma ReturnedOnPage(pages: seq<Page>, id: nat)
    ensures Returned(pages, id) <==> exists k :: 0 <= k < |pages| && OnPage(pages[k], id)
  {
    if Returned(pages, id) {
      var m :| m in Listing(pages) && m.id == id;
      var i :| 0 <= i < |Listing(pages)| && Listing(pages)[i] == m;
      var p, q := Locate(pages, i, i);
      assert OnPage(pages[p], id);
    }
    if k :| 0 <= k < |pages| && OnPage(pages[k], id) {
      var m :| m in pages[k].hits && m.id == id;
      OnPageIsReturned(pages, k, m);
    }
  }

  /** A matching row that never jumps back over a cursor is not missed. */
  lemma NoJumpNotMissed(views: seq<View>, req: Request, pages: seq<Page>, id: nat)
    requires Session(views, req, pages) && Finished(pages) && Throughout(views, req, id)
             && NeverJumpsBack(views, req, pages, id)
    ensures Returned(pages, id)
  {
    assert PageAt(views, req, pages, |pages| - 1);
    StaysAhead(views, req, pages, id, 0, |pages| - 1);
    ReturnedOnPage(pages, id);
  }

  /** A row that does not move towards the start is not missed. */
  lemma ReturnedAtLeastOnce(views: seq<View>, req: Request, pages: seq<Page>, id: nat)
    requires Session(views, req, pages) && Finished(pages) && Throughout(views, req, id) && NeverBack(views, req, id)
    ensures Returned(pages, id)
  {
    NoMoveNoJump(views, req, pages, id);
    NoJumpNotMissed(views, req, pages, id);
  }

  // ------------------------------------------------------------ exactly when a row is missed or repeated

  /** The cursors ascend. */
  lemma {:induction false} CursorsAscend(views: seq<View>, req: Request, pages: seq<Page>, i: nat, j: nat)
    requires Session(views, req, pages) && i < j < |pages| && pages[j].next.Some?
    ensures pages[i].next.Some? && Before(req.descending, pages[i].next.value, pages[j].next.value)
    decreases j
  {
    assert PageAt(views, req, pages, j) && PageAt(views, req, pages, j - 1);
    assert Due(views[j], req, CursorAt(pages, j), pages[j].next.value);
    if i < j - 1 { CursorsAscend(views, req, pages, i, j - 1); }
  }

  /** A row on a later page that does not move towards the end was ahead of every cursor before. */
  lemma OnLaterPage(views: seq<View>, req: Request, pages: seq<Page>, id: nat, i: nat, k: nat)
    requires Session(views, req, pages) && Throughout(views, req, id) && NeverAhead(views, req, id)
    requires i < k < |pages| && OnPage(pages[k], id)
    ensures Ahead(views[i + 1], req, pages[i], id)
  {
    var m :| m in pages[k].hits && m.id == id;
    assert PageAt(views, req, pages, k) && Due(views[k], req, CursorAt(pages, k), m);
    assert PageAt(views, req, pages, k - 1) && PageAt(views, req, pages, i + 1);
    if i < k - 1 { CursorsAscend(views, req, pages, i, k - 1); }
    assert Before(req.descending, pages[i].next.value, MarkIn(views[k], req, id));
    assert i + 1 < k ==> !Before(req.descending, MarkIn(views[i + 1], req, id), MarkIn(views[k], req, id));
  }

  /** A row on an earlier page that does not move towards the end is behind every cursor since. */
  lemma OnEarlierPage(views: seq<View>, req: Request, pages: seq<Page>, id: nat, i: nat, k: nat)
    requires Session(views, req, pages) && Throughout(views, req, id) && NeverAhead(views, req, id)
    requires k <= i < |pages| && OnPage(pages[k], id)
    ensures !Ahead(views[i], req, pages[i], id)
  {
    var m :| m in pages[k].hits && m.id == id;
    HitsTheRow(views, req, pages, k, m);
    if k < i && pages[i].next.Some? {
      CursorsAscend(views, req, pages, k, i);
      assert !Before(req.descending, MarkIn(views[k], req, id), MarkIn(views[i], req, id));
    }
  }

  lemma OnPageNeverJumped(views: seq<View>, req: Request, pages: seq<Page>, id: nat, i: nat, k: nat)
    requires Session(views, req, pages) && Throughout(views, req, id) && NeverAhead(views, req, id)
    requires k < |pages| && OnPage(pages[k], id)
    ensures !JumpsBack(views, req, pages, id, i)
  {
    if k <= i < |pages| { OnEarlierPage(views, req, pages, id, i, k); }
    if i < k { OnLaterPage(views, req, pages, id, i, k); }
  }

  /** Where rows do not move towards the end, a row matching throughout is missed exactly when
      between two pages it moves back over the cursor. */
  lemma MissedExactly(views: seq<View>, req: Request, pages: seq<Page>, id: nat)
    requires Session(views, req, pages) && Finished(pages) && Throughout(views, req, id) && NeverAhead(views, req, id)
    ensures Returned(pages, id) <==> NeverJumpsBack(views, req, pages, id)
  {
    ReturnedOnPage(pages, id);
    if Returned(pages, id) {
      var k :| 0 <= k < |pages| && OnPage(pages[k], id);
      forall i: nat ensures !JumpsBack(views, req, pages, id, i) { OnPageNeverJumped(views, req, pages, id, i, k); }
    }
    if NeverJumpsBack(views, req, pages, id) { NoJumpNotMissed(views, req, pages, id); }
  }

  ghost predicate ReturnedTwice(pages: seq<Page>, id: nat) {
    exists i, j :: 0 <= i < j < |Listing(pages)| && Listing(pages)[i].id == id && Listing(pages)[j].id == id
  }

  ghost predicate OnTwoPages(pages: seq<Page>, id: nat) {
    exists p, q :: 0 <= p < q < |pages| && OnPage(pages[p], id) && OnPage(pages[q], id)
  }

  /** Between page `i` and the next the row moves ahead of the cursor that had passed it. */
  ghost predicate JumpsAhead(views: seq<View>, req: Request, pages: seq<Page>, id: nat, i: nat)
    requires |views| == |pages|
  {
    i + 1 < |pages| && !Ahead(views[i], req, pages[i], id) && Ahead(views[i + 1], req, pages[i], id)
  }

  lemma {:induction false} PlacesOf(pages: seq<Page>, p: nat, q: nat, a: Mark, b: Mark) returns (i: nat, j: nat)
    requires p < q < |pages| && a in pages[p].hits && b in pages[q].hits
    ensures i < j < |Listing(pages)| && Listing(pages)[i] == a && Listing(pages)[j] == b
    decreases |pages|
  {
    var n := |pages| - 1;
    var before := Listing(pages[..n]);
    if q < n { i, j := PlacesOf(pages[..n], p, q, a, b); }
    else {
      OnPageIsReturned(pages[..n], p, a);
      i :| 0 <= i < |before| && before[i] == a;
      var k :| 0 <= k < |pages[n].hits| && pages[n].hits[k] == b;
      j := |before| + k;
    }
  }

  /** No page has a row twice, so a row returned twice is on two pages. */
  lemma TwiceIsTwoPages(views: seq<View>, req: Request, pages: seq<Page>, id: nat)
    requires Session(views, req, pages)
    ensures ReturnedTwice(pages, id) <==> OnTwoPages(pages, id)
  {
    if ReturnedTwice(pages, id) {
      var i, j :| 0 <= i < j < |Listing(pages)| && Listing(pages)[i].id == id && Listing(pages)[j].id == id;
      ListingAscends(views, req, pages);
      var p, q := Locate(pages, i, j);
      HitsTheRow(views, req, pages, p, Listing(pages)[i]);
      HitsTheRow(views, req, pages, q, Listing(pages)[j]);
      assert Before(req.descending, Listing(pages)[i], Listing(pages)[j]);
      assert OnPage(pages[p], id) && OnPage(pages[q], id);
    }
    if OnTwoPages(pages, id) {
      var p, q :| 0 <= p < q < |pages| && OnPage(pages[p], id) && OnPage(pages[q], id);
      var a :| a in pages[p].hits && a.id == id;
      var b :| b in pages[q].hits && b.id == id;
      var i, j := PlacesOf(pages, p, q, a, b);
    }
  }

  /** A row behind the cursor of page `p` and ahead of that of a later page has jumped in between. */
  lemma {:induction false} JumpBetween(views: seq<View>, req: Request, pages: seq<Page>, id: nat, p: nat, q: nat)
    returns (i: nat)
    requires Session(views, req, pages) && p < q < |pages|
    requires !Ahead(views[p], req, pages[p], id) && Ahead(views[q], req, pages[q - 1], id)
    ensures JumpsAhead(views, req, pages, id, i)
    decreases q
  {
    if p == q - 1 || !Ahead(views[q - 1], req, pages[q - 1], id) { i := q - 1; }
    else {
      CursorsAscend(views, req, pages, q - 2, q - 1);
      i := JumpBetween(views, req, pages, id, p, q - 1);
    }
  }

  /** Where rows do not move towards the start, a row matching throughout is returned twice exactly
      when between two pages it moves ahead of a cursor that had passed it. */
  lemma RepeatedExactly(views: seq<View>, req: Request, pages: seq<Page>, id: nat)
    requires Session(views, req, pages) && Finished(pages) && Throughout(views, req, id) && NeverBack(views, req, id)
    ensures ReturnedTwice(pages, id) <==> exists i: nat :: JumpsAhead(views, req, pages, id, i)
  {
    TwiceIsTwoPages(views, req, pages, id);
    NoMoveNoJump(views, req, pages, id);
    if OnTwoPages(pages, id) {
      var p, q :| 0 <= p < q < |pages| && OnPage(pages[p], id) && OnPage(pages[q], id);
      var a :| a in pages[p].hits && a.id == id;
      var b :| b in pages[q].hits && b.id == id;
      HitsTheRow(views, req, pages, p, a);
      assert PageAt(views, req, pages, q) && PageAt(views, req, pages, q - 1)
        && Due(views[q], req, CursorAt(pages, q), b);
      var i := JumpBetween(views, req, pages, id, p, q);
    }
    if i: nat :| JumpsAhead(views, req, pages, id, i) {
      StaysAhead(views, req, pages, id, 0, i);
      assert PageAt(views, req, pages, |pages| - 1);
      StaysAhead(views, req, pages, id, i + 1, |pages| - 1);
    }
  }

  /** Ordered by creation time, over any sequence of table states: no row twice, and every row
      present and matching throughout exactly once by the time there is no more. */
  lemma CreationOrderIsExact(views: seq<View>, req: Request, pages: seq<Page>)
    requires Session(views, req, pages) && req.orderBy.CreatedAt? && CreationFixed(views)
    ensures forall i, j :: 0 <= i < j < |Listing(pages)| ==> Listing(pages)[i].id != Listing(pages)[j].id
    ensures Finished(pages) ==> forall id :: Throughout(views, req, id) ==> Returned(pages, id)
  {
    forall i, j | 0 <= i < j < |Listing(pages)| ensures Listing(pages)[i].id != Listing(pages)[j].id {
      ReturnedAtMostOnce(views, req, pages, i, j);
    }
    if Finished(pages) {
      forall id | Throughout(views, req, id) ensures Returned(pages, id) { ReturnedAtLeastOnce(views, req, pages, id); }
    }
  }

  /** Update times only grow. */
  ghost predicate UpdatesGrow(views: seq<View>) {
    forall i, j, id :: 0 <= i < j < |views| && id in views[i].rows && id in views[j].rows ==>
      views[i].rows[id].updatedAt <= views[j].rows[id].updatedAt
  }

  /** Ordered by update time one half is kept in each direction: newest first repeats no row,
      oldest first misses none. */
  lemma UpdateOrderKeepsOneHalf(views: seq<View>, req: Request, pages: seq<Page>)
    requires Session(views, req, pages) && req.orderBy.UpdatedAt? && UpdatesGrow(views)
    ensures req.descending ==>
              forall i, j :: 0 <= i < j < |Listing(pages)| ==> Listing(pages)[i].id != Listing(pages)[j].id
    ensures !req.descending && Finished(pages) ==> forall id :: Throughout(views, req, id) ==> Returned(pages, id)
  {
    if req.descending {
      forall i, j | 0 <= i < j < |Listing(pages)| ensures Listing(pages)[i].id != Listing(pages)[j].id {
        ReturnedAtMostOnce(views, req, pages, i, j);
      }
    } else if Finished(pages) {
      forall id | Throughout(views, req, id) ensures Returned(pages, id) { ReturnedAtLeastOnce(views, req, pages, id); }
    }
  }

  /** And the other half is lost exactly when an edit between two pages carries the row across the
      cursor: back over it newest first, where it is missed, ahead of it oldest first, where it is
      returned twice. */
  lemma UpdateOrderExactly(views: seq<View>, req: Request, pages: seq<Page>, id: nat)
    requires Session(views, req, pages) && Finished(pages) && req.orderBy.UpdatedAt? && UpdatesGrow(views)
    requires Throughout(views, req, id)
    ensures req.descending ==> (Returned(pages, id) <==> NeverJumpsBack(views, req, pages, id))
    ensures !req.descending ==> (ReturnedTwice(pages, id) <==> exists i: nat :: JumpsAhead(views, req, pages, id, i))
  {
    if req.descending { MissedExactly(views, req, pages, id); } else { RepeatedExactly(views, req, pages, id); }
  }

  ghost function ExampleRequest(descending: bool): Request {
    Request([0], [], [], [], None, None, None, true, UpdatedAt, descending, 1)
  }

  /** Rows 1 and 2, updated at `u` and at 2. */
  ghost function ExampleView(u: int): View {
    var row := Row(0, StoreModel.Active, "fact", {}, 0, 0, None);
    View(map[1 := row.(updatedAt := u), 2 := row.(updatedAt := 2)], 0)
  }

  lemma ExampleRows(u: int)
    ensures ExampleView(u).rows.Keys == {1, 2}
    ensures ExampleView(u).rows[1].updatedAt == u && ExampleView(u).rows[1].createdAt == 0
    ensures ExampleView(u).rows[2].updatedAt == 2 && ExampleView(u).rows[2].createdAt == 0
    ensures forall descending, id :: id in {1, 2} ==> Matches(ExampleView(u).rows[id], ExampleRequest(descending), 0)
  {}

  /** A page of one, when the due rows are that one and others after it. */
  lemma ExamplePage(u: int, descending: bool, after: Option<Mark>, hits: seq<Mark>, more: bool)
    requires |hits| <= 1 && (more ==> hits != [])
    requires forall m :: m in hits ==> ExampleDue(u, descending, after, m)
    requires forall m :: ExampleDue(u, descending, after, m) && m !in hits ==> more && Before(descending, hits[0], m)
    requires more ==> exists m :: ExampleDue(u, descending, after, m) && m !in hits
    ensures IsPage(ExampleView(u), ExampleRequest(descending), after,
                   Page(hits, if more then Some(hits[0]) else None, more))
  {
    ExampleRows(u);
    var v, req := ExampleView(u), ExampleRequest(descending);
    forall m ensures Due(v, req, after, m) <==> ExampleDue(u, descending, after, m) {
      assert m == Mark(m.value, m.id);
    }
  }

  ghost predicate ExampleDue(u: int, descending: bool, after: Option<Mark>, m: Mark) {
    (m == Mark(u, 1) || m == Mark(2, 2)) && (after.Some? ==> Before(descending, after.value, m))
  }

  lemma ExampleViews(views: seq<View>, us: seq<int>)
    requires |views| == |us| && forall i :: 0 <= i < |us| ==> views[i] == ExampleView(us[i])
    requires forall i, j :: 0 <= i < j < |us| ==> us[i] <= us[j]
    ensures UpdatesGrow(views) && CreationFixed(views) && Throughout(views, ExampleRequest(true), 1)
  {
    forall i | 0 <= i < |us|
      ensures views[i].rows.Keys == {1, 2} && views[i].rows[1].updatedAt == us[i] && views[i].rows[2].updatedAt == 2
      ensures views[i].rows[1].createdAt == 0 && views[i].rows[2].createdAt == 0
      ensures Matches(views[i].rows[1], ExampleRequest(true), views[i].now)
    {
      ExampleRows(us[i]);
    }
  }

  ghost function MissPages(): seq<Page> {
    [Page([Mark(2, 2)], Some(Mark(2, 2)), true), Page([], None, false)]
  }

  ghost function RepeatPages(): seq<Page> {
    [Page([Mark(1, 1)], Some(Mark(1, 1)), true), Page([Mark(2, 2)], Some(Mark(2, 2)), true),
     Page([Mark(3, 1)], None, false)]
  }

  lemma MissSession(views: seq<View>)
    requires views == [ExampleView(1), ExampleView(3)]
    ensures Session(views, ExampleRequest(true), MissPages())
  {
    assert ExampleDue(1, true, None, Mark(1, 1));
    ExamplePage(1, true, None, [Mark(2, 2)], true);
    ExamplePage(3, true, Some(Mark(2, 2)), [], false);
    assert PageAt(views, ExampleRequest(true), MissPages(), 0) && PageAt(views, ExampleRequest(true), MissPages(), 1);
  }

  lemma RepeatSession(views: seq<View>)
    requires views == [ExampleView(1), ExampleView(3), ExampleView(3)]
    ensures Session(views, ExampleRequest(false), RepeatPages())
  {
    var req, pages := ExampleRequest(false), RepeatPages();
    assert ExampleDue(1, false, None, Mark(2, 2)) && ExampleDue(3, false, Some(Mark(1, 1)), Mark(3, 1));
    ExamplePage(1, false, None, [Mark(1, 1)], true);
    assert PageAt(views, req, pages, 0);
    ExamplePage(3, false, Some(Mark(1, 1)), [Mark(2, 2)], true);
    assert PageAt(views, req, pages, 1);
    ExamplePage(3, false, Some(Mark(2, 2)), [Mark(3, 1)], false);
    assert PageAt(views, req, pages, 2);
  }

  /** Newest first can miss a row: the older of two, edited after the first page of one. */
  lemma NewestFirstCanMiss() returns (views: seq<View>, pages: seq<Page>)
    ensures Session(views, ExampleRequest(true), pages) && Finished(pages) && UpdatesGrow(views) && CreationFixed(views)
    ensures Throughout(views, ExampleRequest(true), 1) && !Returned(pages, 1)
  {
    views, pages := [ExampleView(1), ExampleView(3)], MissPages();
    ExampleViews(views, [1, 3]);
    MissSession(views);
    ThreePages(pages);
  }

  /** Oldest first can repeat one: the older of two, edited after it was returned. */
  lemma OldestFirstCanRepeat() returns (views: seq<View>, pages: seq<Page>)
    ensures Session(views, ExampleRequest(false), pages) && Finished(pages) && UpdatesGrow(views)
            && CreationFixed(views)
    ensures |Listing(pages)| == 3 && Listing(pages)[0].id == Listing(pages)[2].id == 1
  {
    views, pages := [ExampleView(1), ExampleView(3), ExampleView(3)], RepeatPages();
    ExampleViews(views, [1, 3, 3]);
    RepeatSession(views);
    ThreePages(pages);
  }

  lemma ThreePages(pages: seq<Page>)
    requires 2 <= |pages| <= 3
    ensures |pages| == 2 ==> Listing(pages) == pages[0].hits + pages[1].hits
    ensures |pages| == 3 ==> Listing(pages) == pages[0].hits + pages[1].hits + pages[2].hits
  {
    assert pages[..1][..0] == [] && Listing(pages[..1]) == pages[0].hits;
    assert pages[..2][..1] == pages[..1] && Listing(pages[..2]) == pages[0].hits + pages[1].hits;
    assert |pages| == 2 ==> pages[..2] == pages;
  }
}
