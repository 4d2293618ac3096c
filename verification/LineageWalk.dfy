/** Walking the lineage of a memory: a recursive query that follows edges level by level, marks a
    row as cyclic when its near end was on its path before, and goes one level deeper than it
    shows to tell whether the answer is cut. */
module LineageWalk {
  import opened Sorting

  type Id = nat

  datatype Edge = Edge(parent: Id, child: Id, relation: string, createdAt: int)

  /** What to follow: towards ancestors or descendants, and along which relations (none: all). */
  datatype Query = Query(ancestors: bool, relations: seq<string>, seed: Id)

  /** A row of the recursive table; `path` holds the near ends on the way. */
  datatype Row = Row(edge: Edge, depth: nat, path: seq<Id>, cyclic: bool)

  function Near(q: Query, e: Edge): Id {
    if q.ancestors then e.child else e.parent
  }

  function Far(q: Query, e: Edge): Id {
    if q.ancestors then e.parent else e.child
  }

  predicate Followed(q: Query, edges: seq<Edge>, e: Edge) {
    e in edges && (q.relations == [] || e.relation in q.relations)
  }

  // ------------------------------------------------------------ walks

  /** Edges end to end from the seed. */
  ghost predicate Walk(q: Query, edges: seq<Edge>, w: seq<Edge>) {
    && (forall i :: 0 <= i < |w| ==> Followed(q, edges, w[i]))
    && (forall i :: 0 <= i < |w| ==> Near(q, w[i]) == Stop(q, w, i))
  }

  /** Where a walk is after `i` edges. */
  ghost function Stop(q: Query, w: seq<Edge>, i: nat): Id
    requires i <= |w|
  {
    if i == 0 then q.seed else Far(q, w[i - 1])
  }

  ghost function NearEnds(q: Query, w: seq<Edge>): seq<Id> {
    seq(|w|, i requires 0 <= i < |w| => Near(q, w[i]))
  }

  /** No near end twice. */
  ghost predicate Unflagged(q: Query, w: seq<Edge>) {
    Distinct(NearEnds(q, w))
  }

  ghost function Init(w: seq<Edge>): seq<Edge>
    requires w != []
  {
    w[..|w| - 1]
  }

  ghost function RowOf(q: Query, w: seq<Edge>): Row
    requires w != []
  {
    Row(w[|w| - 1], |w|, NearEnds(q, w), !Unflagged(q, w))
  }

  /** The walks the query has a row for: not flagged before the last edge, at most `cap` long. */
  ghost predicate HasRow(q: Query, edges: seq<Edge>, cap: nat, w: seq<Edge>) {
    1 <= |w| <= cap && Walk(q, edges, w) && Unflagged(q, Init(w))
  }

  lemma InitHasRow(q: Query, edges: seq<Edge>, cap: nat, w: seq<Edge>)
    requires HasRow(q, edges, cap, w) && |w| > 1
    ensures HasRow(q, edges, cap, Init(w)) && Unflagged(q, Init(w))
  {
    var v := Init(w);
    forall i | 0 <= i < |v| ensures Followed(q, edges, v[i]) && Near(q, v[i]) == Stop(q, v, i) {
      assert v[i] == w[i] && Stop(q, v, i) == Stop(q, w, i);
    }
    UnflaggedPrefix(q, v);
  }

  lemma UnflaggedPrefix(q: Query, w: seq<Edge>)
    requires w != [] && Unflagged(q, w)
    ensures Unflagged(q, Init(w))
  {
    var a, b := NearEnds(q, w), NearEnds(q, Init(w));
    assert forall i :: 0 <= i < |b| ==> b[i] == a[i];
  }

  /** Adding an edge to a walk flags it exactly when its near end is on the path. */
  lemma FlagOfNext(q: Query, w: seq<Edge>, e: Edge)
    requires Unflagged(q, w)
    ensures NearEnds(q, w + [e]) == NearEnds(q, w) + [Near(q, e)]
    ensures Unflagged(q, w + [e]) <==> Near(q, e) !in NearEnds(q, w)
  {
    var a, b := NearEnds(q, w), NearEnds(q, w + [e]);
    assert b == a + [Near(q, e)];
    if Near(q, e) in a {
      var i :| 0 <= i < |a| && a[i] == Near(q, e);
      assert b[i] == b[|a|];
    }
  }

  // ------------------------------------------------------------ the recursive query

  ghost predicate RowsFor(q: Query, rows: seq<Row>, ws: seq<seq<Edge>>) {
    && |rows| == |ws| && Distinct(ws)
    && forall i :: 0 <= i < |ws| ==> ws[i] != [] && rows[i] == RowOf(q, ws[i])
  }

  /** `w` continues `v` by one followed edge. */
  ghost predicate Continues(q: Query, edges: seq<Edge>, v: seq<Edge>, w: seq<Edge>) {
    v != [] && |w| == |v| + 1 && Init(w) == v && Followed(q, edges, w[|v|]) && Near(q, w[|v|]) == Far(q, v[|v| - 1])
  }

  /** The recursive term for one row of the working table. */
  method JoinRow(q: Query, edges: seq<Edge>, cap: nat, row: Row, ghost v: seq<Edge>)
    returns (next: seq<Row>, ghost ws: seq<seq<Edge>>)
    requires Distinct(edges) && v != [] && row == RowOf(q, v)
    ensures RowsFor(q, next, ws)
    ensures forall w :: w in ws <==> |v| < cap && Unflagged(q, v) && Continues(q, edges, v, w)
  {
    next, ws := [], [];
    if row.depth < cap && !row.cyclic {
      for i := 0 to |edges|
        invariant RowsFor(q, next, ws)
        invariant forall w :: w in ws <==> Continues(q, edges, v, w) && w[|v|] in edges[..i]
      {
        var e := edges[i];
        assert edges[..i + 1] == edges[..i] + [e] && e !in edges[..i];
        if Near(q, e) == Far(q, row.edge) && Followed(q, edges, e) {
          FlagOfNext(q, v, e);
          next := next + [Row(e, row.depth + 1, row.path + [Near(q, e)], Near(q, e) in row.path)];
          assert (v + [e])[|v|] == e && Init(v + [e]) == v;
          ws := ws + [v + [e]];
        }
        forall w | Continues(q, edges, v, w) && w[|v|] == e ensures w == v + [e] {}
      }
      assert edges[..|edges|] == edges;
    }
  }

  /** The seed's own edges. */
  method BaseRows(q: Query, edges: seq<Edge>) returns (rows: seq<Row>, ghost ws: seq<seq<Edge>>)
    requires Distinct(edges)
    ensures RowsFor(q, rows, ws)
    ensures forall w :: w in ws <==> |w| == 1 && Walk(q, edges, w)
  {
    rows, ws := [], [];
    for i := 0 to |edges|
      invariant RowsFor(q, rows, ws)
      invariant forall w :: w in ws <==> |w| == 1 && Walk(q, edges, w) && w[0] in edges[..i]
    {
      var e := edges[i];
      assert edges[..i + 1] == edges[..i] + [e] && e !in edges[..i];
      forall w | |w| == 1 && w[0] == e ensures w == [e] {}
      assert Walk(q, edges, [e]) <==> Followed(q, edges, e) && Near(q, e) == Stop(q, [e], 0);
      if Near(q, e) == q.seed && Followed(q, edges, e) {
        assert NearEnds(q, [e]) == [Near(q, e)];
        rows, ws := rows + [Row(e, 1, [Near(q, e)], false)], ws + [[e]];
      }
    }
    assert edges[..|edges|] == edges;
  }

  /** The rows of one length. */
  ghost predicate LevelFor(q: Query, edges: seq<Edge>, cap: nat, n: nat, ws: seq<seq<Edge>>) {
    forall w :: w in ws <==> HasRow(q, edges, cap, w) && |w| == n
  }

  lemma ContinuesIsWalk(q: Query, edges: seq<Edge>, cap: nat, v: seq<Edge>, w: seq<Edge>)
    requires HasRow(q, edges, cap, v) && Unflagged(q, v) && |v| < cap && Continues(q, edges, v, w)
    ensures HasRow(q, edges, cap, w)
  {
    forall i | 0 <= i < |w| ensures Followed(q, edges, w[i]) && Near(q, w[i]) == Stop(q, w, i) {
      assert Stop(q, w, |v|) == Far(q, v[|v| - 1]);
      if i < |v| { assert w[i] == v[i] && Stop(q, v, i) == Stop(q, w, i); }
    }
  }

  lemma WalkContinues(q: Query, edges: seq<Edge>, cap: nat, w: seq<Edge>)
    requires HasRow(q, edges, cap, w) && |w| > 1
    ensures HasRow(q, edges, cap, Init(w)) && Unflagged(q, Init(w)) && Continues(q, edges, Init(w), w)
  {
    InitHasRow(q, edges, cap, w);
    assert Stop(q, w, |w| - 1) == Far(q, Init(w)[|w| - 2]);
  }

  /** One round of the recursive term: from the rows of length `n` to those of length `n + 1`. */
  method NextLevel(q: Query, edges: seq<Edge>, cap: nat, n: nat, working: seq<Row>, ghost vs: seq<seq<Edge>>)
    returns (next: seq<Row>, ghost ws: seq<seq<Edge>>)
    requires n >= 1 && Distinct(edges) && RowsFor(q, working, vs) && LevelFor(q, edges, cap, n, vs)
    ensures RowsFor(q, next, ws) && LevelFor(q, edges, cap, n + 1, ws)
  {
    next, ws := [], [];
    for i := 0 to |working|
      invariant RowsFor(q, next, ws)
      invariant forall w :: w in ws <==> Extends(q, edges, cap, w) && Init(w) in vs[..i]
    {
      var rows, us := JoinRow(q, edges, cap, working[i], vs[i]);
      TakeNext(vs, i);
      JoinedWalks(q, edges, cap, vs[i], us);
      AppendRows(q, next, ws, rows, us);
      next, ws := next + rows, ws + us;
    }
    assert vs[..|vs|] == vs;
    forall w | Extends(q, edges, cap, w) ensures |w| == n + 1 <==> Init(w) in vs { WalkContinues(q, edges, cap, w); }
  }

  ghost predicate Extends(q: Query, edges: seq<Edge>, cap: nat, w: seq<Edge>) {
    HasRow(q, edges, cap, w) && |w| > 1
  }

  lemma JoinedWalks(q: Query, edges: seq<Edge>, cap: nat, v: seq<Edge>, us: seq<seq<Edge>>)
    requires HasRow(q, edges, cap, v)
    requires forall w :: w in us <==> |v| < cap && Unflagged(q, v) && Continues(q, edges, v, w)
    ensures forall w :: w in us <==> Extends(q, edges, cap, w) && Init(w) == v
  {
    forall w ensures w in us <==> Extends(q, edges, cap, w) && Init(w) == v {
      if w in us { ContinuesIsWalk(q, edges, cap, v, w); }
      if Extends(q, edges, cap, w) && Init(w) == v { WalkContinues(q, edges, cap, w); }
    }
  }

  lemma AppendRows(q: Query, a: seq<Row>, vs: seq<seq<Edge>>, b: seq<Row>, ws: seq<seq<Edge>>)
    requires RowsFor(q, a, vs) && RowsFor(q, b, ws) && forall w :: w in vs ==> w !in ws
    ensures RowsFor(q, a + b, vs + ws)
    ensures forall w :: w in vs + ws <==> w in vs || w in ws
  {
    var all := vs + ws;
    forall i, j | 0 <= i < j < |all| ensures all[i] != all[j] {
      if i < |vs| <= j { assert all[i] in vs && all[j] in ws; }
    }
  }

  /** One row for each walk that has one, in some order. */
  ghost predicate AllRows(q: Query, edges: seq<Edge>, cap: nat, rows: seq<Row>) {
    exists ws :: RowsFor(q, rows, ws) && forall w :: w in ws <==> HasRow(q, edges, cap, w)
  }

  /** The recursive query. It ends on every table of edges, cyclic ones included, with exactly
      one row for each walk that has one. */
  method RecursiveRows(q: Query, edges: seq<Edge>, cap: nat) returns (rows: seq<Row>)
    requires Distinct(edges) && cap >= 1
    ensures AllRows(q, edges, cap, rows)
  {
    var working, vs := BaseRows(q, edges);
    ghost var ws;
    assert LevelFor(q, edges, cap, 1, vs) by {
      forall w: seq<Edge> | |w| == 1 ensures Unflagged(q, Init(w)) { assert NearEnds(q, Init(w)) == []; }
    }
    rows, ws := working, vs;
    var n := 1;
    while working != []
      invariant 1 <= n && (working != [] ==> n <= cap)
      invariant RowsFor(q, working, vs) && LevelFor(q, edges, cap, n, vs)
      invariant RowsFor(q, rows, ws) && forall w :: w in ws <==> HasRow(q, edges, cap, w) && |w| <= n
      decreases cap + 1 - n
    {
      working, vs := NextLevel(q, edges, cap, n, working, vs);
      AppendRows(q, rows, ws, working, vs);
      rows, ws := rows + working, ws + vs;
      n := n + 1;
      if working != [] { assert vs[0] in vs; }
    }
    forall w | HasRow(q, edges, cap, w) ensures |w| <= n { NoLonger(q, edges, cap, n, w); }
  }

  /** Once a level is empty there is nothing longer. */
  lemma {:induction false} NoLonger(q: Query, edges: seq<Edge>, cap: nat, n: nat, w: seq<Edge>)
    requires n >= 1 && HasRow(q, edges, cap, w) && forall v :: HasRow(q, edges, cap, v) ==> |v| != n
    ensures |w| < n
    decreases |w|
  {
    if |w| > n {
      InitHasRow(q, edges, cap, w);
      NoLonger(q, edges, cap, n, Init(w));
    }
  }

  // ------------------------------------------------------------ the answer

  datatype Hit = Hit(edge: Edge, depth: nat)

  /** ORDER BY depth, created_at, parent, child; edges differing in relation only may tie. */
  predicate HitLe(a: Hit, b: Hit) {
    var d, c, p, h :=
        b.depth - a.depth, b.edge.createdAt - a.edge.createdAt, b.edge.parent - a.edge.parent,
          b.edge.child - a.edge.child;
    d > 0 || (d == 0 && (c > 0 || (c == 0 && (p > 0 || (p == 0 && h >= 0)))))
  }

  lemma HitLeIsTotal()
    ensures TotalPreorder(HitLe)
  {}

  /** The walks that are shown: not flagged and short enough. */
  ghost predicate Shown(q: Query, edges: seq<Edge>, maxDepth: nat, w: seq<Edge>) {
    1 <= |w| <= maxDepth && Walk(q, edges, w) && Unflagged(q, w)
  }

  ghost function HitOf(w: seq<Edge>): Hit
    requires w != []
  {
    Hit(w[|w| - 1], |w|)
  }

  ghost predicate AllNonEmpty(ws: seq<seq<Edge>>) {
    forall i :: 0 <= i < |ws| ==> ws[i] != []
  }

  ghost function HitsOf(ws: seq<seq<Edge>>): seq<Hit>
    requires AllNonEmpty(ws)
  {
    if ws == [] then [] else [HitOf(ws[0])] + HitsOf(ws[1..])
  }

  lemma {:induction false} HitsAppend(vs: seq<seq<Edge>>, w: seq<Edge>)
    requires w != [] && AllNonEmpty(vs)
    ensures HitsOf(vs + [w]) == HitsOf(vs) + [HitOf(w)]
  {
    if vs == [] { assert vs + [w] == [w] && HitsOf([w][1..]) == []; }
    else {
      assert vs == [vs[0]] + vs[1..];
      assert (vs + [w])[0] == vs[0] && (vs + [w])[1..] == vs[1..] + [w];
      HitsAppend(vs[1..], w);
    }
  }

  lemma {:induction false} HitsMembers(ws: seq<seq<Edge>>)
    requires AllNonEmpty(ws)
    ensures forall h :: h in HitsOf(ws) <==> exists w :: w in ws && HitOf(w) == h
  {
    if ws != [] {
      assert ws == [ws[0]] + ws[1..];
      HitsMembers(ws[1..]);
    }
  }

  ghost predicate ShownWalks(q: Query, edges: seq<Edge>, maxDepth: nat, ws: seq<seq<Edge>>) {
    AllNonEmpty(ws) && Distinct(ws) && forall w :: w in ws <==> Shown(q, edges, maxDepth, w)
  }

  /** The hits are the last edges of the shown walks with their depths, one hit for each walk. */
  ghost predicate OnePerWalk(q: Query, edges: seq<Edge>, maxDepth: nat, hits: seq<Hit>) {
    exists ws {:trigger ShownWalks(q, edges, maxDepth, ws)} ::
        ShownWalks(q, edges, maxDepth, ws) && multiset(hits) == multiset(HitsOf(ws))
  }

  /** WHERE NOT is_cycle ORDER BY ... */
  method PlainRows(q: Query, rows: seq<Row>, ghost ws: seq<seq<Edge>>)
    returns (sorted: seq<Hit>, ghost us: seq<seq<Edge>>)
    requires RowsFor(q, rows, ws)
    ensures SortedBy(HitLe, sorted)
    ensures Distinct(us) && forall w :: w in us <==> w in ws && Unflagged(q, w)
    ensures AllNonEmpty(us) && multiset(sorted) == multiset(HitsOf(us))
  {
    var plain: seq<Hit> := [];
    us := [];
    for i := 0 to |rows|
      invariant Distinct(us) && forall w :: w in us <==> w in ws[..i] && Unflagged(q, w)
      invariant AllNonEmpty(us) && plain == HitsOf(us)
    {
      TakeNext(ws, i);
      if !rows[i].cyclic {
        HitsAppend(us, ws[i]);
        plain, us := plain + [Hit(rows[i].edge, rows[i].depth)], us + [ws[i]];
      }
    }
    assert ws[..|ws|] == ws;
    sorted := Sort(HitLe, plain);
    HitLeIsTotal();
    SortIsSorted(HitLe, plain);
  }

  function Upto(maxDepth: nat): Hit -> bool {
    (h: Hit) => h.depth <= maxDepth
  }

  lemma CutStep(sorted: seq<Hit>, maxDepth: nat, i: nat)
    requires i < |sorted|
    ensures Keep(Upto(maxDepth), sorted[..i + 1]) ==
            Keep(Upto(maxDepth), sorted[..i]) + if sorted[i].depth <= maxDepth then [sorted[i]] else []
  {
    assert sorted[..i + 1] == sorted[..i] + [sorted[i]];
    KeepAppend(Upto(maxDepth), sorted[..i], [sorted[i]]);
  }

  /** Cuts at the depth asked for, keeping the order, and notes whether anything was cut. */
  method EdgesFromRows(sorted: seq<Hit>, maxDepth: nat) returns (hits: seq<Hit>, truncated: bool)
    requires SortedBy(HitLe, sorted)
    ensures hits == Keep(Upto(maxDepth), sorted) && SortedBy(HitLe, hits)
    ensures truncated <==> exists j :: 0 <= j < |sorted| && sorted[j].depth > maxDepth
  {
    hits, truncated := [], false;
    for i := 0 to |sorted|
      invariant hits == Keep(Upto(maxDepth), sorted[..i])
      invariant truncated <==> exists j :: 0 <= j < i && sorted[j].depth > maxDepth
    {
      CutStep(sorted, maxDepth, i);
      if sorted[i].depth > maxDepth { truncated := true; } else { hits := hits + [sorted[i]]; }
    }
    assert sorted[..|sorted|] == sorted;
    KeepSorted(HitLe, Upto(maxDepth), sorted);
  }

  /** The lineage in one direction: the last edges of the shown walks with their depths, one for
      each walk, in order; truncated exactly when an unflagged walk is one longer than asked for. */
  method Lineage(q: Query, edges: seq<Edge>, maxDepth: nat) returns (hits: seq<Hit>, truncated: bool)
    requires Distinct(edges)
    ensures SortedBy(HitLe, hits) && OnePerWalk(q, edges, maxDepth, hits)
    ensures forall h :: h in hits <==> exists w :: Shown(q, edges, maxDepth, w) && HitOf(w) == h
    ensures truncated <==> exists w :: |w| == maxDepth + 1 && Walk(q, edges, w) && Unflagged(q, w)
  {
    var rows := RecursiveRows(q, edges, maxDepth + 1);
    ghost var ws :| RowsFor(q, rows, ws) && forall w :: w in ws <==> HasRow(q, edges, maxDepth + 1, w);
    var plain, us := PlainRows(q, rows, ws);
    PlainWalks(q, edges, maxDepth + 1, ws, us);
    hits, truncated := EdgesFromRows(plain, maxDepth);
    CutWalks(q, edges, maxDepth, plain, us);
    WalkHits(q, edges, maxDepth, hits);
    TruncatedHits(q, edges, maxDepth, plain, us);
  }

  lemma PlainWalks(q: Query, edges: seq<Edge>, cap: nat, ws: seq<seq<Edge>>, us: seq<seq<Edge>>)
    requires forall w :: w in ws <==> HasRow(q, edges, cap, w)
    requires AllNonEmpty(us) && Distinct(us) && forall w :: w in us <==> w in ws && Unflagged(q, w)
    ensures ShownWalks(q, edges, cap, us)
  {
    forall w ensures w in us <==> Shown(q, edges, cap, w) {
      if Shown(q, edges, cap, w) { UnflaggedPrefix(q, w); }
    }
  }

  /** Keeping the hits up to a depth is keeping the walks up to that length. */
  lemma {:induction false} KeepHits(maxDepth: nat, ws: seq<seq<Edge>>)
    requires AllNonEmpty(ws)
    ensures AllNonEmpty(Keep(Short(maxDepth), ws))
    ensures Keep(Upto(maxDepth), HitsOf(ws)) == HitsOf(Keep(Short(maxDepth), ws))
  {
    if ws != [] {
      KeepHits(maxDepth, ws[1..]);
      var hits, rest := HitsOf(ws), Keep(Short(maxDepth), ws[1..]);
      assert hits[0] == HitOf(ws[0]) && hits[1..] == HitsOf(ws[1..]);
      if |ws[0]| <= maxDepth {
        assert Keep(Short(maxDepth), ws) == [ws[0]] + rest;
        assert ([ws[0]] + rest)[1..] == rest;
        assert Keep(Upto(maxDepth), hits) == [hits[0]] + Keep(Upto(maxDepth), hits[1..]);
      } else {
        assert Keep(Short(maxDepth), ws) == rest;
        assert Keep(Upto(maxDepth), hits) == Keep(Upto(maxDepth), hits[1..]);
      }
    }
  }

  ghost function Short(maxDepth: nat): seq<Edge> -> bool {
    (w: seq<Edge>) => |w| <= maxDepth
  }

  lemma {:induction false} KeepDistinct(maxDepth: nat, ws: seq<seq<Edge>>)
    requires Distinct(ws) && AllNonEmpty(ws)
    ensures Distinct(Keep(Short(maxDepth), ws)) && AllNonEmpty(Keep(Short(maxDepth), ws))
  {
    if ws != [] {
      KeepDistinct(maxDepth, ws[1..]);
      forall w | w in ws[1..] ensures w != ws[0] {}
    }
  }

  lemma CutWalks(q: Query, edges: seq<Edge>, maxDepth: nat, sorted: seq<Hit>, us: seq<seq<Edge>>)
    requires ShownWalks(q, edges, maxDepth + 1, us) && multiset(sorted) == multiset(HitsOf(us))
    ensures OnePerWalk(q, edges, maxDepth, Keep(Upto(maxDepth), sorted))
  {
    var ws := Keep(Short(maxDepth), us);
    KeepDistinct(maxDepth, us);
    forall w ensures w in ws <==> Shown(q, edges, maxDepth, w) { assert w in ws <==> w in us && |w| <= maxDepth; }
    assert ShownWalks(q, edges, maxDepth, ws);
    var hits := Keep(Upto(maxDepth), sorted);
    forall h ensures multiset(hits)[h] == multiset(HitsOf(ws))[h] {
      KeepCounts(Upto(maxDepth), sorted, h);
      KeepCounts(Upto(maxDepth), HitsOf(us), h);
      KeepHits(maxDepth, us);
    }
    assert multiset(hits) == multiset(HitsOf(ws));
  }

  lemma HitsOfShown(q: Query, edges: seq<Edge>, maxDepth: nat, ws: seq<seq<Edge>>, h: Hit)
    requires ShownWalks(q, edges, maxDepth, ws)
    ensures h in HitsOf(ws) <==> exists w :: Shown(q, edges, maxDepth, w) && HitOf(w) == h
  {
    HitsMembers(ws);
    if h in HitsOf(ws) { var w :| w in ws && HitOf(w) == h; }
    if w :| Shown(q, edges, maxDepth, w) && HitOf(w) == h { assert w in ws; }
  }

  lemma WalkHits(q: Query, edges: seq<Edge>, maxDepth: nat, hits: seq<Hit>)
    requires OnePerWalk(q, edges, maxDepth, hits)
    ensures forall h :: h in hits <==> exists w :: Shown(q, edges, maxDepth, w) && HitOf(w) == h
  {
    var ws :| ShownWalks(q, edges, maxDepth, ws) && multiset(hits) == multiset(HitsOf(ws));
    forall h ensures h in hits <==> exists w :: Shown(q, edges, maxDepth, w) && HitOf(w) == h {
      HitsOfShown(q, edges, maxDepth, ws, h);
      assert h in hits <==> h in multiset(hits);
      assert h in HitsOf(ws) <==> h in multiset(HitsOf(ws));
    }
  }

  lemma TruncatedHits(q: Query, edges: seq<Edge>, maxDepth: nat, sorted: seq<Hit>, us: seq<seq<Edge>>)
    requires ShownWalks(q, edges, maxDepth + 1, us) && multiset(sorted) == multiset(HitsOf(us))
    ensures (exists j :: 0 <= j < |sorted| && sorted[j].depth > maxDepth) <==>
              exists w :: |w| == maxDepth + 1 && Walk(q, edges, w) && Unflagged(q, w)
  {
    HitsMembers(us);
    SameElements(sorted, HitsOf(us));
    if j :| 0 <= j < |sorted| && sorted[j].depth > maxDepth {
      assert sorted[j] in HitsOf(us);
      var w :| w in us && HitOf(w) == sorted[j];
      assert Shown(q, edges, maxDepth + 1, w) && |w| == maxDepth + 1;
    }
    if w :| |w| == maxDepth + 1 && Walk(q, edges, w) && Unflagged(q, w) {
      assert Shown(q, edges, maxDepth + 1, w);
      assert w in us && HitOf(w) in sorted;
      var j :| 0 <= j < |sorted| && sorted[j] == HitOf(w);
    }
  }

  // ------------------------------------------------------------ what the answer contains

  ghost predicate ReachedIn(q: Query, edges: seq<Edge>, x: Id, d: nat) {
    exists w :: |w| == d && Walk(q, edges, w) && Stop(q, w, d) == x
  }

  ghost predicate ShortestDistance(q: Query, edges: seq<Edge>, x: Id, d: nat) {
    ReachedIn(q, edges, x, d) && forall k: nat :: k < d ==> !ReachedIn(q, edges, x, k)
  }

  /** Leaving out the loop between two visits. */
  lemma Shortcut(q: Query, edges: seq<Edge>, w: seq<Edge>, i: nat, j: nat)
    requires Walk(q, edges, w) && i < j < |w| && Near(q, w[i]) == Near(q, w[j])
    ensures ReachedIn(q, edges, Stop(q, w, |w|), |w| - (j - i))
  {
    var v := w[..i] + w[j..];
    forall k | 0 <= k < |v| ensures Followed(q, edges, v[k]) && Near(q, v[k]) == Stop(q, v, k) {
      if k < i { assert v[k] == w[k] && Stop(q, v, k) == Stop(q, w, k); }
      else {
        assert v[k] == w[k + (j - i)];
        if k > i { assert v[k - 1] == w[k - 1 + (j - i)]; }
        else { assert Near(q, w[i]) == Stop(q, w, i) == Stop(q, v, i); }
      }
    }
    assert Stop(q, v, |v|) == Stop(q, w, |w|);
  }

  /** A shortest walk visits nothing twice, and neither does one edge more from its end. */
  lemma ShortestUnflagged(q: Query, edges: seq<Edge>, w: seq<Edge>, e: Edge)
    requires Walk(q, edges, w) && ShortestDistance(q, edges, Stop(q, w, |w|), |w|)
    requires Followed(q, edges, e) && Near(q, e) == Stop(q, w, |w|)
    ensures Walk(q, edges, w + [e]) && Unflagged(q, w + [e])
  {
    var v := w + [e];
    forall k | 0 <= k < |v| ensures Followed(q, edges, v[k]) && Near(q, v[k]) == Stop(q, v, k) {
      assert k < |w| ==> v[k] == w[k] && Stop(q, v, k) == Stop(q, w, k);
      assert Stop(q, v, |w|) == Stop(q, w, |w|);
    }
    forall i, j | 0 <= i < j < |v| ensures Near(q, v[i]) != Near(q, v[j]) {
      if Near(q, v[i]) == Near(q, v[j]) {
        if j < |w| { Shortcut(q, edges, w, i, j); }
        else { PrefixReaches(q, edges, w, i); }
      }
    }
  }

  lemma PrefixReaches(q: Query, edges: seq<Edge>, w: seq<Edge>, i: nat)
    requires Walk(q, edges, w) && i <= |w|
    ensures ReachedIn(q, edges, Stop(q, w, i), i)
  {
    var v := w[..i];
    forall k | 0 <= k < |v| ensures Followed(q, edges, v[k]) && Near(q, v[k]) == Stop(q, v, k) {
      assert v[k] == w[k] && Stop(q, v, k) == Stop(q, w, k);
    }
    assert Stop(q, v, i) == Stop(q, w, i);
  }

  /** Nothing near is missed: an edge whose near end is at shortest distance `d`, less than the
      depth asked for, is in the answer at depth `d + 1`, and never at a smaller depth. */
  lemma EdgeAtShortestDepth(q: Query, edges: seq<Edge>, maxDepth: nat, hits: seq<Hit>, e: Edge, d: nat)
    requires forall h :: h in hits <==> exists w :: Shown(q, edges, maxDepth, w) && HitOf(w) == h
    requires Followed(q, edges, e) && ShortestDistance(q, edges, Near(q, e), d) && d < maxDepth
    ensures Hit(e, d + 1) in hits
    ensures forall h :: h in hits && h.edge == e ==> h.depth >= d + 1
  {
    var w :| |w| == d && Walk(q, edges, w) && Stop(q, w, d) == Near(q, e);
    ShortestUnflagged(q, edges, w, e);
    assert Shown(q, edges, maxDepth, w + [e]) && HitOf(w + [e]) == Hit(e, d + 1);
    forall h | h in hits && h.edge == e ensures h.depth >= d + 1 {
      var v :| Shown(q, edges, maxDepth, v) && HitOf(v) == h;
      PrefixReaches(q, edges, v, |v| - 1);
    }
  }

  /** Where every followed edge climbs a rank no walk is ever flagged, so the answer is every walk
      up to the depth asked for. */
  lemma RankedNeverFlagged(q: Query, edges: seq<Edge>, rank: map<Id, int>, w: seq<Edge>)
    requires forall e :: e in edges ==> e.parent in rank && e.child in rank && rank[e.parent] < rank[e.child]
    requires Walk(q, edges, w)
    ensures Unflagged(q, w)
  {
    forall i, j | 0 <= i < j < |w| ensures Near(q, w[i]) != Near(q, w[j]) { RankGrows(q, edges, rank, w, i, j); }
  }

  lemma {:induction false} RankGrows(q: Query, edges: seq<Edge>, rank: map<Id, int>, w: seq<Edge>, i: nat, j: nat)
    requires forall e :: e in edges ==> e.parent in rank && e.child in rank && rank[e.parent] < rank[e.child]
    requires Walk(q, edges, w) && i < j < |w|
    ensures Near(q, w[i]) in rank && Near(q, w[j]) in rank
    ensures if q.ancestors then rank[Near(q, w[j])] < rank[Near(q, w[i])] else rank[Near(q, w[i])] < rank[Near(q, w[j])]
    decreases j
  {
    assert Followed(q, edges, w[j - 1]) && Followed(q, edges, w[j]) && Near(q, w[j]) == Stop(q, w, j);
    if i < j - 1 { RankGrows(q, edges, rank, w, i, j - 1); }
  }
}

/** The exclusion walk of the link candidates: every ancestor of the seeds up to a depth. */
module AncestorWalk {
  import opened LineageWalk

  /** `x` is `d` parents up from one of the seeds. */
  ghost predicate Above(edges: seq<Edge>, seeds: set<Id>, x: Id, d: nat) {
    exists s :: s in seeds && ReachedIn(Query(true, [], s), edges, x, d)
  }

  lemma AboveZero(edges: seq<Edge>, seeds: set<Id>, x: Id)
    ensures Above(edges, seeds, x, 0) <==> x in seeds
  {
    if x in seeds {
      var q, w := Query(true, [], x), [];
      assert |w| == 0 && Walk(q, edges, w) && Stop(q, w, 0) == x;
    }
  }

  lemma LastEdge(q: Query, edges: seq<Edge>, x: Id, d: nat) returns (e: Edge)
    requires ReachedIn(q, edges, x, d + 1)
    ensures Followed(q, edges, e) && Far(q, e) == x && ReachedIn(q, edges, Near(q, e), d)
  {
    var w: seq<Edge> :| |w| == d + 1 && Walk(q, edges, w) && Stop(q, w, d + 1) == x;
    e := w[d];
    PrefixReaches(q, edges, w, d);
  }

  lemma OneEdgeMore(q: Query, edges: seq<Edge>, e: Edge, d: nat)
    requires Followed(q, edges, e) && ReachedIn(q, edges, Near(q, e), d)
    ensures ReachedIn(q, edges, Far(q, e), d + 1)
  {
    var w: seq<Edge> :| |w| == d && Walk(q, edges, w) && Stop(q, w, d) == Near(q, e);
    var v := w + [e];
    forall i | 0 <= i < |v| ensures Followed(q, edges, v[i]) && Near(q, v[i]) == Stop(q, v, i) {
      assert i < d ==> v[i] == w[i] && Stop(q, v, i) == Stop(q, w, i);
      assert Stop(q, v, d) == Stop(q, w, d);
    }
    assert Stop(q, v, d + 1) == Far(q, e);
  }

  function Parents(edges: seq<Edge>, ids: set<Id>): set<Id> {
    set e | e in edges && e.child in ids :: e.parent
  }

  /** One level up is one edge more. */
  lemma AboveNext(edges: seq<Edge>, seeds: set<Id>, level: set<Id>, d: nat)
    requires forall x :: x in level <==> Above(edges, seeds, x, d)
    ensures forall x :: x in Parents(edges, level) <==> Above(edges, seeds, x, d + 1)
  {
    forall x | Above(edges, seeds, x, d + 1) ensures x in Parents(edges, level) {
      var s :| s in seeds && ReachedIn(Query(true, [], s), edges, x, d + 1);
      var e := LastEdge(Query(true, [], s), edges, x, d);
      assert Above(edges, seeds, e.child, d);
    }
    forall x | x in Parents(edges, level) ensures Above(edges, seeds, x, d + 1) {
      var e :| e in edges && e.child in level && e.parent == x;
      var s :| s in seeds && ReachedIn(Query(true, [], s), edges, e.child, d);
      OneEdgeMore(Query(true, [], s), edges, e, d);
    }
  }

  /** The memories `d` parents up. */
  function Generation(edges: seq<Edge>, seeds: set<Id>, d: nat): set<Id> {
    if d == 0 then seeds else Parents(edges, Generation(edges, seeds, d - 1))
  }

  lemma {:induction false} GenerationIsWalks(edges: seq<Edge>, seeds: set<Id>, d: nat)
    ensures forall x :: x in Generation(edges, seeds, d) <==> Above(edges, seeds, x, d)
  {
    if d == 0 {
      forall x ensures x in seeds <==> Above(edges, seeds, x, 0) { AboveZero(edges, seeds, x); }
    } else {
      GenerationIsWalks(edges, seeds, d - 1);
      AboveNext(edges, seeds, Generation(edges, seeds, d - 1), d - 1);
    }
  }

  function Generations(edges: seq<Edge>, seeds: set<Id>, n: nat): set<Id> {
    if n == 0 then seeds else Generations(edges, seeds, n - 1) + Generation(edges, seeds, n)
  }

  lemma {:induction false} GenerationOf(edges: seq<Edge>, seeds: set<Id>, n: nat, x: Id) returns (d: nat)
    requires x in Generations(edges, seeds, n)
    ensures d <= n && x in Generation(edges, seeds, d)
  {
    if n == 0 || x in Generation(edges, seeds, n) { d := n; } else { d := GenerationOf(edges, seeds, n - 1, x); }
  }

  lemma {:induction false} GenerationWithin(edges: seq<Edge>, seeds: set<Id>, d: nat, n: nat)
    requires d <= n
    ensures Generation(edges, seeds, d) <= Generations(edges, seeds, n)
    decreases n
  {
    if d < n { GenerationWithin(edges, seeds, d, n - 1); }
  }

  /** Once a generation is empty nothing is added any more. */
  lemma {:induction false} NoLaterGeneration(edges: seq<Edge>, seeds: set<Id>, n: nat, m: nat)
    requires n <= m && Generation(edges, seeds, n) == {}
    ensures Generation(edges, seeds, m) == {} && Generations(edges, seeds, m) == Generations(edges, seeds, n)
    decreases m
  {
    if n < m { NoLaterGeneration(edges, seeds, n, m - 1); }
  }

  method CollectGenerations(edges: seq<Edge>, seeds: set<Id>, maxDepth: nat) returns (ids: set<Id>)
    ensures ids == Generations(edges, seeds, maxDepth)
  {
    ids := seeds;
    var working, n := seeds, 0;
    while working != {} && n < maxDepth
      invariant n <= maxDepth && working == Generation(edges, seeds, n) && ids == Generations(edges, seeds, n)
      decreases maxDepth - n
    {
      working := Parents(edges, working);
      ids := ids + working;
      n := n + 1;
    }
    if n < maxDepth { NoLaterGeneration(edges, seeds, n, maxDepth); }
  }

  /** Exactly the memories within `maxDepth` parents of a seed, the seeds included. */
  method CollectAncestors(edges: seq<Edge>, seeds: set<Id>, maxDepth: nat) returns (ids: set<Id>)
    ensures forall x :: x in ids <==> exists d: nat :: d <= maxDepth && Above(edges, seeds, x, d)
  {
    ids := CollectGenerations(edges, seeds, maxDepth);
    forall x | x in ids ensures exists d: nat :: d <= maxDepth && Above(edges, seeds, x, d) {
      var d := GenerationOf(edges, seeds, maxDepth, x);
      GenerationIsWalks(edges, seeds, d);
    }
    forall x, d: nat | d <= maxDepth && Above(edges, seeds, x, d) ensures x in ids {
      GenerationIsWalks(edges, seeds, d);
      GenerationWithin(edges, seeds, d, maxDepth);
    }
  }
}
