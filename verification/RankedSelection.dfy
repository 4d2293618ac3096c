/** The cap on the edges of a lineage answer: ancestors and descendants compete in one ranking. */
module EdgeCap {
  import opened Sorting
  import opened LineageWalk

  /** A place in one of the two lists, with what it is ranked by. */
  datatype Slot = Slot(depth: nat, createdAt: int, parent: Id, child: Id, descendant: bool, index: nat)

  function SlotOf(h: Hit, descendant: bool, index: nat): Slot {
    Slot(h.depth, h.edge.createdAt, h.edge.parent, h.edge.child, descendant, index)
  }

  predicate SlotLe(a: Slot, b: Slot) {
    if a.depth != b.depth then a.depth < b.depth
    else if a.createdAt != b.createdAt then a.createdAt < b.createdAt
    else if a.parent != b.parent then a.parent < b.parent
    else if a.child != b.child then a.child < b.child
    else if a.descendant != b.descendant then b.descendant
    else a.index <= b.index
  }

  lemma SlotLeIsTotal()
    ensures TotalOrder(SlotLe)
  {}

  lemma SlotsFollowHits(a: Hit, i: nat, b: Hit, j: nat, da: bool, db: bool)
    ensures SlotLe(SlotOf(a, da, i), SlotOf(b, db, j)) ==> HitLe(a, b)
    ensures HitLe(a, b) && da == db && i <= j ==> SlotLe(SlotOf(a, da, i), SlotOf(b, db, j))
  {}

  ghost predicate SlotsOf(hits: seq<Hit>, descendant: bool, slots: seq<Slot>) {
    |slots| == |hits| && forall i :: 0 <= i < |hits| ==> slots[i] == SlotOf(hits[i], descendant, i)
  }

  method Enumerate(hits: seq<Hit>, descendant: bool) returns (slots: seq<Slot>)
    ensures SlotsOf(hits, descendant, slots)
  {
    slots := [];
    for i := 0 to |hits|
      invariant |slots| == i && forall j :: 0 <= j < i ==> slots[j] == SlotOf(hits[j], descendant, j)
    {
      slots := slots + [SlotOf(hits[i], descendant, i)];
    }
  }

  lemma SlotsSorted(hits: seq<Hit>, descendant: bool, slots: seq<Slot>)
    requires SlotsOf(hits, descendant, slots) && SortedBy(HitLe, hits)
    ensures SortedBy(SlotLe, slots) && Distinct(slots)
  {
    forall i, j | 0 <= i < j < |slots| ensures SlotLe(slots[i], slots[j]) && slots[i] != slots[j] {
      SlotsFollowHits(hits[i], i, hits[j], j, descendant, descendant);
      assert HitLe(hits[i], hits[j]);
    }
  }

  predicate IsAncestor(s: Slot) { !s.descendant }

  predicate IsDescendant(s: Slot) { s.descendant }

  lemma GroupCounts(up: seq<Slot>, down: seq<Slot>, mixed: seq<Slot>)
    requires multiset(mixed) == multiset(up + down)
    requires (forall s :: s in up ==> IsAncestor(s)) && (forall s :: s in down ==> IsDescendant(s))
    ensures forall x :: multiset(up)[x] == if IsAncestor(x) then multiset(mixed)[x] else 0
    ensures forall x :: multiset(down)[x] == if IsDescendant(x) then multiset(mixed)[x] else 0
  {
    forall x
      ensures multiset(up)[x] == if IsAncestor(x) then multiset(mixed)[x] else 0
      ensures multiset(down)[x] == if IsDescendant(x) then multiset(mixed)[x] else 0
    {
      assert multiset(mixed)[x] == multiset(up)[x] + multiset(down)[x];
      assert x in multiset(up) <==> x in up;
      assert x in multiset(down) <==> x in down;
    }
  }

  lemma NextPick(hits: seq<Hit>, slots: seq<Slot>, descendant: bool, kept: seq<Slot>, i: nat)
    requires SlotsOf(hits, descendant, slots) && i < |kept|
    requires Keep(if descendant then IsDescendant else IsAncestor, kept) <= slots
    ensures var p := if descendant then IsDescendant else IsAncestor;
            var n := |Keep(p, kept[..i])|;
            if kept[i].descendant == descendant then n < |hits| && kept[i].index == n
              && |Keep(p, kept[..i + 1])| == n + 1
            else |Keep(p, kept[..i + 1])| == n
  {
    KeepStep(if descendant then IsDescendant else IsAncestor, kept, slots, i);
  }

  /** The hits at the slots of one kind. */
  method Pick(hits: seq<Hit>, ghost slots: seq<Slot>, descendant: bool, kept: seq<Slot>) returns (r: seq<Hit>)
    requires SlotsOf(hits, descendant, slots)
    requires Keep(if descendant then IsDescendant else IsAncestor, kept) <= slots
    ensures r == hits[..|Keep(if descendant then IsDescendant else IsAncestor, kept)|]
  {
    ghost var p := if descendant then IsDescendant else IsAncestor;
    r := [];
    for i := 0 to |kept|
      invariant |Keep(p, kept[..i])| <= |hits| && r == hits[..|Keep(p, kept[..i])|]
    {
      NextPick(hits, slots, descendant, kept, i);
      if kept[i].descendant == descendant { r := r + [hits[kept[i].index]]; }
    }
    assert kept[..|kept|] == kept;
  }

  /** At most `maxEdges` edges, an initial part of each list, and none dropped that ranks before
      one kept. */
  method ApplyCap(ancestors: seq<Hit>, descendants: seq<Hit>, maxEdges: nat)
    returns (ka: seq<Hit>, kd: seq<Hit>, cut: bool)
    requires SortedBy(HitLe, ancestors) && SortedBy(HitLe, descendants)
    ensures ka <= ancestors && kd <= descendants
    ensures |ka| + |kd| == if |ancestors| + |descendants| <= maxEdges then |ancestors| + |descendants| else maxEdges
    ensures cut <==> |ancestors| + |descendants| > maxEdges
    ensures forall h, x :: h in ka + kd && x in ancestors[|ka|..] + descendants[|kd|..] ==> HitLe(h, x)
  {
    if |ancestors| + |descendants| <= maxEdges { return ancestors, descendants, false; }
    var up := Enumerate(ancestors, false);
    var down := Enumerate(descendants, true);
    var combined := Sort(SlotLe, up + down);
    RankedTogether(ancestors, up, descendants, down, combined, maxEdges);
    var kept := combined[..maxEdges];
    ka := Pick(ancestors, up, false, kept);
    kd := Pick(descendants, down, true, kept);
    SortOfSorted(HitLe, ka);
    SortOfSorted(HitLe, kd);
    ka, kd, cut := Sort(HitLe, ka), Sort(HitLe, kd), true;
  }

  lemma RankedTogether(ancestors: seq<Hit>, up: seq<Slot>, descendants: seq<Hit>, down: seq<Slot>, combined: seq<Slot>,
                       n: nat)
    requires SortedBy(HitLe, ancestors) && SortedBy(HitLe, descendants)
    requires SlotsOf(ancestors, false, up) && SlotsOf(descendants, true, down)
    requires combined == Sort(SlotLe, up + down) && n <= |combined|
    ensures Keep(IsAncestor, combined[..n]) <= up && Keep(IsDescendant, combined[..n]) <= down
    ensures |Keep(IsAncestor, combined[..n])| + |Keep(IsDescendant, combined[..n])| == n
    ensures var a, d := |Keep(IsAncestor, combined[..n])|, |Keep(IsDescendant, combined[..n])|;
            forall h, x :: h in ancestors[..a] + descendants[..d] && x in ancestors[a..] + descendants[d..] ==>
                HitLe(h, x)
  {
    SlotLeIsTotal();
    SortIsSorted(SlotLe, up + down);
    SlotsSorted(ancestors, false, up);
    SlotsSorted(descendants, true, down);
    GroupCounts(up, down, combined);
    PrefixOfGroup(SlotLe, IsAncestor, combined, up, n);
    PrefixOfGroup(SlotLe, IsDescendant, combined, down, n);
    KeptAreSplit(combined[..n]);
    var a, d := |Keep(IsAncestor, combined[..n])|, |Keep(IsDescendant, combined[..n])|;
    SameElements(combined, up + down);
    SplitKept(IsAncestor, combined[..n], up, a);
    SplitKept(IsDescendant, combined[..n], down, d);
    var kept, dropped := up[..a] + down[..d], up[a..] + down[d..];
    forall s, t | s in kept && t in dropped ensures SlotLe(s, t) {
      assert s in combined[..n] && t !in combined[..n] && t in up + down;
      KeptFirst(SlotLe, combined, n, s, t);
    }
    HitsOfSlots(ancestors, up, descendants, down, a, d);
  }

  /** The kept slots of a group are its first ones; the others are not among the kept. */
  lemma SplitKept(p: Slot -> bool, kept: seq<Slot>, group: seq<Slot>, n: nat)
    requires Distinct(group) && n <= |group| && Keep(p, kept) == group[..n] && forall s :: s in group ==> p(s)
    ensures forall s :: s in group[..n] ==> s in kept
    ensures forall s :: s in group[n..] ==> s !in kept
  {
    forall s | s in group[n..] ensures s !in kept {
      var j :| n <= j < |group| && group[j] == s;
      assert s !in group[..n];
    }
  }

  lemma HitsOfSlots(ancestors: seq<Hit>, up: seq<Slot>, descendants: seq<Hit>, down: seq<Slot>, a: nat, d: nat)
    requires SlotsOf(ancestors, false, up) && SlotsOf(descendants, true, down) && a <= |up| && d <= |down|
    requires forall s, t :: s in up[..a] + down[..d] && t in up[a..] + down[d..] ==> SlotLe(s, t)
    ensures forall h, x :: h in ancestors[..a] + descendants[..d] && x in ancestors[a..] + descendants[d..] ==>
              HitLe(h, x)
  {
    forall h, x | h in ancestors[..a] + descendants[..d] && x in ancestors[a..] + descendants[d..] ensures HitLe(h, x) {
      var i, dh := SlotAt(ancestors, up, descendants, down, a, d, h, true);
      var j, dx := SlotAt(ancestors, up, descendants, down, a, d, x, false);
      SlotsFollowHits(h, i, x, j, dh, dx);
    }
  }

  lemma SlotAt(ancestors: seq<Hit>, up: seq<Slot>, descendants: seq<Hit>, down: seq<Slot>, a: nat, d: nat, h: Hit,
               kept: bool)
    returns (i: nat, descendant: bool)
    requires SlotsOf(ancestors, false, up) && SlotsOf(descendants, true, down) && a <= |up| && d <= |down|
    requires h in if kept then ancestors[..a] + descendants[..d] else ancestors[a..] + descendants[d..]
    ensures SlotOf(h, descendant, i) in if kept then up[..a] + down[..d] else up[a..] + down[d..]
  {
    if kept {
      if h in ancestors[..a] {
        descendant := false;
        i :| 0 <= i < a && ancestors[i] == h;
        assert up[..a][i] == SlotOf(h, false, i);
      } else {
        descendant := true;
        i :| 0 <= i < d && descendants[i] == h;
        assert down[..d][i] == SlotOf(h, true, i);
      }
    } else if h in ancestors[a..] {
      descendant := false;
      i :| a <= i < |ancestors| && ancestors[i] == h;
      assert up[a..][i - a] == SlotOf(h, false, i);
    } else {
      descendant := true;
      i :| d <= i < |descendants| && descendants[i] == h;
      assert down[d..][i - d] == SlotOf(h, true, i);
    }
  }

  lemma {:induction false} KeptAreSplit(s: seq<Slot>)
    ensures |Keep(IsAncestor, s)| + |Keep(IsDescendant, s)| == |s|
  {
    if s != [] { KeptAreSplit(s[1..]); }
  }
}

/** Ranking link candidates for the children of a decomposition: per child by score, then a
    global cap over all children. Scores are reals. */
module AutowireCandidates {
  import opened Wrappers
  import opened Sorting

  type Id = nat

  datatype Child = Child(kind: string, tags: seq<string>, blank: bool)

  /** A candidate for the child at a position. */
  datatype Cand = Cand(child: nat, dst: Id, score: real)

  type Similar = seq<(Id, real)>

  /** A1: playbooks, active directives and blank bodies are not wired. */
  predicate Skipped(c: Child) {
    c.blank || c.kind == "playbook" || exists i :: 0 <= i < |c.tags| && "directive:active" <= c.tags[i]
  }

  /** Score descending, then destination descending, then child ascending. */
  predicate CandLe(a: Cand, b: Cand) {
    a.score > b.score || (a.score == b.score && (a.dst > b.dst || (a.dst == b.dst && a.child <= b.child)))
  }

  lemma CandLeIsTotal()
    ensures TotalOrder(CandLe)
  {}

  // ------------------------------------------------------------ one child

  /** The best similarity at or above the threshold. */
  ghost predicate Best(hits: Similar, threshold: real, id: Id, sim: real) {
    (id, sim) in hits && sim >= threshold && forall h :: h in hits && h.0 == id && h.1 >= threshold ==> h.1 <= sim
  }

  method Similarities(hits: Similar, threshold: real) returns (sims: map<Id, real>)
    ensures forall id, sim :: (id in sims && sims[id] == sim) <==> Best(hits, threshold, id, sim)
  {
    sims := map[];
    for i := 0 to |hits|
      invariant forall id :: id in sims ==> Best(hits[..i], threshold, id, sims[id])
      invariant forall h :: h in hits[..i] && h.1 >= threshold ==> h.0 in sims
    {
      var h := hits[i];
      TakeNext(hits, i);
      if h.1 >= threshold && (h.0 !in sims || h.1 > sims[h.0]) { sims := sims[h.0 := h.1]; }
    }
    assert hits[..|hits|] == hits;
    forall id, sim | Best(hits, threshold, id, sim) ensures id in sims && sims[id] == sim {
      assert Best(hits, threshold, id, sims[id]);
    }
  }

  /** Every candidate with a similarity, ranked; the child keeps the first of them. */
  ghost predicate Ranking(pg: map<Id, real>, hits: Similar, threshold: real, child: nat, full: seq<Cand>) {
    && SortedBy(CandLe, full) && Distinct(full)
    && (forall c :: c in full ==> c.child == child && c.dst in pg)
    && (forall id, sim :: id in pg && Best(hits, threshold, id, sim) ==> Cand(child, id, pg[id] * sim) in full)
    && (forall c :: c in full ==> exists sim :: Best(hits, threshold, c.dst, sim) && c.score == pg[c.dst] * sim)
  }

  function Top(full: seq<Cand>, k: nat): seq<Cand> {
    if |full| <= k then full else full[..k]
  }

  method Combine(pg: map<Id, real>, sims: map<Id, real>, child: nat) returns (combined: seq<Cand>)
    ensures Distinct(combined)
    ensures forall c :: c in combined <==>
              c.child == child && c.dst in pg && c.dst in sims && c.score == pg[c.dst] * sims[c.dst]
  {
    combined := [];
    var rest := pg.Keys;
    while rest != {}
      invariant rest <= pg.Keys && Distinct(combined)
      invariant forall c :: c in combined <==>
                  c.child == child && c.dst in pg && c.dst !in rest && c.dst in sims
                    && c.score == pg[c.dst] * sims[c.dst]
      decreases |rest|
    {
      var id :| id in rest;
      if id in sims {
        var score := pg[id] * sims[id];
        forall c: Cand | c.child == child && c.dst == id && c.score == score ensures c == Cand(child, id, score) {}
        combined := combined + [Cand(child, id, score)];
      }
      rest := rest - {id};
    }
  }

  /** A6: combine, rank, take the first `k`. */
  method RankChild(pg: map<Id, real>, hits: Similar, threshold: real, k: nat, child: nat) returns (list: seq<Cand>)
    ensures exists full :: Ranking(pg, hits, threshold, child, full) && list == Top(full, k)
  {
    var sims := Similarities(hits, threshold);
    var combined := Combine(pg, sims, child);
    var ranked := Sort(CandLe, combined);
    CandLeIsTotal();
    SortIsSorted(CandLe, combined);
    SameElements(ranked, combined);
    DistinctIgnoresOrder(combined, ranked);
    list := Top(ranked, k);
    RankedOf(pg, hits, threshold, sims, child, ranked);
  }

  lemma RankedOf(pg: map<Id, real>, hits: Similar, threshold: real, sims: map<Id, real>, child: nat, full: seq<Cand>)
    requires forall id, sim :: (id in sims && sims[id] == sim) <==> Best(hits, threshold, id, sim)
    requires SortedBy(CandLe, full) && Distinct(full)
    requires forall c :: c in full <==>
               c.child == child && c.dst in pg && c.dst in sims && c.score == pg[c.dst] * sims[c.dst]
    ensures Ranking(pg, hits, threshold, child, full)
  {
    forall id, sim | id in pg && Best(hits, threshold, id, sim) ensures Cand(child, id, pg[id] * sim) in full {
      assert id in sims && sims[id] == sim;
    }
    forall c | c in full ensures exists sim :: Best(hits, threshold, c.dst, sim) && c.score == pg[c.dst] * sim {
      assert Best(hits, threshold, c.dst, sims[c.dst]);
    }
  }

  // ------------------------------------------------------------ the global cap

  type Lists = seq<seq<Cand>>

  function Total(lists: Lists): nat {
    if lists == [] then 0 else Total(lists[..|lists| - 1]) + |lists[|lists| - 1]|
  }

  function Flat(lists: Lists): seq<Cand> {
    if lists == [] then [] else Flat(lists[..|lists| - 1]) + lists[|lists| - 1]
  }

  function OfChild(c: nat): Cand -> bool {
    (x: Cand) => x.child == c
  }

  /** Each child's candidates, ranked, none twice. */
  ghost predicate PerChild(lists: Lists) {
    forall i :: 0 <= i < |lists| ==> ChildList(lists[i], i)
  }

  ghost predicate ChildList(list: seq<Cand>, i: nat) {
    SortedBy(CandLe, list) && Distinct(list) && forall c :: c in list ==> c.child == i
  }

  lemma {:induction false} FlatLength(lists: Lists)
    ensures |Flat(lists)| == Total(lists)
  {
    if lists != [] { FlatLength(lists[..|lists| - 1]); }
  }

  lemma {:induction false} FlatCounts(lists: Lists, x: Cand)
    requires PerChild(lists)
    ensures multiset(Flat(lists))[x] == if x.child < |lists| then multiset(lists[x.child])[x] else 0
  {
    if lists != [] {
      var n := |lists| - 1;
      FlatCounts(lists[..n], x);
      assert ChildList(lists[n], n);
      if x.child != n { assert x !in lists[n] && x !in multiset(lists[n]); }
    }
  }

  lemma {:induction false} TotalAfterPush(lists: Lists, c: nat, x: Cand)
    requires c < |lists|
    ensures Total(lists[c := lists[c] + [x]]) == Total(lists) + 1
  {
    var n, after := |lists| - 1, lists[c := lists[c] + [x]];
    if c < n {
      TotalAfterPush(lists[..n], c, x);
      assert after[..n] == lists[..n][c := lists[..n][c] + [x]];
    } else {
      assert after[..n] == lists[..n];
    }
  }

  /** Regroups the kept candidates by child. */
  method Regroup(kept: seq<Cand>, n: nat) returns (grouped: Lists)
    requires forall x :: x in kept ==> x.child < n
    ensures |grouped| == n && Total(grouped) == |kept|
    ensures forall c :: 0 <= c < n ==> grouped[c] == Keep(OfChild(c), kept)
  {
    grouped := seq(n, _ => []);
    NothingYet(n);
    for i := 0 to |kept|
      invariant |grouped| == n && Total(grouped) == i
      invariant forall c :: 0 <= c < n ==> grouped[c] == Keep(OfChild(c), kept[..i])
    {
      var x := kept[i];
      TakeNext(kept, i);
      TotalAfterPush(grouped, x.child, x);
      forall c | 0 <= c < n ensures Keep(OfChild(c), kept[..i + 1]) == grouped[c] + if x.child == c then [x] else [] {
        KeepAppend(OfChild(c), kept[..i], [x]);
      }
      grouped := grouped[x.child := grouped[x.child] + [x]];
    }
    assert kept[..|kept|] == kept;
  }

  lemma {:induction false} NothingYet(n: nat)
    ensures Total(seq(n, _ => [])) == 0
  {
    if n > 0 {
      NothingYet(n - 1);
      var empty: Lists := seq(n, _ => []);
      assert empty[..n - 1] == seq(n - 1, _ => []);
    }
  }

  /** The children's lists after the cap. */
  ghost predicate Capped(lists: Lists, capped: Lists, cap: nat) {
    && |capped| == |lists|
    && (forall i :: 0 <= i < |lists| ==> capped[i] <= lists[i])
    && Total(capped) == (if Total(lists) <= cap then Total(lists) else cap)
    && (forall i, j, h, x :: 0 <= i < |lists| && 0 <= j < |lists| && h in capped[i] && Dropped(lists, capped, j, x) ==>
        CandLe(h, x))
  }

  ghost predicate Dropped(lists: Lists, capped: Lists, j: nat, x: Cand)
    requires j < |lists| == |capped|
  {
    |capped[j]| <= |lists[j]| && x in lists[j][|capped[j]|..]
  }

  /** A7: flatten, sort, keep the first `cap`, regroup. Exactly as many as fit are kept, each
      child keeps the best of its own, and nothing dropped ranks before anything kept. */
  method GlobalCap(lists: Lists, cap: nat) returns (capped: Lists)
    requires PerChild(lists)
    ensures Capped(lists, capped, cap)
  {
    var flat := Flat(lists);
    FlatLength(lists);
    if |flat| <= cap { return lists; }
    var ranked := Sort(CandLe, flat);
    var kept := ranked[..cap];
    CandLeIsTotal();
    SortIsSorted(CandLe, flat);
    forall x | x in kept ensures x.child < |lists| { InFlat(lists, ranked, x); }
    capped := Regroup(kept, |lists|);
    forall c | 0 <= c < |lists| ensures capped[c] <= lists[c] { GroupIsPrefix(lists, ranked, cap, c); }
    ghost var grouped := capped;
    for c := 0 to |lists|
      invariant capped == grouped
    {
      assert ChildList(lists[c], c);
      SortOfSorted(CandLe, capped[c]);
      capped := capped[c := Sort(CandLe, capped[c])];
    }
    forall i, j, h, x | 0 <= i < |lists| && 0 <= j < |lists| && h in capped[i] && Dropped(lists, capped, j, x)
      ensures CandLe(h, x)
    {
      DroppedAfter(lists, ranked, cap, j, x);
      KeptFirst(CandLe, ranked, cap, h, x);
    }
  }

  lemma InFlat(lists: Lists, ranked: seq<Cand>, x: Cand)
    requires PerChild(lists) && multiset(ranked) == multiset(Flat(lists)) && x in ranked
    ensures x.child < |lists| && x in lists[x.child]
  {
    assert x in multiset(ranked);
    FlatCounts(lists, x);
  }

  lemma GroupIsPrefix(lists: Lists, ranked: seq<Cand>, cap: nat, c: nat)
    requires PerChild(lists) && c < |lists| && multiset(ranked) == multiset(Flat(lists)) && cap <= |ranked|
    requires TotalOrder(CandLe) && SortedBy(CandLe, ranked)
    ensures Keep(OfChild(c), ranked[..cap]) <= lists[c]
  {
    assert ChildList(lists[c], c);
    forall x ensures multiset(lists[c])[x] == if OfChild(c)(x) then multiset(ranked)[x] else 0 {
      FlatCounts(lists, x);
      if x.child != c { assert x !in lists[c] && x !in multiset(lists[c]); }
    }
    PrefixOfGroup(CandLe, OfChild(c), ranked, lists[c], cap);
  }

  lemma DroppedAfter(lists: Lists, ranked: seq<Cand>, cap: nat, j: nat, x: Cand)
    requires PerChild(lists) && j < |lists| && multiset(ranked) == multiset(Flat(lists)) && cap <= |ranked|
    requires TotalOrder(CandLe) && SortedBy(CandLe, ranked)
    requires var n := |Keep(OfChild(j), ranked[..cap])|; n <= |lists[j]| && x in lists[j][n..]
    ensures x in ranked && x !in ranked[..cap]
  {
    assert ChildList(lists[j], j);
    GroupIsPrefix(lists, ranked, cap, j);
    var kept := Keep(OfChild(j), ranked[..cap]);
    var i :| |kept| <= i < |lists[j]| && lists[j][i] == x;
    assert kept == lists[j][..|kept|] && x !in kept;
    FlatCounts(lists, x);
    assert x in multiset(lists[j]) && x in multiset(ranked);
  }

  // ------------------------------------------------------------ the whole stage

  /** What each child had before the cap. */
  ghost predicate Uncapped(children: seq<Child>, pg: map<Id, real>, found: seq<Option<Similar>>, threshold: real,
                           k: nat, lists: Lists)
    requires |found| == |children|
  {
    |lists| == |children| && forall i :: 0 <= i < |lists| ==>
        UncappedAt(children[i], pg, found[i], threshold, k, i, lists[i])
  }

  /** Nothing for a skipped child or a failed search; otherwise the first `k` of its ranking. */
  ghost predicate UncappedAt(child: Child, pg: map<Id, real>, found: Option<Similar>, threshold: real, k: nat, i: nat,
                             list: seq<Cand>) {
    if Skipped(child) || found.None? then list == []
    else exists full :: Ranking(pg, found.value, threshold, i, full) && list == Top(full, k)
  }

  lemma UncappedIsPerChild(children: seq<Child>, pg: map<Id, real>, found: seq<Option<Similar>>, threshold: real,
                           k: nat, lists: Lists)
    requires |found| == |children| && Uncapped(children, pg, found, threshold, k, lists)
    ensures PerChild(lists)
  {
    forall i | 0 <= i < |lists| ensures ChildList(lists[i], i) {
      assert UncappedAt(children[i], pg, found[i], threshold, k, i, lists[i]);
      if !Skipped(children[i]) && found[i].Some? {
        var full :| Ranking(pg, found[i].value, threshold, i, full) && lists[i] == Top(full, k);
      }
    }
  }

  /** The stage gave up: switched off, or nothing could be embedded or searched. */
  ghost predicate Degraded(enabled: bool, children: seq<Child>, pg: map<Id, real>, embedded: bool,
                           found: seq<Option<Similar>>)
    requires |found| == |children|
  {
    || !enabled || children == []
    || ((exists i :: 0 <= i < |children| && !Skipped(children[i])) && pg != map[] &&
        (!embedded || forall i :: 0 <= i < |children| && !Skipped(children[i]) ==> found[i].None?))
  }

  /** A6 for every child. */
  method RankAll(children: seq<Child>, pg: map<Id, real>, found: seq<Option<Similar>>, threshold: real, k: nat)
    returns (lists: Lists)
    requires |found| == |children|
    ensures Uncapped(children, pg, found, threshold, k, lists)
  {
    lists := [];
    for i := 0 to |children|
      invariant |lists| == i && forall j :: 0 <= j < i ==>
                  UncappedAt(children[j], pg, found[j], threshold, k, j, lists[j])
    {
      var list: seq<Cand> := [];
      if !Skipped(children[i]) && found[i].Some? {
        list := RankChild(pg, found[i].value, threshold, k, i);
      }
      lists := lists + [list];
    }
  }

  /** Without candidates there is nothing to rank. */
  lemma NothingToRank(children: seq<Child>, pg: map<Id, real>, found: seq<Option<Similar>>, threshold: real, k: nat,
                      cap: nat, lists: Lists)
    requires |found| == |children| == |lists| && forall i :: 0 <= i < |lists| ==> lists[i] == []
    requires pg == map[] || forall i :: 0 <= i < |children| ==> Skipped(children[i])
    ensures Uncapped(children, pg, found, threshold, k, lists) && Capped(lists, lists, cap)
  {
    forall i | 0 <= i < |lists| ensures UncappedAt(children[i], pg, found[i], threshold, k, i, lists[i]) {
      if !Skipped(children[i]) && found[i].Some? { assert Ranking(pg, found[i].value, threshold, i, []); }
    }
    assert lists == seq(|lists|, _ => []);
    NothingYet(|lists|);
  }

  function ByPosition(lists: Lists): map<nat, seq<Cand>> {
    map i: nat | i < |lists| :: lists[i]
  }

  /** Every child position has its list: what the cap leaves of its uncapped ranking. */
  ghost predicate Fetched(children: seq<Child>, pg: map<Id, real>, found: seq<Option<Similar>>, threshold: real, k: nat,
                          cap: nat,
                          result: map<nat, seq<Cand>>)
    requires |found| == |children|
  {
    exists lists, capped ::
        Uncapped(children, pg, found, threshold, k, lists) && Capped(lists, capped, cap) && result == ByPosition(capped)
  }

  /** Candidates per child position. `rows` are the top memories by salience, `ancestors` those
      of the source, `found` the similarity search's answer for each child. */
  method FetchCandidates(enabled: bool, children: seq<Child>, rows: map<Id, real>, source: Id, ancestors: set<Id>,
                         embedded: bool, found: seq<Option<Similar>>, threshold: real, k: nat, cap: nat)
    returns (result: map<nat, seq<Cand>>)
    requires |found| == |children|
    ensures Degraded(enabled, children, rows - {source} - ancestors, embedded, found) ==> result == map[]
    ensures !Degraded(enabled, children, rows - {source} - ancestors, embedded, found) ==>
              Fetched(children, rows - {source} - ancestors, found, threshold, k, cap, result)
  {
    result := map[];
    if !enabled || children == [] { return; }
    var empty: Lists := seq(|children|, _ => []);
    var surviving, answered := false, false;
    for i := 0 to |children|
      invariant surviving <==> exists j :: 0 <= j < i && !Skipped(children[j])
      invariant !answered <==> forall j :: 0 <= j < i && !Skipped(children[j]) ==> found[j].None?
    {
      if !Skipped(children[i]) { surviving, answered := true, answered || found[i].Some?; }
    }
    var pg := rows - {source} - ancestors;
    if !surviving || pg == map[] {
      NothingToRank(children, pg, found, threshold, k, cap, empty);
      return ByPosition(empty);
    }
    if !embedded || !answered { return; }
    var per := RankAll(children, pg, found, threshold, k);
    UncappedIsPerChild(children, pg, found, threshold, k, per);
    var cut := GlobalCap(per, cap);
    result := ByPosition(cut);
  }
}

/** The flat list of a decompose response: the children's destinations, in order, without repeats. */
module FlatDestinations {
  import opened Sorting

  type Id = nat

  function Destinations(byChild: map<Id, seq<Id>>, child: Id): seq<Id> {
    if child in byChild then byChild[child] else []
  }

  /** All destinations, child after child. */
  function Concatenated(children: seq<Id>, byChild: map<Id, seq<Id>>): seq<Id> {
    if children == [] then []
    else Concatenated(children[..|children| - 1], byChild) + Destinations(byChild, children[|children| - 1])
  }

  /** Where `x` first occurs; the length if it does not. */
  function First(s: seq<Id>, x: Id): (n: nat)
    ensures n <= |s| && (n < |s| <==> x in s)
  {
    if s == [] || s[0] == x then 0 else 1 + First(s[1..], x)
  }

  /** Each element of `all` once, in order of first occurrence. */
  ghost predicate FirstsOf(all: seq<Id>, flat: seq<Id>) {
    && (forall x :: x in flat <==> x in all)
    && (forall i, j :: 0 <= i < j < |flat| ==> First(all, flat[i]) < First(all, flat[j]))
  }

  lemma {:induction false} FirstAfterAppend(s: seq<Id>, y: Id, x: Id)
    ensures First(s + [y], x) == if x in s then First(s, x) else if x == y then |s| else |s| + 1
  {
    if s != [] {
      assert (s + [y])[1..] == s[1..] + [y];
      FirstAfterAppend(s[1..], y, x);
    }
  }

  lemma NextFirst(all: seq<Id>, flat: seq<Id>, x: Id)
    requires FirstsOf(all, flat)
    ensures FirstsOf(all + [x], if x in flat then flat else flat + [x])
  {
    var next := if x in flat then flat else flat + [x];
    forall i, j | 0 <= i < j < |next| ensures First(all + [x], next[i]) < First(all + [x], next[j]) {
      FirstAfterAppend(all, x, next[i]);
      FirstAfterAppend(all, x, next[j]);
      assert flat[i] in all;
    }
  }

  /** `FirstsOf` leaves no choice: no repeats, and one order. */
  lemma {:induction false} FirstsUnique(all: seq<Id>, a: seq<Id>, b: seq<Id>)
    requires FirstsOf(all, a) && FirstsOf(all, b)
    ensures Distinct(a) && a == b
  {
    SameByRank(all, a, b);
  }

  lemma {:induction false} SameByRank(all: seq<Id>, a: seq<Id>, b: seq<Id>)
    requires (forall x :: x in a <==> x in b)
    requires forall i, j :: 0 <= i < j < |a| ==> First(all, a[i]) < First(all, a[j])
    requires forall i, j :: 0 <= i < j < |b| ==> First(all, b[i]) < First(all, b[j])
    ensures a == b
  {
    assert a != [] ==> a[0] in b;
    assert b != [] ==> b[0] in a;
    if a != [] {
      var i :| 0 <= i < |b| && b[i] == a[0];
      var j :| 0 <= j < |a| && a[j] == b[0];
      assert forall k :: 0 < k < |a| ==> First(all, a[0]) < First(all, a[k]);
      assert forall k :: 0 < k < |b| ==> First(all, b[0]) < First(all, b[k]);
      assert a == [a[0]] + a[1..] && b == [a[0]] + b[1..];
      assert a[0] !in a[1..] && a[0] !in b[1..];
      forall x | x in a[1..] ensures x in b[1..] { assert x in a && x != a[0]; }
      forall x | x in b[1..] ensures x in a[1..] { assert x in b && x != a[0]; }
      SameByRank(all, a[1..], b[1..]);
    }
  }

  method AppendUnseen(ghost all: seq<Id>, flat: seq<Id>, seen: set<Id>, more: seq<Id>)
    returns (next: seq<Id>, nextSeen: set<Id>)
    requires FirstsOf(all, flat) && forall x :: x in seen <==> x in flat
    ensures FirstsOf(all + more, next) && forall x :: x in nextSeen <==> x in next
  {
    next, nextSeen := flat, seen;
    ghost var sofar := all;
    for i := 0 to |more|
      invariant sofar == all + more[..i] && FirstsOf(sofar, next)
      invariant forall x :: x in nextSeen <==> x in next
    {
      NextFirst(sofar, next, more[i]);
      OneMore(all, more, i);
      sofar := sofar + [more[i]];
      if more[i] !in nextSeen { next, nextSeen := next + [more[i]], nextSeen + {more[i]}; }
    }
    assert more[..|more|] == more;
  }

  lemma OneMore(all: seq<Id>, more: seq<Id>, i: nat)
    requires i < |more|
    ensures all + more[..i + 1] == all + more[..i] + [more[i]]
  {
    assert more[..i + 1] == more[..i] + [more[i]];
  }

  /** The ordered unique iteration over all children. */
  method Flatten(children: seq<Id>, byChild: map<Id, seq<Id>>) returns (flat: seq<Id>)
    ensures FirstsOf(Concatenated(children, byChild), flat)
  {
    flat := [];
    var seen: set<Id> := {};
    for i := 0 to |children|
      invariant FirstsOf(Concatenated(children[..i], byChild), flat) && forall x :: x in seen <==> x in flat
    {
      assert children[..i + 1][..i] == children[..i];
      flat, seen := AppendUnseen(Concatenated(children[..i], byChild), flat, seen, Destinations(byChild, children[i]));
    }
    assert children[..|children|] == children;
  }
}
