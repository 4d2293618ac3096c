/** Which relation survives the merge of a list of entities when both its ends are merged, and
    where self-loops come from. */
module MergeSurvivors {
  import opened MergeModel
  import opened MergeTheorems

  // ------------------------------------------------------------ the list in two parts

  lemma {:induction false} MergeListInParts(g: Graph, keep: Id, entities: seq<Id>, n: nat)
    requires n <= |entities|
    ensures MergeList(g, keep, entities) == MergeList(MergeList(g, keep, entities[..n]), keep, entities[n..])
    decreases |entities|
  {
    if n == 0 { assert entities[..0] == [] && entities[0..] == entities; }
    else {
      var part := entities[..n];
      assert part[0] == entities[0] && part[1..] == entities[1..][..n - 1] && entities[1..][n - 1..] == entities[n..];
      MergeListInParts(MergeOne(g, keep, entities[0]), keep, entities[1..], n - 1);
    }
  }

  /** A row that survives a list keeps its kind and its age, and its ends are the substituted ones. */
  lemma {:induction false} RowFollows(g: Graph, keep: Id, entities: seq<Id>, a: Id)
    requires UniqueKeys(g.relations) && NodesApart(g) && keep !in entities && keep in g.nodes
    requires a in MergeList(g, keep, entities).relations
    ensures a in g.relations
    ensures var r := MergeList(g, keep, entities).relations[a];
            && r.createdAt == g.relations[a].createdAt && r.kind == g.relations[a].kind
            && KeyOf(r) == SwapAll(KeyOf(g.relations[a]), NodesOf(g, entities), g.nodes[keep])
    decreases |entities|
  {
    if entities != [] {
      var e, rest := entities[0], entities[1..];
      var g1 := MergeOne(g, keep, e);
      MergeOneKeeps(g, keep, e);
      SplitNodes(g, keep, entities);
      RowFollows(g1, keep, rest, a);
      if e in g.nodes {
        MovedKey(g.relations[a], g.nodes[e], g.nodes[keep]);
        assert e in entities && g.nodes[e] != g.nodes[keep];
      }
    }
  }

  // ------------------------------------------------------------ the order of the list

  /** The position is the first of an entity with a node. */
  ghost predicate Listed(g: Graph, entities: seq<Id>, p: nat) {
    p < |entities| && entities[p] in g.nodes && entities[p] !in entities[..p]
  }

  /** The kept node, or a node listed before position `p`. */
  ghost predicate Within(g: Graph, keep: Id, entities: seq<Id>, p: nat, n: Id)
    requires keep in g.nodes && p <= |entities|
  {
    n == g.nodes[keep] || n in NodesOf(g, entities[..p])
  }

  /** Both ends are merged before position `p`. */
  ghost predicate Settled(g: Graph, keep: Id, entities: seq<Id>, p: nat, k: Key)
    requires keep in g.nodes && p <= |entities|
  {
    Within(g, keep, entities, p, k.src) && Within(g, keep, entities, p, k.dst)
  }

  /** The node at position `p` is the last end of the key to be merged. */
  ghost predicate Arrives(g: Graph, keep: Id, entities: seq<Id>, p: nat, k: Key)
    requires keep in g.nodes && Listed(g, entities, p)
  {
    var n := g.nodes[entities[p]];
    || (k.src == n && k.dst == n)
    || (k.src == n && Within(g, keep, entities, p, k.dst))
    || (k.dst == n && Within(g, keep, entities, p, k.src))
  }

  /** Of the relations of this kind and direction between the node at `p` and nodes before it, this
      is the one whose other end comes first. */
  ghost predicate Leads(g: Graph, keep: Id, entities: seq<Id>, p: nat, k: Key)
    requires keep in g.nodes && Listed(g, entities, p)
  {
    forall i: nat, q, out :: i < p && Leaves(g, entities, p, k, i, out) && Within(g, keep, entities, i, q) ==>
      Beside(g.nodes[entities[p]], q, k.kind, out) !in Keys(g.relations)
  }

  /** The key leads, in this direction, from the node at `p` to the one at `i`. */
  ghost predicate Leaves(g: Graph, entities: seq<Id>, p: nat, k: Key, i: nat, out: bool)
    requires Listed(g, entities, p)
  {
    Listed(g, entities, i) && k == Beside(g.nodes[entities[p]], g.nodes[entities[i]], k.kind, out)
  }

  lemma {:induction false} FirstPosition(g: Graph, entities: seq<Id>, n: Id) returns (i: nat)
    requires n in NodesOf(g, entities)
    ensures Listed(g, entities, i) && g.nodes[entities[i]] == n
    decreases |entities|
  {
    var before, last := entities[..|entities| - 1], |entities| - 1;
    if n in NodesOf(g, before) {
      i := FirstPosition(g, before, n);
      assert before[..i] == entities[..i];
    } else {
      i := last;
      var e :| e in entities && e in g.nodes && g.nodes[e] == n;
      assert entities == before + [entities[last]];
      assert e !in before;
    }
  }

  lemma EarlierEntity(g: Graph, entities: seq<Id>, i: nat, j: nat)
    requires i < j && Listed(g, entities, j)
    ensures entities[i] != entities[j]
  {
    assert entities[i] == entities[..j][i];
  }

  lemma ListedNode(g: Graph, keep: Id, entities: seq<Id>, i: nat, j: nat)
    requires NodesApart(g) && keep in g.nodes && keep !in entities && Listed(g, entities, i)
    ensures g.nodes[entities[i]] != g.nodes[keep]
    ensures g.nodes[entities[i]] !in NodesOf(g, entities[..i])
    ensures Listed(g, entities, j) && g.nodes[entities[j]] == g.nodes[entities[i]] ==> i == j
    ensures i < j <= |entities| ==> g.nodes[entities[i]] in NodesOf(g, entities[..j])
  {
    assert entities[i] in entities;
    if i < j <= |entities| { assert entities[..j][i] == entities[i]; }
    if i < j && Listed(g, entities, j) { EarlierEntity(g, entities, i, j); }
    if j < i { EarlierEntity(g, entities, j, i); }
  }

  /** What is known of the graph before the node at `p` is merged. */
  lemma PrefixFacts(g: Graph, keep: Id, entities: seq<Id>, p: nat)
    requires UniqueKeys(g.relations) && NodesApart(g) && keep !in entities && keep in g.nodes && Listed(g, entities, p)
    ensures var h := MergeList(g, keep, entities[..p]);
            && UniqueKeys(h.relations) && NodesApart(h)
            && keep in h.nodes && h.nodes[keep] == g.nodes[keep]
            && entities[p] in h.nodes && h.nodes[entities[p]] == g.nodes[entities[p]]
            && Keys(h.relations) == Images(Keys(g.relations), NodesOf(g, entities[..p]), g.nodes[keep])
  {
    ListIsSimultaneous(g, keep, entities[..p]);
  }

  /** A row whose last end is at `p` reaches that merge exactly when it leads its group. */
  lemma ReachesItsMerge(g: Graph, keep: Id, entities: seq<Id>, p: nat, a: Id)
    requires UniqueKeys(g.relations) && NodesApart(g) && keep !in entities && keep in g.nodes && Listed(g, entities, p)
    requires a in g.relations && Arrives(g, keep, entities, p, KeyOf(g.relations[a]))
    ensures a in MergeList(g, keep, entities[..p]).relations <==> Leads(g, keep, entities, p, KeyOf(g.relations[a]))
  {
    var part, n, k := entities[..p], g.nodes[entities[p]], KeyOf(g.relations[a]);
    ListedNode(g, keep, entities, p, p);
    if k.src in NodesOf(g, part) { ReachesFromListed(g, keep, entities, p, a, k.src, false); }
    else if k.dst in NodesOf(g, part) { ReachesFromListed(g, keep, entities, p, a, k.dst, true); }
    else {
      KeptNodeWins(g, keep, part, a);
      forall i: nat, out | i < p ensures !Leaves(g, entities, p, k, i, out) {
        if Listed(g, entities, i) { ListedNode(g, keep, entities, i, p); }
      }
    }
  }

  lemma ReachesFromListed(g: Graph, keep: Id, entities: seq<Id>, p: nat, a: Id, m: Id, out: bool)
    requires UniqueKeys(g.relations) && NodesApart(g) && keep !in entities && keep in g.nodes && Listed(g, entities, p)
    requires a in g.relations && m in NodesOf(g, entities[..p])
    requires KeyOf(g.relations[a]) == Beside(g.nodes[entities[p]], m, g.relations[a].kind, out)
    ensures a in MergeList(g, keep, entities[..p]).relations <==> Leads(g, keep, entities, p, KeyOf(g.relations[a]))
  {
    var part, n, k := entities[..p], g.nodes[entities[p]], KeyOf(g.relations[a]);
    ListedNode(g, keep, entities, p, p);
    var i := FirstPosition(g, part, m);
    assert part[..i] == entities[..i];
    ListWinner(g, keep, part, i, a, n, out);
    assert Leaves(g, entities, p, k, i, out);
    forall j: nat, o | j < p && Leaves(g, entities, p, k, j, o) ensures j == i && o == out {
      ListedNode(g, keep, entities, i, j);
    }
    if Leads(g, keep, entities, p, k) {
      forall q | q == g.nodes[keep] || q in NodesOf(g, part[..i])
        ensures Beside(n, q, k.kind, out) !in Keys(g.relations)
      {
        assert Within(g, keep, entities, i, q);
      }
    }
    if NoneBefore(g, keep, part, i, n, k.kind, out) {
      forall j: nat, q, o | j < p && Leaves(g, entities, p, k, j, o) && Within(g, keep, entities, j, q)
        ensures Beside(n, q, k.kind, o) !in Keys(g.relations) {}
    }
  }

  // ------------------------------------------------------------ the merge at the last end

  lemma SwappedEnd(x: Id, nodes: set<Id>, to: Id, n: Id)
    requires n != to && n !in nodes
    ensures (if x in nodes then to else x) == n <==> x == n
    ensures (if x in nodes then to else x) == to <==> x == to || x in nodes
  {}

  /** What the key of a row has become when the node at `p` is about to be merged. */
  lemma ArrivedKey(g: Graph, keep: Id, entities: seq<Id>, p: nat, k: Key)
    requires NodesApart(g) && keep !in entities && keep in g.nodes && Listed(g, entities, p)
    ensures var from, to := g.nodes[entities[p]], g.nodes[keep]; var j := SwapAll(k, NodesOf(g, entities[..p]), to);
            && (Arrives(g, keep, entities, p, k) <==>
                (j.src == from || j.dst == from) && Moved(j, from, to) == Key(to, to, k.kind))
            && (Settled(g, keep, entities, p, k) <==> j == Key(to, to, k.kind))
            && from != to
  {
    ListedNode(g, keep, entities, p, p);
    SwappedEnd(k.src, NodesOf(g, entities[..p]), g.nodes[keep], g.nodes[entities[p]]);
    SwappedEnd(k.dst, NodesOf(g, entities[..p]), g.nodes[keep], g.nodes[entities[p]]);
  }

  /** Some relation of this kind has become a loop at the kept node before position `p`. */
  ghost predicate LoopBefore(g: Graph, keep: Id, entities: seq<Id>, p: nat, kind: string)
    requires keep in g.nodes && p <= |entities|
  {
    exists k :: k in Keys(g.relations) && k.kind == kind && Settled(g, keep, entities, p, k)
  }

  /** The row is the first made of all that lead their group into the node at `p`. */
  ghost predicate FirstMade(g: Graph, keep: Id, entities: seq<Id>, p: nat, a: Id)
    requires keep in g.nodes && Listed(g, entities, p) && a in g.relations
  {
    forall b :: b in g.relations && b != a && Contends(g, keep, entities, p, b, g.relations[a].kind) ==>
        Earlier(g.relations, a, b)
  }

  ghost predicate Contends(g: Graph, keep: Id, entities: seq<Id>, p: nat, b: Id, kind: string)
    requires keep in g.nodes && Listed(g, entities, p) && b in g.relations
  {
    g.relations[b].kind == kind && Arrives(g, keep, entities, p, KeyOf(g.relations[b]))
      && Leads(g, keep, entities, p, KeyOf(g.relations[b]))
  }

  lemma OccupiedExactly(g: Graph, keep: Id, entities: seq<Id>, p: nat, a: Id)
    requires UniqueKeys(g.relations) && NodesApart(g) && keep !in entities && keep in g.nodes && Listed(g, entities, p)
    requires a in g.relations && Arrives(g, keep, entities, p, KeyOf(g.relations[a]))
    requires a in MergeList(g, keep, entities[..p]).relations
    ensures Occupied(MergeList(g, keep, entities[..p]).relations, g.nodes[entities[p]], g.nodes[keep], a)
            <==> LoopBefore(g, keep, entities, p, g.relations[a].kind)
  {
    var part, from, to, kind := entities[..p], g.nodes[entities[p]], g.nodes[keep], g.relations[a].kind;
    var t := MergeList(g, keep, part).relations;
    PrefixFacts(g, keep, entities, p);
    RowFollows(g, keep, part, a);
    ArrivedKey(g, keep, entities, p, KeyOf(g.relations[a]));
    assert Moved(KeyOf(t[a]), from, to) == Key(to, to, kind);
    if Occupied(t, from, to, a) {
      var b :| b in t && !Touches(t[b], from) && KeyOf(t[b]) == Key(to, to, kind);
      RowFollows(g, keep, part, b);
      ArrivedKey(g, keep, entities, p, KeyOf(g.relations[b]));
      assert KeyOf(g.relations[b]) in Keys(g.relations);
    }
    if LoopBefore(g, keep, entities, p, kind) {
      var k :| k in Keys(g.relations) && k.kind == kind && Settled(g, keep, entities, p, k);
      ArrivedKey(g, keep, entities, p, k);
      assert Key(to, to, kind) in Keys(t);
      var b :| b in t && KeyOf(t[b]) == Key(to, to, kind);
      assert !Touches(t[b], from);
    }
  }

  /** The rows that meet at the merge of the node at `p` are those that lead their group. */
  lemma MeetsExactly(g: Graph, keep: Id, entities: seq<Id>, p: nat, b: Id, kind: string)
    requires UniqueKeys(g.relations) && NodesApart(g) && keep !in entities && keep in g.nodes && Listed(g, entities, p)
    requires b in g.relations
    ensures var from, to, t := g.nodes[entities[p]], g.nodes[keep], MergeList(g, keep, entities[..p]).relations;
            b in t && Touches(t[b], from) && Moved(KeyOf(t[b]), from, to) == Key(to, to, kind)
            <==> Contends(g, keep, entities, p, b, kind)
  {
    var part := entities[..p];
    var t := MergeList(g, keep, part).relations;
    ArrivedKey(g, keep, entities, p, KeyOf(g.relations[b]));
    if b in t { RowFollows(g, keep, part, b); }
    if Arrives(g, keep, entities, p, KeyOf(g.relations[b])) { ReachesItsMerge(g, keep, entities, p, b); }
  }

  lemma BeatenExactly(g: Graph, keep: Id, entities: seq<Id>, p: nat, a: Id)
    requires UniqueKeys(g.relations) && NodesApart(g) && keep !in entities && keep in g.nodes && Listed(g, entities, p)
    requires a in g.relations && Arrives(g, keep, entities, p, KeyOf(g.relations[a]))
    requires a in MergeList(g, keep, entities[..p]).relations
    ensures Beaten(MergeList(g, keep, entities[..p]).relations, g.nodes[entities[p]], g.nodes[keep], a)
            <==> !FirstMade(g, keep, entities, p, a)
  {
    var part, from, to, kind := entities[..p], g.nodes[entities[p]], g.nodes[keep], g.relations[a].kind;
    var t := MergeList(g, keep, part).relations;
    RowFollows(g, keep, part, a);
    ArrivedKey(g, keep, entities, p, KeyOf(g.relations[a]));
    assert Moved(KeyOf(t[a]), from, to) == Key(to, to, kind);
    if Beaten(t, from, to, a) {
      var b :| b in t && Touches(t[b], from) && Earlier(t, b, a)
        && Moved(KeyOf(t[b]), from, to) == Moved(KeyOf(t[a]), from, to);
      RowFollows(g, keep, part, b);
      MeetsExactly(g, keep, entities, p, b, kind);
      assert !Earlier(g.relations, a, b) && b != a;
    }
    if !FirstMade(g, keep, entities, p, a) {
      var b :| b in g.relations && b != a && Contends(g, keep, entities, p, b, kind) && !Earlier(g.relations, a, b);
      MeetsExactly(g, keep, entities, p, b, kind);
      RowFollows(g, keep, part, b);
      assert Earlier(t, b, a);
    }
  }

  /** A relation between merged nodes survives the list exactly when none of its kind has both
      ends merged before its own last end is, none of its direction into that node comes from a
      node before its other end, and it is the first made of those that lead their direction,
      the loop among them. */
  lemma InnerWinner(g: Graph, keep: Id, entities: seq<Id>, p: nat, a: Id)
    requires UniqueKeys(g.relations) && NodesApart(g) && keep !in entities && keep in g.nodes && Listed(g, entities, p)
    requires a in g.relations && Arrives(g, keep, entities, p, KeyOf(g.relations[a]))
    ensures a in MergeList(g, keep, entities).relations <==>
            && !LoopBefore(g, keep, entities, p, g.relations[a].kind)
            && Leads(g, keep, entities, p, KeyOf(g.relations[a]))
            && FirstMade(g, keep, entities, p, a)
  {
    var part, e, rest := entities[..p], entities[p], entities[p + 1..];
    var h := MergeList(g, keep, part);
    var g2 := MergeOne(h, keep, e);
    MergeListInParts(g, keep, entities, p);
    assert entities[p..][0] == e && entities[p..][1..] == rest;
    PrefixFacts(g, keep, entities, p);
    ReachesItsMerge(g, keep, entities, p, a);
    assert e in entities;
    MergeOneKeeps(h, keep, e);
    if a in h.relations {
      OccupiedExactly(g, keep, entities, p, a);
      BeatenExactly(g, keep, entities, p, a);
      RowFollows(g, keep, part, a);
      ArrivedKey(g, keep, entities, p, KeyOf(g.relations[a]));
      assert a in g2.relations <==> Survives(h.relations, h.nodes[e], h.nodes[keep], a);
    }
    if a in g2.relations {
      MovedKey(h.relations[a], h.nodes[e], h.nodes[keep]);
      KeptNodeWins(g2, keep, rest, a);
    } else {
      RemovedStays(g2, keep, rest, a);
    }
  }

  /** Every relation between merged nodes has a last end, unless it is a loop at the kept node. */
  lemma LastEnd(g: Graph, keep: Id, entities: seq<Id>, k: Key) returns (p: nat)
    requires NodesApart(g) && keep !in entities && keep in g.nodes
    requires Settled(g, keep, entities, |entities|, k) && (k.src != g.nodes[keep] || k.dst != g.nodes[keep])
    ensures Listed(g, entities, p) && Arrives(g, keep, entities, p, k)
  {
    assert entities[..|entities|] == entities;
    if k.src == g.nodes[keep] { p := FirstPosition(g, entities, k.dst); }
    else if k.dst == g.nodes[keep] { p := FirstPosition(g, entities, k.src); }
    else {
      var i := FirstPosition(g, entities, k.src);
      var j := FirstPosition(g, entities, k.dst);
      ListedNode(g, keep, entities, i, j);
      ListedNode(g, keep, entities, j, i);
      p := if i < j then j else i;
    }
  }

  /** A merge leaves a relation of a kind from the kept node to itself exactly when some relation
      of that kind joined two of the nodes it makes one: linked entities become a self-loop,
      which no caller may link. */
  lemma LoopsExactly(g: Graph, keep: Id, entities: seq<Id>, kind: string)
    requires UniqueKeys(g.relations) && NodesApart(g) && keep !in entities && keep in g.nodes
    ensures Key(g.nodes[keep], g.nodes[keep], kind) in Keys(MergeList(g, keep, entities).relations)
            <==> LoopBefore(g, keep, entities, |entities|, kind)
  {
    ListIsSimultaneous(g, keep, entities);
    var to, gone, keys := g.nodes[keep], NodesOf(g, entities), Keys(g.relations);
    assert Key(to, to, kind) in Images(keys, gone, to) <==>
        exists k :: k in keys && SwapAll(k, gone, to) == Key(to, to, kind);
    forall k ensures Settled(g, keep, entities, |entities|, k) <==> SwapAll(k, gone, to) == Key(to, to, k.kind) {
      SettledInTheEnd(g, keep, entities, k);
    }
  }

  lemma SettledInTheEnd(g: Graph, keep: Id, entities: seq<Id>, k: Key)
    requires keep in g.nodes
    ensures Settled(g, keep, entities, |entities|, k) <==>
            SwapAll(k, NodesOf(g, entities), g.nodes[keep]) == Key(g.nodes[keep], g.nodes[keep], k.kind)
  {
    assert entities[..|entities|] == entities;
  }

  /** Two linked entities and nothing else: the merge makes the self-loop. */
  lemma LinkedEntitiesMakeALoop()
    ensures var g := Graph(map[0 := 0, 1 := 1], map[10 := Rel(0, 1, "knows", 5)]);
            10 in MergeList(g, 0, [1]).relations && MergeList(g, 0, [1]).relations[10] == Rel(0, 0, "knows", 5)
  {
    var g := Graph(map[0 := 0, 1 := 1], map[10 := Rel(0, 1, "knows", 5)]);
    assert [1][1..] == [];
    assert MergeList(g, 0, [1]) == MergeList(MergeOne(g, 0, 1), 0, []);
    assert Survives(g.relations, 1, 0, 10);
  }
}
