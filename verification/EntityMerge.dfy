/** Merging entities: the relation table is rewritten to its quotient under
    "merged node becomes kept node", one node at a time and one row at a time, without ever
    breaking the unique key over (source, target, type). */
module MergeModel {
  type Id = nat

  datatype Rel = Rel(src: Id, dst: Id, kind: string, createdAt: int)

  datatype Key = Key(src: Id, dst: Id, kind: string)

  type Table = map<Id, Rel>

  function KeyOf(r: Rel): Key {
    Key(r.src, r.dst, r.kind)
  }

  function Swap(n: Id, from: Id, to: Id): Id {
    if n == from then to else n
  }

  function Moved(k: Key, from: Id, to: Id): Key {
    Key(Swap(k.src, from, to), Swap(k.dst, from, to), k.kind)
  }

  predicate Touches(r: Rel, n: Id) {
    r.src == n || r.dst == n
  }

  /** UNIQUE(src_node_id, dst_node_id, type). */
  ghost predicate UniqueKeys(t: Table) {
    forall a, b :: a in t && b in t && KeyOf(t[a]) == KeyOf(t[b]) ==> a == b
  }

  ghost function Keys(t: Table): set<Key> {
    set a | a in t :: KeyOf(t[a])
  }

  /** Creation order with the id as tie-break: the order in which rows are moved. */
  predicate Earlier(t: Table, a: Id, b: Id)
    requires a in t && b in t
  {
    t[a].createdAt < t[b].createdAt || (t[a].createdAt == t[b].createdAt && a < b)
  }

  /** A row already sitting where `a` would move keeps that place. */
  predicate Occupied(t: Table, from: Id, to: Id, a: Id)
    requires a in t
  {
    exists b :: b in t && !Touches(t[b], from) && KeyOf(t[b]) == Moved(KeyOf(t[a]), from, to)
  }

  /** An earlier moved row takes the place `a` would move to. */
  predicate Beaten(t: Table, from: Id, to: Id, a: Id)
    requires a in t
  {
    exists b :: b in t && Touches(t[b], from) && Earlier(t, b, a)
      && Moved(KeyOf(t[b]), from, to) == Moved(KeyOf(t[a]), from, to)
  }

  predicate Survives(t: Table, from: Id, to: Id, a: Id)
    requires a in t
  {
    !Touches(t[a], from) || (!Occupied(t, from, to, a) && !Beaten(t, from, to, a))
  }

  function MovedRow(r: Rel, from: Id, to: Id): Rel {
    r.(src := Swap(r.src, from, to), dst := Swap(r.dst, from, to))
  }

  /** The table after merging node `from` into node `to`. */
  function Merged(t: Table, from: Id, to: Id): Table {
    map a | a in t && Survives(t, from, to, a) :: MovedRow(t[a], from, to)
  }
}

/** What one node merge, and a whole list of them, does to the keys. */
module MergeTheorems {
  import opened MergeModel

  lemma MovedKey(r: Rel, from: Id, to: Id)
    ensures KeyOf(MovedRow(r, from, to)) == Moved(KeyOf(r), from, to)
    ensures !Touches(r, from) ==> MovedRow(r, from, to) == r
    ensures from != to ==> !Touches(MovedRow(r, from, to), from)
  {}

  /** Of the rows with one target key, the earliest moved one is beaten by none. */
  lemma {:induction false} EarliestExists(t: Table, candidates: set<Id>) returns (a: Id)
    requires candidates != {} && candidates <= t.Keys
    ensures a in candidates && forall b :: b in candidates && b != a ==> Earlier(t, a, b)
    decreases |candidates|
  {
    var x :| x in candidates;
    if candidates == {x} { a := x; }
    else {
      var rest := candidates - {x};
      assert candidates == rest + {x};
      var y := EarliestExists(t, rest);
      a := if Earlier(t, x, y) then x else y;
      forall b | b in candidates && b != a ensures Earlier(t, a, b) {
        if b != x && b != y { assert b in rest && Earlier(t, y, b); }
      }
    }
  }

  /** Every place some row had or moved to is taken afterwards: by the row already there, or
      else by the earliest moved one. */
  lemma WinnerOfKey(t: Table, from: Id, to: Id, a: Id) returns (w: Id)
    requires a in t && UniqueKeys(t)
    ensures w in t && Survives(t, from, to, w) && Moved(KeyOf(t[w]), from, to) == Moved(KeyOf(t[a]), from, to)
    ensures Touches(t[w], from) ==>
              forall b :: b in t && b != w && Moved(KeyOf(t[b]), from, to) == Moved(KeyOf(t[a]), from, to) ==>
              Touches(t[b], from) && Earlier(t, w, b)
  {
    var k := Moved(KeyOf(t[a]), from, to);
    var settled := set b | b in t && !Touches(t[b], from) && KeyOf(t[b]) == k;
    if settled != {} {
      w :| w in settled;
      MovedKey(t[w], from, to);
    } else {
      var movers := set b | b in t && Touches(t[b], from) && Moved(KeyOf(t[b]), from, to) == k;
      forall b | b in t && Moved(KeyOf(t[b]), from, to) == k ensures b in movers {
        MovedKey(t[b], from, to);
        assert !Touches(t[b], from) ==> b in settled;
      }
      w := EarliestExists(t, movers);
      assert forall b :: b in t && !Touches(t[b], from) && KeyOf(t[b]) == k ==> b in settled;
    }
  }

  /** The keys afterwards are the image of the keys before. */
  lemma KeysAreImage(t: Table, from: Id, to: Id)
    requires UniqueKeys(t)
    ensures Keys(Merged(t, from, to)) == set k | k in Keys(t) :: Moved(k, from, to)
  {
    var m := Merged(t, from, to);
    forall k | k in Keys(m) ensures k in (set k | k in Keys(t) :: Moved(k, from, to)) {
      var a :| a in m && KeyOf(m[a]) == k;
      MovedKey(t[a], from, to);
      assert KeyOf(t[a]) in Keys(t);
    }
    forall k | k in Keys(t) ensures Moved(k, from, to) in Keys(m) {
      var a :| a in t && KeyOf(t[a]) == k;
      var w := WinnerOfKey(t, from, to, a);
      MovedKey(t[w], from, to);
      assert w in m && KeyOf(m[w]) == Moved(k, from, to);
    }
  }

  /** The keys stay unique, no row touches the removed node, and a row that did not is unchanged. */
  lemma MergedTable(t: Table, from: Id, to: Id)
    requires UniqueKeys(t) && from != to
    ensures UniqueKeys(Merged(t, from, to))
    ensures forall a :: a in Merged(t, from, to) ==> !Touches(Merged(t, from, to)[a], from)
    ensures forall a :: a in t && !Touches(t[a], from) ==> a in Merged(t, from, to) && Merged(t, from, to)[a] == t[a]
  {
    var m := Merged(t, from, to);
    forall a | a in t ensures KeyOf(MovedRow(t[a], from, to)) == Moved(KeyOf(t[a]), from, to) {
      MovedKey(t[a], from, to);
    }
    forall a, b | a in m && b in m && KeyOf(m[a]) == KeyOf(m[b]) ensures a == b {
      MovedKey(t[a], from, to);
      MovedKey(t[b], from, to);
      assert Earlier(t, a, b) || Earlier(t, b, a) || a == b;
    }
  }

  // ------------------------------------------------------------ a list of merges

  /** The graph-node registry of the entities and the relation table. */
  datatype Graph = Graph(nodes: map<Id, Id>, relations: Table)

  /** One entity of the list: nothing without a node, a rebinding while `keep` has none, and
      otherwise a node merge. */
  function MergeOne(g: Graph, keep: Id, e: Id): Graph {
    if e !in g.nodes then g
    else if keep !in g.nodes then g.(nodes := (g.nodes - {e})[keep := g.nodes[e]])
    else Graph(g.nodes - {e}, Merged(g.relations, g.nodes[e], g.nodes[keep]))
  }

  function MergeList(g: Graph, keep: Id, entities: seq<Id>): Graph
    decreases |entities|
  {
    if entities == [] then g else MergeList(MergeOne(g, keep, entities[0]), keep, entities[1..])
  }

  ghost predicate NodesApart(g: Graph) {
    forall a, b :: a in g.nodes && b in g.nodes && g.nodes[a] == g.nodes[b] ==> a == b
  }

  /** The nodes of the entities in the list. */
  function NodesOf(g: Graph, entities: seq<Id>): set<Id> {
    set e | e in entities && e in g.nodes :: g.nodes[e]
  }

  /** The simultaneous substitution: every node of the set becomes `to`. */
  function SwapAll(k: Key, nodes: set<Id>, to: Id): Key {
    Key(if k.src in nodes then to else k.src, if k.dst in nodes then to else k.dst, k.kind)
  }

  lemma MergeOneKeeps(g: Graph, keep: Id, e: Id)
    requires UniqueKeys(g.relations) && NodesApart(g) && e != keep
    ensures UniqueKeys(MergeOne(g, keep, e).relations) && NodesApart(MergeOne(g, keep, e))
    ensures e !in MergeOne(g, keep, e).nodes
    ensures forall x :: x != e && x != keep ==> (x in MergeOne(g, keep, e).nodes <==> x in g.nodes)
    ensures forall x :: x != e && x != keep && x in g.nodes ==> MergeOne(g, keep, e).nodes[x] == g.nodes[x]
    ensures keep in g.nodes ==> keep in MergeOne(g, keep, e).nodes && MergeOne(g, keep, e).nodes[keep] == g.nodes[keep]
  {
    if e in g.nodes && keep in g.nodes { MergedTable(g.relations, g.nodes[e], g.nodes[keep]); }
  }

  ghost function Images(keys: set<Key>, nodes: set<Id>, to: Id): set<Key> {
    set k | k in keys :: SwapAll(k, nodes, to)
  }

  ghost function Members(s: seq<Id>): set<Id> {
    set x | x in s
  }

  /** Merging a list one by one is the simultaneous substitution of all its nodes by the kept
      one, and no row touches a removed node afterwards. */
  lemma {:induction false} ListIsSimultaneous(g: Graph, keep: Id, entities: seq<Id>)
    requires UniqueKeys(g.relations) && NodesApart(g) && keep !in entities && keep in g.nodes
    ensures var h := MergeList(g, keep, entities);
            && UniqueKeys(h.relations) && h.nodes == g.nodes - Members(entities)
            && Keys(h.relations) == Images(Keys(g.relations), NodesOf(g, entities), g.nodes[keep])
    ensures g.nodes[keep] !in NodesOf(g, entities)
    decreases |entities|
  {
    var gone, to := NodesOf(g, entities), g.nodes[keep];
    forall e | e in entities && e in g.nodes ensures g.nodes[e] != to { assert e != keep; }
    if entities == [] {
      forall k ensures SwapAll(k, gone, to) == k {}
      assert Images(Keys(g.relations), gone, to) == Keys(g.relations);
    } else {
      var e, rest := entities[0], entities[1..];
      var g1 := MergeOne(g, keep, e);
      MergeOneKeeps(g, keep, e);
      ListIsSimultaneous(g1, keep, rest);
      assert Members(entities) == {e} + Members(rest);
      SplitNodes(g, keep, entities);
      var later := NodesOf(g1, rest);
      if e in g.nodes {
        var from := g.nodes[e];
        KeysAreImage(g.relations, from, to);
        forall k ensures SwapAll(Moved(k, from, to), later, to) == SwapAll(k, gone, to) {}
        ComposeImages(Keys(g.relations), Keys(g1.relations), from, to, later, gone);
      }
    }
  }

  lemma SplitNodes(g: Graph, keep: Id, entities: seq<Id>)
    requires NodesApart(g) && keep in g.nodes && keep !in entities && entities != []
    ensures var g1, e := MergeOne(g, keep, entities[0]), entities[0];
            && (e in g.nodes ==> NodesOf(g, entities) == NodesOf(g1, entities[1..]) + {g.nodes[e]})
            && (e in g.nodes ==> g.nodes[e] !in NodesOf(g1, entities[1..]))
            && (e !in g.nodes ==> NodesOf(g, entities) == NodesOf(g1, entities[1..]))
  {
    var g1, e, rest := MergeOne(g, keep, entities[0]), entities[0], entities[1..];
    forall x ensures x in entities <==> x == e || x in rest { assert entities == [e] + rest; }
    forall n | n in NodesOf(g, entities) ensures (e in g.nodes && n == g.nodes[e]) || n in NodesOf(g1, rest) {
      var x :| x in entities && x in g.nodes && g.nodes[x] == n;
      if x != e { assert x in rest && x in g1.nodes && g1.nodes[x] == n; }
    }
    forall n | n in NodesOf(g1, rest) ensures n in NodesOf(g, entities) && (e in g.nodes ==> n != g.nodes[e]) {
      var x :| x in rest && x in g1.nodes && g1.nodes[x] == n;
      assert x in entities && x in g.nodes && g.nodes[x] == n && (e in g.nodes ==> x != e);
    }
  }

  lemma ComposeImages(keys: set<Key>, moved: set<Key>, from: Id, to: Id, later: set<Id>, gone: set<Id>)
    requires moved == set k | k in keys :: Moved(k, from, to)
    requires forall k :: SwapAll(Moved(k, from, to), later, to) == SwapAll(k, gone, to)
    ensures Images(moved, later, to) == Images(keys, gone, to)
  {
    forall x | x in Images(moved, later, to) ensures x in Images(keys, gone, to) {
      var m :| m in moved && SwapAll(m, later, to) == x;
      var k :| k in keys && Moved(k, from, to) == m;
      assert SwapAll(k, gone, to) == x;
    }
    forall k | k in keys ensures SwapAll(k, gone, to) in Images(moved, later, to) {
      assert Moved(k, from, to) in moved;
      assert SwapAll(Moved(k, from, to), later, to) == SwapAll(k, gone, to);
    }
  }

  lemma NoRowTouchesRemoved(g: Graph, keep: Id, entities: seq<Id>, a: Id)
    requires UniqueKeys(g.relations) && NodesApart(g) && keep !in entities && keep in g.nodes
    requires a in MergeList(g, keep, entities).relations
    ensures var r := MergeList(g, keep, entities).relations[a];
            r.src !in NodesOf(g, entities) && r.dst !in NodesOf(g, entities)
  {
    ListIsSimultaneous(g, keep, entities);
    var h := MergeList(g, keep, entities);
    assert KeyOf(h.relations[a]) in Keys(h.relations);
    var k :| k in Keys(g.relations) && SwapAll(k, NodesOf(g, entities), g.nodes[keep]) == KeyOf(h.relations[a]);
  }

  // ------------------------------------------------------------ which row survives a list

  /** The key of a relation between `n` and a node `x` that is not merged, in either direction. */
  function Beside(x: Id, n: Id, kind: string, out: bool): Key {
    if out then Key(x, n, kind) else Key(n, x, kind)
  }

  lemma OneMergeBeside(t: Table, from: Id, to: Id, a: Id, x: Id, n: Id, out: bool)
    requires UniqueKeys(t) && from != to && x != from && x != to
    requires a in t && KeyOf(t[a]) == Beside(x, n, t[a].kind, out)
    ensures n == from ==> (a in Merged(t, from, to) <==> Beside(x, to, t[a].kind, out) !in Keys(t))
    ensures n != from ==> a in Merged(t, from, to)
    ensures a in Merged(t, from, to) ==>
              Merged(t, from, to)[a].kind == t[a].kind
                && KeyOf(Merged(t, from, to)[a]) == Beside(x, Swap(n, from, to), t[a].kind, out)
  {
    var k := Beside(x, to, t[a].kind, out);
    if n == from {
      assert !Beaten(t, from, to, a) by {
        forall b | b in t && Moved(KeyOf(t[b]), from, to) == k && Touches(t[b], from) ensures b == a {
          assert KeyOf(t[b]) == KeyOf(t[a]);
        }
      }
      if k in Keys(t) {
        var b :| b in t && KeyOf(t[b]) == k;
        assert !Touches(t[b], from);
      }
    }
  }

  /** Which keys are there beside `x` after one merge. */
  lemma KeysBeside(t: Table, from: Id, to: Id, x: Id, n: Id, kind: string, out: bool)
    requires UniqueKeys(t) && from != to && x != from && x != to && n != from
    ensures Beside(x, n, kind, out) in Keys(Merged(t, from, to)) <==>
            Beside(x, n, kind, out) in Keys(t) || (n == to && Beside(x, from, kind, out) in Keys(t))
  {
    KeysAreImage(t, from, to);
    var k := Beside(x, n, kind, out);
    if k in Keys(t) { assert Moved(k, from, to) == k; }
    if n == to && Beside(x, from, kind, out) in Keys(t) { assert Moved(Beside(x, from, kind, out), from, to) == k; }
    if k in Keys(Merged(t, from, to)) {
      var j :| j in Keys(t) && Moved(j, from, to) == k;
      assert j == k || j == Beside(x, from, kind, out);
    }
  }

  /** A relation between the kept node and another one survives every list as it is. */
  lemma {:induction false} KeptNodeWins(g: Graph, keep: Id, entities: seq<Id>, a: Id)
    requires UniqueKeys(g.relations) && NodesApart(g) && keep !in entities && keep in g.nodes
    requires a in g.relations && g.relations[a].src !in NodesOf(g, entities)
             && g.relations[a].dst !in NodesOf(g, entities)
    ensures a in MergeList(g, keep, entities).relations && MergeList(g, keep, entities).relations[a] == g.relations[a]
    decreases |entities|
  {
    if entities != [] {
      var e, rest := entities[0], entities[1..];
      var g1 := MergeOne(g, keep, e);
      MergeOneKeeps(g, keep, e);
      SplitNodes(g, keep, entities);
      if e in g.nodes { MergedTable(g.relations, g.nodes[e], g.nodes[keep]); }
      KeptNodeWins(g1, keep, rest, a);
    }
  }

  /** No relation of this kind joins `x` to the kept node or to a node listed before position `i`. */
  ghost predicate NoneBefore(g: Graph, keep: Id, entities: seq<Id>, i: nat, x: Id, kind: string, out: bool)
    requires keep in g.nodes && i <= |entities|
  {
    forall m :: m == g.nodes[keep] || m in NodesOf(g, entities[..i]) ==> Beside(x, m, kind, out) !in Keys(g.relations)
  }

  /** Of the relations of one kind between merged nodes and a node outside, the one whose node
      comes first in the list survives, whenever it was created; any of the kept node comes
      before them all. */
  lemma {:induction false} ListWinner(g: Graph, keep: Id, entities: seq<Id>, i: nat, a: Id, x: Id, out: bool)
    requires UniqueKeys(g.relations) && NodesApart(g) && keep !in entities && keep in g.nodes
    requires i < |entities| && entities[i] in g.nodes && entities[i] !in entities[..i]
    requires x != g.nodes[keep] && x !in NodesOf(g, entities)
    requires a in g.relations && KeyOf(g.relations[a]) == Beside(x, g.nodes[entities[i]], g.relations[a].kind, out)
    ensures a in MergeList(g, keep, entities).relations <==>
              NoneBefore(g, keep, entities, i, x, g.relations[a].kind, out)
    decreases |entities|
  {
    var e, rest, to, kind := entities[0], entities[1..], g.nodes[keep], g.relations[a].kind;
    var g1 := MergeOne(g, keep, e);
    MergeOneKeeps(g, keep, e);
    SplitNodes(g, keep, entities);
    assert entities == [e] + rest;
    if e in g.nodes {
      assert e in entities && g.nodes[e] in NodesOf(g, entities);
      OneMergeBeside(g.relations, g.nodes[e], to, a, x, g.nodes[entities[i]], out);
    }
    if i == 0 {
      assert NodesOf(g, entities[..0]) == {};
      if a in g1.relations { KeptNodeWins(g1, keep, rest, a); }
      else { RemovedStays(g1, keep, rest, a); }
    } else {
      assert rest[i - 1] == entities[i] && rest[..i - 1] == entities[1..i];
      assert entities[i] in g1.nodes && a in g1.relations;
      ListWinner(g1, keep, rest, i - 1, a, x, out);
      NoneBeforeShifts(g, keep, entities, i, x, kind, out);
    }
  }

  lemma {:induction false} RemovedStays(g: Graph, keep: Id, entities: seq<Id>, a: Id)
    requires a !in g.relations
    ensures a !in MergeList(g, keep, entities).relations
    decreases |entities|
  {
    if entities != [] { RemovedStays(MergeOne(g, keep, entities[0]), keep, entities[1..], a); }
  }

  lemma NoneBeforeShifts(g: Graph, keep: Id, entities: seq<Id>, i: nat, x: Id, kind: string, out: bool)
    requires UniqueKeys(g.relations) && NodesApart(g) && keep !in entities && keep in g.nodes && 0 < i <= |entities|
    requires x != g.nodes[keep] && x !in NodesOf(g, entities)
    ensures keep in MergeOne(g, keep, entities[0]).nodes
    ensures NoneBefore(MergeOne(g, keep, entities[0]), keep, entities[1..], i - 1, x, kind, out)
            <==> NoneBefore(g, keep, entities, i, x, kind, out)
  {
    var e, to, part := entities[0], g.nodes[keep], entities[..i];
    var g1 := MergeOne(g, keep, e);
    MergeOneKeeps(g, keep, e);
    assert part[0] == e && part[1..] == entities[1..][..i - 1];
    SplitNodes(g, keep, part);
    if e in g.nodes {
      var from := g.nodes[e];
      assert e in entities && from in NodesOf(g, entities);
      forall m | m != from
        ensures Beside(x, m, kind, out) in Keys(g1.relations) <==>
                Beside(x, m, kind, out) in Keys(g.relations)
                  || (m == to && Beside(x, from, kind, out) in Keys(g.relations))
      {
        KeysBeside(g.relations, from, to, x, m, kind, out);
      }
      assert from != to && from !in NodesOf(g1, part[1..]) && to !in NodesOf(g1, part[1..]);
      assert forall m :: m in NodesOf(g, part) <==> m == from || m in NodesOf(g1, part[1..]);
      if NoneBefore(g1, keep, entities[1..], i - 1, x, kind, out) {
        assert Beside(x, to, kind, out) !in Keys(g1.relations);
        forall m | m == to || m in NodesOf(g, part) ensures Beside(x, m, kind, out) !in Keys(g.relations) {}
      }
      if NoneBefore(g, keep, entities, i, x, kind, out) {
        assert Beside(x, from, kind, out) !in Keys(g.relations);
        forall m | m == to || m in NodesOf(g1, part[1..]) ensures Beside(x, m, kind, out) !in Keys(g1.relations) {}
      }
    }
  }

  /** Two rows to be joined, the later one made first: the order of the list decides. */
  lemma ListOrderDecides()
    ensures var g := Graph(map[0 := 0, 1 := 1, 2 := 2], map[10 := Rel(9, 1, "knows", 5), 11 := Rel(9, 2, "knows", 3)]);
            && Earlier(g.relations, 11, 10)
            && 10 in MergeList(g, 0, [1, 2]).relations && 11 !in MergeList(g, 0, [1, 2]).relations
            && 11 in MergeList(g, 0, [2, 1]).relations && 10 !in MergeList(g, 0, [2, 1]).relations
  {
    var g := Graph(map[0 := 0, 1 := 1, 2 := 2], map[10 := Rel(9, 1, "knows", 5), 11 := Rel(9, 2, "knows", 3)]);
    assert KeyOf(g.relations[10]) == Key(9, 1, "knows") && KeyOf(g.relations[11]) == Key(9, 2, "knows");
    assert Key(9, 1, "knows") in Keys(g.relations) && Key(9, 2, "knows") in Keys(g.relations);
    assert Key(9, 0, "knows") !in Keys(g.relations);
    ListWinner(g, 0, [1, 2], 0, 10, 9, true);
    ListWinner(g, 0, [1, 2], 1, 11, 9, true);
    ListWinner(g, 0, [2, 1], 0, 11, 9, true);
    ListWinner(g, 0, [2, 1], 1, 10, 9, true);
    assert 1 in [1, 2][..1] && 1 in NodesOf(g, [1, 2][..1]);
    assert 2 in [2, 1][..1] && 2 in NodesOf(g, [2, 1][..1]);
  }

  /** While the kept entity has no node it takes over the first merged one; the rest of the list
      then merges into that node. */
  lemma {:induction false} ListAdoptsFirstNode(g: Graph, keep: Id, entities: seq<Id>) returns (first: Id)
    requires UniqueKeys(g.relations) && NodesApart(g) && keep !in entities && keep !in g.nodes
    requires exists e :: e in entities && e in g.nodes
    ensures first in entities && first in g.nodes
    ensures var h, to := MergeList(g, keep, entities), g.nodes[first];
            && UniqueKeys(h.relations) && keep in h.nodes && h.nodes[keep] == to
            && Keys(h.relations) == Images(Keys(g.relations), NodesOf(g, entities) - {to}, to)
    decreases |entities|
  {
    var e, rest := entities[0], entities[1..];
    forall x ensures x in entities <==> x == e || x in rest { assert entities == [e] + rest; }
    if e !in g.nodes {
      first := ListAdoptsFirstNode(g, keep, rest);
      assert NodesOf(g, entities) == NodesOf(g, rest);
    } else {
      first := e;
      var g1 := MergeOne(g, keep, e);
      MergeOneKeeps(g, keep, e);
      ListIsSimultaneous(g1, keep, rest);
      forall n ensures n in NodesOf(g1, rest) <==> n in NodesOf(g, entities) - {g.nodes[e]} {
        if n in NodesOf(g1, rest) {
          var x :| x in rest && x in g1.nodes && g1.nodes[x] == n;
          assert x != keep && x != e && g.nodes[x] == n && x in entities;
        }
        if n in NodesOf(g, entities) - {g.nodes[e]} {
          var x :| x in entities && x in g.nodes && g.nodes[x] == n;
          assert x != e && x in rest && g1.nodes[x] == n;
        }
      }
      assert NodesOf(g1, rest) == NodesOf(g, entities) - {g.nodes[e]};
    }
  }
}

/** The merge as it runs: rows selected and ordered, a plan of deletes and moves, and then the
    statements one by one against the unique key. */
module MergeStore {
  import opened Sorting
  import opened MergeModel
  import opened MergeTheorems

  datatype Stamp = Stamp(createdAt: int, id: Id)

  predicate StampLe(a: Stamp, b: Stamp) {
    a.createdAt < b.createdAt || (a.createdAt == b.createdAt && a.id <= b.id)
  }

  lemma StampLeIsTotal()
    ensures TotalOrder(StampLe)
  {}

  /** The rows that touch `from`, each once, in order of creation. */
  ghost predicate TouchingRows(t: Table, from: Id, rows: seq<Id>) {
    && (forall i :: 0 <= i < |rows| ==> rows[i] in t && Touches(t[rows[i]], from))
    && (forall i, j :: 0 <= i < j < |rows| ==> Earlier(t, rows[i], rows[j]))
    && (forall a :: a in t && Touches(t[a], from) ==> a in rows)
  }

  /** SELECT the rows touching a node, ORDER BY created_at, id. */
  method SelectTouching(t: Table, from: Id) returns (rows: seq<Id>)
    ensures TouchingRows(t, from, rows)
  {
    var stamps: seq<Stamp> := [];
    var rest := set a | a in t && Touches(t[a], from);
    ghost var all := rest;
    while rest != {}
      invariant rest <= all && Distinct(stamps)
      invariant forall x :: x in stamps ==> x.id in all && x.id !in rest && x.createdAt == t[x.id].createdAt
      invariant forall a :: a in all && a !in rest ==> Stamp(t[a].createdAt, a) in stamps
      decreases |rest|
    {
      var a :| a in rest;
      stamps := stamps + [Stamp(t[a].createdAt, a)];
      rest := rest - {a};
    }
    var sorted := Sort(StampLe, stamps);
    StampLeIsTotal();
    SortIsSorted(StampLe, stamps);
    SameElements(sorted, stamps);
    DistinctIgnoresOrder(stamps, sorted);
    rows := [];
    for i := 0 to |sorted|
      invariant |rows| == i && forall j :: 0 <= j < i ==> rows[j] == sorted[j].id
    {
      rows := rows + [sorted[i].id];
    }
    forall i | 0 <= i < |rows| ensures rows[i] in all && sorted[i].createdAt == t[rows[i]].createdAt {
      assert sorted[i] in stamps;
    }
    forall i, j | 0 <= i < j < |rows| ensures Earlier(t, rows[i], rows[j]) {
      assert StampLe(sorted[i], sorted[j]) && sorted[i] != sorted[j];
    }
    forall a | a in all ensures a in rows {
      var i :| 0 <= i < |sorted| && sorted[i] == Stamp(t[a].createdAt, a);
      assert rows[i] == a;
    }
  }

  /** Where the rows would move. */
  ghost function Targets(t: Table, rows: seq<Id>, from: Id, to: Id): (r: seq<Key>)
    requires forall a :: a in rows ==> a in t
    ensures |r| == |rows| && forall i :: 0 <= i < |rows| ==> r[i] == Moved(KeyOf(t[rows[i]]), from, to)
  {
    seq(|rows|, i requires 0 <= i < |rows| => Moved(KeyOf(t[rows[i]]), from, to))
  }

  /** The place is neither taken from the start nor by a row before this one. */
  ghost predicate FirstAt(targets: seq<Key>, existing: set<Key>, i: nat)
    requires i < |targets|
  {
    targets[i] !in existing && targets[i] !in targets[..i]
  }

  /** The set the loop keeps: the places before row `i` that were not taken from the start. */
  ghost predicate SeenUpTo(targets: seq<Key>, existing: set<Key>, i: nat, seen: set<Key>)
    requires i <= |targets|
  {
    && (forall j :: 0 <= j < i ==> targets[j] in seen || targets[j] in existing)
    && (forall k :: k in seen ==> k in targets[..i])
  }

  lemma FirstUnseen(targets: seq<Key>, existing: set<Key>, i: nat, seen: set<Key>)
    requires i < |targets| && SeenUpTo(targets, existing, i, seen)
    ensures FirstAt(targets, existing, i) <==> !(targets[i] in existing || targets[i] in seen)
    ensures SeenUpTo(targets, existing, i + 1, if FirstAt(targets, existing, i) then seen + {targets[i]} else seen)
  {
    assert targets[..i + 1] == targets[..i] + [targets[i]];
  }

  /** The row moves to its place if it is the first there, and is deleted otherwise. */
  ghost predicate Decided(a: Id, key: Key, first: bool, deletes: set<Id>, moves: map<Id, Key>) {
    && (a in moves <==> first)
    && (a in deletes <==> !first)
    && (a in moves ==> moves[a] == key)
  }

  /** The plan for the rows before `i`; the others are in neither part. */
  ghost predicate DecidedUpTo(rows: seq<Id>, targets: seq<Key>, existing: set<Key>, i: nat, deletes: set<Id>,
                              moves: map<Id, Key>)
    requires |rows| == |targets| && i <= |rows|
  {
    && (forall a :: a in moves || a in deletes ==> a in rows)
    && (forall j :: i <= j < |rows| ==> rows[j] !in moves && rows[j] !in deletes)
    && (forall j :: 0 <= j < i ==> Decided(rows[j], targets[j], FirstAt(targets, existing, j), deletes, moves))
  }

  lemma DecideNext(rows: seq<Id>, targets: seq<Key>, existing: set<Key>, i: nat, deletes: set<Id>, moves: map<Id, Key>)
    requires |rows| == |targets| && i < |rows| && Distinct(rows)
             && DecidedUpTo(rows, targets, existing, i, deletes, moves)
    ensures FirstAt(targets, existing, i) ==>
              DecidedUpTo(rows, targets, existing, i + 1, deletes, moves[rows[i] := targets[i]])
    ensures !FirstAt(targets, existing, i) ==> DecidedUpTo(rows, targets, existing, i + 1, deletes + {rows[i]}, moves)
  {
    forall j | 0 <= j < |rows| && j != i ensures rows[j] != rows[i] {}
  }

  /** Splits the touching rows into those to delete and those to move, and where to. */
  method PlanRepoint(t: Table, rows: seq<Id>, existing: set<Key>, from: Id, to: Id)
    returns (deletes: set<Id>, moves: map<Id, Key>)
    requires forall a :: a in rows ==> a in t
    requires Distinct(rows)
    ensures DecidedUpTo(rows, Targets(t, rows, from, to), existing, |rows|, deletes, moves)
  {
    deletes, moves := {}, map[];
    ghost var targets := Targets(t, rows, from, to);
    var seen: set<Key> := {};
    for i := 0 to |rows|
      invariant SeenUpTo(targets, existing, i, seen)
      invariant DecidedUpTo(rows, targets, existing, i, deletes, moves)
    {
      var a := rows[i];
      var key := Moved(KeyOf(t[a]), from, to);
      FirstUnseen(targets, existing, i, seen);
      DecideNext(rows, targets, existing, i, deletes, moves);
      if key in existing || key in seen {
        deletes := deletes + {a};
      } else {
        seen := seen + {key};
        moves := moves[a := key];
      }
    }
  }

  lemma TouchingDistinct(t: Table, from: Id, rows: seq<Id>)
    requires TouchingRows(t, from, rows)
    ensures Distinct(rows)
  {
    forall i, j | 0 <= i < j < |rows| ensures rows[i] != rows[j] { assert Earlier(t, rows[i], rows[j]); }
  }

  /** The plan drops exactly the rows that do not survive the merge. */
  lemma PlanIsSurvival(t: Table, rows: seq<Id>, existing: set<Key>, from: Id, to: Id, i: nat)
    requires TouchingRows(t, from, rows) && i < |rows|
    requires existing == set b | b in t && !Touches(t[b], from) :: KeyOf(t[b])
    ensures FirstAt(Targets(t, rows, from, to), existing, i) <==> Survives(t, from, to, rows[i])
  {
    var targets, a := Targets(t, rows, from, to), rows[i];
    assert targets[i] in existing <==> Occupied(t, from, to, a);
    if Beaten(t, from, to, a) {
      var b :| b in t && Touches(t[b], from) && Earlier(t, b, a) && Moved(KeyOf(t[b]), from, to) == targets[i];
      var j :| 0 <= j < |rows| && rows[j] == b;
      assert forall k :: i < k < |rows| ==> Earlier(t, rows[i], rows[k]);
      assert targets[..i][j] == targets[i];
    }
    if targets[i] in targets[..i] {
      var j :| 0 <= j < i && targets[j] == targets[i];
      assert Earlier(t, rows[j], a);
    }
  }

  class RelationTable {
    var nodes: map<Id, Id>
    var rows: Table

    constructor (g: Graph)
      ensures Tables() == g
    {
      nodes, rows := g.nodes, g.relations;
    }

    function Tables(): Graph
      reads this
    {
      Graph(nodes, rows)
    }

    /** UPDATE relations SET src, dst WHERE id: rejected if another row has the key. */
    method Repoint(a: Id, k: Key) returns (ok: bool)
      requires a in rows
      modifies this`rows
      ensures ok <==> forall b :: b in old(rows) && b != a ==> KeyOf(old(rows)[b]) != k.(kind := old(rows)[a].kind)
      ensures rows == if ok then old(rows)[a := old(rows)[a].(src := k.src, dst := k.dst)] else old(rows)
    {
      var next := rows[a].(src := k.src, dst := k.dst);
      ok := !exists b :: b in rows && b != a && KeyOf(rows[b]) == KeyOf(next);
      if ok { rows := rows[a := next]; }
    }

    /** UPDATE each planned row in turn. */
    method MoveRows(ghost t: Table, from: Id, to: Id, moves: map<Id, Key>, ghost deletes: set<Id>) returns (ok: bool)
      requires UniqueKeys(t) && from != to && PlanOf(t, from, to, moves, deletes)
      requires rows == t - deletes
      modifies this`rows
      ensures ok && HalfMoved(t, rows, from, to, moves, deletes, {})
    {
      var todo := moves.Keys;
      ok := true;
      while todo != {}
        invariant ok && todo <= moves.Keys
        invariant HalfMoved(t, rows, from, to, moves, deletes, todo)
        decreases |todo|
      {
        var a :| a in todo;
        PlaceFree(t, rows, from, to, a, todo, moves, deletes);
        RowMoves(t, rows, from, to, a, todo, moves, deletes);
        ok := Repoint(a, moves[a]);
        todo := todo - {a};
      }
    }

    /** Moves every relation of node `from` onto node `to`. No single update ever meets the
        unique key, and the table ends as its image. */
    method MergeNode(from: Id, to: Id) returns (ok: bool)
      requires UniqueKeys(rows) && from != to
      modifies this`rows
      ensures ok && rows == Merged(old(rows), from, to) && UniqueKeys(rows)
    {
      ghost var t := rows;
      var touching := SelectTouching(rows, from);
      var existing := set b | b in rows && !Touches(rows[b], from) :: KeyOf(rows[b]);
      TouchingDistinct(t, from, touching);
      var deletes, moves := PlanRepoint(rows, touching, existing, from, to);
      PlanMeets(t, touching, existing, from, to, moves, deletes);
      rows := rows - deletes;
      ok := MoveRows(t, from, to, moves, deletes);
      AllMoved(t, rows, from, to, moves, deletes);
      MergedTable(t, from, to);
    }

    /** The loop over the merged entities: none without a node, a rebinding while `keep` has none,
        and otherwise a node merge. */
    method MergeGraphNodes(keep: Id, mergeIds: seq<Id>) returns (ok: bool)
      requires UniqueKeys(rows) && NodesApart(Tables()) && keep !in mergeIds
      modifies this
      ensures ok && Tables() == MergeList(old(Tables()), keep, mergeIds)
    {
      ok := true;
      ghost var start := Tables();
      for i := 0 to |mergeIds|
        invariant ok && UniqueKeys(rows) && NodesApart(Tables())
        invariant MergeList(start, keep, mergeIds) == MergeList(Tables(), keep, mergeIds[i..])
      {
        var e := mergeIds[i];
        ghost var before := Tables();
        MergeOneKeeps(before, keep, e);
        if e in nodes {
          if keep !in nodes { nodes := (nodes - {e})[keep := nodes[e]]; }
          else {
            ok := MergeNode(nodes[e], nodes[keep]);
            nodes := nodes - {e};
          }
        }
        assert Tables() == MergeOne(before, keep, e);
        assert mergeIds[i..][1..] == mergeIds[i + 1..];
      }
    }
  }

  /** The plan: of the touching rows, the survivors move and the others go. */
  ghost predicate PlanOf(t: Table, from: Id, to: Id, moves: map<Id, Key>, deletes: set<Id>) {
    && (forall x :: x in moves <==> x in t && Touches(t[x], from) && Survives(t, from, to, x))
    && (forall x :: x in deletes <==> x in t && Touches(t[x], from) && !Survives(t, from, to, x))
    && (forall x :: x in moves ==> moves[x] == Moved(KeyOf(t[x]), from, to))
  }

  /** The table while the rows of `todo` still have to move. */
  ghost predicate HalfMoved(t: Table, rows: Table, from: Id, to: Id, moves: map<Id, Key>, deletes: set<Id>,
                            todo: set<Id>) {
    && rows.Keys == t.Keys - deletes
    && (forall x :: x in rows ==> rows[x] == if x in moves && x !in todo then MovedRow(t[x], from, to) else t[x])
  }

  lemma PlanMeets(t: Table, rows: seq<Id>, existing: set<Key>, from: Id, to: Id, moves: map<Id, Key>, deletes: set<Id>)
    requires TouchingRows(t, from, rows)
    requires existing == set b | b in t && !Touches(t[b], from) :: KeyOf(t[b])
    requires DecidedUpTo(rows, Targets(t, rows, from, to), existing, |rows|, deletes, moves)
    ensures PlanOf(t, from, to, moves, deletes)
  {
    forall x | x in rows
      ensures x in t && Touches(t[x], from) && (x in moves <==> Survives(t, from, to, x))
              && (x in deletes <==> x !in moves)
      ensures x in moves ==> moves[x] == Moved(KeyOf(t[x]), from, to)
    {
      var i :| 0 <= i < |rows| && rows[i] == x;
      assert Decided(x, Targets(t, rows, from, to)[i], FirstAt(Targets(t, rows, from, to), existing, i), deletes,
                     moves);
      PlanIsSurvival(t, rows, existing, from, to, i);
    }
  }

  lemma AllMoved(t: Table, rows: Table, from: Id, to: Id, moves: map<Id, Key>, deletes: set<Id>)
    requires PlanOf(t, from, to, moves, deletes) && HalfMoved(t, rows, from, to, moves, deletes, {})
    ensures rows == Merged(t, from, to)
  {
    forall x | x in t && !Touches(t[x], from) ensures MovedRow(t[x], from, to) == t[x] { MovedKey(t[x], from, to); }
    assert rows.Keys == Merged(t, from, to).Keys;
  }

  /** Half-way through the updates the place of the next row is free: rows still to move touch
      the old node, which no target does, and the others have places of their own. */
  lemma PlaceFree(t: Table, rows: Table, from: Id, to: Id, a: Id, todo: set<Id>, moves: map<Id, Key>, deletes: set<Id>)
    requires UniqueKeys(t) && from != to && a in todo && todo <= moves.Keys
    requires PlanOf(t, from, to, moves, deletes) && HalfMoved(t, rows, from, to, moves, deletes, todo)
    ensures forall b :: b in rows && b != a ==> KeyOf(rows[b]) != moves[a]
  {
    MergedTable(t, from, to);
    var m := Merged(t, from, to);
    forall b | b in rows && b != a ensures KeyOf(rows[b]) != moves[a] {
      MovedKey(t[a], from, to);
      MovedKey(t[b], from, to);
      assert a in m && KeyOf(m[a]) == moves[a];
      if b !in moves || b !in todo { assert b in m && m[b] == rows[b]; }
    }
  }

  lemma RowMoves(t: Table, rows: Table, from: Id, to: Id, a: Id, todo: set<Id>, moves: map<Id, Key>, deletes: set<Id>)
    requires a in todo && todo <= moves.Keys
    requires PlanOf(t, from, to, moves, deletes) && HalfMoved(t, rows, from, to, moves, deletes, todo)
    ensures a in rows && moves[a].kind == rows[a].kind
    ensures HalfMoved(t, rows[a := rows[a].(src := moves[a].src, dst := moves[a].dst)], from, to, moves, deletes,
                      todo - {a})
  {
    assert rows[a] == t[a];
    assert rows[a].(src := moves[a].src, dst := moves[a].dst) == MovedRow(t[a], from, to);
  }

  // ------------------------------------------------------------ aliases

  /** Aliases are unique by normalised form; those of merged entities go to the kept one, except
      one equal to its canonical name, which is dropped. */
  method MergeAliases(aliases: map<string, Id>, keep: Id, merged: set<Id>, canonical: string)
    returns (r: map<string, Id>)
    requires keep !in merged
    ensures forall a :: a in r <==> a in aliases && !(aliases[a] in merged && a == canonical)
    ensures forall a :: a in r ==> r[a] == if aliases[a] in merged then keep else aliases[a]
  {
    var taken := (set a | a in aliases && aliases[a] == keep) + {canonical};
    r := map a | a in aliases && !(aliases[a] in merged && a in taken) :: aliases[a];
    r := map a | a in r :: if r[a] in merged then keep else r[a];
  }
}
