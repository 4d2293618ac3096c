/** The plan half of a cascading hard delete: a capped breadth-first search over forward
    dependents, and the order in which its victims are deleted. */
module CascadePlanner {
  import opened Wrappers
  import opened Sorting
  import opened StoreModel
  import opened StoreInvariants

  datatype Reason = Target | Along(relation: Relation)

  datatype Candidate = Candidate(id: Id, status: Status, reason: Reason, version: nat, depth: nat)

  datatype Cap = DepthCap | CountCap

  datatype Plan = Planned(victims: seq<Candidate>) | BlastRadiusExceeded(cap: Cap, offending: Id)

  // ------------------------------------------------------------ the dependency graph

  /** `r` depends on `id` for this reason: a lineage row makes it a child, or `id` is its successor. */
  ghost predicate DependsFor(db: Db, id: Id, r: Id, why: Relation) {
    && r in db.memories
    && (Edge(id, r, why) in db.lineage || (why == Supersedes && db.memories[r].supersededBy == Some(id)))
  }

  ghost predicate Linked(db: Db, id: Id, r: Id) {
    exists e :: e in db.lineage && e.parent == id && e.child == r
  }

  ghost predicate Depends(db: Db, id: Id, r: Id) {
    exists why :: DependsFor(db, id, r, why)
  }

  /** The memories at most `n` dependency steps from the root. */
  ghost function Within(db: Db, root: Id, n: nat): set<Id> {
    if n == 0 then {root}
    else Within(db, root, n - 1) + Dependents(db, Within(db, root, n - 1))
  }

  ghost predicate DependsOnSome(db: Db, s: set<Id>, r: Id) {
    exists id :: id in s && Depends(db, id, r)
  }

  ghost function Dependents(db: Db, s: set<Id>): set<Id> {
    set r | r in db.memories && DependsOnSome(db, s, r)
  }

  /** `d` is the length of a shortest dependency path from the root to `id`. */
  ghost predicate IsDistance(db: Db, root: Id, id: Id, d: nat) {
    id in Within(db, root, d) && forall k: nat :: k < d ==> id !in Within(db, root, k)
  }

  ghost predicate Reached(db: Db, root: Id, id: Id) {
    exists n: nat :: id in Within(db, root, n)
  }

  /** The forward closure of the root. */
  ghost function Closure(db: Db, root: Id): set<Id>
    requires root in db.memories
  {
    set id | id in db.memories && Reached(db, root, id)
  }

  ghost predicate FitsCaps(db: Db, root: Id, maxDepth: nat, maxCount: nat)
    requires root in db.memories
  {
    && |Closure(db, root)| <= maxCount
    && forall id, d: nat :: id in Closure(db, root) && IsDistance(db, root, id, d) ==> d <= maxDepth
  }

  lemma {:induction false} WithinGrows(db: Db, root: Id, m: nat, n: nat)
    requires m <= n
    ensures Within(db, root, m) <= Within(db, root, n)
    decreases n - m
  {
    if m < n { WithinGrows(db, root, m, n - 1); }
  }

  lemma {:induction false} WithinLive(db: Db, root: Id, n: nat)
    requires root in db.memories
    ensures Within(db, root, n) <= db.memories.Keys
  {
    if n > 0 { WithinLive(db, root, n - 1); }
  }

  lemma DistanceUnique(db: Db, root: Id, id: Id, a: nat, b: nat)
    requires IsDistance(db, root, id, a) && IsDistance(db, root, id, b)
    ensures a == b
  {}

  /** A set that holds the root and every dependent of its members holds the closure. */
  lemma {:induction false} ClosedHoldsWithin(db: Db, root: Id, s: set<Id>, n: nat)
    requires root in s && forall id, r :: id in s && Depends(db, id, r) ==> r in s
    ensures Within(db, root, n) <= s
  {
    if n > 0 { ClosedHoldsWithin(db, root, s, n - 1); }
  }

  // ------------------------------------------------------------ loading dependents

  ghost function Children(rows: set<Edge>): set<Id> {
    set e | e in rows :: e.child
  }

  ghost function ChildRows(db: Db, id: Id): set<Edge> {
    set e | e in db.lineage && e.parent == id && e.child in db.memories
  }

  /** The children of one memory, each once, under the relation of one of its rows. */
  method LoadChildren(db: Db, id: Id) returns (found: map<Id, Relation>)
    ensures found.Keys == Children(ChildRows(db, id))
    ensures forall r :: r in found ==> Edge(id, r, found[r]) in ChildRows(db, id)
  {
    found := map[];
    var rows := set e | e in db.lineage && e.parent == id && e.child in db.memories;
    ghost var all := rows;
    while rows != {}
      invariant rows <= all
      invariant found.Keys == Children(all - rows)
      invariant forall r :: r in found ==> Edge(id, r, found[r]) in all
      decreases |rows|
    {
      var e :| e in rows;
      assert e == Edge(id, e.child, e.relation);
      if e.child !in found { found := found[e.child := e.relation]; }
      assert all - (rows - {e}) == (all - rows) + {e};
      assert Children((all - rows) + {e}) == Children(all - rows) + {e.child};
      rows := rows - {e};
    }
    assert all - rows == all;
  }

  /** The dependents of one memory, each once; a lineage row decides the reason before a
      successor does. */
  method LoadDependents(db: Db, id: Id) returns (found: map<Id, Relation>)
    ensures forall r :: r in found <==> Depends(db, id, r)
    ensures forall r :: r in found ==> DependsFor(db, id, r, found[r])
    ensures forall r :: r in found && Linked(db, id, r) ==> Edge(id, r, found[r]) in db.lineage
  {
    found := LoadChildren(db, id);
    ghost var byLineage := found;
    found := AddSuperseded(found, set r | r in db.memories && db.memories[r].supersededBy == Some(id));
    DependentsFound(db, id, byLineage, found);
  }

  method AddSuperseded(byLineage: map<Id, Relation>, superseded: set<Id>) returns (found: map<Id, Relation>)
    ensures forall r :: r in found <==> r in byLineage || r in superseded
    ensures forall r :: r in found ==> found[r] == (if r in byLineage then byLineage[r] else Supersedes)
  {
    found := byLineage;
    var rest := superseded;
    while rest != {}
      invariant rest <= superseded
      invariant forall r :: r in found <==> r in byLineage || (r in superseded && r !in rest)
      invariant forall r :: r in found ==> found[r] == (if r in byLineage then byLineage[r] else Supersedes)
      decreases |rest|
    {
      var r :| r in rest;
      if r !in found { found := found[r := Supersedes]; }
      rest := rest - {r};
    }
  }

  lemma DependentsFound(db: Db, id: Id, byLineage: map<Id, Relation>, found: map<Id, Relation>)
    requires byLineage.Keys == Children(ChildRows(db, id))
    requires forall r :: r in byLineage ==> Edge(id, r, byLineage[r]) in ChildRows(db, id)
    requires forall r :: r in found <==> r in byLineage || (r in db.memories && db.memories[r].supersededBy == Some(id))
    requires forall r :: r in found ==> found[r] == (if r in byLineage then byLineage[r] else Supersedes)
    ensures forall r :: r in found <==> Depends(db, id, r)
    ensures forall r :: r in found ==> DependsFor(db, id, r, found[r])
    ensures forall r :: r in found && Linked(db, id, r) ==> Edge(id, r, found[r]) in db.lineage
  {
    forall r | r in found ensures DependsFor(db, id, r, found[r]) {}
    forall r | Depends(db, id, r) ensures r in found {
      var why :| DependsFor(db, id, r, why);
      if Edge(id, r, why) in db.lineage { assert Edge(id, r, why) in ChildRows(db, id); }
    }
    forall r | r in found && Linked(db, id, r) ensures r in byLineage {
      var e :| e in db.lineage && e.parent == id && e.child == r;
      assert r in db.memories;
      assert e in ChildRows(db, id);
    }
  }

  // ------------------------------------------------------------ the search

  /** The part of the search state every loop keeps: what has been visited is at its shortest
      distance, and was reached from something one step nearer. */
  ghost predicate Sound(db: Db, root: Id, visited: map<Id, Candidate>) {
    && root in visited && visited[root].depth == 0 && visited[root].reason == Target
    && visited.Keys <= db.memories.Keys
    && (forall id {:trigger Recorded(db, root, visited, id)} :: id in visited ==> Recorded(db, root, visited, id))
  }

  ghost predicate Recorded(db: Db, root: Id, visited: map<Id, Candidate>, id: Id)
    requires id in visited && id in db.memories
  {
    var c := visited[id];
    && c.id == id && c.status == db.memories[id].status && c.version == db.memories[id].version
    && IsDistance(db, root, id, c.depth)
    && (id != root ==> c.depth > 0 && c.reason.Along? && HasParent(db, visited, c))
  }

  ghost predicate HasParent(db: Db, visited: map<Id, Candidate>, c: Candidate)
    requires c.reason.Along?
  {
    exists p :: p in visited && visited[p].depth + 1 == c.depth && DependsFor(db, p, c.id, c.reason.relation)
  }

  /** The queue holds each of its members once, nearest first, and spans at most two levels. */
  ghost predicate Queued(visited: map<Id, Candidate>, queue: seq<Id>) {
    && (forall i :: 0 <= i < |queue| ==> queue[i] in visited)
    && Distinct(queue)
    && (forall i, j :: 0 <= i < j < |queue| ==> visited[queue[i]].depth <= visited[queue[j]].depth)
    && (forall i :: 0 <= i < |queue| ==> visited[queue[i]].depth <= visited[queue[0]].depth + 1)
  }

  ghost predicate Expanded(db: Db, visited: map<Id, Candidate>, id: Id) {
    forall r :: Depends(db, id, r) ==> r in visited
  }

  /** Everything visited and no longer queued has all its dependents visited and lies no
      deeper than the head of the queue. */
  ghost predicate Done(db: Db, visited: map<Id, Candidate>, queue: seq<Id>)
    requires forall i :: 0 <= i < |queue| ==> queue[i] in visited
  {
    forall id {:trigger Expanded(db, visited, id)} :: id in visited && id !in queue ==>
      Expanded(db, visited, id) && (queue != [] ==> visited[id].depth <= visited[queue[0]].depth)
  }

  /** At the head's level everything that near has been visited. */
  lemma {:induction false} LevelComplete(db: Db, root: Id, visited: map<Id, Candidate>, queue: seq<Id>, n: nat)
    requires Sound(db, root, visited) && Queued(visited, queue) && Done(db, visited, queue)
    requires queue != [] && n <= visited[queue[0]].depth
    ensures Within(db, root, n) <= visited.Keys
  {
    if n > 0 {
      LevelComplete(db, root, visited, queue, n - 1);
      forall r | r in Within(db, root, n) ensures r in visited {
        if r !in Within(db, root, n - 1) {
          var id :| id in Within(db, root, n - 1) && Depends(db, id, r);
          assert Recorded(db, root, visited, id);
          assert visited[id].depth <= n - 1;
          assert id !in queue;
          assert Expanded(db, visited, id);
        }
      }
    }
  }

  /** A dependent not seen yet lies exactly one step beyond the head of the queue. */
  lemma NewcomerDistance(db: Db, root: Id, visited: map<Id, Candidate>, queue: seq<Id>, r: Id)
    requires Sound(db, root, visited) && Queued(visited, queue) && Done(db, visited, queue) && queue != []
    requires r in db.memories && r !in visited && Depends(db, queue[0], r)
    ensures IsDistance(db, root, r, visited[queue[0]].depth + 1)
  {
    var d := visited[queue[0]].depth;
    LevelComplete(db, root, visited, queue, d);
    assert Recorded(db, root, visited, queue[0]);
    forall k: nat | k < d + 1 ensures r !in Within(db, root, k) { WithinGrows(db, root, k, d); }
  }

  /** Breadth-first over dependents, raising as soon as a cap is passed. The search ends on
      every graph, cyclic ones included. */
  method Collect(db: Db, root: Id, maxDepth: nat, maxCount: nat) returns (plan: Plan)
    requires root in db.memories && maxCount >= 1
    ensures plan.Planned? <==> FitsCaps(db, root, maxDepth, maxCount)
    ensures plan.Planned? ==> PlanFor(db, root, plan.victims)
    ensures plan.BlastRadiusExceeded? ==> plan.offending in Closure(db, root)
    ensures plan.BlastRadiusExceeded? && plan.cap.DepthCap? ==> IsDistance(db, root, plan.offending, maxDepth + 1)
    ensures plan.BlastRadiusExceeded? && plan.cap.CountCap? ==> |Closure(db, root)| > maxCount
  {
    var visited: map<Id, Candidate> :=
        map[root := Candidate(root, db.memories[root].status, Target, db.memories[root].version, 0)];
    var queue := [root];
    assert root in Within(db, root, 0);
    while queue != []
      invariant Sound(db, root, visited) && Queued(visited, queue) && Done(db, visited, queue)
      invariant |visited| <= maxCount && forall id :: id in visited ==> visited[id].depth <= maxDepth
      decreases db.memories.Keys - visited.Keys, |queue|
    {
      var dependents := LoadDependents(db, queue[0]);
      ghost var start := visited.Keys;
      var excess;
      excess, visited, queue := Expand(db, root, visited, queue, dependents, maxDepth, maxCount);
      if excess.Some? {
        BlastIsReal(db, root, maxDepth, maxCount, excess.value);
        return excess.value;
      }
      ghost var full := queue;
      queue := queue[1..];
      HeadDone(db, root, visited, full);
    }
    AllVisited(db, root, visited);
    FitsWhenDone(db, root, visited, maxDepth, maxCount);
    var victims := Order(db, root, visited);
    plan := Planned(victims);
  }

  lemma FitsWhenDone(db: Db, root: Id, visited: map<Id, Candidate>, maxDepth: nat, maxCount: nat)
    requires root in db.memories && Sound(db, root, visited) && visited.Keys == Closure(db, root)
    requires |visited| <= maxCount && forall id :: id in visited ==> visited[id].depth <= maxDepth
    ensures FitsCaps(db, root, maxDepth, maxCount)
  {
    assert |visited.Keys| == |visited|;
    forall id, d: nat | id in Closure(db, root) && IsDistance(db, root, id, d) ensures d <= maxDepth {
      assert Recorded(db, root, visited, id);
      DistanceUnique(db, root, id, d, visited[id].depth);
    }
  }

  /** Popping an expanded head keeps the queue invariants. */
  lemma HeadDone(db: Db, root: Id, visited: map<Id, Candidate>, queue: seq<Id>)
    requires Sound(db, root, visited) && Queued(visited, queue) && Done(db, visited, queue) && queue != []
    requires Expanded(db, visited, queue[0])
    ensures Queued(visited, queue[1..]) && Done(db, visited, queue[1..])
  {
    var rest := queue[1..];
    forall id | id in visited && id !in rest
      ensures Expanded(db, visited, id) && (rest != [] ==> visited[id].depth <= visited[rest[0]].depth)
    {
      if id != queue[0] { assert id !in queue; }
    }
  }

  /** The body of the search loop: the unseen dependents of the head join the queue, until a cap is passed. */
  method Expand(db: Db, root: Id, visited: map<Id, Candidate>, queue: seq<Id>, dependents: map<Id, Relation>,
                maxDepth: nat, maxCount: nat)
    returns (excess: Option<Plan>, visited': map<Id, Candidate>, queue': seq<Id>)
    requires Sound(db, root, visited) && Queued(visited, queue) && Done(db, visited, queue) && queue != []
    requires |visited| <= maxCount && forall id :: id in visited ==> visited[id].depth <= maxDepth
    requires forall r :: r in dependents <==> Depends(db, queue[0], r)
    requires forall r :: r in dependents ==> DependsFor(db, queue[0], r, dependents[r])
    ensures excess.Some? ==> Excess(db, root, maxDepth, maxCount, excess.value)
    ensures excess.None? ==>
              && Sound(db, root, visited') && Queued(visited', queue') && Done(db, visited', queue')
              && queue' != [] && queue'[0] == queue[0] && Expanded(db, visited', queue[0])
              && |visited'| <= maxCount && (forall id :: id in visited' ==> visited'[id].depth <= maxDepth)
              && visited.Keys <= visited'.Keys && (visited.Keys == visited'.Keys ==> queue' == queue)
  {
    excess, visited', queue' := None, visited, queue;
    var todo := dependents.Keys;
    while todo != {}
      invariant todo <= dependents.Keys
      invariant Sound(db, root, visited') && Queued(visited', queue') && Done(db, visited', queue')
      invariant queue' != [] && queue'[0] == queue[0]
      invariant |visited'| <= maxCount && forall id :: id in visited' ==> visited'[id].depth <= maxDepth
      invariant visited.Keys <= visited'.Keys && (visited.Keys == visited'.Keys ==> queue' == queue)
      invariant forall r :: r in dependents && r !in todo ==> r in visited'
      decreases |todo|
    {
      var r :| r in todo;
      todo := todo - {r};
      if r !in visited' {
        assert DependsFor(db, queue[0], r, dependents[r]);
        NewcomerDistance(db, root, visited', queue', r);
        var depth := visited'[queue[0]].depth + 1;
        if depth > maxDepth { return Some(BlastRadiusExceeded(DepthCap, r)), visited', queue'; }
        if |visited'| + 1 > maxCount {
          VisitedInClosure(db, root, visited', r);
          return Some(BlastRadiusExceeded(CountCap, r)), visited', queue';
        }
        var c := Candidate(r, db.memories[r].status, Along(dependents[r]), db.memories[r].version, depth);
        Joined(db, root, visited', queue', c);
        visited', queue' := visited'[r := c], queue' + [r];
      }
    }
  }

  /** One newcomer one step beyond the head keeps the search invariants. */
  lemma Joined(db: Db, root: Id, visited: map<Id, Candidate>, queue: seq<Id>, c: Candidate)
    requires Sound(db, root, visited) && Queued(visited, queue) && Done(db, visited, queue) && queue != []
    requires c.id !in visited && c.id in db.memories && c.depth == visited[queue[0]].depth + 1
    requires c.status == db.memories[c.id].status && c.version == db.memories[c.id].version
    requires IsDistance(db, root, c.id, c.depth) && c.reason.Along? && DependsFor(db, queue[0], c.id, c.reason.relation)
    ensures Sound(db, root, visited[c.id := c]) && Queued(visited[c.id := c], queue + [c.id])
    ensures Done(db, visited[c.id := c], queue + [c.id])
  {
    JoinedSound(db, root, visited, queue[0], c);
    JoinedDone(db, visited, queue, c);
  }

  lemma JoinedSound(db: Db, root: Id, visited: map<Id, Candidate>, head: Id, c: Candidate)
    requires Sound(db, root, visited) && head in visited
    requires c.id !in visited && c.id in db.memories && c.depth == visited[head].depth + 1
    requires c.status == db.memories[c.id].status && c.version == db.memories[c.id].version
    requires IsDistance(db, root, c.id, c.depth) && c.reason.Along? && DependsFor(db, head, c.id, c.reason.relation)
    ensures Sound(db, root, visited[c.id := c])
  {
    var v := visited[c.id := c];
    JoinedRecorded(db, root, v, head, c);
    forall id | id in v ensures Recorded(db, root, v, id) {
      if id != c.id {
        assert Recorded(db, root, visited, id);
        RecordedKept(db, root, visited, v, id);
      }
    }
  }

  lemma JoinedRecorded(db: Db, root: Id, v: map<Id, Candidate>, head: Id, c: Candidate)
    requires head in v && c.id in v && v[c.id] == c && c.id in db.memories && c.depth == v[head].depth + 1
    requires c.status == db.memories[c.id].status && c.version == db.memories[c.id].version && c.depth > 0
    requires IsDistance(db, root, c.id, c.depth) && c.reason.Along? && DependsFor(db, head, c.id, c.reason.relation)
    ensures Recorded(db, root, v, c.id)
  {
    assert HasParent(db, v, c);
  }

  lemma RecordedKept(db: Db, root: Id, visited: map<Id, Candidate>, v: map<Id, Candidate>, id: Id)
    requires id in visited && id in db.memories && Recorded(db, root, visited, id)
    requires forall p :: p in visited ==> p in v && v[p] == visited[p]
    ensures Recorded(db, root, v, id)
  {
    if id != root { ParentKept(db, visited, v, visited[id]); }
  }

  lemma ParentKept(db: Db, visited: map<Id, Candidate>, v: map<Id, Candidate>, c: Candidate)
    requires c.reason.Along? && HasParent(db, visited, c)
    requires forall p :: p in visited ==> p in v && v[p] == visited[p]
    ensures HasParent(db, v, c)
  {
    var p :| p in visited && visited[p].depth + 1 == c.depth && DependsFor(db, p, c.id, c.reason.relation);
    assert p in v && v[p] == visited[p];
  }

  lemma JoinedDone(db: Db, visited: map<Id, Candidate>, queue: seq<Id>, c: Candidate)
    requires Queued(visited, queue) && Done(db, visited, queue) && queue != [] && c.id !in visited
    ensures Done(db, visited[c.id := c], queue + [c.id])
  {
    var v, q := visited[c.id := c], queue + [c.id];
    forall id | id in v && id !in q ensures Expanded(db, v, id) && v[id].depth <= v[q[0]].depth {
      assert id in visited && id !in queue;
      assert Expanded(db, visited, id);
    }
  }

  ghost predicate AllReached(db: Db, root: Id, s: set<Id>) {
    s <= db.memories.Keys && forall id :: id in s ==> Reached(db, root, id)
  }

  /** Why a search stopped: a member one level too deep, or more members than allowed. */
  ghost predicate Excess(db: Db, root: Id, maxDepth: nat, maxCount: nat, plan: Plan) {
    && plan.BlastRadiusExceeded? && plan.offending in db.memories && Reached(db, root, plan.offending)
    && (plan.cap.DepthCap? ==> IsDistance(db, root, plan.offending, maxDepth + 1))
    && (plan.cap.CountCap? ==> exists s: set<Id> :: |s| > maxCount && AllReached(db, root, s))
  }

  lemma VisitedInClosure(db: Db, root: Id, visited: map<Id, Candidate>, r: Id)
    requires Sound(db, root, visited) && r !in visited && r in db.memories && Reached(db, root, r)
    ensures var s := visited.Keys + {r};
            |s| == |visited| + 1 && AllReached(db, root, s)
  {
    assert |visited.Keys| == |visited|;
    forall id | id in visited ensures Reached(db, root, id) {
      assert Recorded(db, root, visited, id);
      assert id in Within(db, root, visited[id].depth);
    }
  }

  lemma BlastIsReal(db: Db, root: Id, maxDepth: nat, maxCount: nat, plan: Plan)
    requires root in db.memories && Excess(db, root, maxDepth, maxCount, plan)
    ensures !FitsCaps(db, root, maxDepth, maxCount) && plan.offending in Closure(db, root)
    ensures plan.cap.CountCap? ==> |Closure(db, root)| > maxCount
  {
    if plan.cap.CountCap? {
      var s: set<Id> :| |s| > maxCount && AllReached(db, root, s);
      assert s <= Closure(db, root);
      SubsetSize(s, Closure(db, root));
    }
  }

  lemma {:induction false} SubsetSize<T>(a: set<T>, b: set<T>)
    requires a <= b
    ensures |a| <= |b|
    decreases |a|
  {
    if a != {} {
      var x :| x in a;
      SubsetSize(a - {x}, b - {x});
    }
  }

  lemma AllVisited(db: Db, root: Id, visited: map<Id, Candidate>)
    requires root in db.memories && Sound(db, root, visited) && Done(db, visited, [])
    ensures visited.Keys == Closure(db, root) && |visited| == |Closure(db, root)|
  {
    forall id | id in Closure(db, root) ensures id in visited {
      var n: nat :| id in Within(db, root, n);
      forall x, r | x in visited.Keys && Depends(db, x, r) ensures r in visited.Keys {
        assert Expanded(db, visited, x);
      }
      ClosedHoldsWithin(db, root, visited.Keys, n);
    }
    forall id | id in visited ensures id in Closure(db, root) {
      assert Recorded(db, root, visited, id);
    }
    assert |visited.Keys| == |visited|;
  }

  // ------------------------------------------------------------ the deletion order

  datatype Key = Key(depth: nat, id: Id)

  /** Deepest first, and by id within one depth. */
  predicate KeyLe(a: Key, b: Key) {
    a.depth > b.depth || (a.depth == b.depth && a.id <= b.id)
  }

  ghost predicate IsVictim(db: Db, root: Id, c: Candidate) {
    c.id in db.memories && IsDistance(db, root, c.id, c.depth) && c.version == db.memories[c.id].version
  }

  /** Strictly deeper, or level under a smaller id. */
  predicate Before(a: Candidate, b: Candidate) {
    a.depth > b.depth || (a.depth == b.depth && a.id < b.id)
  }

  ghost predicate Descending(victims: seq<Candidate>) {
    forall i, j :: 0 <= i < j < |victims| ==> Before(victims[i], victims[j])
  }

  /** What a finished plan is: the closure, each member once at its shortest distance, deepest
      first, ids ascending within a depth, the root last. */
  ghost predicate PlanFor(db: Db, root: Id, victims: seq<Candidate>)
    requires root in db.memories
  {
    && (forall i :: 0 <= i < |victims| ==> IsVictim(db, root, victims[i]) && victims[i].id in Closure(db, root))
    && (forall id :: id in Closure(db, root) ==> exists i :: 0 <= i < |victims| && victims[i].id == id)
    && Descending(victims)
    && |victims| > 0 && victims[|victims| - 1].id == root
  }

  lemma KeyLeIsTotal()
    ensures TotalOrder(KeyLe)
  {}

  /** The keys list the visited candidates, each once. */
  ghost predicate KeysOf(visited: map<Id, Candidate>, keys: seq<Key>) {
    && (forall i :: 0 <= i < |keys| ==> keys[i].id in visited && keys[i].depth == visited[keys[i].id].depth)
    && (forall i, j :: 0 <= i < j < |keys| ==> keys[i].id != keys[j].id)
    && (forall id :: id in visited ==> exists i :: 0 <= i < |keys| && keys[i].id == id)
  }

  method CandidateKeys(visited: map<Id, Candidate>) returns (keys: seq<Key>)
    ensures KeysOf(visited, keys)
  {
    keys := [];
    var todo := visited.Keys;
    while todo != {}
      invariant todo <= visited.Keys
      invariant forall i :: 0 <= i < |keys| ==>
                  keys[i].id in visited && keys[i].id !in todo && keys[i].depth == visited[keys[i].id].depth
      invariant forall i, j :: 0 <= i < j < |keys| ==> keys[i].id != keys[j].id
      invariant forall id :: id in visited && id !in todo ==> exists i :: 0 <= i < |keys| && keys[i].id == id
      decreases |todo|
    {
      var id :| id in todo;
      ghost var before := keys;
      keys := keys + [Key(visited[id].depth, id)];
      todo := todo - {id};
      forall x | x in visited && x !in todo ensures exists i :: 0 <= i < |keys| && keys[i].id == x {
        if x == id { assert keys[|keys| - 1].id == x; }
        else {
          var i :| 0 <= i < |before| && before[i].id == x;
          assert keys[i].id == x;
        }
      }
    }
  }

  lemma SortedKeys(visited: map<Id, Candidate>, keys: seq<Key>)
    requires KeysOf(visited, keys)
    ensures KeysOf(visited, Sort(KeyLe, keys)) && SortedBy(KeyLe, Sort(KeyLe, keys))
  {
    var sorted := Sort(KeyLe, keys);
    KeyLeIsTotal();
    SortIsSorted(KeyLe, keys);
    SameElements(sorted, keys);
    DistinctIgnoresOrder(keys, sorted);
    forall i | 0 <= i < |sorted| ensures sorted[i].id in visited && sorted[i].depth == visited[sorted[i].id].depth {
      assert sorted[i] in keys;
    }
    forall id | id in visited ensures exists i :: 0 <= i < |sorted| && sorted[i].id == id {
      var k :| 0 <= k < |keys| && keys[k].id == id;
      assert keys[k] in sorted;
    }
  }

  ghost predicate Keyed(visited: map<Id, Candidate>) {
    forall id :: id in visited ==> visited[id].id == id
  }

  /** The visited candidates, each once, in deletion order. */
  ghost predicate Arranged(visited: map<Id, Candidate>, victims: seq<Candidate>) {
    && (forall i :: 0 <= i < |victims| ==> victims[i].id in visited && victims[i] == visited[victims[i].id])
    && (forall id :: id in visited ==> exists i :: 0 <= i < |victims| && victims[i].id == id)
    && Descending(victims)
  }

  /** The candidates of the keys, in the order of the keys. */
  method CopyOut(visited: map<Id, Candidate>, sorted: seq<Key>) returns (victims: seq<Candidate>)
    requires forall j :: 0 <= j < |sorted| ==> sorted[j].id in visited
    ensures |victims| == |sorted|
    ensures forall j :: 0 <= j < |sorted| ==> victims[j] == visited[sorted[j].id]
  {
    victims := [];
    for i := 0 to |sorted|
      invariant |victims| == i
      invariant forall j :: 0 <= j < i ==> victims[j] == visited[sorted[j].id]
    {
      victims := victims + [visited[sorted[i].id]];
    }
  }

  method Arrange(visited: map<Id, Candidate>) returns (victims: seq<Candidate>)
    requires Keyed(visited)
    ensures Arranged(visited, victims)
  {
    var keys := CandidateKeys(visited);
    SortedKeys(visited, keys);
    victims := CopyOut(visited, Sort(KeyLe, keys));
    SortedArranged(visited, Sort(KeyLe, keys), victims);
  }

  lemma SortedArranged(visited: map<Id, Candidate>, sorted: seq<Key>, victims: seq<Candidate>)
    requires Keyed(visited) && KeysOf(visited, sorted) && SortedBy(KeyLe, sorted) && |victims| == |sorted|
    requires forall j :: 0 <= j < |sorted| ==> victims[j] == visited[sorted[j].id]
    ensures Arranged(visited, victims)
  {
    SortedCover(visited, sorted, victims);
    SortedDescend(visited, sorted, victims);
  }

  lemma SortedCover(visited: map<Id, Candidate>, sorted: seq<Key>, victims: seq<Candidate>)
    requires Keyed(visited) && KeysOf(visited, sorted) && |victims| == |sorted|
    requires forall j :: 0 <= j < |sorted| ==> victims[j] == visited[sorted[j].id]
    ensures forall id :: id in visited ==> exists i :: 0 <= i < |victims| && victims[i].id == id
  {
    forall id | id in visited ensures exists i :: 0 <= i < |victims| && victims[i].id == id {
      var i :| 0 <= i < |sorted| && sorted[i].id == id;
      assert victims[i].id == id;
    }
  }

  lemma SortedDescend(visited: map<Id, Candidate>, sorted: seq<Key>, victims: seq<Candidate>)
    requires Keyed(visited) && KeysOf(visited, sorted) && SortedBy(KeyLe, sorted) && |victims| == |sorted|
    requires forall j :: 0 <= j < |sorted| ==> victims[j] == visited[sorted[j].id]
    ensures Descending(victims)
  {
    forall i, j | 0 <= i < j < |victims| ensures Before(victims[i], victims[j]) {
      assert KeyLe(sorted[i], sorted[j]);
    }
  }

  /** Sorts the visited candidates into deletion order. */
  method Order(db: Db, root: Id, visited: map<Id, Candidate>) returns (victims: seq<Candidate>)
    requires root in db.memories && Sound(db, root, visited) && visited.Keys == Closure(db, root)
    ensures PlanFor(db, root, victims)
  {
    SoundIsKeyed(db, root, visited);
    victims := Arrange(visited);
    OrderedPlan(db, root, visited, victims);
  }

  lemma VictimFacts(db: Db, root: Id, visited: map<Id, Candidate>, id: Id)
    requires Sound(db, root, visited) && id in visited
    ensures visited[id].id == id && id in db.memories && visited[id].version == db.memories[id].version
    ensures IsDistance(db, root, id, visited[id].depth)
    ensures visited[id].depth == 0 ==> id == root
  {
    assert Recorded(db, root, visited, id);
  }

  lemma SoundIsKeyed(db: Db, root: Id, visited: map<Id, Candidate>)
    requires Sound(db, root, visited)
    ensures Keyed(visited)
  {
    forall id | id in visited ensures visited[id].id == id { VictimFacts(db, root, visited, id); }
  }

  lemma OrderedPlan(db: Db, root: Id, visited: map<Id, Candidate>, victims: seq<Candidate>)
    requires root in db.memories && Sound(db, root, visited) && visited.Keys == Closure(db, root)
    requires Arranged(visited, victims)
    ensures PlanFor(db, root, victims)
  {
    forall j | 0 <= j < |victims| ensures IsVictim(db, root, victims[j]) {
      VictimFacts(db, root, visited, victims[j].id);
    }
    RootIsLast(db, root, visited, victims);
  }

  lemma RootIsLast(db: Db, root: Id, visited: map<Id, Candidate>, victims: seq<Candidate>)
    requires Sound(db, root, visited) && Arranged(visited, victims)
    ensures |victims| > 0 && victims[|victims| - 1].id == root
  {
    var r :| 0 <= r < |victims| && victims[r].id == root;
    var last := |victims| - 1;
    VictimFacts(db, root, visited, victims[last].id);
    assert r < last ==> Before(victims[r], victims[last]);
  }

  // ------------------------------------------------------------ executing a plan

  function VictimsOf(plan: seq<Candidate>): seq<Victim> {
    seq(|plan|, i requires 0 <= i < |plan| => Victim(plan[i].id, plan[i].version))
  }

  /** Every memory that names the `i`-th victim as successor is deleted before it. */
  ghost predicate RespectsSuccessors(db: Db, plan: seq<Victim>) {
    forall i, r :: 0 <= i < |plan| && r in db.memories && db.memories[r].supersededBy == Some(plan[i].id) ==>
      exists j :: 0 <= j < i && plan[j].id == r
  }

  ghost predicate NoOperations(db: Db, plan: seq<Victim>) {
    forall k, i :: k in db.operations && 0 <= i < |plan| ==> db.operations[k].source != plan[i].id
  }

  ghost predicate Current(db: Db, plan: seq<Victim>) {
    && (forall i :: 0 <= i < |plan| ==> plan[i].id in db.memories && db.memories[plan[i].id].version == plan[i].version)
    && (forall i, j :: 0 <= i < j < |plan| ==> plan[i].id != plan[j].id)
  }

  ghost function Ids(plan: seq<Victim>): set<Id> {
    set i | 0 <= i < |plan| :: plan[i].id
  }

  /** Deleting in plan order meets no restriction exactly when every superseded memory goes
      before its successor and no decompose operation names a victim as source; it then
      removes exactly the victims. */
  lemma {:induction false} CascadeRunsExactly(db: Db, plan: seq<Victim>)
    requires Inv(db) && Current(db, plan)
    ensures ApplyCascade(db, plan).Ok? <==> RespectsSuccessors(db, plan) && NoOperations(db, plan)
    ensures ApplyCascade(db, plan).Ok? ==> ApplyCascade(db, plan).value.memories == db.memories - Ids(plan)
    decreases |plan|
  {
    if plan != [] {
      var deleted := ApplyDelete(Buried(db, plan[0].id), plan[0].id);
      if deleted.Ok? {
        HeadKeeps(db, deleted.value, plan);
        CascadeRunsExactly(deleted.value, plan[1..]);
        HeadDeleted(db, deleted.value, plan);
      } else {
        HeadRestricted(db, plan);
      }
    }
  }

  /** Deleting the first victim leaves the rest of the plan as current as it was. */
  lemma HeadKeeps(db: Db, d: Db, plan: seq<Victim>)
    requires Inv(db) && Current(db, plan) && plan != []
    requires ApplyDelete(Buried(db, plan[0].id), plan[0].id) == Ok(d)
    ensures Inv(d) && Current(d, plan[1..])
    ensures d.memories == db.memories - {plan[0].id} && Ids(plan) == {plan[0].id} + Ids(plan[1..])
  {
    var rest := plan[1..];
    assert LiveRow(db, plan[0].id);
    BuriedAndDeletedKeeps(db, plan[0].id);
    forall i | 0 <= i < |rest| ensures rest[i].id in d.memories && d.memories[rest[i].id].version == rest[i].version {
      assert rest[i] == plan[i + 1];
    }
    forall id | id in Ids(plan) ensures id == plan[0].id || id in Ids(rest) {
      var i :| 0 <= i < |plan| && plan[i].id == id;
      assert i > 0 ==> rest[i - 1].id == id;
    }
  }

  /** A cascade that succeeds found every victim at its planned version. */
  lemma {:induction false} CascadeFindsCurrent(db: Db, plan: seq<Victim>)
    requires ApplyCascade(db, plan).Ok?
    ensures Current(db, plan)
    decreases |plan|
  {
    if plan != [] {
      var rest := plan[1..];
      var d := ApplyDelete(Buried(db, plan[0].id), plan[0].id).value;
      CascadeFindsCurrent(d, rest);
      assert d.memories == db.memories - {plan[0].id};
      forall i | 0 <= i < |plan|
        ensures plan[i].id in db.memories && db.memories[plan[i].id].version == plan[i].version
      {
        assert i > 0 ==> plan[i] == rest[i - 1];
      }
      forall i, j | 0 <= i < j < |plan| ensures plan[i].id != plan[j].id {
        assert plan[j] == rest[j - 1];
        assert i > 0 ==> plan[i] == rest[i - 1];
      }
    }
  }

  lemma HeadDeleted(db: Db, d: Db, plan: seq<Victim>)
    requires Inv(db) && Current(db, plan) && plan != []
    requires ApplyDelete(Buried(db, plan[0].id), plan[0].id) == Ok(d)
    ensures RespectsSuccessors(db, plan) <==> RespectsSuccessors(d, plan[1..])
    ensures NoOperations(db, plan) <==> NoOperations(d, plan[1..])
  {
    var v := plan[0].id;
    assert LiveRow(db, v);
    assert d.memories == db.memories - {v} && d.operations == db.operations;
    forall x | x in db.memories && x != v ensures db.memories[x].supersededBy != Some(v) {
      assert x in Buried(db, v).memories;
    }
    SuccessorsOfRest(db, d, plan);
    forall k | k in db.operations ensures db.operations[k].source != v {
      assert k in Buried(db, v).operations;
    }
    OperationsOfRest(db, d, plan);
  }

  lemma SuccessorsOfRest(db: Db, d: Db, plan: seq<Victim>)
    requires plan != [] && d.memories == db.memories - {plan[0].id}
    requires forall i :: 0 < i < |plan| ==> plan[i].id != plan[0].id
    requires forall x :: x in db.memories && x != plan[0].id ==> db.memories[x].supersededBy != Some(plan[0].id)
    requires plan[0].id in db.memories && db.memories[plan[0].id].supersededBy != Some(plan[0].id)
    ensures RespectsSuccessors(db, plan) <==> RespectsSuccessors(d, plan[1..])
  {
    var rest := plan[1..];
    if RespectsSuccessors(db, plan) {
      forall i, r | 0 <= i < |rest| && r in d.memories && d.memories[r].supersededBy == Some(rest[i].id)
        ensures exists j :: 0 <= j < i && rest[j].id == r
      {
        assert plan[i + 1] == rest[i];
        var j :| 0 <= j < i + 1 && plan[j].id == r;
        assert rest[j - 1].id == r;
      }
    }
    if RespectsSuccessors(d, rest) {
      forall i, r | 0 <= i < |plan| && r in db.memories && db.memories[r].supersededBy == Some(plan[i].id)
        ensures exists j :: 0 <= j < i && plan[j].id == r
      {
        if r == plan[0].id { assert plan[0].id == r; }
        else {
          assert rest[i - 1] == plan[i];
          assert r in d.memories && d.memories[r].supersededBy == Some(rest[i - 1].id);
          var j :| 0 <= j < i - 1 && rest[j].id == r;
          assert plan[j + 1].id == r;
        }
      }
    }
  }

  lemma OperationsOfRest(db: Db, d: Db, plan: seq<Victim>)
    requires plan != [] && d.operations == db.operations
    requires forall k :: k in db.operations ==> db.operations[k].source != plan[0].id
    ensures NoOperations(db, plan) <==> NoOperations(d, plan[1..])
  {
    var rest := plan[1..];
    forall k, i | NoOperations(db, plan) && k in d.operations && 0 <= i < |rest|
      ensures d.operations[k].source != rest[i].id
    {
      assert rest[i] == plan[i + 1];
    }
    forall k, i | NoOperations(d, rest) && k in db.operations && 0 <= i < |plan|
      ensures db.operations[k].source != plan[i].id
    {
      if i > 0 { assert plan[i] == rest[i - 1]; }
    }
  }

  lemma HeadRestricted(db: Db, plan: seq<Victim>)
    requires Inv(db) && Current(db, plan) && plan != []
    requires ApplyDelete(Buried(db, plan[0].id), plan[0].id).Err?
    ensures !(RespectsSuccessors(db, plan) && NoOperations(db, plan))
  {
  }

  /** Every superseded member comes before its successor. */
  ghost predicate SupersededFirst(db: Db, plan: seq<Candidate>)
    requires forall i :: 0 <= i < |plan| ==> plan[i].id in db.memories
  {
    forall a, b :: 0 <= a < |plan| && 0 <= b < |plan| && db.memories[plan[a].id].supersededBy == Some(plan[b].id) ==>
      Before(plan[a], plan[b])
  }

  lemma EarlierExactly(plan: seq<Candidate>, a: nat, b: nat)
    requires Descending(plan) && a < |plan| && b < |plan|
    ensures Before(plan[a], plan[b]) <==> a < b
  {
    if a < b { assert Before(plan[a], plan[b]); }
    if b < a { assert Before(plan[b], plan[a]); }
  }

  lemma RespectGivesOrder(db: Db, root: Id, plan: seq<Candidate>)
    requires root in db.memories && PlanFor(db, root, plan) && RespectsSuccessors(db, VictimsOf(plan))
    ensures SupersededFirst(db, plan)
  {
    var victims := VictimsOf(plan);
    PlanIsCurrent(db, root, plan);
    forall a, b | 0 <= a < |plan| && 0 <= b < |plan| && db.memories[plan[a].id].supersededBy == Some(plan[b].id)
      ensures Before(plan[a], plan[b])
    {
      assert victims[b].id == plan[b].id && victims[a].id == plan[a].id;
      var j :| 0 <= j < b && victims[j].id == plan[a].id;
      assert j == a;
      EarlierExactly(plan, a, b);
    }
  }

  lemma OrderGivesRespect(db: Db, root: Id, plan: seq<Candidate>)
    requires root in db.memories && PlanFor(db, root, plan) && SupersededFirst(db, plan)
    ensures RespectsSuccessors(db, VictimsOf(plan))
  {
    var victims := VictimsOf(plan);
    forall i, r | 0 <= i < |victims| && r in db.memories && db.memories[r].supersededBy == Some(victims[i].id)
      ensures exists j :: 0 <= j < i && victims[j].id == r
    {
      SupersededInClosure(db, root, plan[i].id, r);
      var a :| 0 <= a < |plan| && plan[a].id == r;
      EarlierExactly(plan, a, i);
      assert victims[a].id == r;
    }
  }

  /** Executing a plan of the search, nothing having changed since, meets no restriction exactly
      when no victim is the source of a decompose operation and every superseded member lies
      strictly deeper than its successor, or level with it under a smaller id. It then
      removes the closure and nothing else. */
  lemma PlanExecutesExactly(db: Db, root: Id, plan: seq<Candidate>)
    requires Inv(db) && root in db.memories && PlanFor(db, root, plan)
    ensures ApplyCascade(db, VictimsOf(plan)).Ok? <==> NoOperations(db, VictimsOf(plan)) && SupersededFirst(db, plan)
    ensures ApplyCascade(db, VictimsOf(plan)).Ok? ==>
              ApplyCascade(db, VictimsOf(plan)).value.memories == db.memories - Closure(db, root)
  {
    var victims := VictimsOf(plan);
    PlanIsCurrent(db, root, plan);
    CascadeRunsExactly(db, victims);
    if RespectsSuccessors(db, victims) { RespectGivesOrder(db, root, plan); }
    if SupersededFirst(db, plan) { OrderGivesRespect(db, root, plan); }
  }

  /** Whatever happened since the plan was made, executing it succeeds exactly when every
      member still has its planned version, everything that now names one as successor goes
      before it, and no decompose operation names one as source. It removes the planned
      closure and nothing else: a dependent by lineage that came later stays. */
  lemma PlanExecutesLater(db: Db, root: Id, plan: seq<Candidate>, later: Db)
    requires root in db.memories && PlanFor(db, root, plan) && Inv(later)
    ensures ApplyCascade(later, VictimsOf(plan)).Ok? <==>
            Current(later, VictimsOf(plan)) && RespectsSuccessors(later, VictimsOf(plan))
              && NoOperations(later, VictimsOf(plan))
    ensures ApplyCascade(later, VictimsOf(plan)).Ok? ==>
              ApplyCascade(later, VictimsOf(plan)).value.memories == later.memories - Closure(db, root)
  {
    var victims := VictimsOf(plan);
    PlanIsCurrent(db, root, plan);
    if ApplyCascade(later, victims).Ok? { CascadeFindsCurrent(later, victims); }
    if Current(later, victims) { CascadeRunsExactly(later, victims); }
  }

  /** So a memory that came to name a planned member as its successor stops the cascade. */
  lemma LateSupersededStops(db: Db, root: Id, plan: seq<Candidate>, later: Db, r: Id)
    requires root in db.memories && PlanFor(db, root, plan) && Inv(later)
    requires r in later.memories && r !in Closure(db, root) && later.memories[r].supersededBy.Some?
    requires later.memories[r].supersededBy.value in Closure(db, root)
    ensures ApplyCascade(later, VictimsOf(plan)).Err?
  {
    var victims := VictimsOf(plan);
    PlanExecutesLater(db, root, plan, later);
    var i :| 0 <= i < |plan| && plan[i].id == later.memories[r].supersededBy.value;
    assert later.memories[r].supersededBy == Some(victims[i].id);
    if RespectsSuccessors(later, victims) {
      var j :| 0 <= j < i && victims[j].id == r;
      assert plan[j].id in Closure(db, root);
    }
  }

  lemma PlanIsCurrent(db: Db, root: Id, plan: seq<Candidate>)
    requires root in db.memories && PlanFor(db, root, plan)
    ensures Current(db, VictimsOf(plan)) && Ids(VictimsOf(plan)) == Closure(db, root)
  {
    var victims := VictimsOf(plan);
    forall i | 0 <= i < |victims|
      ensures victims[i].id in db.memories && db.memories[victims[i].id].version == victims[i].version
    {
      assert IsVictim(db, root, plan[i]);
    }
    forall i, j | 0 <= i < j < |victims| ensures victims[i].id != victims[j].id { NoVictimTwice(db, root, plan, i, j); }
    PlanIsClosure(db, root, plan);
  }

  lemma NoVictimTwice(db: Db, root: Id, plan: seq<Candidate>, i: nat, j: nat)
    requires root in db.memories && PlanFor(db, root, plan) && i < j < |plan|
    ensures plan[i].id != plan[j].id
  {
    assert Before(plan[i], plan[j]);
    OneDepth(db, root, plan[i], plan[j]);
  }

  lemma OneDepth(db: Db, root: Id, a: Candidate, b: Candidate)
    requires IsVictim(db, root, a) && IsVictim(db, root, b)
    ensures a.id == b.id ==> a.depth == b.depth
  {}

  lemma PlanIsClosure(db: Db, root: Id, plan: seq<Candidate>)
    requires root in db.memories && PlanFor(db, root, plan)
    ensures Ids(VictimsOf(plan)) == Closure(db, root)
  {
    var victims := VictimsOf(plan);
    forall id | id in Closure(db, root) ensures id in Ids(victims) {
      var i :| 0 <= i < |plan| && plan[i].id == id;
      assert victims[i].id == id;
    }
    forall id | id in Ids(victims) ensures id in Closure(db, root) {
      var i :| 0 <= i < |victims| && victims[i].id == id;
      assert plan[i].id in Closure(db, root);
    }
  }

  /** What a member is the successor of is a member too. */
  lemma SupersededInClosure(db: Db, root: Id, id: Id, r: Id)
    requires root in db.memories && id in Closure(db, root) && r in db.memories
             && db.memories[r].supersededBy == Some(id)
    ensures r in Closure(db, root)
  {
    var n: nat :| id in Within(db, root, n);
    assert DependsFor(db, id, r, Supersedes);
    assert DependsOnSome(db, Within(db, root, n), r);
    assert r in Within(db, root, n + 1);
  }

  /** A superseded memory whose successor depends on it, by whatever path, can be planned for
      but never deleted by a cascade rooted at it: its successor is deleted first, which it
      restricts. */
  lemma SupersededRootNeverDeleted(db: Db, root: Id, plan: seq<Candidate>)
    requires Inv(db) && root in db.memories && PlanFor(db, root, plan)
    requires db.memories[root].supersededBy.Some? && db.memories[root].supersededBy.value in Closure(db, root)
    ensures ApplyCascade(db, VictimsOf(plan)).Err?
  {
    PlanExecutesExactly(db, root, plan);
    assert LiveRow(db, root);
    RootSuccessorGoesFirst(db, root, plan);
  }

  lemma RootSuccessorGoesFirst(db: Db, root: Id, plan: seq<Candidate>)
    requires root in db.memories && PlanFor(db, root, plan) && db.memories[root].supersededBy != Some(root)
    requires db.memories[root].supersededBy.Some? && db.memories[root].supersededBy.value in Closure(db, root)
    ensures !SupersededFirst(db, plan)
  {
    var b :| 0 <= b < |plan| && plan[b].id == db.memories[root].supersededBy.value;
    EarlierExactly(plan, |plan| - 1, b);
  }

  /** Every lineage row from the memory to its successor puts the successor there, so no
      superseding, merging or moving write can be undone by a cascade from its source. */
  lemma SuccessorByLineage(db: Db, root: Id, why: Relation)
    requires Inv(db) && root in db.memories && db.memories[root].supersededBy.Some?
    requires Edge(root, db.memories[root].supersededBy.value, why) in db.lineage
    ensures db.memories[root].supersededBy.value in Closure(db, root)
  {
    assert LiveRow(db, root) && HasSuccessor(db, root);
    var s := db.memories[root].supersededBy.value;
    assert root in Within(db, root, 0);
    assert DependsFor(db, root, s, why);
    assert DependsOnSome(db, Within(db, root, 0), s);
    assert s in Within(db, root, 1);
  }
}
